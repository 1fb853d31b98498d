/**
 A batch that fails is redelivered whole. However often it fails, and wherever, the attempt
 that finally succeeds leaves what one clean attempt would have left.
 */
module Retry {
  import opened Wrappers
  import opened Canonical
  import opened Ledger
  import opened Durability
  import opened Handling

  ghost predicate SameRow(a: Row, b: Row) {
    a.(committedAt := 0) == b.(committedAt := 0)
  }

  /** `a` is `b` except for when rows were committed, and for duplicates, of which it may have more. */
  ghost predicate Settled(a: Ledger, b: Ledger) {
    && a.events.Keys == b.events.Keys
    && (forall h :: h in a.events ==> SameRow(a.events[h], b.events[h]))
    && match (a.position, b.position)
       case (None, None) => true
       case (Some(p), Some(q)) => p.(duplicates := 0) == q.(duplicates := 0) && p.duplicates >= q.duplicates
       case _ => false
  }

  /** The same decision, perhaps at another time. */
  ghost predicate SameEntry(e: Entry, e': Entry) {
    match (e, e')
    case (Accept(r, _), Accept(r', _)) => r == r'
    case (Refuse(q), Refuse(q')) => q == q'
    case _ => false
  }

  lemma SettledApply(a: Ledger, b: Ledger, e: Entry, e': Entry)
    requires Settled(a, b) && SameEntry(e, e')
    ensures Settled(Apply(a, e), Apply(b, e'))
  {
    if e.Accept? {
      var h := e.rec.eventHash;
      assert h in a.events.Keys <==> h in b.events.Keys;
      if h !in a.events {
        assert Apply(a, e).events.Keys == a.events.Keys + {h};
        assert Apply(b, e').events.Keys == b.events.Keys + {h};
      }
    }
  }

  lemma {:induction false} SettledReplay(a: Ledger, b: Ledger, es: seq<Entry>, es': seq<Entry>)
    requires Settled(a, b) && |es| == |es'|
    requires forall i :: 0 <= i < |es| ==> SameEntry(es[i], es'[i])
    ensures Settled(Replay(a, es), Replay(b, es'))
    decreases |es|
  {
    if es != [] {
      SettledApply(a, b, es[0], es'[0]);
      SettledReplay(Apply(a, es[0]), Apply(b, es'[0]), es[1..], es'[1..]);
    }
  }

  lemma SettledTransitive(a: Ledger, b: Ledger, c: Ledger)
    requires Settled(a, b) && Settled(b, c)
    ensures Settled(a, c)
  {
    forall h | h in a.events ensures SameRow(a.events[h], c.events[h]) {
      assert h in b.events.Keys;
      assert SameRow(a.events[h], b.events[h]) && SameRow(b.events[h], c.events[h]);
    }
  }

  /** The archive has the record and has walked past its sequence. */
  ghost predicate Holds(l: Ledger, r: BatchRecord) {
    && r.eventHash in l.events
    && l.position.Some? && l.position.value.firstSeq <= r.sequence <= l.position.value.highestSeq
  }

  lemma {:induction false} HoldsWhatItReplayed(l: Ledger, es: seq<Entry>, r: BatchRecord)
    requires Holds(l, r) || exists i :: 0 <= i < |es| && es[i].Accept? && es[i].rec == r
    ensures Holds(Replay(l, es), r)
    decreases |es|
  {
    if es != [] {
      if !Holds(l, r) {
        var i :| 0 <= i < |es| && es[i].Accept? && es[i].rec == r;
        if i > 0 {
          assert es[1..][i - 1] == es[i];
        }
      }
      HoldsWhatItReplayed(Apply(l, es[0]), es[1..], r);
    }
  }

  /** Delivering what the archive holds changes nothing but the duplicates. */
  lemma {:induction false} Absorbs(l: Ledger, recs: seq<BatchRecord>, at: int)
    requires forall r :: r in recs ==> Holds(l, r)
    ensures Settled(Replay(l, Accepts(recs, at)), l)
    decreases |recs|
  {
    if recs != [] {
      var l' := Apply(l, Accept(recs[0], at));
      assert Accepts(recs, at)[1..] == Accepts(recs[1..], at);
      forall r | r in recs[1..] ensures Holds(l', r) {
        assert Holds(l, r);
      }
      assert Holds(l, recs[0]);
      Absorbs(l', recs[1..], at);
      SettledTransitive(Replay(l', Accepts(recs[1..], at)), l', l);
    }
  }

  lemma SameAccepts(recs: seq<BatchRecord>, at: int, at': int)
    ensures |Accepts(recs, at)| == |Accepts(recs, at')|
    ensures forall i :: 0 <= i < |recs| ==> SameEntry(Accepts(recs, at)[i], Accepts(recs, at')[i])
  {}

  lemma HoldsThePrefix(l: Ledger, s: Ledger, recs: seq<BatchRecord>, at: int)
    requires Settled(s, Replay(l, Accepts(recs, at)))
    ensures forall r :: r in recs ==> Holds(s, r)
  {
    forall r | r in recs ensures Holds(s, r) {
      var i :| 0 <= i < |recs| && recs[i] == r;
      assert Accepts(recs, at)[i].rec == r;
      HoldsWhatItReplayed(l, Accepts(recs, at), r);
      assert r.eventHash in s.events.Keys;
    }
  }

  lemma AcceptsSplit(l: Ledger, a: seq<BatchRecord>, b: seq<BatchRecord>, at: int)
    ensures Replay(l, Accepts(a + b, at)) == Replay(Replay(l, Accepts(a, at)), Accepts(b, at))
  {
    assert Accepts(a + b, at) == Accepts(a, at) + Accepts(b, at);
    ReplayAppend(l, Accepts(a, at), Accepts(b, at));
  }

  /** Having got as far as `k`, starting again and getting as far as `j` is having got to the farther. */
  lemma CatchUp(l: Ledger, s: Ledger, recs: seq<BatchRecord>, k: nat, j: nat, at: int, at': int)
    requires k <= |recs| && j <= |recs|
    requires Settled(s, Replay(l, Accepts(recs[..k], at)))
    ensures Settled(Replay(s, Accepts(recs[..j], at')), Replay(l, Accepts(recs[..Max(k, j)], at)))
  {
    var m := if j <= k then j else k;
    var reached := Replay(l, Accepts(recs[..k], at));
    HoldsThePrefix(l, s, recs[..k], at);
    assert forall r :: r in recs[..m] ==> r in recs[..k];
    Absorbs(s, recs[..m], at');
    SettledTransitive(Replay(s, Accepts(recs[..m], at')), s, reached);
    if k < j {
      var more := recs[k..j];
      assert recs[..j] == recs[..k] + more;
      SameAccepts(more, at', at);
      SettledReplay(Replay(s, Accepts(recs[..k], at')), reached, Accepts(more, at'), Accepts(more, at));
      AcceptsSplit(s, recs[..k], more, at');
      AcceptsSplit(l, recs[..k], more, at);
    }
  }

  /** The same for blobs: they are there or they are not. */
  lemma {:induction false} BlobsCatchUp(blobs: map<Digest, File>, recs: seq<BatchRecord>, k: nat, j: nat)
    requires k <= |recs| && j <= |recs|
    requires PutBlobs(blobs, recs[..k]).Some?
    requires PutBlobs(PutBlobs(blobs, recs[..k]).value, recs[..j]).Some?
    ensures PutBlobs(blobs, recs[..Max(k, j)]) == PutBlobs(PutBlobs(blobs, recs[..k]).value, recs[..j])
  {
    var there := PutBlobs(blobs, recs[..k]).value;
    var m := if j <= k then j else k;
    assert recs[..k] == recs[..m] + recs[m..k];
    PutBlobsAppend(blobs, recs[..m], recs[m..k]);
    BlobsOnlyGrow(PutBlobs(blobs, recs[..m]).value, recs[m..k]);
    PutTwice(blobs, recs[..m], there);
    if k < j {
      assert recs[..j] == recs[..k] + recs[k..j];
      PutBlobsAppend(blobs, recs[..k], recs[k..j]);
      PutBlobsAppend(there, recs[..k], recs[k..j]);
    }
  }

  ghost predicate Contains(big: map<Digest, File>, small: map<Digest, File>) {
    forall h :: h in small ==> h in big && big[h] == small[h]
  }

  lemma {:induction false} BlobsOnlyGrow(blobs: map<Digest, File>, recs: seq<BatchRecord>)
    requires PutBlobs(blobs, recs).Some?
    ensures Contains(PutBlobs(blobs, recs).value, blobs)
    decreases |recs|
  {
    if recs != [] {
      var r := recs[0];
      var next := if Oversized(r) && r.eventHash !in blobs then blobs[r.eventHash := File(r.payload, true)] else blobs;
      BlobsOnlyGrow(next, recs[1..]);
    }
  }

  lemma {:induction false} PutTwice(blobs: map<Digest, File>, recs: seq<BatchRecord>, there: map<Digest, File>)
    requires PutBlobs(blobs, recs).Some? && Contains(there, PutBlobs(blobs, recs).value)
    ensures PutBlobs(there, recs) == Some(there)
    decreases |recs|
  {
    if recs != [] {
      var r := recs[0];
      var next := if Oversized(r) && r.eventHash !in blobs then blobs[r.eventHash := File(r.payload, true)] else blobs;
      BlobsOnlyGrow(next, recs[1..]);
      PutTwice(next, recs[1..], there);
    }
  }

  /** One attempt: where the storage gives out, and what the clock says. */
  datatype Try = Try(fault: Fault, at: int)

  function Attempted(H: HashFn, d: Disk, batch: seq<Item>, t: Try): Attempt {
    Handle(H, d, t.fault, batch, t.at)
  }

  /** The disk after attempts that all returned an error, or none when one of them did not. */
  function AfterFailures(H: HashFn, d: Disk, batch: seq<Item>, tries: seq<Try>): Option<Disk>
    decreases |tries|
  {
    if tries == [] then Some(d)
    else
      var a := Attempted(H, d, batch, tries[0]);
      if a.error == None then None else AfterFailures(H, a.disk, batch, tries[1..])
  }

  /** Failed attempts add up to one attempt that got some part of the way. */
  lemma {:induction false} FailuresAreAPrefix(
    H: HashFn, d: Disk, s: Disk, batch: seq<Item>, tries: seq<Try>, at: int, k0: nat, j0: nat)
    returns (k: nat, j: nat)
    requires AfterFailures(H, s, batch, tries).Some?
    requires k0 <= |Kept(H, batch)| && j0 <= |Kept(H, batch)|
    requires Settled(s.ledger, Replay(d.ledger, Accepts(Kept(H, batch)[..k0], at)))
    requires PutBlobs(d.blobs, Kept(H, batch)[..j0]) == Some(s.blobs)
    ensures k <= |Kept(H, batch)| && j <= |Kept(H, batch)|
    ensures var s' := AfterFailures(H, s, batch, tries).value;
      && Settled(s'.ledger, Replay(d.ledger, Accepts(Kept(H, batch)[..k], at)))
      && PutBlobs(d.blobs, Kept(H, batch)[..j]) == Some(s'.blobs)
    decreases |tries|
  {
    k, j := k0, j0;
    if tries != [] {
      var t, kept := tries[0], Kept(H, batch);
      var k1, j1 := HandleProgress(H, s, t.fault, batch, t.at);
      CatchUp(d.ledger, s.ledger, kept, k0, k1, at, t.at);
      BlobsCatchUp(d.blobs, kept, j0, j1);
      k, j := FailuresAreAPrefix(
        H, d, Attempted(H, s, batch, t).disk, batch, tries[1..], at, Max(k0, k1), Max(j0, j1));
    }
  }

  lemma SettledReflexive(a: Ledger)
    ensures Settled(a, a)
  {}

  /**
   Any number of attempts that fail, each anywhere, then one that succeeds: the same rows under
   the same hashes, the same blobs, range, commits and refusals as one clean attempt. Only the
   duplicates can be more.
   */
  lemma RetriesConverge(H: HashFn, d: Disk, batch: seq<Item>, failures: seq<Try>, last: Try, clean: Try)
    requires AfterFailures(H, d, batch, failures).Some?
    requires Attempted(H, AfterFailures(H, d, batch, failures).value, batch, last).error == None
    requires Attempted(H, d, batch, clean).error == None
    ensures var final := Attempted(H, AfterFailures(H, d, batch, failures).value, batch, last).disk;
      var once := Attempted(H, d, batch, clean).disk;
      Settled(final.ledger, once.ledger) && final.blobs == once.blobs
  {
    var s, kept := AfterFailures(H, d, batch, failures).value, Kept(H, batch);
    var final, once := Attempted(H, s, batch, last).disk, Attempted(H, d, batch, clean).disk;
    SettledReflexive(d.ledger);
    assert kept[..0] == [] && Accepts([], clean.at) == [];
    var k, j := FailuresAreAPrefix(H, d, d, batch, failures, clean.at, 0, 0);
    var k1, j1 := HandleProgress(H, s, last.fault, batch, last.at);
    var k2, j2 := HandleProgress(H, d, clean.fault, batch, clean.at);
    assert kept[..|kept|] == kept;
    CatchUp(d.ledger, s.ledger, kept, k, |kept|, clean.at, last.at);
    BlobsCatchUp(d.blobs, kept, j, |kept|);
    var refused := Refuses(Refusals(H, batch));
    ReplayAppend(s.ledger, Accepts(kept, last.at), refused);
    ReplayAppend(d.ledger, Accepts(kept, clean.at), refused);
    SettledReplay(
      Replay(s.ledger, Accepts(kept, last.at)), Replay(d.ledger, Accepts(kept, clean.at)), refused, refused);
  }
}
