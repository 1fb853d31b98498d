/**
 What is on the disk, and what one call to the archive's batched commit does to it, wherever
 in the call the storage stops working.

 A `Fault` says how many durable operations still complete. When they run out the next one
 fails; `crash` says whether the process died with it (nothing is cleaned up) or lived to see
 the error (the temporary file is removed). Quantifying over every fault is quantifying over
 every prefix of the call's durable micro-steps.
 */
module Durability {
  import opened Wrappers
  import opened Canonical
  import opened Ledger

  datatype Error = NoSequence | HashMismatch | BlobCollision | StorageFailure | NotFound

  /** A file's bytes, and whether they have been flushed. */
  datatype File = File(content: Bytes, synced: bool)

  /** Everything that outlives the process: the database, the named blobs, leftover temporary files. */
  datatype Disk = Disk(ledger: Ledger, blobs: map<Digest, File>, temps: seq<File>)

  datatype Fault = Fault(fuel: nat, crash: bool)

  /** The outcome of a call: the disk, the fault still to come, the error, the entries committed. */
  datatype Attempt = Attempt(disk: Disk, fault: Fault, error: Option<Error>, log: seq<Entry>)

  /** Create, write, sync, rename. */
  const BLOB_STEPS: nat := 4

  /** What a temporary file looks like after `steps` of the first three of them. */
  function LeftBehind(payload: Bytes, steps: nat): seq<File> {
    if steps == 0 then []
    else if steps == 1 then [File([], false)]
    else [File(payload, steps >= 3)]
  }

  function WriteBlob(d: Disk, f: Fault, h: Digest, payload: Bytes): Attempt {
    if h in d.blobs then
      Attempt(d, f, if d.blobs[h].content == payload then None else Some(BlobCollision), [])
    else if f.fuel >= BLOB_STEPS then
      Attempt(d.(blobs := d.blobs[h := File(payload, true)]), f.(fuel := f.fuel - BLOB_STEPS), None, [])
    else
      Attempt(d.(temps := d.temps + if f.crash then LeftBehind(payload, f.fuel) else []),
              f.(fuel := 0), Some(StorageFailure), [])
  }

  /** The blobs of the oversized records, in order, up to the first failure. */
  function WriteBlobs(d: Disk, f: Fault, recs: seq<BatchRecord>): Attempt
    decreases |recs|
  {
    if recs == [] then Attempt(d, f, None, [])
    else if !Oversized(recs[0]) then WriteBlobs(d, f, recs[1..])
    else
      var w := WriteBlob(d, f, recs[0].eventHash, recs[0].payload);
      if w.error.Some? then w else WriteBlobs(w.disk, w.fault, recs[1..])
  }

  predicate Matches(H: HashFn, r: BatchRecord) {
    H(r.payload) == r.eventHash
  }

  /** The first reason, in order, why a batch must not be written at all. */
  function Verify(H: HashFn, recs: seq<BatchRecord>): Option<Error> {
    if recs == [] then None
    else if recs[0].sequence == 0 then Some(NoSequence)
    else if !Matches(H, recs[0]) then Some(HashMismatch)
    else Verify(H, recs[1..])
  }

  /** One transaction: all of the entries, or none. */
  function CommitTx(d: Disk, f: Fault, es: seq<Entry>): Attempt {
    if f.fuel == 0 then Attempt(d, f, Some(StorageFailure), [])
    else Attempt(d.(ledger := Replay(d.ledger, es)), f.(fuel := f.fuel - 1), None, es)
  }

  function AppendBatch(
    H: HashFn, d: Disk, f: Fault, recs: seq<BatchRecord>, rejected: seq<nat>, at: int): Attempt
  {
    if recs == [] && rejected == [] then Attempt(d, f, None, [])
    else
      match Verify(H, recs)
      case Some(e) => Attempt(d, f, Some(e), [])
      case None =>
        var w := WriteBlobs(d, f, recs);
        if w.error.Some? then w
        else if 0 in rejected then w.(error := Some(NoSequence))
        else CommitTx(w.disk, w.fault, Entries(recs, rejected, at))
  }

  /** A batch of one: the check, its blob if it needs one, its row and position. */
  lemma BatchOfOne(H: HashFn, d: Disk, f: Fault, r: BatchRecord, at: int)
    ensures AppendBatch(H, d, f, [r], [], at) ==
      if r.sequence == 0 then Attempt(d, f, Some(NoSequence), [])
      else if !Matches(H, r) then Attempt(d, f, Some(HashMismatch), [])
      else
        var w := if Oversized(r) then WriteBlob(d, f, r.eventHash, r.payload) else Attempt(d, f, None, []);
        if w.error.Some? then w else CommitTx(w.disk, w.fault, [Accept(r, at)])
  {
    var w := if Oversized(r) then WriteBlob(d, f, r.eventHash, r.payload) else Attempt(d, f, None, []);
    assert [r][1..] == [];
    assert w.error == None ==> WriteBlobs(w.disk, w.fault, []) == Attempt(w.disk, w.fault, None, []);
    assert Verify(H, [r][1..]) == None;
    assert Entries([r], [], at) == [Accept(r, at)];
  }

  function ReadBlob(H: HashFn, d: Disk, h: Digest): Result<Bytes, Error> {
    if h in d.ledger.events && d.ledger.events[h].payload.Some? then
      var inline := d.ledger.events[h].payload.value;
      if H(inline) == h then Success(inline) else Failure(HashMismatch)
    else if h in d.blobs then
      var payload := d.blobs[h].content;
      if H(payload) == h then Success(payload) else Failure(HashMismatch)
    else Failure(NotFound)
  }

  // ---- Crash safety ----

  ghost predicate RowSound(H: HashFn, d: Disk, h: Digest)
    requires h in d.ledger.events
  {
    match d.ledger.events[h].payload
    case Some(inline) => H(inline) == h
    case None => h in d.blobs
  }

  /** Every named blob is complete and is what its name says; every row leads to such bytes. */
  ghost predicate Sound(H: HashFn, d: Disk) {
    && (forall h :: h in d.ledger.events ==> RowSound(H, d, h))
    && (forall h :: h in d.blobs ==> d.blobs[h].synced && H(d.blobs[h].content) == h)
  }

  /** A flushed file survives a crash; any other is left with some prefix of its bytes. */
  ghost predicate Survives(f: File, f': File) {
    if f.synced then f' == f else f'.content <= f.content
  }

  ghost predicate CrashOf(d: Disk, d': Disk) {
    && d'.ledger == d.ledger
    && d'.blobs.Keys == d.blobs.Keys
    && (forall h :: h in d.blobs ==> Survives(d.blobs[h], d'.blobs[h]))
    && |d'.temps| == |d.temps|
    && (forall i :: 0 <= i < |d.temps| ==> Survives(d.temps[i], d'.temps[i]))
  }

  lemma CrashLosesNothing(H: HashFn, d: Disk, d': Disk)
    requires Sound(H, d) && CrashOf(d, d')
    ensures Sound(H, d') && d'.ledger == d.ledger && d'.blobs == d.blobs
  {
    forall h | h in d.blobs ensures d'.blobs[h] == d.blobs[h] {
      assert Survives(d.blobs[h], d'.blobs[h]);
    }
  }

  /** A row that exists can be read back, and the bytes are the ones its key names. */
  lemma RowsAreReadable(H: HashFn, d: Disk, h: Digest)
    requires Sound(H, d) && h in d.ledger.events
    ensures ReadBlob(H, d, h).Success? && H(ReadBlob(H, d, h).value) == h
  {
    assert RowSound(H, d, h);
  }

  /** Blobs are only ever added, each under the hash of its own bytes. */
  ghost predicate BlobsGrow(H: HashFn, d: Disk, d': Disk) {
    && (forall h :: h in d.blobs ==> h in d'.blobs && d'.blobs[h] == d.blobs[h])
    && (forall h :: h in d'.blobs && h !in d.blobs ==> d'.blobs[h].synced && H(d'.blobs[h].content) == h)
  }

  lemma {:induction false} WriteBlobsGrow(H: HashFn, d: Disk, f: Fault, recs: seq<BatchRecord>)
    requires Verify(H, recs) == None
    ensures var w := WriteBlobs(d, f, recs);
      && w.disk.ledger == d.ledger
      && w.log == []
      && BlobsGrow(H, d, w.disk)
      && (w.error == None ==> forall r :: r in recs && Oversized(r) ==> r.eventHash in w.disk.blobs)
    decreases |recs|
  {
    if recs != [] {
      var r := recs[0];
      assert forall x :: x in recs <==> x == r || x in recs[1..];
      if !Oversized(r) {
        WriteBlobsGrow(H, d, f, recs[1..]);
      } else {
        var w := WriteBlob(d, f, r.eventHash, r.payload);
        if w.error.None? {
          WriteBlobsGrow(H, w.disk, w.fault, recs[1..]);
        }
      }
    }
  }

  lemma {:induction false} VerifiedRecords(H: HashFn, recs: seq<BatchRecord>)
    ensures Verify(H, recs) == None <==> forall r :: r in recs ==> r.sequence > 0 && Matches(H, r)
  {
    if recs != [] {
      VerifiedRecords(H, recs[1..]);
      assert forall x :: x in recs <==> x == recs[0] || x in recs[1..];
    }
  }

  lemma {:induction false} ReplayKeepsRowsSound(H: HashFn, d: Disk, es: seq<Entry>)
    requires Sound(H, d)
    requires forall e :: e in es && e.Accept? ==> Matches(H, e.rec)
    requires forall e :: e in es && e.Accept? && Oversized(e.rec) ==> e.rec.eventHash in d.blobs
    ensures Sound(H, d.(ledger := Replay(d.ledger, es)))
    decreases |es|
  {
    if es != [] {
      var d' := d.(ledger := Apply(d.ledger, es[0]));
      forall h | h in d'.ledger.events ensures RowSound(H, d', h) {
        if h in d.ledger.events {
          assert RowSound(H, d, h);
        }
      }
      ReplayKeepsRowsSound(H, d', es[1..]);
      assert d.(ledger := Replay(d.ledger, es)) == d'.(ledger := Replay(d'.ledger, es[1..]));
    }
  }

  /** An error leaves rows and position alone; success commits exactly the entries asked for. */
  lemma CommitIsAllOrNothing(
    H: HashFn, d: Disk, f: Fault, recs: seq<BatchRecord>, rejected: seq<nat>, at: int)
    requires Sound(H, d)
    ensures var a := AppendBatch(H, d, f, recs, rejected, at);
      && Sound(H, a.disk)
      && BlobsGrow(H, d, a.disk)
      && a.disk.ledger == Replay(d.ledger, a.log)
      && a.log == (if a.error == None then Entries(recs, rejected, at) else [])
  {
    if Verify(H, recs) == None {
      WriteBlobsGrow(H, d, f, recs);
      VerifiedRecords(H, recs);
      var w := WriteBlobs(d, f, recs);
      assert Sound(H, w.disk) by {
        forall h | h in w.disk.ledger.events ensures RowSound(H, w.disk, h) {
          assert RowSound(H, d, h);
        }
      }
      if w.error == None {
        EntriesComeFromTheBatch(recs, rejected, at);
        ReplayKeepsRowsSound(H, w.disk, Entries(recs, rejected, at));
      }
    }
  }

  /** Wherever the call stops, and whatever a crash there does, every row still leads to bytes that hash to its key. */
  lemma CommitIsCrashSafe(
    H: HashFn, d: Disk, f: Fault, recs: seq<BatchRecord>, rejected: seq<nat>, at: int, after: Disk)
    requires Sound(H, d)
    requires CrashOf(AppendBatch(H, d, f, recs, rejected, at).disk, after)
    ensures Sound(H, after) && BlobsGrow(H, d, after)
    ensures after.ledger == d.ledger || after.ledger == Replay(d.ledger, Entries(recs, rejected, at))
    ensures forall h :: h in after.ledger.events ==> ReadBlob(H, after, h).Success?
  {
    CommitIsAllOrNothing(H, d, f, recs, rejected, at);
    CrashLosesNothing(H, AppendBatch(H, d, f, recs, rejected, at).disk, after);
    forall h | h in after.ledger.events ensures ReadBlob(H, after, h).Success? {
      RowsAreReadable(H, after, h);
    }
  }

  // ---- A batch is its records one at a time ----

  /** AppendCanonicalAt on each record, then RecordRejected on each refusal. */
  function Singles(
    H: HashFn, d: Disk, f: Fault, recs: seq<BatchRecord>, rejected: seq<nat>, at: int): Attempt
    decreases |recs|, |rejected|
  {
    if recs != [] then
      var a := AppendBatch(H, d, f, [recs[0]], [], at);
      if a.error.Some? then a
      else
        var b := Singles(H, a.disk, a.fault, recs[1..], rejected, at);
        b.(log := a.log + b.log)
    else if rejected != [] then
      var a := AppendBatch(H, d, f, [], [rejected[0]], at);
      if a.error.Some? then a
      else
        var b := Singles(H, a.disk, a.fault, recs, rejected[1..], at);
        b.(log := a.log + b.log)
    else Attempt(d, f, None, [])
  }

  /** The durable operations the slowest run of `Singles` can need. */
  function Enough(recs: seq<BatchRecord>, rejected: seq<nat>): nat {
    (BLOB_STEPS + 1) * |recs| + |rejected|
  }

  /** The blobs a batch leaves when nothing fails; none when two contents claim one hash. */
  function PutBlobs(blobs: map<Digest, File>, recs: seq<BatchRecord>): Option<map<Digest, File>>
    decreases |recs|
  {
    if recs == [] then Some(blobs)
    else
      var r := recs[0];
      if !Oversized(r) then PutBlobs(blobs, recs[1..])
      else if r.eventHash !in blobs then PutBlobs(blobs[r.eventHash := File(r.payload, true)], recs[1..])
      else if blobs[r.eventHash].content == r.payload then PutBlobs(blobs, recs[1..])
      else None
  }

  /** Two contents claimed for one hash that cannot both be its blob. */
  predicate Clash(r: BatchRecord, s: BatchRecord) {
    Oversized(r) && Oversized(s) && r.eventHash == s.eventHash && r.payload != s.payload
  }

  predicate ClashesWithBlob(blobs: map<Digest, File>, r: BatchRecord) {
    Oversized(r) && r.eventHash in blobs && blobs[r.eventHash].content != r.payload
  }

  /** No two of the oversized contents, and none of them and a blob already there, differ under one hash. */
  ghost predicate Agree(blobs: map<Digest, File>, recs: seq<BatchRecord>) {
    && (forall r :: r in recs ==> !ClashesWithBlob(blobs, r))
    && (forall r, s :: r in recs && s in recs ==> !Clash(r, s))
  }

  lemma AgreeNext(blobs: map<Digest, File>, r: BatchRecord, rest: seq<BatchRecord>)
    ensures Agree(blobs, [r] + rest) <==>
      if !Oversized(r) then Agree(blobs, rest)
      else !ClashesWithBlob(blobs, r) && Agree(blobs[r.eventHash := File(r.payload, true)], rest)
  {
    var next := blobs[r.eventHash := File(r.payload, true)];
    assert forall x :: x in [r] + rest <==> x == r || x in rest;
    if Oversized(r) && !ClashesWithBlob(blobs, r) {
      forall x | x in rest
        ensures ClashesWithBlob(next, x) <==> ClashesWithBlob(blobs, x) || Clash(r, x)
        ensures Clash(x, r) == Clash(r, x)
      {}
    }
  }

  lemma AgreeOnContents(a: map<Digest, File>, b: map<Digest, File>, recs: seq<BatchRecord>)
    requires a.Keys == b.Keys && forall h :: h in a ==> a[h].content == b[h].content
    ensures Agree(a, recs) <==> Agree(b, recs)
  {}

  /** The blobs of a batch can all be put exactly when its oversized contents agree. */
  lemma {:induction false} PutsExactlyWhenTheyAgree(blobs: map<Digest, File>, recs: seq<BatchRecord>)
    ensures PutBlobs(blobs, recs).Some? <==> Agree(blobs, recs)
    decreases |recs|
  {
    if recs != [] {
      var r, rest := recs[0], recs[1..];
      var next := blobs[r.eventHash := File(r.payload, true)];
      assert recs == [r] + rest;
      AgreeNext(blobs, r, rest);
      hide Agree;
      PutsExactlyWhenTheyAgree(if Oversized(r) && r.eventHash !in blobs then next else blobs, rest);
      if Oversized(r) && r.eventHash in blobs && !ClashesWithBlob(blobs, r) {
        AgreeOnContents(blobs, next, rest);
      }
    }
  }

  /** Writing blobs is putting them, as far as the fault lets it get. */
  lemma {:induction false} WriteBlobsPuts(d: Disk, f: Fault, recs: seq<BatchRecord>) returns (j: nat)
    ensures j <= |recs|
    ensures var w := WriteBlobs(d, f, recs);
      && w.disk.ledger == d.ledger && w.log == []
      && PutBlobs(d.blobs, recs[..j]) == Some(w.disk.blobs)
      && (w.error == None ==>
            && j == |recs| && w.disk.temps == d.temps
            && w.fault.crash == f.crash && w.fault.fuel >= f.fuel - BLOB_STEPS * |recs|)
      && (f.fuel >= BLOB_STEPS * |recs| ==> (w.error == None <==> PutBlobs(d.blobs, recs).Some?))
      && (w.error.Some? ==> w.error.value == BlobCollision || w.error.value == StorageFailure)
    decreases |recs|
  {
    j := 0;
    if recs != [] {
      var r := recs[0];
      var w := if Oversized(r) then WriteBlob(d, f, r.eventHash, r.payload) else Attempt(d, f, None, []);
      if w.error == None {
        j := WriteBlobsPuts(w.disk, w.fault, recs[1..]);
        j := j + 1;
        assert recs[..j] == [r] + recs[1..][..j - 1];
      }
    } else {
      assert recs[..j] == recs;
    }
  }

  ghost predicate Writable(H: HashFn, blobs: map<Digest, File>, recs: seq<BatchRecord>, rejected: seq<nat>) {
    Verify(H, recs) == None && PutBlobs(blobs, recs).Some? && 0 !in rejected
  }

  /** What a write with room to finish comes to. */
  ghost predicate WroteAll(
    H: HashFn, d: Disk, a: Attempt, recs: seq<BatchRecord>, rejected: seq<nat>, at: int)
  {
    && (a.error == None <==> Writable(H, d.blobs, recs, rejected))
    && (a.error == None ==>
          && a.disk == Disk(Replay(d.ledger, Entries(recs, rejected, at)), PutBlobs(d.blobs, recs).value, d.temps)
          && a.log == Entries(recs, rejected, at))
  }

  lemma BatchWithEnough(
    H: HashFn, d: Disk, f: Fault, recs: seq<BatchRecord>, rejected: seq<nat>, at: int)
    requires f.fuel >= BLOB_STEPS * |recs| + 1
    ensures WroteAll(H, d, AppendBatch(H, d, f, recs, rejected, at), recs, rejected, at)
    ensures var a := AppendBatch(H, d, f, recs, rejected, at);
      a.error == None ==> a.fault.fuel >= f.fuel - BLOB_STEPS * |recs| - 1
  {
    var j := WriteBlobsPuts(d, f, recs);
    assert recs[..|recs|] == recs;
  }

  lemma FirstRecordFirst(H: HashFn, blobs: map<Digest, File>, recs: seq<BatchRecord>)
    requires recs != []
    ensures Verify(H, recs) == (if Verify(H, [recs[0]]) == None then Verify(H, recs[1..]) else Verify(H, [recs[0]]))
    ensures match PutBlobs(blobs, [recs[0]])
      case None => PutBlobs(blobs, recs) == None
      case Some(b) => PutBlobs(blobs, recs) == PutBlobs(b, recs[1..])
  {
    assert [recs[0]][1..] == [];
    assert PutBlobs(blobs, []).Some?;
    assert PutBlobs(blobs[recs[0].eventHash := File(recs[0].payload, true)], []).Some?;
  }

  lemma OneRecordThenTheRest(
    H: HashFn, d: Disk, a: Attempt, b: Attempt, recs: seq<BatchRecord>, rejected: seq<nat>, at: int)
    requires recs != []
    requires WroteAll(H, d, a, [recs[0]], [], at) && a.error == None
    requires WroteAll(H, a.disk, b, recs[1..], rejected, at)
    ensures WroteAll(H, d, b.(log := a.log + b.log), recs, rejected, at)
  {
    FirstRecordFirst(H, d.blobs, recs);
    assert Entries([recs[0]], [], at) == [Accept(recs[0], at)];
    assert Entries(recs, rejected, at) == [Accept(recs[0], at)] + Entries(recs[1..], rejected, at);
    ReplayAppend(d.ledger, [Accept(recs[0], at)], Entries(recs[1..], rejected, at));
  }

  lemma OneRefusalThenTheRest(H: HashFn, d: Disk, a: Attempt, b: Attempt, rejected: seq<nat>, at: int)
    requires rejected != []
    requires WroteAll(H, d, a, [], [rejected[0]], at) && a.error == None
    requires WroteAll(H, a.disk, b, [], rejected[1..], at)
    ensures WroteAll(H, d, b.(log := a.log + b.log), [], rejected, at)
  {
    assert Entries([], [rejected[0]], at) == [Refuse(rejected[0])];
    assert forall q :: q in rejected <==> q == rejected[0] || q in rejected[1..];
    assert Entries([], rejected, at) == [Refuse(rejected[0])] + Entries([], rejected[1..], at);
    ReplayAppend(d.ledger, [Refuse(rejected[0])], Entries([], rejected[1..], at));
  }

  lemma {:induction false} SinglesWithEnough(
    H: HashFn, d: Disk, f: Fault, recs: seq<BatchRecord>, rejected: seq<nat>, at: int)
    requires f.fuel >= Enough(recs, rejected)
    ensures WroteAll(H, d, Singles(H, d, f, recs, rejected, at), recs, rejected, at)
    decreases |recs|, |rejected|
  {
    if recs != [] {
      var a := AppendBatch(H, d, f, [recs[0]], [], at);
      BatchWithEnough(H, d, f, [recs[0]], [], at);
      if a.error == None {
        SinglesWithEnough(H, a.disk, a.fault, recs[1..], rejected, at);
        OneRecordThenTheRest(
          H, d, a, Singles(H, a.disk, a.fault, recs[1..], rejected, at), recs, rejected, at);
      } else {
        FirstRecordFirst(H, d.blobs, recs);
      }
    } else if rejected != [] {
      var a := AppendBatch(H, d, f, [], [rejected[0]], at);
      BatchWithEnough(H, d, f, [], [rejected[0]], at);
      if a.error == None {
        SinglesWithEnough(H, a.disk, a.fault, [], rejected[1..], at);
        OneRefusalThenTheRest(H, d, a, Singles(H, a.disk, a.fault, [], rejected[1..], at), rejected, at);
      }
    }
  }

  /** A batched commit succeeds exactly when its records and refusals would one by one, and leaves the same disk. */
  lemma BatchRefinesSingles(
    H: HashFn, d: Disk, f: Fault, g: Fault, recs: seq<BatchRecord>, rejected: seq<nat>, at: int)
    requires f.fuel >= BLOB_STEPS * |recs| + 1 && g.fuel >= Enough(recs, rejected)
    ensures var a, s := AppendBatch(H, d, f, recs, rejected, at), Singles(H, d, g, recs, rejected, at);
      && (a.error == None <==> s.error == None)
      && (a.error == None ==> a.disk == s.disk && a.log == s.log)
  {
    BatchWithEnough(H, d, f, recs, rejected, at);
    SinglesWithEnough(H, d, g, recs, rejected, at);
  }

  /** The same of any call to the batched commit that succeeds, however close its storage came to failing. */
  lemma BatchDoneIsSinglesDone(
    H: HashFn, d: Disk, f: Fault, g: Fault, recs: seq<BatchRecord>, rejected: seq<nat>, at: int)
    requires AppendBatch(H, d, f, recs, rejected, at).error == None && g.fuel >= Enough(recs, rejected)
    ensures var a, s := AppendBatch(H, d, f, recs, rejected, at), Singles(H, d, g, recs, rejected, at);
      s.error == None && a.disk == s.disk && a.log == s.log
  {
    DoneIsAll(H, d, f, recs, rejected, at);
    SinglesWithEnough(H, d, g, recs, rejected, at);
    hide AppendBatch, Singles;
  }

  lemma DoneIsAll(H: HashFn, d: Disk, f: Fault, recs: seq<BatchRecord>, rejected: seq<nat>, at: int)
    requires AppendBatch(H, d, f, recs, rejected, at).error == None
    ensures WroteAll(H, d, AppendBatch(H, d, f, recs, rejected, at), recs, rejected, at)
  {
    var j := WriteBlobsPuts(d, f, recs);
    assert recs[..|recs|] == recs;
    if recs == [] && rejected == [] {
      assert Entries([], [], at) == [] && Replay(d.ledger, []) == d.ledger;
    }
  }

  // ---- What a call leaves, named ----

  /** After a commit that succeeds every new row describes a record of the batch, and the old rows stand. */
  lemma CommitDescribesRows(H: HashFn, d: Disk, f: Fault, recs: seq<BatchRecord>, rejected: seq<nat>, at: int)
    requires AppendBatch(H, d, f, recs, rejected, at).error == None
    ensures RowsDescribe(
              d.ledger.events, AppendBatch(H, d, f, recs, rejected, at).disk.ledger.events, recs, at)
  {
    DoneIsAll(H, d, f, recs, rejected, at);
    EntriesDescribe(d.ledger, recs, rejected, at);
    hide AppendBatch, RowsDescribe, Entries, Replay;
  }

  /** The error names the first record that is wrong: it has no sequence, or its bytes are not its hash's. */
  lemma {:induction false} VerifyNamesTheFirst(H: HashFn, recs: seq<BatchRecord>) returns (i: nat)
    requires Verify(H, recs).Some?
    ensures i < |recs| && forall j :: 0 <= j < i ==> recs[j].sequence > 0 && H(recs[j].payload) == recs[j].eventHash
    ensures if recs[i].sequence == 0 then Verify(H, recs) == Some(NoSequence)
            else H(recs[i].payload) != recs[i].eventHash && Verify(H, recs) == Some(HashMismatch)
  {
    i := 0;
    if recs[0].sequence > 0 && Matches(H, recs[0]) {
      i := VerifyNamesTheFirst(H, recs[1..]);
      i := i + 1;
    }
  }

  /** What is read hashes to what was asked for, on any disk; nothing is found only where nothing is. */
  lemma ReadsOnlyItsHash(H: HashFn, d: Disk, h: Digest)
    ensures var r := ReadBlob(H, d, h);
      && (r.Success? ==> H(r.value) == h)
      && (r == Failure(NotFound) <==>
            h !in d.blobs && (h !in d.ledger.events || d.ledger.events[h].payload == None))
      && (r.Failure? ==> r.error == NotFound || r.error == HashMismatch)
  {}

  /** A temporary file that a write of `r` can leave: some of its bytes, or all of them once it is flushed. */
  ghost predicate LeftOver(t: File, r: BatchRecord) {
    Oversized(r) && (t.content == [] || t.content == r.payload) && (t.synced ==> t.content == r.payload)
  }

  /**
   No temporary file outlives a call that succeeds, or one that fails and lives to clean up; a
   process that dies leaves at most one.
   */
  lemma {:induction false} TempsAreCleaned(d: Disk, f: Fault, recs: seq<BatchRecord>)
    ensures var w := WriteBlobs(d, f, recs);
      && (w.error == None || w.error == Some(BlobCollision) || !f.crash ==> w.disk.temps == d.temps)
      && (w.disk.temps == d.temps || exists t, r :: r in recs && LeftOver(t, r) && w.disk.temps == d.temps + [t])
    decreases |recs|
  {
    if recs != [] {
      var r := recs[0];
      assert forall x :: x in recs <==> x == r || x in recs[1..];
      if !Oversized(r) {
        TempsAreCleaned(d, f, recs[1..]);
      } else {
        var w := WriteBlob(d, f, r.eventHash, r.payload);
        if w.error == None {
          TempsAreCleaned(w.disk, w.fault, recs[1..]);
        } else {
          OneLeftOver(d, f, r);
        }
      }
    }
  }

  lemma OneLeftOver(d: Disk, f: Fault, r: BatchRecord)
    requires Oversized(r) && WriteBlob(d, f, r.eventHash, r.payload).error.Some?
    ensures var w := WriteBlob(d, f, r.eventHash, r.payload);
      && (w.error == Some(BlobCollision) || !f.crash ==> w.disk.temps == d.temps)
      && (w.disk.temps == d.temps || exists t :: LeftOver(t, r) && w.disk.temps == d.temps + [t])
  {
    assert d.temps + [] == d.temps;
    if r.eventHash !in d.blobs && f.crash && f.fuel > 0 {
      var t := if f.fuel == 1 then File([], false) else File(r.payload, f.fuel >= 3);
      assert LeftOver(t, r) && LeftBehind(r.payload, f.fuel) == [t];
    }
  }
}
