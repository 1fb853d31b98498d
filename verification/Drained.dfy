/**
 The loss figure once traffic has drained, which is when it is meant to be read: the broker holds
 nothing more, and every message was decided before it was let go.
 */
module Drained {
  import opened Wrappers
  import opened Canonical
  import opened Ledger
  import opened Accounting
  import opened Durability
  import opened Handling
  import opened Runs
  import opened Settling

  /**
   No message is let go undecided: deliveries are readable, an acked batch is not a mixed one, and
   an undecodable message is terminated only once its refusal is recorded.
   */
  ghost predicate Careful(H: HashFn, stream: Stream, s: System, l: Label)
    requires Allowed(stream, s, l)
  {
    match l
    case Deliver(picks, at, fault, _) =>
      && (forall p :: p in picks ==> p.placed)
      && (Handle(H, s.disk, fault, ItemsOf(stream, picks), at).error == None ==> !Mixed(H, ItemsOf(stream, picks)))
    case Drop(p, _, terminated) => terminated ==> Recorded(H, stream, s, l) != multiset{}
    case Crash(_) => true
  }

  ghost predicate AllCareful(H: HashFn, stream: Stream, s: System, ls: seq<Label>)
    requires Run(H, stream, s, ls).Some?
    decreases |ls|
  {
    ls == [] || (Careful(H, stream, s, ls[0]) && AllCareful(H, stream, Next(H, stream, s, ls[0]), ls[1..]))
  }

  /** Every message the broker let go was accepted or refused. */
  ghost predicate Decided(s: System) {
    forall q :: q in s.settled ==> q in AcceptedSequences(s.journal) || q in Refused(s.journal)
  }

  // ---- The acceptances of a journal ----

  lemma {:induction false} AcceptedAppend(a: seq<Entry>, b: seq<Entry>)
    ensures Accepted(a + b) == Accepted(a) + Accepted(b)
    decreases |b|
  {
    if b == [] {
      assert a + b == a;
    } else {
      AcceptedAppend(a, b[..|b| - 1]);
      assert (a + b)[..|a + b| - 1] == a + b[..|b| - 1];
    }
  }

  lemma SequencesAppend(a: seq<Entry>, b: seq<Entry>)
    ensures AcceptedSequences(a + b) == AcceptedSequences(a) + AcceptedSequences(b)
  {
    AcceptedAppend(a, b);
    hide Accepted;
    forall x | x in Accepted(a + b)
      ensures x in Accepted(a) || x in Accepted(b)
    {}
    forall x | x in Accepted(a) || x in Accepted(b)
      ensures x in Accepted(a + b)
    {}
  }

  lemma {:induction false} AllAccepted(recs: seq<BatchRecord>, at: int)
    ensures forall r :: r in recs ==> r.sequence in AcceptedSequences(Accepts(recs, at))
  {
    if recs != [] {
      var most, last := recs[..|recs| - 1], recs[|recs| - 1];
      AllAccepted(most, at);
      assert Accepts(recs, at) == Accepts(most, at) + [Accept(last, at)];
      SequencesAppend(Accepts(most, at), [Accept(last, at)]);
      assert (last.eventHash, last.sequence) in Accepted([Accept(last, at)]);
      assert recs == most + [last];
    }
  }

  // ---- Every step decides what it lets go ----

  /** After a nil on an unmixed batch every placed item of it is accepted or refused. */
  lemma NilDecides(H: HashFn, d: Disk, f: Fault, batch: seq<Item>, at: int, it: Item)
    requires Handle(H, d, f, batch, at).error == None && !Mixed(H, batch)
    requires it in batch && Placed(it)
    ensures var log, q := Handle(H, d, f, batch, at).log, it.delivery.sequence;
      q in AcceptedSequences(log) || q in Refused(log)
  {
    var recs, q := Recs(batch), it.delivery.sequence;
    var k, j := HandleProgress(H, d, f, batch, at);
    AttemptRefuses(H, d, f, batch, at);
    EveryItemIsSorted(batch);
    GoodAndPoisoned(H, recs);
    MismatchesArePoisoned(H, recs);
    AllAccepted(Kept(H, batch), at);
    SequencesAppend(Accepts(Kept(H, batch), at), Refuses(Refusals(H, batch)));
    hide Handle, Refused, AcceptedSequences, Recs, Malformed, Good, Poisoned;
    match Parse(it)
    case Some(r) =>
      assert r in recs && r.sequence == q;
      if !Matches(H, r) {
        assert q in Poisoned(H, recs);
      }
    case None =>
      assert q in Malformed(batch);
  }

  lemma PickDecides(H: HashFn, stream: Stream, d: Disk, picks: seq<Pick>, at: int, f: Fault, p: Pick)
    requires forall x :: x in picks ==> x.id in stream && stream[x.id].Decodable?
    requires Handle(H, d, f, ItemsOf(stream, picks), at).error == None && !Mixed(H, ItemsOf(stream, picks))
    requires p in picks && p.placed
    ensures var log := Handle(H, d, f, ItemsOf(stream, picks), at).log;
      p.id in AcceptedSequences(log) || p.id in Refused(log)
  {
    hide Handle, Mixed, Refused, AcceptedSequences;
    var i :| 0 <= i < |picks| && picks[i] == p;
    var batch := ItemsOf(stream, picks);
    assert batch[i] == Item(stream[p.id].record, Delivery(p.id, p.redelivered));
    assert batch[i] in batch && p.id > 0;
    NilDecides(H, d, f, batch, at, batch[i]);
  }

  lemma DecidedMore(s: System, s': System, log: seq<Entry>)
    requires Decided(s) && s'.journal == s.journal + log
    requires forall q :: q in s'.settled && q !in s.settled ==> q in AcceptedSequences(log) || q in Refused(log)
    ensures Decided(s')
  {
    hide Refused, AcceptedSequences;
    SequencesAppend(s.journal, log);
    RefusedAppend(s.journal, log);
  }

  lemma DeliverDecides(H: HashFn, stream: Stream, s: System, l: Label)
    requires l.Deliver? && Allowed(stream, s, l) && Careful(H, stream, s, l) && Decided(s)
    ensures Decided(Next(H, stream, s, l))
  {
    var Deliver(picks, at, fault, reached) := l;
    hide Handle, Refused, AcceptedSequences, Mixed, Decided, ItemsOf;
    var a, s' := Handle(H, s.disk, fault, ItemsOf(stream, picks), at), Next(H, stream, s, l);
    forall q | q in s'.settled && q !in s.settled
      ensures q in AcceptedSequences(a.log) || q in Refused(a.log)
    {
      var p :| p in picks && p.id == q;
      PickDecides(H, stream, s.disk, picks, at, fault, p);
    }
    DecidedMore(s, s', a.log);
  }

  lemma StepDecides(H: HashFn, stream: Stream, s: System, l: Label)
    requires Allowed(stream, s, l) && Careful(H, stream, s, l) && Decided(s)
    ensures Decided(Next(H, stream, s, l))
  {
    match l
    case Deliver(_, _, _, _) => DeliverDecides(H, stream, s, l);
    case Drop(p, fault, _) =>
      DropRefuses(H, s.disk, fault, DeliveryOf(p));
      hide DropOne, Refused, AcceptedSequences;
      DecidedMore(s, Next(H, stream, s, l), DropOne(H, s.disk, fault, DeliveryOf(p)).log);
    case Crash(_) =>
  }

  lemma {:induction false} RunDecides(H: HashFn, stream: Stream, s: System, ls: seq<Label>)
    requires Decided(s) && Run(H, stream, s, ls).Some? && AllCareful(H, stream, s, ls)
    ensures Decided(Run(H, stream, s, ls).value)
    decreases |ls|
  {
    if ls != [] {
      StepDecides(H, stream, s, ls[0]);
      hide Decided, Careful, Next;
      RunDecides(H, stream, Next(H, stream, s, ls[0]), ls[1..]);
    }
  }

  // ---- The figure ----

  /** The broker holds nothing more of the stream. */
  ghost predicate HasDrained(stream: Stream, s: System) {
    s.settled == stream.Keys
  }

  /** What was decided is then the stream, neither more nor less. */
  lemma DecidedIsTheStream(H: HashFn, stream: Stream, ls: seq<Label>)
    requires Run(H, stream, START, ls).Some? && AllCareful(H, stream, START, ls)
    requires HasDrained(stream, Run(H, stream, START, ls).value)
    ensures var es := Run(H, stream, START, ls).value.journal;
      AcceptedSequences(es) + Distinct(Refused(es)) == stream.Keys
  {
    var s := Run(H, stream, START, ls).value;
    assert Decided(START);
    RunDecides(H, stream, START, ls);
    Reachable(H, stream, ls);
    RefusedComeFromTheStream(H, stream, START, ls);
    AcceptedFacts(Keepable(H, stream), s.journal);
    hide Run, Refused, AcceptedSequences;
  }

  lemma FigureOfDecided(keepable: map<nat, BatchRecord>, es: seq<Entry>, decided: set<nat>)
    requires Faithful(keepable, es) && Books(es).position.Some?
    requires AcceptedSequences(es) + Distinct(Refused(es)) == decided
    ensures var p := Books(es).position.value;
      p.Unaccounted() == |Walked(p.firstSeq, p.highestSeq) - decided|
                         + (|AcceptedSequences(es)| - |Books(es).events|) - Repeats(es)
  {
    LossIsUnseenOrShadowed(keepable, es);
    hide AcceptedSequences, Refused, Repeats, Distinct, Books;
    var p := Books(es).position.value;
    assert Walked(p.firstSeq, p.highestSeq) - AcceptedSequences(es) - Distinct(Refused(es))
        == Walked(p.firstSeq, p.highestSeq) - decided;
  }

  /**
   Read once traffic has drained, the figure is the holes of the stream itself, and the content
   that arrived under more than one sequence, less the refusals counted again. Nothing is missing
   that the stream held.
   */
  lemma DrainedFigure(H: HashFn, stream: Stream, ls: seq<Label>)
    requires Run(H, stream, START, ls).Some? && AllCareful(H, stream, START, ls)
    requires HasDrained(stream, Run(H, stream, START, ls).value)
    requires Run(H, stream, START, ls).value.disk.ledger.position.Some?
    ensures var s := Run(H, stream, START, ls).value;
      var p, es := s.disk.ledger.position.value, s.journal;
      p.Unaccounted() == |Walked(p.firstSeq, p.highestSeq) - stream.Keys|
                         + (|AcceptedSequences(es)| - |s.disk.ledger.events|) - Repeats(es)
  {
    hide Run, AcceptedSequences, Refused, Repeats, Distinct, Books, Faithful, Walked, HasDrained;
    Reachable(H, stream, ls);
    DecidedIsTheStream(H, stream, ls);
    FigureOfDecided(Keepable(H, stream), Run(H, stream, START, ls).value.journal, stream.Keys);
  }

  /** No two records of the stream have one content. */
  ghost predicate DistinctContent(keepable: map<nat, BatchRecord>) {
    forall q, r :: q in keepable && r in keepable && keepable[q].eventHash == keepable[r].eventHash ==> q == r
  }

  /** One of these sequences brought content `h`. */
  ghost predicate Brought(keepable: map<nat, BatchRecord>, inserted: set<nat>, h: Digest) {
    exists q :: q in inserted && q in keepable && keepable[q].eventHash == h
  }

  /** Then whatever was accepted inserted its row. */
  lemma {:induction false} DistinctContentInserts(keepable: map<nat, BatchRecord>, es: seq<Entry>)
    requires Faithful(keepable, es) && DistinctContent(keepable)
    ensures AcceptedSequences(es) == Inserted(es)
    ensures forall h: Digest :: h in Books(es).events ==> Brought(keepable, Inserted(es), h)
    decreases |es|
  {
    if es == [] {
      assert AcceptedSequences(es) == {};
    } else {
      var before, e := es[..|es| - 1], es[|es| - 1];
      assert es == before + [e];
      EarlierIsFaithful(keepable, before, e);
      hide AcceptedSequences, Inserted, Faithful, DistinctContent, Brought;
      DistinctContentInserts(keepable, before);
      SequencesAppend(before, [e]);
      SequencesOfOne(e);
      ReplaySnoc(EMPTY, before, e);
      InsertedNext(keepable, before, e);
    }
  }

  lemma EarlierIsFaithful(keepable: map<nat, BatchRecord>, before: seq<Entry>, e: Entry)
    requires Faithful(keepable, before + [e])
    ensures Faithful(keepable, before)
    ensures e.Accept? ==> e.rec.sequence in keepable && keepable[e.rec.sequence] == e.rec
  {
    assert e in before + [e];
    assert forall x :: x in before ==> x in before + [e];
  }

  lemma SequencesOfOne(e: Entry)
    ensures AcceptedSequences([e]) == if e.Accept? then {e.rec.sequence} else {}
  {
    assert [e][..0] == [] && Accepted([]) == multiset{};
    if e.Accept? {
      var x := (e.rec.eventHash, e.rec.sequence);
      assert Accepted([e]) == multiset{x};
      assert x in Accepted([e]) && forall y :: y in Accepted([e]) ==> y == x;
    } else {
      assert Accepted([e]) == multiset{};
    }
  }

  lemma InsertedNext(keepable: map<nat, BatchRecord>, before: seq<Entry>, e: Entry)
    requires Faithful(keepable, before + [e]) && DistinctContent(keepable)
    requires Books(before + [e]) == Apply(Books(before), e)
    requires forall h: Digest :: h in Books(before).events ==> Brought(keepable, Inserted(before), h)
    ensures Inserted(before + [e]) == Inserted(before) + if e.Accept? then {e.rec.sequence} else {}
    ensures forall h: Digest :: h in Books(before + [e]).events ==> Brought(keepable, Inserted(before + [e]), h)
  {
    hide Inserted, Faithful, Books, Brought, DistinctContent;
    EarlierIsFaithful(keepable, before, e);
    InsertedOneMore(before, e);
    if e.Accept? && e.rec.eventHash in Books(before).events {
      BroughtByItself(keepable, Inserted(before), e.rec.sequence, e.rec.eventHash);
      assert Inserted(before) + {e.rec.sequence} == Inserted(before);
    }
    forall h: Digest | h in Books(before + [e]).events
      ensures Brought(keepable, Inserted(before + [e]), h)
    {
      if h in Books(before).events {
        BroughtStill(keepable, Inserted(before), Inserted(before + [e]), h);
      } else {
        BroughtBy(keepable, Inserted(before + [e]), e.rec.sequence);
      }
    }
  }

  lemma BroughtBy(keepable: map<nat, BatchRecord>, inserted: set<nat>, q: nat)
    requires q in inserted && q in keepable
    ensures Brought(keepable, inserted, keepable[q].eventHash)
  {}

  lemma BroughtStill(keepable: map<nat, BatchRecord>, a: set<nat>, b: set<nat>, h: Digest)
    requires a <= b && Brought(keepable, a, h)
    ensures Brought(keepable, b, h)
  {
    var q :| q in a && q in keepable && keepable[q].eventHash == h;
    assert q in b;
  }

  lemma BroughtByItself(keepable: map<nat, BatchRecord>, inserted: set<nat>, q: nat, h: Digest)
    requires DistinctContent(keepable) && Brought(keepable, inserted, h)
    requires q in keepable && keepable[q].eventHash == h
    ensures q in inserted
  {
    var r :| r in inserted && r in keepable && keepable[r].eventHash == h;
    assert r == q;
  }

  /**
   A stream without holes or repeated content, drained with care and its refusals heard, reads
   zero, whatever failed, died or was redelivered on the way.
   */
  lemma DrainedReadsZero(H: HashFn, stream: Stream, ls: seq<Label>)
    requires Run(H, stream, START, ls).Some?
    requires AllCareful(H, stream, START, ls) && AllHeard(H, stream, START, ls)
    requires HasDrained(stream, Run(H, stream, START, ls).value)
    requires Run(H, stream, START, ls).value.disk.ledger.position.Some?
    requires DistinctContent(Keepable(H, stream))
    requires var p := Run(H, stream, START, ls).value.disk.ledger.position.value;
      Walked(p.firstSeq, p.highestSeq) <= stream.Keys
    ensures Run(H, stream, START, ls).value.disk.ledger.position.value.Unaccounted() == 0
  {
    hide Run, AcceptedSequences, Inserted, Refused, Books, Faithful, HasDrained, AllCareful, AllHeard, Walked;
    var s := Run(H, stream, START, ls).value;
    var p, keepable := s.disk.ledger.position.value, Keepable(H, stream);
    Reachable(H, stream, ls);
    DrainedFigure(H, stream, ls);
    NothingRefusedAtFirst();
    RunRefusesOnce(H, stream, START, ls);
    DistinctIsSmaller(Refused(s.journal));
    InsertedFacts(keepable, s.journal);
    DistinctContentInserts(keepable, s.journal);
    assert Walked(p.firstSeq, p.highestSeq) - stream.Keys == {};
  }

  lemma NothingRefusedAtFirst()
    ensures RefusedOnce(START)
  {}
}
