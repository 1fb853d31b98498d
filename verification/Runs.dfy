/**
 The archive and the broker together, over whole runs: any fetches in any order, any number of
 redeliveries, storage that fails or a process that dies between any two durable writes,
 acknowledgements that are lost. `settled` messages are the ones the broker will not deliver
 again; the journal and the two sets are history the running system does not keep.
 */
module Runs {
  import opened Wrappers
  import opened Canonical
  import opened Ledger
  import opened Accounting
  import opened Durability
  import opened Handling

  datatype Message = Decodable(record: Record) | Undecodable

  /** The stream: what each sequence carries, for ever. Sequences start at one. */
  type Stream = m: map<nat, Message> | 0 !in m witness map[]

  /** One delivery of one message; an unplaced one arrives with unreadable metadata. */
  datatype Pick = Pick(id: nat, placed: bool, redelivered: bool)

  datatype Label =
    /** A batch is handled; of the acknowledgements a nil gives rise to, those in `reached` arrive. */
    | Deliver(picks: seq<Pick>, at: int, fault: Fault, reached: set<nat>)
    /** An undecodable message is accounted for and terminated. */
    | Drop(pick: Pick, fault: Fault, terminated: bool)
    /** The machine stops and comes back. */
    | Crash(after: Disk)

  datatype System = System(disk: Disk, journal: seq<Entry>, settled: set<nat>, ackedPlaced: set<nat>)

  const START: System := System(Disk(EMPTY, map[], []), [], {}, {})

  function DeliveryOf(p: Pick): Delivery {
    if p.placed then Delivery(p.id, p.redelivered) else Delivery(0, false)
  }

  /** No message twice. */
  ghost predicate DistinctPicks(picks: seq<Pick>) {
    forall i, j :: 0 <= i < j < |picks| ==> picks[i].id != picks[j].id
  }

  predicate Arrives(stream: Stream, s: System, p: Pick) {
    p.id in stream && stream[p.id].Decodable? && p.id !in s.settled
  }

  function ItemsOf(stream: Stream, picks: seq<Pick>): seq<Item>
    requires forall p :: p in picks ==> p.id in stream && stream[p.id].Decodable?
  {
    seq(|picks|, i requires 0 <= i < |picks| => Item(stream[picks[i].id].record, DeliveryOf(picks[i])))
  }

  ghost predicate Allowed(stream: Stream, s: System, l: Label) {
    match l
    case Deliver(picks, _, _, reached) =>
      (forall p :: p in picks ==> Arrives(stream, s, p)) && reached <= (set p | p in picks :: p.id)
    case Drop(p, _, _) => p.id in stream && stream[p.id].Undecodable? && p.id !in s.settled
    case Crash(after) => CrashOf(s.disk, after)
  }

  ghost function Next(H: HashFn, stream: Stream, s: System, l: Label): System
    requires Allowed(stream, s, l)
  {
    match l
    case Deliver(picks, at, fault, reached) =>
      var a := Handle(H, s.disk, fault, ItemsOf(stream, picks), at);
      var acked := if a.error == None then reached else {};
      System(a.disk, s.journal + a.log, s.settled + acked,
             s.ackedPlaced + set p | p in picks && p.placed && p.id in acked :: p.id)
    case Drop(p, fault, terminated) =>
      var a := DropOne(H, s.disk, fault, DeliveryOf(p));
      System(a.disk, s.journal + a.log, if terminated then s.settled + {p.id} else s.settled, s.ackedPlaced)
    case Crash(after) => s.(disk := after)
  }

  /** The system after a run, if every step of it was possible. */
  ghost function Run(H: HashFn, stream: Stream, s: System, ls: seq<Label>): Option<System>
    decreases |ls|
  {
    if ls == [] then Some(s)
    else if Allowed(stream, s, ls[0]) then Run(H, stream, Next(H, stream, s, ls[0]), ls[1..])
    else None
  }

  /** The records the stream carries that match their own hash, by sequence. */
  ghost function Keepable(H: HashFn, stream: Stream): map<nat, BatchRecord> {
    map q | q in stream && Keeps(H, stream[q], q) :: Parse(ItemAt(stream[q].record, q)).value
  }

  function ItemAt(r: Record, q: nat): Item {
    Item(r, Delivery(q, false))
  }

  predicate Keeps(H: HashFn, m: Message, q: nat) {
    && m.Decodable?
    && Parse(ItemAt(m.record, q)).Some?
    && Matches(H, Parse(ItemAt(m.record, q)).value)
  }

  /** What every reachable state keeps. */
  ghost predicate Invariant(H: HashFn, stream: Stream, s: System) {
    && Sound(H, s.disk)
    && s.disk.ledger == Books(s.journal)
    && Faithful(Keepable(H, stream), s.journal)
    && (forall q :: q in s.ackedPlaced && q in Keepable(H, stream) ==>
          Keepable(H, stream)[q].eventHash in s.disk.ledger.events)
  }

  // ---- One step keeps the invariant ----

  lemma {:induction false} PoisonedComeFromRecs(H: HashFn, recs: seq<BatchRecord>, q: nat)
    requires q in Poisoned(H, recs)
    ensures exists r :: r in recs && !Matches(H, r) && r.sequence == q
  {
    if Matches(H, recs[0]) || recs[0].sequence != q {
      PoisonedComeFromRecs(H, recs[1..], q);
      var r :| r in recs[1..] && !Matches(H, r) && r.sequence == q;
      assert r in recs;
    }
  }

  ghost predicate FromStream(stream: Stream, batch: seq<Item>) {
    forall it :: it in batch && Placed(it) ==>
      var q := it.delivery.sequence;
      q in stream && stream[q] == Decodable(it.record)
  }

  lemma ItemsComeFromTheStream(stream: Stream, picks: seq<Pick>)
    requires forall p :: p in picks ==> p.id in stream && stream[p.id].Decodable?
    ensures FromStream(stream, ItemsOf(stream, picks))
  {}

  lemma EffectIsFaithful(H: HashFn, stream: Stream, batch: seq<Item>, at: int)
    requires FromStream(stream, batch)
    ensures Faithful(Keepable(H, stream), Effect(H, batch, at))
  {
    RecsComeFromItems(batch);
    GoodAndPoisoned(H, Recs(batch));
    EntriesComeFromTheBatch(Kept(H, batch), Refusals(H, batch), at);
    var keepable := Keepable(H, stream);
    forall e | e in Effect(H, batch, at)
      ensures e.Sequence() > 0
      ensures e.Accept? ==> e.rec.sequence in keepable && keepable[e.rec.sequence] == e.rec
      ensures e.Refuse? ==> e.refused !in keepable
    {
      match e
      case Accept(r, _) =>
        var it :| it in batch && Placed(it) && Parse(it) == Some(r);
      case Refuse(q) =>
        if Poisoned(H, Recs(batch)) == [] {
          var it :| it in batch && Placed(it) && Parse(it).None? && it.delivery.sequence == q;
        } else {
          PoisonedComeFromRecs(H, Recs(batch), q);
          var r :| r in Recs(batch) && !Matches(H, r) && r.sequence == q;
          var it :| it in batch && Placed(it) && Parse(it) == Some(r);
        }
    }
  }

  lemma FaithfulParts(keepable: map<nat, BatchRecord>, a: seq<Entry>, b: seq<Entry>)
    requires Faithful(keepable, a) && Faithful(keepable, b)
    ensures Faithful(keepable, a + b)
  {}

  lemma LogIsFaithful(
    H: HashFn, stream: Stream, d: Disk, f: Fault, batch: seq<Item>, at: int)
    requires FromStream(stream, batch)
    ensures Faithful(Keepable(H, stream), Handle(H, d, f, batch, at).log)
  {
    EffectIsFaithful(H, stream, batch, at);
    var k, j := HandleProgress(H, d, f, batch, at);
    var log, effect := Handle(H, d, f, batch, at).log, Effect(H, batch, at);
    forall e | e in log ensures e in effect {
      var i :| 0 <= i < |log| && log[i] == e;
      assert effect[i] == e;
    }
  }

  /** What a nil has just stored: the row of every placed item whose payload matches its hash. */
  lemma NilStores(H: HashFn, stream: Stream, s: System, picks: seq<Pick>, at: int, fault: Fault, p: Pick)
    requires forall x :: x in picks ==> x.id in stream && stream[x.id].Decodable?
    requires Handle(H, s.disk, fault, ItemsOf(stream, picks), at).error == None
    requires p in picks && p.placed && p.id in Keepable(H, stream)
    ensures Keepable(H, stream)[p.id].eventHash in
      Handle(H, s.disk, fault, ItemsOf(stream, picks), at).disk.ledger.events
  {
    var batch := ItemsOf(stream, picks);
    NilExplainsTheBatch(H, s.disk, fault, batch, at);
    var i :| 0 <= i < |picks| && picks[i] == p;
    var it := batch[i];
    assert it in batch && Placed(it);
    assert Parse(it) == Some(Keepable(H, stream)[p.id]);
    assert Explained(H, Handle(H, s.disk, fault, batch, at).disk.ledger, Refusals(H, batch), it);
  }

  lemma DeliverKeepsInvariant(H: HashFn, stream: Stream, s: System, l: Label)
    requires l.Deliver? && Allowed(stream, s, l) && Invariant(H, stream, s)
    ensures Invariant(H, stream, Next(H, stream, s, l))
  {
    var Deliver(picks, at, fault, reached) := l;
    var batch := ItemsOf(stream, picks);
    ItemsComeFromTheStream(stream, picks);
    HandleKeepsSound(H, s.disk, fault, batch, at);
    LogIsFaithful(H, stream, s.disk, fault, batch, at);
    var k, j := HandleProgress(H, s.disk, fault, batch, at);
    hide Handle, Sound;
    var a, s', keepable := Handle(H, s.disk, fault, batch, at), Next(H, stream, s, l), Keepable(H, stream);
    ReplayAppend(EMPTY, s.journal, a.log);
    FaithfulParts(keepable, s.journal, a.log);
    RowsStay(s.disk.ledger, a.log);
    forall q | q in s'.ackedPlaced && q in keepable ensures keepable[q].eventHash in s'.disk.ledger.events {
      if q !in s.ackedPlaced {
        var p :| p in picks && p.placed && p.id == q;
        NilStores(H, stream, s, picks, at, fault, p);
      }
    }
  }

  lemma DropKeepsInvariant(H: HashFn, stream: Stream, s: System, l: Label)
    requires l.Drop? && Allowed(stream, s, l) && Invariant(H, stream, s)
    ensures Invariant(H, stream, Next(H, stream, s, l))
  {
    var a := DropOne(H, s.disk, l.fault, DeliveryOf(l.pick));
    var q := DeliveryOf(l.pick).sequence;
    if q > 0 {
      CommitIsAllOrNothing(H, s.disk, l.fault, [], [q], 0);
      assert Entries([], [q], 0) == [Refuse(q)];
    }
    assert Faithful(Keepable(H, stream), a.log);
    ReplayAppend(EMPTY, s.journal, a.log);
    FaithfulParts(Keepable(H, stream), s.journal, a.log);
    RowsStay(s.disk.ledger, a.log);
  }

  lemma StepKeepsInvariant(H: HashFn, stream: Stream, s: System, l: Label)
    requires Allowed(stream, s, l) && Invariant(H, stream, s)
    ensures Invariant(H, stream, Next(H, stream, s, l))
  {
    match l
    case Deliver(_, _, _, _) => DeliverKeepsInvariant(H, stream, s, l);
    case Drop(_, _, _) => DropKeepsInvariant(H, stream, s, l);
    case Crash(after) => CrashLosesNothing(H, s.disk, after);
  }

  lemma {:induction false} RunKeepsInvariant(H: HashFn, stream: Stream, s: System, ls: seq<Label>)
    requires Invariant(H, stream, s) && Run(H, stream, s, ls).Some?
    ensures Invariant(H, stream, Run(H, stream, s, ls).value)
    decreases |ls|
  {
    if ls != [] {
      StepKeepsInvariant(H, stream, s, ls[0]);
      RunKeepsInvariant(H, stream, Next(H, stream, s, ls[0]), ls[1..]);
    }
  }

  lemma Reachable(H: HashFn, stream: Stream, ls: seq<Label>)
    requires Run(H, stream, START, ls).Some?
    ensures Invariant(H, stream, Run(H, stream, START, ls).value)
  {
    RunKeepsInvariant(H, stream, START, ls);
  }

  // ---- Over every run ----

  /**
   Once a delivery with a readable sequence and a payload matching its hash has been acked, its
   row exists and reads back as bytes of that hash, in this and in every later state.
   */
  lemma AckedIsDurableAndReadable(H: HashFn, stream: Stream, before: seq<Label>, after: seq<Label>, q: nat)
    requires Run(H, stream, START, before + after).Some?
    requires Run(H, stream, START, before).Some?
    requires q in Run(H, stream, START, before).value.ackedPlaced && q in Keepable(H, stream)
    ensures var d, h := Run(H, stream, START, before + after).value.disk, Keepable(H, stream)[q].eventHash;
      && h in d.ledger.events
      && ReadBlob(H, d, h).Success? && H(ReadBlob(H, d, h).value) == h
  {
    Reachable(H, stream, before + after);
    RunAppend(H, stream, START, before, after);
    AcksAreForEver(H, stream, Run(H, stream, START, before).value, after);
    var s := Run(H, stream, START, before + after).value;
    RowsAreReadable(H, s.disk, Keepable(H, stream)[q].eventHash);
  }

  /** A row, once committed, is there in every later state. */
  lemma {:induction false} RowsPersist(H: HashFn, stream: Stream, s: System, ls: seq<Label>, h: Digest)
    requires Invariant(H, stream, s) && Run(H, stream, s, ls).Some? && h in s.disk.ledger.events
    ensures h in Run(H, stream, s, ls).value.disk.ledger.events
    decreases |ls|
  {
    if ls != [] {
      RowsPersistOneStep(H, stream, s, ls[0], h);
      StepKeepsInvariant(H, stream, s, ls[0]);
      hide Invariant, Next;
      RowsPersist(H, stream, Next(H, stream, s, ls[0]), ls[1..], h);
    }
  }

  lemma RowsPersistOneStep(H: HashFn, stream: Stream, s: System, l: Label, h: Digest)
    requires Invariant(H, stream, s) && Allowed(stream, s, l) && h in s.disk.ledger.events
    ensures h in Next(H, stream, s, l).disk.ledger.events
  {
    match l
    case Deliver(picks, at, fault, _) =>
      var k, j := HandleProgress(H, s.disk, fault, ItemsOf(stream, picks), at);
      hide Handle, Sound;
      RowsStay(s.disk.ledger, Handle(H, s.disk, fault, ItemsOf(stream, picks), at).log);
    case Drop(p, fault, _) =>
      var q := DeliveryOf(p).sequence;
      CommitIsAllOrNothing(H, s.disk, fault, [], [q], 0);
      hide AppendBatch, Sound;
      RowsStay(s.disk.ledger, AppendBatch(H, s.disk, fault, [], [q], 0).log);
    case Crash(_) =>
  }

  /** A row of a reachable state reads back in it and in everything that follows. */
  lemma StoredIsReadable(H: HashFn, stream: Stream, before: seq<Label>, after: seq<Label>, h: Digest)
    requires Run(H, stream, START, before).Some? && Run(H, stream, START, before + after).Some?
    requires h in Run(H, stream, START, before).value.disk.ledger.events
    ensures var d := Run(H, stream, START, before + after).value.disk;
      h in d.ledger.events && ReadBlob(H, d, h).Success? && H(ReadBlob(H, d, h).value) == h
  {
    Reachable(H, stream, before);
    RunAppend(H, stream, START, before, after);
    RowsPersist(H, stream, Run(H, stream, START, before).value, after, h);
    EveryRowIsReadable(H, stream, before + after, h);
  }

  /**
   It is the nil that makes a record durable, not the broker's hearing of it: once a batch has been
   handled to nil, each of its placed, matching records reads back in every later state.
   */
  lemma NilIsDurable(H: HashFn, stream: Stream, before: seq<Label>, l: Label, after: seq<Label>, p: Pick)
    requires Run(H, stream, START, before).Some? && l.Deliver?
    requires Allowed(stream, Run(H, stream, START, before).value, l)
    requires var d := Run(H, stream, START, before).value.disk;
      Handle(H, d, l.fault, ItemsOf(stream, l.picks), l.at).error == None
    requires Run(H, stream, START, before + [l] + after).Some?
    requires p in l.picks && p.placed && p.id in Keepable(H, stream)
    ensures var d, h := Run(H, stream, START, before + [l] + after).value.disk, Keepable(H, stream)[p.id].eventHash;
      h in d.ledger.events && ReadBlob(H, d, h).Success? && H(ReadBlob(H, d, h).value) == h
  {
    var s := Run(H, stream, START, before).value;
    NilStores(H, stream, s, l.picks, l.at, l.fault, p);
    hide Handle, Keepable, Sound;
    OneStep(H, stream, s, l);
    RunAppend(H, stream, START, before, [l]);
    StoredIsReadable(H, stream, before + [l], after, Keepable(H, stream)[p.id].eventHash);
  }

  lemma {:induction false} RunAppend(H: HashFn, stream: Stream, s: System, a: seq<Label>, b: seq<Label>)
    requires Run(H, stream, s, a).Some?
    ensures Run(H, stream, s, a + b) == Run(H, stream, Run(H, stream, s, a).value, b)
    decreases |a|
  {
    if a == [] {
      assert a + b == b;
    } else {
      assert (a + b)[1..] == a[1..] + b;
      RunAppend(H, stream, Next(H, stream, s, a[0]), a[1..], b);
    }
  }

  lemma {:induction false} AcksAreForEver(H: HashFn, stream: Stream, s: System, ls: seq<Label>)
    requires Run(H, stream, s, ls).Some?
    ensures s.ackedPlaced <= Run(H, stream, s, ls).value.ackedPlaced
    decreases |ls|
  {
    if ls != [] {
      AcksAreForEver(H, stream, Next(H, stream, s, ls[0]), ls[1..]);
    }
  }

  /**
   The loss figure, in every reachable state: the gaps in the walked range less the refusals
   recorded again, so never negative while none has been recorded twice.
   */
  lemma LossLawOverRuns(H: HashFn, stream: Stream, ls: seq<Label>)
    requires Run(H, stream, START, ls).Some?
    requires Run(H, stream, START, ls).value.disk.ledger.position.Some?
    ensures var s := Run(H, stream, START, ls).value;
      var p := s.disk.ledger.position.value;
      && p.Unaccounted() == |Gaps(s.journal, p)| - Repeats(s.journal)
      && (NoneTwice(Refused(s.journal)) ==> p.Unaccounted() >= 0)
      && p.committed == |s.disk.ledger.events|
      && p.committed + p.duplicates == |Accepted(s.journal)|
  {
    Reachable(H, stream, ls);
    var s := Run(H, stream, START, ls).value;
    BooksSummarise(s.journal);
    LossLaw(Keepable(H, stream), s.journal);
  }

  /** A crash, or any failure, anywhere in a run: every row leads to the bytes its key names. */
  lemma EveryRowIsReadable(H: HashFn, stream: Stream, ls: seq<Label>, h: Digest)
    requires Run(H, stream, START, ls).Some?
    requires h in Run(H, stream, START, ls).value.disk.ledger.events
    ensures var d := Run(H, stream, START, ls).value.disk;
      ReadBlob(H, d, h).Success? && H(ReadBlob(H, d, h).value) == h
  {
    Reachable(H, stream, ls);
    RowsAreReadable(H, Run(H, stream, START, ls).value.disk, h);
  }

  // ---- Where the promises stop ----

  /** An unreadable delivery is acked and never stored: the message is gone and nothing durable says so. */
  lemma UnplacedIsAckedAndGone(H: HashFn, stream: Stream, q: nat, at: int, fault: Fault)
    requires q in stream && stream[q].Decodable?
    ensures Run(H, stream, START, [Deliver([Pick(q, false, false)], at, fault, {q})])
         == Some(System(START.disk, [], {q}, {}))
  {
    var p := Pick(q, false, false);
    var l := Deliver([p], at, fault, {q});
    var batch := ItemsOf(stream, [p]);
    assert batch[1..] == [];
    assert Recs(batch[1..]) == [] && Malformed(batch[1..]) == [];
    assert q in (set x | x in [p] :: x.id) by {
      assert p in [p];
    }
    var a := Handle(H, START.disk, fault, batch, at);
    assert a == Attempt(START.disk, fault, None, []);
    var s := Next(H, stream, START, l);
    assert s.journal == [] && s.settled == {q} && s.ackedPlaced == {};
    OneStep(H, stream, START, l);
  }

  lemma OneStep(H: HashFn, stream: Stream, s: System, l: Label)
    requires Allowed(stream, s, l)
    ensures Run(H, stream, s, [l]) == Some(Next(H, stream, s, l))
  {
    assert [l][1..] == [];
    assert Run(H, stream, Next(H, stream, s, l), []) == Some(Next(H, stream, s, l));
  }

  /** A refusal whose acknowledgement was lost is delivered, and recorded, again. */
  lemma RefuseOnce(H: HashFn, stream: Stream, s: System, q: nat)
    requires q in stream && stream[q].Decodable? && ParseDigest(stream[q].record.eventHash) == None
    requires q !in s.settled
    ensures var l := Deliver([Pick(q, true, true)], 0, Fault(1, false), {});
      && Allowed(stream, s, l)
      && Next(H, stream, s, l) == System(
           s.disk.(ledger := Apply(s.disk.ledger, Refuse(q))), s.journal + [Refuse(q)], s.settled, s.ackedPlaced)
  {
    var l := Deliver([Pick(q, true, true)], 0, Fault(1, false), {});
    var batch := ItemsOf(stream, [Pick(q, true, true)]);
    assert batch[1..] == [];
    assert Recs(batch[1..]) == [] && Malformed(batch[1..]) == [];
    assert Recs(batch) == [] && Malformed(batch) == [q];
    assert Entries([], [q], 0) == [Refuse(q)];
    ReplaySnoc(s.disk.ledger, [], Refuse(q));
    assert [] + [Refuse(q)] == [Refuse(q)];
    assert Handle(H, s.disk, Fault(1, false), batch, 0).log == [Refuse(q)];
    assert Next(H, stream, s, l).settled == s.settled;
    assert Next(H, stream, s, l).ackedPlaced == s.ackedPlaced;
  }

  /** So the loss figure does go below zero: any malformed record, refused, its ack lost, refused again. */
  lemma RefusedTwiceIsNegative(H: HashFn, stream: Stream, q: nat) returns (ls: seq<Label>)
    requires q in stream && stream[q].Decodable? && ParseDigest(stream[q].record.eventHash) == None
    ensures Run(H, stream, START, ls).Some?
    ensures var p := Run(H, stream, START, ls).value.disk.ledger.position;
      p == Some(Position(q, q, 0, 2, 0)) && p.value.Unaccounted() == -1
  {
    var l := Deliver([Pick(q, true, true)], 0, Fault(1, false), {});
    RefuseOnce(H, stream, START, q);
    var s := Next(H, stream, START, l);
    RefuseOnce(H, stream, s, q);
    OneStep(H, stream, START, l);
    OneStep(H, stream, s, l);
    RunAppend(H, stream, START, [l], [l]);
    ls := [l] + [l];
  }
}
