/**
 What a lost answer costs. A refusal is counted twice only if the answer to it was lost, and it
 can be counted twice as soon as one is; nothing else that fails, dies or is redelivered makes
 the loss figure negative. Once everything is settled the figure has a closed form.
 */
module Settling {
  import opened Wrappers
  import opened Canonical
  import opened Ledger
  import opened Accounting
  import opened Durability
  import opened Handling
  import opened Runs

  /** The refusals this step records. */
  function Recorded(H: HashFn, stream: Stream, s: System, l: Label): multiset<nat>
    requires l.Deliver? ==> forall p :: p in l.picks ==> p.id in stream && stream[p.id].Decodable?
  {
    match l
    case Deliver(picks, at, fault, _) => Refused(Handle(H, s.disk, fault, ItemsOf(stream, picks), at).log)
    case Drop(p, fault, _) => Refused(DropOne(H, s.disk, fault, DeliveryOf(p)).log)
    case Crash(_) => multiset{}
  }

  /**
   The answers to the refusals this step records arrive. Of every other answer nothing is asked:
   acknowledgements of accepted records may be lost, and any step may fail or be followed by a crash.
   */
  ghost predicate RefusalsHeard(H: HashFn, stream: Stream, s: System, l: Label)
    requires Allowed(stream, s, l)
  {
    match l
    case Deliver(picks, _, _, reached) =>
      DistinctPicks(picks) && forall q :: q in Recorded(H, stream, s, l) ==> q in reached
    case Drop(p, _, terminated) => Recorded(H, stream, s, l) == multiset{} || terminated
    case Crash(_) => true
  }

  /** So of every step of a run. */
  ghost predicate AllHeard(H: HashFn, stream: Stream, s: System, ls: seq<Label>)
    requires Run(H, stream, s, ls).Some?
    decreases |ls|
  {
    ls == [] || (RefusalsHeard(H, stream, s, ls[0]) && AllHeard(H, stream, Next(H, stream, s, ls[0]), ls[1..]))
  }

  // ---- Which sequences a batch can refuse ----

  /** The sequences of the placed items, in order. */
  function Places(batch: seq<Item>): seq<nat> {
    if batch == [] then []
    else (if Placed(batch[0]) then [batch[0].delivery.sequence] else []) + Places(batch[1..])
  }

  lemma {:induction false} RefusalsFitPlaces(H: HashFn, batch: seq<Item>, q: nat)
    ensures multiset(Malformed(batch))[q] <= multiset(Places(batch))[q]
    ensures multiset(Poisoned(H, Recs(batch)))[q] <= multiset(Places(batch))[q]
  {
    if batch != [] {
      RefusalsFitPlaces(H, batch[1..], q);
    }
  }

  lemma PlacesNext(stream: Stream, picks: seq<Pick>)
    requires picks != [] && forall p :: p in picks ==> p.id in stream && stream[p.id].Decodable?
    ensures forall p :: p in picks[1..] ==> p in picks
    ensures Places(ItemsOf(stream, picks))
         == (if picks[0].placed && picks[0].id > 0 then [picks[0].id] else []) + Places(ItemsOf(stream, picks[1..]))
  {
    assert ItemsOf(stream, picks)[1..] == ItemsOf(stream, picks[1..]);
  }

  lemma {:induction false} PlacesOfPicks(stream: Stream, picks: seq<Pick>, q: nat)
    requires forall p :: p in picks ==> p.id in stream && stream[p.id].Decodable?
    ensures DistinctPicks(picks) ==> multiset(Places(ItemsOf(stream, picks)))[q] <= 1
    ensures q in Places(ItemsOf(stream, picks)) ==> exists p :: p in picks && p.id == q
  {
    if picks != [] {
      hide ItemsOf, Places;
      PlacesNext(stream, picks);
      PlacesOfPicks(stream, picks[1..], q);
    } else {
      assert ItemsOf(stream, picks) == [];
    }
  }

  // ---- The refusals of a journal ----

  lemma {:induction false} RefusedAppend(a: seq<Entry>, b: seq<Entry>)
    ensures Refused(a + b) == Refused(a) + Refused(b)
    decreases |b|
  {
    if b == [] {
      assert a + b == a;
    } else {
      RefusedAppend(a, b[..|b| - 1]);
      assert (a + b)[..|a + b| - 1] == a + b[..|b| - 1];
    }
  }

  lemma {:induction false} NothingRefused(recs: seq<BatchRecord>, at: int)
    ensures Refused(Accepts(recs, at)) == multiset{}
  {
    if recs != [] {
      var most := recs[..|recs| - 1];
      NothingRefused(most, at);
      assert Accepts(recs, at)[..|recs| - 1] == Accepts(most, at);
    }
  }

  lemma {:induction false} AllRefused(qs: seq<nat>)
    ensures Refused(Refuses(qs)) == multiset(qs)
  {
    if qs != [] {
      var most := qs[..|qs| - 1];
      AllRefused(most);
      assert Refuses(qs)[..|qs| - 1] == Refuses(most);
      assert qs == most + [qs[|qs| - 1]];
    }
  }

  /** What one attempt refuses: nothing on an error, the batch's refusals on nil. */
  lemma AttemptRefuses(H: HashFn, d: Disk, f: Fault, batch: seq<Item>, at: int)
    ensures var a := Handle(H, d, f, batch, at);
      Refused(a.log) == if a.error == None then multiset(Refusals(H, batch)) else multiset{}
  {
    var k, j := HandleProgress(H, d, f, batch, at);
    hide Handle, Refused;
    var kept, refused := Kept(H, batch), Refusals(H, batch);
    NothingRefused(kept[..k], at);
    NothingRefused(kept, at);
    AllRefused(refused);
    RefusedAppend(Accepts(kept, at), Refuses(refused));
  }

  lemma OneRefusalOrNone(H: HashFn, d: Disk, f: Fault, q: nat, at: int)
    ensures var log := AppendBatch(H, d, f, [], [q], at).log; log == [] || (q > 0 && log == Entries([], [q], at))
  {}

  lemma DropRefuses(H: HashFn, d: Disk, f: Fault, delivery: Delivery)
    ensures var log := DropOne(H, d, f, delivery).log;
      Refused(log) == multiset{} || (delivery.sequence > 0 && Refused(log) == multiset{delivery.sequence})
  {
    hide AppendBatch, Refused, Refuses;
    var q := delivery.sequence;
    OneRefusalOrNone(H, d, f, q, 0);
    NothingRefused([], 0);
    assert Accepts([], 0) == [] && [] + Refuses([q]) == Refuses([q]);
    AllRefused([q]);
  }

  // ---- Every refusal once, and settled ----

  /** Nothing was refused twice, and the broker will not deliver again what was refused. */
  ghost predicate RefusedOnce(s: System) {
    NoneTwice(Refused(s.journal)) && forall q :: q in Refused(s.journal) ==> q in s.settled
  }

  lemma RefusalsOnce(H: HashFn, stream: Stream, picks: seq<Pick>, q: nat)
    requires forall p :: p in picks ==> p.id in stream && stream[p.id].Decodable?
    ensures DistinctPicks(picks) ==> multiset(Refusals(H, ItemsOf(stream, picks)))[q] <= 1
    ensures q in multiset(Refusals(H, ItemsOf(stream, picks))) ==> exists p :: p in picks && p.id == q
  {
    var batch := ItemsOf(stream, picks);
    RefusalsFitPlaces(H, batch, q);
    PlacesOfPicks(stream, picks, q);
    assert q in multiset(Refusals(H, batch)) ==> q in multiset(Places(batch));
  }

  /** What a step records is of messages the broker still holds, and each once. */
  lemma RecordedFacts(H: HashFn, stream: Stream, s: System, l: Label, q: nat)
    requires Allowed(stream, s, l)
    ensures q in Recorded(H, stream, s, l) ==> q in stream && q !in s.settled
    ensures (l.Deliver? ==> DistinctPicks(l.picks)) ==> Recorded(H, stream, s, l)[q] <= 1
    ensures Refused(Next(H, stream, s, l).journal) == Refused(s.journal) + Recorded(H, stream, s, l)
  {
    hide Handle, DropOne, Refused, Refusals;
    match l
    case Deliver(picks, at, fault, reached) =>
      var batch := ItemsOf(stream, picks);
      AttemptRefuses(H, s.disk, fault, batch, at);
      RefusalsOnce(H, stream, picks, q);
      RefusedAppend(s.journal, Handle(H, s.disk, fault, batch, at).log);
      if q in Recorded(H, stream, s, l) {
        var p :| p in picks && p.id == q;
        assert Arrives(stream, s, p);
      }
    case Drop(p, fault, _) =>
      DropRefuses(H, s.disk, fault, DeliveryOf(p));
      RefusedAppend(s.journal, DropOne(H, s.disk, fault, DeliveryOf(p)).log);
    case Crash(_) =>
  }

  /** What a step records and is heard of is settled. */
  lemma HeardIsSettled(H: HashFn, stream: Stream, s: System, l: Label, q: nat)
    requires Allowed(stream, s, l) && RefusalsHeard(H, stream, s, l) && q in Recorded(H, stream, s, l)
    ensures q in Next(H, stream, s, l).settled
  {
    hide Handle, DropOne, Refused, Refusals;
    match l
    case Deliver(picks, at, fault, reached) =>
      AttemptRefuses(H, s.disk, fault, ItemsOf(stream, picks), at);
    case Drop(p, fault, _) =>
      DropRefuses(H, s.disk, fault, DeliveryOf(p));
    case Crash(_) =>
  }

  lemma StepRefusesOnce(H: HashFn, stream: Stream, s: System, l: Label)
    requires Allowed(stream, s, l) && RefusalsHeard(H, stream, s, l) && RefusedOnce(s)
    ensures RefusedOnce(Next(H, stream, s, l))
  {
    var s' := Next(H, stream, s, l);
    hide Refused, Recorded, Next;
    StepSettles(H, stream, s, l);
    forall q: nat
      ensures Refused(s'.journal)[q] <= 1
      ensures q in Refused(s'.journal) ==> q in s'.settled
    {
      RecordedFacts(H, stream, s, l, q);
      if q in Recorded(H, stream, s, l) {
        HeardIsSettled(H, stream, s, l, q);
      }
    }
  }

  lemma StepSettles(H: HashFn, stream: Stream, s: System, l: Label)
    requires Allowed(stream, s, l)
    ensures s.settled <= Next(H, stream, s, l).settled
  {}

  lemma {:induction false} RunRefusesOnce(H: HashFn, stream: Stream, s: System, ls: seq<Label>)
    requires RefusedOnce(s) && Run(H, stream, s, ls).Some? && AllHeard(H, stream, s, ls)
    ensures RefusedOnce(Run(H, stream, s, ls).value)
    decreases |ls|
  {
    if ls != [] {
      StepRefusesOnce(H, stream, s, ls[0]);
      hide RefusedOnce, RefusalsHeard;
      RunRefusesOnce(H, stream, Next(H, stream, s, ls[0]), ls[1..]);
    }
  }

  /**
   In every run in which the answers to recorded refusals arrive, whatever else is lost, fails or
   dies, the loss figure is exactly the number of gaps, and so at least zero.
   */
  lemma NeverNegativeWhileRefusalsAreHeard(H: HashFn, stream: Stream, ls: seq<Label>)
    requires Run(H, stream, START, ls).Some? && AllHeard(H, stream, START, ls)
    requires Run(H, stream, START, ls).value.disk.ledger.position.Some?
    ensures var s := Run(H, stream, START, ls).value;
      var p := s.disk.ledger.position.value;
      p.Unaccounted() == |Gaps(s.journal, p)| >= 0
  {
    assert RefusedOnce(START);
    RunRefusesOnce(H, stream, START, ls);
    LossLawOverRuns(H, stream, ls);
    DistinctIsSmaller(Refused(Run(H, stream, START, ls).value.journal));
    hide Refused, Run;
  }

  // ---- Exactly when a refusal can be counted twice ----

  /** A refusal the archive has recorded and the broker has not heard of. */
  ghost predicate Unheard(s: System, q: nat) {
    q in Refused(s.journal) && q !in s.settled
  }

  ghost predicate RefusedInStream(stream: Stream, s: System) {
    forall q :: q in Refused(s.journal) ==> q in stream
  }

  lemma {:induction false} RefusedComeFromTheStream(H: HashFn, stream: Stream, s: System, ls: seq<Label>)
    requires RefusedInStream(stream, s) && Run(H, stream, s, ls).Some?
    ensures RefusedInStream(stream, Run(H, stream, s, ls).value)
    decreases |ls|
  {
    if ls != [] {
      var next := Next(H, stream, s, ls[0]);
      hide Refused, Recorded, Next;
      forall q | q in Refused(next.journal)
        ensures q in stream
      {
        RecordedFacts(H, stream, s, ls[0], q);
      }
      RefusedComeFromTheStream(H, stream, next, ls[1..]);
    }
  }

  /** The step that records the refusal of `q` once more, its answer heard this time. */
  function Again(stream: Stream, q: nat): Label
    requires q in stream
  {
    if stream[q].Undecodable? then Drop(Pick(q, true, true), Fault(1, false), true)
    else Deliver([Pick(q, true, true)], 0, Fault(1, false), {q})
  }

  /** A message whose record is not kept is refused whenever it is delivered. */
  lemma RefusedAgain(H: HashFn, stream: Stream, s: System, q: nat)
    requires q in stream && q !in Keepable(H, stream) && q !in s.settled
    ensures var l := Again(stream, q);
      Allowed(stream, s, l) && Recorded(H, stream, s, l) == multiset{q} && RefusalsHeard(H, stream, s, l)
  {
    AllRefused([q]);
    if stream[q].Undecodable? {
      assert Entries([], [q], 0) == Refuses([q]);
      hide Refused, Refuses, Keepable;
    } else {
      DeliveredAgain(H, stream, s, q);
      hide Handle, Refused, Refuses, Keepable, ItemsOf;
    }
  }

  lemma DeliveredAgain(H: HashFn, stream: Stream, s: System, q: nat)
    requires q in stream && stream[q].Decodable? && q !in Keepable(H, stream) && q !in s.settled
    ensures var picks := [Pick(q, true, true)];
      && (forall p :: p in picks ==> Arrives(stream, s, p))
      && {q} <= (set p | p in picks :: p.id)
      && Handle(H, s.disk, Fault(1, false), ItemsOf(stream, picks), 0).log == Refuses([q])
  {
    var p := Pick(q, true, true);
    var it := Item(stream[q].record, Delivery(q, true));
    assert p in [p];
    assert ItemsOf(stream, [p]) == [it];
    RefusedAlone(H, s.disk, it);
    hide Handle, Keepable;
  }

  lemma RefusedAlone(H: HashFn, d: Disk, it: Item)
    requires Placed(it) && (Parse(it).Some? ==> !Matches(H, Parse(it).value))
    ensures Handle(H, d, Fault(1, false), [it], 0).log == Refuses([it.delivery.sequence])
  {
    var q := it.delivery.sequence;
    assert [it][1..] == [] && Recs([]) == [] && Malformed([]) == [];
    assert Entries([], [q], 0) == Refuses([q]);
    if Parse(it).Some? {
      var r := Parse(it).value;
      assert Recs([it]) == [r] && Malformed([it]) == [] && [r][1..] == [];
      assert Poisoned(H, [r]) == [q];
      assert Drive(H, d, Fault(1, false), [], 0) == Attempt(d, Fault(1, false), None, []);
      assert AppendBatch(H, d, Fault(1, false), [r], [], 0).error == Some(HashMismatch);
      assert [] + Refuses([q]) == Refuses([q]);
    } else {
      assert Recs([it]) == [] && Malformed([it]) == [q];
    }
  }

  /** Some step, its own answers heard, counts a refusal a second time. */
  ghost predicate CanCountTwice(H: HashFn, stream: Stream, s: System) {
    exists l :: CountsTwice(H, stream, s, l)
  }

  ghost predicate CountsTwice(H: HashFn, stream: Stream, s: System, l: Label) {
    Allowed(stream, s, l) && RefusalsHeard(H, stream, s, l) && !NoneTwice(Refused(Next(H, stream, s, l).journal))
  }

  /**
   In a reachable state where no refusal has been counted twice, the next step can count one twice
   if and only if the answer to some recorded refusal has not been heard.
   */
  lemma CountedTwiceExactlyWhen(H: HashFn, stream: Stream, ls: seq<Label>)
    requires Run(H, stream, START, ls).Some?
    requires NoneTwice(Refused(Run(H, stream, START, ls).value.journal))
    ensures var s := Run(H, stream, START, ls).value;
      CanCountTwice(H, stream, s) <==> exists q :: Unheard(s, q)
  {
    var s := Run(H, stream, START, ls).value;
    Reachable(H, stream, ls);
    RefusedComeFromTheStream(H, stream, START, ls);
    hide Run, Refused, Recorded, Next, RefusalsHeard;
    if q :| Unheard(s, q) {
      NotKeepable(H, stream, s, q);
      RefusedAgain(H, stream, s, q);
      var l := Again(stream, q);
      RecordedFacts(H, stream, s, l, q);
      assert Refused(Next(H, stream, s, l).journal)[q] >= 2;
      assert CountsTwice(H, stream, s, l);
    } else if CanCountTwice(H, stream, s) {
      var l :| CountsTwice(H, stream, s, l);
      HeardAreDistinct(H, stream, s, l);
      forall q: nat
        ensures Refused(Next(H, stream, s, l).journal)[q] <= 1
      {
        RecordedFacts(H, stream, s, l, q);
        assert !Unheard(s, q);
      }
      assert false;
    }
  }

  lemma HeardAreDistinct(H: HashFn, stream: Stream, s: System, l: Label)
    requires Allowed(stream, s, l) && RefusalsHeard(H, stream, s, l)
    ensures l.Deliver? ==> DistinctPicks(l.picks)
  {}

  lemma NotKeepable(H: HashFn, stream: Stream, s: System, q: nat)
    requires Invariant(H, stream, s) && q in Refused(s.journal)
    ensures q !in Keepable(H, stream)
  {
    InsertedFacts(Keepable(H, stream), s.journal);
  }

  // ---- A mixed batch, in a run ----

  /**
   A malformed record and a mismatching one delivered together are both acked, and only the second
   is ever recorded: the first is settled, and no row, refusal or range says it was there.
   */
  lemma MixedIsAckedAndGone(H: HashFn, stream: Stream, bad: nat, wrong: nat)
    requires bad in stream && wrong in stream && bad != wrong
    requires stream[bad].Decodable? && ParseDigest(stream[bad].record.eventHash) == None
    requires stream[wrong].Decodable? && !Keeps(H, stream[wrong], wrong)
    requires ParseDigest(stream[wrong].record.eventHash) != None
    ensures var picks := [Pick(bad, true, false), Pick(wrong, true, false)];
      Run(H, stream, START, [Deliver(picks, 0, Fault(1, false), {bad, wrong})])
      == Some(System(
           Disk(Ledger(map[], Some(Position(wrong, wrong, 0, 1, 0))), map[], []), [Refuse(wrong)],
           {bad, wrong}, {bad, wrong}))
  {
    var p, q := Pick(bad, true, false), Pick(wrong, true, false);
    var picks := [p, q];
    var l, batch := Deliver(picks, 0, Fault(1, false), {bad, wrong}), ItemsOf(stream, picks);
    assert p in picks && q in picks && forall x :: x in picks <==> x == p || x == q;
    assert bad in (set x | x in picks :: x.id) && wrong in (set x | x in picks :: x.id);
    assert batch == [batch[0], batch[1]];
    MixedPair(H, START.disk, batch[0], batch[1], 0);
    hide Handle;
    var s := Next(H, stream, START, l);
    assert s.settled == {bad, wrong} && s.ackedPlaced == {bad, wrong} && s.journal == [Refuse(wrong)];
    OneStep(H, stream, START, l);
  }
}
