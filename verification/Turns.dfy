/**
 The pull loop takes the steps of the run model and no others: whatever one turn of it does to
 the disk, a run does, so everything proved of every run holds of the loop.
 */
module Turns {
  import opened Wrappers
  import opened Canonical
  import opened Durability
  import opened Handling
  import opened Runs
  import E = EventStream
  import C = Consumer

  /** Deliveries of messages of the stream that the broker still holds. */
  ghost predicate Pending(stream: Stream, s: System, picks: seq<Pick>) {
    forall i :: 0 <= i < |picks| ==> picks[i].id in stream && picks[i].id !in s.settled
  }

  ghost predicate InStream(stream: Stream, picks: seq<Pick>) {
    forall i :: 0 <= i < |picks| ==> picks[i].id in stream
  }

  /** A delivery as the loop fetches it. */
  function MsgOf(stream: Stream, p: Pick): E.Msg
    requires p.id in stream
  {
    E.Msg(match stream[p.id] case Decodable(r) => Some(r) case Undecodable => None,
          if p.placed then Some(Delivery(p.id, p.redelivered)) else None)
  }

  function MsgsOf(stream: Stream, picks: seq<Pick>): (msgs: seq<E.Msg>)
    requires forall i :: 0 <= i < |picks| ==> picks[i].id in stream
    ensures |msgs| == |picks|
  {
    if picks == [] then [] else [MsgOf(stream, picks[0])] + MsgsOf(stream, picks[1..])
  }

  /** The deliveries the loop holds for the handler. */
  function Held(stream: Stream, picks: seq<Pick>): (held: seq<Pick>)
    requires forall i :: 0 <= i < |picks| ==> picks[i].id in stream
    ensures forall p :: p in held ==> p in picks && p.id in stream && stream[p.id].Decodable?
  {
    if picks == [] then []
    else if stream[picks[0].id].Decodable? then [picks[0]] + Held(stream, picks[1..])
    else Held(stream, picks[1..])
  }

  /** The steps that account for the undecodable ones; the broker hears of those in `heard`. */
  function Drops(stream: Stream, picks: seq<Pick>, faults: seq<Fault>, heard: set<nat>): seq<Label>
    requires |faults| == |picks| && forall i :: 0 <= i < |picks| ==> picks[i].id in stream
    decreases |picks|
  {
    if picks == [] then []
    else
      var rest := Drops(stream, picks[1..], faults[1..], heard);
      if stream[picks[0].id].Undecodable? then [Drop(picks[0], faults[0], picks[0].id in heard)] + rest else rest
  }

  lemma {:induction false} HeldItems(stream: Stream, picks: seq<Pick>)
    requires InStream(stream, picks)
    ensures ItemsOf(stream, Held(stream, picks)) == E.Items(MsgsOf(stream, picks))
  {
    if picks != [] {
      var p, msgs, rest := picks[0], MsgsOf(stream, picks[1..]), Held(stream, picks[1..]);
      HeldItems(stream, picks[1..]);
      assert MsgsOf(stream, picks) == [MsgOf(stream, p)] + msgs;
      assert Held(stream, picks) == if stream[p.id].Decodable? then [p] + rest else rest;
      hide Held, MsgsOf, ItemsOf, E.Items;
      ItemsNext(MsgOf(stream, p), msgs);
      if stream[p.id].Decodable? {
        ItemsOfNext(stream, p, rest);
      }
    }
  }

  lemma ItemsOfNext(stream: Stream, p: Pick, rest: seq<Pick>)
    requires forall q :: q in [p] + rest ==> q.id in stream && stream[q.id].Decodable?
    ensures forall q :: q in rest ==> q in [p] + rest
    ensures ItemsOf(stream, [p] + rest)
         == [Item(stream[p.id].record, E.DeliveryOf(MsgOf(stream, p)))] + ItemsOf(stream, rest)
  {
    assert p in [p] + rest;
    assert E.DeliveryOf(MsgOf(stream, p)) == Runs.DeliveryOf(p);
  }

  lemma ItemsNext(m: E.Msg, msgs: seq<E.Msg>)
    ensures E.Items([m] + msgs)
         == if m.record.Some? then [Item(m.record.value, E.DeliveryOf(m))] + E.Items(msgs) else E.Items(msgs)
  {
    assert ([m] + msgs)[1..] == msgs;
  }

  /** The deliveries whose fate the loop decides by itself, and hears of. */
  ghost function Terminations(stream: Stream, picks: seq<Pick>, heard: set<nat>): set<nat>
    requires InStream(stream, picks)
  {
    set p | p in picks && stream[p.id].Undecodable? && p.id in heard :: p.id
  }

  lemma TerminationsNext(stream: Stream, picks: seq<Pick>, heard: set<nat>)
    requires picks != [] && InStream(stream, picks)
    ensures Terminations(stream, picks, heard)
         == Terminations(stream, picks[1..], heard)
            + if stream[picks[0].id].Undecodable? && picks[0].id in heard then {picks[0].id} else {}
  {
    assert forall p :: p in picks <==> p == picks[0] || p in picks[1..];
  }

  lemma {:induction false} DropsRun(
    H: HashFn, stream: Stream, s: System, picks: seq<Pick>, faults: seq<Fault>, heard: set<nat>)
    requires |faults| == |picks| && DistinctPicks(picks) && Pending(stream, s, picks)
    ensures var s' := Run(H, stream, s, Drops(stream, picks, faults, heard));
      && s'.Some? && s'.value.ackedPlaced == s.ackedPlaced
      && s'.value.settled == s.settled + Terminations(stream, picks, heard)
      && s'.value.disk == E.Dropped(H, s.disk, MsgsOf(stream, picks), faults)
    decreases |picks|
  {
    if picks != [] {
      hide DropOne, Keepable, Terminations;
      var p, rest := picks[0], picks[1..];
      TerminationsNext(stream, picks, heard);
      assert MsgsOf(stream, picks)[1..] == MsgsOf(stream, rest);
      if stream[p.id].Undecodable? {
        var l := Drop(p, faults[0], p.id in heard);
        var next := Next(H, stream, s, l);
        assert Drops(stream, picks, faults, heard)[1..] == Drops(stream, rest, faults[1..], heard);
        assert Pending(stream, next, rest) by {
          assert forall i :: 0 <= i < |rest| ==> rest[i].id != p.id;
        }
        DropsRun(H, stream, next, rest, faults[1..], heard);
      } else {
        DropsRun(H, stream, s, rest, faults[1..], heard);
      }
    } else {
      assert Terminations(stream, picks, heard) == {};
    }
  }

  /** The steps of one turn. `heard` are the acknowledgements and terminations that arrive. */
  function Turn(
    stream: Stream, picks: seq<Pick>, faults: seq<Fault>, last: Fault, broken: bool, at: int, heard: set<nat>)
    : seq<Label>
    requires |faults| == |picks| && forall i :: 0 <= i < |picks| ==> picks[i].id in stream
  {
    var held := Held(stream, picks);
    Drops(stream, picks, faults, heard)
    + if broken || held == [] then [] else [Deliver(held, at, last, heard * set p | p in held :: p.id)]
  }

  /** What the loop decides about the deliveries it held. */
  ghost function Decision(
    H: HashFn, d: Disk, msgs: seq<E.Msg>, last: Fault, broken: bool, at: int): (decided: E.Fate)
    ensures decided != E.Terminated
  {
    if broken || E.Items(msgs) == [] then E.Unanswered
    else if Handle(H, d, last, E.Items(msgs), at).error == None then E.Acked
    else E.Naked
  }

  /** The acknowledgements that arrive: of the held deliveries, and only if the batch was acked. */
  ghost function Acks(stream: Stream, picks: seq<Pick>, decided: E.Fate, heard: set<nat>): set<Pick>
    requires InStream(stream, picks)
  {
    if decided == E.Acked then set p | p in picks && stream[p.id].Decodable? && p.id in heard else {}
  }

  /** What a turn leaves: the disk the loop leaves, and settled exactly what it answered and the broker heard. */
  ghost predicate TurnLeaves(
    H: HashFn, stream: Stream, s: System, s': System, picks: seq<Pick>, faults: seq<Fault>, last: Fault,
    broken: bool, at: int, heard: set<nat>)
    requires |faults| == |picks| && InStream(stream, picks)
  {
    var msgs := MsgsOf(stream, picks);
    var d := E.Dropped(H, s.disk, msgs, faults);
    var decided := Decision(H, d, msgs, last, broken, at);
    var acks := Acks(stream, picks, decided, heard);
    && s'.disk == (if decided == E.Unanswered then d else Handle(H, d, last, E.Items(msgs), at).disk)
    && s'.settled == s.settled + Terminations(stream, picks, heard) + (set p | p in acks :: p.id)
    && s'.ackedPlaced == s.ackedPlaced + (set p | p in acks && p.placed :: p.id)
  }

  lemma {:induction false} HeldAreDecodable(stream: Stream, picks: seq<Pick>)
    requires InStream(stream, picks)
    ensures forall p :: p in Held(stream, picks) <==> p in picks && stream[p.id].Decodable?
  {
    if picks != [] {
      HeldAreDecodable(stream, picks[1..]);
      assert forall p :: p in picks <==> p == picks[0] || p in picks[1..];
    }
  }

  /** One turn of the loop is a run: every step of it is allowed, and it leaves what the loop leaves. */
  lemma TurnIsARun(
    H: HashFn, stream: Stream, s: System, picks: seq<Pick>, faults: seq<Fault>, last: Fault, broken: bool, at: int,
    heard: set<nat>)
    requires |faults| == |picks| && DistinctPicks(picks) && Pending(stream, s, picks)
    ensures var s' := Run(H, stream, s, Turn(stream, picks, faults, last, broken, at, heard));
      s'.Some? && TurnLeaves(H, stream, s, s'.value, picks, faults, last, broken, at, heard)
  {
    var held, drops := Held(stream, picks), Drops(stream, picks, faults, heard);
    DropsRun(H, stream, s, picks, faults, heard);
    HeldItems(stream, picks);
    assert |ItemsOf(stream, held)| == |held|;
    var mid := Run(H, stream, s, drops).value;
    if broken || held == [] {
      assert Turn(stream, picks, faults, last, broken, at, heard) == drops;
    } else {
      HeldAreDecodable(stream, picks);
      assert forall p :: p in held ==> Arrives(stream, mid, p);
      DeliverLeaves(H, stream, mid, picks, last, at, heard);
      hide Handle;
      var l := Deliver(held, at, last, heard * set p | p in held :: p.id);
      RunAppend(H, stream, s, drops, [l]);
      OneStep(H, stream, mid, l);
    }
  }

  lemma DeliverLeaves(
    H: HashFn, stream: Stream, mid: System, picks: seq<Pick>, last: Fault, at: int, heard: set<nat>)
    requires InStream(stream, picks)
    requires forall p :: p in Held(stream, picks) ==> Arrives(stream, mid, p)
    ensures var held := Held(stream, picks);
      var a := Handle(H, mid.disk, last, ItemsOf(stream, held), at);
      var acks := Acks(stream, picks, if a.error == None then E.Acked else E.Naked, heard);
      var l := Deliver(held, at, last, heard * set p | p in held :: p.id);
      && Allowed(stream, mid, l)
      && var s' := Next(H, stream, mid, l);
      && s'.disk == a.disk
      && s'.settled == mid.settled + (set p | p in acks :: p.id)
      && s'.ackedPlaced == mid.ackedPlaced + (set p | p in acks && p.placed :: p.id)
  {
    HeldAreDecodable(stream, picks);
    hide Handle, Held;
  }

  /** One message's answer, and what the broker makes of it. */
  ghost predicate AnswerCounts(stream: Stream, s': System, p: Pick, fate: E.Fate, heard: set<nat>) {
    && (p.id in s'.settled <==> (fate == E.Acked || fate == E.Terminated) && p.id in heard)
    && (fate == E.Acked && p.placed && p.id in heard ==> p.id in s'.ackedPlaced)
  }

  /** What the loop acks is in the store, whether or not the broker hears of it. */
  ghost predicate AckStored(H: HashFn, stream: Stream, d: Disk, p: Pick, fate: E.Fate) {
    fate == E.Acked && p.placed && p.id in Keepable(H, stream) ==>
      Keepable(H, stream)[p.id].eventHash in d.ledger.events
  }

  lemma AcksAreStored(
    H: HashFn, stream: Stream, s: System, s': System, picks: seq<Pick>, faults: seq<Fault>, last: Fault,
    broken: bool, at: int, heard: set<nat>, fates: seq<E.Fate>, n: nat)
    requires |faults| == |picks| && InStream(stream, picks) && n < |picks|
    requires TurnLeaves(H, stream, s, s', picks, faults, last, broken, at, heard)
    requires var msgs := MsgsOf(stream, picks);
      E.Answered(msgs, fates, Decision(H, E.Dropped(H, s.disk, msgs, faults), msgs, last, broken, at))
    ensures AckStored(H, stream, s'.disk, picks[n], fates[n])
  {
    hide Handle, E.Dropped;
    MsgAt(stream, picks, n);
    var p, d := picks[n], E.Dropped(H, s.disk, MsgsOf(stream, picks), faults);
    if fates[n] == E.Acked && p.placed && p.id in Keepable(H, stream) {
      HeldAreDecodable(stream, picks);
      HeldItems(stream, picks);
      assert p in picks;
      assert p in Held(stream, picks);
      NilStores(H, stream, s.(disk := d), Held(stream, picks), at, last, p);
    }
  }

  lemma AnswersCount(
    H: HashFn, stream: Stream, s: System, s': System, picks: seq<Pick>, faults: seq<Fault>, last: Fault,
    broken: bool, at: int, heard: set<nat>, fates: seq<E.Fate>, n: nat)
    requires |faults| == |picks| && DistinctPicks(picks) && Pending(stream, s, picks) && n < |picks|
    requires TurnLeaves(H, stream, s, s', picks, faults, last, broken, at, heard)
    requires var msgs := MsgsOf(stream, picks);
      E.Answered(msgs, fates, Decision(H, E.Dropped(H, s.disk, msgs, faults), msgs, last, broken, at))
    ensures AnswerCounts(stream, s', picks[n], fates[n], heard)
  {
    hide Handle, E.Dropped, Decision;
    MsgAt(stream, picks, n);
    var p := picks[n];
    assert p in picks && forall q :: q in picks && q.id == p.id ==> q == p;
    assert p.id in Terminations(stream, picks, heard) <==> stream[p.id].Undecodable? && p.id in heard;
  }

  lemma {:induction false} MsgAt(stream: Stream, picks: seq<Pick>, n: nat)
    requires InStream(stream, picks) && n < |picks|
    ensures MsgsOf(stream, picks)[n] == MsgOf(stream, picks[n])
  {
    if n > 0 {
      MsgAt(stream, picks[1..], n - 1);
    }
  }

  /**
   A turn of the loop over a store in the state `s` leaves a state the machine reaches from there,
   and its answers are that state's: a message is settled exactly when it was acked or terminated
   and the broker heard. An acked, placed one with a matching payload is in the store either way.
   */
  method Consume(
    c: C.Consumer, ghost stream: Stream, ghost s: System, ghost picks: seq<Pick>, msgs: seq<E.Msg>,
    faults: seq<Fault>, last: Fault, broken: bool, at: int, ghost heard: set<nat>) returns (fates: seq<E.Fate>)
    requires c.store.Valid() && c.store.Now() == s.disk
    requires |faults| == |picks| && DistinctPicks(picks) && Pending(stream, s, picks) && msgs == MsgsOf(stream, picks)
    modifies c, c.store
    ensures c.store.Valid() && |fates| == |picks|
    ensures var s' := Run(c.store.hash, stream, s, Turn(stream, picks, faults, last, broken, at, heard));
      && s'.Some? && c.store.Now() == s'.value.disk
      && (forall n :: 0 <= n < |picks| ==> AnswerCounts(stream, s'.value, picks[n], fates[n], heard))
      && (Invariant(c.store.hash, stream, s) ==> Invariant(c.store.hash, stream, s'.value))
    ensures forall n :: 0 <= n < |picks| ==> AckStored(c.store.hash, stream, c.store.Now(), picks[n], fates[n])
  {
    ghost var H := c.store.hash;
    hide Handle, E.Dropped, Run, Turn, Invariant, TurnLeaves, AnswerCounts, AckStored, E.Items;
    TurnIsARun(H, stream, s, picks, faults, last, broken, at, heard);
    ghost var s' := Run(H, stream, s, Turn(stream, picks, faults, last, broken, at, heard)).value;
    TurnDisk(H, stream, s, s', picks, faults, last, broken, at, heard);
    if Invariant(H, stream, s) {
      RunKeepsInvariant(H, stream, s, Turn(stream, picks, faults, last, broken, at, heard));
    }
    fates := E.ConsumeOnce(c, msgs, faults, last, broken, at);
    forall n | 0 <= n < |picks|
      ensures AnswerCounts(stream, s', picks[n], fates[n], heard)
      ensures AckStored(H, stream, s'.disk, picks[n], fates[n])
    {
      AnswersCount(H, stream, s, s', picks, faults, last, broken, at, heard, fates, n);
      AcksAreStored(H, stream, s, s', picks, faults, last, broken, at, heard, fates, n);
    }
  }

  lemma TurnDisk(
    H: HashFn, stream: Stream, s: System, s': System, picks: seq<Pick>, faults: seq<Fault>, last: Fault,
    broken: bool, at: int, heard: set<nat>)
    requires |faults| == |picks| && InStream(stream, picks)
    requires TurnLeaves(H, stream, s, s', picks, faults, last, broken, at, heard)
    ensures var msgs := MsgsOf(stream, picks);
      var d := E.Dropped(H, s.disk, msgs, faults);
      s'.disk == if broken || E.Items(msgs) == [] then d else Handle(H, d, last, E.Items(msgs), at).disk
  {}

  /** So what the loop acks is readable, now and after anything that follows, the ack heard or lost. */
  lemma AckedByTheLoopIsReadable(
    H: HashFn, stream: Stream, before: seq<Label>, after: seq<Label>, p: Pick, fate: E.Fate)
    requires Run(H, stream, START, before).Some? && Run(H, stream, START, before + after).Some?
    requires AckStored(H, stream, Run(H, stream, START, before).value.disk, p, fate)
    requires fate == E.Acked && p.placed && p.id in Keepable(H, stream)
    ensures var d, h := Run(H, stream, START, before + after).value.disk, Keepable(H, stream)[p.id].eventHash;
      h in d.ledger.events && ReadBlob(H, d, h).Success? && H(ReadBlob(H, d, h).value) == h
  {
    StoredIsReadable(H, stream, before, after, Keepable(H, stream)[p.id].eventHash);
  }
}
