/**
 The pull loop: one fetch becomes one batch and one decision to acknowledge it.
 */
module EventStream {
  import opened Wrappers
  import opened Canonical
  import opened Ledger
  import opened Durability
  import opened Handling
  import opened Consumer

  /** One fetched message: its decoded record if it decodes, its metadata if that can be read. */
  datatype Msg = Msg(record: Option<Record>, metadata: Option<Delivery>)

  /** What the loop tells the broker about a message; `Unanswered` ones come back by themselves. */
  datatype Fate = Acked | Naked | Terminated | Unanswered

  function DeliveryOf(m: Msg): Delivery {
    match m.metadata case Some(d) => d case None => Delivery(0, false)
  }

  function Items(msgs: seq<Msg>): seq<Item> {
    if msgs == [] then []
    else (if msgs[0].record.Some? then [Item(msgs[0].record.value, DeliveryOf(msgs[0]))] else []) + Items(msgs[1..])
  }

  /** The refusals of a fetch's undecodable messages, each with the storage it meets. */
  function Dropped(H: HashFn, d: Disk, msgs: seq<Msg>, faults: seq<Fault>): Disk
    requires |faults| == |msgs|
    decreases |msgs|
  {
    if msgs == [] then d
    else if msgs[0].record.Some? then Dropped(H, d, msgs[1..], faults[1..])
    else Dropped(H, DropOne(H, d, faults[0], DeliveryOf(msgs[0])).disk, msgs[1..], faults[1..])
  }

  /** What becomes of each message, once it is known how the fetch as a whole went. */
  function FateOf(m: Msg, decided: Fate): Fate {
    if m.record.None? then Terminated else decided
  }

  /** Reads a fetch: the undecodable messages are accounted for and terminated, the others held. */
  method Collect(c: Consumer, msgs: seq<Msg>, faults: seq<Fault>)
    returns (batch: seq<Item>, held: seq<nat>, fates: seq<Fate>)
    requires c.store.Valid() && |faults| == |msgs|
    modifies c, c.store
    ensures c.store.Valid()
    ensures c.store.Now() == Dropped(c.store.hash, old(c.store.Now()), msgs, faults)
    ensures batch == Items(msgs)
    ensures Unsettled(msgs, fates, held)
  {
    hide AppendBatch, DropOne, Replay, Sound;
    batch, held, fates := [], [], [];
    ghost var goal := Dropped(c.store.hash, c.store.Now(), msgs, faults);
    assert msgs[0..] == msgs && faults[0..] == faults;
    for i := 0 to |msgs|
      invariant c.store.Valid()
      invariant goal == Dropped(c.store.hash, c.store.Now(), msgs[i..], faults[i..])
      invariant batch + Items(msgs[i..]) == Items(msgs)
      invariant Unsettled(msgs[..i], fates, held)
    {
      var m := msgs[i];
      assert msgs[i..][1..] == msgs[i + 1..] && faults[i..][1..] == faults[i + 1..];
      assert msgs[..i + 1] == msgs[..i] + [m];
      match m.record {
        case None =>
          c.store.fault := faults[i];
          c.Undecodable(DeliveryOf(m));
          fates := fates + [Terminated];
        case Some(record) =>
          batch := batch + [Item(record, DeliveryOf(m))];
          held := held + [i];
          fates := fates + [Unanswered];
      }
    }
    assert msgs[|msgs|..] == [] && msgs[..|msgs|] == msgs;
  }

  /** The undecodable messages have been terminated; the rest are held and await one answer. */
  ghost predicate Unsettled(msgs: seq<Msg>, fates: seq<Fate>, held: seq<nat>) {
    && |fates| == |msgs|
    && (forall n :: 0 <= n < |msgs| ==> fates[n] == FateOf(msgs[n], Unanswered))
    && (forall h :: h in held <==> 0 <= h < |msgs| && msgs[h].record.Some?)
  }

  /**
   One turn of the loop. `faults` is the storage each undecodable message meets, `last` the one
   the handler does; `broken` says the fetch itself ended in an error.
   */
  method ConsumeOnce(c: Consumer, msgs: seq<Msg>, faults: seq<Fault>, last: Fault, broken: bool, at: int)
    returns (fates: seq<Fate>)
    requires c.store.Valid() && |faults| == |msgs|
    modifies c, c.store
    ensures c.store.Valid()
    ensures var d := Dropped(c.store.hash, old(c.store.Now()), msgs, faults);
      var a := Handle(c.store.hash, d, last, Items(msgs), at);
      var skip := broken || Items(msgs) == [];
      var decided := if skip then Unanswered else if a.error == None then Acked else Naked;
      c.store.Now() == (if skip then d else a.disk) && Answered(msgs, fates, decided)
  {
    var batch, held;
    batch, held, fates := Collect(c, msgs, faults);
    if broken || batch == [] {
      return;
    }
    hide Handle, Dropped, Replay, Sound;
    c.store.fault := last;
    var error := c.HandleBatch(batch, at);
    fates := Answer(msgs, fates, held, if error == None then Acked else Naked);
  }

  /** Every message got the one answer, but for those already terminated. */
  ghost predicate Answered(msgs: seq<Msg>, fates: seq<Fate>, decided: Fate) {
    |fates| == |msgs| && forall n :: 0 <= n < |msgs| ==> fates[n] == FateOf(msgs[n], decided)
  }

  /** Gives every held message the same answer. */
  method Answer(ghost msgs: seq<Msg>, fates: seq<Fate>, held: seq<nat>, decided: Fate) returns (answered: seq<Fate>)
    requires Unsettled(msgs, fates, held)
    ensures Answered(msgs, answered, decided)
  {
    answered := fates;
    for k := 0 to |held|
      invariant |answered| == |msgs|
      invariant forall n :: 0 <= n < |msgs| ==>
        answered[n] == if n in held[..k] then decided else fates[n]
    {
      assert held[k] in held;
      answered := answered[held[k] := decided];
    }
    assert held[..|held|] == held;
  }
}
