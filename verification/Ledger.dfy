/**
 The archive's books: the events table and the one-row stream position, and what a single
 accepted record or a single refusal does to them. Everything the archive ever commits is a
 sequence of such entries, so `Replay` is the reference every batched write is proved against.
 */
module Ledger {
  import opened Wrappers
  import opened Canonical

  /** Payloads of at most this many bytes live in the row; larger ones in a file. */
  const INLINE_THRESHOLD: nat := 16384

  datatype BatchRecord = BatchRecord(
    payload: Bytes, eventHash: Digest, eventTime: int, messageType: string, sequence: nat)

  /** One row of the events table; its key is the event hash. A missing payload is in a file. */
  datatype Row = Row(
    eventTime: int, messageType: string, payloadRef: string, committedAt: int, payload: Option<Bytes>)

  /** The durable stream position. */
  datatype Position = Position(
    firstSeq: nat, highestSeq: nat, committed: int, rejected: int, duplicates: int)
  {
    function Span(): int {
      if highestSeq == 0 then 0 else highestSeq - firstSeq + 1
    }

    function Unaccounted(): int {
      Span() - committed - rejected
    }
  }

  datatype Ledger = Ledger(events: map<Digest, Row>, position: Option<Position>)

  const EMPTY: Ledger := Ledger(map[], None)

  predicate Oversized(r: BatchRecord) {
    |r.payload| > INLINE_THRESHOLD
  }

  function RowOf(r: BatchRecord, at: int): Row {
    Row(r.eventTime, r.messageType, PayloadRef(r.eventHash), at,
        if Oversized(r) then None else Some(r.payload))
  }

  /** INSERT OR IGNORE: the first row under a hash stays. */
  function Insert(events: map<Digest, Row>, r: BatchRecord, at: int): map<Digest, Row> {
    if r.eventHash in events then events else events[r.eventHash := RowOf(r, at)]
  }

  function Min(a: nat, b: nat): nat { if b < a then b else a }

  function Max(a: nat, b: nat): nat { if b > a then b else a }

  /** INSERT ... ON CONFLICT DO UPDATE on the one position row. */
  function Upsert(p: Option<Position>, o: Position): Position {
    match p
    case None => o
    case Some(q) => Position(
      Min(q.firstSeq, o.firstSeq), Max(q.highestSeq, o.highestSeq),
      q.committed + o.committed, q.rejected + o.rejected, q.duplicates + o.duplicates)
  }

  /** What the archive decided about one delivery: it holds the record, or it refused it. */
  datatype Entry =
    | Accept(rec: BatchRecord, at: int)
    | Refuse(refused: nat)
  {
    function Sequence(): nat {
      match this
      case Accept(r, _) => r.sequence
      case Refuse(q) => q
    }
  }

  function Apply(l: Ledger, e: Entry): Ledger {
    match e
    case Accept(r, at) =>
      var isNew := if r.eventHash in l.events then 0 else 1;
      Ledger(Insert(l.events, r, at),
             Some(Upsert(l.position, Position(r.sequence, r.sequence, isNew, 0, 1 - isNew))))
    case Refuse(q) =>
      Ledger(l.events, Some(Upsert(l.position, Position(q, q, 0, 1, 0))))
  }

  /** One entry at a time, each in a transaction of its own. */
  function Replay(l: Ledger, es: seq<Entry>): Ledger
    decreases |es|
  {
    if es == [] then l else Replay(Apply(l, es[0]), es[1..])
  }

  function Accepts(recs: seq<BatchRecord>, at: int): (es: seq<Entry>)
    ensures |es| == |recs|
  {
    seq(|recs|, i requires 0 <= i < |recs| => Accept(recs[i], at))
  }

  function Refuses(qs: seq<nat>): (es: seq<Entry>)
    ensures |es| == |qs|
  {
    seq(|qs|, i requires 0 <= i < |qs| => Refuse(qs[i]))
  }

  /** What one batched commit decides: the records it keeps, then the sequences it refuses. */
  function Entries(recs: seq<BatchRecord>, rejected: seq<nat>, at: int): seq<Entry> {
    Accepts(recs, at) + Refuses(rejected)
  }

  /** A row holds what the record says, when it was committed, and the bytes if they fit. */
  ghost predicate Describes(row: Row, r: BatchRecord, at: int) {
    && row.eventTime == r.eventTime
    && row.messageType == r.messageType
    && row.committedAt == at
    && |EncodeHex(r.eventHash)| == 64
    && row.payloadRef == EncodeHex(r.eventHash)[..2] + "/" + EncodeHex(r.eventHash)[2..]
    && row.payload == (if |r.payload| <= 16384 then Some(r.payload) else None)
  }

  /** Record `i` is the first of `recs` to bring content `h`, and the row describes it. */
  ghost predicate DescribesFirst(row: Row, recs: seq<BatchRecord>, at: int, h: Digest, i: nat) {
    && i < |recs| && recs[i].eventHash == h && (forall j :: 0 <= j < i ==> recs[j].eventHash != h)
    && Describes(row, recs[i], at)
  }

  ghost predicate NewRow(row: Row, recs: seq<BatchRecord>, at: int, h: Digest) {
    exists i: nat :: DescribesFirst(row, recs, at, h, i)
  }

  /** Rows that were there are untouched, and each new one describes the first record of its hash. */
  ghost predicate RowsDescribe(before: map<Digest, Row>, after: map<Digest, Row>, recs: seq<BatchRecord>, at: int) {
    && (forall h :: h in before ==> h in after && after[h] == before[h])
    && (forall h :: h in after && h !in before ==> NewRow(after[h], recs, at, h))
    && (forall r :: r in recs ==> r.eventHash in after)
  }

  lemma RowOfDescribes(r: BatchRecord, at: int)
    ensures Describes(RowOf(r, at), r, at)
  {
    HexRoundTrip(r.eventHash);
  }

  lemma FirstDescribed(r: BatchRecord, rest: seq<BatchRecord>, at: int)
    ensures NewRow(RowOf(r, at), [r] + rest, at, r.eventHash)
  {
    RowOfDescribes(r, at);
    assert DescribesFirst(RowOf(r, at), [r] + rest, at, r.eventHash, 0);
  }

  lemma LaterDescribed(row: Row, r: BatchRecord, rest: seq<BatchRecord>, at: int, h: Digest)
    requires NewRow(row, rest, at, h) && r.eventHash != h
    ensures NewRow(row, [r] + rest, at, h)
  {
    hide Describes;
    var i: nat :| DescribesFirst(row, rest, at, h, i);
    assert DescribesFirst(row, [r] + rest, at, h, i + 1);
  }

  /** What a commit's acceptances leave in the table, column by column. */
  lemma {:induction false} AcceptedRowsDescribe(l: Ledger, recs: seq<BatchRecord>, at: int)
    ensures RowsDescribe(l.events, Replay(l, Accepts(recs, at)).events, recs, at)
    decreases |recs|
  {
    hide NewRow, Replay, RowOf, Accepts, Describes, DescribesFirst;
    AcceptsNext(l, recs, at);
    if recs != [] {
      var r, rest, next := recs[0], recs[1..], Apply(l, Accept(recs[0], at));
      AcceptedRowsDescribe(next, rest, at);
      var after := Replay(next, Accepts(rest, at)).events;
      assert recs == [r] + rest;
      FirstDescribed(r, rest, at);
      forall h | h in after && h !in l.events
        ensures NewRow(after[h], recs, at, h)
      {
        if h != r.eventHash {
          LaterDescribed(after[h], r, rest, at, h);
        }
      }
    }
  }

  lemma AcceptsNext(l: Ledger, recs: seq<BatchRecord>, at: int)
    ensures recs == [] ==> Replay(l, Accepts(recs, at)) == l
    ensures recs != [] ==>
      Replay(l, Accepts(recs, at)) == Replay(Apply(l, Accept(recs[0], at)), Accepts(recs[1..], at))
  {
    if recs != [] {
      assert Accepts(recs, at)[1..] == Accepts(recs[1..], at);
    }
  }

  lemma {:induction false} RefusalsAddNoRow(l: Ledger, qs: seq<nat>)
    ensures Replay(l, Refuses(qs)).events == l.events
    decreases |qs|
  {
    if qs != [] {
      assert Refuses(qs)[1..] == Refuses(qs[1..]);
      RefusalsAddNoRow(Apply(l, Refuse(qs[0])), qs[1..]);
    }
  }

  /** ... and of a whole commit. */
  lemma EntriesDescribe(l: Ledger, recs: seq<BatchRecord>, rejected: seq<nat>, at: int)
    ensures RowsDescribe(l.events, Replay(l, Entries(recs, rejected, at)).events, recs, at)
  {
    AcceptedRowsDescribe(l, recs, at);
    ReplayAppend(l, Accepts(recs, at), Refuses(rejected));
    RefusalsAddNoRow(Replay(l, Accepts(recs, at)), rejected);
    hide Replay, Accepts, Refuses, RowsDescribe;
  }

  lemma EntriesComeFromTheBatch(recs: seq<BatchRecord>, rejected: seq<nat>, at: int)
    ensures forall e :: e in Entries(recs, rejected, at) ==>
      match e case Accept(r, t) => r in recs && t == at case Refuse(q) => q in rejected
  {}

  lemma ReplayNext(l: Ledger, es: seq<Entry>, i: nat)
    requires i < |es|
    ensures Replay(l, es[i..]) == Replay(Apply(l, es[i]), es[i + 1..])
  {
    assert es[i..][1..] == es[i + 1..];
  }

  lemma {:induction false} ReplayAppend(l: Ledger, a: seq<Entry>, b: seq<Entry>)
    ensures Replay(l, a + b) == Replay(Replay(l, a), b)
    decreases |a|
  {
    if a == [] {
      assert a + b == b;
    } else {
      assert (a + b)[1..] == a[1..] + b;
      ReplayAppend(Apply(l, a[0]), a[1..], b);
    }
  }

  lemma ReplaySnoc(l: Ledger, es: seq<Entry>, e: Entry)
    ensures Replay(l, es + [e]) == Apply(Replay(l, es), e)
  {
    ReplayAppend(l, es, [e]);
    assert Replay(Replay(l, es), [e]) == Replay(Apply(Replay(l, es), e), []);
  }

  /** A refusal and an acceptance can be recorded in either order. */
  lemma {:induction false} RefusalsCommute(l: Ledger, as_: seq<Entry>, rs: seq<Entry>)
    requires forall e :: e in as_ ==> e.Accept?
    requires forall e :: e in rs ==> e.Refuse?
    ensures Replay(l, rs + as_) == Replay(l, as_ + rs)
    decreases |rs|
  {
    hide Apply;
    if rs == [] {
      assert rs + as_ == as_ + rs;
    } else {
      var r, rest := rs[0], rs[1..];
      assert rs + as_ == [r] + (rest + as_);
      assert as_ + rs == (as_ + [r]) + rest;
      RefusalsCommute(Apply(l, r), as_, rest);
      OneRefusalCommutes(l, r, as_);
      ReplayAppend(l, as_ + [r], rest);
      ReplayAppend(l, [r] + as_, rest);
      assert [r] + as_ + rest == [r] + (as_ + rest);
    }
  }

  lemma {:induction false} OneRefusalCommutes(l: Ledger, r: Entry, as_: seq<Entry>)
    requires r.Refuse?
    requires forall e :: e in as_ ==> e.Accept?
    ensures Replay(l, [r] + as_) == Replay(l, as_ + [r])
    decreases |as_|
  {
    if as_ == [] {
      assert [r] + as_ == as_ + [r];
    } else {
      var a, rest := as_[0], as_[1..];
      assert as_ == [a] + rest;
      assert ([r] + as_)[1..] == as_;
      assert (as_ + [r])[1..] == rest + [r];
      assert ([r] + rest)[1..] == rest;
      assert Apply(Apply(l, r), a) == Apply(Apply(l, a), r);
      OneRefusalCommutes(Apply(l, a), r, rest);
    }
  }

  /** A batch may record its refusals first. */
  lemma RefusalsFirst(l: Ledger, recs: seq<BatchRecord>, rejected: seq<nat>, at: int)
    ensures Replay(l, Entries(recs, rejected, at)) == Replay(Replay(l, Refuses(rejected)), Accepts(recs, at))
  {
    RefusalsCommute(l, Accepts(recs, at), Refuses(rejected));
    ReplayAppend(l, Refuses(rejected), Accepts(recs, at));
  }

  function Rejections(l: Ledger): int {
    if l.position.None? then 0 else l.position.value.rejected
  }

  /** Commits and duplicates together: the deliveries the archive kept. */
  function Deliveries(l: Ledger): int {
    if l.position.None? then 0 else l.position.value.committed + l.position.value.duplicates
  }

  lemma {:induction false} RowsStay(l: Ledger, es: seq<Entry>)
    ensures forall h :: h in l.events ==> h in Replay(l, es).events && Replay(l, es).events[h] == l.events[h]
    ensures forall e :: e in es && e.Accept? ==> e.rec.eventHash in Replay(l, es).events
    decreases |es|
  {
    if es != [] {
      RowsStay(Apply(l, es[0]), es[1..]);
      assert forall e :: e in es <==> e == es[0] || e in es[1..];
    }
  }

  lemma {:induction false} CountsAdd(l: Ledger, recs: seq<BatchRecord>, rejected: seq<nat>, at: int)
    ensures Rejections(Replay(l, Entries(recs, rejected, at))) == Rejections(l) + |rejected|
    ensures Deliveries(Replay(l, Entries(recs, rejected, at))) == Deliveries(l) + |recs|
    decreases |recs|, |rejected|
  {
    var es := Entries(recs, rejected, at);
    if recs != [] {
      assert es[1..] == Entries(recs[1..], rejected, at);
      CountsAdd(Apply(l, es[0]), recs[1..], rejected, at);
    } else if rejected != [] {
      assert es[1..] == Entries([], rejected[1..], at);
      CountsAdd(Apply(l, es[0]), [], rejected[1..], at);
    }
  }
}
