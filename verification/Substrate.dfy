/**
 The substrate as the object it is: an events table, a position row, blob files, and methods
 that change them in place. `Now` is the disk those fields amount to; every method is proved
 to do to it exactly what the specification in `Durability` says, fault for fault.
 */
module Substrate {
  import opened Wrappers
  import opened Canonical
  import opened Ledger
  import opened Accounting
  import opened Durability

  /** The running figures of one batch; a zero sequence means "none yet". */
  datatype Tally = Tally(first: nat, highest: nat, committed: int, rejected: int, duplicates: int) {
    predicate Proper() {
      if highest == 0 then first == committed == rejected == duplicates == 0 else first > 0
    }

    function Widen(q: nat): Tally {
      this.(first := if first == 0 || q < first then q else first, highest := if q > highest then q else highest)
    }

    /** The figures as the row the upsert is given. */
    function Excluded(): Position {
      Position(first, highest, committed, rejected, duplicates)
    }

    /** The position the upsert leaves; an untouched one while there is nothing to upsert. */
    function On(p: Option<Position>): Option<Position> {
      if highest == 0 then p else Some(Upsert(p, Excluded()))
    }
  }

  class Substrate {
    const hash: HashFn
    var events: map<Digest, Row>
    var position: Option<Position>
    var blobs: map<Digest, File>
    var temps: seq<File>
    /** What the storage will do next; set by the environment. */
    var fault: Fault
    /** Every entry ever committed, in order. */
    ghost var journal: seq<Entry>

    constructor (hash: HashFn)
      ensures Valid() && this.hash == hash && journal == []
      ensures Now() == Disk(EMPTY, map[], [])
    {
      this.hash := hash;
      events, position, blobs, temps := map[], None, map[], [];
      fault := Fault(0, false);
      journal := [];
    }

    function Now(): Disk
      reads this
    {
      Disk(Ledger(events, position), blobs, temps)
    }

    /** The books are the journal replayed, and every row leads to the bytes its key names. */
    ghost predicate Valid()
      reads this
    {
      Now().ledger == Books(journal) && Sound(hash, Now())
    }

    ghost predicate Became(a: Attempt)
      reads this
    {
      Now() == a.disk && fault == a.fault
    }

    /** One durable operation: it completes, or the storage has stopped working. */
    method Spend() returns (ok: bool)
      modifies this`fault
      ensures ok == (old(fault).fuel > 0)
      ensures fault == if ok then old(fault).(fuel := old(fault).fuel - 1) else old(fault)
    {
      ok := fault.fuel > 0;
      if ok {
        fault := fault.(fuel := fault.fuel - 1);
      }
    }

    /** Removes the temporary file, leaving the others, unless the process is already gone. */
    method CleanUp(others: seq<File>)
      modifies this`temps
      ensures temps == if fault.crash then old(temps) else others
    {
      if !fault.crash {
        temps := others;
      }
    }

    /** Write-once under the content's name: a temporary file, flushed, then renamed into place. */
    method WriteBlob(h: Digest, payload: Bytes) returns (error: Option<Error>)
      modifies this`blobs, this`temps, this`fault
      ensures var a := Durability.WriteBlob(old(Now()), old(fault), h, payload);
        Became(a) && error == a.error
    {
      if h in blobs {
        return if blobs[h].content == payload then None else Some(BlobCollision);
      }
      var others := temps;
      var ok := Spend();
      if !ok {
        assert temps == others + [];
        return Some(StorageFailure);
      }
      var tmp := File([], false);
      temps := others + [tmp];
      ok := Spend();
      if !ok {
        CleanUp(others);
        assert others == others + [];
        return Some(StorageFailure);
      }
      tmp := tmp.(content := payload);
      temps := others + [tmp];
      ok := Spend();
      if !ok {
        CleanUp(others);
        assert others == others + [];
        return Some(StorageFailure);
      }
      tmp := tmp.(synced := true);
      temps := others + [tmp];
      ok := Spend();
      if !ok {
        CleanUp(others);
        assert others == others + [];
        return Some(StorageFailure);
      }
      blobs, temps := blobs[h := tmp], others;
      return None;
    }

    /** The hash checks, before anything durable is touched. */
    method CheckRecords(recs: seq<BatchRecord>) returns (error: Option<Error>)
      ensures error == Verify(hash, recs)
    {
      for i := 0 to |recs|
        invariant Verify(hash, recs) == Verify(hash, recs[i..])
      {
        assert recs[i..][1..] == recs[i + 1..];
        if recs[i].sequence == 0 {
          return Some(NoSequence);
        }
        if hash(recs[i].payload) != recs[i].eventHash {
          return Some(HashMismatch);
        }
      }
      return None;
    }

    method WriteOversized(recs: seq<BatchRecord>) returns (error: Option<Error>)
      modifies this`blobs, this`temps, this`fault
      ensures var a := WriteBlobs(old(Now()), old(fault), recs);
        Became(a) && error == a.error
    {
      for i := 0 to |recs|
        invariant unchanged(`events) && unchanged(`position)
        invariant WriteBlobs(old(Now()), old(fault), recs) == WriteBlobs(Now(), fault, recs[i..])
      {
        assert recs[i..][1..] == recs[i + 1..];
        if Oversized(recs[i]) {
          error := WriteBlob(recs[i].eventHash, recs[i].payload);
          if error.Some? {
            return error;
          }
        }
      }
      return None;
    }

    /** The range of the refused sequences, zero standing for "no sequence yet". */
    static method StageRefusals(ghost l: Ledger, rejected: seq<nat>) returns (error: Option<Error>, t: Tally)
      ensures error == if 0 in rejected then Some(NoSequence) else None
      ensures error == None ==>
        && Replay(l, Refuses(rejected)) == Ledger(l.events, t.On(l.position))
        && t.Proper() && (t.highest == 0 <==> rejected == [])
    {
      ghost var es := Refuses(rejected);
      ghost var books := l;
      error, t := None, Tally(0, 0, 0, 0, 0);
      for i := 0 to |rejected|
        invariant t.Proper() && (t.highest == 0 <==> i == 0)
        invariant 0 !in rejected[..i]
        invariant books == Ledger(l.events, t.(rejected := i).On(l.position)) && t.rejected == 0
        invariant Replay(l, es) == Replay(books, es[i..])
      {
        if rejected[i] == 0 {
          error := Some(NoSequence);
          return;
        }
        ReplayNext(books, es, i);
        books := Apply(books, es[i]);
        t := t.Widen(rejected[i]);
      }
      t := t.(rejected := |rejected|);
    }

    /** One INSERT OR IGNORE, and the running figures after it: no row affected is a redelivery, not a commit. */
    static method StageRecord(rows: map<Digest, Row>, t: Tally, r: BatchRecord, at: int)
      returns (rows': map<Digest, Row>, t': Tally)
      requires r.sequence > 0 && t.Proper()
      ensures t'.Proper() && t'.highest > 0
      ensures forall p :: Ledger(rows', t'.On(p)) == Apply(Ledger(rows, t.On(p)), Accept(r, at))
    {
      var affected := if r.eventHash in rows then 0 else 1;
      rows' := Insert(rows, r, at);
      if affected == 0 {
        t' := t.(duplicates := t.duplicates + 1);
      } else {
        t' := t.(committed := t.committed + 1);
      }
      t' := t'.Widen(r.sequence);
    }

    /**
     The statements of one transaction, on its own view of the table. The single upsert the
     running figures feed leaves what recording every entry by itself would.
     */
    static method Stage(
      events: map<Digest, Row>, ghost position: Option<Position>, recs: seq<BatchRecord>, rejected: seq<nat>, at: int)
      returns (error: Option<Error>, rows: map<Digest, Row>, t: Tally)
      requires forall r :: r in recs ==> r.sequence > 0
      ensures error == if 0 in rejected then Some(NoSequence) else None
      ensures error == None ==>
        Replay(Ledger(events, position), Entries(recs, rejected, at)) == Ledger(rows, t.On(position))
      ensures error == None ==> (t.highest == 0 <==> recs == [] && rejected == [])
    {
      rows := events;
      error, t := StageRefusals(Ledger(events, position), rejected);
      if error.Some? {
        return;
      }
      RefusalsFirst(Ledger(events, position), recs, rejected, at);
      ghost var es := Accepts(recs, at);
      ghost var start := Replay(Ledger(events, position), Refuses(rejected));
      ghost var books := start;
      for i := 0 to |recs|
        invariant t.Proper() && (t.highest == 0 <==> i == 0 && rejected == [])
        invariant books == Ledger(rows, t.On(position))
        invariant Replay(start, es) == Replay(books, es[i..])
      {
        ReplayNext(books, es, i);
        books := Apply(books, es[i]);
        rows, t := StageRecord(rows, t, recs[i], at);
      }
    }

    /** Many records and refusals in one transaction. */
    method AppendCanonicalBatch(recs: seq<BatchRecord>, rejected: seq<nat>, at: int)
      returns (error: Option<Error>)
      requires Valid()
      modifies this
      ensures Valid()
      ensures var a := AppendBatch(hash, old(Now()), old(fault), recs, rejected, at);
        Became(a) && error == a.error && journal == old(journal) + a.log
      ensures error == None ==> RowsDescribe(old(events), events, recs, at)
    {
      hide RowsDescribe, Sound, Replay, Verify, WriteBlobs, Entries;
      if AppendBatch(hash, Now(), fault, recs, rejected, at).error == None {
        CommitDescribesRows(hash, Now(), fault, recs, rejected, at);
      }
      CommitIsAllOrNothing(hash, Now(), fault, recs, rejected, at);
      if recs == [] && rejected == [] {
        return None;
      }
      error := CheckRecords(recs);
      if error.Some? {
        return;
      }
      VerifiedRecords(hash, recs);
      ghost var j := WriteBlobsPuts(Now(), fault, recs);
      error := WriteOversized(recs);
      if error.Some? {
        return;
      }
      var rows, tally;
      error, rows, tally := Stage(events, position, recs, rejected, at);
      if error.Some? {
        return;
      }
      var ok := Spend();
      if !ok {
        return Some(StorageFailure);
      }
      events := rows;
      position := Some(Upsert(position, tally.Excluded()));
      ReplayAppend(EMPTY, journal, Entries(recs, rejected, at));
      journal := journal + Entries(recs, rejected, at);
      return None;
    }

    /** One record and its place in the stream, in one transaction. */
    method AppendCanonicalAt(r: BatchRecord, at: int) returns (error: Option<Error>)
      requires Valid()
      modifies this
      ensures Valid()
      ensures var a := AppendBatch(hash, old(Now()), old(fault), [r], [], at);
        Became(a) && error == a.error && journal == old(journal) + a.log
      ensures error == None ==> RowsDescribe(old(events), events, [r], at)
    {
      hide RowsDescribe, Sound;
      if AppendBatch(hash, Now(), fault, [r], [], at).error == None {
        CommitDescribesRows(hash, Now(), fault, [r], [], at);
      }
      CommitIsAllOrNothing(hash, Now(), fault, [r], [], at);
      BatchOfOne(hash, Now(), fault, r, at);
      if r.sequence == 0 {
        return Some(NoSequence);
      }
      if hash(r.payload) != r.eventHash {
        return Some(HashMismatch);
      }
      if Oversized(r) {
        error := WriteBlob(r.eventHash, r.payload);
        if error.Some? {
          return;
        }
      }
      var ok := Spend();
      if !ok {
        return Some(StorageFailure);
      }
      var isNew := if r.eventHash in events then 0 else 1;
      ghost var e := Accept(r, at);
      assert Entries([r], [], at) == [e];
      assert Replay(Ledger(events, position), [e]) == Apply(Ledger(events, position), e);
      if isNew == 1 {
        events := events[r.eventHash := RowOf(r, at)];
      }
      position := Some(Upsert(position, Position(r.sequence, r.sequence, isNew, 0, 1 - isNew)));
      ReplaySnoc(EMPTY, journal, e);
      journal := journal + [e];
      return None;
    }

    /** One refused sequence, outside any batch. */
    method RecordRejected(q: nat) returns (error: Option<Error>)
      requires Valid()
      modifies this
      ensures Valid()
      ensures var a := AppendBatch(hash, old(Now()), old(fault), [], [q], 0);
        Became(a) && error == a.error && journal == old(journal) + a.log
    {
      CommitIsAllOrNothing(hash, Now(), fault, [], [q], 0);
      assert Entries([], [q], 0) == [Refuse(q)];
      if q == 0 {
        return Some(NoSequence);
      }
      var ok := Spend();
      if !ok {
        return Some(StorageFailure);
      }
      assert Replay(Ledger(events, position), [Refuse(q)]) == Apply(Ledger(events, position), Refuse(q));
      position := Some(Upsert(position, Position(q, q, 0, 1, 0)));
      ReplaySnoc(EMPTY, journal, Refuse(q));
      journal := journal + [Refuse(q)];
      return None;
    }

    /** The row's own bytes first, the file otherwise; verified either way. Never fails on a stored record. */
    method ReadBlob(h: Digest) returns (r: Result<Bytes, Error>)
      requires Valid()
      ensures r == Durability.ReadBlob(hash, Now(), h)
      ensures h in events ==> r.Success? && hash(r.value) == h
    {
      if h in events {
        RowsAreReadable(hash, Now(), h);
        match events[h].payload {
          case Some(inline) =>
            return if hash(inline) == h then Success(inline) else Failure(HashMismatch);
          case None =>
        }
      }
      if h !in blobs {
        return Failure(NotFound);
      }
      return if hash(blobs[h].content) == h then Success(blobs[h].content) else Failure(HashMismatch);
    }

    /** The position and the row count of one instant: as many rows as commits, and a lawful loss figure. */
    method PositionAndCount() returns (p: Option<Position>, rows: int)
      requires Valid()
      ensures p == position
      ensures p.Some? ==> rows == |events| == p.value.committed
      ensures p.Some? ==> p.value.committed + p.value.duplicates == |Accepted(journal)|
    {
      BooksSummarise(journal);
      if position.None? {
        return None, 0;
      }
      return position, |events|;
    }
  }
}
