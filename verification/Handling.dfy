/**
 What the archive's consumer does with one fetch: keep what it can, refuse what it must, and
 when one record's bytes do not match their hash, drive the batch one record at a time.
 */
module Handling {
  import opened Wrappers
  import opened Canonical
  import opened Ledger
  import opened Durability

  /** A record as it came off the wire: its claimed identity is still text. */
  datatype Record = Record(eventHash: string, payload: Bytes, eventTime: int, messageType: string)

  /** The broker's view of a delivery; sequence zero means its metadata could not be read. */
  datatype Delivery = Delivery(sequence: nat, redelivered: bool)

  datatype Item = Item(record: Record, delivery: Delivery)

  predicate Placed(it: Item) {
    it.delivery.sequence > 0
  }

  /** The record as a row to be, when its identity is a hash at all. */
  function Parse(it: Item): Option<BatchRecord> {
    match ParseDigest(it.record.eventHash)
    case None => None
    case Some(h) =>
      Some(BatchRecord(it.record.payload, h, it.record.eventTime, it.record.messageType, it.delivery.sequence))
  }

  function Recs(batch: seq<Item>): (recs: seq<BatchRecord>)
    ensures forall r :: r in recs ==> r.sequence > 0
  {
    if batch == [] then []
    else if Placed(batch[0]) && Parse(batch[0]).Some? then [Parse(batch[0]).value] + Recs(batch[1..])
    else Recs(batch[1..])
  }

  function Malformed(batch: seq<Item>): (qs: seq<nat>)
    ensures 0 !in qs
  {
    if batch == [] then []
    else if Placed(batch[0]) && Parse(batch[0]).None? then [batch[0].delivery.sequence] + Malformed(batch[1..])
    else Malformed(batch[1..])
  }

  function Unplaced(batch: seq<Item>): nat {
    if batch == [] then 0 else (if Placed(batch[0]) then 0 else 1) + Unplaced(batch[1..])
  }

  function Good(H: HashFn, recs: seq<BatchRecord>): seq<BatchRecord> {
    if recs == [] then [] else (if Matches(H, recs[0]) then [recs[0]] else []) + Good(H, recs[1..])
  }

  function Poisoned(H: HashFn, recs: seq<BatchRecord>): seq<nat> {
    if recs == [] then [] else (if Matches(H, recs[0]) then [] else [recs[0].sequence]) + Poisoned(H, recs[1..])
  }

  /** The slow path's loop: a batch of one for each record, past the mismatches. */
  function Drive(H: HashFn, d: Disk, f: Fault, recs: seq<BatchRecord>, at: int): Attempt
    decreases |recs|
  {
    if recs == [] then Attempt(d, f, None, [])
    else
      var a := AppendBatch(H, d, f, [recs[0]], [], at);
      if a.error.Some? && a.error.value != HashMismatch then a
      else
        var b := Drive(H, a.disk, a.fault, recs[1..], at);
        b.(log := a.log + b.log)
  }

  function Isolate(H: HashFn, d: Disk, f: Fault, recs: seq<BatchRecord>, at: int): Attempt {
    var a := Drive(H, d, f, recs, at);
    if a.error.Some? then a
    else
      var b := AppendBatch(H, a.disk, a.fault, [], Poisoned(H, recs), at);
      b.(log := a.log + b.log)
  }

  function Handle(H: HashFn, d: Disk, f: Fault, batch: seq<Item>, at: int): Attempt {
    var a := AppendBatch(H, d, f, Recs(batch), Malformed(batch), at);
    if a.error == Some(HashMismatch) then Isolate(H, d, f, Recs(batch), at) else a
  }

  /** An undecodable message: refused if its place in the stream is known. */
  function DropOne(H: HashFn, d: Disk, f: Fault, delivery: Delivery): Attempt {
    if delivery.sequence == 0 then Attempt(d, f, None, [])
    else AppendBatch(H, d, f, [], [delivery.sequence], 0)
  }

  // ---- What a batch comes to ----

  function Kept(H: HashFn, batch: seq<Item>): seq<BatchRecord> {
    Good(H, Recs(batch))
  }

  /** The sequences refused durably: the slow path is never told of the malformed ones. */
  function Refusals(H: HashFn, batch: seq<Item>): seq<nat> {
    if Poisoned(H, Recs(batch)) == [] then Malformed(batch) else Poisoned(H, Recs(batch))
  }

  /** The entries a batch comes to. */
  function Effect(H: HashFn, batch: seq<Item>, at: int): seq<Entry> {
    Entries(Kept(H, batch), Refusals(H, batch), at)
  }

  lemma {:induction false} GoodAndPoisoned(H: HashFn, recs: seq<BatchRecord>)
    ensures |recs| == |Good(H, recs)| + |Poisoned(H, recs)|
    ensures Poisoned(H, recs) == [] <==> forall r :: r in recs ==> Matches(H, r)
    ensures Poisoned(H, recs) == [] ==> Good(H, recs) == recs
    ensures forall r :: r in Good(H, recs) <==> r in recs && Matches(H, r)
  {
    hide Matches;
    if recs != [] {
      var r, rest := recs[0], recs[1..];
      GoodAndPoisoned(H, rest);
      assert recs == [r] + rest && forall x :: x in recs <==> x == r || x in rest;
      assert Good(H, recs) == (if Matches(H, r) then [r] else []) + Good(H, rest);
      assert Poisoned(H, recs) == (if Matches(H, r) then [] else [r.sequence]) + Poisoned(H, rest);
    }
  }

  /** How far one commit gets: nothing of the books or all of it, and a prefix of the blobs. */
  lemma CommitProgress(H: HashFn, d: Disk, f: Fault, recs: seq<BatchRecord>, rejected: seq<nat>, at: int)
    returns (j: nat)
    requires forall r :: r in recs ==> Matches(H, r) && r.sequence > 0
    requires 0 !in rejected
    ensures j <= |recs|
    ensures var a := AppendBatch(H, d, f, recs, rejected, at);
      && PutBlobs(d.blobs, recs[..j]) == Some(a.disk.blobs)
      && a.disk.ledger == Replay(d.ledger, a.log)
      && a.log == (if a.error == None then Entries(recs, rejected, at) else [])
      && (a.error == None ==> j == |recs|)
      && a.error != Some(HashMismatch)
  {
    VerifiedRecords(H, recs);
    j := WriteBlobsPuts(d, f, recs);
    if recs == [] {
      assert Entries([], [], at) == [];
    }
  }

  lemma {:induction false} PutBlobsAppend(blobs: map<Digest, File>, a: seq<BatchRecord>, b: seq<BatchRecord>)
    ensures match PutBlobs(blobs, a)
      case None => PutBlobs(blobs, a + b) == None
      case Some(m) => PutBlobs(blobs, a + b) == PutBlobs(m, b)
    decreases |a|
  {
    if a == [] {
      assert a + b == b;
    } else {
      assert (a + b)[1..] == a[1..] + b;
      var r := a[0];
      var next := if Oversized(r) && r.eventHash !in blobs then blobs[r.eventHash := File(r.payload, true)] else blobs;
      PutBlobsAppend(next, a[1..], b);
    }
  }

  /** An attempt that accepted the first `k` of `good`, having written the blobs of the first `j`. */
  ghost predicate Reached(d: Disk, a: Attempt, good: seq<BatchRecord>, at: int, k: nat, j: nat) {
    && k <= |good| && j <= |good|
    && PutBlobs(d.blobs, good[..j]) == Some(a.disk.blobs)
    && a.disk.ledger == Replay(d.ledger, a.log)
    && a.log == Accepts(good[..k], at)
    && (a.error == None ==> k == j == |good|)
    && a.error != Some(HashMismatch)
  }

  lemma FirstFails(H: HashFn, d: Disk, f: Fault, r: BatchRecord, rest: seq<BatchRecord>, at: int) returns (j: nat)
    requires Matches(H, r) && r.sequence > 0
    requires AppendBatch(H, d, f, [r], [], at).error.Some?
    ensures Reached(d, AppendBatch(H, d, f, [r], [], at), [r] + rest, at, 0, j)
  {
    j := CommitProgress(H, d, f, [r], [], at);
    assert ([r] + rest)[..j] == [r][..j];
  }

  lemma FirstKept(
    H: HashFn, d: Disk, f: Fault, r: BatchRecord, b: Attempt, rest: seq<BatchRecord>, at: int, k: nat, j: nat)
    requires Matches(H, r) && r.sequence > 0
    requires AppendBatch(H, d, f, [r], [], at).error == None
    requires Reached(AppendBatch(H, d, f, [r], [], at).disk, b, rest, at, k, j)
    ensures Reached(d, b.(log := AppendBatch(H, d, f, [r], [], at).log + b.log), [r] + rest, at, k + 1, j + 1)
  {
    var a, good := AppendBatch(H, d, f, [r], [], at), [r] + rest;
    var i := CommitProgress(H, d, f, [r], [], at);
    assert [r][..i] == [r];
    PutBlobsAppend(d.blobs, [r], rest[..j]);
    assert good[..j + 1] == [r] + rest[..j];
    assert good[..k + 1] == [r] + rest[..k];
    ReplayAppend(d.ledger, a.log, b.log);
  }

  lemma NothingToDrive(d: Disk, f: Fault, at: int)
    ensures Reached(d, Attempt(d, f, None, []), [], at, 0, 0)
  {
    assert Replay(d.ledger, []) == d.ledger;
  }

  /** How far the slow path gets: a prefix of the good records, in order. */
  lemma {:induction false} DriveProgress(H: HashFn, d: Disk, f: Fault, recs: seq<BatchRecord>, at: int)
    returns (k: nat, j: nat)
    requires forall r :: r in recs ==> r.sequence > 0
    ensures Reached(d, Drive(H, d, f, recs, at), Good(H, recs), at, k, j)
    decreases |recs|
  {
    hide AppendBatch, PutBlobs, Replay, Reached, Accepts;
    k, j := 0, 0;
    if recs == [] {
      NothingToDrive(d, f, at);
    } else {
      var r, rest := recs[0], Good(H, recs[1..]);
      var a := AppendBatch(H, d, f, [r], [], at);
      BatchOfOne(H, d, f, r, at);
      if !Matches(H, r) {
        k, j := DriveProgress(H, d, f, recs[1..], at);
        assert a == Attempt(d, f, Some(HashMismatch), []);
        assert a.log + Drive(H, d, f, recs[1..], at).log == Drive(H, d, f, recs[1..], at).log;
        assert Drive(H, d, f, recs, at) == Drive(H, d, f, recs[1..], at);
        assert Good(H, recs) == rest;
      } else if a.error.Some? {
        j := FirstFails(H, d, f, r, rest, at);
        assert Drive(H, d, f, recs, at) == a;
      } else {
        k, j := DriveProgress(H, a.disk, a.fault, recs[1..], at);
        FirstKept(H, d, f, r, Drive(H, a.disk, a.fault, recs[1..], at), rest, at, k, j);
        k, j := k + 1, j + 1;
      }
    }
  }

  lemma {:induction false} FirstProblemIsMismatch(H: HashFn, recs: seq<BatchRecord>)
    requires forall r :: r in recs ==> r.sequence > 0
    ensures Verify(H, recs) == if Poisoned(H, recs) == [] then None else Some(HashMismatch)
    ensures 0 !in Poisoned(H, recs)
  {
    if recs != [] {
      FirstProblemIsMismatch(H, recs[1..]);
    }
  }

  /** The attempt ended with all the entries, or with an error and only the first `k` acceptances. */
  ghost predicate Prefix(
    d: Disk, a: Attempt, kept: seq<BatchRecord>, refused: seq<nat>, at: int, k: nat, j: nat)
  {
    && k <= |kept| && j <= |kept|
    && a.disk.ledger == Replay(d.ledger, a.log)
    && PutBlobs(d.blobs, kept[..j]) == Some(a.disk.blobs)
    && a.log == (if a.error == None then Entries(kept, refused, at) else Accepts(kept[..k], at))
    && (a.error == None ==> k == j == |kept|)
  }

  lemma FastPath(H: HashFn, d: Disk, f: Fault, recs: seq<BatchRecord>, malformed: seq<nat>, at: int)
    returns (k: nat, j: nat)
    requires forall r :: r in recs ==> Matches(H, r) && r.sequence > 0
    requires 0 !in malformed
    ensures Prefix(d, AppendBatch(H, d, f, recs, malformed, at), recs, malformed, at, k, j)
    ensures AppendBatch(H, d, f, recs, malformed, at).error != Some(HashMismatch)
  {
    j := CommitProgress(H, d, f, recs, malformed, at);
    k := if AppendBatch(H, d, f, recs, malformed, at).error == None then |recs| else 0;
    assert Accepts(recs[..0], at) == [];
  }

  /** The mismatch that sends a batch down the slow path is found before anything is touched. */
  lemma MismatchTouchesNothing(H: HashFn, d: Disk, f: Fault, recs: seq<BatchRecord>, rejected: seq<nat>, at: int)
    requires forall r :: r in recs ==> r.sequence > 0
    requires 0 !in rejected
    ensures var a := AppendBatch(H, d, f, recs, rejected, at);
      && (a.error == Some(HashMismatch) <==> Poisoned(H, recs) != [])
      && (a.error == Some(HashMismatch) ==> a == Attempt(d, f, Some(HashMismatch), []))
  {
    GoodAndPoisoned(H, recs);
    FirstProblemIsMismatch(H, recs);
    if Poisoned(H, recs) == [] {
      var k, j := FastPath(H, d, f, recs, rejected, at);
    }
  }

  lemma SlowPath(H: HashFn, d: Disk, f: Fault, recs: seq<BatchRecord>, at: int) returns (k: nat, j: nat)
    requires forall r :: r in recs ==> r.sequence > 0
    ensures Prefix(d, Isolate(H, d, f, recs, at), Good(H, recs), Poisoned(H, recs), at, k, j)
  {
    k, j := DriveProgress(H, d, f, recs, at);
    var a := Drive(H, d, f, recs, at);
    if a.error == None {
      FirstProblemIsMismatch(H, recs);
      var i := CommitProgress(H, a.disk, a.fault, [], Poisoned(H, recs), at);
      assert Good(H, recs)[..k] == Good(H, recs);
      assert Entries([], Poisoned(H, recs), at) == Refuses(Poisoned(H, recs));
      var b := AppendBatch(H, a.disk, a.fault, [], Poisoned(H, recs), at);
      ReplayAppend(d.ledger, a.log, b.log);
      assert b.error.Some? ==> a.log + b.log == a.log;
      assert i == 0;
    }
  }

  /**
   Every attempt on a batch, wherever it stops, commits a prefix of the same entries. Nil means
   all of them; an error means some of the acceptances and none of the refusals.
   */
  lemma HandleProgress(H: HashFn, d: Disk, f: Fault, batch: seq<Item>, at: int) returns (k: nat, j: nat)
    ensures Prefix(d, Handle(H, d, f, batch, at), Kept(H, batch), Refusals(H, batch), at, k, j)
  {
    var recs := Recs(batch);
    GoodAndPoisoned(H, recs);
    FirstProblemIsMismatch(H, recs);
    if Poisoned(H, recs) == [] {
      k, j := FastPath(H, d, f, recs, Malformed(batch), at);
    } else {
      k, j := SlowPath(H, d, f, recs, at);
    }
  }

  /** A fetch whose records all match is one transaction: all of its entries or, on any error, none. */
  lemma CleanBatchIsAtomic(H: HashFn, d: Disk, f: Fault, batch: seq<Item>, at: int)
    requires forall r :: r in Recs(batch) ==> H(r.payload) == r.eventHash
    ensures var a := Handle(H, d, f, batch, at);
      && a.log == (if a.error == None then Entries(Recs(batch), Malformed(batch), at) else [])
      && a.disk.ledger == Replay(d.ledger, a.log)
      && a.error != Some(HashMismatch)
  {
    var recs := Recs(batch);
    GoodAndPoisoned(H, recs);
    MismatchTouchesNothing(H, d, f, recs, Malformed(batch), at);
    var j := CommitProgress(H, d, f, recs, Malformed(batch), at);
    hide AppendBatch, Replay, Isolate;
  }

  /** One mismatch sends every record by itself: the first `k` that match are kept, each in its own transaction. */
  lemma PoisonedBatchGoesOneByOne(H: HashFn, d: Disk, f: Fault, batch: seq<Item>, at: int)
    requires exists r :: r in Recs(batch) && H(r.payload) != r.eventHash
    ensures Handle(H, d, f, batch, at) == Isolate(H, d, f, Recs(batch), at)
  {
    GoodAndPoisoned(H, Recs(batch));
    MismatchTouchesNothing(H, d, f, Recs(batch), Malformed(batch), at);
    hide AppendBatch, Isolate;
  }

  // ---- What nil promises ----

  predicate Mixed(H: HashFn, batch: seq<Item>) {
    Malformed(batch) != [] && Poisoned(H, Recs(batch)) != []
  }

  lemma {:induction false} EveryItemIsSorted(batch: seq<Item>)
    ensures |batch| == |Recs(batch)| + |Malformed(batch)| + Unplaced(batch)
    ensures forall it :: it in batch && Placed(it) ==>
      match Parse(it) case Some(r) => r in Recs(batch) case None => it.delivery.sequence in Malformed(batch)
  {
    if batch != [] {
      EveryItemIsSorted(batch[1..]);
      assert forall x :: x in batch <==> x == batch[0] || x in batch[1..];
    }
  }

  lemma {:induction false} MismatchesArePoisoned(H: HashFn, recs: seq<BatchRecord>)
    ensures forall r :: r in recs && !Matches(H, r) ==> r.sequence in Poisoned(H, recs)
  {
    if recs != [] {
      MismatchesArePoisoned(H, recs[1..]);
    }
  }

  /** The item's hash is in a row, or its sequence is among the refusals. */
  ghost predicate Explained(H: HashFn, l: Ledger, refused: seq<nat>, it: Item) {
    match Parse(it)
    case Some(r) => if Matches(H, r) then r.eventHash in l.events else it.delivery.sequence in refused
    case None => it.delivery.sequence in refused
  }

  /**
   A nil explains every placed item of a batch that does not mix a malformed identity with a
   mismatching payload; of a mixed one it leaves out the malformed items, and exactly those.
   */
  lemma NilExplainsTheBatch(H: HashFn, d: Disk, f: Fault, batch: seq<Item>, at: int)
    requires Handle(H, d, f, batch, at).error == None
    ensures var l, l' := d.ledger, Handle(H, d, f, batch, at).disk.ledger;
      && l' == Replay(l, Effect(H, batch, at))
      && (forall it :: it in batch && Placed(it) && (Mixed(H, batch) ==> Parse(it).Some?) ==>
            Explained(H, l', Refusals(H, batch), it))
      && Deliveries(l') == Deliveries(l) + |Kept(H, batch)|
      && Rejections(l') == Rejections(l) + |Refusals(H, batch)|
      && |batch| - Unplaced(batch) - |Effect(H, batch, at)| == (if Mixed(H, batch) then |Malformed(batch)| else 0)
  {
    var k, j := HandleProgress(H, d, f, batch, at);
    var recs := Recs(batch);
    GoodAndPoisoned(H, recs);
    EveryItemIsSorted(batch);
    MismatchesArePoisoned(H, recs);
    CountsAdd(d.ledger, Kept(H, batch), Refusals(H, batch), at);
    RowsStay(d.ledger, Effect(H, batch, at));
    forall r | r in recs && Matches(H, r) ensures r.eventHash in Replay(d.ledger, Effect(H, batch, at)).events {
      var i :| 0 <= i < |Kept(H, batch)| && Kept(H, batch)[i] == r;
      assert Effect(H, batch, at)[i] == Accept(r, at);
    }
  }

  /** So every placed item is accounted for if and only if the batch is not mixed. */
  lemma NilAccountsForAllUnlessMixed(H: HashFn, d: Disk, f: Fault, batch: seq<Item>, at: int)
    requires Handle(H, d, f, batch, at).error == None
    ensures var l, l' := d.ledger, Handle(H, d, f, batch, at).disk.ledger;
      Deliveries(l') + Rejections(l') - Deliveries(l) - Rejections(l) == |batch| - Unplaced(batch)
      <==> !Mixed(H, batch)
  {
    NilExplainsTheBatch(H, d, f, batch, at);
  }

  lemma {:induction false} RecsComeFromItems(batch: seq<Item>)
    ensures forall r :: r in Recs(batch) ==> exists it :: it in batch && Placed(it) && Parse(it) == Some(r)
    ensures forall q :: q in Malformed(batch) ==>
      exists it :: it in batch && Placed(it) && Parse(it).None? && it.delivery.sequence == q
  {
    if batch != [] {
      RecsComeFromItems(batch[1..]);
      assert forall x :: x in batch <==> x == batch[0] || x in batch[1..];
    }
  }

  /** The row is the delivered item's own record, column by column. */
  ghost predicate RowOfItem(H: HashFn, row: Row, it: Item, h: Digest, at: int) {
    && Placed(it) && DecodeHex(it.record.eventHash) == Some(h) && H(it.record.payload) == h
    && Describes(
         row, BatchRecord(it.record.payload, h, it.record.eventTime, it.record.messageType, it.delivery.sequence), at)
  }

  /** The old rows stand, and each new one is the record of an item that was delivered. */
  ghost predicate ItemsAreStored(
    H: HashFn, rows: map<Digest, Row>, rows': map<Digest, Row>, batch: seq<Item>, at: int)
  {
    && (forall h :: h in rows ==> h in rows' && rows'[h] == rows[h])
    && (forall h :: h in rows' && h !in rows ==> exists it :: it in batch && RowOfItem(H, rows'[h], it, h, at))
  }

  lemma ParseKeepsTheRecord(it: Item, r: BatchRecord)
    requires Parse(it) == Some(r)
    ensures DecodeHex(it.record.eventHash) == Some(r.eventHash) && r.payload == it.record.payload
    ensures r.eventTime == it.record.eventTime && r.messageType == it.record.messageType
    ensures r.sequence == it.delivery.sequence
  {}

  /** What a nil stores is what was delivered. */
  lemma NilStoresTheItems(H: HashFn, d: Disk, f: Fault, batch: seq<Item>, at: int)
    requires Handle(H, d, f, batch, at).error == None
    ensures ItemsAreStored(H, d.ledger.events, Handle(H, d, f, batch, at).disk.ledger.events, batch, at)
  {
    var rows, rows' := d.ledger.events, Handle(H, d, f, batch, at).disk.ledger.events;
    var k, j := HandleProgress(H, d, f, batch, at);
    EntriesDescribe(d.ledger, Kept(H, batch), Refusals(H, batch), at);
    RecsComeFromItems(batch);
    GoodAndPoisoned(H, Recs(batch));
    hide Handle, DecodeHex, EncodeHex, Parse, Recs, Malformed, Good, Poisoned, Replay;
    forall h | h in rows' && h !in rows
      ensures exists it :: it in batch && RowOfItem(H, rows'[h], it, h, at)
    {
      assert NewRow(rows'[h], Kept(H, batch), at, h);
      var i: nat :| DescribesFirst(rows'[h], Kept(H, batch), at, h, i);
      var r := Kept(H, batch)[i];
      assert r in Good(H, Recs(batch));
      var it :| it in batch && Placed(it) && Parse(it) == Some(r);
      ParseKeepsTheRecord(it, r);
    }
  }

  // ---- When nil is returned ----

  /** The slow path's loop, with storage that lasts: it gets through unless two contents claim one hash. */
  lemma {:induction false} DriveWithEnough(H: HashFn, d: Disk, f: Fault, recs: seq<BatchRecord>, at: int)
    requires forall r :: r in recs ==> r.sequence > 0
    requires f.fuel >= (BLOB_STEPS + 1) * |recs|
    ensures var a, put := Drive(H, d, f, recs, at), PutBlobs(d.blobs, Good(H, recs));
      && (a.error == None <==> put.Some?)
      && (a.error == None ==> a.disk.blobs == put.value && a.fault.fuel >= f.fuel - (BLOB_STEPS + 1) * |recs|)
    decreases |recs|
  {
    if recs != [] {
      var r, rest := recs[0], recs[1..];
      var a := AppendBatch(H, d, f, [r], [], at);
      BatchWithEnough(H, d, f, [r], [], at);
      BatchOfOne(H, d, f, r, at);
      hide AppendBatch, PutBlobs, Replay;
      if !Matches(H, r) {
        DriveWithEnough(H, d, f, rest, at);
        assert Good(H, recs) == Good(H, rest);
      } else {
        assert Verify(H, [r]) == None by {
          VerifiedRecords(H, [r]);
        }
        PutBlobsAppend(d.blobs, [r], Good(H, rest));
        if a.error == None {
          DriveWithEnough(H, a.disk, a.fault, rest, at);
        }
      }
    }
  }

  /**
   The exact condition of a nil: with storage that lasts, a batch is handled unless two of the
   oversized contents it keeps, or one of them and a blob already there, differ under one hash.
   Contents that fit in a row never stand in the way.
   */
  lemma NilExactlyWhen(H: HashFn, d: Disk, f: Fault, batch: seq<Item>, at: int)
    requires f.fuel >= (BLOB_STEPS + 1) * |Recs(batch)| + 1
    ensures Handle(H, d, f, batch, at).error == None <==> Agree(d.blobs, Kept(H, batch))
  {
    var recs := Recs(batch);
    PutsExactlyWhenTheyAgree(d.blobs, Kept(H, batch));
    hide Agree;
    GoodAndPoisoned(H, recs);
    FirstProblemIsMismatch(H, recs);
    MismatchTouchesNothing(H, d, f, recs, Malformed(batch), at);
    if Poisoned(H, recs) == [] {
      BatchWithEnough(H, d, f, recs, Malformed(batch), at);
    } else {
      DriveWithEnough(H, d, f, recs, at);
      var a := Drive(H, d, f, recs, at);
      if a.error == None {
        BatchWithEnough(H, a.disk, a.fault, [], Poisoned(H, recs), at);
        assert PutBlobs(a.disk.blobs, []).Some?;
      }
    }
  }

  /** So over a sound disk nothing but failing storage, or two contents with one hash, denies a batch its nil. */
  lemma RefusedNilIsACollision(H: HashFn, d: Disk, f: Fault, batch: seq<Item>, at: int) returns (p: Bytes, q: Bytes)
    requires Sound(H, d) && f.fuel >= (BLOB_STEPS + 1) * |Recs(batch)| + 1
    requires Handle(H, d, f, batch, at).error.Some?
    ensures p != q && H(p) == H(q) && |p| > INLINE_THRESHOLD
  {
    var kept := Kept(H, batch);
    NilExactlyWhen(H, d, f, batch, at);
    GoodAndPoisoned(H, Recs(batch));
    hide Handle;
    if r :| r in kept && ClashesWithBlob(d.blobs, r) {
      return r.payload, d.blobs[r.eventHash].content;
    }
    var r, s :| r in kept && s in kept && Clash(r, s);
    return r.payload, s.payload;
  }

  // ---- A mixed batch, handled to nil ----

  /** Of a malformed item and a mismatching one, whatever they are, nil records the second alone. */
  lemma MixedPair(H: HashFn, d: Disk, bad: Item, wrong: Item, at: int)
    requires Placed(bad) && Parse(bad).None?
    requires Placed(wrong) && Parse(wrong).Some? && !Matches(H, Parse(wrong).value)
    ensures var batch, q := [bad, wrong], wrong.delivery.sequence;
      && Mixed(H, batch)
      && Handle(H, d, Fault(1, false), batch, at)
         == Attempt(d.(ledger := Apply(d.ledger, Refuse(q))), Fault(0, false), None, [Refuse(q)])
  {
    var batch, r, q := [bad, wrong], Parse(wrong).value, wrong.delivery.sequence;
    assert batch[1..] == [wrong] && [wrong][1..] == [];
    assert Recs([]) == [] && Malformed([]) == [];
    assert Recs([wrong]) == [r] && Malformed([wrong]) == [];
    assert Recs(batch) == [r] && Malformed(batch) == [bad.delivery.sequence];
    assert [r][1..] == [] && Poisoned(H, [r]) == [q] && Good(H, [r]) == [];
    assert Drive(H, d, Fault(1, false), [], at) == Attempt(d, Fault(1, false), None, []);
    assert AppendBatch(H, d, Fault(1, false), [r], [], at).error == Some(HashMismatch);
    assert Entries([], [q], at) == [Refuse(q)];
    ReplaySnoc(d.ledger, [], Refuse(q));
    assert [] + [Refuse(q)] == [Refuse(q)];
  }

  lemma OtherDigest(h: Digest) returns (other: Digest)
    ensures other != h
  {
    var zeros: Digest, ones: Digest := seq(32, _ => 0), seq(32, _ => 1);
    assert zeros[0] != ones[0];
    other := if h == zeros then ones else zeros;
  }

  /** There is such a pair under every hash: text that is no hash, and no bytes under a hash not theirs. */
  lemma MixedIsAckedShort(H: HashFn) returns (bad: Item, wrong: Item)
    ensures Unplaced([bad, wrong]) == 0 && Mixed(H, [bad, wrong])
    ensures var a := Handle(H, Disk(EMPTY, map[], []), Fault(1, false), [bad, wrong], 0);
      a.error == None && a.log == [Refuse(2)]
  {
    var other := OtherDigest(H([]));
    HexRoundTrip(other);
    bad := Item(Record("z", [], 0, ""), Delivery(1, false));
    wrong := Item(Record(EncodeHex(other), [], 0, ""), Delivery(2, false));
    assert DecodeHex("z") == None;
    assert [bad, wrong][1..] == [wrong] && [wrong][1..] == [] && Unplaced([wrong]) == 0;
    hide DecodeHex, EncodeHex, Handle, Mixed;
    MixedPair(H, Disk(EMPTY, map[], []), bad, wrong, 0);
  }

  // ---- Crash safety of a whole attempt ----

  lemma {:induction false} DriveKeepsSound(H: HashFn, d: Disk, f: Fault, recs: seq<BatchRecord>, at: int)
    requires Sound(H, d)
    ensures Sound(H, Drive(H, d, f, recs, at).disk)
    decreases |recs|
  {
    if recs != [] {
      var a := AppendBatch(H, d, f, [recs[0]], [], at);
      CommitIsAllOrNothing(H, d, f, [recs[0]], [], at);
      hide AppendBatch, Sound;
      DriveKeepsSound(H, a.disk, a.fault, recs[1..], at);
    }
  }

  lemma HandleKeepsSound(H: HashFn, d: Disk, f: Fault, batch: seq<Item>, at: int)
    requires Sound(H, d)
    ensures Sound(H, Handle(H, d, f, batch, at).disk)
  {
    var recs := Recs(batch);
    CommitIsAllOrNothing(H, d, f, recs, Malformed(batch), at);
    DriveKeepsSound(H, d, f, recs, at);
    var a := Drive(H, d, f, recs, at);
    CommitIsAllOrNothing(H, a.disk, a.fault, [], Poisoned(H, recs), at);
    hide AppendBatch, Sound, Drive;
  }
}
