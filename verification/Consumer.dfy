/**
 The archive's consumer, and the loop that feeds it. Both are proved against `Handling`: what
 a call does to the disk, what it returns, and what the process's own counters then say.
 */
module Consumer {
  import opened Wrappers
  import opened Canonical
  import opened Ledger
  import opened Durability
  import opened Handling
  import opened Substrate

  datatype Reason = MalformedHash | HashDoesNotMatch

  /** A refusal waiting to be announced once it is durable. */
  datatype Note = Note(sequence: nat, reason: Reason)

  /** The notes of these refusals, all for one reason. */
  function Notes(refused: seq<nat>, reason: Reason): (notes: seq<Note>)
    ensures |notes| == |refused|
  {
    seq(|refused|, i requires 0 <= i < |refused| => Note(refused[i], reason))
  }

  class Consumer {
    const store: Substrate
    var committed: nat
    var rejected: nat

    constructor (store: Substrate)
      ensures this.store == store && committed == rejected == 0
    {
      this.store := store;
      committed, rejected := 0, 0;
    }

    /** The state a call leaves the store in, and the journal it adds to. */
    twostate predicate Stored(a: Attempt)
      reads store
    {
      store.Became(a) && store.journal == old(store.journal) + a.log
    }

    /** Sorts a fetch into what will be kept and what will be refused; nothing durable is written here. */
    method Partition(batch: seq<Item>) returns (recs: seq<BatchRecord>, refused: seq<nat>, notes: seq<Note>)
      modifies this`rejected
      ensures recs == Recs(batch) && refused == Malformed(batch) && notes == Notes(refused, MalformedHash)
      ensures rejected == old(rejected) + Unplaced(batch)
    {
      recs, refused, notes := [], [], [];
      for i := 0 to |batch|
        invariant rejected + Unplaced(batch[i..]) == old(rejected) + Unplaced(batch)
        invariant recs + Recs(batch[i..]) == Recs(batch)
        invariant refused + Malformed(batch[i..]) == Malformed(batch)
        invariant notes == Notes(refused, MalformedHash)
      {
        assert batch[i..][1..] == batch[i + 1..];
        var it := batch[i];
        if it.delivery.sequence == 0 {
          rejected := rejected + 1;
          continue;
        }
        var parsed := Parse(it);
        if parsed.None? {
          refused := refused + [it.delivery.sequence];
          notes := notes + [Note(it.delivery.sequence, MalformedHash)];
          continue;
        }
        recs := recs + [parsed.value];
      }
      assert batch[|batch|..] == [];
    }

    /** Commits a whole fetch, or returns the error that naks it. */
    method HandleBatch(batch: seq<Item>, at: int) returns (error: Option<Error>)
      requires store.Valid()
      modifies this, store
      ensures var a := Handle(store.hash, old(store.Now()), old(store.fault), batch, at);
        Stored(a) && error == a.error && store.Valid()
      ensures committed == old(committed) + if error == None then |Kept(store.hash, batch)| else 0
      ensures rejected == old(rejected) + Unplaced(batch)
        + if error == None then |Malformed(batch)| + |Poisoned(store.hash, Recs(batch))| else 0
      ensures error == None ==> ItemsAreStored(store.hash, old(store.events), store.events, batch, at)
    {
      hide ItemsAreStored;
      if Handle(store.hash, store.Now(), store.fault, batch, at).error == None {
        NilStoresTheItems(store.hash, store.Now(), store.fault, batch, at);
      }
      var recs, refused, notes := Partition(batch);
      GoodAndPoisoned(store.hash, recs);
      MismatchTouchesNothing(store.hash, store.Now(), store.fault, recs, refused, at);
      hide AppendBatch, Handling.Isolate, Replay, Sound, Good, Poisoned;
      error := store.AppendCanonicalBatch(recs, refused, at);
      if error == Some(HashMismatch) {
        assert store.journal == old(store.journal) && store.fault == old(store.fault);
        assert store.Now() == old(store.Now());
        error := Isolate(recs, notes, at);
      } else if error == None {
        Report(recs, notes);
      }
    }

    /** One record at a time, so that the mismatching ones are found and the rest still land. */
    method DriveEach(recs: seq<BatchRecord>, notes: seq<Note>, at: int)
      returns (error: Option<Error>, landed: seq<BatchRecord>, poisoned: seq<nat>, all: seq<Note>)
      requires store.Valid()
      requires forall r :: r in recs ==> r.sequence > 0
      modifies store
      ensures var a := Drive(store.hash, old(store.Now()), old(store.fault), recs, at);
        Stored(a) && error == a.error && store.Valid()
      ensures error == None ==> landed == Good(store.hash, recs) && poisoned == Poisoned(store.hash, recs)
      ensures all == notes + Notes(poisoned, HashDoesNotMatch)
    {
      hide AppendBatch, Replay, Sound, Drive, Good, Poisoned;
      error, poisoned, landed, all := None, [], [], notes;
      ghost var H := store.hash;
      ghost var whole := Drive(H, store.Now(), store.fault, recs, at);
      ghost var log: seq<Entry> := [];
      assert recs[0..] == recs;
      for i := 0 to |recs|
        invariant store.Valid() && store.journal == old(store.journal) + log
        invariant Sorted(H, recs, recs[i..], landed, poisoned)
        invariant all == notes + Notes(poisoned, HashDoesNotMatch)
        invariant Continues(whole, Drive(H, store.Now(), store.fault, recs[i..], at), log)
        invariant error == None
      {
        var r := recs[i];
        assert recs[i..][1..] == recs[i + 1..] && recs[i..][0] == r;
        ghost var one := AppendBatch(H, store.Now(), store.fault, [r], [], at);
        OneMismatch(H, store.Now(), store.fault, r, at);
        NextDrive(H, store.Now(), store.fault, recs[i..], whole, log, at);
        NextSorted(H, recs, recs[i..], landed, poisoned);
        error := store.AppendCanonicalBatch([r], [], at);
        log := log + one.log;
        if error == None {
          landed := landed + [r];
        } else if error == Some(HashMismatch) {
          poisoned := poisoned + [r.sequence];
          all := all + [Note(r.sequence, HashDoesNotMatch)];
          error := None;
        } else {
          return;
        }
      }
      assert recs[|recs|..] == [];
      NothingLeft(H, store.Now(), store.fault, recs, landed, poisoned, whole, log, at);
    }

    static lemma OneMismatch(H: HashFn, d: Disk, f: Fault, r: BatchRecord, at: int)
      requires r.sequence > 0
      ensures AppendBatch(H, d, f, [r], [], at).error == Some(HashMismatch) <==> !Matches(H, r)
    {
      MismatchTouchesNothing(H, d, f, [r], [], at);
      assert Poisoned(H, [r][1..]) == [];
    }

    /** `whole` is `log` followed by what `rest` goes on to do. */
    static ghost predicate Continues(whole: Attempt, rest: Attempt, log: seq<Entry>) {
      whole == rest.(log := log + rest.log)
    }

    /** The records before `rest` have been sorted into the good and the poisoned. */
    static ghost predicate Sorted(
      H: HashFn, recs: seq<BatchRecord>, rest: seq<BatchRecord>, landed: seq<BatchRecord>, poisoned: seq<nat>)
    {
      landed + Good(H, rest) == Good(H, recs) && poisoned + Poisoned(H, rest) == Poisoned(H, recs)
    }

    static lemma NextDrive(
      H: HashFn, d: Disk, f: Fault, rest: seq<BatchRecord>, whole: Attempt, log: seq<Entry>, at: int)
      requires rest != [] && Continues(whole, Drive(H, d, f, rest, at), log)
      ensures var a := AppendBatch(H, d, f, [rest[0]], [], at);
        if a.error.Some? && a.error.value != HashMismatch then Continues(whole, a, log)
        else Continues(whole, Drive(H, a.disk, a.fault, rest[1..], at), log + a.log)
    {
      hide AppendBatch;
      var a := AppendBatch(H, d, f, [rest[0]], [], at);
      var b := Drive(H, a.disk, a.fault, rest[1..], at);
      assert log + (a.log + b.log) == log + a.log + b.log;
    }

    static lemma NextSorted(
      H: HashFn, recs: seq<BatchRecord>, rest: seq<BatchRecord>, landed: seq<BatchRecord>, poisoned: seq<nat>)
      requires rest != [] && Sorted(H, recs, rest, landed, poisoned)
      ensures if Matches(H, rest[0]) then Sorted(H, recs, rest[1..], landed + [rest[0]], poisoned)
              else Sorted(H, recs, rest[1..], landed, poisoned + [rest[0].sequence])
    {}

    static lemma NothingLeft(
      H: HashFn, d: Disk, f: Fault, recs: seq<BatchRecord>, landed: seq<BatchRecord>, poisoned: seq<nat>,
      whole: Attempt, log: seq<Entry>, at: int)
      requires Continues(whole, Drive(H, d, f, [], at), log) && Sorted(H, recs, [], landed, poisoned)
      ensures whole == Attempt(d, f, None, log)
      ensures landed == Good(H, recs) && poisoned == Poisoned(H, recs)
    {}

    /** The slow path: every record by itself, then the refusals together. */
    method Isolate(recs: seq<BatchRecord>, notes: seq<Note>, at: int) returns (error: Option<Error>)
      requires store.Valid()
      requires forall r :: r in recs ==> r.sequence > 0
      modifies this`committed, this`rejected, store
      ensures var a := Handling.Isolate(store.hash, old(store.Now()), old(store.fault), recs, at);
        Stored(a) && error == a.error && store.Valid()
      ensures committed == old(committed) + if error == None then |Good(store.hash, recs)| else 0
      ensures rejected == old(rejected) + if error == None then |notes| + |Poisoned(store.hash, recs)| else 0
    {
      hide AppendBatch, Drive, Good, Poisoned, Replay, Sound;
      var landed, poisoned, all;
      error, landed, poisoned, all := DriveEach(recs, notes, at);
      if error.Some? {
        return;
      }
      NothingToRefuse(store.hash, store.Now(), store.fault, at);
      if poisoned != [] {
        error := store.AppendCanonicalBatch([], poisoned, at);
        if error.Some? {
          return;
        }
      }
      Report(landed, all);
    }

    static lemma NothingToRefuse(H: HashFn, d: Disk, f: Fault, at: int)
      ensures AppendBatch(H, d, f, [], [], at) == Attempt(d, f, None, [])
    {}

    /** Counts and announces, once a batch is durable. */
    method Report(recs: seq<BatchRecord>, notes: seq<Note>)
      modifies this`committed, this`rejected
      ensures committed == old(committed) + |recs| && rejected == old(rejected) + |notes|
    {
      for i := 0 to |notes|
        invariant rejected == old(rejected) + i && committed == old(committed)
      {
        rejected := rejected + 1;
      }
      for i := 0 to |recs|
        invariant committed == old(committed) + i && rejected == old(rejected) + |notes|
      {
        committed := committed + 1;
      }
    }

    /** Accounts for a message that could not be decoded; a failure to do so is only logged. */
    method Undecodable(d: Delivery)
      requires store.Valid()
      modifies this, store
      ensures rejected == old(rejected) + 1 && committed == old(committed)
      ensures store.Valid() && Stored(DropOne(store.hash, old(store.Now()), old(store.fault), d))
    {
      if d.sequence == 0 {
        rejected := rejected + 1;
        return;
      }
      var _ := store.RecordRejected(d.sequence);
      rejected := rejected + 1;
    }
  }
}
