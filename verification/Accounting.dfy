/**
 What the five durable numbers mean. A journal is any sequence of entries, in any order,
 with any repetition; the laws below hold of every one of them.
 */
module Accounting {
  import opened Wrappers
  import opened Canonical
  import opened Ledger

  function Books(es: seq<Entry>): Ledger {
    Replay(EMPTY, es)
  }

  /** The accepted deliveries of a journal, each as its identity and its place in the stream. */
  function Accepted(es: seq<Entry>): multiset<(Digest, nat)> {
    if es == [] then multiset{}
    else
      var rest := Accepted(es[..|es| - 1]);
      match es[|es| - 1]
      case Accept(r, _) => rest + multiset{(r.eventHash, r.sequence)}
      case Refuse(_) => rest
  }

  /** The refusals of a journal, as often as each was recorded. */
  function Refused(es: seq<Entry>): multiset<nat> {
    if es == [] then multiset{}
    else
      var rest := Refused(es[..|es| - 1]);
      match es[|es| - 1]
      case Accept(_, _) => rest
      case Refuse(q) => rest + multiset{q}
  }

  /** The sequences whose delivery inserted a row, as opposed to finding one. */
  function Inserted(es: seq<Entry>): set<nat> {
    if es == [] then {}
    else
      var before := es[..|es| - 1];
      match es[|es| - 1]
      case Accept(r, _) =>
        if r.eventHash in Books(before).events then Inserted(before)
        else Inserted(before) + {r.sequence}
      case Refuse(_) => Inserted(before)
  }

  ghost predicate Numbers(es: seq<Entry>, q: nat) {
    exists e :: e in es && e.Sequence() == q
  }

  ghost predicate Carries(accepted: multiset<(Digest, nat)>, h: Digest) {
    exists q: nat :: (h, q) in accepted
  }

  /** The rows are exactly the identities accepted. */
  ghost predicate RowsSummarise(l: Ledger, es: seq<Entry>) {
    forall h: Digest :: h in l.events <==> Carries(Accepted(es), h)
  }

  ghost predicate CountsSummarise(l: Ledger, es: seq<Entry>) {
    && (l.position == None <==> es == [])
    && (es == [] ==> l.events == map[])
    && (l.position.Some? ==>
          var p := l.position.value;
          && p.committed == |l.events|
          && p.committed + p.duplicates == |Accepted(es)|
          && p.rejected == |Refused(es)|)
  }

  ghost predicate RangeSummarises(l: Ledger, es: seq<Entry>) {
    l.position.Some? ==>
      var p := l.position.value;
      && Numbers(es, p.firstSeq) && Numbers(es, p.highestSeq)
      && (forall e :: e in es ==> p.firstSeq <= e.Sequence() <= p.highestSeq)
  }

  /** The closed form of the books: no order, no batches, only the two multisets and a range. */
  ghost predicate Summarises(l: Ledger, es: seq<Entry>) {
    RowsSummarise(l, es) && CountsSummarise(l, es) && RangeSummarises(l, es)
  }

  lemma {:induction false} BooksSummarise(es: seq<Entry>)
    ensures Summarises(Books(es), es)
    decreases |es|
  {
    if es != [] {
      var before, e := es[..|es| - 1], es[|es| - 1];
      assert es == before + [e];
      BooksSummarise(before);
      ReplaySnoc(EMPTY, before, e);
      RowsStep(before, e);
      RangeStep(before, e);
    }
  }

  lemma RowsStep(before: seq<Entry>, e: Entry)
    requires RowsSummarise(Books(before), before)
    requires Books(before + [e]) == Apply(Books(before), e)
    ensures RowsSummarise(Books(before + [e]), before + [e])
  {
    var es := before + [e];
    assert es[..|es| - 1] == before;
    if e.Accept? {
      var x := (e.rec.eventHash, e.rec.sequence);
      assert Accepted(es) == Accepted(before) + multiset{x};
      assert x in Accepted(es);
      forall h: Digest | Carries(Accepted(before), h) ensures Carries(Accepted(es), h) {
        var q :| (h, q) in Accepted(before);
        assert (h, q) in Accepted(es);
      }
    }
  }

  lemma RangeStep(before: seq<Entry>, e: Entry)
    requires RangeSummarises(Books(before), before)
    requires CountsSummarise(Books(before), before)
    requires Books(before + [e]) == Apply(Books(before), e)
    ensures RangeSummarises(Books(before + [e]), before + [e])
  {
    var es := before + [e];
    assert e in es && forall x :: x in es <==> x in before || x == e;
    forall q | Numbers(before, q) ensures Numbers(es, q) {
      var w :| w in before && w.Sequence() == q;
      assert w in es;
    }
    assert Numbers(es, e.Sequence());
  }

  // ---- Order and batching ----

  lemma {:induction false} MultisetsHoldTheEntries(es: seq<Entry>, q: nat)
    ensures |es| == |Accepted(es)| + |Refused(es)|
    ensures Numbers(es, q) <==> q in Refused(es) || exists h: Digest :: (h, q) in Accepted(es)
    decreases |es|
  {
    if es != [] {
      var before, e := es[..|es| - 1], es[|es| - 1];
      MultisetsHoldTheEntries(before, q);
      assert forall x :: x in es <==> x in before || x == e;
      if Numbers(before, q) {
        var w :| w in before && w.Sequence() == q;
        assert w in es;
      }
      if e.Accept? {
        assert (e.rec.eventHash, e.rec.sequence) in Accepted(es);
        forall h: Digest | (h, q) in Accepted(before) ensures (h, q) in Accepted(es) {}
      }
      assert e in es;
    }
  }

  lemma RangesAgree(a: seq<Entry>, b: seq<Entry>, p: Position, p': Position)
    requires forall q :: Numbers(a, q) ==> Numbers(b, q)
    requires RangeSummarises(Ledger(map[], Some(p)), a) && RangeSummarises(Ledger(map[], Some(p')), b)
    ensures p'.firstSeq <= p.firstSeq && p.highestSeq <= p'.highestSeq
  {
    assert Numbers(b, p.firstSeq) && Numbers(b, p.highestSeq);
  }

  lemma RowsAgree(a: seq<Entry>, b: seq<Entry>)
    requires Accepted(a) == Accepted(b)
    ensures Books(a).events.Keys == Books(b).events.Keys
  {
    BooksSummarise(a);
    BooksSummarise(b);
    assert forall h: Digest :: h in Books(a).events.Keys <==> Carries(Accepted(a), h);
    assert forall h: Digest :: h in Books(b).events.Keys <==> Carries(Accepted(b), h);
  }

  lemma RowCountIsKeyCount(m: map<Digest, Row>)
    ensures |m| == |m.Keys|
  {}

  /** The five numbers and the stored identities depend on what was accepted and refused, not on the order. */
  lemma OrderIndependence(a: seq<Entry>, b: seq<Entry>)
    requires Accepted(a) == Accepted(b) && Refused(a) == Refused(b)
    ensures Books(a).events.Keys == Books(b).events.Keys
    ensures Books(a).position == Books(b).position
  {
    RowsAgree(a, b);
    RowCountIsKeyCount(Books(a).events);
    RowCountIsKeyCount(Books(b).events);
    forall q: nat ensures Numbers(a, q) <==> Numbers(b, q) {
      MultisetsHoldTheEntries(a, q);
      MultisetsHoldTheEntries(b, q);
    }
    MultisetsHoldTheEntries(a, 0);
    BooksSummarise(a);
    BooksSummarise(b);
    if a != [] {
      var p, p' := Books(a).position.value, Books(b).position.value;
      RangesAgree(a, b, p, p');
      RangesAgree(b, a, p', p);
    }
  }

  /** One call to the batched commit. */
  datatype Batch = Batch(recs: seq<BatchRecord>, rejected: seq<nat>, at: int)

  /** The journal a series of batched commits leaves. */
  function Journal(batches: seq<Batch>): seq<Entry> {
    if batches == [] then []
    else Entries(batches[0].recs, batches[0].rejected, batches[0].at) + Journal(batches[1..])
  }

  /** ... nor on how the deliveries were split into batches. */
  lemma BatchingIndependence(a: seq<Batch>, b: seq<Batch>)
    requires Accepted(Journal(a)) == Accepted(Journal(b)) && Refused(Journal(a)) == Refused(Journal(b))
    ensures Books(Journal(a)).events.Keys == Books(Journal(b)).events.Keys
    ensures Books(Journal(a)).position == Books(Journal(b)).position
    ensures Books(Journal(a)).position.Some? ==>
      var p := Books(Journal(a)).position.value;
      p.committed == |Books(Journal(a)).events| && p.committed + p.duplicates == |Accepted(Journal(a))|
  {
    OrderIndependence(Journal(a), Journal(b));
    BooksSummarise(Journal(a));
    RowCountIsKeyCount(Books(Journal(a)).events);
  }

  // ---- The loss law ----

  /**
   `keepable` says, of every stream sequence that carries a record matching its own hash,
   which record that is. A faithful journal accepts only those and refuses only others.
   */
  ghost predicate Faithful(keepable: map<nat, BatchRecord>, es: seq<Entry>) {
    forall e :: e in es ==>
      && e.Sequence() > 0
      && (e.Accept? ==> e.rec.sequence in keepable && keepable[e.rec.sequence] == e.rec)
      && (e.Refuse? ==> e.refused !in keepable)
  }

  /** The stream sequences from `lo` to `hi`. */
  ghost function Walked(lo: nat, hi: nat): (s: set<nat>)
    ensures forall q: nat :: q in s <==> lo <= q <= hi
    ensures lo <= hi ==> |s| == hi - lo + 1
    decreases hi
  {
    if hi < lo then {} else if hi == 0 then {0} else Walked(lo, hi - 1) + {hi}
  }

  /** The sequences in the walked range that neither inserted a row nor were refused. */
  ghost function Gaps(es: seq<Entry>, p: Position): set<nat> {
    Walked(p.firstSeq, p.highestSeq) - Inserted(es) - Distinct(Refused(es))
  }

  ghost function Distinct(m: multiset<nat>): set<nat> {
    set q | q in m
  }

  ghost predicate NoneTwice(m: multiset<nat>) {
    forall q: nat :: m[q] <= 1
  }

  /** The refusals recorded beyond the first of each sequence. */
  ghost function Repeats(es: seq<Entry>): int {
    |Refused(es)| - |Distinct(Refused(es))|
  }

  lemma {:induction false} DistinctIsSmaller(m: multiset<nat>)
    ensures |Distinct(m)| <= |m|
    ensures NoneTwice(m) <==> |Distinct(m)| == |m|
    decreases |m|
  {
    if m != multiset{} {
      var x :| x in m;
      var rest := m - multiset{x};
      assert m == rest + multiset{x};
      assert |m| == |rest| + 1;
      DistinctIsSmaller(rest);
      if x in rest {
        assert Distinct(m) == Distinct(rest);
        assert m[x] > 1;
        assert !NoneTwice(m);
      } else {
        assert Distinct(m) == Distinct(rest) + {x};
        assert forall q: nat :: m[q] == if q == x then 1 else rest[q];
      }
    }
  }

  lemma {:induction false} InsertedFacts(keepable: map<nat, BatchRecord>, es: seq<Entry>)
    requires Faithful(keepable, es)
    ensures |Inserted(es)| == |Books(es).events|
    ensures forall q :: q in Inserted(es) ==> q in keepable && keepable[q].eventHash in Books(es).events
    ensures forall q :: q in Inserted(es) ==> Numbers(es, q)
    ensures forall q :: q in Refused(es) ==> q !in keepable && Numbers(es, q)
    decreases |es|
  {
    if es != [] {
      var before, e := es[..|es| - 1], es[|es| - 1];
      assert es == before + [e];
      assert e in es && forall x :: x in before ==> x in es;
      hide Numbers, Replay, Inserted, Refused, Books;
      InsertedFacts(keepable, before);
      NumbersGrow(before, e);
      InsertedOneMore(before, e);
      RefusedOneMore(before, e);
      BooksNext(before, e);
    }
  }

  lemma RefusedOneMore(before: seq<Entry>, e: Entry)
    ensures Refused(before + [e]) == Refused(before) + if e.Refuse? then multiset{e.refused} else multiset{}
  {
    assert (before + [e])[..|before|] == before;
  }

  lemma BooksNext(before: seq<Entry>, e: Entry)
    ensures var rows, rows' := Books(before).events, Books(before + [e]).events;
      if e.Accept? && e.rec.eventHash !in rows then
        rows'.Keys == rows.Keys + {e.rec.eventHash} && |rows'| == |rows| + 1
      else rows' == rows
  {
    ReplaySnoc(EMPTY, before, e);
    hide Replay;
  }

  lemma InsertedOneMore(before: seq<Entry>, e: Entry)
    ensures Inserted(before + [e])
         == if e.Accept? && e.rec.eventHash !in Books(before).events then Inserted(before) + {e.rec.sequence}
            else Inserted(before)
  {
    assert (before + [e])[..|before|] == before;
  }

  lemma NumbersGrow(before: seq<Entry>, e: Entry)
    ensures forall q :: Numbers(before, q) ==> Numbers(before + [e], q)
    ensures Numbers(before + [e], e.Sequence())
  {
    assert e in before + [e];
    forall q | Numbers(before, q)
      ensures Numbers(before + [e], q)
    {
      var w :| w in before && w.Sequence() == q;
      assert w in before + [e];
    }
  }

  lemma DisjointSizes(walked: set<nat>, a: set<nat>, b: set<nat>)
    requires a <= walked && b <= walked && a !! b
    ensures |walked - a - b| == |walked| - |a| - |b|
  {
    assert walked == (walked - a - b) + (a + b);
  }

  /** The exact law of the figure Span - Committed - Rejected. */
  lemma LossLaw(keepable: map<nat, BatchRecord>, es: seq<Entry>)
    requires Faithful(keepable, es) && es != []
    ensures Books(es).position.Some?
    ensures var p := Books(es).position.value;
      p.Unaccounted() == |Gaps(es, p)| - Repeats(es)
    ensures Repeats(es) >= 0
    ensures Repeats(es) == 0 <==> NoneTwice(Refused(es))
  {
    BooksSummarise(es);
    InsertedFacts(keepable, es);
    DistinctIsSmaller(Refused(es));
    var p := Books(es).position.value;
    var w :| w in es && w.Sequence() == p.firstSeq;
    assert 0 < p.firstSeq <= p.highestSeq;
    forall q | q in Inserted(es) || q in Distinct(Refused(es)) ensures p.firstSeq <= q <= p.highestSeq {
      assert Numbers(es, q);
    }
    DisjointSizes(Walked(p.firstSeq, p.highestSeq), Inserted(es), Distinct(Refused(es)));
  }

  /** The sequences accepted, whether or not they inserted a row. */
  ghost function AcceptedSequences(es: seq<Entry>): set<nat> {
    set x | x in Accepted(es) :: x.1
  }

  lemma {:induction false} AcceptedFacts(keepable: map<nat, BatchRecord>, es: seq<Entry>)
    requires Faithful(keepable, es)
    ensures Inserted(es) <= AcceptedSequences(es)
    ensures forall q :: q in AcceptedSequences(es) ==> q in keepable && Numbers(es, q)
    decreases |es|
  {
    if es != [] {
      var before, e := es[..|es| - 1], es[|es| - 1];
      assert forall x :: x in es <==> x in before || x == e;
      AcceptedFacts(keepable, before);
      forall q | Numbers(before, q) ensures Numbers(es, q) {
        var w :| w in before && w.Sequence() == q;
        assert w in es;
      }
      assert Numbers(es, e.Sequence());
      if e.Accept? {
        var x := (e.rec.eventHash, e.rec.sequence);
        assert Accepted(es) == Accepted(before) + multiset{x} && x in Accepted(es);
        forall y | y in Accepted(before) ensures y in Accepted(es) && y.1 in AcceptedSequences(es) {}
        assert AcceptedSequences(es) == AcceptedSequences(before) + {e.rec.sequence};
      } else {
        assert AcceptedSequences(es) == AcceptedSequences(before);
      }
    }
  }

  /**
   What the figure calls loss: the sequences nothing was ever decided about, and the ones whose
   content another sequence had already brought, less the refusals written down again.
   */
  lemma LossIsUnseenOrShadowed(keepable: map<nat, BatchRecord>, es: seq<Entry>)
    requires Faithful(keepable, es) && Books(es).position.Some?
    ensures var p := Books(es).position.value;
      var unseen := Walked(p.firstSeq, p.highestSeq) - AcceptedSequences(es) - Distinct(Refused(es));
      p.Unaccounted() == |unseen| + (|AcceptedSequences(es)| - |Books(es).events|) - Repeats(es)
  {
    BooksSummarise(es);
    LossLaw(keepable, es);
    InsertedFacts(keepable, es);
    AcceptedFacts(keepable, es);
    var p := Books(es).position.value;
    forall q | q in AcceptedSequences(es) || q in Distinct(Refused(es)) ensures p.firstSeq <= q <= p.highestSeq {
      assert Numbers(es, q);
    }
    var walked := Walked(p.firstSeq, p.highestSeq);
    DisjointSizes(walked, AcceptedSequences(es), Distinct(Refused(es)));
    DisjointSizes(walked, Inserted(es), Distinct(Refused(es)));
  }
}
