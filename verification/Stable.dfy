/** Sorting by falling weight so that equal weights keep their order, and why that leaves no choice. */
module Stable {

  datatype Code =
    | PointerLinearity | KeyIntervalVarianceLow | KeyDwellAbsent | KeyIntervalsIdentical
    | ProgrammaticScroll | NoFocusTransitions | ValueInjected | InsufficientEvidence

  /** One contributing factor. */
  datatype Reason = Reason(code: Code, weight: real)

  ghost predicate Falling(rs: seq<Reason>) {
    forall i, j :: 0 <= i < j < |rs| ==> rs[i].weight >= rs[j].weight
  }

  /** The reasons of weight `w`, in their order. */
  ghost function Of(rs: seq<Reason>, w: real): seq<Reason> {
    if rs == [] then []
    else (if rs[0].weight == w then [rs[0]] else []) + Of(rs[1..], w)
  }

  /** `out` has the reasons of `rs`, heaviest first, those of one weight in the order they came. */
  ghost predicate IsStableSort(out: seq<Reason>, rs: seq<Reason>) {
    Falling(out) && forall w :: Of(out, w) == Of(rs, w)
  }

  /** Puts `r` before the reasons no heavier than it. */
  function Insert(r: Reason, rs: seq<Reason>): seq<Reason> {
    if rs == [] then [r]
    else if rs[0].weight > r.weight then [rs[0]] + Insert(r, rs[1..])
    else [r] + rs
  }

  function Sort(rs: seq<Reason>): seq<Reason> {
    if rs == [] then [] else Insert(rs[0], Sort(rs[1..]))
  }

  lemma {:induction false} InsertKeepsOrder(r: Reason, rs: seq<Reason>, w: real)
    requires Falling(rs)
    ensures Of(Insert(r, rs), w) == (if r.weight == w then [r] else []) + Of(rs, w)
  {
    if rs != [] && rs[0].weight > r.weight {
      var rest := Insert(r, rs[1..]);
      InsertKeepsOrder(r, rs[1..], w);
      assert ([rs[0]] + rest)[1..] == rest;
    } else {
      assert ([r] + rs)[1..] == rs;
    }
  }

  lemma {:induction false} InsertFalls(r: Reason, rs: seq<Reason>)
    requires Falling(rs)
    ensures Falling(Insert(r, rs))
    ensures forall x :: x in Insert(r, rs) ==> x == r || x in rs
  {
    if rs != [] && rs[0].weight > r.weight {
      var rest := Insert(r, rs[1..]);
      InsertFalls(r, rs[1..]);
      forall i | 0 <= i < |rest|
        ensures rs[0].weight >= rest[i].weight
      {
        assert rest[i] in rest;
      }
    }
  }

  lemma {:induction false} SortIsStable(rs: seq<Reason>)
    ensures IsStableSort(Sort(rs), rs)
  {
    if rs != [] {
      SortIsStable(rs[1..]);
      InsertFalls(rs[0], Sort(rs[1..]));
      forall w
        ensures Of(Sort(rs), w) == Of(rs, w)
      {
        InsertKeepsOrder(rs[0], Sort(rs[1..]), w);
      }
    }
  }

  /** A reason is listed exactly when it is listed among those of its weight. */
  lemma {:induction false} OfHolds(rs: seq<Reason>, r: Reason)
    ensures multiset(rs)[r] == multiset(Of(rs, r.weight))[r]
  {
    if rs != [] {
      OfHolds(rs[1..], r);
      assert rs == [rs[0]] + rs[1..];
    }
  }

  /** Nothing is added, lost or listed twice. */
  lemma StableSortPermutes(out: seq<Reason>, rs: seq<Reason>)
    requires IsStableSort(out, rs)
    ensures multiset(out) == multiset(rs)
  {
    forall r: Reason
      ensures multiset(out)[r] == multiset(rs)[r]
    {
      OfHolds(out, r);
      OfHolds(rs, r);
    }
  }

  lemma OfHead(rs: seq<Reason>)
    requires rs != []
    ensures Of(rs, rs[0].weight) == [rs[0]] + Of(rs[1..], rs[0].weight)
  {}

  lemma {:induction false} OfFirst(rs: seq<Reason>, w: real)
    requires Of(rs, w) != []
    ensures exists i :: 0 <= i < |rs| && rs[i].weight == w
  {
    if rs[0].weight != w {
      OfFirst(rs[1..], w);
      var i :| 0 <= i < |rs[1..]| && rs[1..][i].weight == w;
      assert rs[i + 1].weight == w;
    }
  }

  lemma HeadsAgree(a: seq<Reason>, b: seq<Reason>)
    requires Falling(a) && Falling(b) && a != []
    requires forall w :: Of(a, w) == Of(b, w)
    ensures b != [] && a[0] == b[0]
  {
    OfHead(a);
    OfFirst(b, a[0].weight);
    OfHead(b);
    OfFirst(a, b[0].weight);
  }

  /** There is only one such order. */
  lemma StableSortIsUnique(a: seq<Reason>, b: seq<Reason>, rs: seq<Reason>)
    requires IsStableSort(a, rs) && IsStableSort(b, rs)
    ensures a == b
  {
    SameOrder(a, b);
  }

  lemma SameRest(first: seq<Reason>, p: seq<Reason>, q: seq<Reason>)
    requires first + p == first + q
    ensures p == q
  {
    assert p == (first + p)[|first|..] && q == (first + q)[|first|..];
  }

  lemma {:induction false} SameOrder(a: seq<Reason>, b: seq<Reason>)
    requires Falling(a) && Falling(b)
    requires forall w :: Of(a, w) == Of(b, w)
    ensures a == b
  {
    if a == [] {
      if b != [] {
        HeadsAgree(b, a);
      }
    } else {
      HeadsAgree(a, b);
      forall w
        ensures Of(a[1..], w) == Of(b[1..], w)
      {
        var first := if a[0].weight == w then [a[0]] else [];
        assert Of(a, w) == first + Of(a[1..], w) && Of(b, w) == first + Of(b[1..], w);
        SameRest(first, Of(a[1..], w), Of(b[1..], w));
      }
      SameOrder(a[1..], b[1..]);
      assert a == [a[0]] + a[1..] && b == [b[0]] + b[1..];
    }
  }
}
