/** Order statistics: a sorted sample, the nearest-rank percentile, and how they respect dominance. */
module Percentile {

  ghost predicate Rising(xs: seq<real>) {
    forall i, j :: 0 <= i < j < |xs| ==> xs[i] <= xs[j]
  }

  function Insert(x: real, xs: seq<real>): seq<real> {
    if xs == [] || x <= xs[0] then [x] + xs else [xs[0]] + Insert(x, xs[1..])
  }

  function Sorted(xs: seq<real>): (s: seq<real>)
    ensures |s| == |xs|
  {
    if xs == [] then []
    else
      InsertIsOneMore(xs[0], Sorted(xs[1..]));
      Insert(xs[0], Sorted(xs[1..]))
  }

  lemma {:induction false} InsertIsOneMore(x: real, xs: seq<real>)
    ensures multiset(Insert(x, xs)) == multiset(xs) + multiset{x}
    ensures |Insert(x, xs)| == |xs| + 1
  {
    if xs != [] && x > xs[0] {
      InsertIsOneMore(x, xs[1..]);
      assert xs == [xs[0]] + xs[1..];
    }
  }

  lemma {:induction false} InsertRises(x: real, xs: seq<real>)
    requires Rising(xs)
    ensures Rising(Insert(x, xs))
  {
    if xs != [] && x > xs[0] {
      var rest := Insert(x, xs[1..]);
      InsertRises(x, xs[1..]);
      InsertIsOneMore(x, xs[1..]);
      forall i | 0 <= i < |rest|
        ensures xs[0] <= rest[i]
      {
        assert rest[i] in multiset(rest);
      }
    }
  }

  lemma {:induction false} SortedIsSorted(xs: seq<real>)
    ensures Rising(Sorted(xs)) && multiset(Sorted(xs)) == multiset(xs)
  {
    if xs != [] {
      SortedIsSorted(xs[1..]);
      InsertRises(xs[0], Sorted(xs[1..]));
      InsertIsOneMore(xs[0], Sorted(xs[1..]));
      assert xs == [xs[0]] + xs[1..];
    }
  }

  // ---- Counting ----

  function One(b: bool): nat {
    if b then 1 else 0
  }

  /** How many samples are at most `v`. */
  function AtMost(xs: seq<real>, v: real): nat {
    if xs == [] then 0 else One(xs[0] <= v) + AtMost(xs[1..], v)
  }

  lemma {:induction false} AtMostAfterInsert(x: real, xs: seq<real>, v: real)
    ensures AtMost(Insert(x, xs), v) == One(x <= v) + AtMost(xs, v)
  {
    if xs == [] || x <= xs[0] {
      assert ([x] + xs)[1..] == xs;
    } else {
      AtMostAfterInsert(x, xs[1..], v);
      assert ([xs[0]] + Insert(x, xs[1..]))[1..] == Insert(x, xs[1..]);
    }
  }

  lemma {:induction false} SortingKeepsCounts(xs: seq<real>, v: real)
    ensures AtMost(Sorted(xs), v) == AtMost(xs, v)
  {
    if xs != [] {
      SortingKeepsCounts(xs[1..], v);
      AtMostAfterInsert(xs[0], Sorted(xs[1..]), v);
    }
  }

  /** In a rising sample, more than `k` are at most `v` exactly when the one at `k` is. */
  lemma {:induction false} RankIsCount(xs: seq<real>, k: nat, v: real)
    requires Rising(xs) && k < |xs|
    ensures AtMost(xs, v) > k <==> xs[k] <= v
    decreases |xs|
  {
    if k > 0 {
      RankIsCount(xs[1..], k - 1, v);
      assert xs[0] <= xs[k];
    } else if xs[0] > v {
      NoneAtMost(xs, v);
    }
  }

  lemma {:induction false} NoneAtMost(xs: seq<real>, v: real)
    requires forall i :: 0 <= i < |xs| ==> xs[i] > v
    ensures AtMost(xs, v) == 0
  {
    if xs != [] {
      NoneAtMost(xs[1..], v);
    }
  }

  // ---- The percentile ----

  /** The smallest rank that covers `p` percent of `n` samples, in 1..n. */
  function Rank(p: nat, n: nat): (r: nat)
    requires n > 0
    ensures 1 <= r <= n
  {
    var r := (p * n + 99) / 100;
    if r < 1 then 1 else if r > n then n else r
  }

  /** Nearest rank. */
  function Pct(xs: seq<real>, p: nat): real {
    if xs == [] then 0.0 else Sorted(xs)[Rank(p, |xs|) - 1]
  }

  /** The percentile was observed, and is the least value with its rank's worth of samples at or below it. */
  lemma PctIsNearestRank(xs: seq<real>, p: nat)
    requires xs != []
    ensures Pct(xs, p) in xs
    ensures AtMost(xs, Pct(xs, p)) >= Rank(p, |xs|)
    ensures forall v :: AtMost(xs, v) >= Rank(p, |xs|) <==> Pct(xs, p) <= v
  {
    SortedIsSorted(xs);
    var k := Rank(p, |xs|) - 1;
    assert Sorted(xs)[k] in multiset(Sorted(xs));
    forall v
      ensures AtMost(xs, v) >= Rank(p, |xs|) <==> Pct(xs, p) <= v
    {
      SortingKeepsCounts(xs, v);
      RankIsCount(Sorted(xs), k, v);
    }
  }

  /** For a percentage from 1 to 100 the rank is the ceiling of p/100 of the samples. */
  lemma RankIsCeiling(p: nat, n: nat)
    requires n > 0 && 1 <= p <= 100
    ensures 100 * (Rank(p, n) - 1) < p * n <= 100 * Rank(p, n)
  {
    ScaleUp(p, 100, n);
    ScaleUp(1, p, n);
  }

  lemma ScaleUp(p: nat, q: nat, n: nat)
    requires p <= q
    ensures p * n <= q * n
  {}

  // ---- The rank in floating point ----

  const UNIT_ROUNDOFF: real := 1.0 / 9007199254740992.0
  const MAX_EXACT: int := 9007199254740992

  /** A 64-bit float's rounding: monotone, exact on the integers it holds, and close elsewhere. */
  ghost predicate IsDouble(fl: real -> real) {
    && (forall x: real, y: real :: x <= y ==> Rounded(fl, x) <= Rounded(fl, y))
    && (forall k: int :: 0 <= k <= MAX_EXACT ==> RoundedInt(fl, k) == k as real)
    && (forall x: real :: x >= 0.0 ==> x - UNIT_ROUNDOFF * x <= Rounded(fl, x) <= x + UNIT_ROUNDOFF * x)
  }

  function Rounded(fl: real -> real, x: real): real {
    fl(x)
  }

  function RoundedInt(fl: real -> real, k: int): real {
    Rounded(fl, k as real)
  }

  function Ceiling(x: real): int {
    -((-x).Floor)
  }

  function Product(c: real, n: nat): real {
    c * n as real
  }

  /** The rank as it is computed: a rounded quotient, times the count, rounded again. */
  function FloatRank(fl: real -> real, p: nat, n: nat): int
    requires n > 0
  {
    var r := Ceiling(Rounded(fl, Product(Rounded(fl, p as real / 100.0), n)));
    if r < 1 then 1 else if r > n then n else r
  }

  /**
   For a percentage whose hundredth does not round up, 50 and 99 among them, the computed rank is
   the exact one for every count up to 2^40.
   */
  lemma FloatRankIsExact(fl: real -> real, p: nat, n: nat)
    requires IsDouble(fl) && 1 <= p <= 100 && 0 < n <= 1099511627776
    requires Rounded(fl, p as real / 100.0) <= p as real / 100.0
    ensures FloatRank(fl, p, n) == Rank(p, n)
  {
    hide IsDouble, Rounded, Rank, Ceiling, Product;
    var q := p as real / 100.0;
    var c, k, exact := Rounded(fl, q), Rank(p, n), (p * n) as real / 100.0;
    IsClose(fl, q);
    Brackets(c, p, n);
    RankIsCeiling(p, n);
    ExactRank(p, n, k);
    ProductRounds(fl, Product(c, n), exact, k);
    CeilingIs(Rounded(fl, Product(c, n)), k);
  }

  lemma IsClose(fl: real -> real, x: real)
    requires IsDouble(fl) && x >= 0.0
    ensures x - UNIT_ROUNDOFF * x <= Rounded(fl, x) <= x + UNIT_ROUNDOFF * x
  {}

  lemma StaysBelow(fl: real -> real, x: real, k: nat)
    requires IsDouble(fl) && x <= k as real && k <= MAX_EXACT
    ensures Rounded(fl, x) <= k as real
  {
    assert RoundedInt(fl, k) == k as real;
  }

  lemma ExactRank(p: nat, n: nat, k: nat)
    requires 100 * (k - 1) < p * n <= 100 * k && p <= 100
    ensures k as real - 0.99 <= (p * n) as real / 100.0 <= k as real && (p * n) as real / 100.0 <= n as real
  {
    ScaleUp(p, 100, n);
  }

  lemma ProductRounds(fl: real -> real, x: real, exact: real, k: nat)
    requires IsDouble(fl) && 1 <= k <= MAX_EXACT && 0.0 <= exact <= 1099511627776.0
    requires k as real - 0.99 <= exact <= k as real
    requires exact - UNIT_ROUNDOFF * exact <= x <= exact
    ensures k as real - 1.0 < Rounded(fl, x) <= k as real
  {
    hide IsDouble, Rounded;
    assert UNIT_ROUNDOFF * exact <= 0.001;
    IsClose(fl, x);
    StaysBelow(fl, x, k);
  }

  lemma Brackets(c: real, p: nat, n: nat)
    requires p as real / 100.0 - UNIT_ROUNDOFF * (p as real / 100.0) <= c <= p as real / 100.0
    ensures var exact := (p * n) as real / 100.0;
      exact - UNIT_ROUNDOFF * exact <= Product(c, n) <= exact
  {
    var q, m := p as real / 100.0, n as real;
    assert (p * n) as real == p as real * m;
    assert q * m == (p * n) as real / 100.0;
    MultipliedBy(c, q, m);
    MultipliedBy(q - UNIT_ROUNDOFF * q, c, m);
    assert (q - UNIT_ROUNDOFF * q) * m == q * m - UNIT_ROUNDOFF * (q * m);
  }

  lemma MultipliedBy(a: real, b: real, m: real)
    requires a <= b && m >= 0.0
    ensures a * m <= b * m
  {
    assert (b - a) * m >= 0.0;
  }

  lemma CeilingIs(x: real, k: int)
    requires k as real - 1.0 < x <= k as real
    ensures Ceiling(x) == k
  {}

  lemma PctGrowsWithRank(xs: seq<real>, p: nat, q: nat)
    requires p <= q
    ensures Pct(xs, p) <= Pct(xs, q)
  {
    if xs != [] {
      hide Sorted, Rank;
      SortedIsSorted(xs);
      RanksGrow(p, q, |xs|);
    }
  }

  lemma RanksGrow(p: nat, q: nat, n: nat)
    requires p <= q && n > 0
    ensures Rank(p, n) <= Rank(q, n)
  {
    ScaleUp(p, q, n);
    RankGrows(p * n, q * n);
  }

  lemma RankGrows(a: nat, b: nat)
    requires a <= b
    ensures (a + 99) / 100 <= (b + 99) / 100
  {}

  // ---- Dominance ----

  ghost predicate Dominated(xs: seq<real>, ys: seq<real>) {
    |xs| == |ys| && forall i :: 0 <= i < |xs| ==> xs[i] <= ys[i]
  }

  lemma {:induction false} DominatedCounts(xs: seq<real>, ys: seq<real>, v: real)
    requires Dominated(xs, ys)
    ensures AtMost(xs, v) >= AtMost(ys, v)
  {
    if xs != [] {
      DominatedCounts(xs[1..], ys[1..], v);
    }
  }

  /** Larger sample by sample is larger at every percentile, though sorting pairs the samples anew. */
  lemma DominatedPercentiles(xs: seq<real>, ys: seq<real>, p: nat)
    requires Dominated(xs, ys)
    ensures Pct(xs, p) <= Pct(ys, p)
  {
    if xs != [] {
      PctIsNearestRank(xs, p);
      PctIsNearestRank(ys, p);
      DominatedCounts(xs, ys, Pct(ys, p));
    }
  }

  // ---- Strict dominance ----

  ghost predicate StrictlyDominated(xs: seq<real>, ys: seq<real>) {
    |xs| == |ys| && forall i :: 0 <= i < |xs| ==> xs[i] < ys[i]
  }

  /** How many samples are below `v`. */
  function Below(xs: seq<real>, v: real): nat {
    if xs == [] then 0 else One(xs[0] < v) + Below(xs[1..], v)
  }

  lemma {:induction false} BelowAfterInsert(x: real, xs: seq<real>, v: real)
    ensures Below(Insert(x, xs), v) == One(x < v) + Below(xs, v)
  {
    if xs == [] || x <= xs[0] {
      assert ([x] + xs)[1..] == xs;
    } else {
      BelowAfterInsert(x, xs[1..], v);
      assert ([xs[0]] + Insert(x, xs[1..]))[1..] == Insert(x, xs[1..]);
    }
  }

  lemma {:induction false} SortingKeepsBelow(xs: seq<real>, v: real)
    ensures Below(Sorted(xs), v) == Below(xs, v)
  {
    if xs != [] {
      SortingKeepsBelow(xs[1..], v);
      BelowAfterInsert(xs[0], Sorted(xs[1..]), v);
    }
  }

  lemma {:induction false} NoneBelow(xs: seq<real>, v: real)
    requires forall i :: 0 <= i < |xs| ==> xs[i] >= v
    ensures Below(xs, v) == 0
  {
    if xs != [] {
      NoneBelow(xs[1..], v);
    }
  }

  lemma {:induction false} BelowIsRank(xs: seq<real>, k: nat, v: real)
    requires Rising(xs) && k < |xs| && Below(xs, v) > k
    ensures xs[k] < v
    decreases |xs|
  {
    if k > 0 {
      BelowIsRank(xs[1..], k - 1, v);
    } else if xs[0] >= v {
      NoneBelow(xs, v);
    }
  }

  lemma {:induction false} StrictlyDominatedCounts(xs: seq<real>, ys: seq<real>, v: real)
    requires StrictlyDominated(xs, ys)
    ensures Below(xs, v) >= AtMost(ys, v)
  {
    if xs != [] {
      StrictlyDominatedCounts(xs[1..], ys[1..], v);
    }
  }

  /** Strictly larger sample by sample is strictly larger at every percentile. */
  lemma StrictlyDominatedPercentiles(xs: seq<real>, ys: seq<real>, p: nat)
    requires StrictlyDominated(xs, ys) && xs != []
    ensures Pct(xs, p) < Pct(ys, p)
  {
    var v := Pct(ys, p);
    PctIsNearestRank(ys, p);
    StrictlyDominatedCounts(xs, ys, v);
    SortedIsSorted(xs);
    SortingKeepsBelow(xs, v);
    BelowIsRank(Sorted(xs), Rank(p, |xs|) - 1, v);
  }
}
