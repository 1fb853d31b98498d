/**
 Typing rhythm computed the slow way: the intervals are found in the whole list of key events,
 and their spread is measured about their mean. `Keystroke` is proved to compute this.
 */
module Rhythm {
  import opened Wrappers
  import opened Geometry
  import opened Telemetry

  const MIN_INTERVALS_FOR_RHYTHM: nat := 6
  const MAX_PLAUSIBLE_FLIGHT_MS: nat := 2000
  const MIN_PLAUSIBLE_DWELL_MS: nat := 1
  const MAX_PLAUSIBLE_DWELL_MS: nat := 1000

  datatype KeystrokeState = KeystrokeState(
    flightCV: real, dwellCV: real, meanDwellMs: real, exactRepeatRatio: real, intervals: nat, keys: nat)

  /** What tells one held key from another: no more than its class and its field. */
  function KeyOf(k: Key): string {
    k.class_ + [0 as char] + k.target
  }

  predicate Ordinary(k: Key) {
    k.class_ != "mod"
  }

  predicate IsDown(k: Key) {
    Ordinary(k) && k.phase == "down"
  }

  predicate IsUp(k: Key) {
    Ordinary(k) && k.phase == "up"
  }

  // ---- Intervals ----

  /** When an ordinary key last went up. */
  function LastUp(ks: seq<Key>): Option<nat> {
    if ks == [] then None
    else if IsUp(ks[|ks| - 1]) then Some(ks[|ks| - 1].at)
    else LastUp(ks[..|ks| - 1])
  }

  /** The time from an up to a down at `at`, unless that is a pause. */
  function Flight(up: Option<nat>, at: nat): Option<nat> {
    if up.Some? && at >= up.value && at - up.value <= MAX_PLAUSIBLE_FLIGHT_MS then Some(at - up.value) else None
  }

  /** The time from a down to an up at `at`, if it is plausible. */
  function Dwell(down: Option<nat>, at: nat): Option<nat> {
    if down.Some? && MIN_PLAUSIBLE_DWELL_MS <= at - down.value <= MAX_PLAUSIBLE_DWELL_MS
    then Some(at - down.value) else None
  }

  function Plus(xs: seq<nat>, x: Option<nat>): seq<nat> {
    if x.Some? then xs + [x.value] else xs
  }

  /** The flights, each ending at a down. */
  function Flights(ks: seq<Key>): seq<nat> {
    if ks == [] then []
    else
      var most, k := ks[..|ks| - 1], ks[|ks| - 1];
      Plus(Flights(most), if IsDown(k) then Flight(LastUp(most), k.at) else None)
  }

  /** When `key` went down, if it has not come up since. */
  function HeldSince(ks: seq<Key>, key: string): Option<nat> {
    if ks == [] then None
    else
      var k, before := ks[|ks| - 1], HeldSince(ks[..|ks| - 1], key);
      if IsDown(k) && KeyOf(k) == key then Some(k.at)
      else if IsUp(k) && KeyOf(k) == key && before.Some? && k.at >= before.value then None
      else before
  }

  /** The dwells, each ending at an up of the key that went down. */
  function Dwells(ks: seq<Key>): seq<nat> {
    if ks == [] then []
    else
      var most, k := ks[..|ks| - 1], ks[|ks| - 1];
      Plus(Dwells(most), if IsUp(k) then Dwell(HeldSince(most, KeyOf(k)), k.at) else None)
  }

  /** How many intervals equal the one before them. */
  function Repeats(xs: seq<nat>): nat {
    if |xs| < 2 then 0
    else Repeats(xs[..|xs| - 1]) + if xs[|xs| - 1] == xs[|xs| - 2] then 1 else 0
  }

  // ---- Spread ----

  function Sum(xs: seq<nat>): real {
    if xs == [] then 0.0 else Sum(xs[..|xs| - 1]) + xs[|xs| - 1] as real
  }

  function SumOfSquares(xs: seq<nat>): real {
    if xs == [] then 0.0 else SumOfSquares(xs[..|xs| - 1]) + Square(xs[|xs| - 1] as real)
  }

  function Mean(xs: seq<nat>): real
    requires xs != []
  {
    Sum(xs) / |xs| as real
  }

  /** Squared deviations from `m`, added up. */
  function Deviations(xs: seq<nat>, m: real): real {
    if xs == [] then 0.0
    else Deviations(xs[..|xs| - 1], m) + Square(xs[|xs| - 1] as real - m)
  }

  function Square(x: real): (r: real)
    ensures r >= 0.0
  {
    x * x
  }

  /** Population variance, in two passes. */
  function Variance(xs: seq<nat>): real
    requires xs != []
  {
    Deviations(xs, Mean(xs)) / |xs| as real
  }

  /** Coefficient of variation. */
  function Variation(root: RootFn, xs: seq<nat>): real {
    if |xs| < 2 || Sum(xs) == 0.0 then 0.0 else root(Variance(xs)) / Mean(xs)
  }

  /** The typing features of a whole list of key events. */
  function OfflineKeys(root: RootFn, ks: seq<Key>): KeystrokeState {
    var flights, dwells := Flights(ks), Dwells(ks);
    var enoughFlights, enoughDwells := |flights| >= MIN_INTERVALS_FOR_RHYTHM, |dwells| >= MIN_INTERVALS_FOR_RHYTHM;
    KeystrokeState(
      if enoughFlights then Variation(root, flights) else 0.0,
      if enoughDwells then Variation(root, dwells) else 0.0,
      if enoughDwells then Mean(dwells) else 0.0,
      if enoughFlights then Repeats(flights) as real / |flights| as real else 0.0,
      |flights|,
      |ks|)
  }

  // ---- Running sums are exact ----

  lemma OneMoreInterval(xs: seq<nat>, x: nat)
    ensures Sum(xs + [x]) == Sum(xs) + x as real
    ensures SumOfSquares(xs + [x]) == SumOfSquares(xs) + Square(x as real)
    ensures Repeats(xs + [x]) == Repeats(xs) + if xs != [] && xs[|xs| - 1] == x then 1 else 0
  {
    assert (xs + [x])[..|xs|] == xs;
  }

  /** What the deviations come to, given the running sums `s` and `q` of `n` values. */
  function FromSums(q: real, s: real, n: real, m: real): real {
    q - 2.0 * (m * s) + n * (m * m)
  }

  lemma OneMoreDeviation(q: real, s: real, n: real, m: real, x: real)
    ensures FromSums(q + Square(x), s + x, n + 1.0, m) == FromSums(q, s, n, m) + Square(x - m)
  {}

  lemma {:induction false} DeviationsFromSums(xs: seq<nat>, m: real)
    ensures Deviations(xs, m) == FromSums(SumOfSquares(xs), Sum(xs), |xs| as real, m)
    ensures Deviations(xs, m) >= 0.0
  {
    if xs != [] {
      var most, x := xs[..|xs| - 1], xs[|xs| - 1] as real;
      DeviationsFromSums(most, m);
      OneMoreDeviation(SumOfSquares(most), Sum(most), |most| as real, m, x);
      hide FromSums, Square;
      assert |xs| as real == |most| as real + 1.0;
    }
  }

  lemma DivideBack(a: real, n: real)
    requires n > 0.0
    ensures (a / n) * n == a
  {}

  /** The variance in one pass: the mean of the squares less the square of the mean. */
  function OnePass(q: real, n: real, m: real): real
    requires n != 0.0
  {
    q / n - m * m
  }

  /** The variance from the two running sums is the two-pass variance, so it is never negative. */
  lemma VarianceFromSums(xs: seq<nat>)
    requires xs != []
    ensures OnePass(SumOfSquares(xs), |xs| as real, Mean(xs)) == Variance(xs)
    ensures Variance(xs) >= 0.0
  {
    MeanTimesCount(xs);
    hide FromSums, Mean, Sum, SumOfSquares, Deviations, OnePass;
    var n, m := |xs| as real, Mean(xs);
    VarianceArithmetic(SumOfSquares(xs), Sum(xs), n, m);
    DeviationsFromSums(xs, m);
    Quotient(Deviations(xs, m), n);
  }

  lemma MeanTimesCount(xs: seq<nat>)
    requires xs != []
    ensures Mean(xs) * |xs| as real == Sum(xs)
  {
    DivideBack(Sum(xs), |xs| as real);
  }

  lemma VarianceArithmetic(q: real, s: real, n: real, m: real)
    requires n > 0.0 && m * n == s
    ensures FromSums(q, s, n, m) / n == OnePass(q, n, m)
    ensures FromSums(q, s, n, m) * n == q * n - s * s
  {
    var r := q / n;
    DivideBack(q, n);
    assert FromSums(r * n, m * n, n, m) == (r - m * m) * n;
    DivideOut(r - m * m, n);
    Scaling(q, n, m);
  }

  lemma Scaling(q: real, n: real, m: real)
    ensures FromSums(q, m * n, n, m) * n == q * n - (m * n) * (m * n)
  {}

  lemma DivideOut(v: real, n: real)
    requires n > 0.0
    ensures (v * n) / n == v
  {}

  lemma Quotient(a: real, n: real)
    requires a >= 0.0 && n > 0.0
    ensures a / n >= 0.0
  {}

  /** n times the sum of squares is at least the square of the sum. */
  lemma SquaresDominate(xs: seq<nat>)
    ensures |xs| as real * SumOfSquares(xs) >= Sum(xs) * Sum(xs)
  {
    if xs != [] {
      var n, m, s, q := |xs| as real, Mean(xs), Sum(xs), SumOfSquares(xs);
      DivideBack(s, n);
      VarianceArithmetic(q, s, n, m);
      DeviationsFromSums(xs, m);
      NonNegativeProduct(Deviations(xs, m), n);
    }
  }

  // ---- Bounds ----

  /** There is no repeat without an interval before it. */
  lemma {:induction false} RepeatsAreFewer(xs: seq<nat>)
    ensures Repeats(xs) <= |xs| && (xs != [] ==> Repeats(xs) < |xs|)
  {
    if |xs| >= 2 {
      RepeatsAreFewer(xs[..|xs| - 1]);
    }
  }

  lemma {:induction false} DwellsArePlausible(ks: seq<Key>)
    ensures forall i :: 0 <= i < |Dwells(ks)| ==> MIN_PLAUSIBLE_DWELL_MS <= Dwells(ks)[i] <= MAX_PLAUSIBLE_DWELL_MS
  {
    if ks != [] {
      DwellsArePlausible(ks[..|ks| - 1]);
    }
  }

  predicate BoundedBy(lo: real, s: real, hi: real, n: real) {
    lo * n <= s <= hi * n
  }

  lemma BoundedByOneMore(lo: real, s: real, hi: real, n: real, x: real)
    requires BoundedBy(lo, s, hi, n) && lo <= x <= hi
    ensures BoundedBy(lo, s + x, hi, n + 1.0)
  {}

  lemma {:induction false} SumWithin(xs: seq<nat>, lo: nat, hi: nat)
    requires forall i :: 0 <= i < |xs| ==> lo <= xs[i] <= hi
    ensures BoundedBy(lo as real, Sum(xs), hi as real, |xs| as real)
  {
    if xs != [] {
      var most := xs[..|xs| - 1];
      SumWithin(most, lo, hi);
      BoundedByOneMore(lo as real, Sum(most), hi as real, |most| as real, xs[|xs| - 1] as real);
      hide BoundedBy;
      assert |xs| as real == |most| as real + 1.0;
    }
  }

  lemma {:induction false} SumIsNotNegative(xs: seq<nat>)
    ensures Sum(xs) >= 0.0
  {
    if xs != [] {
      SumIsNotNegative(xs[..|xs| - 1]);
    }
  }

  lemma MeanWithin(xs: seq<nat>, lo: nat, hi: nat)
    requires xs != [] && forall i :: 0 <= i < |xs| ==> lo <= xs[i] <= hi
    ensures lo as real <= Mean(xs) <= hi as real
  {
    SumWithin(xs, lo, hi);
    QuotientWithin(Sum(xs), |xs| as real, lo as real, hi as real);
  }

  lemma QuotientWithin(s: real, n: real, lo: real, hi: real)
    requires n > 0.0 && BoundedBy(lo, s, hi, n)
    ensures lo <= s / n <= hi
  {
    var v := s / n;
    DivideBack(s, n);
  }

  /** A dwell that is reported at all lies in [1, 1000] ms, and a repeat ratio is below one. */
  lemma RhythmIsPlausible(root: RootFn, ks: seq<Key>)
    ensures var st := OfflineKeys(root, ks);
      (st.meanDwellMs == 0.0 || 1.0 <= st.meanDwellMs <= 1000.0) && 0.0 <= st.exactRepeatRatio < 1.0
  {
    DwellsArePlausible(ks);
    if |Dwells(ks)| >= MIN_INTERVALS_FOR_RHYTHM {
      MeanWithin(Dwells(ks), MIN_PLAUSIBLE_DWELL_MS, MAX_PLAUSIBLE_DWELL_MS);
    }
    RepeatsAreFewer(Flights(ks));
    if |Flights(ks)| >= MIN_INTERVALS_FOR_RHYTHM {
      FractionBelowOne(Repeats(Flights(ks)) as real, |Flights(ks)| as real);
    }
  }

  /** More events never take an interval back. */
  lemma {:induction false} MoreKeys(ks: seq<Key>, more: seq<Key>)
    ensures |Flights(ks + more)| >= |Flights(ks)|
    decreases |more|
  {
    if more == [] {
      assert ks + more == ks;
    } else {
      MoreKeys(ks, more[..|more| - 1]);
      assert (ks + more)[..|ks + more| - 1] == ks + more[..|more| - 1];
    }
  }

  // ---- What the features mean ----

  /** `cv` is the spread of these intervals against their mean: none before six, and none when all are zero. */
  ghost predicate IsSpread(root: RootFn, cv: real, xs: seq<nat>) {
    if |xs| < 6 || Sum(xs) == 0.0 then cv == 0.0 else cv == root(Variance(xs)) / Mean(xs)
  }

  /** `share` is `whole` divided among so many, none before six. */
  ghost predicate IsShare(share: real, n: nat, whole: real) {
    if n < 6 then share == 0.0 else share * n as real == whole
  }

  /** What is answered about so many flights and dwells: each figure of its own intervals. */
  ghost predicate Answers(root: RootFn, st: KeystrokeState, flights: seq<nat>, dwells: seq<nat>, keys: nat) {
    && st.intervals == |flights| && st.keys == keys
    && IsSpread(root, st.flightCV, flights) && IsShare(st.exactRepeatRatio, |flights|, Repeats(flights) as real)
    && IsSpread(root, st.dwellCV, dwells) && IsShare(st.meanDwellMs, |dwells|, Sum(dwells))
  }

  lemma OfflineAnswers(root: RootFn, ks: seq<Key>)
    ensures Answers(root, OfflineKeys(root, ks), Flights(ks), Dwells(ks), |ks|)
  {
    hide Flights, Dwells, Sum, Repeats, Mean, Variation, IsSpread, IsShare;
    var flights, dwells := Flights(ks), Dwells(ks);
    SpreadIsVariation(root, flights);
    SpreadIsVariation(root, dwells);
    RatioIsShare(Repeats(flights), |flights|);
    MeanIsShare(dwells);
  }

  lemma SpreadIsVariation(root: RootFn, xs: seq<nat>)
    ensures IsSpread(root, if |xs| >= 6 then Variation(root, xs) else 0.0, xs)
  {}

  lemma RatioIsShare(k: nat, n: nat)
    ensures IsShare(if n >= 6 then k as real / n as real else 0.0, n, k as real)
  {
    if n >= 6 {
      DivideBack(k as real, n as real);
    }
  }

  lemma MeanIsShare(xs: seq<nat>)
    ensures IsShare(if |xs| >= 6 then Mean(xs) else 0.0, |xs|, Sum(xs))
  {
    if |xs| >= 6 {
      MeanTimesCount(xs);
    }
  }

  /** The variance is the mean of the squared differences from the mean. */
  lemma VarianceIsMeanSquare(xs: seq<nat>, x: nat, m: real)
    ensures xs != [] ==> Variance(xs) * |xs| as real == Deviations(xs, Mean(xs))
    ensures Deviations([], m) == 0.0
    ensures Deviations(xs + [x], m) == Deviations(xs, m) + (x as real - m) * (x as real - m)
  {
    assert (xs + [x])[..|xs|] == xs;
    if xs != [] {
      DivideBack(Deviations(xs, Mean(xs)), |xs| as real);
    }
  }

  ghost predicate AllEqual(xs: seq<nat>) {
    forall i, j :: 0 <= i < |xs| && 0 <= j < |xs| ==> xs[i] == xs[j]
  }

  lemma {:induction false} NoDeviation(xs: seq<nat>, m: real)
    ensures Deviations(xs, m) >= 0.0
    ensures Deviations(xs, m) == 0.0 <==> forall i :: 0 <= i < |xs| ==> xs[i] as real == m
  {
    if xs != [] {
      var most, x := xs[..|xs| - 1], xs[|xs| - 1] as real;
      NoDeviation(most, m);
      SquareVanishes(x - m);
      hide Square;
      assert forall i :: 0 <= i < |most| ==> most[i] == xs[i];
      assert x == m <==> x - m == 0.0;
    }
  }

  lemma SquareVanishes(x: real)
    ensures Square(x) == 0.0 <==> x == 0.0
  {
    if x > 0.0 {
      PositiveProduct(x, x);
      assert Positive(Square(x));
    } else if x < 0.0 {
      var y := -x;
      PositiveProduct(y, y);
      assert Positive(Square(y));
      SquareNegated(x);
    }
  }

  lemma SquareNegated(x: real)
    ensures Square(-x) == Square(x)
  {}

  /** The variance vanishes exactly when the intervals are all the same. */
  lemma VarianceVanishes(xs: seq<nat>)
    requires xs != []
    ensures Variance(xs) >= 0.0 && (Variance(xs) == 0.0 <==> AllEqual(xs))
  {
    var m, n := Mean(xs), |xs| as real;
    NoDeviation(xs, m);
    DivideBack(Deviations(xs, m), n);
    Quotient(Deviations(xs, m), n);
    hide Mean, Deviations;
    if AllEqual(xs) {
      MeanWithin(xs, xs[0], xs[0]);
    }
  }

  lemma {:induction false} NothingSummed(xs: seq<nat>)
    requires Sum(xs) == 0.0
    ensures forall i :: 0 <= i < |xs| ==> xs[i] == 0
  {
    if xs != [] {
      SumIsNotNegative(xs[..|xs| - 1]);
      NothingSummed(xs[..|xs| - 1]);
    }
  }

  /** Typing is answered to be perfectly regular exactly when the intervals are all the same. */
  lemma VariationVanishes(root: RootFn, xs: seq<nat>)
    requires IsRoot(root) && |xs| >= 2
    ensures Variation(root, xs) >= 0.0 && (Variation(root, xs) == 0.0 <==> AllEqual(xs))
  {
    VarianceVanishes(xs);
    SumIsNotNegative(xs);
    if Sum(xs) == 0.0 {
      NothingSummed(xs);
    } else {
      var v, m := Variance(xs), Mean(xs);
      MeanTimesCount(xs);
      assert root(v) >= 0.0 && root(v) * root(v) == v;
      PositiveMean(Sum(xs), |xs| as real);
      hide Mean, Variance, Sum, IsRoot, AllEqual;
      ZeroRoot(root(v), v);
      VanishingQuotient(root(v), m);
    }
  }

  lemma PositiveMean(s: real, n: real)
    requires s > 0.0 && n > 0.0
    ensures s / n > 0.0
  {
    DivideBack(s, n);
    if s / n <= 0.0 {
      NonNegativeProduct(-(s / n), n);
    }
  }

  lemma VanishingQuotient(a: real, n: real)
    requires a >= 0.0 && n > 0.0
    ensures a / n >= 0.0 && (a / n == 0.0 <==> a == 0.0)
  {
    DivideBack(a, n);
    Quotient(a, n);
  }

  /** Interval `i` equals the one before it. */
  predicate IsRepeat(xs: seq<nat>, i: nat) {
    0 < i < |xs| && xs[i] == xs[i - 1]
  }

  ghost function RepeatsIn(xs: seq<nat>): set<nat> {
    set i: nat | i < |xs| && IsRepeat(xs, i)
  }

  lemma {:induction false} RepeatsAreCounted(xs: seq<nat>)
    ensures Repeats(xs) == |RepeatsIn(xs)|
  {
    if |xs| < 2 {
      assert RepeatsIn(xs) == {};
    } else {
      var most, n := xs[..|xs| - 1], |xs| - 1;
      RepeatsAreCounted(most);
      assert forall i: nat :: i < n ==> IsRepeat(most, i) == IsRepeat(xs, i);
      assert RepeatsIn(xs) == RepeatsIn(most) + if IsRepeat(xs, n) then {n} else {};
    }
  }

  // ---- Where the intervals come from ----

  /** Event `i` is the last key going up, modifiers apart. */
  ghost predicate LastUpAt(ks: seq<Key>, i: nat) {
    && i < |ks| && ks[i].class_ != "mod" && ks[i].phase == "up"
    && forall j :: i < j < |ks| ==> ks[j].class_ == "mod" || ks[j].phase != "up"
  }

  lemma {:induction false} LastUpIsLast(ks: seq<Key>, i: nat)
    requires LastUpAt(ks, i)
    ensures LastUp(ks) == Some(ks[i].at)
  {
    var most := ks[..|ks| - 1];
    if i < |most| {
      assert most[i] == ks[i];
      LastUpIsLast(most, i);
    }
  }

  lemma {:induction false} SomeUpIsLast(ks: seq<Key>) returns (i: nat)
    requires LastUp(ks).Some?
    ensures LastUpAt(ks, i)
  {
    i := |ks| - 1;
    if !IsUp(ks[i]) {
      i := SomeUpIsLast(ks[..|ks| - 1]);
    }
  }

  /** Event `i` put `key` down, and nothing since put it down again or let it up no earlier. */
  ghost predicate HeldAt(ks: seq<Key>, key: string, i: nat) {
    && i < |ks| && ks[i].class_ != "mod" && ks[i].phase == "down" && KeyOf(ks[i]) == key
    && forall j :: i < j < |ks| && ks[j].class_ != "mod" && KeyOf(ks[j]) == key ==>
         ks[j].phase != "down" && (ks[j].phase == "up" ==> ks[j].at < ks[i].at)
  }

  lemma {:induction false} HeldIsLastDown(ks: seq<Key>, key: string, i: nat)
    requires HeldAt(ks, key, i)
    ensures HeldSince(ks, key) == Some(ks[i].at)
  {
    hide KeyOf;
    var most := ks[..|ks| - 1];
    if i < |most| {
      assert most[i] == ks[i] && forall j :: 0 <= j < |most| ==> most[j] == ks[j];
      HeldIsLastDown(most, key, i);
    }
  }

  lemma {:induction false} SomeHeldIsLastDown(ks: seq<Key>, key: string) returns (i: nat)
    requires HeldSince(ks, key).Some?
    ensures HeldAt(ks, key, i)
  {
    hide KeyOf;
    i := |ks| - 1;
    var most := ks[..|ks| - 1];
    if !(IsDown(ks[i]) && KeyOf(ks[i]) == key) {
      i := SomeHeldIsLastDown(most, key);
      HeldIsLastDown(most, key, i);
      assert most[i] == ks[i] && forall j :: 0 <= j < |most| ==> most[j] == ks[j];
    }
  }

  /** A press ends a flight: the time since the last key went up, unless it is negative or over two seconds. */
  lemma PressEndsAFlight(ks: seq<Key>, k: Key, i: nat)
    requires LastUpAt(ks, i) && k.class_ != "mod" && k.phase == "down"
    ensures Flights(ks + [k]) ==
      if ks[i].at <= k.at <= ks[i].at + 2000 then Flights(ks) + [k.at - ks[i].at] else Flights(ks)
  {
    LastUpIsLast(ks, i);
    assert (ks + [k])[..|ks|] == ks;
  }

  /** Nothing else does, and the first press of all does not. */
  lemma NothingElseEndsAFlight(ks: seq<Key>, k: Key)
    requires k.class_ == "mod" || k.phase != "down" || forall i: nat :: !LastUpAt(ks, i)
    ensures Flights(ks + [k]) == Flights(ks)
  {
    assert (ks + [k])[..|ks|] == ks;
    if LastUp(ks).Some? {
      var i := SomeUpIsLast(ks);
    }
  }

  /** A release ends a dwell: the time its own key was down, if that is between one millisecond and a second. */
  lemma ReleaseEndsADwell(ks: seq<Key>, k: Key, i: nat)
    requires HeldAt(ks, KeyOf(k), i) && k.class_ != "mod" && k.phase == "up"
    ensures Dwells(ks + [k]) ==
      if ks[i].at + 1 <= k.at <= ks[i].at + 1000 then Dwells(ks) + [k.at - ks[i].at] else Dwells(ks)
  {
    HeldIsLastDown(ks, KeyOf(k), i);
    hide KeyOf;
    assert (ks + [k])[..|ks|] == ks;
  }

  lemma NothingElseEndsADwell(ks: seq<Key>, k: Key)
    requires k.class_ == "mod" || k.phase != "up" || forall i: nat :: !HeldAt(ks, KeyOf(k), i)
    ensures Dwells(ks + [k]) == Dwells(ks)
  {
    hide KeyOf;
    assert (ks + [k])[..|ks|] == ks;
    if HeldSince(ks, KeyOf(k)).Some? {
      var i := SomeHeldIsLastDown(ks, KeyOf(k));
    }
  }

  /** Keys are told apart by class and field. */
  lemma KeyIsClassAndField(a: Key, b: Key)
    requires (0 as char) !in a.class_ && (0 as char) !in b.class_
    ensures KeyOf(a) == KeyOf(b) <==> a.class_ == b.class_ && a.target == b.target
  {
    ClassEndsAtNul(a);
    ClassEndsAtNul(b);
    if KeyOf(a) == KeyOf(b) {
      var m := |a.class_|;
      assert a.class_ == KeyOf(a)[..m] && b.class_ == KeyOf(b)[..m];
      assert a.target == KeyOf(a)[m + 1..] && b.target == KeyOf(b)[m + 1..];
    }
  }

  lemma ClassEndsAtNul(k: Key)
    requires (0 as char) !in k.class_
    ensures |KeyOf(k)| > |k.class_| && KeyOf(k)[|k.class_|] == 0 as char
    ensures forall i :: 0 <= i < |k.class_| ==> KeyOf(k)[i] != 0 as char
  {}
}
