/**
 The typing accumulator: running sums, the keys now down, and nothing else. Its ghost list of
 events is what it has been fed.
 */
module Keystroke {
  import opened Wrappers
  import opened Geometry
  import opened Telemetry
  import opened Rhythm

  /** The coefficient of variation from running sums. */
  function Cv(root: RootFn, sum: real, sumSq: real, n: real): real {
    if n < 2.0 then 0.0
    else
      var mean := sum / n;
      if mean <= 0.0 then 0.0
      else
        var variance := OnePass(sumSq, n, mean);
        root(if variance < 0.0 then 0.0 else variance) / mean
  }

  /** It is the two-pass one, and the clamp on the variance never acts. */
  lemma CvIsVariation(root: RootFn, xs: seq<nat>)
    requires xs != []
    ensures Cv(root, Sum(xs), SumOfSquares(xs), |xs| as real) == Variation(root, xs)
  {
    VarianceFromSums(xs);
    SumIsNotNegative(xs);
    var n, m, s, q := |xs| as real, Mean(xs), Sum(xs), SumOfSquares(xs);
    MeanIsPositive(s, n);
    CvOfVariance(root, s, q, n, Variance(xs));
    assert s / n == m;
    hide Sum, SumOfSquares, Variance, Cv, Mean;
  }

  lemma CvOfVariance(root: RootFn, s: real, q: real, n: real, v: real)
    requires n >= 1.0 && OnePass(q, n, s / n) == v >= 0.0
    ensures Cv(root, s, q, n) == if n < 2.0 || s / n <= 0.0 then 0.0 else root(v) / (s / n)
  {}

  lemma CvsAreVariations(root: RootFn, xs: seq<nat>, ys: seq<nat>)
    ensures xs != [] ==> Cv(root, Sum(xs), SumOfSquares(xs), |xs| as real) == Variation(root, xs)
    ensures ys != [] ==> Cv(root, Sum(ys), SumOfSquares(ys), |ys| as real) == Variation(root, ys)
  {
    if xs != [] {
      CvIsVariation(root, xs);
    }
    if ys != [] {
      CvIsVariation(root, ys);
    }
  }

  lemma MeanIsPositive(s: real, n: real)
    requires n > 0.0 && s >= 0.0
    ensures s / n > 0.0 <==> s != 0.0
  {
    DivideBack(s, n);
    if s / n > 0.0 {
      PositiveProduct(s / n, n);
      assert Positive(s);
    }
  }

  function Lookup(pending: map<string, nat>, key: string): Option<nat> {
    if key in pending then Some(pending[key]) else None
  }

  /** `pending` says of every key whether it is down, and since when. */
  ghost predicate Holds(pending: map<string, nat>, ks: seq<Key>) {
    forall key :: Lookup(pending, key) == HeldSince(ks, key)
  }

  /** One more event changes what is held for its own key and no other. */
  lemma HoldsNext(pending: map<string, nat>, ks: seq<Key>, k: Key)
    requires Holds(pending, ks)
    ensures Lookup(pending, KeyOf(k)) == HeldSince(ks, KeyOf(k))
    ensures IsDown(k) ==> Holds(pending[KeyOf(k) := k.at], ks + [k])
    ensures !IsDown(k) ==>
      Holds(if IsUp(k) && KeyOf(k) in pending && k.at >= pending[KeyOf(k)] then pending - {KeyOf(k)} else pending,
            ks + [k])
  {
    hide KeyOf;
    assert (ks + [k])[..|ks|] == ks;
    var pending' :=
      if IsDown(k) then pending[KeyOf(k) := k.at]
      else if IsUp(k) && KeyOf(k) in pending && k.at >= pending[KeyOf(k)] then pending - {KeyOf(k)}
      else pending;
    forall key
      ensures Lookup(pending', key) == HeldSince(ks + [k], key)
    {
      assert Lookup(pending, key) == HeldSince(ks, key);
    }
  }

  lemma IntervalsNext(ks: seq<Key>, k: Key)
    ensures Flights(ks + [k]) == Plus(Flights(ks), if IsDown(k) then Flight(LastUp(ks), k.at) else None)
    ensures Dwells(ks + [k]) == Plus(Dwells(ks), if IsUp(k) then Dwell(HeldSince(ks, KeyOf(k)), k.at) else None)
    ensures LastUp(ks + [k]) == if IsUp(k) then Some(k.at) else LastUp(ks)
  {
    hide KeyOf, HeldSince, Flight, Dwell;
    assert (ks + [k])[..|ks|] == ks;
  }

  class Keystroke {
    const root: RootFn

    var flightCount: nat
    var flightSum: real
    var flightSumSq: real

    var dwellCount: nat
    var dwellSum: real
    var dwellSumSq: real

    var exactRepeats: nat
    var lastFlightMs: nat

    var pendingDown: map<string, nat>

    var lastUpMs: nat
    var haveLastUp: bool

    var keyCount: nat

    ghost var events: seq<Key>

    constructor (root: RootFn)
      ensures Valid() && events == [] && this.root == root
    {
      this.root := root;
      flightCount, flightSum, flightSumSq := 0, 0.0, 0.0;
      dwellCount, dwellSum, dwellSumSq := 0, 0.0, 0.0;
      exactRepeats, lastFlightMs := 0, 0;
      pendingDown := map[];
      lastUpMs, haveLastUp := 0, false;
      keyCount := 0;
      events := [];
    }

    ghost predicate Valid()
      reads this
    {
      && keyCount == |events|
      && FlightsAre(Flights(events))
      && DwellsAre(Dwells(events))
      && (if haveLastUp then Some(lastUpMs) else None) == LastUp(events)
      && Holds(pendingDown, events)
    }

    ghost predicate FlightsAre(xs: seq<nat>)
      reads this`flightCount, this`flightSum, this`flightSumSq, this`exactRepeats, this`lastFlightMs
    {
      && flightCount == |xs| && flightSum == Sum(xs) && flightSumSq == SumOfSquares(xs)
      && exactRepeats == Repeats(xs)
      && (xs != [] ==> lastFlightMs == xs[|xs| - 1])
    }

    ghost predicate DwellsAre(xs: seq<nat>)
      reads this`dwellCount, this`dwellSum, this`dwellSumSq
    {
      dwellCount == |xs| && dwellSum == Sum(xs) && dwellSumSq == SumOfSquares(xs)
    }

    /** The typing features so far: those of the whole list of events. */
    function State(): (st: KeystrokeState)
      requires Valid()
      reads this
      ensures st == OfflineKeys(root, events)
      ensures Answers(root, st, Flights(events), Dwells(events), |events|)
      ensures (st.meanDwellMs == 0.0 || 1.0 <= st.meanDwellMs <= 1000.0) && 0.0 <= st.exactRepeatRatio < 1.0
    {
      RhythmIsPlausible(root, events);
      OfflineAnswers(root, events);
      CvsAreVariations(root, Flights(events), Dwells(events));
      StateFields()
    }

    function StateFields(): KeystrokeState
      reads this
    {
      var enoughFlights, enoughDwells :=
        flightCount >= MIN_INTERVALS_FOR_RHYTHM, dwellCount >= MIN_INTERVALS_FOR_RHYTHM;
      KeystrokeState(
        if enoughFlights then Cv(root, flightSum, flightSumSq, flightCount as real) else 0.0,
        if enoughDwells then Cv(root, dwellSum, dwellSumSq, dwellCount as real) else 0.0,
        if enoughDwells then dwellSum / dwellCount as real else 0.0,
        if enoughFlights then exactRepeats as real / flightCount as real else 0.0,
        flightCount,
        keyCount)
    }

    /** What the running sums always satisfy: no variance is negative, no interval repeats nothing. */
    lemma SumsAreSound()
      requires Valid()
      ensures flightCount as real * flightSumSq >= flightSum * flightSum
      ensures dwellCount as real * dwellSumSq >= dwellSum * dwellSum
      ensures exactRepeats <= flightCount && (flightCount > 0 ==> exactRepeats < flightCount)
    {
      var xs, ys := Flights(events), Dwells(events);
      SquaresDominate(xs);
      SquaresDominate(ys);
      RepeatsAreFewer(xs);
      hide Flights, Dwells, Sum, SumOfSquares, Repeats, Holds;
    }

    /** A flight ends, `gap` after the last up, unless it was a pause. */
    method AddFlight(gap: nat, ghost xs: seq<nat>)
      requires FlightsAre(xs)
      modifies this`flightCount, this`flightSum, this`flightSumSq, this`exactRepeats, this`lastFlightMs
      ensures FlightsAre(Plus(xs, if gap <= MAX_PLAUSIBLE_FLIGHT_MS then Some(gap) else None))
    {
      hide Sum, SumOfSquares, Repeats, Square;
      if gap <= MAX_PLAUSIBLE_FLIGHT_MS {
        OneMoreInterval(xs, gap);
        if flightCount > 0 && gap == lastFlightMs {
          exactRepeats := exactRepeats + 1;
        }
        lastFlightMs := gap;
        flightCount := flightCount + 1;
        flightSum := flightSum + gap as real;
        flightSumSq := flightSumSq + Square(gap as real);
      }
    }

    method AddDwell(hold: nat, ghost xs: seq<nat>)
      requires DwellsAre(xs)
      modifies this`dwellCount, this`dwellSum, this`dwellSumSq
      ensures DwellsAre(Plus(xs,
                if MIN_PLAUSIBLE_DWELL_MS <= hold <= MAX_PLAUSIBLE_DWELL_MS then Some(hold) else None))
    {
      hide Sum, SumOfSquares, Square;
      if MIN_PLAUSIBLE_DWELL_MS <= hold <= MAX_PLAUSIBLE_DWELL_MS {
        OneMoreInterval(xs, hold);
        dwellCount := dwellCount + 1;
        dwellSum := dwellSum + hold as real;
        dwellSumSq := dwellSumSq + Square(hold as real);
      }
    }

    /** One key event. */
    method AddKey(k: Key)
      requires Valid()
      modifies this
      ensures Valid() && events == old(events) + [k]
    {
      hide FlightsAre, DwellsAre, Flights, Dwells, LastUp, HeldSince, Holds, KeyOf;
      ghost var was := events;
      events := events + [k];
      IntervalsNext(was, k);
      HoldsNext(pendingDown, was, k);
      keyCount := keyCount + 1;
      if k.class_ == "mod" {
        return;
      }
      var key := KeyOf(k);
      if k.phase == "down" {
        if haveLastUp && k.at >= lastUpMs {
          AddFlight(k.at - lastUpMs, Flights(was));
        }
        pendingDown := pendingDown[key := k.at];
      } else if k.phase == "up" {
        if key in pendingDown && k.at >= pendingDown[key] {
          AddDwell(k.at - pendingDown[key], Dwells(was));
          pendingDown := pendingDown - {key};
        }
        lastUpMs := k.at;
        haveLastUp := true;
      }
    }
  }

  /** Once there are six of them, each coefficient is zero exactly when its own intervals are all the same. */
  lemma RegularTypingIsZero(k: Keystroke)
    requires k.Valid() && IsRoot(k.root)
    ensures var st, flights, dwells := k.State(), Flights(k.events), Dwells(k.events);
      && (|flights| >= 6 ==> (st.flightCV == 0.0 <==> AllEqual(flights)))
      && (|dwells| >= 6 ==> (st.dwellCV == 0.0 <==> AllEqual(dwells)))
  {
    var flights, dwells := Flights(k.events), Dwells(k.events);
    hide Flights, Dwells, AllEqual, IsRoot, Variation, Holds, Answers;
    if |flights| >= 6 {
      VariationVanishes(k.root, flights);
    }
    if |dwells| >= 6 {
      VariationVanishes(k.root, dwells);
    }
  }
}
