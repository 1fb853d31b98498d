/**
 What carrying the features as 32-bit floats costs a score and a decision. Every score is a
 clamped ramp of a ratio, so it moves by the rounding error times the ramp's steepness; the
 weights of the average move by no more than the rounding error itself.
 */
module SplitCost {
  import opened Geometry
  import Segmentation
  import Rhythm
  import Interaction
  import opened Policy
  import opened Snapshot
  import Scoring

  // ---- One ramp ----

  function Larger(a: real, b: real): real {
    if a < b then b else a
  }

  /** How steep a ramp is against the largest value on it. */
  function Steepness(zero: real, one: real): real {
    if zero == one then 0.0 else Larger(zero, one) / Abs(one - zero)
  }

  /** What a value is worth to a ramp that ends at `top`: below zero and past the end nothing changes. */
  lemma RampIsCapped(v: real, zero: real, one: real)
    requires zero >= 0.0 && one >= 0.0
    ensures Ramp(v, zero, one) == Ramp(Clamp(v, 0.0, Larger(zero, one)), zero, one)
  {
    var c := Clamp(v, 0.0, Larger(zero, one));
    if zero < one {
      RampRises(v, c, zero, one);
      RampRises(c, v, zero, one);
    } else if one < zero {
      RampFalls(v, c, zero, one);
      RampFalls(c, v, zero, one);
    }
  }

  lemma CappedMoves(v: real, v': real, top: real)
    requires Near(v, v') && top >= 0.0
    ensures Abs(Clamp(v', 0.0, top) - Clamp(v, 0.0, top)) <= EPSILON * top
  {}

  /** A product, named so that it can be kept folded. */
  function Times(a: real, b: real): real {
    a * b
  }

  lemma TimesGrows(a: real, b: real, n: real)
    requires a <= b && n >= 0.0
    ensures Times(a, n) <= Times(b, n)
  {
    NonNegativeProduct(b - a, n);
    assert (b - a) * n == b * n - a * n;
  }

  lemma SmallerFactor(a: real, b: real, n: real)
    requires Times(a, n) <= Times(b, n) && n > 0.0
    ensures a <= b
  {
    Below(a, b, n);
  }

  lemma QuotientsApart(x: real, y: real, n: real)
    requires n != 0.0
    ensures Times(Abs(x / n - y / n), Abs(n)) == Abs(x - y)
  {
    var p, q := x / n, y / n;
    assert p * n == x && q * n == y;
    ProductOfAbs(p - q, n);
    assert (p - q) * n == p * n - q * n;
  }

  lemma ProductOfAbs(a: real, b: real)
    ensures Times(Abs(a), Abs(b)) == Abs(Times(a, b))
  {
    if a >= 0.0 && b >= 0.0 {
      NonNegativeProduct(a, b);
    } else if a >= 0.0 {
      NonNegativeProduct(a, -b);
    } else if b >= 0.0 {
      NonNegativeProduct(-a, b);
    } else {
      NonNegativeProduct(-a, -b);
    }
  }

  /** A ramp between non-negative ends moves by the rounding error times its steepness. */
  lemma RampMoves(v: real, v': real, zero: real, one: real)
    requires Near(v, v') && zero >= 0.0 && one >= 0.0
    ensures Abs(Ramp(v', zero, one) - Ramp(v, zero, one)) <= Steepness(zero, one) * EPSILON
  {
    if zero != one {
      var top, width := Larger(zero, one), Abs(one - zero);
      RampIsCapped(v, zero, one);
      RampIsCapped(v', zero, one);
      CappedMoves(v, v', top);
      hide Ramp, Steepness, Times, Near;
      RampsApart(Clamp(v, 0.0, top), Clamp(v', 0.0, top), zero, one);
      SteepnessTimesWidth(zero, one);
      SmallerFactor(Abs(Ramp(v', zero, one) - Ramp(v, zero, one)), Steepness(zero, one) * EPSILON, width);
    }
  }

  lemma RampsApart(c: real, c': real, zero: real, one: real)
    requires zero != one
    ensures Times(Abs(Ramp(c', zero, one) - Ramp(c, zero, one)), Abs(one - zero)) <= Abs(c' - c)
  {
    hide Times;
    var p, q := (c' - zero) / (one - zero), (c - zero) / (one - zero);
    QuotientsApart(c' - zero, c - zero, one - zero);
    TimesGrows(Abs(Clamp01(p) - Clamp01(q)), Abs(p - q), Abs(one - zero));
  }

  lemma SteepnessTimesWidth(zero: real, one: real)
    requires zero != one
    ensures Times(Steepness(zero, one) * EPSILON, Abs(one - zero)) == EPSILON * Larger(zero, one)
  {
    var top, width := Larger(zero, one), Abs(one - zero);
    var k := top / width;
    assert k * width == top;
    assert (k * EPSILON) * width == (k * width) * EPSILON;
  }

  // ---- The channels ----

  /** How far a channel's score can move, in units of the rounding error. */
  function Cost(cal: Calibration): (k: real)
    ensures k >= 1.0
    ensures k >= Steepness(cal.straightnessFloor, cal.straightnessCeil)
    ensures k >= Steepness(cal.flightCVFloor, cal.flightCVCeil)
  {
    Larger(1.0, Larger(Steepness(cal.straightnessFloor, cal.straightnessCeil),
                       Steepness(cal.flightCVFloor, cal.flightCVCeil)))
  }

  lemma ShortfallMoves(m: real, m': real, limit: real)
    requires Near(m, m') && limit > 0.0
    ensures Abs(Shortfall(m', limit) - Shortfall(m, limit)) <= EPSILON
  {
    if m > 0.0 {
      ShortfallIsClamped(m, limit);
      ShortfallIsClamped(m', limit);
      ClampedQuotientMoves(m, m', limit);
    }
  }

  lemma ShortfallIsClamped(m: real, limit: real)
    requires m > 0.0 && limit > 0.0
    ensures Shortfall(m, limit) == 1.0 - Clamp01(m / limit)
  {
    Quotients(m, limit);
  }

  lemma SaturatedMoves(r: real, r': real, at: real)
    requires Near(r, r') && r > 0.0 && at >= 0.0
    ensures Abs(Saturated(r', at) - Saturated(r, at)) <= EPSILON
  {
    if at > 0.0 {
      ClampedQuotientMoves(r, r', at);
    }
  }

  lemma DoubledMoves(r: real, r': real)
    requires Near(r, r') && r > 0.0
    ensures Abs(Clamp01(r' * 2.0) - Clamp01(r * 2.0)) <= EPSILON
  {}

  lemma Max3Moves(a: real, a': real, b: real, b': real, c: real, c': real, d: real)
    requires Abs(a' - a) <= d && Abs(b' - b) <= d && Abs(c' - c) <= d
    ensures Abs(Max3(a', b', c') - Max3(a, b, c)) <= d
  {}

  lemma PointerScoreMoves(cal: Calibration, a: Segmentation.PointerState, b: Segmentation.PointerState, w: real)
    requires Accepted(cal) && w > 0.0
    requires a.segments == b.segments && Near(a.straightness, b.straightness)
    ensures Abs(PointerChannel(cal, b, w).score - PointerChannel(cal, a, w).score) <= Cost(cal) * EPSILON
  {
    RampMoves(a.straightness, b.straightness, cal.straightnessFloor, cal.straightnessCeil);
    hide Cost, Steepness, Ramp, Near;
    Scaled(Steepness(cal.straightnessFloor, cal.straightnessCeil), Cost(cal));
  }

  lemma Scaled(k: real, cost: real)
    requires k <= cost
    ensures k * EPSILON <= cost * EPSILON
  {}

  lemma KeystrokeScoreMoves(cal: Calibration, a: Rhythm.KeystrokeState, b: Rhythm.KeystrokeState, w: real)
    requires Accepted(cal) && w > 0.0 && a.intervals == b.intervals
    requires Near(a.flightCV, b.flightCV) && Near(a.meanDwellMs, b.meanDwellMs)
    requires Near(a.exactRepeatRatio, b.exactRepeatRatio)
    ensures Abs(KeystrokeChannel(cal, b, w).score - KeystrokeChannel(cal, a, w).score) <= Cost(cal) * EPSILON
  {
    var r, at := a.exactRepeatRatio, cal.identicalIntervalRatio;
    var rhythm := Ramp(a.flightCV, cal.flightCVFloor, cal.flightCVCeil);
    var rhythm' := Ramp(b.flightCV, cal.flightCVFloor, cal.flightCVCeil);
    var dwell, dwell' := Shortfall(a.meanDwellMs, cal.dwellAbsentMs), Shortfall(b.meanDwellMs, cal.dwellAbsentMs);
    var same := if r > 0.0 then Saturated(r, at) else 0.0;
    var same' := if b.exactRepeatRatio > 0.0 then Saturated(b.exactRepeatRatio, at) else 0.0;
    RampMoves(a.flightCV, b.flightCV, cal.flightCVFloor, cal.flightCVCeil);
    ShortfallMoves(a.meanDwellMs, b.meanDwellMs, cal.dwellAbsentMs);
    if r > 0.0 {
      SaturatedMoves(r, b.exactRepeatRatio, at);
    }
    assert Abs(same' - same) <= EPSILON;
    hide Cost, Steepness, Ramp, Near, Saturated, Shortfall, Max3;
    Scaled(Steepness(cal.flightCVFloor, cal.flightCVCeil), Cost(cal));
    Scaled(1.0, Cost(cal));
    Max3Moves(rhythm, rhythm', dwell, dwell', same, same', Cost(cal) * EPSILON);
  }

  function Programmatic(st: Interaction.InteractionState): real {
    if st.programmaticScrollRatio > 0.0 then Clamp01(st.programmaticScrollRatio * 2.0) else 0.0
  }

  function InjectedScore(st: Interaction.InteractionState): real {
    if st.injections > 0 then Clamp01(0.55 + 0.25 * st.injectedFields as real) else 0.0
  }

  lemma InteractionScore(st: Interaction.InteractionState, w: real)
    requires w > 0.0 && !NoStructure(st)
    ensures InteractionChannel(st, w).score
         == Max3(Programmatic(st), if st.focusTransitions == 0 then 0.6 else 0.0, InjectedScore(st))
  {}

  lemma InteractionScoreMoves(
    cal: Calibration, a: Interaction.InteractionState, b: Interaction.InteractionState, w: real)
    requires w > 0.0 && b == a.(programmaticScrollRatio := b.programmaticScrollRatio)
    requires Near(a.programmaticScrollRatio, b.programmaticScrollRatio)
    ensures Abs(InteractionChannel(b, w).score - InteractionChannel(a, w).score) <= Cost(cal) * EPSILON
  {
    Scaled(1.0, Cost(cal));
    if !NoStructure(a) {
      ProgrammaticMoves(a, b);
      InteractionScore(a, w);
      InteractionScore(b, w);
      assert InjectedScore(b) == InjectedScore(a);
      hide Cost, Near, Max3, Programmatic, InjectedScore, InteractionChannel;
      var noFocus := if a.focusTransitions == 0 then 0.6 else 0.0;
      Max3Moves(Programmatic(a), Programmatic(b), noFocus, noFocus, InjectedScore(a), InjectedScore(b),
                Cost(cal) * EPSILON);
    }
  }

  lemma ProgrammaticMoves(a: Interaction.InteractionState, b: Interaction.InteractionState)
    requires Near(a.programmaticScrollRatio, b.programmaticScrollRatio)
    ensures Abs(Programmatic(b) - Programmatic(a)) <= EPSILON
  {
    if a.programmaticScrollRatio > 0.0 {
      DoubledMoves(a.programmaticScrollRatio, b.programmaticScrollRatio);
    }
  }

  /** Every channel's score moves by at most the cost; only the first one's mass moves, and by its own share. */
  lemma ScoresMove(cal: Calibration, round: Rounding, a: State, b: State, action: string)
    requires Accepted(cal) && Close(round, a, b)
    ensures var cs, ds := Channels(cal, a, action), Channels(cal, b, action);
      && Abs(ds[0].score - cs[0].score) <= Cost(cal) * EPSILON
      && Abs(ds[1].score - cs[1].score) <= Cost(cal) * EPSILON
      && Abs(ds[2].score - cs[2].score) <= Cost(cal) * EPSILON
  {
    hide Near, Cost, Accepted, PointerChannel, KeystrokeChannel, InteractionChannel;
    var w := WeightsFor(action);
    PointerScoreMoves(cal, a.pointer, b.pointer, w.pointer);
    KeystrokeScoreMoves(cal, a.keystroke, b.keystroke, w.keystroke);
    InteractionScoreMoves(cal, a.interaction, b.interaction, w.interaction);
  }

  // ---- The average ----

  /** Three scores and their masses. */
  datatype Mix = Mix(s: real, t: real, u: real, e: real, f: real, g: real) {
    function Scored(): real {
      Times(s, e) + Times(t, f) + Times(u, g)
    }

    function Total(): real {
      e + f + g
    }
  }

  lemma TermMoves(e: real, x: real, d: real)
    requires e >= 0.0 && Abs(x) <= d
    ensures Abs(Times(e, x)) <= Times(d, e)
  {
    NonNegativeProduct(e, d - x);
    NonNegativeProduct(e, d + x);
    assert e * (d - x) == e * d - e * x && e * (d + x) == e * d + e * x;
  }

  lemma ShareMovesLittle(e: real, move: real, x: real)
    requires e >= 0.0 && Abs(move) <= EPSILON * e && Abs(x) <= 1.0
    ensures Abs(Times(move, x)) <= EPSILON * e
  {
    ProductOfAbs(move, x);
    NonNegativeProduct(Abs(move), 1.0 - Abs(x));
    assert Abs(move) * (1.0 - Abs(x)) == Abs(move) - Abs(move) * Abs(x);
  }

  /** How far one mix is from another's average. */
  lemma MixIdentity(m: Mix, m': Mix, avg: real)
    requires m'.f == m.f && m'.g == m.g && m'.Scored() == Times(avg, m'.Total())
    ensures m.Scored() - Times(avg, m.Total())
         == Times(m.e, m.s - m'.s) + Times(m.f, m.t - m'.t) + Times(m.g, m.u - m'.u) - Times(m'.e - m.e, m'.s - avg)
  {}

  lemma MixApart(m: Mix, m': Mix, avg: real, d: real)
    requires m.e >= 0.0 && m.f >= 0.0 && m.g >= 0.0 && Unit(avg) && Unit(m'.s)
    requires m'.f == m.f && m'.g == m.g && Abs(m'.e - m.e) <= EPSILON * m.e
    requires m'.Scored() == Times(avg, m'.Total())
    requires Abs(m.s - m'.s) <= d && Abs(m.t - m'.t) <= d && Abs(m.u - m'.u) <= d
    ensures Abs(m.Scored() - Times(avg, m.Total())) <= Times(d + EPSILON, m.Total())
  {
    hide Times;
    MixIdentity(m, m', avg);
    TermMoves(m.e, m.s - m'.s, d);
    TermMoves(m.f, m.t - m'.t, d);
    TermMoves(m.g, m.u - m'.u, d);
    ShareMovesLittle(m.e, m'.e - m.e, m'.s - avg);
    SumOfShares(m.e, m.f, m.g, d);
  }

  lemma SumOfShares(e: real, f: real, g: real, d: real)
    requires e >= 0.0 && f >= 0.0 && g >= 0.0
    ensures Times(d, e) + Times(d, f) + Times(d, g) + EPSILON * e <= Times(d + EPSILON, e + f + g)
  {
    assert (d + EPSILON) * (e + f + g) == d * e + d * f + d * g + EPSILON * e + EPSILON * f + EPSILON * g;
  }

  lemma AverageApart(scored: real, total: real, avg: real, h: real)
    requires total > 0.0 && Abs(scored - Times(avg, total)) <= Times(h, total)
    ensures Abs(scored / total - avg) <= h
  {
    var q := scored / total;
    assert q * total == scored;
    assert (avg + h) * total == avg * total + h * total && (avg - h) * total == avg * total - h * total;
    Below(q, avg + h, total);
    Below(avg - h, q, total);
  }

  lemma AverageTimesTotal(scored: real, total: real)
    requires total > 0.0
    ensures scored == Times(scored / total, total)
  {
    Rhythm.DivideBack(scored, total);
  }

  lemma MixMoves(m: Mix, m': Mix, d: real)
    requires m.e >= 0.0 && m.f >= 0.0 && m.g >= 0.0 && m.Total() > 0.0 && m'.Total() > 0.0
    requires m'.f == m.f && m'.g == m.g && Abs(m'.e - m.e) <= EPSILON * m.e
    requires Abs(m.s - m'.s) <= d && Abs(m.t - m'.t) <= d && Abs(m.u - m'.u) <= d
    requires Unit(m'.s) && Unit(m'.Scored() / m'.Total())
    ensures Abs(m.Scored() / m.Total() - m'.Scored() / m'.Total()) <= d + EPSILON
  {
    hide Times, Mix.Scored;
    var avg := m'.Scored() / m'.Total();
    AverageTimesTotal(m'.Scored(), m'.Total());
    MixApart(m, m', avg, d);
    AverageApart(m.Scored(), m.Total(), avg, d + EPSILON);
  }

  function MixOf(cs: seq<Channel>): Mix
    requires |cs| == 3
  {
    Mix(cs[0].score, cs[1].score, cs[2].score, Mass(cs[0]), Mass(cs[1]), Mass(cs[2]))
  }

  lemma MixOfIs(cs: seq<Channel>)
    requires |cs| == 3
    ensures MixOf(cs).Scored() == ScoredMass(cs) && MixOf(cs).Total() == TotalMass(cs)
  {
    hide Mass, ScoredMass, TotalMass;
    ThreeChannels(cs);
  }

  lemma MassMoves(c: Channel, d: Channel)
    requires c.weight == d.weight > 0.0 && Abs(d.confidence - c.confidence) <= EPSILON * c.confidence
    ensures Abs(Mass(d) - Mass(c)) <= EPSILON * Mass(c)
  {
    var w, move := c.weight, d.confidence - c.confidence;
    TermMoves(w, move, EPSILON * c.confidence);
    assert w * move == Mass(d) - Mass(c);
    assert (EPSILON * c.confidence) * w == EPSILON * Mass(c);
  }

  lemma SameMass(c: Channel, d: Channel)
    requires c.weight == d.weight && c.confidence == d.confidence
    ensures Mass(c) == Mass(d)
  {}

  lemma ScoreOfMoves(cs: seq<Channel>, ds: seq<Channel>, d: real)
    requires |cs| == |ds| == 3 && AllSound(cs) && AllSound(ds) && d >= 0.0
    requires Abs(Mass(ds[0]) - Mass(cs[0])) <= EPSILON * Mass(cs[0])
    requires Mass(ds[1]) == Mass(cs[1]) && Mass(ds[2]) == Mass(cs[2]) && Speaking(ds) == Speaking(cs)
    requires Abs(ds[0].score - cs[0].score) <= d && Abs(ds[1].score - cs[1].score) <= d
    requires Abs(ds[2].score - cs[2].score) <= d
    ensures Abs(ScoreOf(ds) - ScoreOf(cs)) <= d + EPSILON
  {
    hide Mass, Speaking, ScoredMass, TotalMass, AllSound, Mix.Scored, Mix.Total;
    MassIsSpoken(cs);
    MassIsSpoken(ds);
    if Speaking(cs) > 0 {
      Scoring.UnitAverage(cs);
      Scoring.UnitAverage(ds);
      MassesOfSound(cs);
      MassesOfSound(ds);
      MixOfIs(cs);
      MixOfIs(ds);
      MixMoves(MixOf(cs), MixOf(ds), d);
    }
  }

  lemma MassesOfSound(cs: seq<Channel>)
    requires |cs| == 3 && AllSound(cs)
    ensures Mass(cs[0]) >= 0.0 && Mass(cs[1]) >= 0.0 && Mass(cs[2]) >= 0.0 && Unit(cs[0].score)
  {
    hide Mass;
    assert Sound(cs[0]) && Sound(cs[1]) && Sound(cs[2]);
    MassOfSound(cs[0]);
    MassOfSound(cs[1]);
    MassOfSound(cs[2]);
  }

  /**
   The cost of the split to a score: for every state and action it moves by at most the rounding
   error times one more than the steepness of the calibration's ramps.
   */
  lemma ScoreErrorBound(cal: Calibration, round: Rounding, st: State, action: string)
    requires Accepted(cal) && IsRounding(round)
    ensures Abs(Judged(cal, RoundTrip(round, st), action).score - Judged(cal, st, action).score)
         <= (Cost(cal) + 1.0) * EPSILON
  {
    hide IsRounding, Close, Channels, Accepted, RoundTrip, ConfidenceOf, ScoreOf, ReasonsOf, Cost, Speaking, Mass,
      Times;
    var st' := RoundTrip(round, st);
    RoundTripIsClose(round, st);
    SplitErrorBound(cal, round, st, action);
    var cs, ds := Channels(cal, st, action), Channels(cal, st', action);
    ChannelsMove(cal, st, st', round, action);
    ScoresMove(cal, round, st, st', action);
    assert Sound(cs[0]);
    hide AllSound, Sound;
    MassMoves(cs[0], ds[0]);
    SameMass(cs[1], ds[1]);
    SameMass(cs[2], ds[2]);
    ScoreOfMoves(cs, ds, Cost(cal) * EPSILON);
  }

  // ---- Decisions ----

  /** Not within `margin` below or above a threshold. */
  predicate Clear(x: real, threshold: real, margin: real) {
    x >= threshold + margin || x < threshold - margin
  }

  /** Away from the four thresholds the split changes no decision, and so no outcome in either mode. */
  lemma DecisionSurvives(cal: Calibration, round: Rounding, st: State, action: string, mode: string)
    requires Accepted(cal) && IsRounding(round)
    requires var j, m := Judged(cal, st, action), (Cost(cal) + 1.0) * EPSILON;
      && Clear(j.score, cal.scoreToBlock, m) && Clear(j.score, cal.scoreToChallenge, m)
      && Clear(j.confidence, cal.minConfidenceToBlock, HALF_EPSILON)
      && Clear(j.confidence, cal.minConfidenceToChallenge, HALF_EPSILON)
    ensures var j, j' := Judged(cal, st, action), Judged(cal, RoundTrip(round, st), action);
      Enforced(cal, j') == Enforced(cal, j) && Apply(cal, j', mode) == Apply(cal, j, mode)
  {
    SplitErrorBound(cal, round, st, action);
    ScoreErrorBound(cal, round, st, action);
    hide Judged, RoundTrip, Cost, Accepted, IsRounding;
  }

  /** The calibration the service is built with. */
  const BUILT_IN := Calibration(0.90, 0.995, 0.45, 0.12, 12.0, 0.25, 6.0, 1500.0, 20.0, 0.40, 0.70, 0.50, 0.80, 2)

  /** Under it a score moves by less than one part in a million. */
  lemma BuiltInCost(round: Rounding, st: State, action: string)
    requires IsRounding(round)
    ensures Accepted(BUILT_IN)
    ensures Abs(Judged(BUILT_IN, RoundTrip(round, st), action).score - Judged(BUILT_IN, st, action).score)
         < 0.000001
  {
    assert Steepness(0.90, 0.995) == 0.995 / 0.095 && Steepness(0.45, 0.12) == 0.45 / 0.33;
    assert Cost(BUILT_IN) < 11.0;
    ScoreErrorBound(BUILT_IN, round, st, action);
  }
}
