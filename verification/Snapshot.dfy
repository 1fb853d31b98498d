/**
 Session state carried across a process boundary. Ratios travel as 32-bit floats, counts as they
 are; `round` is that narrowing.
 */
module Snapshot {
  import opened Wrappers
  import opened Geometry
  import Segmentation
  import Rhythm
  import Interaction
  import opened Policy

  type Rounding = real -> real

  /** The relative error of a 32-bit float, 2^-24, and half of it. */
  const EPSILON: real := 1.0 / 16777216.0
  const HALF_EPSILON: real := 1.0 / 33554432.0

  function Abs(x: real): real {
    if x < 0.0 then -x else x
  }

  /** Rounds to a nearby value of the same sign, and leaves what is already rounded. */
  ghost predicate IsRounding(round: Rounding) {
    forall x: real :: Rounds(round, x)
  }

  ghost predicate Rounds(round: Rounding, x: real) {
    && round(round(x)) == round(x)
    && (round(x) > 0.0 <==> x > 0.0) && (round(x) < 0.0 <==> x < 0.0)
    && Abs(round(x) - x) <= EPSILON * Abs(x)
  }

  /** The wire form. */
  datatype FeatureState = FeatureState(
    pointerStraightness: real, pointerSegments: nat, pointerPathPx: real, pointerPoints: nat,
    keyFlightCv: real, keyDwellCv: real, keyMeanDwellMs: real, keyExactRepeatRatio: real, keyIntervals: nat,
    programmaticScrollRatio: real, scrollEvents: nat, focusTransitions: nat, hiddenPeriods: nat, pastes: nat,
    injections: nat, injectedFields: nat, autofills: nat, distinctFocusTargets: nat, keyEvents: nat)

  function FromState(round: Rounding, st: State): FeatureState {
    FeatureState(
      round(st.pointer.straightness), st.pointer.segments, round(st.pointer.pathPx), st.pointer.points,
      round(st.keystroke.flightCV), round(st.keystroke.dwellCV), round(st.keystroke.meanDwellMs),
      round(st.keystroke.exactRepeatRatio), st.keystroke.intervals, round(st.interaction.programmaticScrollRatio),
      st.interaction.scrollEvents, st.interaction.focusTransitions, st.interaction.hiddenPeriods,
      st.interaction.pastes, st.interaction.injections, st.interaction.injectedFields, st.interaction.autofills,
      st.interaction.distinctFocusTargets, st.keystroke.keys)
  }

  const NO_STATE := State(
    Segmentation.PointerState(0.0, 0, 0.0, 0),
    Rhythm.KeystrokeState(0.0, 0.0, 0.0, 0.0, 0, 0),
    Interaction.InteractionState(0.0, 0, 0, 0, 0, 0, 0, 0, 0))

  /** A field that never arrived is zero. */
  function ToState(wire: Option<FeatureState>): State {
    match wire
    case None => NO_STATE
    case Some(f) =>
      State(
        Segmentation.PointerState(f.pointerStraightness, f.pointerSegments, f.pointerPathPx, f.pointerPoints),
        Rhythm.KeystrokeState(
          f.keyFlightCv, f.keyDwellCv, f.keyMeanDwellMs, f.keyExactRepeatRatio, f.keyIntervals, f.keyEvents),
        Interaction.InteractionState(
          f.programmaticScrollRatio, f.scrollEvents, f.focusTransitions, f.distinctFocusTargets, f.hiddenPeriods,
          f.pastes, f.autofills, f.injections, f.injectedFields))
  }

  /** The state another process judges. */
  function RoundTrip(round: Rounding, st: State): State {
    ToState(Some(FromState(round, st)))
  }

  /** The same counts, and ratios of the same sign within the rounding error. */
  ghost predicate Close(round: Rounding, a: State, b: State) {
    && b.pointer == a.pointer.(straightness := b.pointer.straightness, pathPx := b.pointer.pathPx)
    && b.keystroke == a.keystroke.(flightCV := b.keystroke.flightCV, dwellCV := b.keystroke.dwellCV,
                                   meanDwellMs := b.keystroke.meanDwellMs,
                                   exactRepeatRatio := b.keystroke.exactRepeatRatio)
    && b.interaction == a.interaction.(programmaticScrollRatio := b.interaction.programmaticScrollRatio)
    && Near(a.pointer.straightness, b.pointer.straightness) && Near(a.pointer.pathPx, b.pointer.pathPx)
    && Near(a.keystroke.flightCV, b.keystroke.flightCV) && Near(a.keystroke.dwellCV, b.keystroke.dwellCV)
    && Near(a.keystroke.meanDwellMs, b.keystroke.meanDwellMs)
    && Near(a.keystroke.exactRepeatRatio, b.keystroke.exactRepeatRatio)
    && Near(a.interaction.programmaticScrollRatio, b.interaction.programmaticScrollRatio)
  }

  ghost predicate Near(x: real, y: real) {
    (y > 0.0 <==> x > 0.0) && (y < 0.0 <==> x < 0.0) && Abs(y - x) <= EPSILON * Abs(x)
  }

  lemma RoundsNear(round: Rounding, x: real)
    requires IsRounding(round)
    ensures Near(x, round(x)) && round(round(x)) == round(x)
  {
    assert Rounds(round, x);
  }

  /** No count changes, every ratio keeps its sign, and a second trip costs nothing more. */
  lemma RoundTripIsClose(round: Rounding, st: State)
    requires IsRounding(round)
    ensures Close(round, st, RoundTrip(round, st))
    ensures RoundTrip(round, RoundTrip(round, st)) == RoundTrip(round, st)
  {
    RoundsNear(round, st.pointer.straightness);
    RoundsNear(round, st.pointer.pathPx);
    RoundsNear(round, st.keystroke.flightCV);
    RoundsNear(round, st.keystroke.dwellCV);
    RoundsNear(round, st.keystroke.meanDwellMs);
    RoundsNear(round, st.keystroke.exactRepeatRatio);
    RoundsNear(round, st.interaction.programmaticScrollRatio);
    hide IsRounding, Near;
  }

  /** On the wire every figure goes under its own name: ratios rounded, counts as they are. */
  lemma WireNames(round: Rounding, st: State)
    ensures var f, p, k, i := FromState(round, st), st.pointer, st.keystroke, st.interaction;
      && f.pointerStraightness == round(p.straightness) && f.pointerPathPx == round(p.pathPx)
      && f.pointerSegments == p.segments && f.pointerPoints == p.points
      && f.keyFlightCv == round(k.flightCV) && f.keyDwellCv == round(k.dwellCV)
      && f.keyMeanDwellMs == round(k.meanDwellMs) && f.keyExactRepeatRatio == round(k.exactRepeatRatio)
      && f.keyIntervals == k.intervals && f.keyEvents == k.keys
      && f.programmaticScrollRatio == round(i.programmaticScrollRatio) && f.scrollEvents == i.scrollEvents
      && f.focusTransitions == i.focusTransitions && f.distinctFocusTargets == i.distinctFocusTargets
      && f.hiddenPeriods == i.hiddenPeriods && f.pastes == i.pastes && f.autofills == i.autofills
      && f.injections == i.injections && f.injectedFields == i.injectedFields
  {}

  /** What never arrives is judged as a session nothing is known of. */
  lemma NothingArrived(cal: Calibration, action: string)
    requires Accepted(cal)
    ensures var j := Judged(cal, ToState(None), action);
      j.score == 0.0 && j.confidence == 0.0 && j.contributing == 0 && Enforced(cal, j) != Block
  {
    SilenceIsNotBlocked(cal, ToState(None), action);
    hide Judged, Enforced, Accepted;
  }

  // ---- What it costs a judgement ----

  /** A clamped quotient moves by no more than the relative error of itself. */
  lemma ClampedQuotientMoves(p: real, p': real, n: real)
    requires Near(p, p') && n > 0.0
    ensures Abs(Clamp01(p' / n) - Clamp01(p / n)) <= EPSILON * Clamp01(p / n) <= EPSILON
  {
    if p <= 0.0 {
      NothingOver(n);
      Divided(p, 0.0, n);
      Divided(p', 0.0, n);
    } else {
      QuotientMoves(p, p', n);
      SmallShare(p / n);
    }
  }

  lemma QuotientMoves(p: real, p': real, n: real)
    requires Near(p, p') && p > 0.0 && n > 0.0
    ensures p / n >= 0.0 && p / n - EPSILON * (p / n) <= p' / n <= p / n + EPSILON * (p / n)
  {
    var q, q' := p / n, p' / n;
    assert q * n == p && q' * n == p';
    NothingOver(n);
    Divided(0.0, p, n);
    var d := EPSILON * q;
    assert d * n == EPSILON * p;
    assert (q + d) * n == p + EPSILON * p && (q - d) * n == p - EPSILON * p;
    Below(q', q + d, n);
    Below(q - d, q', n);
  }

  lemma Below(a: real, b: real, n: real)
    requires a * n <= b * n && n > 0.0
    ensures a <= b
  {
    if a > b {
      SmallerProduct(b, a, n);
    }
  }

  lemma SmallShare(q: real)
    requires q >= 0.0
    ensures q <= 1.0 ==> EPSILON * q <= EPSILON
    ensures q >= 1.0 ==> q - EPSILON * q >= 1.0 - EPSILON
  {}

  lemma PointerConfidenceMoves(cal: Calibration, segments: nat, p: real, p': real)
    requires Accepted(cal) && Near(p, p')
    ensures Abs(PointerConfidence(cal, segments, p') - PointerConfidence(cal, segments, p)) <= HALF_EPSILON
    ensures Abs(PointerConfidence(cal, segments, p') - PointerConfidence(cal, segments, p))
         <= EPSILON * PointerConfidence(cal, segments, p)
    ensures PointerConfidence(cal, segments, p') > 0.0 <==> PointerConfidence(cal, segments, p) > 0.0
  {
    ClampedQuotientMoves(p, p', cal.confidencePathPx);
    if segments > 0 {
      PositiveQuotient(segments as real, cal.confidenceSegments);
    }
  }

  lemma PositiveQuotient(a: real, n: real)
    requires a > 0.0 && n > 0.0
    ensures a / n > 0.0
  {
    var q := a / n;
    assert q * n == a;
    if q <= 0.0 {
      NonNegativeProduct(-q, n);
    }
  }

  /** Only the pointer channel's confidence can move at all. */
  lemma ChannelsMove(cal: Calibration, a: State, b: State, round: Rounding, action: string)
    requires Accepted(cal) && Close(round, a, b)
    ensures var cs, ds := Channels(cal, a, action), Channels(cal, b, action);
      && Abs(ds[0].confidence - cs[0].confidence) <= HALF_EPSILON
      && Abs(ds[0].confidence - cs[0].confidence) <= EPSILON * cs[0].confidence
      && (ds[0].confidence > 0.0 <==> cs[0].confidence > 0.0) && ds[0].weight == cs[0].weight
      && ds[1].confidence == cs[1].confidence && ds[1].weight == cs[1].weight
      && ds[2].confidence == cs[2].confidence && ds[2].weight == cs[2].weight
  {
    PointerConfidenceMoves(cal, a.pointer.segments, a.pointer.pathPx, b.pointer.pathPx);
    hide Accepted, PointerConfidence, KeystrokeConfidence;
  }

  lemma ShareMoves(x: real, y: real, most: real, h: real)
    requires most > 0.0 && y <= x + h * most
    ensures y / most <= x / most + h
  {
    var p, q := x / most, y / most;
    assert p * most == x && q * most == y;
    assert (p + h) * most == p * most + h * most;
    Below(q, p + h, most);
  }

  /** The first of several shares of the heaviest weight moves their sum by no more than itself. */
  lemma SharesMove(c: Channel, d: Channel, rest: real, most: real)
    requires 0.0 < c.weight == d.weight <= most && Abs(d.confidence - c.confidence) <= HALF_EPSILON
    ensures Abs((Mass(d) + rest) / most - (Mass(c) + rest) / most) <= HALF_EPSILON
  {
    WeightedMove(c, d, most);
    WeightedMove(d, c, most);
    hide Mass;
    ShareMoves(Mass(c) + rest, Mass(d) + rest, most, HALF_EPSILON);
    ShareMoves(Mass(d) + rest, Mass(c) + rest, most, HALF_EPSILON);
  }

  lemma WeightedMove(c: Channel, d: Channel, most: real)
    requires 0.0 < c.weight == d.weight <= most && d.confidence - c.confidence <= HALF_EPSILON
    ensures Mass(d) <= Mass(c) + HALF_EPSILON * most
  {
    var w, move := c.weight, d.confidence - c.confidence;
    NonNegativeProduct(w, HALF_EPSILON - move);
    assert w * (HALF_EPSILON - move) == w * HALF_EPSILON - w * move;
    assert w * move == Mass(d) - Mass(c);
    NonNegativeProduct(HALF_EPSILON, most - w);
  }

  /**
   The cost of the split: for every state and action the same number of channels contributes, and
   confidence moves by at most 2^-25.
   */
  lemma SplitErrorBound(cal: Calibration, round: Rounding, st: State, action: string)
    requires Accepted(cal) && IsRounding(round)
    ensures var j, j' := Judged(cal, st, action), Judged(cal, RoundTrip(round, st), action);
      && j'.contributing == j.contributing
      && Abs(j'.confidence - j.confidence) <= HALF_EPSILON
  {
    hide IsRounding, Close, Channels, Accepted, Sound, RoundTrip, ConfidenceOf, ScoreOf, ReasonsOf, Speaking;
    var st' := RoundTrip(round, st);
    RoundTripIsClose(round, st);
    var cs, ds := Channels(cal, st, action), Channels(cal, st', action);
    ChannelsMove(cal, st, st', round, action);
    assert Sound(cs[0]) && Sound(ds[0]);
    SameHeaviest(cs, ds);
    TotalsMove(cs, ds);
  }

  lemma TotalsMove(cs: seq<Channel>, ds: seq<Channel>)
    requires |cs| == |ds| == 3 && AllSound(cs) && Sound(cs[0])
    requires Heaviest(cs) == Heaviest(ds) && cs[0].weight == ds[0].weight
    requires Abs(ds[0].confidence - cs[0].confidence) <= HALF_EPSILON
    requires ds[0].confidence > 0.0 <==> cs[0].confidence > 0.0
    requires Mass(ds[1]) == Mass(cs[1]) && ds[1].confidence == cs[1].confidence
    requires Mass(ds[2]) == Mass(cs[2]) && ds[2].confidence == cs[2].confidence
    ensures Abs(ConfidenceOf(ds) - ConfidenceOf(cs)) <= HALF_EPSILON
    ensures Speaking(ds) == Speaking(cs)
  {
    ThreeChannels(cs);
    ThreeChannels(ds);
    hide AllSound, Speaking, TotalMass, Mass;
    var rest, most := Mass(cs[1]) + Mass(cs[2]), Heaviest(cs);
    SharesMove(cs[0], ds[0], rest, most);
    ConfidencesFromShares(cs, ds, (Mass(cs[0]) + rest) / most, (Mass(ds[0]) + rest) / most);
  }

  lemma ConfidencesFromShares(cs: seq<Channel>, ds: seq<Channel>, p: real, q: real)
    requires Heaviest(cs) == Heaviest(ds) > 0.0
    requires p == TotalMass(cs) / Heaviest(cs) && q == TotalMass(ds) / Heaviest(ds)
    requires Abs(q - p) <= HALF_EPSILON
    ensures Abs(ConfidenceOf(ds) - ConfidenceOf(cs)) <= HALF_EPSILON
  {}

  lemma SameHeaviest(cs: seq<Channel>, ds: seq<Channel>)
    requires |cs| == |ds| && forall i :: 0 <= i < |cs| ==> cs[i].weight == ds[i].weight
    ensures Heaviest(cs) == Heaviest(ds)
  {}
}
