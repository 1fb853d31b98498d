/**
 Pointer features computed the slow way: from the whole history at once. A history is split at
 pauses and at sharp corners, every leg is measured from its own points, and the legs that
 qualify are averaged. Nothing here is incremental; `Pointer` is proved to compute this.
 */
module Segmentation {
  import opened Wrappers
  import opened Geometry

  const SEGMENT_GAP_MS: nat := 300
  const MIN_SEGMENT_POINTS: nat := 4
  const MIN_SEGMENT_PATH_PX: real := 40.0
  const MIN_TURN_STEP_PX: real := 4.0

  /** One sample of a history: where, when in the session, and how long after the one before. */
  datatype Sample = Sample(spot: Spot, at: nat, gap: nat)

  type History = seq<Sample>

  /** The feature vector. */
  datatype PointerState = PointerState(straightness: real, segments: nat, pathPx: real, points: nat)

  // ---- From polylines to a history ----

  /** The samples of a polyline after its first, each timed by its own gap. */
  function Timed(at: nat, pts: seq<Point>): (h: History)
    ensures |h| == |pts|
    decreases |pts|
  {
    if pts == [] then []
    else [Sample(pts[0].spot, at + pts[0].dtMs, pts[0].dtMs)] + Timed(at + pts[0].dtMs, pts[1..])
  }

  /** The time between a history and a polyline that starts at `startMs`; none if it runs backwards. */
  function GapBefore(h: History, startMs: nat): nat {
    if h != [] && startMs > h[|h| - 1].at then startMs - h[|h| - 1].at else 0
  }

  /** A history with one more polyline. */
  function Extend(h: History, startMs: nat, pts: seq<Point>): History {
    if pts == [] then h else h + [Sample(pts[0].spot, startMs, GapBefore(h, startMs))] + Timed(startMs, pts[1..])
  }

  // ---- Where it is split ----

  predicate Paused(h: History, i: nat)
    requires 0 < i < |h|
  {
    h[i].gap > SEGMENT_GAP_MS
  }

  function Step(h: History, i: nat): Vector
    requires 0 < i < |h|
  {
    Between(h[i - 1].spot, h[i].spot)
  }

  function StepPx(root: RootFn, h: History, i: nat): real
    requires 0 < i < |h|
  {
    Length(root, Step(h, i))
  }

  /** A step long enough for its direction to mean something. */
  predicate Trusted(root: RootFn, h: History, i: nat)
    requires 0 < i < |h|
  {
    StepPx(root, h, i) >= MIN_TURN_STEP_PX
  }

  /** The last trusted direction at sample `i`, going back no further than the last pause. */
  function Heading(root: RootFn, h: History, i: nat): Option<Vector>
    requires i < |h|
  {
    if i == 0 || Paused(h, i) then None
    else if Trusted(root, h, i) then Some(Step(h, i))
    else Heading(root, h, i - 1)
  }

  /** The step into sample `i` turns sharply from the heading before it. */
  predicate Corner(root: RootFn, h: History, i: nat)
    requires 0 < i < |h|
  {
    && !Paused(h, i)
    && Trusted(root, h, i)
    && Heading(root, h, i - 1).Some?
    && TurnsSharply(root, Heading(root, h, i - 1).value, Step(h, i))
  }

  /** A stretch of the history, both ends included. */
  datatype Leg = Leg(first: nat, last: nat)

  /** The legs from the one that starts at `a` and reaches at least `e`; a corner belongs to both its legs. */
  function LegsFrom(root: RootFn, h: History, a: nat, e: nat): seq<Leg>
    requires a <= e < |h|
    decreases |h| - e
  {
    if e + 1 == |h| then [Leg(a, e)]
    else if Paused(h, e + 1) then [Leg(a, e)] + LegsFrom(root, h, e + 1, e + 1)
    else if Corner(root, h, e + 1) then [Leg(a, e)] + LegsFrom(root, h, e, e + 1)
    else LegsFrom(root, h, a, e + 1)
  }

  function Legs(root: RootFn, h: History): seq<Leg> {
    if h == [] then [] else LegsFrom(root, h, 0, 0)
  }

  // ---- What a leg is worth ----

  predicate Within(h: History, g: Leg) {
    g.first <= g.last < |h|
  }

  function PathPx(root: RootFn, h: History, a: nat, b: nat): real
    requires a <= b < |h|
    decreases b
  {
    if a == b then 0.0 else PathPx(root, h, a, b - 1) + StepPx(root, h, b)
  }

  function LegPath(root: RootFn, h: History, g: Leg): real
    requires Within(h, g)
  {
    PathPx(root, h, g.first, g.last)
  }

  function NetPx(root: RootFn, h: History, g: Leg): real
    requires Within(h, g)
  {
    Dist(root, h[g.first].spot, h[g.last].spot)
  }

  predicate Qualifies(root: RootFn, h: History, g: Leg)
    requires Within(h, g)
  {
    g.last - g.first + 1 >= MIN_SEGMENT_POINTS && LegPath(root, h, g) >= MIN_SEGMENT_PATH_PX
  }

  function Straightness(root: RootFn, h: History, g: Leg): real
    requires Within(h, g) && Qualifies(root, h, g)
  {
    NetPx(root, h, g) / LegPath(root, h, g)
  }

  /** The straightness and path of a leg that qualifies. */
  function Worth(root: RootFn, h: History, g: Leg): Option<(real, real)>
    requires Within(h, g)
  {
    if Qualifies(root, h, g) then Some((Straightness(root, h, g), LegPath(root, h, g))) else None
  }

  /** Sums over the qualifying legs: how many, how long, and straightness weighted by length. */
  datatype Totals = Totals(weighted: real, path: real, count: nat)

  function AddLeg(root: RootFn, h: History, t: Totals, g: Leg): Totals
    requires Within(h, g)
  {
    match Worth(root, h, g)
    case None => t
    case Some((s, l)) => Totals(t.weighted + s * l, t.path + l, t.count + 1)
  }

  ghost predicate AllWithin(h: History, legs: seq<Leg>) {
    forall i :: 0 <= i < |legs| ==> Within(h, legs[i])
  }

  ghost function Sum(root: RootFn, h: History, legs: seq<Leg>): Totals
    requires AllWithin(h, legs)
  {
    if legs == [] then Totals(0.0, 0.0, 0)
    else AddLeg(root, h, Sum(root, h, legs[..|legs| - 1]), legs[|legs| - 1])
  }

  function StateOf(t: Totals, points: nat): PointerState {
    PointerState(if t.path > 0.0 then t.weighted / t.path else 0.0, t.count, t.path, points)
  }

  /** The feature vector of a whole history. */
  ghost function Offline(root: RootFn, h: History): PointerState {
    LegsAreWithin(root, h);
    StateOf(Sum(root, h, Legs(root, h)), |h|)
  }

  // ---- The legs of a history ----

  lemma {:induction false} LegsFromShape(root: RootFn, h: History, a: nat, e: nat)
    requires a <= e < |h|
    ensures var legs := LegsFrom(root, h, a, e);
      && AllWithin(h, legs)
      && legs != [] && legs[0].first == a && legs[|legs| - 1].last == |h| - 1
      && (forall i :: 0 <= i < |legs| - 1 ==> legs[i].last < |h| - 1)
    decreases |h| - e
  {
    if e + 1 < |h| {
      if Paused(h, e + 1) {
        LegsFromShape(root, h, e + 1, e + 1);
      } else if Corner(root, h, e + 1) {
        LegsFromShape(root, h, e, e + 1);
      } else {
        LegsFromShape(root, h, a, e + 1);
      }
    }
  }

  lemma LegsAreWithin(root: RootFn, h: History)
    ensures AllWithin(h, Legs(root, h))
    ensures h != [] ==>
      var legs := Legs(root, h);
      legs != [] && legs[|legs| - 1].last == |h| - 1 && (forall i :: 0 <= i < |legs| - 1 ==> legs[i].last < |h| - 1)
  {
    if h != [] {
      LegsFromShape(root, h, 0, 0);
    }
  }

  // ---- One more sample ----

  lemma {:induction false} HeadingIsStable(root: RootFn, h: History, x: Sample, i: nat)
    requires i < |h|
    ensures Heading(root, h + [x], i) == Heading(root, h, i)
  {
    if i > 0 {
      HeadingIsStable(root, h, x, i - 1);
    }
  }

  lemma {:induction false} PathIsStable(root: RootFn, h: History, x: Sample, a: nat, b: nat)
    requires a <= b < |h|
    ensures PathPx(root, h + [x], a, b) == PathPx(root, h, a, b)
    decreases b
  {
    if a < b {
      PathIsStable(root, h, x, a, b - 1);
    }
  }

  lemma {:induction false} SumIsStable(root: RootFn, h: History, x: Sample, legs: seq<Leg>)
    requires AllWithin(h, legs)
    ensures AllWithin(h + [x], legs) && Sum(root, h + [x], legs) == Sum(root, h, legs)
  {
    if legs != [] {
      var g := legs[|legs| - 1];
      SumIsStable(root, h, x, legs[..|legs| - 1]);
      PathIsStable(root, h, x, g.first, g.last);
    }
  }

  /** What the last leg of a history becomes when sample `x` arrives. */
  function LastLegs(root: RootFn, h: History, x: Sample, open: Leg): seq<Leg>
    requires h != []
  {
    var n, h' := |h|, h + [x];
    if Paused(h', n) then [open, Leg(n, n)]
    else if Corner(root, h', n) then [open, Leg(n - 1, n)]
    else [Leg(open.first, n)]
  }

  /** `legs'` is `legs` with its last leg as sample `x` leaves it. */
  predicate Continued(root: RootFn, h: History, x: Sample, legs: seq<Leg>, legs': seq<Leg>)
    requires h != []
  {
    legs != [] && legs' == legs[..|legs| - 1] + LastLegs(root, h, x, legs[|legs| - 1])
  }

  lemma ContinuedAfter(root: RootFn, h: History, x: Sample, g: Leg, legs: seq<Leg>, legs': seq<Leg>)
    requires h != [] && Continued(root, h, x, legs, legs')
    ensures Continued(root, h, x, [g] + legs, [g] + legs')
  {
    hide LastLegs;
    var all := [g] + legs;
    assert all[..|all| - 1] == [g] + legs[..|legs| - 1];
  }

  lemma LastLegContinues(root: RootFn, h: History, x: Sample, a: nat)
    requires a < |h|
    ensures Continued(root, h, x, LegsFrom(root, h, a, |h| - 1), LegsFrom(root, h + [x], a, |h| - 1))
  {
    var h', n := h + [x], |h|;
    hide Corner, Paused;
    assert LegsFrom(root, h, a, n - 1) == [Leg(a, n - 1)];
    assert LegsFrom(root, h', a, n) == [Leg(a, n)];
    assert LegsFrom(root, h', n, n) == [Leg(n, n)];
    assert LegsFrom(root, h', n - 1, n) == [Leg(n - 1, n)];
  }

  lemma CornersAreStable(root: RootFn, h: History, x: Sample, i: nat)
    requires 0 < i < |h|
    ensures Paused(h + [x], i) == Paused(h, i) && Corner(root, h + [x], i) == Corner(root, h, i)
  {
    HeadingIsStable(root, h, x, i - 1);
  }

  lemma {:induction false} LegsFromGrow(root: RootFn, h: History, x: Sample, a: nat, e: nat)
    requires a <= e < |h|
    ensures Continued(root, h, x, LegsFrom(root, h, a, e), LegsFrom(root, h + [x], a, e))
    decreases |h| - e
  {
    if e + 1 == |h| {
      LastLegContinues(root, h, x, a);
    } else {
      CornersAreStable(root, h, x, e + 1);
      hide Continued, Corner, Paused;
      if Paused(h, e + 1) {
        LegsFromGrow(root, h, x, e + 1, e + 1);
        ContinuedAfter(
          root, h, x, Leg(a, e), LegsFrom(root, h, e + 1, e + 1), LegsFrom(root, h + [x], e + 1, e + 1));
      } else if Corner(root, h, e + 1) {
        LegsFromGrow(root, h, x, e, e + 1);
        ContinuedAfter(root, h, x, Leg(a, e), LegsFrom(root, h, e, e + 1), LegsFrom(root, h + [x], e, e + 1));
      } else {
        LegsFromGrow(root, h, x, a, e + 1);
      }
    }
  }

  lemma LegsGrow(root: RootFn, h: History, x: Sample)
    requires h != []
    ensures Continued(root, h, x, Legs(root, h), Legs(root, h + [x]))
  {
    LegsFromGrow(root, h, x, 0, 0);
  }

  /** The legs that are over, and the one still in progress. */
  function Closed(root: RootFn, h: History): seq<Leg>
    requires h != []
  {
    LegsAreWithin(root, h);
    Legs(root, h)[..|Legs(root, h)| - 1]
  }

  function Open(root: RootFn, h: History): Leg
    requires h != []
  {
    LegsAreWithin(root, h);
    Legs(root, h)[|Legs(root, h)| - 1]
  }

  /** The totals of the legs that are over. */
  ghost function Banked(root: RootFn, h: History): Totals {
    if h == [] then Totals(0.0, 0.0, 0) else LegsAreWithin(root, h); Sum(root, h, Closed(root, h))
  }

  /**
   A new sample either ends the open leg, which is then banked, and starts another at itself
   (after a pause) or at the corner (after a turn); or it lengthens the open leg by one step.
   */
  lemma OneMoreSample(root: RootFn, h: History, x: Sample)
    requires h != []
    ensures var h', n, open := h + [x], |h|, Open(root, h);
      && Within(h, open) && Within(h', open)
      && LegPath(root, h', open) == LegPath(root, h, open)
      && (if Paused(h', n) then
            Open(root, h') == Leg(n, n) && Banked(root, h') == AddLeg(root, h, Banked(root, h), open)
          else if Corner(root, h', n) then
            Open(root, h') == Leg(n - 1, n) && Banked(root, h') == AddLeg(root, h, Banked(root, h), open)
          else
            Open(root, h') == Leg(open.first, n) && Banked(root, h') == Banked(root, h))
  {
    var h', n, open, closed := h + [x], |h|, Open(root, h), Closed(root, h);
    LegsAreWithin(root, h);
    LegsAreWithin(root, h');
    LegsGrow(root, h, x);
    PathIsStable(root, h, x, open.first, open.last);
    SumIsStable(root, h, x, closed);
    SumIsStable(root, h, x, Legs(root, h));
    assert Legs(root, h) == closed + [open];
    if Paused(h', n) || Corner(root, h', n) {
      assert Closed(root, h') == Legs(root, h);
    } else {
      assert Closed(root, h') == closed;
    }
  }

  lemma OfflineFromBanked(root: RootFn, h: History)
    requires h != []
    ensures Within(h, Open(root, h))
    ensures Offline(root, h) == StateOf(AddLeg(root, h, Banked(root, h), Open(root, h)), |h|)
  {
    LegsAreWithin(root, h);
  }

  lemma OfflineIsBankedAndOpen(root: RootFn, h: History)
    ensures h == [] ==> Offline(root, h) == StateOf(Totals(0.0, 0.0, 0), 0)
    ensures h != [] ==>
      (Within(h, Open(root, h)) && Offline(root, h) == StateOf(AddLeg(root, h, Banked(root, h), Open(root, h)), |h|))
  {
    if h != [] {
      OfflineFromBanked(root, h);
    }
  }

  // ---- Where a history stands ----

  /** All that the next sample needs to know of a history. */
  datatype Standing = Standing(
    banked: Totals, path: real, count: nat, first: Spot, last: Spot, heading: Option<Vector>)

  ghost function StandingOf(root: RootFn, h: History): Standing
    requires h != []
  {
    LegsAreWithin(root, h);
    var open := Open(root, h);
    Standing(Banked(root, h), LegPath(root, h, open), open.last - open.first + 1,
             h[open.first].spot, h[open.last].spot, Heading(root, h, |h| - 1))
  }

  lemma StandingOfOne(root: RootFn, x: Sample)
    ensures StandingOf(root, [x]) == Standing(Totals(0.0, 0.0, 0), 0.0, 1, x.spot, x.spot, None)
  {}

  lemma StandsLast(root: RootFn, h: History)
    requires h != []
    ensures StandingOf(root, h).last == h[|h| - 1].spot && Within(h, Open(root, h)) && Open(root, h).last == |h| - 1
  {
    LegsAreWithin(root, h);
  }

  /** The totals once the open leg ends. */
  ghost function Ended(root: RootFn, h: History): Totals
    requires h != []
  {
    LegsAreWithin(root, h);
    AddLeg(root, h, Banked(root, h), Open(root, h))
  }

  lemma StandingAfterPause(root: RootFn, h: History, x: Sample)
    requires h != [] && x.gap > SEGMENT_GAP_MS
    ensures StandingOf(root, h + [x]) == Standing(Ended(root, h), 0.0, 1, x.spot, x.spot, None)
  {
    OneMoreSample(root, h, x);
  }

  lemma StandingAfterCorner(root: RootFn, h: History, x: Sample)
    requires h != [] && x.gap <= SEGMENT_GAP_MS
    requires Corner(root, h + [x], |h|)
    ensures var step, last := Between(h[|h| - 1].spot, x.spot), h[|h| - 1].spot;
      StandingOf(root, h + [x]) == Standing(Ended(root, h), Length(root, step), 2, last, x.spot, Some(step))
  {
    OneMoreSample(root, h, x);
    var h', n := h + [x], |h|;
    assert Step(h', n) == Between(h[n - 1].spot, x.spot);
    assert PathPx(root, h', n - 1, n) == PathPx(root, h', n - 1, n - 1) + StepPx(root, h', n);
  }

  lemma StandingAfterStep(root: RootFn, h: History, x: Sample)
    requires h != [] && x.gap <= SEGMENT_GAP_MS
    requires !Corner(root, h + [x], |h|)
    ensures var s, step := StandingOf(root, h), Between(h[|h| - 1].spot, x.spot);
      StandingOf(root, h + [x])
      == s.(path := s.path + Length(root, step), count := s.count + 1, last := x.spot,
            heading := if Length(root, step) >= MIN_TURN_STEP_PX then Some(step) else s.heading)
  {
    OneMoreSample(root, h, x);
    StandsLast(root, h);
    var h', n := h + [x], |h|;
    HeadingIsStable(root, h, x, n - 1);
    assert Step(h', n) == Between(h[n - 1].spot, x.spot);
  }

  lemma CornerFromStanding(root: RootFn, h: History, x: Sample)
    requires h != [] && x.gap <= SEGMENT_GAP_MS
    ensures var heading, step := StandingOf(root, h).heading, Between(h[|h| - 1].spot, x.spot);
      Corner(root, h + [x], |h|)
      <==> heading.Some? && Length(root, step) >= MIN_TURN_STEP_PX && TurnsSharply(root, heading.value, step)
  {
    HeadingIsStable(root, h, x, |h| - 1);
    assert Step(h + [x], |h|) == Between(h[|h| - 1].spot, x.spot);
  }

  // ---- Bounds ----

  lemma StepIsNotNegative(root: RootFn, h: History, i: nat)
    requires IsRoot(root) && 0 < i < |h|
    ensures StepPx(root, h, i) >= 0.0
  {
    LengthIsRoot(root, Step(h, i));
  }

  lemma NoVectorDot(v: Vector)
    requires v == Vector(0.0, 0.0)
    ensures Dot(v, v) == 0.0
  {}

  lemma NoVectorIsZeroLong(root: RootFn, v: Vector)
    requires IsRoot(root) && v == Vector(0.0, 0.0)
    ensures Length(root, v) == 0.0
  {
    hide IsRoot, Dot, Length;
    LengthIsRoot(root, v);
    NoVectorDot(v);
    ZeroRoot(Length(root, v), Dot(v, v));
  }

  lemma NowhereIsZero(root: RootFn, a: Spot)
    requires IsRoot(root)
    ensures Dist(root, a, a) == 0.0
  {
    assert Between(a, a) == Vector(0.0, 0.0);
    hide IsRoot, Dot, Length;
    NoVectorIsZeroLong(root, Between(a, a));
  }

  /** Net displacement is at most the path walked: the triangle inequality, step by step. */
  lemma {:induction false} NetIsAtMostPath(root: RootFn, h: History, a: nat, b: nat)
    requires IsRoot(root) && a <= b < |h|
    ensures 0.0 <= Dist(root, h[a].spot, h[b].spot) <= PathPx(root, h, a, b)
    decreases b
  {
    LengthIsRoot(root, Between(h[a].spot, h[b].spot));
    if a == b {
      NowhereIsZero(root, h[a].spot);
    } else {
      NetIsAtMostPath(root, h, a, b - 1);
      TriangleInequality(root, h[a].spot, h[b - 1].spot, h[b].spot);
    }
  }

  lemma FractionOfOne(part: real, whole: real)
    requires 0.0 <= part <= whole && whole > 0.0
    ensures 0.0 <= part / whole <= 1.0 && (part / whole) * whole == part
  {}

  /** A leg's straightness lies in [0, 1], so clamping it changes nothing. */
  lemma StraightnessIsAFraction(root: RootFn, h: History, g: Leg)
    requires IsRoot(root) && Within(h, g) && Qualifies(root, h, g)
    ensures 0.0 <= Straightness(root, h, g) <= 1.0
    ensures Straightness(root, h, g) * LegPath(root, h, g) == NetPx(root, h, g) <= LegPath(root, h, g)
  {
    NetIsAtMostPath(root, h, g.first, g.last);
    FractionOfOne(NetPx(root, h, g), LegPath(root, h, g));
  }

  predicate Bounded(t: Totals) {
    0.0 <= t.weighted <= t.path && (t.count > 0 ==> t.path > 0.0)
  }

  lemma AddLegIsBounded(root: RootFn, h: History, t: Totals, g: Leg)
    requires IsRoot(root) && Within(h, g) && Bounded(t)
    ensures Bounded(AddLeg(root, h, t, g))
    ensures AddLeg(root, h, t, g).path >= t.path && AddLeg(root, h, t, g).count >= t.count
  {
    if Qualifies(root, h, g) {
      StraightnessIsAFraction(root, h, g);
      NetIsAtMostPath(root, h, g.first, g.last);
    }
  }

  lemma {:induction false} SumIsBounded(root: RootFn, h: History, legs: seq<Leg>)
    requires IsRoot(root) && AllWithin(h, legs)
    ensures Bounded(Sum(root, h, legs))
  {
    if legs != [] {
      SumIsBounded(root, h, legs[..|legs| - 1]);
      AddLegIsBounded(root, h, Sum(root, h, legs[..|legs| - 1]), legs[|legs| - 1]);
    }
  }

  /** The mean straightness of any history lies in [0, 1]. */
  lemma OfflineStraightnessIsAFraction(root: RootFn, h: History)
    requires IsRoot(root)
    ensures 0.0 <= Offline(root, h).straightness <= 1.0
    ensures Offline(root, h).pathPx >= 0.0 && (Offline(root, h).segments > 0 ==> Offline(root, h).pathPx > 0.0)
  {
    LegsAreWithin(root, h);
    SumIsBounded(root, h, Legs(root, h));
    var t := Sum(root, h, Legs(root, h));
    if t.path > 0.0 {
      FractionOfOne(t.weighted, t.path);
    }
  }

  // ---- Evidence is never lost ----

  lemma {:induction false} BankedIsBounded(root: RootFn, h: History)
    requires IsRoot(root)
    ensures Bounded(Banked(root, h))
  {
    if h != [] {
      LegsAreWithin(root, h);
      SumIsBounded(root, h, Closed(root, h));
    }
  }

  /** Another sample never lowers the segment count or the qualifying path, whatever it ends. */
  lemma EvidenceGrows(root: RootFn, h: History, x: Sample)
    requires IsRoot(root)
    ensures Offline(root, h + [x]).segments >= Offline(root, h).segments
    ensures Offline(root, h + [x]).pathPx >= Offline(root, h).pathPx
  {
    var h', n := h + [x], |h|;
    if h == [] {
      LegsAreWithin(root, h);
      OfflineStraightnessIsAFraction(root, h');
    } else {
      OneMoreSample(root, h, x);
      OfflineFromBanked(root, h);
      OfflineFromBanked(root, h');
      BankedIsBounded(root, h);
      BankedIsBounded(root, h');
      var open, open' := Open(root, h), Open(root, h');
      LegsAreWithin(root, h);
      assert open.last == n - 1;
      if Paused(h', n) || Corner(root, h', n) {
        AddLegIsBounded(root, h', Banked(root, h'), open');
      } else {
        StepIsNotNegative(root, h', n);
        assert LegPath(root, h', open') == LegPath(root, h, open) + StepPx(root, h', n);
        AddLegIsBounded(root, h', Banked(root, h'), open');
      }
    }
  }

  lemma {:induction false} MoreSamples(root: RootFn, h: History, more: History)
    requires IsRoot(root)
    ensures Offline(root, h + more).segments >= Offline(root, h).segments
    ensures Offline(root, h + more).pathPx >= Offline(root, h).pathPx
    decreases |more|
  {
    if more == [] {
      assert h + more == h;
    } else {
      var rest := more[..|more| - 1];
      MoreSamples(root, h, rest);
      EvidenceGrows(root, h + rest, more[|more| - 1]);
      assert h + more == h + rest + [more[|more| - 1]];
    }
  }

  // ---- What the features mean, from the samples alone ----

  /** A path is its steps, each as long as the distance between the samples it joins. */
  lemma {:induction false} PathIsItsSteps(root: RootFn, h: History, a: nat, b: nat, c: nat)
    requires a <= b <= c < |h|
    ensures PathPx(root, h, a, a) == 0.0
    ensures a < b ==> PathPx(root, h, b - 1, b) == Dist(root, h[b - 1].spot, h[b].spot)
    ensures PathPx(root, h, a, c) == PathPx(root, h, a, b) + PathPx(root, h, b, c)
    decreases c
  {
    if a < b {
      assert PathPx(root, h, b - 1, b) == PathPx(root, h, b - 1, b - 1) + StepPx(root, h, b);
    }
    if b < c {
      PathIsItsSteps(root, h, a, b, c - 1);
    }
  }

  /** Long enough to be judged: four samples and forty pixels. */
  predicate Counts(root: RootFn, h: History, g: Leg)
    requires Within(h, g)
  {
    g.last >= g.first + 3 && PathPx(root, h, g.first, g.last) >= 40.0
  }

  /** How many of the legs count, the path they walk, and the straight distances between their ends. */
  datatype Measure = Measure(legs: nat, path: real, net: real)

  ghost function MeasureOf(root: RootFn, h: History, legs: seq<Leg>): Measure
    requires AllWithin(h, legs)
  {
    if legs == [] then Measure(0, 0.0, 0.0)
    else
      var most, g := MeasureOf(root, h, legs[..|legs| - 1]), legs[|legs| - 1];
      if Counts(root, h, g) then
        Measure(most.legs + 1, most.path + PathPx(root, h, g.first, g.last),
                most.net + Dist(root, h[g.first].spot, h[g.last].spot))
      else most
  }

  lemma {:induction false} SumIsTheMeasure(root: RootFn, h: History, legs: seq<Leg>)
    requires IsRoot(root) && AllWithin(h, legs)
    ensures var t, m := Sum(root, h, legs), MeasureOf(root, h, legs);
      t.count == m.legs && t.path == m.path && t.weighted == m.net
  {
    if legs != [] {
      var g := legs[|legs| - 1];
      SumIsTheMeasure(root, h, legs[..|legs| - 1]);
      hide IsRoot, Dist;
      if Qualifies(root, h, g) {
        StraightnessIsAFraction(root, h, g);
      }
    }
  }

  /** What is answered of a measure: its legs and path, and straightness as the net over the path. */
  ghost predicate Reports(st: PointerState, m: Measure, points: nat) {
    && st.segments == m.legs && st.pathPx == m.path && st.points == points
    && st.straightness * st.pathPx == m.net && (m.legs == 0 ==> st.straightness == 0.0)
  }

  /** The features of any history: straightness is net over path, both added up over the legs that count. */
  lemma FeaturesAreTheMeasure(root: RootFn, h: History)
    requires IsRoot(root)
    ensures AllWithin(h, Legs(root, h))
    ensures Reports(Offline(root, h), MeasureOf(root, h, Legs(root, h)), |h|)
  {
    hide IsRoot, Legs, Sum, MeasureOf, Bounded, StateOf;
    LegsAreWithin(root, h);
    var legs := Legs(root, h);
    SumIsTheMeasure(root, h, legs);
    SumIsBounded(root, h, legs);
    StateOfBounded(Sum(root, h, legs), |h|);
    CountIsPath(root, h, legs);
  }

  lemma StateOfBounded(t: Totals, points: nat)
    requires Bounded(t)
    ensures var st := StateOf(t, points);
      && st.segments == t.count && st.pathPx == t.path && st.points == points
      && st.straightness * st.pathPx == t.weighted && (t.path == 0.0 ==> st.straightness == 0.0)
  {
    if t.path > 0.0 {
      FractionOfOne(t.weighted, t.path);
    }
  }

  lemma {:induction false} CountIsPath(root: RootFn, h: History, legs: seq<Leg>)
    requires AllWithin(h, legs)
    ensures MeasureOf(root, h, legs).legs == 0 ==>
      MeasureOf(root, h, legs).path == 0.0 && MeasureOf(root, h, legs).net == 0.0
  {
    if legs != [] {
      CountIsPath(root, h, legs[..|legs| - 1]);
    }
  }

  // ---- One reach ----

  /** No pause and no corner anywhere. */
  ghost predicate OneReach(root: RootFn, h: History) {
    h != [] && forall i :: 0 < i < |h| ==> !Paused(h, i) && !Corner(root, h, i)
  }

  ghost predicate MeasuresOneReach(root: RootFn, h: History, st: PointerState)
    requires h != []
  {
    var n, path := |h|, PathPx(root, h, 0, |h| - 1);
    if n >= 4 && path >= 40.0 then
      st.segments == 1 && st.pathPx == path && st.straightness * path == Dist(root, h[0].spot, h[n - 1].spot)
    else st.segments == 0 && st.pathPx == 0.0 && st.straightness == 0.0
  }

  lemma {:induction false} OneReachIsOneLeg(root: RootFn, h: History, e: nat)
    requires OneReach(root, h) && e < |h|
    ensures LegsFrom(root, h, 0, e) == [Leg(0, |h| - 1)]
    decreases |h| - e
  {
    if e + 1 < |h| {
      OneReachIsOneLeg(root, h, e + 1);
    }
  }

  /**
   One reach of at least four samples and forty pixels is one segment, and straight in the
   proportion of the distance between its ends to the path between them. A smaller one is none.
   */
  lemma StraightnessOfOneReach(root: RootFn, h: History)
    requires IsRoot(root) && OneReach(root, h)
    ensures MeasuresOneReach(root, h, Offline(root, h))
  {
    var g := Leg(0, |h| - 1);
    hide IsRoot, OneReach, Offline, MeasureOf, Counts, PathPx, Dist, Reports, MeasuresOneReach;
    FeaturesAreTheMeasure(root, h);
    OneReachIsOneLeg(root, h, 0);
    assert Legs(root, h) == [g];
    OneLegMeasured(root, h, Offline(root, h));
  }

  lemma MeasureOfOne(root: RootFn, h: History, g: Leg)
    requires Within(h, g)
    ensures MeasureOf(root, h, [g]) == if Counts(root, h, g) then
      Measure(1, PathPx(root, h, g.first, g.last), Dist(root, h[g.first].spot, h[g.last].spot))
      else Measure(0, 0.0, 0.0)
  {
    assert [g][..0] == [];
    hide Counts, PathPx, Dist;
    assert MeasureOf(root, h, [g][..0]) == Measure(0, 0.0, 0.0);
  }

  lemma OneLegMeasured(root: RootFn, h: History, st: PointerState)
    requires h != [] && Reports(st, MeasureOf(root, h, [Leg(0, |h| - 1)]), |h|)
    ensures MeasuresOneReach(root, h, st)
  {
    MeasureOfOne(root, h, Leg(0, |h| - 1));
    hide MeasureOf, PathPx, Dist;
  }

  // ---- Where a history is split ----

  /** The heading is the last step of four pixels or more, with no pause since; there is none without one. */
  lemma {:induction false} HeadingIsLastTrusted(root: RootFn, h: History, j: nat, i: nat)
    requires i < |h| && SteersAt(root, h, j, i)
    ensures Heading(root, h, i) == Some(Between(h[j - 1].spot, h[j].spot))
  {
    hide Length, Between;
    if j < i {
      assert SteersAt(root, h, j, i - 1);
      HeadingIsLastTrusted(root, h, j, i - 1);
    }
  }

  lemma {:induction false} HeadingWasTrusted(root: RootFn, h: History, i: nat) returns (j: nat)
    requires i < |h| && Heading(root, h, i).Some?
    ensures SteersAt(root, h, j, i)
  {
    hide Length, Between;
    j := i;
    if !Trusted(root, h, i) {
      j := HeadingWasTrusted(root, h, i - 1);
    }
  }

  /** The step into sample `j` is the last one up to `i` long enough to be trusted, with no pause from it on. */
  ghost predicate SteersAt(root: RootFn, h: History, j: nat, i: nat)
    requires i < |h|
  {
    && 0 < j <= i
    && Dist(root, h[j - 1].spot, h[j].spot) >= 4.0
    && (forall k :: j <= k <= i ==> h[k].gap <= 300)
    && (forall k :: j < k <= i ==> Dist(root, h[k - 1].spot, h[k].spot) < 4.0)
  }

  /** Legs that follow each other: after a pause the next sample begins one, after a corner the corner does. */
  ghost predicate Splits(root: RootFn, h: History, g: Leg, next: Leg)
    requires Within(h, g)
  {
    && g.last + 1 < |h|
    && if h[g.last + 1].gap > 300 then next.first == g.last + 1
       else Corner(root, h, g.last + 1) && next.first == g.last
  }

  /** Within a leg there is no pause, and no corner but the one a leg may begin with. */
  ghost predicate Unbroken(root: RootFn, h: History, g: Leg, e: nat)
    requires Within(h, g)
  {
    forall i :: 0 < i <= g.last && g.first < i && e < i ==> h[i].gap <= 300 && !Corner(root, h, i)
  }

  ghost predicate SplitRight(root: RootFn, h: History, legs: seq<Leg>, e: nat) {
    && AllWithin(h, legs)
    && (forall i :: 0 <= i < |legs| - 1 ==> Splits(root, h, legs[i], legs[i + 1]))
    && (forall i: nat :: i < |legs| ==> UnbrokenAt(root, h, legs, i, e))
  }

  /** Leg `i` of legs the first of which is known up to sample `e`. */
  ghost predicate UnbrokenAt(root: RootFn, h: History, legs: seq<Leg>, i: nat, e: nat)
    requires AllWithin(h, legs) && i < |legs|
  {
    Unbroken(root, h, legs[i], if i == 0 then e else legs[i - 1].last + 1)
  }

  lemma {:induction false} LegsFromSplitRight(root: RootFn, h: History, a: nat, e: nat)
    requires a <= e < |h|
    ensures SplitRight(root, h, LegsFrom(root, h, a, e), e)
    decreases |h| - e
  {
    hide Corner, SplitRight, Splits;
    LegsFromShape(root, h, a, e);
    if e + 1 == |h| {
      LastLegIsUnbroken(root, h, Leg(a, e));
    } else if Paused(h, e + 1) {
      var legs := LegsFrom(root, h, e + 1, e + 1);
      LegsFromSplitRight(root, h, e + 1, e + 1);
      LegsFromShape(root, h, e + 1, e + 1);
      SplitsHere(root, h, Leg(a, e), legs[0]);
      OneMoreSplit(root, h, Leg(a, e), legs, e);
    } else if Corner(root, h, e + 1) {
      var legs := LegsFrom(root, h, e, e + 1);
      LegsFromSplitRight(root, h, e, e + 1);
      LegsFromShape(root, h, e, e + 1);
      SplitsHere(root, h, Leg(a, e), legs[0]);
      OneMoreSplit(root, h, Leg(a, e), legs, e);
    } else {
      LegsFromSplitRight(root, h, a, e + 1);
      LongerLegIsUnbroken(root, h, LegsFrom(root, h, a, e + 1), e);
    }
  }

  lemma LastLegIsUnbroken(root: RootFn, h: History, g: Leg)
    requires Within(h, g) && g.last == |h| - 1
    ensures SplitRight(root, h, [g], g.last)
  {}

  lemma SplitsHere(root: RootFn, h: History, g: Leg, next: Leg)
    requires Within(h, g) && g.last + 1 < |h|
    requires if Paused(h, g.last + 1) then next.first == g.last + 1
             else Corner(root, h, g.last + 1) && next.first == g.last
    ensures Splits(root, h, g, next)
  {}

  lemma LongerLegIsUnbroken(root: RootFn, h: History, legs: seq<Leg>, e: nat)
    requires e + 1 < |h| && !Paused(h, e + 1) && !Corner(root, h, e + 1)
    requires SplitRight(root, h, legs, e + 1)
    ensures SplitRight(root, h, legs, e)
  {
    hide Corner, Splits;
    forall i: nat | i < |legs|
      ensures UnbrokenAt(root, h, legs, i, e)
    {
      assert UnbrokenAt(root, h, legs, i, e + 1);
    }
  }

  lemma OneMoreSplit(root: RootFn, h: History, g: Leg, legs: seq<Leg>, e: nat)
    requires Within(h, g) && legs != [] && g.last == e < |h| - 1 && SplitRight(root, h, legs, e + 1)
    requires Splits(root, h, g, legs[0])
    ensures SplitRight(root, h, [g] + legs, e)
  {
    hide Corner, Splits;
    var all := [g] + legs;
    assert AllWithin(h, all);
    forall i: nat | i < |all|
      ensures UnbrokenAt(root, h, all, i, e)
    {
      if i > 0 {
        assert UnbrokenAt(root, h, legs, i - 1, e + 1);
      }
    }
    forall i | 0 <= i < |all| - 1
      ensures Splits(root, h, all[i], all[i + 1])
    {
      if i > 0 {
        assert Splits(root, h, legs[i - 1], legs[i]);
      }
    }
  }

  /** A history is split at every pause over 300 ms and at every corner, and nowhere else. */
  lemma SplitAtPausesAndCorners(root: RootFn, h: History)
    requires h != []
    ensures var legs := Legs(root, h); SplitRight(root, h, legs, 0) && legs != [] && legs[0].first == 0
  {
    LegsFromShape(root, h, 0, 0);
    LegsFromSplitRight(root, h, 0, 0);
  }

  // ---- From polylines ----

  /** A polyline's samples: the first after the pause the clock shows, the others by their own gaps. */
  lemma {:induction false} TimedSamples(at: nat, pts: seq<Point>, i: nat)
    requires i < |pts|
    ensures var t := Timed(at, pts);
      && t[i].spot == pts[i].spot && t[i].gap == pts[i].dtMs
      && t[i].at == (if i == 0 then at else t[i - 1].at) + pts[i].dtMs
    decreases |pts|
  {
    if i > 0 {
      TimedSamples(at + pts[0].dtMs, pts[1..], i - 1);
      if i > 1 {
        TimedSamples(at + pts[0].dtMs, pts[1..], i - 2);
      }
    }
  }

  lemma ExtendSamples(h: History, startMs: nat, pts: seq<Point>, i: nat)
    requires i < |pts|
    ensures var e, n := Extend(h, startMs, pts), |h|;
      && |e| == n + |pts| && e[..n] == h && e[n + i].spot == pts[i].spot
      && (if i == 0 then
            e[n].at == startMs
            && e[n].gap == (if n > 0 && startMs > h[n - 1].at then startMs - h[n - 1].at else 0)
          else e[n + i].gap == pts[i].dtMs && e[n + i].at == e[n + i - 1].at + pts[i].dtMs)
  {
    if i > 0 {
      TimedSamples(startMs, pts[1..], i - 1);
    }
  }
}
