/**
 The pointer accumulator: constant memory, one sample at a time. Its ghost history is what it
 has been fed; `Valid` says every field is what the offline segmentation of that history says.
 */
module Pointer {
  import opened Wrappers
  import opened Geometry
  import opened Segmentation

  const ORIGIN := Point(Spot(0, 0), 0)

  const NOWHERE := Standing(Totals(0.0, 0.0, 0), 0.0, 0, ORIGIN.spot, ORIGIN.spot, None)

  class Pointer {
    const root: RootFn

    var weightedStraightness: real
    var totalPathPx: real
    var segments: nat
    var points: nat

    var curPathPx: real
    var curFirst: Point
    var curLast: Point
    var curCount: nat

    var lastAbsMs: nat
    var started: bool

    var dirX: real
    var dirY: real
    var hasDir: bool

    ghost var history: History

    constructor (root: RootFn)
      requires IsRoot(root)
      ensures Valid() && history == [] && this.root == root
    {
      this.root := root;
      weightedStraightness, totalPathPx, segments, points := 0.0, 0.0, 0, 0;
      curPathPx, curFirst, curLast, curCount := 0.0, ORIGIN, ORIGIN, 0;
      lastAbsMs, started := 0, false;
      dirX, dirY, hasDir := 0.0, 0.0, false;
      history := [];
    }

    ghost predicate Valid()
      reads this
    {
      && Shaped()
      && started == (history != [])
      && points == |history|
      && (history != [] ==> lastAbsMs == history[|history| - 1].at)
    }

    /** The segment fields are where the history stands. */
    ghost predicate Shaped()
      reads this
    {
      && IsRoot(root)
      && (history == [] ==> Stands() == NOWHERE)
      && (history != [] ==> Stands() == StandingOf(root, history) && curCount > 0)
    }

    /** What the segment fields say, the dt of the two kept points apart: nothing reads those. */
    ghost function Stands(): Standing
      reads this
    {
      Standing(Totals(weightedStraightness, totalPathPx, segments), curPathPx, curCount, curFirst.spot, curLast.spot,
               if hasDir then Some(Vector(dirX, dirY)) else None)
    }

    /** The same in every field that is ever read: not the dt of the two kept points, nor a direction not held. */
    ghost predicate SameAs(that: Pointer)
      reads this, that
    {
      && Stands() == that.Stands()
      && points == that.points && started == that.started
      && (started ==> lastAbsMs == that.lastAbsMs)
    }

    /** Straightness and path of the segment in progress, when it qualifies. The clamp never acts. */
    function CurrentSegment(): (s: Option<(real, real)>)
      requires Shaped()
      reads this
      ensures history != [] ==> Within(history, Open(root, history)) && s == Worth(root, history, Open(root, history))
      ensures history == [] ==> s == None
    {
      OpenIsWithin();
      if curCount < MIN_SEGMENT_POINTS || curPathPx < MIN_SEGMENT_PATH_PX then None
      else
        StraightnessIsAFraction(root, history, Open(root, history));
        var s := Dist(root, curFirst.spot, curLast.spot) / curPathPx;
        Some((if s > 1.0 then 1.0 else s, curPathPx))
    }

    lemma OpenIsWithin()
      ensures history != [] ==> Within(history, Open(root, history))
    {
      if history != [] {
        StandsLast(root, history);
      }
    }

    /** The feature vector, the segment in progress included: what the whole history comes to. */
    function State(): (st: PointerState)
      requires Valid()
      reads this
      ensures st == Offline(root, history)
      ensures 0.0 <= st.straightness <= 1.0
    {
      OfflineStraightnessIsAFraction(root, history);
      OfflineIsBankedAndOpen(root, history);
      match CurrentSegment()
      case None =>
        PointerState(if totalPathPx > 0.0 then weightedStraightness / totalPathPx else 0.0,
                     segments, totalPathPx, points)
      case Some((s, l)) =>
        var weighted, total := weightedStraightness + s * l, totalPathPx + l;
        PointerState(if total > 0.0 then weighted / total else 0.0, segments + 1, total, points)
    }

    method StartSegment(pt: Point)
      modifies this`curFirst, this`curLast, this`curPathPx, this`curCount, this`hasDir
      ensures curFirst == curLast == pt && curPathPx == 0.0 && curCount == 1 && !hasDir
    {
      curFirst, curLast := pt, pt;
      curPathPx := 0.0;
      curCount := 1;
      hasDir := false;
    }

    lemma EndedIs()
      requires Shaped() && history != []
      ensures Within(history, Open(root, history))
      ensures Ended(root, history) ==
        match Worth(root, history, Open(root, history))
        case None => Totals(weightedStraightness, totalPathPx, segments)
        case Some((s, l)) => Totals(weightedStraightness + s * l, totalPathPx + l, segments + 1)
    {
      OpenIsWithin();
      hide Worth, Banked, Heading, LegPath;
    }

    /** Banks the segment in progress if it qualifies. */
    method CloseSegment()
      requires Shaped() && history != []
      modifies this`weightedStraightness, this`totalPathPx, this`segments, this`curCount, this`curPathPx
      ensures Totals(weightedStraightness, totalPathPx, segments) == Ended(root, history)
      ensures curCount == 0 && curPathPx == 0.0
    {
      hide Worth, Banked, Ended, StandingOf, IsRoot, Open;
      EndedIs();
      match CurrentSegment() {
        case Some((s, l)) =>
          weightedStraightness := weightedStraightness + s * l;
          totalPathPx := totalPathPx + l;
          segments := segments + 1;
        case None =>
      }
      curCount := 0;
      curPathPx := 0.0;
    }

    /** One sample, `gap` after the one before it. */
    method Take(pt: Point, gap: nat, ghost x: Sample)
      requires Shaped() && x.spot == pt.spot && x.gap == gap
      modifies this`weightedStraightness, this`totalPathPx, this`segments, this`history
      modifies this`curPathPx, this`curFirst, this`curLast, this`curCount, this`dirX, this`dirY, this`hasDir
      ensures Shaped() && history == old(history) + [x]
    {
      hide StandingOf, Ended, IsRoot;
      ghost var h := history;
      if curCount == 0 {
        StandingOfOne(root, x);
        assert h + [x] == [x];
        StartSegment(pt);
        history := h + [x];
      } else if gap > SEGMENT_GAP_MS {
        StandingAfterPause(root, h, x);
        CloseSegment();
        StartSegment(pt);
        history := h + [x];
      } else {
        Move(pt, x);
      }
    }

    /** A step from the last sample to `pt` without a pause: it may turn a corner. */
    method Move(pt: Point, ghost x: Sample)
      requires Shaped() && history != [] && x.spot == pt.spot && x.gap <= SEGMENT_GAP_MS
      modifies this`weightedStraightness, this`totalPathPx, this`segments, this`history
      modifies this`curPathPx, this`curFirst, this`curLast, this`curCount, this`dirX, this`dirY, this`hasDir
      ensures Shaped() && history == old(history) + [x]
    {
      hide StandingOf, Ended, Corner, Length, TurnsSharply, IsRoot, Between, Paused, Within, Open;
      ghost var h := history;
      StandsLast(root, h);
      CornerFromStanding(root, h, x);
      var step := Between(curLast.spot, pt.spot);
      var stepLen := Length(root, step);
      if hasDir && stepLen >= MIN_TURN_STEP_PX {
        if TurnsSharply(root, Vector(dirX, dirY), step) {
          StandingAfterCorner(root, h, x);
          CloseSegment();
          StartSegment(curLast);
          curPathPx := stepLen;
          curLast := pt;
          curCount := 2;
          dirX, dirY := step.dx, step.dy;
          hasDir := true;
          history := h + [x];
          return;
        }
      }
      StandingAfterStep(root, h, x);
      if stepLen >= MIN_TURN_STEP_PX {
        dirX, dirY := step.dx, step.dy;
        hasDir := true;
      }
      curPathPx := curPathPx + stepLen;
      curLast := pt;
      curCount := curCount + 1;
      history := h + [x];
    }

    /** One polyline that began at `startMs`; the gap before its first point comes from the clock. */
    method Add(startMs: nat, pts: seq<Point>)
      requires Valid()
      modifies this
      ensures Valid() && history == Extend(old(history), startMs, pts)
    {
      hide StandingOf, IsRoot, Timed;
      ghost var h := history;
      for i := 0 to |pts|
        invariant Valid()
        invariant if i == 0 then history == h else ToCome(history, lastAbsMs, pts[i..], Extend(h, startMs, pts))
      {
        var pt := pts[i];
        points := points + 1;
        var gap := pt.dtMs;
        if i == 0 {
          gap := 0;
          if started && startMs > lastAbsMs {
            gap := startMs - lastAbsMs;
          }
          lastAbsMs := startMs;
        } else {
          TimedStep(history, lastAbsMs, pts, i, Extend(h, startMs, pts));
          lastAbsMs := lastAbsMs + pt.dtMs;
        }
        started := true;
        Take(pt, gap, Sample(pt.spot, lastAbsMs, gap));
      }
      NothingToCome(history, lastAbsMs, pts[|pts|..], Extend(h, startMs, pts));
    }
  }

  /** `pts`, the rest of a polyline, brings history `h` to `end`. */
  ghost predicate ToCome(h: History, at: nat, pts: seq<Point>, end: History) {
    h != [] && h + Timed(at, pts) == end
  }

  lemma NothingToCome(h: History, at: nat, pts: seq<Point>, end: History)
    requires pts == []
    ensures ToCome(h, at, pts, end) ==> h == end
  {}

  lemma TimedStep(h: History, at: nat, pts: seq<Point>, i: nat, end: History)
    requires i < |pts| && ToCome(h, at, pts[i..], end)
    ensures ToCome(h + [Sample(pts[i].spot, at + pts[i].dtMs, pts[i].dtMs)], at + pts[i].dtMs, pts[i + 1..], end)
  {
    assert pts[i..][1..] == pts[i + 1..];
  }

  /** The fields are a function of the history, whatever way it was cut into calls. */
  lemma SameHistorySameFields(p: Pointer, q: Pointer)
    requires p.Valid() && q.Valid() && p.root == q.root && p.history == q.history
    ensures p.SameAs(q)
    ensures p.State() == q.State()
  {}

  /**
   What an accumulator answers about one reach: how far apart its ends are against how far it went,
   once it has four samples and forty pixels.
   */
  lemma OneReachIsMeasured(p: Pointer)
    requires p.Valid() && OneReach(p.root, p.history)
    ensures MeasuresOneReach(p.root, p.history, p.State())
  {
    hide MeasuresOneReach, Offline;
    StraightnessOfOneReach(p.root, p.history);
  }

  /** And about any history: the distances between the ends of the legs that count, over the paths between them. */
  lemma AnswersTheMeasure(p: Pointer)
    requires p.Valid()
    ensures AllWithin(p.history, Legs(p.root, p.history))
    ensures Reports(p.State(), MeasureOf(p.root, p.history, Legs(p.root, p.history)), |p.history|)
  {
    hide MeasureOf, Legs, Offline, Reports;
    FeaturesAreTheMeasure(p.root, p.history);
  }
}
