/**
 The pointer part of the browser SDK: a fixed-rate sampler that collects samples into a
 polyline, which is cut when it is full and whenever the page flushes. Where it is cut makes no
 difference to what the collector accumulates.
 */
module Sdk {
  import opened Wrappers
  import opened Geometry
  import opened Segmentation
  import opened Telemetry
  import P = Pointer

  const MAX_POLYLINE: nat := 256

  /** A sample the decimation let through. */
  datatype Taken = Taken(spot: Spot, at: nat)

  ghost predicate Ordered(s: seq<Taken>) {
    forall i, j :: 0 <= i < j < |s| ==> s[i].at <= s[j].at
  }

  function Since(a: nat, b: nat): nat {
    if b > a then b - a else 0
  }

  /** Samples as the points of one polyline: each is told how long after the one before. */
  ghost function Points(s: seq<Taken>): (pts: seq<Point>)
    ensures |pts| == |s|
  {
    if s == [] then []
    else
      var n := |s| - 1;
      Points(s[..n]) + [Point(s[n].spot, if n == 0 then 0 else Since(s[n - 1].at, s[n].at))]
  }

  /** A history with samples `s` sent as one more polyline. */
  ghost function Sending(h: History, s: seq<Taken>): History {
    if s == [] then h else Extend(h, s[0].at, Points(s))
  }

  /** The history of samples sent as a single polyline, however many they are. */
  ghost function Uncut(s: seq<Taken>): History {
    Sending([], s)
  }

  lemma {:induction false} TimedOneMore(at: nat, pts: seq<Point>, p: Point)
    ensures Timed(at, pts + [p])
         == Timed(at, pts) + [Sample(p.spot, (if pts == [] then at else Timed(at, pts)[|pts| - 1].at) + p.dtMs, p.dtMs)]
    decreases |pts|
  {
    if pts != [] {
      TimedOneMore(at + pts[0].dtMs, pts[1..], p);
      assert (pts + [p])[1..] == pts[1..] + [p];
    }
  }

  lemma ExtendOneMore(h: History, startMs: nat, pts: seq<Point>, p: Point)
    requires pts != []
    ensures var e := Extend(h, startMs, pts);
      e != [] && Extend(h, startMs, pts + [p]) == e + [Sample(p.spot, e[|e| - 1].at + p.dtMs, p.dtMs)]
  {
    TimedOneMore(startMs, pts[1..], p);
    assert (pts + [p])[1..] == pts[1..] + [p];
  }

  lemma PointsOneMore(s: seq<Taken>, x: Taken)
    ensures Points(s + [x]) == Points(s) + [Point(x.spot, if s == [] then 0 else Since(s[|s| - 1].at, x.at))]
  {
    assert (s + [x])[..|s|] == s;
  }

  /** The last sample of a polyline is at the time it was taken. */
  lemma {:induction false} EndsWhenTaken(h: History, s: seq<Taken>)
    requires s != [] && Ordered(s)
    ensures var e := Sending(h, s); e != [] && e[|e| - 1].at == s[|s| - 1].at
    decreases |s|
  {
    hide Extend, Points;
    var n := |s| - 1;
    var x := s[n];
    if n == 0 {
      assert s == [x];
      SendingOne(h, x);
    } else {
      var most := s[..n];
      EndsWhenTaken(h, most);
      assert s == most + [x] && most[|most| - 1] == s[n - 1];
      PointsOneMore(most, x);
      ExtendOneMore(h, s[0].at, Points(most), Point(x.spot, Since(s[n - 1].at, x.at)));
    }
  }

  lemma SendingOneMore(h: History, s: seq<Taken>, x: Taken)
    requires s != [] && Ordered(s + [x])
    ensures Sending(h, s + [x]) == Sending(h, s) + [Sample(x.spot, x.at, Since(s[|s| - 1].at, x.at))]
  {
    SuffixesAreOrdered(s, [x]);
    var n := |s|;
    assert (s + [x])[n] == x && (s + [x])[n - 1] == s[n - 1];
    PointsOneMore(s, x);
    EndsWhenTaken(h, s);
    ExtendOneMore(h, s[0].at, Points(s), Point(x.spot, Since(s[n - 1].at, x.at)));
  }

  lemma SendingOne(h: History, x: Taken)
    ensures Sending(h, [x]) == h + [Sample(x.spot, x.at, GapBefore(h, x.at))]
  {
    assert Points([x]) == [Point(x.spot, 0)];
  }

  /** A cut anywhere leaves the history as it was. */
  lemma {:induction false} CutAnywhere(a: seq<Taken>, b: seq<Taken>)
    requires Ordered(a + b)
    ensures Sending(Uncut(a), b) == Uncut(a + b)
    decreases |b|
  {
    if a == [] || b == [] {
      assert a + b == a || a + b == b;
      return;
    }
    SuffixesAreOrdered(a, b);
    var most, x := b[..|b| - 1], b[|b| - 1];
    assert a + b == (a + most) + [x] && b == most + [x];
    if most == [] {
      assert a + most == a;
      CutBeforeTheLast(a, x);
    } else {
      hide Ordered, Sending;
      CutAnywhere(a, most);
      SendingOneMore([], a + most, x);
      SendingOneMore(Uncut(a), most, x);
    }
  }

  lemma CutBeforeTheLast(a: seq<Taken>, x: Taken)
    requires Ordered(a + [x]) && a != []
    ensures Sending(Uncut(a), [x]) == Uncut(a + [x])
  {
    SuffixesAreOrdered(a, [x]);
    hide Ordered, Sending;
    EndsWhenTaken([], a);
    SendingOne(Uncut(a), x);
    SendingOneMore([], a, x);
  }

  lemma SuffixesAreOrdered(a: seq<Taken>, b: seq<Taken>)
    requires Ordered(a + b)
    ensures Ordered(a) && Ordered(b) && (b != [] ==> Ordered(a + b[..|b| - 1]))
  {
    assert a == (a + b)[..|a|];
    assert b == (a + b)[|a|..];
    if b != [] {
      assert a + b[..|b| - 1] == (a + b)[..|a| + |b| - 1];
    }
  }

  /** The uncut history is the samples themselves, each with the time since the one before. */
  lemma {:induction false} UncutIsTheSamples(s: seq<Taken>)
    requires Ordered(s)
    ensures |Uncut(s)| == |s|
    ensures forall i :: 0 <= i < |s| ==>
      Uncut(s)[i] == Sample(s[i].spot, s[i].at, if i == 0 then 0 else s[i].at - s[i - 1].at)
    decreases |s|
  {
    if |s| == 1 {
      assert s == [s[0]];
      SendingOne([], s[0]);
    } else if |s| > 1 {
      var most, x := s[..|s| - 1], s[|s| - 1];
      assert s == most + [x];
      UncutIsTheSamples(most);
      SendingOneMore([], most, x);
      hide Sending;
    }
  }

  // ---- Any number of cuts ----

  /** The polyline of samples `s`, if there are any. */
  ghost function Whole(s: seq<Taken>): seq<Event> {
    if s == [] then [] else [Polyline(s[0].at, Points(s))]
  }

  ghost function Joined(pieces: seq<seq<Taken>>): seq<Taken> {
    if pieces == [] then [] else Joined(pieces[..|pieces| - 1]) + pieces[|pieces| - 1]
  }

  /** Each piece as a polyline of its own. */
  ghost function Sent(pieces: seq<seq<Taken>>): seq<Event> {
    if pieces == [] then [] else Sent(pieces[..|pieces| - 1]) + Whole(pieces[|pieces| - 1])
  }

  /** However a stream of samples is cut into polylines, they add up to the uncut history. */
  lemma {:induction false} CutInvariance(pieces: seq<seq<Taken>>)
    requires Ordered(Joined(pieces))
    ensures Feed([], Sent(pieces)) == Uncut(Joined(pieces))
  {
    if pieces != [] {
      var most, last := pieces[..|pieces| - 1], pieces[|pieces| - 1];
      SuffixesAreOrdered(Joined(most), last);
      CutInvariance(most);
      CutAnywhere(Joined(most), last);
      FeedInTwo([], Sent(most), Whole(last));
    }
  }

  /** ... so the accumulators they leave agree, and so do the features read from them. */
  lemma CutsLeaveTheAccumulator(pieces: seq<seq<Taken>>, p: P.Pointer, q: P.Pointer)
    requires Ordered(Joined(pieces))
    requires p.Valid() && q.Valid() && p.root == q.root
    requires p.history == Feed([], Sent(pieces)) && q.history == Uncut(Joined(pieces))
    ensures p.SameAs(q) && p.State() == q.State()
  {
    CutInvariance(pieces);
    P.SameHistorySameFields(p, q);
  }

  // ---- The sampler ----

  /** The browser's rounding: halves go up. */
  function Round(v: real): (n: int)
    ensures v - 0.5 < n as real <= v + 0.5
  {
    (v + 0.5).Floor
  }

  /** The polylines among `events` add up to samples `s` uncut. */
  ghost predicate AddUpTo(events: seq<Event>, s: seq<Taken>) {
    Ordered(s) && Feed([], events) == Uncut(s)
  }

  lemma OneMorePolyline(events: seq<Event>, cut: seq<Taken>, open: seq<Taken>)
    requires AddUpTo(events, cut) && Ordered(cut + open)
    ensures AddUpTo(events + Whole(open), cut + open)
  {
    FeedInTwo([], events, Whole(open));
    CutAnywhere(cut, open);
  }

  lemma OneMoreOther(events: seq<Event>, s: seq<Taken>, e: Event)
    requires AddUpTo(events, s) && !e.Polyline?
    ensures AddUpTo(events + [e], s)
  {
    FeedInTwo([], events, [e]);
  }

  function LastAt(s: seq<Taken>): nat {
    if s == [] then 0 else s[|s| - 1].at
  }

  /** Milliseconds between samples at `hz` samples a second. */
  function MinGap(hz: real): (gap: real)
    requires hz != 0.0
    ensures gap * hz == 1000.0
  {
    1000.0 / hz
  }

  /** How long after the one before, or the start of the page, sample `i` was taken. */
  function GapTo(s: seq<Taken>, i: nat): real
    requires i < |s|
  {
    (s[i].at - if i == 0 then 0 else s[i - 1].at) as real
  }

  /** No sample comes sooner than the rate allows. */
  ghost predicate Spaced(s: seq<Taken>, hz: real)
    requires hz != 0.0
  {
    forall i: nat :: i < |s| ==> GapTo(s, i) >= MinGap(hz)
  }

  lemma OneMoreSpaced(s: seq<Taken>, x: Taken, hz: real)
    requires hz != 0.0 && Spaced(s, hz) && (x.at - LastAt(s)) as real >= MinGap(hz)
    ensures Spaced(s + [x], hz)
  {
    hide MinGap;
    forall i: nat | i < |s| + 1
      ensures GapTo(s + [x], i) >= MinGap(hz)
    {
      assert i < |s| ==> GapTo(s + [x], i) == GapTo(s, i);
    }
  }

  lemma OneMoreInOrder(s: seq<Taken>, x: Taken)
    requires Ordered(s) && (s != [] ==> s[|s| - 1].at <= x.at)
    ensures Ordered(s + [x])
  {}

  lemma Regroup(a: seq<Event>, b: seq<Event>, c: seq<Event>)
    ensures a + (b + c) == a + b + c
  {}

  lemma LastIsLast(a: seq<Taken>, b: seq<Taken>, x: Taken)
    ensures a + (b + [x]) == a + b + [x]
    ensures b != [] ==> (a + b)[|a + b| - 1] == b[|b| - 1]
  {}

  lemma WholeIs(s: seq<Taken>)
    requires s != []
    ensures Whole(s) == [Polyline(s[0].at, Points(s))]
  {}

  lemma EmptyPoints(s: seq<Taken>)
    ensures Points([]) == [] && s + [] == s
  {}

  class Sampler {
    const pointerHz: real

    var token: Option<string>
    var pts: seq<Point>
    var queue: seq<Event>
    var batches: nat
    var lastSampleAt: nat
    var polylineStartedAt: nat

    /** Samples already in a polyline of their own, and those still in `pts`. */
    ghost var cut: seq<Taken>
    ghost var open: seq<Taken>

    /** Events posted so far. */
    ghost var posted: seq<Event>

    constructor (pointerHz: real)
      requires pointerHz != 0.0
      ensures Valid() && Samples() == [] && posted == [] && queue == [] && token == None
    {
      this.pointerHz := pointerHz;
      token, pts, queue, batches := None, [], [], 0;
      lastSampleAt, polylineStartedAt := 0, 0;
      cut, open, posted := [], [], [];
    }

    /** Every sample let through, in order. */
    ghost function Samples(): seq<Taken>
      reads this
    {
      cut + open
    }

    ghost predicate Valid()
      reads this
    {
      Consistent() && |pts| < MAX_POLYLINE
    }

    ghost predicate Consistent()
      reads this
    {
      && pointerHz != 0.0
      && Ordered(Samples())
      && lastSampleAt == LastAt(Samples())
      && Spaced(Samples(), pointerHz)
      && pts == Points(open)
      && (open != [] ==> polylineStartedAt == open[0].at)
      && AddUpTo(posted + queue, cut)
    }

    /** What the collector will have accumulated once everything here has been posted. */
    ghost function Pending(): seq<Event>
      reads this
    {
      posted + queue + if pts == [] then [] else [Polyline(polylineStartedAt, pts)]
    }

    /** The rate is kept: every sample is at least its share of a second after the one before. */
    lemma SamplesAreSpaced(i: nat)
      requires Valid() && i < |Samples()|
      ensures GapTo(Samples(), i) >= MinGap(pointerHz)
    {
      hide MinGap, GapTo;
    }

    /** Whatever has been cut, flushed, posted or kept back, it is the uncut stream. */
    lemma PendingIsUncut()
      requires Valid()
      ensures Feed([], Pending()) == Uncut(Samples())
    {
      OneMorePolyline(posted + queue, cut, open);
    }

    /** Whether a move at `t` comes too soon after the last sample. */
    predicate TooSoon(t: nat)
      requires pointerHz != 0.0
      reads this
    {
      var minGap := MinGap(pointerHz);
      (t - lastSampleAt) as real < minGap
    }

    /** A pointer move at `t`; the page's clock does not run backwards. */
    method PointerMove(clientX: real, clientY: real, t: nat)
      requires Valid() && t >= lastSampleAt
      modifies this
      ensures Valid()
      ensures Samples() == old(Samples()) +
        (if old(TooSoon(t)) then [] else [Taken(Spot(Round(clientX), Round(clientY)), t)])
      ensures posted == old(posted) && token == old(token) && batches == old(batches)
      ensures lastSampleAt == if old(TooSoon(t)) then old(lastSampleAt) else t
      ensures old(TooSoon(t)) ==> pts == old(pts) && queue == old(queue) && polylineStartedAt == old(polylineStartedAt)
      ensures !old(TooSoon(t)) ==>
        var grown := old(pts)
          + [Point(Spot(Round(clientX), Round(clientY)), if old(pts) == [] then 0 else t - old(lastSampleAt))];
        var full := |grown| == 256;
        (polylineStartedAt == (if old(pts) == [] then t else old(polylineStartedAt))
         && pts == (if full then [] else grown)
         && queue == old(queue) + if full then [Polyline(polylineStartedAt, grown)] else [])
    {
      hide TooSoon, Round, Ordered, Points, AddUpTo, Spaced;
      if TooSoon(t) {
        return;
      }
      Take(Spot(Round(clientX), Round(clientY)), t);
      if |pts| >= MAX_POLYLINE {
        Cut();
      }
    }

    /** Adds a sample to the polyline in progress, or starts one with it. */
    method Take(spot: Spot, t: nat)
      requires Valid() && t >= lastSampleAt && !TooSoon(t)
      modifies this`pts, this`polylineStartedAt, this`lastSampleAt, this`open
      ensures Consistent() && |pts| <= MAX_POLYLINE
      ensures Samples() == old(Samples()) + [Taken(spot, t)] && lastSampleAt == t
      ensures pts == old(pts) + [Point(spot, if old(pts) == [] then 0 else t - old(lastSampleAt))]
      ensures polylineStartedAt == if old(pts) == [] then t else old(polylineStartedAt)
    {
      hide Ordered, Points, AddUpTo, Spaced, MinGap;
      ghost var x := Taken(spot, t);
      OneMoreSpaced(Samples(), x, pointerHz);
      OneMoreInOrder(Samples(), x);
      PointsOneMore(open, x);
      LastIsLast(cut, open, x);
      var dt := if |pts| == 0 then 0 else t - lastSampleAt;
      if |pts| == 0 {
        polylineStartedAt := t;
      }
      lastSampleAt := t;
      pts := pts + [Point(spot, dt)];
      open := open + [x];
    }

    /** Ends the polyline in progress; the caller may have filled it. */
    method Cut()
      requires Consistent()
      modifies this`pts, this`queue, this`cut, this`open
      ensures Valid() && pts == [] && Samples() == old(Samples())
      ensures queue == old(queue) + if old(pts) == [] then [] else [Polyline(polylineStartedAt, old(pts))]
    {
      hide Ordered, AddUpTo, Points, Whole, Uncut, Feed, Spaced;
      ghost var s := cut + open;
      if |pts| == 0 {
        EmptyPoints(s);
        return;
      }
      var whole := [Polyline(polylineStartedAt, pts)];
      OneMorePolyline(posted + queue, cut, open);
      WholeIs(open);
      Regroup(posted, queue, whole);
      queue := queue + whole;
      pts := [];
      cut, open := s, [];
      EmptyPoints(s);
    }

    /** Another channel reports an event. */
    method Push(e: Event)
      requires Valid() && !e.Polyline?
      modifies this`queue
      ensures Valid() && queue == old(queue) + [e]
    {
      hide Ordered, AddUpTo, Points, Spaced;
      OneMoreOther(posted + queue, cut, e);
      assert posted + (queue + [e]) == posted + queue + [e];
      queue := queue + [e];
    }

    /**
     The timer: the polyline is cut whether or not there is a session yet, and the queue is
     posted once there is one.
     */
    method Flush() returns (batch: Option<(nat, seq<Event>)>)
      requires Valid()
      modifies this
      ensures Valid() && pts == [] && Samples() == old(Samples()) && token == old(token)
      ensures posted + queue == old(Pending())
      ensures batch.None? <==> token.None? || old(Pending()) == old(posted)
      ensures batch.None? ==> posted == old(posted) && batches == old(batches)
      ensures batch.Some? ==>
        (queue == [] && batches == old(batches) + 1 && batch.value.0 == old(batches)
         && posted == old(posted) + batch.value.1)
    {
      hide Ordered, AddUpTo, Points, Spaced;
      ghost var was := posted;
      Cut();
      assert posted + queue == old(Pending());
      if token.None? || |queue| == 0 {
        assert |queue| == 0 ==> posted + queue == was;
        return None;
      }
      assert |posted + queue| > |was|;
      var events := queue;
      queue := [];
      batch := Some((batches, events));
      batches := batches + 1;
      posted := posted + events;
      assert posted + queue == was + events;
    }
  }
}
