/** What the page reports and the collector ingests. */
module Telemetry {
  import opened Geometry
  import opened Segmentation

  /** A key going down or up: when, its coarse class, and the field it was for. */
  datatype Key = Key(at: nat, phase: string, class_: string, target: string)

  /** Everything else a person does to a page, time left out: nothing reads it. */
  datatype Touch =
    | Scroll(mode: string)
    | Focus(target: string)
    | Visibility(state: string)
    | Form(action: string, field: string)

  datatype Event =
    | Polyline(startMs: nat, pts: seq<Point>)
    | Typed(key: Key)
    | Touched(at: nat, touch: Touch)
    | Unknown(at: nat)

  /** The pointer history a sequence of events adds up to. */
  function Feed(h: History, events: seq<Event>): History
    decreases |events|
  {
    if events == [] then h
    else
      var before := Feed(h, events[..|events| - 1]);
      match events[|events| - 1]
      case Polyline(startMs, pts) => Extend(before, startMs, pts)
      case _ => before
  }

  lemma {:induction false} FeedInTwo(h: History, a: seq<Event>, b: seq<Event>)
    ensures Feed(h, a + b) == Feed(Feed(h, a), b)
    decreases |b|
  {
    if b == [] {
      assert a + b == a;
    } else {
      FeedInTwo(h, a, b[..|b| - 1]);
      assert (a + b)[..|a + b| - 1] == a + b[..|b| - 1];
    }
  }

  /** Events only ever lengthen a history. */
  lemma {:induction false} FeedExtends(h: History, events: seq<Event>) returns (more: History)
    ensures Feed(h, events) == h + more
    decreases |events|
  {
    if events == [] {
      return [];
    }
    var most := FeedExtends(h, events[..|events| - 1]);
    match events[|events| - 1]
    case Polyline(startMs, pts) =>
      if pts == [] {
        return most;
      }
      var before := h + most;
      return most + [Sample(pts[0].spot, startMs, GapBefore(before, startMs))] + Timed(startMs, pts[1..]);
    case _ =>
      return most;
  }

  /** The key events, in order, and the other events people cause. */
  function KeysOf(events: seq<Event>): seq<Key> {
    if events == [] then []
    else
      var most, e := KeysOf(events[..|events| - 1]), events[|events| - 1];
      if e.Typed? then most + [e.key] else most
  }

  function TouchesOf(events: seq<Event>): multiset<Touch> {
    if events == [] then multiset{}
    else
      var most, e := TouchesOf(events[..|events| - 1]), events[|events| - 1];
      if e.Touched? then most + multiset{e.touch} else most
  }

  lemma OneMoreEvent(h: History, events: seq<Event>, e: Event)
    ensures Feed(h, events + [e]) == if e.Polyline? then Extend(Feed(h, events), e.startMs, e.pts) else Feed(h, events)
    ensures KeysOf(events + [e]) == KeysOf(events) + if e.Typed? then [e.key] else []
    ensures TouchesOf(events + [e]) == TouchesOf(events) + if e.Touched? then multiset{e.touch} else multiset{}
  {
    assert (events + [e])[..|events|] == events;
  }

  lemma {:induction false} KeysAndTouchesGrow(a: seq<Event>, b: seq<Event>) returns (keys: seq<Key>)
    ensures KeysOf(a + b) == KeysOf(a) + keys
    ensures TouchesOf(a + b) == TouchesOf(a) + TouchesOf(b)
    decreases |b|
  {
    if b == [] {
      assert a + b == a;
      return [];
    }
    var most, e := b[..|b| - 1], b[|b| - 1];
    keys := KeysAndTouchesGrow(a, most);
    OneMoreEvent([], a + most, e);
    OneMoreEvent([], most, e);
    hide KeysOf, TouchesOf, Feed;
    assert b == most + [e];
    assert a + b == (a + most) + [e];
    if e.Typed? {
      keys := keys + [e.key];
    }
  }
}
