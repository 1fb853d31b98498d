/**
 The architecture maintained state is measured against: keep the raw events and compute when
 asked. Both arrive at the same features, bar one count this one never sees.
 */
module OnCall {
  import opened Geometry
  import opened Segmentation
  import opened Telemetry
  import Rhythm
  import opened Policy
  import Snapshot
  import S = Session
  import P = Pointer
  import K = Keystroke
  import I = Interaction

  /** A retained polyline and a retained form action. */
  datatype Stroke = Stroke(startMs: nat, pts: seq<Point>)
  datatype FormEvent = FormEvent(action: string, target: string)

  // ---- What is retained of a stream ----

  /** The events this architecture retains: all but visibility changes and unknown types. */
  function Retained(events: seq<Event>): seq<Event> {
    if events == [] then []
    else
      var most, e := Retained(events[..|events| - 1]), events[|events| - 1];
      if e.Unknown? || (e.Touched? && e.touch.Visibility?) then most else most + [e]
  }

  function HidingsOf(events: seq<Event>): multiset<Touch> {
    if events == [] then multiset{}
    else
      var most, e := HidingsOf(events[..|events| - 1]), events[|events| - 1];
      if e.Touched? && e.touch.Visibility? then most + multiset{e.touch} else most
  }

  ghost function AsEvents(strokes: seq<Stroke>): seq<Event> {
    if strokes == [] then []
    else
      var last := strokes[|strokes| - 1];
      AsEvents(strokes[..|strokes| - 1]) + [Polyline(last.startMs, last.pts)]
  }

  ghost function Scrolls(modes: seq<string>): multiset<Touch> {
    if modes == [] then multiset{} else Scrolls(modes[..|modes| - 1]) + multiset{Scroll(modes[|modes| - 1])}
  }

  ghost function Focuses(targets: seq<string>): multiset<Touch> {
    if targets == [] then multiset{} else Focuses(targets[..|targets| - 1]) + multiset{Focus(targets[|targets| - 1])}
  }

  ghost function Forms(forms: seq<FormEvent>): multiset<Touch> {
    if forms == [] then multiset{}
    else
      var last := forms[|forms| - 1];
      Forms(forms[..|forms| - 1]) + multiset{Form(last.action, last.target)}
  }

  class OnCallState {
    const root: RootFn

    var polylines: seq<Stroke>
    var keys: seq<Key>
    var scrolls: seq<string>
    var focuses: seq<string>
    var forms: seq<FormEvent>

    /** The events appended, in the order they came, which is not kept. */
    ghost var events: seq<Event>

    constructor (root: RootFn)
      requires IsRoot(root)
      ensures Valid() && events == [] && this.root == root
    {
      this.root := root;
      polylines, keys, scrolls, focuses, forms := [], [], [], [], [];
      events := [];
    }

    ghost predicate Valid()
      reads this
    {
      && IsRoot(root)
      && Feed([], AsEvents(polylines)) == Feed([], events)
      && keys == KeysOf(events)
      && Scrolls(scrolls) + Focuses(focuses) + Forms(forms) == TouchesOf(events)
    }

    method AppendPointer(startMs: nat, pts: seq<Point>)
      requires Valid()
      modifies this`polylines, this`events
      ensures Valid() && events == old(events) + [Polyline(startMs, pts)]
      ensures polylines == old(polylines) + [Stroke(startMs, pts)]
    {
      OneMoreEvent([], events, Polyline(startMs, pts));
      OneMoreEvent([], AsEvents(polylines), Polyline(startMs, pts));
      hide Feed, KeysOf, TouchesOf, IsRoot;
      assert (polylines + [Stroke(startMs, pts)])[..|polylines|] == polylines;
      polylines := polylines + [Stroke(startMs, pts)];
      events := events + [Polyline(startMs, pts)];
    }

    method AppendKey(key: Key)
      requires Valid()
      modifies this`keys, this`events
      ensures Valid() && events == old(events) + [Typed(key)]
      ensures keys == old(keys) + [key]
    {
      OneMoreEvent([], events, Typed(key));
      hide Feed, KeysOf, TouchesOf, IsRoot;
      keys := keys + [key];
      events := events + [Typed(key)];
    }

    method AppendScroll(at: nat, mode: string)
      requires Valid()
      modifies this`scrolls, this`events
      ensures Valid() && events == old(events) + [Touched(at, Scroll(mode))]
      ensures scrolls == old(scrolls) + [mode]
    {
      OneMoreEvent([], events, Touched(at, Scroll(mode)));
      hide Feed, KeysOf, TouchesOf, IsRoot, Focuses, Forms;
      assert (scrolls + [mode])[..|scrolls|] == scrolls;
      scrolls := scrolls + [mode];
      events := events + [Touched(at, Scroll(mode))];
    }

    method AppendFocus(at: nat, target: string)
      requires Valid()
      modifies this`focuses, this`events
      ensures Valid() && events == old(events) + [Touched(at, Focus(target))]
      ensures focuses == old(focuses) + [target]
    {
      OneMoreEvent([], events, Touched(at, Focus(target)));
      hide Feed, KeysOf, TouchesOf, IsRoot, Scrolls, Forms;
      assert (focuses + [target])[..|focuses|] == focuses;
      focuses := focuses + [target];
      events := events + [Touched(at, Focus(target))];
    }

    method AppendForm(at: nat, action: string, target: string)
      requires Valid()
      modifies this`forms, this`events
      ensures Valid() && events == old(events) + [Touched(at, Form(action, target))]
      ensures forms == old(forms) + [FormEvent(action, target)]
    {
      OneMoreEvent([], events, Touched(at, Form(action, target)));
      hide Feed, KeysOf, TouchesOf, IsRoot, Scrolls, Focuses;
      assert (forms + [FormEvent(action, target)])[..|forms|] == forms;
      forms := forms + [FormEvent(action, target)];
      events := events + [Touched(at, Form(action, target))];
    }

    /** Retains an event, if it is of a kind this architecture keeps. */
    method Record(e: Event)
      requires Valid()
      modifies this
      ensures Valid() && events == old(events) + Retained([e])
    {
      RetainedOneMore([], e);
      assert [] + [e] == [e];
      hide Valid, Retained;
      match e {
        case Polyline(startMs, pts) => AppendPointer(startMs, pts);
        case Typed(key) => AppendKey(key);
        case Touched(at, touch) =>
          match touch {
            case Scroll(mode) => AppendScroll(at, mode);
            case Focus(target) => AppendFocus(at, target);
            case Visibility(_) =>
            case Form(action, field) => AppendForm(at, action, field);
          }
        case Unknown(_) =>
      }
    }

    /** Retains a batch of events. */
    method RecordAll(batch: seq<Event>)
      requires Valid()
      modifies this
      ensures Valid() && events == old(events) + Retained(batch)
    {
      hide Valid;
      for i := 0 to |batch|
        invariant Valid() && events == old(events) + Retained(batch[..i])
      {
        RetainedInTwo(batch[..i], [batch[i]]);
        assert batch[..i + 1] == batch[..i] + [batch[i]];
        Record(batch[i]);
      }
      assert batch[..|batch|] == batch;
    }

    /** Replays everything through fresh accumulators, one channel after another. */
    method Compute() returns (st: State)
      requires Valid()
      ensures st == S.FeaturesOf(root, events)
    {
      hide Feed, KeysOf, TouchesOf, IsRoot, Offline, Rhythm.OfflineKeys, I.OfBag;
      var p := ReplayPointer();
      var k := ReplayKeys();
      var i := ReplayInteraction();
      st := State(p, k, i);
    }

    method ReplayPointer() returns (st: PointerState)
      requires Valid()
      ensures st == Offline(root, Feed([], AsEvents(polylines)))
    {
      hide Feed, KeysOf, TouchesOf, IsRoot, AsEvents, Extend, Offline, P.Pointer.Valid;
      var p := new P.Pointer(root);
      NoEvents();
      for n := 0 to |polylines|
        invariant p.Valid() && p.root == root && p.history == Feed([], AsEvents(polylines[..n]))
      {
        StrokesNext(polylines, n);
        p.Add(polylines[n].startMs, polylines[n].pts);
      }
      assert polylines[..|polylines|] == polylines;
      st := p.State();
    }

    method ReplayKeys() returns (st: Rhythm.KeystrokeState)
      ensures st == Rhythm.OfflineKeys(root, keys)
    {
      var k := new K.Keystroke(root);
      for n := 0 to |keys|
        invariant k.Valid() && k.root == root && k.events == keys[..n]
      {
        k.AddKey(keys[n]);
      }
      assert keys[..|keys|] == keys;
      st := k.State();
    }

    method ReplayInteraction() returns (st: I.InteractionState)
      ensures st == I.OfBag(Scrolls(scrolls) + Focuses(focuses) + Forms(forms))
    {
      hide Scrolls, Focuses, Forms, I.OfBag, I.Interaction.Valid;
      var i := new I.Interaction();
      NoTouches();
      for n := 0 to |scrolls|
        invariant i.Valid() && i.bag == Scrolls(scrolls[..n])
      {
        ScrollsNext(scrolls, n);
        i.AddScroll(scrolls[n]);
      }
      assert scrolls[..|scrolls|] == scrolls;
      ghost var first := i.bag;
      for n := 0 to |focuses|
        invariant i.Valid() && i.bag == first + Focuses(focuses[..n])
      {
        FocusesNext(focuses, n);
        i.AddFocus(focuses[n]);
      }
      assert focuses[..|focuses|] == focuses;
      ghost var second := i.bag;
      for n := 0 to |forms|
        invariant i.Valid() && i.bag == second + Forms(forms[..n])
      {
        FormsNext(forms, n);
        i.AddForm(forms[n].action, forms[n].target);
      }
      assert forms[..|forms|] == forms;
      st := i.State();
    }
  }

  lemma NoEvents()
    ensures Feed([], AsEvents([])) == []
  {}

  lemma StrokesNext(strokes: seq<Stroke>, n: nat)
    requires n < |strokes|
    ensures Feed([], AsEvents(strokes[..n + 1]))
         == Extend(Feed([], AsEvents(strokes[..n])), strokes[n].startMs, strokes[n].pts)
  {
    assert strokes[..n + 1][..n] == strokes[..n];
    OneMoreEvent([], AsEvents(strokes[..n]), Polyline(strokes[n].startMs, strokes[n].pts));
  }

  lemma NoTouches()
    ensures Scrolls([]) == multiset{} && Focuses([]) == multiset{} && Forms([]) == multiset{}
  {}

  lemma ScrollsNext(modes: seq<string>, n: nat)
    requires n < |modes|
    ensures Scrolls(modes[..n + 1]) == Scrolls(modes[..n]) + multiset{Scroll(modes[n])}
  {
    assert modes[..n + 1][..n] == modes[..n];
  }

  lemma FocusesNext(targets: seq<string>, n: nat)
    requires n < |targets|
    ensures Focuses(targets[..n + 1]) == Focuses(targets[..n]) + multiset{Focus(targets[n])}
  {
    assert targets[..n + 1][..n] == targets[..n];
  }

  lemma FormsNext(forms: seq<FormEvent>, n: nat)
    requires n < |forms|
    ensures Forms(forms[..n + 1]) == Forms(forms[..n]) + multiset{Form(forms[n].action, forms[n].target)}
  {
    assert forms[..n + 1][..n] == forms[..n];
  }

  // ---- The two architectures agree ----

  lemma {:induction false} RetainedInTwo(a: seq<Event>, b: seq<Event>)
    ensures Retained(a + b) == Retained(a) + Retained(b)
    decreases |b|
  {
    hide Retained, HidingsOf;
    if b == [] {
      assert a + b == a;
      NothingRetained();
    } else {
      var most, e := b[..|b| - 1], b[|b| - 1];
      assert b == most + [e] && a + b == (a + most) + [e];
      RetainedInTwo(a, most);
      RetainedOneMore(most, e);
      RetainedOneMore(a + most, e);
    }
  }

  lemma NothingRetained()
    ensures Retained([]) == []
  {}

  lemma RetainedOneMore(events: seq<Event>, e: Event)
    ensures Retained(events + [e])
         == if e.Unknown? || (e.Touched? && e.touch.Visibility?) then Retained(events) else Retained(events) + [e]
    ensures HidingsOf(events + [e])
         == if e.Touched? && e.touch.Visibility? then HidingsOf(events) + multiset{e.touch} else HidingsOf(events)
  {
    assert (events + [e])[..|events|] == events;
  }

  lemma {:induction false} RetainedIsEnough(events: seq<Event>)
    ensures Feed([], Retained(events)) == Feed([], events)
    ensures KeysOf(Retained(events)) == KeysOf(events)
    ensures TouchesOf(Retained(events)) + HidingsOf(events) == TouchesOf(events)
  {
    if events != [] {
      var most, e := events[..|events| - 1], events[|events| - 1];
      RetainedIsEnough(most);
      assert events == most + [e];
      hide Feed, KeysOf, TouchesOf, Retained, HidingsOf;
      RetainedOneMore(most, e);
      OneMoreEvent([], most, e);
      TouchesStay(most, e);
      if !e.Unknown? && !(e.Touched? && e.touch.Visibility?) {
        OneMoreEvent([], Retained(most), e);
      }
    }
  }

  lemma TouchesStay(most: seq<Event>, e: Event)
    requires TouchesOf(Retained(most)) + HidingsOf(most) == TouchesOf(most)
    ensures TouchesOf(Retained(most + [e])) + HidingsOf(most + [e]) == TouchesOf(most + [e])
  {
    hide Feed, KeysOf, TouchesOf, Retained, HidingsOf;
    RetainedOneMore(most, e);
    OneMoreEvent([], most, e);
    OneMoreEvent([], Retained(most), e);
    if e.Touched? {
      HidesLast(TouchesOf(Retained(most)), HidingsOf(most), e.touch);
    }
  }

  lemma HidesLast(a: multiset<Touch>, b: multiset<Touch>, t: Touch)
    ensures a + multiset{t} + b == a + b + multiset{t} && a + (b + multiset{t}) == a + b + multiset{t}
  {}

  lemma {:induction false} HidingsAreVisibility(events: seq<Event>)
    ensures forall t :: t in HidingsOf(events) ==> t.Visibility?
  {
    if events != [] {
      HidingsAreVisibility(events[..|events| - 1]);
    }
  }

  lemma {:induction false} NoneCounted(p: Touch -> bool, ts: multiset<Touch>)
    requires forall t :: t in ts ==> !p(t)
    ensures I.Count(p, ts) == 0
    decreases |ts|
  {
    if ts != multiset{} {
      var t :| t in ts;
      I.CountAnyFirst(p, ts, t);
      NoneCounted(p, ts - multiset{t});
    }
  }

  lemma Uncounted(p: Touch -> bool, ts: multiset<Touch>, hides: multiset<Touch>)
    requires forall t :: t in hides ==> t.Visibility?
    requires forall t: Touch :: t.Visibility? ==> !p(t)
    ensures I.Count(p, ts + hides) == I.Count(p, ts)
  {
    I.CountMore(p, ts, hides);
    NoneCounted(p, hides);
  }

  /** Visibility changes show in one feature and no other. */
  lemma HidingsShowOnce(ts: multiset<Touch>, hides: multiset<Touch>)
    requires forall t :: t in hides ==> t.Visibility?
    ensures I.OfBag(ts + hides) == I.OfBag(ts).(hiddenPeriods := I.Count(I.IS_HIDING, ts + hides))
  {
    Uncounted(I.IS_SCROLL, ts, hides);
    Uncounted(I.IS_PROGRAMMATIC, ts, hides);
    Uncounted(I.IS_FOCUS, ts, hides);
    Uncounted(I.IsForm("paste"), ts, hides);
    Uncounted(I.IsForm("autofill"), ts, hides);
    Uncounted(I.IsForm("submit"), ts, hides);
    Uncounted(I.IsForm("injected"), ts, hides);
    assert I.Focused(ts + hides) == I.Focused(ts);
    assert I.Injected(ts + hides) == I.Injected(ts);
  }

  /** The features of the two differ in the hidden periods, and in nothing else. */
  lemma MaintainedEqualsOnCall(root: RootFn, events: seq<Event>)
    ensures var kept, called := S.FeaturesOf(root, events), S.FeaturesOf(root, Retained(events));
      kept == called.(interaction := called.interaction.(hiddenPeriods := kept.interaction.hiddenPeriods))
  {
    RetainedIsEnough(events);
    HidingsAreVisibility(events);
    HidingsShowOnce(TouchesOf(Retained(events)), HidingsOf(events));
  }

  /** ... which no judgement reads. */
  lemma JudgementsAgree(root: RootFn, cal: Calibration, events: seq<Event>, action: string)
    requires Accepted(cal)
    ensures Judged(cal, S.FeaturesOf(root, events), action) == Judged(cal, S.FeaturesOf(root, Retained(events)), action)
  {
    MaintainedEqualsOnCall(root, events);
    hide S.FeaturesOf, Accepted;
    HiddenPeriodsAreNotJudged(
      cal, S.FeaturesOf(root, Retained(events)), S.FeaturesOf(root, events).interaction.hiddenPeriods, action);
  }

  lemma HiddenPeriodsAreNotJudged(cal: Calibration, st: State, hidden: nat, action: string)
    requires Accepted(cal)
    ensures Judged(cal, st.(interaction := st.interaction.(hiddenPeriods := hidden)), action) == Judged(cal, st, action)
  {}

  lemma {:induction false} NothingRetainedHides(events: seq<Event>)
    ensures forall t :: t in TouchesOf(Retained(events)) ==> !t.Visibility?
  {
    if events != [] {
      var most, e := events[..|events| - 1], events[|events| - 1];
      NothingRetainedHides(most);
      OneMoreEvent([], Retained(most), e);
    }
  }

  /** The two states are equal exactly when the page was never hidden. */
  lemma StatesAgreeUnlessHidden(root: RootFn, events: seq<Event>)
    ensures S.FeaturesOf(root, events) == S.FeaturesOf(root, Retained(events))
        <==> I.Count(I.IS_HIDING, TouchesOf(events)) == 0
  {
    MaintainedEqualsOnCall(root, events);
    NothingRetainedHides(events);
    NoneCounted(I.IS_HIDING, TouchesOf(Retained(events)));
  }

  // ---- The two objects, side by side ----

  /** The batches of a stream, put together again. */
  function Joined(batches: seq<seq<Event>>): seq<Event> {
    if batches == [] then [] else Joined(batches[..|batches| - 1]) + batches[|batches| - 1]
  }

  /** A session and an on-call state that saw the same stream agree, and so does every judgement of the two. */
  lemma ObjectsAgree(session: S.Session, called: OnCallState, cal: Calibration, action: string)
    requires session.Valid() && called.Valid() && session.root == called.root && Accepted(cal)
    requires called.events == Retained(session.events)
    ensures var kept, st := session.Features(), S.FeaturesOf(called.root, called.events);
      && kept == st.(interaction := st.interaction.(hiddenPeriods := kept.interaction.hiddenPeriods))
      && Judged(cal, kept, action) == Judged(cal, st, action)
  {
    MaintainedEqualsOnCall(session.root, session.events);
    JudgementsAgree(session.root, cal, session.events, action);
  }

  /**
   One stream, batched one way for the session and another for the on-call state: what is
   maintained is what is computed, but for the hidden periods, and it is judged the same.
   */
  method Compare(
    root: RootFn, round: Snapshot.Rounding, batches: seq<seq<Event>>, others: seq<seq<Event>>, cal: Calibration,
    action: string) returns (kept: State, computed: State)
    requires IsRoot(root) && Accepted(cal) && Joined(batches) == Joined(others)
    ensures kept == S.FeaturesOf(root, Joined(batches))
    ensures kept == computed.(interaction := computed.interaction.(hiddenPeriods := kept.interaction.hiddenPeriods))
    ensures Judged(cal, kept, action) == Judged(cal, computed, action)
  {
    hide S.FeaturesOf, Judged, S.Session.Valid, OnCallState.Valid, Joined, IsRoot;
    var session := new S.Session(root);
    IngestAll(session, round, batches);
    var called := new OnCallState(root);
    RecordBatches(called, others);
    assert [] + Joined(batches) == Joined(batches);
    assert [] + Retained(Joined(others)) == Retained(Joined(others));
    ObjectsAgree(session, called, cal, action);
    kept := session.Features();
    computed := called.Compute();
  }

  method IngestAll(session: S.Session, round: Snapshot.Rounding, batches: seq<seq<Event>>)
    requires session.Valid()
    modifies session, session.pointer, session.keystroke, session.interaction
    ensures session.Valid() && session.events == old(session.events) + Joined(batches)
  {
    hide S.Session.Valid, S.FeaturesOf;
    for i := 0 to |batches|
      invariant session.Valid() && session.events == old(session.events) + Joined(batches[..i])
    {
      assert batches[..i + 1][..i] == batches[..i];
      var _, _ := session.IngestTelemetry(round, i, 0, batches[i]);
    }
    assert batches[..|batches|] == batches;
  }

  method RecordBatches(called: OnCallState, batches: seq<seq<Event>>)
    requires called.Valid()
    modifies called
    ensures called.Valid() && called.events == old(called.events) + Retained(Joined(batches))
  {
    hide OnCallState.Valid;
    for i := 0 to |batches|
      invariant called.Valid() && called.events == old(called.events) + Retained(Joined(batches[..i]))
    {
      assert batches[..i + 1][..i] == batches[..i];
      RetainedInTwo(Joined(batches[..i]), batches[i]);
      called.RecordAll(batches[i]);
    }
    assert batches[..|batches|] == batches;
  }
}
