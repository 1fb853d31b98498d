/**
 A session's maintained state: the three accumulators, fed by batches of telemetry, and what the
 whole stream of events says they must hold.
 */
module Session {
  import opened Geometry
  import opened Segmentation
  import opened Telemetry
  import Rhythm
  import opened Policy
  import Snapshot
  import Sdk
  import P = Pointer
  import K = Keystroke
  import I = Interaction

  /** The feature vector of a stream of events, channel by channel. */
  ghost function FeaturesOf(root: RootFn, events: seq<Event>): State {
    State(Offline(root, Feed([], events)), Rhythm.OfflineKeys(root, KeysOf(events)), I.OfBag(TouchesOf(events)))
  }

  function TimeOf(e: Event): nat {
    match e
    case Polyline(startMs, _) => startMs
    case Typed(key) => key.at
    case Touched(at, _) => at
    case Unknown(at) => at
  }

  /** The latest time claimed by anything seen so far. */
  function Latest(soFar: nat, events: seq<Event>): nat {
    if events == [] then soFar
    else
      var t, most := TimeOf(events[|events| - 1]), Latest(soFar, events[..|events| - 1]);
      if t > most then t else most
  }

  /** It is one of the times claimed, or the one before, and none is later. */
  lemma {:induction false} LatestIsLatest(soFar: nat, events: seq<Event>)
    ensures Latest(soFar, events) >= soFar
    ensures forall i :: 0 <= i < |events| ==> Latest(soFar, events) >= TimeOf(events[i])
    ensures Latest(soFar, events) == soFar
         || exists i :: 0 <= i < |events| && Latest(soFar, events) == TimeOf(events[i])
  {
    if events != [] {
      var most := events[..|events| - 1];
      LatestIsLatest(soFar, most);
      assert forall i :: 0 <= i < |most| ==> most[i] == events[i];
    }
  }

  class Session {
    const root: RootFn
    const pointer: P.Pointer
    const keystroke: K.Keystroke
    const interaction: I.Interaction

    var highestSeq: nat
    var batchesSeen: nat
    var lastEventMs: nat

    ghost var events: seq<Event>

    constructor (root: RootFn)
      requires IsRoot(root)
      ensures Valid() && events == [] && this.root == root
      ensures fresh(pointer) && fresh(keystroke) && fresh(interaction)
    {
      this.root := root;
      pointer := new P.Pointer(root);
      keystroke := new K.Keystroke(root);
      interaction := new I.Interaction();
      highestSeq, batchesSeen, lastEventMs := 0, 0, 0;
      events := [];
    }

    ghost predicate Valid()
      reads this`events, pointer, keystroke, interaction
    {
      && pointer.Valid() && pointer.root == root && keystroke.Valid() && keystroke.root == root && interaction.Valid()
      && pointer.history == Feed([], events)
      && keystroke.events == KeysOf(events)
      && interaction.bag == TouchesOf(events)
    }

    /** The feature vector a decision reads: that of the whole stream, however it was batched. */
    function Features(): (st: State)
      requires Valid()
      reads this, pointer, keystroke, interaction
      ensures st == FeaturesOf(root, events)
    {
      State(pointer.State(), keystroke.State(), interaction.State())
    }

    method ObserveBatch(batch: nat, sentAtMs: nat)
      modifies this`batchesSeen, this`highestSeq, this`lastEventMs
      ensures batchesSeen == old(batchesSeen) + 1
      ensures highestSeq == if batch > old(highestSeq) then batch else old(highestSeq)
      ensures lastEventMs == if sentAtMs > old(lastEventMs) then sentAtMs else old(lastEventMs)
    {
      batchesSeen := batchesSeen + 1;
      if batch > highestSeq {
        highestSeq := batch;
      }
      if sentAtMs > lastEventMs {
        lastEventMs := sentAtMs;
      }
    }

    method ObserveEventTime(t: nat)
      modifies this`lastEventMs
      ensures lastEventMs == if t > old(lastEventMs) then t else old(lastEventMs)
    {
      if t > lastEventMs {
        lastEventMs := t;
      }
    }

    /** One event goes to its accumulator; a type this build does not know is dropped. */
    method Dispatch(e: Event)
      requires Valid()
      modifies this`events, pointer, keystroke, interaction
      ensures Valid() && events == old(events) + [e]
    {
      OneMoreEvent([], events, e);
      hide Feed, KeysOf, TouchesOf;
      match e {
        case Polyline(startMs, pts) =>
          pointer.Add(startMs, pts);
        case Typed(key) =>
          keystroke.AddKey(key);
        case Touched(_, touch) =>
          match touch {
            case Scroll(mode) => interaction.AddScroll(mode);
            case Focus(target) => interaction.AddFocus(target);
            case Visibility(state) => interaction.AddVisibility(state);
            case Form(action, field) => interaction.AddForm(action, field);
          }
        case Unknown(_) =>
      }
      events := events + [e];
    }

    /** One envelope. What is returned is what the snapshot store is given. */
    method IngestTelemetry(round: Snapshot.Rounding, batch: nat, sentAtMs: nat, envelope: seq<Event>)
      returns (snapshot: Snapshot.FeatureState, snapshotMs: nat)
      requires Valid()
      modifies this, pointer, keystroke, interaction
      ensures Valid() && events == old(events) + envelope
      ensures snapshot == Snapshot.FromState(round, FeaturesOf(root, events))
      ensures lastEventMs == snapshotMs
           == Latest(if sentAtMs > old(lastEventMs) then sentAtMs else old(lastEventMs), envelope)
      ensures batchesSeen == old(batchesSeen) + 1
    {
      hide Feed, KeysOf, TouchesOf, FeaturesOf, Snapshot.FromState, Valid, TimeOf;
      ObserveBatch(batch, sentAtMs);
      ghost var start := lastEventMs;
      for i := 0 to |envelope|
        invariant Valid() && events == old(events) + envelope[..i]
        invariant lastEventMs == Latest(start, envelope[..i])
        invariant batchesSeen == old(batchesSeen) + 1
      {
        assert envelope[..i + 1][..i] == envelope[..i];
        ObserveEventTime(TimeOf(envelope[i]));
        Dispatch(envelope[i]);
      }
      assert envelope[..|envelope|] == envelope;
      snapshot := Snapshot.FromState(round, Features());
      snapshotMs := lastEventMs;
    }
  }

  // ---- Over a run of events ----

  /** Whatever happens next, there is at least as much evidence. */
  lemma EvidenceIsKept(root: RootFn, events: seq<Event>, more: seq<Event>)
    requires IsRoot(root)
    ensures AtLeast(FeaturesOf(root, events), FeaturesOf(root, events + more))
  {
    FeedInTwo([], events, more);
    var samples := FeedExtends(Feed([], events), more);
    MoreSamples(root, Feed([], events), samples);
    var keys := KeysAndTouchesGrow(events, more);
    Rhythm.MoreKeys(KeysOf(events), keys);
    I.MoreTouches(TouchesOf(events), TouchesOf(more));
    hide Feed, KeysOf, TouchesOf, I.OfBag, Offline, IsRoot;
  }

  /**
   Along any run of events, for any action and any accepted calibration, neither confidence nor
   the number of contributing channels ever falls.
   */
  lemma ConfidenceNeverFalls(root: RootFn, cal: Calibration, events: seq<Event>, more: seq<Event>, action: string)
    requires IsRoot(root) && Accepted(cal)
    ensures var j := Judged(cal, FeaturesOf(root, events), action);
      var j' := Judged(cal, FeaturesOf(root, events + more), action);
      j.confidence <= j'.confidence && j.contributing <= j'.contributing
  {
    EvidenceIsKept(root, events, more);
    ConfidenceGrows(cal, FeaturesOf(root, events), FeaturesOf(root, events + more), action);
  }

  // ---- From the page to the features ----

  /**
   A session that has ingested all a page sampled sees the pointer as if it had been sent as one
   polyline, wherever the page cut it, whenever it flushed, and whatever else it reported between.
   */
  lemma CollectedAsSampled(page: Sdk.Sampler, session: Session)
    requires page.Valid() && session.Valid() && session.events == page.Pending()
    ensures session.Features().pointer == Offline(session.root, Sdk.Uncut(page.Samples()))
  {
    page.PendingIsUncut();
    hide Sdk.AddUpTo, Feed, Sdk.Uncut;
  }
}
