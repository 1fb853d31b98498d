/**
 What the scores mean: which way each feature speaks, how loudly, in whose name, and how much of
 the judgement it is.
 */
module Scoring {
  import opened Geometry
  import Segmentation
  import Rhythm
  import Interaction
  import opened Stable
  import opened Policy

  // ---- The pointer ----

  /** A calibration under which straight paths are the suspicious ones. */
  predicate StraightIsSuspect(cal: Calibration) {
    cal.straightnessFloor < cal.straightnessCeil
  }

  /** The straighter the more suspect: not at all up to the floor, wholly from the ceiling, in proportion between. */
  lemma StraighterIsMoreSuspect(
    cal: Calibration, a: Segmentation.PointerState, b: Segmentation.PointerState, w: real)
    requires Accepted(cal) && StraightIsSuspect(cal) && w > 0.0 && a.segments > 0 && b.segments > 0
    ensures var s, t := PointerChannel(cal, a, w).score, PointerChannel(cal, b, w).score;
      && (a.straightness <= b.straightness ==> s <= t)
      && (s == 0.0 <==> a.straightness <= cal.straightnessFloor)
      && (s == 1.0 <==> a.straightness >= cal.straightnessCeil)
      && (cal.straightnessFloor <= a.straightness <= cal.straightnessCeil ==>
            s * (cal.straightnessCeil - cal.straightnessFloor) == a.straightness - cal.straightnessFloor)
  {
    RampRises(a.straightness, b.straightness, cal.straightnessFloor, cal.straightnessCeil);
    hide Ramp, Accepted, PointerConfidence;
  }

  /** A ramp whose ends meet says nothing: such a calibration silences its feature. */
  lemma FlatRampIsSilent(cal: Calibration, st: Segmentation.PointerState, w: real, v: real, end: real)
    requires Accepted(cal) && w > 0.0 && cal.straightnessFloor == cal.straightnessCeil
    ensures Ramp(v, end, end) == 0.0
    ensures PointerChannel(cal, st, w).score == 0.0 && PointerChannel(cal, st, w).reasons == []
  {}

  /** Evidence of the pointer is half the segments wanted and half the path wanted, each up to its fill. */
  lemma PointerEvidence(cal: Calibration, segments: nat, pathPx: real)
    requires Accepted(cal) && segments > 0
    ensures var c := PointerConfidence(cal, segments, pathPx);
      && c > 0.0
      && (c == 1.0 <==> segments as real >= cal.confidenceSegments && pathPx >= cal.confidencePathPx)
      && (pathPx <= 0.0 && segments as real >= cal.confidenceSegments ==> c == 0.5)
      && (segments as real <= cal.confidenceSegments && 0.0 <= pathPx <= cal.confidencePathPx ==>
            2.0 * c == segments as real / cal.confidenceSegments + pathPx / cal.confidencePathPx)
  {
    Quotients(segments as real, cal.confidenceSegments);
    Quotients(pathPx, cal.confidencePathPx);
    QuotientAtMostOne(segments as real, cal.confidenceSegments);
    QuotientAtMostOne(pathPx, cal.confidencePathPx);
  }

  lemma QuotientAtMostOne(a: real, n: real)
    requires n > 0.0
    ensures a <= n ==> a / n <= 1.0
    ensures a >= 0.0 ==> a / n >= 0.0
  {
    if a <= n {
      Divided(a, n, n);
      assert n / n == 1.0;
    }
    if a >= 0.0 {
      Rhythm.Quotient(a, n);
    }
  }

  // ---- Typing ----

  /** A calibration under which regular typing is the suspicious kind. */
  predicate RegularIsSuspect(cal: Calibration) {
    cal.flightCVCeil < cal.flightCVFloor
  }

  /** A mean hold speaks by how far it falls short of a physical one, in proportion; no hold says nothing. */
  lemma ShorterHoldIsMoreSuspect(m: real, n: real, limit: real)
    requires limit > 0.0
    ensures 0.0 < m <= n ==> Shortfall(m, limit) >= Shortfall(n, limit)
    ensures 0.0 < m < limit ==> Shortfall(m, limit) * limit == limit - m
    ensures m <= 0.0 || m >= limit ==> Shortfall(m, limit) == 0.0
  {
    Rhythm.DivideBack(m, limit);
    if 0.0 < m <= n {
      Divided(m, n, limit);
    }
    if 0.0 < m < limit {
      assert (1.0 - m / limit) * limit == limit - (m / limit) * limit;
    }
  }

  /** Repeated intervals speak in proportion to the ratio wanted, wholly from it on; any at all do if that is zero. */
  lemma RepeatsSaturate(ratio: real, at: real)
    requires ratio > 0.0 && at >= 0.0
    ensures Saturated(ratio, at) == 1.0 <==> ratio >= at
    ensures ratio < at ==> Saturated(ratio, at) * at == ratio
  {
    if at > 0.0 {
      Quotients(ratio, at);
      Rhythm.Quotient(ratio, at);
      Rhythm.DivideBack(ratio, at);
    }
  }

  /** The typing score is the loudest of three: rhythm from the flights, hold from the dwells, repeats of flights. */
  lemma TypingScore(cal: Calibration, st: Rhythm.KeystrokeState, w: real)
    requires Accepted(cal) && w > 0.0
    ensures var s := KeystrokeChannel(cal, st, w).score;
      && (st.intervals == 0 ==> s == 0.0)
      && (st.intervals > 0 ==>
            && s >= Ramp(st.flightCV, cal.flightCVFloor, cal.flightCVCeil)
            && s >= Shortfall(st.meanDwellMs, cal.dwellAbsentMs)
            && (st.exactRepeatRatio > 0.0 ==> s >= Saturated(st.exactRepeatRatio, cal.identicalIntervalRatio))
            && (s == Ramp(st.flightCV, cal.flightCVFloor, cal.flightCVCeil)
                || s == Shortfall(st.meanDwellMs, cal.dwellAbsentMs)
                || (st.exactRepeatRatio > 0.0
                    && s == Saturated(st.exactRepeatRatio, cal.identicalIntervalRatio))))
  {}

  /** Neither short holds nor repeats: rhythm alone speaks. */
  predicate OnlyRhythm(st: Rhythm.KeystrokeState) {
    st.intervals > 0 && st.meanDwellMs <= 0.0 && st.exactRepeatRatio <= 0.0
  }

  /**
   Where rhythm alone speaks, the more regular the more suspect: not at all from the upper bound of
   the flights' variation, wholly up to the lower, in proportion between.
   */
  lemma MoreRegularIsMoreSuspect(cal: Calibration, a: Rhythm.KeystrokeState, b: Rhythm.KeystrokeState, w: real)
    requires Accepted(cal) && RegularIsSuspect(cal) && w > 0.0 && OnlyRhythm(a) && OnlyRhythm(b)
    ensures var s, t := KeystrokeChannel(cal, a, w).score, KeystrokeChannel(cal, b, w).score;
      && (a.flightCV <= b.flightCV ==> s >= t)
      && (s == 0.0 <==> a.flightCV >= cal.flightCVFloor)
      && (s == 1.0 <==> a.flightCV <= cal.flightCVCeil)
      && (cal.flightCVCeil <= a.flightCV <= cal.flightCVFloor ==>
            s * (cal.flightCVFloor - cal.flightCVCeil) == cal.flightCVFloor - a.flightCV)
  {
    RampFalls(a.flightCV, b.flightCV, cal.flightCVFloor, cal.flightCVCeil);
    TypingScore(cal, a, w);
    TypingScore(cal, b, w);
    hide Ramp, Accepted, KeystrokeChannel;
  }

  /** Evidence of typing is the intervals against those wanted, up to its fill. */
  lemma TypingEvidence(cal: Calibration, intervals: nat)
    requires Accepted(cal)
    ensures var c := KeystrokeConfidence(cal, intervals);
      && (c == 1.0 <==> intervals as real >= cal.confidenceIntervals)
      && (intervals as real <= cal.confidenceIntervals ==> c * cal.confidenceIntervals == intervals as real)
  {
    Quotients(intervals as real, cal.confidenceIntervals);
    QuotientAtMostOne(intervals as real, cal.confidenceIntervals);
    Rhythm.DivideBack(intervals as real, cal.confidenceIntervals);
  }

  // ---- Structure ----

  /** What each structural sign says: injection 0.55 and a quarter a field, self-made scrolls doubled, no focus 0.6. */
  lemma StructureScore(st: Interaction.InteractionState, w: real)
    requires w > 0.0
    ensures var s := InteractionChannel(st, w).score;
      if st.focusTransitions == 0 && st.scrollEvents == 0 && st.pastes == 0 && st.injections == 0 then s == 0.0
      else
        && (st.injections > 0 ==> s >= Clamp01(0.55 + 0.25 * st.injectedFields as real))
        && (st.programmaticScrollRatio > 0.0 ==> s >= Clamp01(2.0 * st.programmaticScrollRatio))
        && (st.focusTransitions == 0 ==> s >= 0.6)
        && (s == 0.0
            || (st.injections > 0 && s == Clamp01(0.55 + 0.25 * st.injectedFields as real))
            || (st.programmaticScrollRatio > 0.0 && s == Clamp01(2.0 * st.programmaticScrollRatio))
            || (st.focusTransitions == 0 && s == 0.6))
  {}

  /** Injection and self-made scrolls are full evidence; otherwise six focus events are, or twenty scrolls. */
  lemma StructureEvidence(st: Interaction.InteractionState)
    ensures var c := InteractionConfidence(st);
      if st.injections > 0 then c == 1.0
      else if st.programmaticScrollRatio > 0.0 then c == 1.0 || NoStructure(st)
      else c == Clamp01((10 * st.focusTransitions + 3 * st.scrollEvents) as real / 60.0)
  {}

  // ---- In whose name ----

  /** Every reason a channel gives names what it is about and weighs what that says. */
  ghost predicate NamesItsCause(cal: Calibration, st: State, r: Reason)
    requires Accepted(cal)
  {
    var typing, structure := st.keystroke, st.interaction;
    match r.code
    case PointerLinearity =>
      st.pointer.segments > 0
      && r.weight == Ramp(st.pointer.straightness, cal.straightnessFloor, cal.straightnessCeil)
    case KeyIntervalVarianceLow =>
      typing.intervals > 0 && r.weight == Ramp(typing.flightCV, cal.flightCVFloor, cal.flightCVCeil)
    case KeyDwellAbsent =>
      typing.intervals > 0 && r.weight == Shortfall(typing.meanDwellMs, cal.dwellAbsentMs)
    case KeyIntervalsIdentical =>
      typing.intervals > 0 && typing.exactRepeatRatio > 0.0
      && r.weight == Saturated(typing.exactRepeatRatio, cal.identicalIntervalRatio)
    case ProgrammaticScroll =>
      structure.programmaticScrollRatio > 0.0 && r.weight == Clamp01(2.0 * structure.programmaticScrollRatio)
    case NoFocusTransitions => structure.focusTransitions == 0 && r.weight == 0.6
    case ValueInjected =>
      structure.injections > 0 && r.weight == Clamp01(0.55 + 0.25 * structure.injectedFields as real)
    case InsufficientEvidence => false
  }

  lemma PointerReasons(cal: Calibration, st: State, w: real)
    requires Accepted(cal) && w > 0.0
    ensures forall r :: r in PointerChannel(cal, st.pointer, w).reasons ==> NamesItsCause(cal, st, r)
  {}

  lemma TypingReasons(cal: Calibration, st: State, w: real)
    requires Accepted(cal) && w > 0.0
    ensures forall r :: r in KeystrokeChannel(cal, st.keystroke, w).reasons ==> NamesItsCause(cal, st, r)
  {
    hide Ramp, Shortfall, Saturated, KeystrokeConfidence, Max3;
  }

  lemma StructureReasons(cal: Calibration, st: State, w: real)
    requires Accepted(cal) && w > 0.0
    ensures forall r :: r in InteractionChannel(st.interaction, w).reasons ==> NamesItsCause(cal, st, r)
  {
    hide Accepted, Clamp01, InteractionConfidence, Max3;
  }

  lemma ContributedOfThree(cs: seq<Channel>)
    requires |cs| == 3
    ensures Contributed(cs) == cs[0].reasons + cs[1].reasons + cs[2].reasons
  {
    var two, one := cs[..2], cs[..1];
    assert two[..1] == one && one[..0] == [];
    assert Contributed(one) == cs[0].reasons;
    assert Contributed(two) == cs[0].reasons + cs[1].reasons;
  }

  /** A judgement's reasons name their causes, and evidence is called insufficient exactly when it is, by its lack. */
  lemma ReasonsNameTheirCauses(cal: Calibration, st: State, action: string)
    requires Accepted(cal)
    ensures var j := Judged(cal, st, action);
      && (forall r :: r in j.reasons ==>
            if r.code == InsufficientEvidence then r.weight == 1.0 - j.confidence else NamesItsCause(cal, st, r))
      && ((exists r :: r in j.reasons && r.code == InsufficientEvidence)
          <==> j.confidence < cal.minConfidenceToChallenge)
  {
    var cs, j := Channels(cal, st, action), Judged(cal, st, action);
    var w := WeightsFor(action);
    PointerReasons(cal, st, w.pointer);
    TypingReasons(cal, st, w.keystroke);
    StructureReasons(cal, st, w.interaction);
    ContributedOfThree(cs);
    var all, lack := ReasonsOf(cal, cs), Reason(InsufficientEvidence, 1.0 - j.confidence);
    SortIsStable(all);
    StableSortPermutes(j.reasons, all);
    hide Sort, NamesItsCause, PointerChannel, KeystrokeChannel, InteractionChannel, ConfidenceOf, ScoreOf, Accepted,
      Contributed, IsStableSort;
    assert forall r :: r in j.reasons <==> r in multiset(j.reasons);
    assert forall r :: r in all <==> r in multiset(all);
    forall r | r in j.reasons
      ensures if r.code == InsufficientEvidence then r.weight == 1.0 - j.confidence && r == lack
              else NamesItsCause(cal, st, r)
      ensures r.code == InsufficientEvidence ==> j.confidence < cal.minConfidenceToChallenge
    {
      assert r in all;
      NoChannelLacks(cal, st, r);
    }
    if j.confidence < cal.minConfidenceToChallenge {
      assert lack in all;
    }
  }

  lemma NoChannelLacks(cal: Calibration, st: State, r: Reason)
    requires Accepted(cal)
    ensures NamesItsCause(cal, st, r) ==> r.code != InsufficientEvidence
  {}

  // ---- How much of the judgement ----

  /** Which channel matters for which action. */
  lemma WeightsTable(action: string)
    ensures var w := WeightsFor(action);
      && (action == "login" ==> w.pointer == 0.35 && w.keystroke == 0.50 && w.interaction == 0.15)
      && (action == "signup" ==> w.pointer == 0.30 && w.keystroke == 0.55 && w.interaction == 0.15)
      && (action == "checkout" ==> w.pointer == 0.55 && w.keystroke == 0.20 && w.interaction == 0.25)
      && (action == "comment" ==> w.pointer == 0.25 && w.keystroke == 0.60 && w.interaction == 0.15)
      && (action !in {"login", "signup", "checkout", "comment"} ==>
            w.pointer == 0.40 && w.keystroke == 0.40 && w.interaction == 0.20)
  {}

  /** The weight of the channel that matters most. */
  function Dominant(w: Weights): real {
    var m := if w.pointer < w.keystroke then w.keystroke else w.pointer;
    if m < w.interaction then w.interaction else m
  }

  lemma HeaviestOfThree(cs: seq<Channel>, w: Weights)
    requires |cs| == 3 && cs[0].weight == w.pointer && cs[1].weight == w.keystroke && cs[2].weight == w.interaction
    requires w.pointer > 0.0 && w.keystroke > 0.0 && w.interaction > 0.0
    ensures Heaviest(cs) == Dominant(w)
  {
    var two, one := cs[..2], cs[..1];
    assert two[..1] == one && one[..0] == [];
    assert Heaviest(one) == w.pointer;
  }

  /** What a channel's evidence is worth at a weight, and what its score is worth with it. */
  function Part(weight: real, c: Channel): real {
    weight * c.confidence
  }

  function Voice(weight: real, c: Channel): real {
    c.score * (weight * c.confidence)
  }

  /** Each channel's evidence counts by its own weight, and its score by its evidence. */
  ghost predicate Weighs(score: real, confidence: real, w: Weights, p: Channel, k: Channel, i: Channel)
    requires Dominant(w) > 0.0
  {
    var mass := Part(w.pointer, p) + Part(w.keystroke, k) + Part(w.interaction, i);
    && confidence == Clamp01(mass / Dominant(w))
    && score * mass == Voice(w.pointer, p) + Voice(w.keystroke, k) + Voice(w.interaction, i)
    && (mass == 0.0 ==> score == 0.0)
  }

  lemma JudgementWeighs(cal: Calibration, st: State, action: string)
    requires Accepted(cal)
    ensures Judged(cal, st, action).contributing
         == Heard(PointerConfidence(cal, st.pointer.segments, st.pointer.pathPx))
            + Heard(KeystrokeConfidence(cal, st.keystroke.intervals)) + Heard(InteractionConfidence(st.interaction))
    ensures var j, w := Judged(cal, st, action), WeightsFor(action);
      Weighs(j.score, j.confidence, w, PointerChannel(cal, st.pointer, w.pointer),
             KeystrokeChannel(cal, st.keystroke, w.keystroke), InteractionChannel(st.interaction, w.interaction))
  {
    hide WeightsFor, PointerChannel, KeystrokeChannel, InteractionChannel, Accepted, Sort, ReasonsOf, Weighs, ScoreOf,
      ConfidenceOf, Speaking;
    var w, cs := WeightsFor(action), Channels(cal, st, action);
    ChannelsWeigh(cs, w);
    ThreeChannels(cs);
  }

  function Heard(confidence: real): nat {
    if confidence > 0.0 then 1 else 0
  }

  lemma ChannelsWeigh(cs: seq<Channel>, w: Weights)
    requires |cs| == 3 && AllSound(cs)
    requires cs[0].weight == w.pointer && cs[1].weight == w.keystroke && cs[2].weight == w.interaction
    requires w.pointer > 0.0 && w.keystroke > 0.0 && w.interaction > 0.0
    ensures Weighs(ScoreOf(cs), ConfidenceOf(cs), w, cs[0], cs[1], cs[2])
  {
    hide ScoreOf, TotalMass, Mass, Vote, AllSound, Clamp01, Part, Voice, Heaviest;
    HeaviestOfThree(cs, w);
    VotesAddUp(cs);
    OwnWeight(cs[0]);
    OwnWeight(cs[1]);
    OwnWeight(cs[2]);
  }

  lemma OwnWeight(c: Channel)
    ensures Part(c.weight, c) == Mass(c) && Voice(c.weight, c) == Vote(c)
  {}

  /** The score times the mass is the votes, for it is an average that needs no clamp. */
  lemma VotesAddUp(cs: seq<Channel>)
    requires |cs| == 3 && AllSound(cs)
    ensures TotalMass(cs) == Mass(cs[0]) + Mass(cs[1]) + Mass(cs[2])
    ensures ScoreOf(cs) * TotalMass(cs) == Vote(cs[0]) + Vote(cs[1]) + Vote(cs[2])
    ensures TotalMass(cs) == 0.0 ==> ScoreOf(cs) == 0.0
  {
    ThreeChannels(cs);
    MassIsSpoken(cs);
    if TotalMass(cs) > 0.0 {
      UnitAverage(cs);
      Rhythm.DivideBack(ScoredMass(cs), TotalMass(cs));
      hide ScoredMass, TotalMass, Vote, Mass;
    } else {
      assert Sound(cs[0]) && Sound(cs[1]) && Sound(cs[2]);
      MassOfSound(cs[0]);
      MassOfSound(cs[1]);
      MassOfSound(cs[2]);
      hide ScoredMass, TotalMass, Mass, Sound;
      assert Mass(cs[0]) == 0.0 && Mass(cs[1]) == 0.0 && Mass(cs[2]) == 0.0;
      NoVote(cs[0]);
      NoVote(cs[1]);
      NoVote(cs[2]);
    }
  }

  lemma NoVote(c: Channel)
    requires Mass(c) == 0.0
    ensures Vote(c) == 0.0
  {}

  lemma UnitAverage(cs: seq<Channel>)
    requires AllSound(cs) && TotalMass(cs) > 0.0
    ensures Unit(ScoredMass(cs) / TotalMass(cs))
  {
    assert SpokenWithin(cs, 0.0, 1.0) by {
      assert forall i :: 0 <= i < |cs| ==> Sound(cs[i]);
    }
    MassWithin(cs, 0.0, 1.0);
    AverageOf(0.0, ScoredMass(cs), 1.0, TotalMass(cs));
  }

  /** The pointer is all there is to go on. */
  predicate OnlyPointer(st: State) {
    st.pointer.segments > 0 && st.keystroke.intervals == 0 && NoStructure(st.interaction)
  }

  /** Typing is all there is to go on, and of typing its rhythm. */
  predicate OnlyTyping(st: State) {
    st.pointer.segments == 0 && OnlyRhythm(st.keystroke) && NoStructure(st.interaction)
  }

  lemma AloneIsItself(cs: seq<Channel>, i: nat)
    requires |cs| == 3 && AllSound(cs) && i < 3 && cs[i].confidence > 0.0
    requires forall j :: 0 <= j < 3 && j != i ==> cs[j].confidence == 0.0
    ensures ScoreOf(cs) == cs[i].score
  {
    ThreeChannels(cs);
    assert SpokenWithin(cs, cs[i].score, cs[i].score);
    ScoreIsBetween(cs, cs[i].score, cs[i].score);
  }

  /** With the pointer alone to go on, for every action, the judgement is the pointer's own. */
  lemma JudgedStraightness(cal: Calibration, a: State, b: State, action: string)
    requires Accepted(cal) && StraightIsSuspect(cal) && OnlyPointer(a) && OnlyPointer(b)
    ensures var s, t := Judged(cal, a, action).score, Judged(cal, b, action).score;
      && (a.pointer.straightness <= b.pointer.straightness ==> s <= t)
      && (s == 0.0 <==> a.pointer.straightness <= cal.straightnessFloor)
      && (s == 1.0 <==> a.pointer.straightness >= cal.straightnessCeil)
  {
    PointerIsAlone(cal, a, action);
    PointerIsAlone(cal, b, action);
    hide Judged, PointerChannel, Accepted;
    StraighterIsMoreSuspect(cal, a.pointer, b.pointer, WeightsFor(action).pointer);
  }

  lemma PointerIsAlone(cal: Calibration, st: State, action: string)
    requires Accepted(cal) && OnlyPointer(st)
    ensures Judged(cal, st, action).score == PointerChannel(cal, st.pointer, WeightsFor(action).pointer).score
  {
    var cs := Channels(cal, st, action);
    PointerEvidence(cal, st.pointer.segments, st.pointer.pathPx);
    NoIntervals(cal);
    hide PointerConfidence, KeystrokeConfidence, Accepted, WeightsFor, Ramp;
    AloneIsItself(cs, 0);
  }

  /** With rhythm alone to go on, for every action, the judgement is the rhythm's own. */
  lemma JudgedRegularity(cal: Calibration, a: State, b: State, action: string)
    requires Accepted(cal) && RegularIsSuspect(cal) && OnlyTyping(a) && OnlyTyping(b)
    ensures var s, t := Judged(cal, a, action).score, Judged(cal, b, action).score;
      && (a.keystroke.flightCV <= b.keystroke.flightCV ==> s >= t)
      && (s == 0.0 <==> a.keystroke.flightCV >= cal.flightCVFloor)
      && (s == 1.0 <==> a.keystroke.flightCV <= cal.flightCVCeil)
  {
    TypingIsAlone(cal, a, action);
    TypingIsAlone(cal, b, action);
    hide Judged, KeystrokeChannel, Accepted;
    MoreRegularIsMoreSuspect(cal, a.keystroke, b.keystroke, WeightsFor(action).keystroke);
  }

  lemma TypingIsAlone(cal: Calibration, st: State, action: string)
    requires Accepted(cal) && OnlyTyping(st)
    ensures Judged(cal, st, action).score == KeystrokeChannel(cal, st.keystroke, WeightsFor(action).keystroke).score
  {
    var cs := Channels(cal, st, action);
    Quotients(st.keystroke.intervals as real, cal.confidenceIntervals);
    assert KeystrokeConfidence(cal, st.keystroke.intervals) > 0.0;
    hide PointerConfidence, KeystrokeConfidence, Accepted, WeightsFor, Ramp;
    AloneIsItself(cs, 1);
  }
}
