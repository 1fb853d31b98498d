/**
 From features to a judgement, and from a judgement to a decision. Three channels are scored
 and weighted by the evidence they hold, so that one without evidence abstains.
 */
module Policy {
  import opened Wrappers
  import opened Geometry
  import Segmentation
  import Rhythm
  import Interaction
  import opened Stable

  /** The full feature vector of a session. */
  datatype State = State(
    pointer: Segmentation.PointerState, keystroke: Rhythm.KeystrokeState, interaction: Interaction.InteractionState)

  datatype Calibration = Calibration(
    straightnessFloor: real, straightnessCeil: real, flightCVFloor: real, flightCVCeil: real, dwellAbsentMs: real,
    identicalIntervalRatio: real, confidenceSegments: real, confidencePathPx: real, confidenceIntervals: real,
    minConfidenceToChallenge: real, minConfidenceToBlock: real, scoreToChallenge: real, scoreToBlock: real,
    minChannelsToBlock: int)

  predicate Unit(v: real) {
    0.0 <= v <= 1.0
  }

  /** A calibration the service starts with: the identical-interval ratio may be zero. */
  predicate Accepted(c: Calibration) {
    && Unit(c.straightnessFloor) && Unit(c.straightnessCeil) && Unit(c.identicalIntervalRatio)
    && Unit(c.minConfidenceToChallenge) && Unit(c.minConfidenceToBlock)
    && Unit(c.scoreToChallenge) && Unit(c.scoreToBlock)
    && c.flightCVFloor > 0.0 && c.flightCVCeil > 0.0 && c.dwellAbsentMs > 0.0
    && c.confidenceSegments > 0.0 && c.confidencePathPx > 0.0 && c.confidenceIntervals > 0.0
    && c.minChannelsToBlock >= 1
  }

  /** How much each channel matters for an action. */
  datatype Weights = Weights(pointer: real, keystroke: real, interaction: real)

  function WeightsFor(action: string): (w: Weights)
    ensures w.pointer > 0.0 && w.keystroke > 0.0 && w.interaction > 0.0
    ensures w.pointer + w.keystroke + w.interaction == 1.0
  {
    match action
    case "login" => Weights(0.35, 0.50, 0.15)
    case "signup" => Weights(0.30, 0.55, 0.15)
    case "checkout" => Weights(0.55, 0.20, 0.25)
    case "comment" => Weights(0.25, 0.60, 0.15)
    case _ => Weights(0.40, 0.40, 0.20)
  }

  datatype Judgement = Judgement(score: real, confidence: real, reasons: seq<Reason>, contributing: nat)

  /** One evidence stream's contribution. */
  datatype Channel = Channel(score: real, confidence: real, weight: real, reasons: seq<Reason>)

  function Clamp01(v: real): (r: real)
    ensures Unit(r) && (Unit(v) ==> r == v)
  {
    Clamp(v, 0.0, 1.0)
  }

  /** Maps `v` from `zero` to `one` onto [0, 1], in either direction. */
  function Ramp(v: real, zero: real, one: real): (r: real)
    ensures Unit(r)
  {
    if zero == one then 0.0 else Clamp01((v - zero) / (one - zero))
  }

  function Max3(a: real, b: real, c: real): (m: real)
    ensures m >= a && m >= b && m >= c && m >= 0.0 && (m == a || m == b || m == c || m == 0.0)
  {
    var m := if a > 0.0 then a else 0.0;
    var n := if b > m then b else m;
    if c > n then c else n
  }

  function When(b: bool, r: Reason): seq<Reason> {
    if b then [r] else []
  }

  ghost predicate UnitWeights(rs: seq<Reason>) {
    forall i :: 0 <= i < |rs| ==> Unit(rs[i].weight)
  }

  ghost predicate Sound(c: Channel) {
    Unit(c.score) && Unit(c.confidence) && c.weight > 0.0 && UnitWeights(c.reasons)
  }

  // ---- The channels ----

  function PointerChannel(cal: Calibration, st: Segmentation.PointerState, weight: real): (c: Channel)
    requires Accepted(cal) && weight > 0.0
    ensures Sound(c) && c.weight == weight
    ensures c.confidence == PointerConfidence(cal, st.segments, st.pathPx)
  {
    if st.segments == 0 then Channel(0.0, 0.0, weight, [])
    else
      var score := Ramp(st.straightness, cal.straightnessFloor, cal.straightnessCeil);
      Channel(score, PointerConfidence(cal, st.segments, st.pathPx), weight,
              When(score > 0.0, Reason(PointerLinearity, score)))
  }

  function PointerConfidence(cal: Calibration, segments: nat, pathPx: real): (r: real)
    requires Accepted(cal)
    ensures Unit(r)
  {
    if segments == 0 then 0.0
    else
      Clamp01(0.5 * Clamp01(segments as real / cal.confidenceSegments) + 0.5 * Clamp01(pathPx / cal.confidencePathPx))
  }

  function KeystrokeChannel(cal: Calibration, st: Rhythm.KeystrokeState, weight: real): (c: Channel)
    requires Accepted(cal) && weight > 0.0
    ensures Sound(c) && c.weight == weight
    ensures c.confidence == KeystrokeConfidence(cal, st.intervals)
  {
    if st.intervals == 0 then NoIntervals(cal); Channel(0.0, 0.0, weight, [])
    else
      var rhythm := Ramp(st.flightCV, cal.flightCVFloor, cal.flightCVCeil);
      var dwell := Shortfall(st.meanDwellMs, cal.dwellAbsentMs);
      var repeats := st.exactRepeatRatio > 0.0;
      var identical := if repeats then Saturated(st.exactRepeatRatio, cal.identicalIntervalRatio) else 0.0;
      Channel(Max3(rhythm, dwell, identical), KeystrokeConfidence(cal, st.intervals), weight,
              When(rhythm > 0.0, Reason(KeyIntervalVarianceLow, rhythm))
              + When(dwell > 0.0, Reason(KeyDwellAbsent, dwell))
              + When(repeats, Reason(KeyIntervalsIdentical, identical)))
  }

  /** How far a mean hold falls short of one that was physically made; no hold at all is no evidence. */
  function Shortfall(mean: real, limit: real): (r: real)
    requires limit > 0.0
    ensures 0.0 <= r < 1.0 && (r > 0.0 <==> 0.0 < mean < limit)
  {
    if 0.0 < mean < limit then FractionBelowOne(mean, limit); 1.0 - mean / limit else 0.0
  }

  function KeystrokeConfidence(cal: Calibration, intervals: nat): (r: real)
    requires Accepted(cal)
    ensures Unit(r)
  {
    Clamp01(intervals as real / cal.confidenceIntervals)
  }

  lemma NoIntervals(cal: Calibration)
    requires Accepted(cal)
    ensures KeystrokeConfidence(cal, 0) == 0.0
  {}

  /** A positive ratio over its saturation point; over zero it is infinite, and clamps to one. */
  function Saturated(ratio: real, at: real): (r: real)
    requires ratio > 0.0 && at >= 0.0
    ensures Unit(r)
  {
    if at == 0.0 then 1.0 else Clamp01(ratio / at)
  }

  predicate NoStructure(st: Interaction.InteractionState) {
    st.focusTransitions == 0 && st.scrollEvents == 0 && st.pastes == 0 && st.injections == 0
  }

  function InteractionChannel(st: Interaction.InteractionState, weight: real): (c: Channel)
    requires weight > 0.0
    ensures Sound(c) && c.weight == weight
    ensures c.confidence == InteractionConfidence(st)
  {
    if NoStructure(st) then Channel(0.0, 0.0, weight, [])
    else
      var injects, programmatic, unfocused :=
        st.injections > 0, st.programmaticScrollRatio > 0.0, st.focusTransitions == 0;
      var injected := if injects then Clamp01(0.55 + 0.25 * st.injectedFields as real) else 0.0;
      var prog := if programmatic then Clamp01(st.programmaticScrollRatio * 2.0) else 0.0;
      var noFocus := if unfocused then 0.6 else 0.0;
      Channel(Max3(prog, noFocus, injected), InteractionConfidence(st), weight,
              When(injects, Reason(ValueInjected, injected)) + When(programmatic, Reason(ProgrammaticScroll, prog))
              + When(unfocused, Reason(NoFocusTransitions, noFocus)))
  }

  function InteractionConfidence(st: Interaction.InteractionState): (r: real)
    ensures Unit(r)
  {
    if NoStructure(st) then 0.0
    else if st.injections > 0 || st.programmaticScrollRatio > 0.0 then 1.0
    else Clamp01(st.focusTransitions as real / 6.0 + st.scrollEvents as real / 20.0)
  }

  function Channels(cal: Calibration, st: State, action: string): (cs: seq<Channel>)
    requires Accepted(cal)
    ensures |cs| == 3 && AllSound(cs)
  {
    var w := WeightsFor(action);
    [PointerChannel(cal, st.pointer, w.pointer), KeystrokeChannel(cal, st.keystroke, w.keystroke),
     InteractionChannel(st.interaction, w.interaction)]
  }

  ghost predicate AllSound(cs: seq<Channel>) {
    forall i :: 0 <= i < |cs| ==> Sound(cs[i])
  }

  // ---- What the channels say together ----

  /** Evidence, weighted. */
  function Mass(c: Channel): real {
    c.weight * c.confidence
  }

  /** A score, weighted by the evidence for it. */
  function Vote(c: Channel): real {
    c.score * Mass(c)
  }

  function TotalMass(cs: seq<Channel>): real {
    if cs == [] then 0.0 else TotalMass(cs[..|cs| - 1]) + Mass(cs[|cs| - 1])
  }

  function ScoredMass(cs: seq<Channel>): real {
    if cs == [] then 0.0 else ScoredMass(cs[..|cs| - 1]) + Vote(cs[|cs| - 1])
  }

  function Heaviest(cs: seq<Channel>): real {
    if cs == [] then 0.0
    else
      var most, w := Heaviest(cs[..|cs| - 1]), cs[|cs| - 1].weight;
      if w > most then w else most
  }

  function Speaking(cs: seq<Channel>): nat {
    if cs == [] then 0 else Speaking(cs[..|cs| - 1]) + if cs[|cs| - 1].confidence > 0.0 then 1 else 0
  }

  function Contributed(cs: seq<Channel>): seq<Reason> {
    if cs == [] then [] else Contributed(cs[..|cs| - 1]) + cs[|cs| - 1].reasons
  }

  function ScoreOf(cs: seq<Channel>): real {
    if TotalMass(cs) > 0.0 then Clamp01(ScoredMass(cs) / TotalMass(cs)) else 0.0
  }

  function ConfidenceOf(cs: seq<Channel>): real {
    if Heaviest(cs) > 0.0 then Clamp01(TotalMass(cs) / Heaviest(cs)) else 0.0
  }

  function ReasonsOf(cal: Calibration, cs: seq<Channel>): seq<Reason> {
    Contributed(cs)
    + When(ConfidenceOf(cs) < cal.minConfidenceToChallenge, Reason(InsufficientEvidence, 1.0 - ConfidenceOf(cs)))
  }

  /** The judgement of a feature vector for an action. */
  function Judged(cal: Calibration, st: State, action: string): Judgement
    requires Accepted(cal)
  {
    var cs := Channels(cal, st, action);
    Judgement(ScoreOf(cs), ConfidenceOf(cs), Sort(ReasonsOf(cal, cs)), Speaking(cs))
  }

  /** What `Judge` gathers in its pass over the channels. */
  datatype Tally = Tally(scoreNum: real, scoreDen: real, weighted: real, maxWeight: real, active: nat,
                         reasons: seq<Reason>)

  ghost function TallyOf(cs: seq<Channel>): Tally {
    Tally(ScoredMass(cs), TotalMass(cs), TotalMass(cs), Heaviest(cs), Speaking(cs), Contributed(cs))
  }

  lemma TallyOneMore(cs: seq<Channel>, i: nat)
    requires i < |cs|
    ensures var t, c := TallyOf(cs[..i]), cs[i];
      TallyOf(cs[..i + 1]) == Tally(t.scoreNum + Vote(c), t.scoreDen + Mass(c), t.weighted + Mass(c),
        if c.weight > t.maxWeight then c.weight else t.maxWeight,
        t.active + (if c.confidence > 0.0 then 1 else 0), t.reasons + c.reasons)
  {
    hide Mass, Vote;
    assert cs[..i + 1][..i] == cs[..i];
  }

  method Judge(cal: Calibration, st: State, action: string) returns (j: Judgement)
    requires Accepted(cal)
    ensures j == Judged(cal, st, action)
    ensures Unit(j.score) && Unit(j.confidence) && UnitWeights(j.reasons)
    ensures IsStableSort(j.reasons, ReasonsOf(cal, Channels(cal, st, action)))
  {
    var w := WeightsFor(action);
    var channels := [PointerChannel(cal, st.pointer, w.pointer), KeystrokeChannel(cal, st.keystroke, w.keystroke),
                     InteractionChannel(st.interaction, w.interaction)];
    assert channels == Channels(cal, st, action);
    hide PointerChannel, KeystrokeChannel, InteractionChannel, WeightsFor, Channels, AllSound, UnitWeights,
      IsStableSort, Sort, ScoredMass, TotalMass, Heaviest, Speaking, Contributed;
    var scoreNum, scoreDen, weighted, maxWeight, active, reasons := Weigh(channels);
    var score := if scoreDen > 0.0 then Clamp01(scoreNum / scoreDen) else 0.0;
    var confidence := if maxWeight > 0.0 then Clamp01(weighted / maxWeight) else 0.0;
    assert score == ScoreOf(channels) && confidence == ConfidenceOf(channels);
    hide ScoreOf, ConfidenceOf, Clamp01;
    if confidence < cal.minConfidenceToChallenge {
      reasons := reasons + [Reason(InsufficientEvidence, 1.0 - confidence)];
    }
    assert reasons == ReasonsOf(cal, channels);
    ReasonsAreUnit(cal, channels);
    SortIsStable(reasons);
    SortKeepsUnit(reasons);
    j := Judgement(score, confidence, Sort(reasons), active);
  }

  /** The pass `Judge` makes over the channels. */
  method Weigh(channels: seq<Channel>)
    returns (scoreNum: real, scoreDen: real, weighted: real, maxWeight: real, active: nat, reasons: seq<Reason>)
    ensures scoreNum == ScoredMass(channels) && scoreDen == TotalMass(channels) && weighted == TotalMass(channels)
    ensures maxWeight == Heaviest(channels) && active == Speaking(channels) && reasons == Contributed(channels)
  {
    scoreNum, scoreDen, weighted, maxWeight, active := 0.0, 0.0, 0.0, 0.0, 0;
    reasons := [];
    hide TallyOf;
    TallyOfNone(channels[..0]);
    for i := 0 to |channels|
      invariant Tally(scoreNum, scoreDen, weighted, maxWeight, active, reasons) == TallyOf(channels[..i])
    {
      var c := channels[i];
      TallyOneMore(channels, i);
      if c.weight > maxWeight {
        maxWeight := c.weight;
      }
      if c.confidence > 0.0 {
        active := active + 1;
      }
      var effective := Mass(c);
      scoreNum := scoreNum + c.score * effective;
      scoreDen := scoreDen + effective;
      weighted := weighted + effective;
      reasons := reasons + c.reasons;
    }
    assert channels[..|channels|] == channels;
    TallyFields(channels);
  }

  lemma TallyOfNone(cs: seq<Channel>)
    requires cs == []
    ensures TallyOf(cs) == Tally(0.0, 0.0, 0.0, 0.0, 0, [])
  {}

  lemma TallyFields(cs: seq<Channel>)
    ensures var t := TallyOf(cs);
      t.scoreNum == ScoredMass(cs) && t.scoreDen == TotalMass(cs) && t.weighted == TotalMass(cs)
      && t.maxWeight == Heaviest(cs) && t.active == Speaking(cs) && t.reasons == Contributed(cs)
  {}

  lemma ReasonsAreUnit(cal: Calibration, cs: seq<Channel>)
    requires AllSound(cs)
    ensures UnitWeights(ReasonsOf(cal, cs))
  {
    ContributedIsUnit(cs);
  }

  lemma {:induction false} ContributedIsUnit(cs: seq<Channel>)
    requires AllSound(cs)
    ensures UnitWeights(Contributed(cs))
  {
    if cs != [] {
      ContributedIsUnit(cs[..|cs| - 1]);
      assert Sound(cs[|cs| - 1]);
    }
  }

  lemma SortKeepsUnit(rs: seq<Reason>)
    requires UnitWeights(rs)
    ensures UnitWeights(Sort(rs))
  {
    SortIsStable(rs);
    StableSortPermutes(Sort(rs), rs);
    forall i | 0 <= i < |Sort(rs)|
      ensures Unit(Sort(rs)[i].weight)
    {
      assert Sort(rs)[i] in multiset(Sort(rs));
      assert Sort(rs)[i] in multiset(rs);
    }
  }

  // ---- Silent channels abstain ----

  lemma MassOfSound(c: Channel)
    requires Sound(c)
    ensures Mass(c) >= 0.0 && (Mass(c) > 0.0 <==> c.confidence > 0.0) && (Mass(c) == 0.0 <==> c.confidence == 0.0)
    ensures Mass(c) <= c.weight
  {
    if c.confidence > 0.0 {
      PositiveProduct(c.weight, c.confidence);
      assert Positive(Mass(c));
    }
    NonNegativeProduct(c.weight, 1.0 - c.confidence);
  }

  lemma {:induction false} MassIsSpoken(cs: seq<Channel>)
    requires AllSound(cs)
    ensures TotalMass(cs) >= 0.0 && (TotalMass(cs) > 0.0 <==> Speaking(cs) > 0)
  {
    if cs != [] {
      MassIsSpoken(cs[..|cs| - 1]);
      MassOfSound(cs[|cs| - 1]);
    }
  }

  /** Every channel that holds evidence scores between `lo` and `hi`. */
  ghost predicate SpokenWithin(cs: seq<Channel>, lo: real, hi: real) {
    forall i :: 0 <= i < |cs| && cs[i].confidence > 0.0 ==> lo <= cs[i].score <= hi
  }

  /** A total of `mass` whose scored part is that of an average between `lo` and `hi`. */
  predicate AveragesWithin(lo: real, scored: real, hi: real, mass: real) {
    lo * mass <= scored <= hi * mass
  }

  lemma AverageOneMore(lo: real, scored: real, hi: real, mass: real, score: real, more: real)
    requires AveragesWithin(lo, scored, hi, mass)
    requires more == 0.0 || (more > 0.0 && lo <= score <= hi)
    ensures AveragesWithin(lo, scored + score * more, hi, mass + more)
  {
    if more > 0.0 {
      NonNegativeProduct(score - lo, more);
      NonNegativeProduct(hi - score, more);
      assert (score - lo) * more == score * more - lo * more;
      assert (hi - score) * more == hi * more - score * more;
    }
    assert lo * (mass + more) == lo * mass + lo * more;
    assert hi * (mass + more) == hi * mass + hi * more;
  }

  lemma AverageOf(lo: real, scored: real, hi: real, mass: real)
    requires AveragesWithin(lo, scored, hi, mass) && mass > 0.0
    ensures lo <= scored / mass <= hi
  {
    var v := scored / mass;
    assert v * mass == scored;
    if v < lo {
      SmallerProduct(v, lo, mass);
    }
    if v > hi {
      SmallerProduct(hi, v, mass);
    }
  }

  lemma SmallerProduct(a: real, b: real, n: real)
    requires a < b && n > 0.0
    ensures a * n < b * n
  {
    PositiveProduct(b - a, n);
    assert (b - a) * n == b * n - a * n;
    assert Positive(b * n - a * n);
  }

  lemma SumsNext(cs: seq<Channel>)
    requires cs != []
    ensures var most, c := cs[..|cs| - 1], cs[|cs| - 1];
      ScoredMass(cs) == ScoredMass(most) + c.score * Mass(c) && TotalMass(cs) == TotalMass(most) + Mass(c)
  {}

  lemma {:induction false} MassWithin(cs: seq<Channel>, lo: real, hi: real)
    requires AllSound(cs) && SpokenWithin(cs, lo, hi)
    ensures AveragesWithin(lo, ScoredMass(cs), hi, TotalMass(cs))
  {
    if cs == [] {
      NoAverage(lo, hi);
    } else {
      hide AveragesWithin, Mass, ScoredMass, TotalMass, Sound;
      var most, c := cs[..|cs| - 1], cs[|cs| - 1];
      MassWithin(most, lo, hi);
      MassOfSound(c);
      SumsNext(cs);
      AverageOneMore(lo, ScoredMass(most), hi, TotalMass(most), c.score, Mass(c));
    }
  }

  lemma NoAverage(lo: real, hi: real)
    ensures AveragesWithin(lo, 0.0, hi, 0.0)
  {}

  /** The score lies between the least and the greatest score of the channels that hold evidence. */
  lemma ScoreIsBetween(cs: seq<Channel>, lo: real, hi: real)
    requires AllSound(cs) && SpokenWithin(cs, lo, hi) && Speaking(cs) > 0
    ensures lo <= ScoreOf(cs) <= hi
  {
    MassIsSpoken(cs);
    MassWithin(cs, lo, hi);
    assert SpokenWithin(cs, 0.0, 1.0) by {
      assert forall i :: 0 <= i < |cs| ==> Sound(cs[i]);
    }
    MassWithin(cs, 0.0, 1.0);
    AverageOf(lo, ScoredMass(cs), hi, TotalMass(cs));
    AverageOf(0.0, ScoredMass(cs), 1.0, TotalMass(cs));
  }

  /** The same evidence in every channel, and the same score in every channel that holds any. */
  ghost predicate SameEvidence(cs: seq<Channel>, ds: seq<Channel>) {
    |cs| == |ds| && forall i :: 0 <= i < |cs| ==>
      (cs[i].weight == ds[i].weight && cs[i].confidence == ds[i].confidence
       && (cs[i].confidence > 0.0 ==> cs[i].score == ds[i].score))
  }

  lemma {:induction false} SameMasses(cs: seq<Channel>, ds: seq<Channel>)
    requires AllSound(cs) && AllSound(ds) && SameEvidence(cs, ds)
    ensures ScoredMass(cs) == ScoredMass(ds) && TotalMass(cs) == TotalMass(ds) && Heaviest(cs) == Heaviest(ds)
    ensures Speaking(cs) == Speaking(ds)
  {
    if cs != [] {
      var c, d := cs[|cs| - 1], ds[|ds| - 1];
      SameMasses(cs[..|cs| - 1], ds[..|ds| - 1]);
      assert Mass(c) == Mass(d);
      MassOfSound(c);
      hide Mass, Sound;
      if c.confidence == 0.0 {
        assert c.score * Mass(c) == 0.0 && d.score * Mass(d) == 0.0;
      }
    }
  }

  /** What a channel without evidence scores affects neither number. */
  lemma SilentChannelsAbstain(cs: seq<Channel>, ds: seq<Channel>)
    requires AllSound(cs) && AllSound(ds) && SameEvidence(cs, ds)
    ensures ScoreOf(cs) == ScoreOf(ds) && ConfidenceOf(cs) == ConfidenceOf(ds) && Speaking(cs) == Speaking(ds)
  {
    SameMasses(cs, ds);
  }

  // ---- Every score has its reason ----

  /** The score of a channel is the weight of its heaviest reason, and zero when it gives none. */
  ghost predicate Explains(c: Channel) {
    && (forall i :: 0 <= i < |c.reasons| ==> 0.0 < c.reasons[i].weight <= c.score)
    && (if c.reasons == [] then c.score == 0.0 else exists i :: 0 <= i < |c.reasons| && c.reasons[i].weight == c.score)
  }

  lemma PointerExplains(cal: Calibration, st: Segmentation.PointerState, weight: real)
    requires Accepted(cal) && weight > 0.0
    ensures Explains(PointerChannel(cal, st, weight))
  {
    var c := PointerChannel(cal, st, weight);
    assert c.reasons != [] ==> c.reasons[0].weight == c.score;
  }

  lemma KeystrokeExplains(cal: Calibration, st: Rhythm.KeystrokeState, weight: real)
    requires Accepted(cal) && weight > 0.0
    ensures Explains(KeystrokeChannel(cal, st, weight))
  {
    if st.intervals > 0 {
      var rhythm := Ramp(st.flightCV, cal.flightCVFloor, cal.flightCVCeil);
      var dwell := Shortfall(st.meanDwellMs, cal.dwellAbsentMs);
      var repeats := st.exactRepeatRatio > 0.0;
      var identical := if repeats then Saturated(st.exactRepeatRatio, cal.identicalIntervalRatio) else 0.0;
      if repeats {
        SaturatedIsPositive(st.exactRepeatRatio, cal.identicalIntervalRatio);
      }
      ThreeReasons(
        rhythm > 0.0, Reason(KeyIntervalVarianceLow, rhythm), dwell > 0.0, Reason(KeyDwellAbsent, dwell),
        repeats, Reason(KeyIntervalsIdentical, identical), KeystrokeChannel(cal, st, weight));
    }
  }

  lemma SaturatedIsPositive(ratio: real, at: real)
    requires ratio > 0.0 && at >= 0.0
    ensures Saturated(ratio, at) > 0.0
  {
    if at > 0.0 {
      var q := ratio / at;
      assert q * at == ratio;
      if q <= 0.0 {
        NonNegativeProduct(-q, at);
      }
    }
  }

  lemma InteractionExplains(st: Interaction.InteractionState, weight: real)
    requires weight > 0.0
    ensures Explains(InteractionChannel(st, weight))
  {
    if !NoStructure(st) {
      var injects, programmatic, unfocused :=
        st.injections > 0, st.programmaticScrollRatio > 0.0, st.focusTransitions == 0;
      var injected := if injects then Clamp01(0.55 + 0.25 * st.injectedFields as real) else 0.0;
      var prog := if programmatic then Clamp01(st.programmaticScrollRatio * 2.0) else 0.0;
      ThreeReasons(
        injects, Reason(ValueInjected, injected), programmatic, Reason(ProgrammaticScroll, prog),
        unfocused, Reason(NoFocusTransitions, if unfocused then 0.6 else 0.0), InteractionChannel(st, weight));
    }
  }

  lemma ThreeReasons(a: bool, r: Reason, b: bool, s: Reason, c: bool, t: Reason, ch: Channel)
    requires ch.reasons == When(a, r) + When(b, s) + When(c, t)
    requires r.weight >= 0.0 && s.weight >= 0.0 && t.weight >= 0.0
    requires (a <==> r.weight > 0.0) && (b <==> s.weight > 0.0) && (c <==> t.weight > 0.0)
    requires ch.score >= r.weight && ch.score >= s.weight && ch.score >= t.weight
    requires ch.score == 0.0 || ch.score == r.weight || ch.score == s.weight || ch.score == t.weight
    ensures Explains(ch)
  {
    var rs := ch.reasons;
    assert forall i :: 0 <= i < |rs| ==> (a && rs[i] == r) || (b && rs[i] == s) || (c && rs[i] == t);
    assert a ==> rs[0] == r;
    assert c ==> rs[|rs| - 1] == t;
    assert b ==> rs[if a then 1 else 0] == s;
  }

  lemma ChannelsExplain(cal: Calibration, st: State, action: string)
    requires Accepted(cal)
    ensures forall i :: 0 <= i < 3 ==> Explains(Channels(cal, st, action)[i])
  {
    var w := WeightsFor(action);
    PointerExplains(cal, st.pointer, w.pointer);
    KeystrokeExplains(cal, st.keystroke, w.keystroke);
    InteractionExplains(st.interaction, w.interaction);
  }

  lemma {:induction false} ContributedHolds(cs: seq<Channel>, i: nat)
    requires i < |cs|
    ensures forall r :: r in cs[i].reasons ==> r in Contributed(cs)
  {
    if i < |cs| - 1 {
      ContributedHolds(cs[..|cs| - 1], i);
    }
  }

  lemma HeadIsHeaviest(rs: seq<Reason>, r: Reason)
    requires r in rs
    ensures Sort(rs) != [] && Sort(rs)[0].weight >= r.weight
  {
    SortIsStable(rs);
    StableSortPermutes(Sort(rs), rs);
    assert r in multiset(rs);
    assert r in multiset(Sort(rs));
    var k :| 0 <= k < |Sort(rs)| && Sort(rs)[k] == r;
  }

  /** The first reason of a judgement. */
  function HeaviestReason(j: Judgement): real {
    if j.reasons == [] then 0.0 else j.reasons[0].weight
  }

  /** A score above zero is never unexplained: the first reason given weighs at least as much. */
  lemma ScoreIsExplained(cal: Calibration, st: State, action: string)
    requires Accepted(cal)
    ensures Judged(cal, st, action).score <= HeaviestReason(Judged(cal, st, action))
  {
    var cs, j := Channels(cal, st, action), Judged(cal, st, action);
    assert AllSound(cs);
    hide Channels, Accepted;
    var all, hi := ReasonsOf(cal, cs), HeaviestReason(j);
    ReasonsAreUnit(cal, cs);
    SortKeepsUnit(all);
    ChannelsExplain(cal, st, action);
    forall i | 0 <= i < |cs|
      ensures cs[i].score <= hi
    {
      assert Explains(cs[i]);
      if cs[i].reasons != [] {
        var k :| 0 <= k < |cs[i].reasons| && cs[i].reasons[k].weight == cs[i].score;
        ContributedHolds(cs, i);
        assert cs[i].reasons[k] in cs[i].reasons;
        HeadIsHeaviest(all, cs[i].reasons[k]);
      }
    }
    MassIsSpoken(cs);
    if Speaking(cs) > 0 {
      assert SpokenWithin(cs, 0.0, hi) by {
        assert forall i :: 0 <= i < |cs| ==> Sound(cs[i]);
      }
      ScoreIsBetween(cs, 0.0, hi);
    }
  }

  /** The ramp starts at `zero`, saturates at `one`, and never turns back between them. */
  lemma RampRises(v: real, w: real, zero: real, one: real)
    requires zero < one
    ensures v <= w ==> Ramp(v, zero, one) <= Ramp(w, zero, one)
    ensures Ramp(v, zero, one) == 0.0 <==> v <= zero
    ensures Ramp(v, zero, one) == 1.0 <==> v >= one
    ensures zero <= v <= one ==> Ramp(v, zero, one) * (one - zero) == v - zero
  {
    var n := one - zero;
    Rhythm.DivideBack(v - zero, n);
    if v <= w {
      Divided(v - zero, w - zero, n);
    }
    Quotients(v - zero, n);
  }

  /** Where low values are the suspicious ones, it does so downwards. */
  lemma RampFalls(v: real, w: real, zero: real, one: real)
    requires one < zero
    ensures v <= w ==> Ramp(v, zero, one) >= Ramp(w, zero, one)
    ensures Ramp(v, zero, one) == 0.0 <==> v >= zero
    ensures Ramp(v, zero, one) == 1.0 <==> v <= one
    ensures one <= v <= zero ==> Ramp(v, zero, one) * (zero - one) == zero - v
  {
    var n := zero - one;
    Rhythm.DivideBack(zero - v, n);
    Negated(v, zero, one);
    Negated(w, zero, one);
    if v <= w {
      Divided(zero - w, zero - v, n);
    }
    Quotients(zero - v, n);
  }

  lemma Negated(v: real, zero: real, one: real)
    requires one < zero
    ensures (v - zero) / (one - zero) == (zero - v) / (zero - one)
  {
    var q, n := (zero - v) / (zero - one), zero - one;
    assert q * n == zero - v;
    assert q * -n == v - zero;
    OverNegative(q, -n);
  }

  lemma OverNegative(q: real, n: real)
    requires n != 0.0
    ensures (q * n) / n == q
  {}

  lemma Quotients(a: real, n: real)
    requires n > 0.0
    ensures (a / n <= 0.0 <==> a <= 0.0) && (a / n >= 1.0 <==> a >= n)
  {
    var q := a / n;
    assert q * n == a;
    if q > 0.0 {
      SmallerProduct(0.0, q, n);
    } else {
      NonNegativeProduct(-q, n);
    }
    if q < 1.0 {
      SmallerProduct(q, 1.0, n);
    } else {
      NonNegativeProduct(q - 1.0, n);
      assert (q - 1.0) * n == a - n;
    }
  }

  // ---- Decisions ----

  datatype Decision = Allow | Challenge | Block

  datatype Outcome = Outcome(decision: Decision, shadow: Option<Decision>)

  /** What enforce mode would return: confidence gates first, then score. */
  function Enforced(cal: Calibration, j: Judgement): (d: Decision)
    ensures d == Block <==>
      (j.score >= cal.scoreToBlock && j.confidence >= cal.minConfidenceToBlock
       && j.contributing >= cal.minChannelsToBlock)
    ensures d == Allow ==> j.score < cal.scoreToChallenge || j.confidence < cal.minConfidenceToChallenge
    ensures d == Challenge ==> j.score >= cal.scoreToChallenge && j.confidence >= cal.minConfidenceToChallenge
  {
    if j.confidence >= cal.minConfidenceToBlock && j.score >= cal.scoreToBlock
       && j.contributing >= cal.minChannelsToBlock then Block
    else if j.confidence >= cal.minConfidenceToChallenge && j.score >= cal.scoreToChallenge then Challenge
    else Allow
  }

  function Apply(cal: Calibration, j: Judgement, mode: string): (r: Result<Outcome, string>)
    ensures r.Success? <==> mode == "monitor" || mode == "enforce"
    ensures r.Success? && r.value.decision != Allow ==> mode == "enforce"
    ensures mode == "monitor" ==> r == Success(Outcome(Allow, Some(Enforced(cal, j))))
    ensures mode == "enforce" ==> r == Success(Outcome(Enforced(cal, j), None))
  {
    match mode
    case "monitor" => Success(Outcome(Allow, Some(Enforced(cal, j))))
    case "enforce" => Success(Outcome(Enforced(cal, j), None))
    case _ => Failure(mode)
  }

  /**
   A session nothing is known about is never blocked. It is challenged exactly under a
   calibration whose two challenge thresholds are both zero.
   */
  lemma SilenceIsNotBlocked(cal: Calibration, st: State, action: string)
    requires Accepted(cal)
    requires st.pointer.segments == 0 && st.keystroke.intervals == 0 && NoStructure(st.interaction)
    ensures var j := Judged(cal, st, action);
      && j.score == 0.0 && j.confidence == 0.0 && j.contributing == 0
      && Enforced(cal, j) != Block
      && (Enforced(cal, j) == Challenge <==> cal.minConfidenceToChallenge == 0.0 && cal.scoreToChallenge == 0.0)
  {
    var cs := Channels(cal, st, action);
    NoIntervals(cal);
    assert cs[0].confidence == 0.0 && cs[1].confidence == 0.0 && cs[2].confidence == 0.0;
    assert AllSound(cs);
    ThreeChannels(cs);
    hide Channels, AllSound;
    assert Mass(cs[0]) == 0.0 && Mass(cs[1]) == 0.0 && Mass(cs[2]) == 0.0;
    assert Speaking(cs) == 0 && TotalMass(cs) == 0.0;
    NothingOver(Heaviest(cs));
  }

  lemma NothingOver(n: real)
    requires n > 0.0
    ensures 0.0 / n == 0.0
  {}

  lemma ThreeChannels(cs: seq<Channel>)
    requires |cs| == 3
    ensures TotalMass(cs) == Mass(cs[0]) + Mass(cs[1]) + Mass(cs[2])
    ensures ScoredMass(cs) == Vote(cs[0]) + Vote(cs[1]) + Vote(cs[2])
    ensures Speaking(cs)
         == (if cs[0].confidence > 0.0 then 1 else 0) + (if cs[1].confidence > 0.0 then 1 else 0)
            + (if cs[2].confidence > 0.0 then 1 else 0)
    ensures AllSound(cs) ==> Heaviest(cs) > 0.0 && cs[0].weight <= Heaviest(cs)
  {
    assert AllSound(cs) ==> Sound(cs[0]);
    hide Mass, Vote, TallyOf, TotalMass, ScoredMass, Heaviest, Speaking, Contributed, Sound, AllSound;
    TallyOfNone(cs[..0]);
    TallyFields(cs[..0]);
    TallyOneMore(cs, 0);
    TallyOneMore(cs, 1);
    TallyOneMore(cs, 2);
    assert cs[..3] == cs;
    TallyFields(cs);
    HeaviestIsMost(cs, 0);
    assert AllSound(cs) ==> cs[0].weight > 0.0 by {
      PositiveWeight(cs[0]);
    }
  }

  lemma PositiveWeight(c: Channel)
    ensures Sound(c) ==> c.weight > 0.0
  {}

  lemma {:induction false} HeaviestIsMost(cs: seq<Channel>, i: nat)
    requires i < |cs|
    ensures cs[i].weight <= Heaviest(cs)
  {
    if i < |cs| - 1 {
      HeaviestIsMost(cs[..|cs| - 1], i);
    }
  }

  // ---- Evidence only raises confidence ----

  /** Channels of the same weights, the second at least as confident. */
  ghost predicate NoLessConfident(cs: seq<Channel>, ds: seq<Channel>) {
    |cs| == |ds| && forall i :: 0 <= i < |cs| ==>
      (cs[i].weight == ds[i].weight && cs[i].confidence <= ds[i].confidence)
  }

  lemma {:induction false} MassGrows(cs: seq<Channel>, ds: seq<Channel>)
    requires AllSound(cs) && AllSound(ds) && NoLessConfident(cs, ds)
    ensures TotalMass(cs) <= TotalMass(ds) && Heaviest(cs) == Heaviest(ds) && Speaking(cs) <= Speaking(ds)
  {
    if cs != [] {
      var c, d := cs[|cs| - 1], ds[|ds| - 1];
      MassGrows(cs[..|cs| - 1], ds[..|ds| - 1]);
      assert Sound(c) && Sound(d);
      NonNegativeProduct(c.weight, d.confidence - c.confidence);
      assert c.weight * (d.confidence - c.confidence) == Mass(d) - Mass(c);
    }
  }

  lemma Divided(a: real, b: real, n: real)
    requires a <= b && n > 0.0
    ensures a / n <= b / n
  {
    var p, q := a / n, b / n;
    assert p * n == a && q * n == b;
    if p > q {
      SmallerProduct(q, p, n);
    }
  }

  /** At least the evidence, as the channels weigh it. */
  ghost predicate AtLeast(a: State, b: State) {
    && a.pointer.segments <= b.pointer.segments && a.pointer.pathPx <= b.pointer.pathPx
    && a.keystroke.intervals <= b.keystroke.intervals
    && a.interaction.scrollEvents <= b.interaction.scrollEvents
    && a.interaction.focusTransitions <= b.interaction.focusTransitions
    && a.interaction.pastes <= b.interaction.pastes && a.interaction.injections <= b.interaction.injections
    && (a.interaction.programmaticScrollRatio > 0.0 ==> b.interaction.programmaticScrollRatio > 0.0)
  }

  lemma PointerConfidenceGrows(cal: Calibration, m: nat, n: nat, p: real, q: real)
    requires Accepted(cal) && m <= n && p <= q
    ensures PointerConfidence(cal, m, p) <= PointerConfidence(cal, n, q)
  {
    Divided(m as real, n as real, cal.confidenceSegments);
    Divided(p, q, cal.confidencePathPx);
  }

  lemma ConfidencesGrow(cal: Calibration, a: State, b: State, action: string)
    requires Accepted(cal) && AtLeast(a, b)
    ensures NoLessConfident(Channels(cal, a, action), Channels(cal, b, action))
  {
    PointerConfidenceGrows(cal, a.pointer.segments, b.pointer.segments, a.pointer.pathPx, b.pointer.pathPx);
    Divided(a.keystroke.intervals as real, b.keystroke.intervals as real, cal.confidenceIntervals);
    assert KeystrokeConfidence(cal, a.keystroke.intervals) <= KeystrokeConfidence(cal, b.keystroke.intervals);
    hide Accepted, PointerConfidence, KeystrokeConfidence;
    InteractionConfidenceGrows(a.interaction, b.interaction);
  }

  lemma InteractionConfidenceGrows(a: Interaction.InteractionState, b: Interaction.InteractionState)
    requires a.scrollEvents <= b.scrollEvents && a.focusTransitions <= b.focusTransitions
    requires a.pastes <= b.pastes && a.injections <= b.injections
    requires a.programmaticScrollRatio > 0.0 ==> b.programmaticScrollRatio > 0.0
    ensures InteractionConfidence(a) <= InteractionConfidence(b)
  {
    Divided(a.focusTransitions as real, b.focusTransitions as real, 6.0);
    Divided(a.scrollEvents as real, b.scrollEvents as real, 20.0);
  }

  /** For any action, more evidence never lowers confidence or the number of contributing channels. */
  lemma ConfidenceGrows(cal: Calibration, a: State, b: State, action: string)
    requires Accepted(cal) && AtLeast(a, b)
    ensures Judged(cal, a, action).confidence <= Judged(cal, b, action).confidence
    ensures Judged(cal, a, action).contributing <= Judged(cal, b, action).contributing
  {
    var cs, ds := Channels(cal, a, action), Channels(cal, b, action);
    ConfidencesGrow(cal, a, b, action);
    MassGrows(cs, ds);
    if Heaviest(cs) > 0.0 {
      Divided(TotalMass(cs), TotalMass(ds), Heaviest(cs));
    }
  }
}
