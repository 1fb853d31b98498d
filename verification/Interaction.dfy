/**
 The structural accumulator: how often people scrolled, moved focus, hid the page and used
 forms. What it comes to depends on which events there were, never on their order.
 */
module Interaction {
  import opened Telemetry

  datatype InteractionState = InteractionState(
    programmaticScrollRatio: real, scrollEvents: nat, focusTransitions: nat, distinctFocusTargets: nat,
    hiddenPeriods: nat, pastes: nat, autofills: nat, injections: nat, injectedFields: nat)

  /** How many of a bag of events meet `p`. */
  ghost function Count(p: Touch -> bool, ts: multiset<Touch>): nat
    decreases |ts|
  {
    if ts == multiset{} then 0
    else
      var t :| t in ts;
      (if p(t) then 1 else 0) + Count(p, ts - multiset{t})
  }

  /** It does not matter which event is counted first. */
  lemma {:induction false} CountAnyFirst(p: Touch -> bool, ts: multiset<Touch>, u: Touch)
    requires u in ts
    ensures Count(p, ts) == (if p(u) then 1 else 0) + Count(p, ts - multiset{u})
    decreases |ts|
  {
    var t :| t in ts && Count(p, ts) == (if p(t) then 1 else 0) + Count(p, ts - multiset{t});
    if t != u {
      CountAnyFirst(p, ts - multiset{t}, u);
      CountAnyFirst(p, ts - multiset{u}, t);
      assert ts - multiset{t} - multiset{u} == ts - multiset{u} - multiset{t};
    }
  }

  lemma CountOneMore(p: Touch -> bool, ts: multiset<Touch>, u: Touch)
    ensures Count(p, ts + multiset{u}) == Count(p, ts) + if p(u) then 1 else 0
  {
    CountAnyFirst(p, ts + multiset{u}, u);
    assert ts + multiset{u} - multiset{u} == ts;
  }

  lemma {:induction false} CountMore(p: Touch -> bool, ts: multiset<Touch>, us: multiset<Touch>)
    ensures Count(p, ts + us) == Count(p, ts) + Count(p, us)
    decreases |us|
  {
    if us == multiset{} {
      assert ts + us == ts;
    } else {
      var u :| u in us;
      var rest := us - multiset{u};
      CountMore(p, ts, rest);
      CountOneMore(p, ts + rest, u);
      CountOneMore(p, rest, u);
      assert ts + us == ts + rest + multiset{u} && us == rest + multiset{u};
    }
  }

  /** The named fields that received focus, and those whose contents were injected. */
  ghost function Focused(ts: multiset<Touch>): set<string> {
    set t | t in ts && t.Focus? && t.target != "" :: t.target
  }

  ghost function Injected(ts: multiset<Touch>): set<string> {
    set t | t in ts && t.Form? && t.action == "injected" && t.field != "" :: t.field
  }

  const IS_SCROLL := (t: Touch) => t.Scroll?
  const IS_PROGRAMMATIC := (t: Touch) => t == Scroll("programmatic")
  const IS_FOCUS := (t: Touch) => t.Focus?
  const IS_VISIBILITY := (t: Touch) => t.Visibility?
  const IS_HIDING := (t: Touch) => t == Visibility("hidden")

  function IsForm(action: string): Touch -> bool {
    (t: Touch) => t.Form? && t.action == action
  }

  /** Everything counted in a bag of events. */
  datatype Counts = Counts(
    scrolls: nat, programmatic: nat, focuses: nat, focused: set<string>, visibility: nat, hidden: nat,
    pastes: nat, autofills: nat, submits: nat, injections: nat, injected: set<string>)

  ghost function CountsOf(ts: multiset<Touch>): Counts {
    Counts(Count(IS_SCROLL, ts), Count(IS_PROGRAMMATIC, ts), Count(IS_FOCUS, ts), Focused(ts),
           Count(IS_VISIBILITY, ts), Count(IS_HIDING, ts), Count(IsForm("paste"), ts), Count(IsForm("autofill"), ts),
           Count(IsForm("submit"), ts), Count(IsForm("injected"), ts), Injected(ts))
  }

  function Share(programmatic: nat, scrolls: nat): real {
    if scrolls > 0 then programmatic as real / scrolls as real else 0.0
  }

  function StateOf(c: Counts): InteractionState {
    InteractionState(
      Share(c.programmatic, c.scrolls),
      c.scrolls, c.focuses, |c.focused|, c.hidden, c.pastes, c.autofills, c.injections, |c.injected|)
  }

  /** The structural features of a bag of events. */
  ghost function OfBag(ts: multiset<Touch>): InteractionState {
    StateOf(CountsOf(ts))
  }

  lemma ProgrammaticIsSome(ts: multiset<Touch>)
    ensures Count(IS_PROGRAMMATIC, ts) <= Count(IS_SCROLL, ts)
    decreases |ts|
  {
    if ts != multiset{} {
      var t :| t in ts;
      CountAnyFirst(IS_PROGRAMMATIC, ts, t);
      CountAnyFirst(IS_SCROLL, ts, t);
      ProgrammaticIsSome(ts - multiset{t});
    }
  }

  lemma FieldsOneMore(ts: multiset<Touch>, u: Touch)
    ensures Focused(ts + multiset{u}) == Focused(ts) + if u.Focus? && u.target != "" then {u.target} else {}
    ensures Injected(ts + multiset{u})
         == Injected(ts) + if u.Form? && u.action == "injected" && u.field != "" then {u.field} else {}
  {}

  function One(b: bool): nat {
    if b then 1 else 0
  }

  /** What one more event adds to each count. */
  lemma CountsOneMore(ts: multiset<Touch>, u: Touch)
    ensures var c := CountsOf(ts);
      CountsOf(ts + multiset{u}) == match u
        case Scroll(mode) => c.(scrolls := c.scrolls + 1, programmatic := c.programmatic + One(mode == "programmatic"))
        case Focus(target) =>
          c.(focuses := c.focuses + 1, focused := c.focused + if target != "" then {target} else {})
        case Visibility(state) => c.(visibility := c.visibility + 1, hidden := c.hidden + One(state == "hidden"))
        case Form(action, field) =>
          c.(pastes := c.pastes + One(action == "paste"), autofills := c.autofills + One(action == "autofill"),
             submits := c.submits + One(action == "submit"), injections := c.injections + One(action == "injected"),
             injected := c.injected + if action == "injected" && field != "" then {field} else {})
  {
    CountOneMore(IS_SCROLL, ts, u);
    CountOneMore(IS_PROGRAMMATIC, ts, u);
    CountOneMore(IS_FOCUS, ts, u);
    CountOneMore(IS_VISIBILITY, ts, u);
    CountOneMore(IS_HIDING, ts, u);
    CountOneMore(IsForm("paste"), ts, u);
    CountOneMore(IsForm("autofill"), ts, u);
    CountOneMore(IsForm("submit"), ts, u);
    CountOneMore(IsForm("injected"), ts, u);
    FieldsOneMore(ts, u);
    hide Count, Focused, Injected;
  }

  /** More events lower no count. */
  lemma MoreTouches(ts: multiset<Touch>, us: multiset<Touch>)
    ensures var a, b := OfBag(ts), OfBag(ts + us);
      && a.scrollEvents <= b.scrollEvents && a.focusTransitions <= b.focusTransitions
      && a.pastes <= b.pastes && a.injections <= b.injections
      && (a.programmaticScrollRatio > 0.0 ==> b.programmaticScrollRatio > 0.0)
    ensures 0.0 <= OfBag(ts).programmaticScrollRatio <= 1.0
  {
    CountMore(IS_SCROLL, ts, us);
    CountMore(IS_PROGRAMMATIC, ts, us);
    CountMore(IS_FOCUS, ts, us);
    CountMore(IsForm("paste"), ts, us);
    CountMore(IsForm("injected"), ts, us);
    ProgrammaticIsSome(ts);
    RatioSign(Count(IS_PROGRAMMATIC, ts), Count(IS_SCROLL, ts));
    RatioSign(Count(IS_PROGRAMMATIC, ts + us), Count(IS_SCROLL, ts + us));
  }

  lemma RatioSign(a: nat, n: nat)
    ensures n > 0 ==> (a as real / n as real > 0.0 <==> a > 0)
    ensures n > 0 && a <= n ==> 0.0 <= a as real / n as real <= 1.0
  {}

  // ---- What one more event does to the features ----

  /** Of no events nothing is answered. */
  lemma FeaturesOfNone()
    ensures OfBag(multiset{}) == InteractionState(0.0, 0, 0, 0, 0, 0, 0, 0, 0)
  {
    assert Focused(multiset{}) == {} && Injected(multiset{}) == {};
  }

  /** The number of scrolls the page made by itself, from the ratio that is answered. */
  function ProgrammaticOf(st: InteractionState): real {
    st.programmaticScrollRatio * st.scrollEvents as real
  }

  lemma RatioTimesScrolls(c: Counts)
    requires c.scrolls == 0 ==> c.programmatic == 0
    ensures ProgrammaticOf(StateOf(c)) == c.programmatic as real
  {
    if c.scrolls > 0 {
      var n := c.scrolls as real;
      var q := c.programmatic as real / n;
      assert q * n == c.programmatic as real;
    }
  }

  /** A scroll is counted, and among the programmatic ones if the page made it. */
  lemma ScrollIsCounted(ts: multiset<Touch>, mode: string)
    ensures var a, b := OfBag(ts), OfBag(ts + multiset{Scroll(mode)});
      && b == a.(scrollEvents := a.scrollEvents + 1, programmaticScrollRatio := b.programmaticScrollRatio)
      && ProgrammaticOf(b) == ProgrammaticOf(a) + if mode == "programmatic" then 1.0 else 0.0
  {
    CountsOneMore(ts, Scroll(mode));
    ProgrammaticIsSome(ts);
    ProgrammaticIsSome(ts + multiset{Scroll(mode)});
    RatioTimesScrolls(CountsOf(ts));
    RatioTimesScrolls(CountsOf(ts + multiset{Scroll(mode)}));
    hide Count, Focused, Injected, ProgrammaticOf;
  }

  lemma SizeOneMore(s: set<string>, x: string, add: bool)
    ensures |s + if add then {x} else {}| == |s| + One(add && x !in s)
  {
    if add && x in s {
      assert s + {x} == s;
    } else if !add {
      assert s + {} == s;
    }
  }

  /** A focus event is counted, and its field once. */
  lemma FocusIsCounted(ts: multiset<Touch>, target: string)
    ensures var a, b := OfBag(ts), OfBag(ts + multiset{Focus(target)});
      b == a.(focusTransitions := a.focusTransitions + 1,
              distinctFocusTargets := a.distinctFocusTargets + One(target != "" && Focus(target) !in ts))
  {
    hide Count, CountsOf, Share;
    CountsOneMore(ts, Focus(target));
    if target != "" {
      FocusedBefore(ts, target);
    }
    hide Focused, Injected;
    CountsHasFields(ts);
    SizeOneMore(Focused(ts), target, target != "");
  }

  lemma FocusedBefore(ts: multiset<Touch>, target: string)
    requires target != ""
    ensures target in Focused(ts) <==> Focus(target) in ts
  {}

  lemma CountsHasFields(ts: multiset<Touch>)
    ensures CountsOf(ts).focused == Focused(ts) && CountsOf(ts).injected == Injected(ts)
  {}

  /** Only hiding the page is answered of visibility. */
  lemma HidingIsCounted(ts: multiset<Touch>, state: string)
    ensures var a, b := OfBag(ts), OfBag(ts + multiset{Visibility(state)});
      b == a.(hiddenPeriods := a.hiddenPeriods + One(state == "hidden"))
  {
    CountsOneMore(ts, Visibility(state));
    hide Count, Focused, Injected, CountsOf;
  }

  /** A paste, an autofill and an injection are each counted as what they are, an injected field once. */
  lemma FormIsCounted(ts: multiset<Touch>, action: string, field: string)
    ensures var a, b := OfBag(ts), OfBag(ts + multiset{Form(action, field)});
      b == a.(pastes := a.pastes + One(action == "paste"), autofills := a.autofills + One(action == "autofill"),
              injections := a.injections + One(action == "injected"),
              injectedFields := a.injectedFields
                + One(action == "injected" && field != "" && Form("injected", field) !in ts))
  {
    hide Count, CountsOf, Share;
    CountsOneMore(ts, Form(action, field));
    if field != "" {
      InjectedBefore(ts, field);
    }
    hide Focused, Injected;
    CountsHasFields(ts);
    SizeOneMore(Injected(ts), field, action == "injected" && field != "");
  }

  lemma InjectedBefore(ts: multiset<Touch>, field: string)
    requires field != ""
    ensures field in Injected(ts) <==> Form("injected", field) in ts
  {}

  class Interaction {
    var scrollEvents: nat
    var programmaticScroll: nat
    var focusEvents: nat
    var focusTargets: set<string>
    var visibilityChanges: nat
    var hiddenPeriods: nat
    var pastes: nat
    var autofills: nat
    var submits: nat
    var injections: nat
    var injectedFields: set<string>

    /** What it has been fed. */
    ghost var bag: multiset<Touch>

    constructor ()
      ensures Valid() && bag == multiset{}
    {
      scrollEvents, programmaticScroll, focusEvents, focusTargets := 0, 0, 0, {};
      visibilityChanges, hiddenPeriods, pastes, autofills, submits := 0, 0, 0, 0, 0;
      injections, injectedFields := 0, {};
      bag := multiset{};
    }

    ghost predicate Valid()
      reads this
    {
      Fields() == CountsOf(bag)
    }

    function Fields(): Counts
      reads this
    {
      Counts(scrollEvents, programmaticScroll, focusEvents, focusTargets, visibilityChanges, hiddenPeriods,
             pastes, autofills, submits, injections, injectedFields)
    }

    /** The structural features so far: those of the bag, in whatever order it came. */
    function State(): (st: InteractionState)
      requires Valid()
      reads this
      ensures st == OfBag(bag)
    {
      InteractionState(
        if scrollEvents > 0 then programmaticScroll as real / scrollEvents as real else 0.0,
        scrollEvents, focusEvents, |focusTargets|, hiddenPeriods, pastes, autofills, injections, |injectedFields|)
    }

    method AddScroll(mode: string)
      requires Valid()
      modifies this
      ensures Valid() && bag == old(bag) + multiset{Scroll(mode)}
    {
      hide CountsOf;
      CountsOneMore(bag, Scroll(mode));
      bag := bag + multiset{Scroll(mode)};
      scrollEvents := scrollEvents + 1;
      if mode == "programmatic" {
        programmaticScroll := programmaticScroll + 1;
      }
    }

    method AddFocus(target: string)
      requires Valid()
      modifies this
      ensures Valid() && bag == old(bag) + multiset{Focus(target)}
    {
      hide CountsOf;
      CountsOneMore(bag, Focus(target));
      bag := bag + multiset{Focus(target)};
      focusEvents := focusEvents + 1;
      if target != "" {
        focusTargets := focusTargets + {target};
      }
    }

    method AddVisibility(state: string)
      requires Valid()
      modifies this
      ensures Valid() && bag == old(bag) + multiset{Visibility(state)}
    {
      hide CountsOf;
      CountsOneMore(bag, Visibility(state));
      bag := bag + multiset{Visibility(state)};
      visibilityChanges := visibilityChanges + 1;
      if state == "hidden" {
        hiddenPeriods := hiddenPeriods + 1;
      }
    }

    method AddForm(action: string, target: string)
      requires Valid()
      modifies this
      ensures Valid() && bag == old(bag) + multiset{Form(action, target)}
    {
      hide CountsOf;
      CountsOneMore(bag, Form(action, target));
      bag := bag + multiset{Form(action, target)};
      if action == "paste" {
        pastes := pastes + 1;
      } else if action == "autofill" {
        autofills := autofills + 1;
      } else if action == "submit" {
        submits := submits + 1;
      } else if action == "injected" {
        injections := injections + 1;
        if target != "" {
          injectedFields := injectedFields + {target};
        }
      }
    }
  }
}
