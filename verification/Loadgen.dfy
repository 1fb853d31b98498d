/**
 Open-loop load: requests are due on a schedule, and a request's response time runs from when
 it was due. Times are nanoseconds; the zero time means a request was never issued.
 */
module Loadgen {
  import opened Percentile

  const SECOND: int := 1_000_000_000
  const ZERO_TIME: int := 0

  datatype Attempted = Attempted(intended: int, started: int, ended: int, status: int, failed: bool) {
    function Service(): int {
      ended - started
    }

    function Response(): int {
      ended - intended
    }

    function Deficit(): int {
      started - intended
    }

    predicate Issued() {
      intended != ZERO_TIME
    }

    predicate Bad() {
      failed || status == 0 || status >= 500
    }
  }

  datatype Config = Config(rate: real, duration: int, workers: int)

  /**
   What the world does to one request: how late the driver wakes for it, how long a worker with a
   slot takes to start, and what comes back.
   */
  datatype Fate = Fate(late: nat, lag: nat, took: nat, status: int, failed: bool)

  datatype Report = Report(
    requests: int, ok: nat, bad: nat, serviceP50: real, serviceP99: real, responseP50: real, responseP99: real,
    deficitP99: real, omission: real, achieved: real, intended: real)

  // ---- The schedule ----

  /** Nanoseconds between arrivals, and how many arrivals there are. */
  function Interval(rate: real): (d: int)
    requires rate > 0.0
    ensures d >= 1 && (rate > SECOND as real ==> d == 1)
    ensures rate <= SECOND as real ==> d as real <= SECOND as real / rate < d as real + 1.0
  {
    IntervalIsPositive(rate);
    var d := (SECOND as real / rate).Floor;
    if d <= 0 then 1 else d
  }

  lemma IntervalIsPositive(rate: real)
    requires rate > 0.0
    ensures rate <= SECOND as real ==> SECOND as real / rate >= 1.0
    ensures rate > SECOND as real ==> SECOND as real / rate < 1.0
  {
    var q := SECOND as real / rate;
    assert q * rate == SECOND as real;
    if q < 1.0 {
      assert (1.0 - q) * rate > 0.0;
    } else {
      assert (q - 1.0) * rate >= 0.0;
    }
  }

  function Total(cfg: Config): (n: nat)
    ensures cfg.rate > 0.0 && cfg.duration > 0 ==>
      n * Interval(cfg.rate) <= cfg.duration < (n + 1) * Interval(cfg.rate)
  {
    if cfg.rate <= 0.0 || cfg.duration <= 0 then 0
    else
      var d := Interval(cfg.rate);
      assert cfg.duration / d * d + cfg.duration % d == cfg.duration;
      assert cfg.duration / d >= 0;
      cfg.duration / d
  }

  function Workers(cfg: Config): (w: nat)
    ensures w > 0
  {
    if cfg.workers <= 0 then 1 else cfg.workers
  }

  /** The slot that is free first. */
  function Earliest(free: seq<int>): (k: nat)
    requires free != []
    ensures k < |free| && forall i :: 0 <= i < |free| ==> free[k] <= free[i]
  {
    if |free| == 1 then 0
    else
      var n := |free| - 1;
      var k := Earliest(free[..n]);
      assert forall i :: 0 <= i < n ==> free[..n][i] == free[i];
      if free[n] < free[k] then n else k
  }

  /**
   Each request is due by the schedule alone. The driver comes to it when it is due and the one
   before has its slot, or as much later as it wakes; it gets a slot no earlier, and starts its own
   lag after that.
   */
  ghost predicate OnSchedule(
    cfg: Config, start: int, rs: seq<Attempted>, ready: seq<int>, taken: seq<int>, world: nat -> Fate)
    requires rs != [] ==> cfg.rate > 0.0
  {
    |ready| == |taken| == |rs| && forall i: nat :: i < |rs| ==> InTurn(cfg, start, rs, ready, taken, world, i)
  }

  ghost predicate InTurn(
    cfg: Config, start: int, rs: seq<Attempted>, ready: seq<int>, taken: seq<int>, world: nat -> Fate, i: nat)
    requires cfg.rate > 0.0 && |ready| == |taken| == |rs| && i < |rs|
  {
    var r, fate := rs[i], world(i);
    && r.Issued() && r.intended == start + i * Interval(cfg.rate) <= ready[i] <= taken[i]
    && ready[i] == Later(if i == 0 then start else taken[i - 1], r.intended) + fate.late
    && r.started == taken[i] + fate.lag && r.Service() == fate.took
    && r.status == fate.status && r.failed == fate.failed
  }

  /** No slot is given out before the request that held it has ended. */
  ghost predicate OneAtATime(w: nat, rs: seq<Attempted>, taken: seq<int>, slot: seq<nat>) {
    && |taken| == |slot| == |rs|
    && (forall i :: 0 <= i < |rs| ==> slot[i] < w && taken[i] <= rs[i].ended)
    && (forall i, j :: 0 <= i < j < |rs| ==> taken[i] <= taken[j])
    && (forall i, j :: 0 <= i < j < |rs| && slot[i] == slot[j] ==> rs[i].ended <= taken[j])
  }

  /** The requests that hold a slot at time `t`. */
  ghost function InFlight(rs: seq<Attempted>, taken: seq<int>, t: int): set<nat>
    requires |taken| == |rs|
  {
    set i | 0 <= i < |rs| && taken[i] <= t < rs[i].ended
  }

  ghost predicate Holds(rs: seq<Attempted>, taken: seq<int>, slot: seq<nat>, j: nat, k: nat, t: int)
    requires |taken| == |slot| == |rs|
  {
    j < |rs| && slot[j] == k && taken[j] <= t < rs[j].ended
  }

  /** Request `i` is due at `t` and has no slot yet. */
  ghost predicate Waiting(rs: seq<Attempted>, taken: seq<int>, i: nat, t: int)
    requires |taken| == |rs|
  {
    i < |rs| && rs[i].intended <= t < taken[i]
  }

  /** The driver has not yet woken for request `j`, though it is due and the one before has its slot. */
  ghost predicate Waking(rs: seq<Attempted>, ready: seq<int>, taken: seq<int>, j: nat, t: int)
    requires |ready| == |taken| == |rs|
  {
    j < |rs| && rs[j].intended <= t < ready[j] && (j > 0 ==> taken[j - 1] <= t)
  }

  ghost predicate DriverLate(rs: seq<Attempted>, ready: seq<int>, taken: seq<int>, t: int)
    requires |ready| == |taken| == |rs|
  {
    exists j: nat :: Waking(rs, ready, taken, j, t)
  }

  ghost predicate SlotHeld(rs: seq<Attempted>, taken: seq<int>, slot: seq<nat>, k: nat, t: int)
    requires |taken| == |slot| == |rs|
  {
    exists j: nat :: Holds(rs, taken, slot, j, k, t)
  }

  /** While a request that is due waits, the driver is late in waking or every slot is held. */
  ghost predicate WaitsForSlots(w: nat, rs: seq<Attempted>, ready: seq<int>, taken: seq<int>, slot: seq<nat>)
    requires |ready| == |taken| == |slot| == |rs|
  {
    forall i: nat, t: int, k: nat :: Waiting(rs, taken, i, t) && k < w && !DriverLate(rs, ready, taken, t) ==>
      SlotHeld(rs, taken, slot, k, t)
  }

  /** The slots' next free times: the start of the run, or the end of the last request each held. */
  ghost predicate FreeTimes(
    w: nat, start: int, free: seq<int>, rs: seq<Attempted>, taken: seq<int>, slot: seq<nat>)
    requires |taken| == |slot| == |rs|
  {
    && |free| == w
    && (forall i :: 0 <= i < |rs| && slot[i] < w ==> rs[i].ended <= free[slot[i]])
    && (forall k: nat :: k < w ==> free[k] == start || exists j :: EndsSlot(rs, slot, j, k, free[k]))
  }

  ghost predicate EndsSlot(rs: seq<Attempted>, slot: seq<nat>, j: nat, k: nat, end: int)
    requires |slot| == |rs|
  {
    j < |rs| && slot[j] == k && rs[j].ended == end
  }

  /** What the driver's loop has at each turn. */
  ghost predicate Driving(
    w: nat, start: int, clock: int, free: seq<int>, rs: seq<Attempted>, ready: seq<int>, taken: seq<int>,
    slot: seq<nat>)
  {
    && |ready| == |rs|
    && OneAtATime(w, rs, taken, slot)
    && FreeTimes(w, start, free, rs, taken, slot)
    && WaitsForSlots(w, rs, ready, taken, slot)
    && clock == (if rs == [] then start else taken[|rs| - 1])
    && (rs != [] ==> rs[0].intended == start)
  }

  lemma NothingDriven(w: nat, start: int, free: seq<int>)
    requires |free| == w && forall k :: 0 <= k < w ==> free[k] == start
    ensures Driving(w, start, start, free, [], [], [], [])
  {}

  lemma StillHolds(
    rs: seq<Attempted>, taken: seq<int>, slot: seq<nat>, r: Attempted, at: int, s: nat, j: nat, k: nat, t: int)
    requires |taken| == |slot| == |rs| && Holds(rs, taken, slot, j, k, t)
    ensures Holds(rs + [r], taken + [at], slot + [s], j, k, t)
  {}

  /** The next request: the driver is ready for it at `wake`, and at `at` it gets slot `k`, the first to be free. */
  ghost predicate Follows(
    w: nat, start: int, clock: int, free: seq<int>, rs: seq<Attempted>, r: Attempted, k: nat, wake: int, at: int)
  {
    && k < w == |free| && (forall i :: 0 <= i < w ==> free[k] <= free[i])
    && r.intended >= start && (rs == [] ==> r.intended == start)
    && (rs != [] ==> r.intended >= rs[|rs| - 1].intended)
    && wake >= Later(clock, r.intended) && at == Later(wake, free[k])
  }

  lemma DriveOne(
    w: nat, start: int, clock: int, free: seq<int>, rs: seq<Attempted>, ready: seq<int>, taken: seq<int>,
    slot: seq<nat>, r: Attempted, k: nat, wake: int, at: int)
    requires Driving(w, start, clock, free, rs, ready, taken, slot)
    requires Follows(w, start, clock, free, rs, r, k, wake, at)
    requires at <= r.ended
    ensures Driving(w, start, at, free[k := r.ended], rs + [r], ready + [wake], taken + [at], slot + [k])
  {
    hide WaitsForSlots, FreeTimes;
    FreeTimesNext(w, start, free, rs, taken, slot, r, k, at);
    WaitsNext(w, start, clock, free, rs, ready, taken, slot, r, k, wake, at);
    TakesTurns(w, start, free, rs, taken, slot, k);
  }

  lemma TakesTurns(w: nat, start: int, free: seq<int>, rs: seq<Attempted>, taken: seq<int>, slot: seq<nat>, k: nat)
    requires |taken| == |slot| == |rs| && FreeTimes(w, start, free, rs, taken, slot) && k < w
    ensures |free| == w && forall i :: 0 <= i < |rs| && slot[i] == k ==> rs[i].ended <= free[k]
  {}

  lemma FreeTimesNext(
    w: nat, start: int, free: seq<int>, rs: seq<Attempted>, taken: seq<int>, slot: seq<nat>, r: Attempted, k: nat,
    at: int)
    requires |taken| == |slot| == |rs| && FreeTimes(w, start, free, rs, taken, slot) && k < w
    requires free[k] <= at <= r.ended
    ensures FreeTimes(w, start, free[k := r.ended], rs + [r], taken + [at], slot + [k])
  {
    var free', rs', slot' := free[k := r.ended], rs + [r], slot + [k];
    forall m: nat | m < w
      ensures free'[m] == start || exists j :: EndsSlot(rs', slot', j, m, free'[m])
    {
      if m == k {
        assert EndsSlot(rs', slot', |rs|, m, r.ended);
      } else if free[m] != start {
        var j :| EndsSlot(rs, slot, j, m, free[m]);
        assert EndsSlot(rs', slot', j, m, free[m]);
      }
    }
  }

  lemma StillLate(
    rs: seq<Attempted>, ready: seq<int>, taken: seq<int>, r: Attempted, wake: int, at: int, t: int)
    requires |ready| == |taken| == |rs| && DriverLate(rs, ready, taken, t)
    ensures DriverLate(rs + [r], ready + [wake], taken + [at], t)
  {
    var j: nat :| Waking(rs, ready, taken, j, t);
    assert Waking(rs + [r], ready + [wake], taken + [at], j, t);
  }

  lemma WaitsNext(
    w: nat, start: int, clock: int, free: seq<int>, rs: seq<Attempted>, ready: seq<int>, taken: seq<int>,
    slot: seq<nat>, r: Attempted, k: nat, wake: int, at: int)
    requires Driving(w, start, clock, free, rs, ready, taken, slot)
    requires Follows(w, start, clock, free, rs, r, k, wake, at)
    ensures WaitsForSlots(w, rs + [r], ready + [wake], taken + [at], slot + [k])
  {
    var rs', ready', taken', slot' := rs + [r], ready + [wake], taken + [at], slot + [k];
    forall i: nat, t: int, m: nat | Waiting(rs', taken', i, t) && m < w && !DriverLate(rs', ready', taken', t)
      ensures SlotHeld(rs', taken', slot', m, t)
    {
      var j := Holder(w, start, clock, free, rs, ready, taken, slot, r, k, wake, at, i, m, t);
      StillHolds(rs, taken, slot, r, at, k, j, m, t);
    }
  }

  /** Who holds slot `m` while request `i` waits. */
  lemma Holder(
    w: nat, start: int, clock: int, free: seq<int>, rs: seq<Attempted>, ready: seq<int>, taken: seq<int>,
    slot: seq<nat>, r: Attempted, k: nat, wake: int, at: int, i: nat, m: nat, t: int) returns (j: nat)
    requires Driving(w, start, clock, free, rs, ready, taken, slot)
    requires Follows(w, start, clock, free, rs, r, k, wake, at)
    requires m < w && Waiting(rs + [r], taken + [at], i, t) && !DriverLate(rs + [r], ready + [wake], taken + [at], t)
    ensures Holds(rs, taken, slot, j, m, t)
  {
    if DriverLate(rs, ready, taken, t) {
      StillLate(rs, ready, taken, r, wake, at, t);
    }
    var n := |rs|;
    if i < n || t < clock {
      var waits := if i < n then i else n - 1;
      assert Waiting(rs, taken, waits, t);
      assert SlotHeld(rs, taken, slot, m, t);
      j :| Holds(rs, taken, slot, j, m, t);
    } else {
      if t < wake {
        assert Waking(rs + [r], ready + [wake], taken + [at], n, t);
      }
      assert at == free[k] > t && free[m] >= free[k] && free[m] != start;
      j :| EndsSlot(rs, slot, j, m, free[m]);
      assert taken[j] <= clock;
    }
  }

  function Later(a: int, b: int): int {
    if b > a then b else a
  }

  /**
   A run that is left to finish. `ready` says when the driver had woken for each request, `taken`
   when the request got one of the workers' slots, and `slot` which.
   */
  method Run(cfg: Config, start: int, world: nat -> Fate)
    returns (rs: seq<Attempted>, ghost ready: seq<int>, ghost taken: seq<int>, ghost slot: seq<nat>)
    requires start > ZERO_TIME
    ensures |rs| == Total(cfg)
    ensures rs != [] ==> cfg.rate > 0.0
    ensures OnSchedule(cfg, start, rs, ready, taken, world)
    ensures OneAtATime(Workers(cfg), rs, taken, slot) && WaitsForSlots(Workers(cfg), rs, ready, taken, slot)
  {
    rs, ready, taken, slot := [], [], [], [];
    if cfg.rate <= 0.0 || cfg.duration <= 0 {
      NothingDriven(Workers(cfg), start, seq(Workers(cfg), _ => start));
      return;
    }
    hide OnSchedule, Driving, Interval, OneAtATime, WaitsForSlots, Later;
    var interval, workers := Interval(cfg.rate), Workers(cfg);
    var clock, free := start, seq(workers, _ => start);
    NothingDriven(workers, start, free);
    NothingScheduled(cfg, start, world);
    for i := 0 to Total(cfg)
      invariant |rs| == i
      invariant OnSchedule(cfg, start, rs, ready, taken, world)
      invariant Driving(workers, start, clock, free, rs, ready, taken, slot)
    {
      DrivingShape(workers, start, clock, free, rs, ready, taken, slot);
      var intended := start + i * interval;
      var wake := Later(clock, intended) + world(i).late;
      var k := Earliest(free);
      var at := Later(wake, free[k]);
      var began := at + world(i).lag;
      var ended := began + world(i).took;
      var r := Attempted(intended, began, ended, world(i).status, world(i).failed);
      IsLater(clock, intended);
      IsLater(wake, free[k]);
      ScheduleOne(cfg, start, clock, rs, ready, taken, world, r, wake, at);
      DriveOne(workers, start, clock, free, rs, ready, taken, slot, r, k, wake, at);
      rs, ready, taken, slot := rs + [r], ready + [wake], taken + [at], slot + [k];
      clock, free := at, free[k := ended];
    }
    DrivingShape(workers, start, clock, free, rs, ready, taken, slot);
  }

  lemma IsLater(a: int, b: int)
    ensures Later(a, b) >= a && Later(a, b) >= b
  {}

  lemma NothingScheduled(cfg: Config, start: int, world: nat -> Fate)
    requires cfg.rate > 0.0
    ensures OnSchedule(cfg, start, [], [], [], world)
  {}

  /** The next request on the schedule is due no earlier than the one before. */
  lemma ScheduleOne(
    cfg: Config, start: int, clock: int, rs: seq<Attempted>, ready: seq<int>, taken: seq<int>, world: nat -> Fate,
    r: Attempted, wake: int, at: int)
    requires start > ZERO_TIME && cfg.rate > 0.0 && OnSchedule(cfg, start, rs, ready, taken, world)
    requires clock == if rs == [] then start else taken[|rs| - 1]
    requires var fate := world(|rs|);
      r.intended == start + |rs| * Interval(cfg.rate) && wake == Later(clock, r.intended) + fate.late <= at
      && r.started == at + fate.lag && r.Service() == fate.took && r.status == fate.status && r.failed == fate.failed
    ensures OnSchedule(cfg, start, rs + [r], ready + [wake], taken + [at], world)
    ensures r.intended >= start && (rs == [] ==> r.intended == start)
    ensures rs != [] ==> r.intended >= rs[|rs| - 1].intended
  {
    var n, rs', ready', taken' := |rs|, rs + [r], ready + [wake], taken + [at];
    Increasing(n, Interval(cfg.rate));
    hide Interval, Later;
    if n > 0 {
      assert InTurn(cfg, start, rs, ready, taken, world, n - 1);
    }
    assert InTurn(cfg, start, rs', ready', taken', world, n);
    forall i: nat | i < n
      ensures InTurn(cfg, start, rs', ready', taken', world, i)
    {
      assert InTurn(cfg, start, rs, ready, taken, world, i);
    }
  }

  lemma DrivingShape(
    w: nat, start: int, clock: int, free: seq<int>, rs: seq<Attempted>, ready: seq<int>, taken: seq<int>,
    slot: seq<nat>)
    requires Driving(w, start, clock, free, rs, ready, taken, slot)
    ensures OneAtATime(w, rs, taken, slot) && WaitsForSlots(w, rs, ready, taken, slot)
    ensures |free| == w && |slot| == |taken| == |ready| == |rs|
    ensures clock == if rs == [] then start else taken[|rs| - 1]
  {}

  lemma Increasing(i: nat, interval: int)
    requires interval >= 1
    ensures i * interval >= 0 && (i > 0 ==> (i - 1) * interval <= i * interval)
  {}

  // ---- The worker bound ----

  ghost function SlotsOf(s: set<nat>, slot: seq<nat>): set<nat> {
    set i | i in s && i < |slot| :: slot[i]
  }

  ghost function UpTo(w: nat): (s: set<nat>)
    ensures |s| == w && forall k: nat :: k in s <==> k < w
  {
    if w == 0 then {} else UpTo(w - 1) + {w - 1}
  }

  lemma {:induction false} AsManySlots(s: set<nat>, slot: seq<nat>)
    requires forall i :: i in s ==> i < |slot|
    requires forall i, j :: i in s && j in s && slot[i] == slot[j] ==> i == j
    ensures |SlotsOf(s, slot)| == |s|
    decreases |s|
  {
    if s != {} {
      var i :| i in s;
      var rest := s - {i};
      AsManySlots(rest, slot);
      assert SlotsOf(s, slot) == SlotsOf(rest, slot) + {slot[i]};
      assert slot[i] !in SlotsOf(rest, slot);
    } else {
      assert SlotsOf(s, slot) == {};
    }
  }

  lemma {:induction false} SmallerSet(a: set<nat>, b: set<nat>)
    requires a <= b
    ensures |a| <= |b|
  {
    assert b == a + (b - a);
  }

  /** At no moment do more requests hold a slot than there are workers. */
  lemma WorkersAreTheBound(w: nat, rs: seq<Attempted>, taken: seq<int>, slot: seq<nat>, t: int)
    requires OneAtATime(w, rs, taken, slot)
    ensures |InFlight(rs, taken, t)| <= w
  {
    var s := InFlight(rs, taken, t);
    OneEach(w, rs, taken, slot, t);
    hide OneAtATime;
    AsManySlots(s, slot);
    SmallerSet(SlotsOf(s, slot), UpTo(w));
  }

  /**
   A request that is due waits only while the driver has not woken or all the workers are busy: a
   deficit beyond the two lags is the driver's own bound.
   */
  lemma OnlyTheBoundDelays(
    w: nat, rs: seq<Attempted>, ready: seq<int>, taken: seq<int>, slot: seq<nat>, i: nat, t: int)
    requires |ready| == |rs| && OneAtATime(w, rs, taken, slot) && WaitsForSlots(w, rs, ready, taken, slot)
    requires Waiting(rs, taken, i, t) && !DriverLate(rs, ready, taken, t)
    ensures |InFlight(rs, taken, t)| == w
  {
    var s := InFlight(rs, taken, t);
    OneEach(w, rs, taken, slot, t);
    AsManySlots(s, slot);
    forall k | k in UpTo(w)
      ensures k in SlotsOf(s, slot)
    {
      assert SlotHeld(rs, taken, slot, k, t);
      var j: nat :| Holds(rs, taken, slot, j, k, t);
      assert j in s;
    }
    assert SlotsOf(s, slot) == UpTo(w);
  }

  /** A driver that is never late to wake is never late. */
  lemma PunctualDriver(
    cfg: Config, start: int, rs: seq<Attempted>, ready: seq<int>, taken: seq<int>, world: nat -> Fate, t: int)
    requires (rs != [] ==> cfg.rate > 0.0) && OnSchedule(cfg, start, rs, ready, taken, world)
    requires start <= t && forall i :: 0 <= i < |rs| ==> world(i).late == 0
    ensures !DriverLate(rs, ready, taken, t)
  {
    hide Interval;
    forall j: nat | j < |rs|
      ensures !Waking(rs, ready, taken, j, t)
    {
      assert InTurn(cfg, start, rs, ready, taken, world, j);
    }
  }

  lemma OneEach(w: nat, rs: seq<Attempted>, taken: seq<int>, slot: seq<nat>, t: int)
    requires OneAtATime(w, rs, taken, slot)
    ensures forall i, j :: i in InFlight(rs, taken, t) && j in InFlight(rs, taken, t) && slot[i] == slot[j] ==> i == j
    ensures SlotsOf(InFlight(rs, taken, t), slot) <= UpTo(w)
  {}

  // ---- The report ----

  function Ms(d: int): real {
    d as real / 1000000.0
  }

  function IssuedOf(rs: seq<Attempted>): seq<Attempted> {
    if rs == [] then []
    else
      var most, r := IssuedOf(rs[..|rs| - 1]), rs[|rs| - 1];
      if r.Issued() then most + [r] else most
  }

  function BadOf(rs: seq<Attempted>): nat {
    if rs == [] then 0 else BadOf(rs[..|rs| - 1]) + One(rs[|rs| - 1].Bad())
  }

  function Services(rs: seq<Attempted>): seq<real> {
    seq(|rs|, i requires 0 <= i < |rs| => Ms(rs[i].Service()))
  }

  function Responses(rs: seq<Attempted>): seq<real> {
    seq(|rs|, i requires 0 <= i < |rs| => Ms(rs[i].Response()))
  }

  function Deficits(rs: seq<Attempted>): seq<real> {
    seq(|rs|, i requires 0 <= i < |rs| => Ms(rs[i].Deficit()))
  }

  /** The first start and the last end; the zero time stands for none yet. */
  function FirstStart(rs: seq<Attempted>): int {
    if rs == [] then ZERO_TIME
    else
      var first, t := FirstStart(rs[..|rs| - 1]), rs[|rs| - 1].started;
      if first == ZERO_TIME || t < first then t else first
  }

  function LastEnd(rs: seq<Attempted>): int {
    if rs == [] then ZERO_TIME
    else
      var last, t := LastEnd(rs[..|rs| - 1]), rs[|rs| - 1].ended;
      if t > last then t else last
  }

  lemma IssuedNext(rs: seq<Attempted>, r: Attempted)
    ensures IssuedOf(rs + [r]) == if r.Issued() then IssuedOf(rs) + [r] else IssuedOf(rs)
  {
    assert (rs + [r])[..|rs|] == rs;
  }

  lemma FiguresNext(rs: seq<Attempted>, r: Attempted)
    ensures BadOf(rs + [r]) == BadOf(rs) + One(r.Bad())
    ensures Services(rs + [r]) == Services(rs) + [Ms(r.Service())]
    ensures Responses(rs + [r]) == Responses(rs) + [Ms(r.Response())]
    ensures Deficits(rs + [r]) == Deficits(rs) + [Ms(r.Deficit())]
    ensures FirstStart(rs + [r])
         == if FirstStart(rs) == ZERO_TIME || r.started < FirstStart(rs) then r.started else FirstStart(rs)
    ensures LastEnd(rs + [r]) == if r.ended > LastEnd(rs) then r.ended else LastEnd(rs)
  {
    assert (rs + [r])[..|rs|] == rs;
  }

  /** The figures gathered over the issued requests so far. */
  ghost predicate Gathered(rs: seq<Attempted>, ok: nat, bad: nat, service: seq<real>, response: seq<real>,
                           deficit: seq<real>, first: int, last: int) {
    && bad == BadOf(rs) && ok + bad == |rs|
    && service == Services(rs) && response == Responses(rs) && deficit == Deficits(rs)
    && first == FirstStart(rs) && last == LastEnd(rs)
  }

  lemma GatheredNext(rs: seq<Attempted>, r: Attempted, ok: nat, bad: nat, service: seq<real>, response: seq<real>,
                     deficit: seq<real>, first: int, last: int)
    requires Gathered(rs, ok, bad, service, response, deficit, first, last)
    ensures Gathered(rs + [r], ok + One(!r.Bad()), bad + One(r.Bad()), service + [Ms(r.Service())],
                     response + [Ms(r.Response())], deficit + [Ms(r.Deficit())],
                     if first == ZERO_TIME || r.started < first then r.started else first,
                     if r.ended > last then r.ended else last)
  {
    FiguresNext(rs, r);
    hide BadOf, Services, Responses, Deficits, FirstStart, LastEnd;
  }

  /** Failures are counted, and their latencies included; requests never issued are not requests. */
  method Summarise(results: seq<Attempted>, cfg: Config) returns (rep: Report)
    ensures var rs := IssuedOf(results);
      && rep.requests == |rs| == rep.ok + rep.bad && rep.bad == BadOf(rs)
      && rep.serviceP50 == Pct(Services(rs), 50) && rep.serviceP99 == Pct(Services(rs), 99)
      && rep.responseP50 == Pct(Responses(rs), 50) && rep.responseP99 == Pct(Responses(rs), 99)
      && rep.deficitP99 == Pct(Deficits(rs), 99)
      && rep.omission == rep.responseP99 - rep.serviceP99
      && rep.achieved == (if LastEnd(rs) > FirstStart(rs)
                          then |rs| as real / ((LastEnd(rs) - FirstStart(rs)) as real / SECOND as real) else 0.0)
      && rep.intended == cfg.rate
  {
    hide Pct, Gathered, IssuedOf;
    rep := Report(|results|, 0, 0, 0.0, 0.0, 0.0, 0.0, 0.0, 0.0, 0.0, cfg.rate);
    var ok: nat, bad: nat, skipped: nat := 0, 0, 0;
    var service: seq<real>, response: seq<real>, deficit: seq<real> := [], [], [];
    var first, last := ZERO_TIME, ZERO_TIME;
    ghost var rs := [];
    NothingGathered();
    for i := 0 to |results|
      invariant rs == IssuedOf(results[..i]) && |rs| == i - skipped
      invariant Gathered(rs, ok, bad, service, response, deficit, first, last)
    {
      var r := results[i];
      IssuedNext(results[..i], r);
      assert results[..i + 1] == results[..i] + [r];
      if !r.Issued() {
        skipped := skipped + 1;
        continue;
      }
      GatheredNext(rs, r, ok, bad, service, response, deficit, first, last);
      if r.Bad() {
        bad := bad + 1;
      } else {
        ok := ok + 1;
      }
      service := service + [Ms(r.Service())];
      response := response + [Ms(r.Response())];
      deficit := deficit + [Ms(r.Deficit())];
      if first == ZERO_TIME || r.started < first {
        first := r.started;
      }
      if r.ended > last {
        last := r.ended;
      }
      rs := rs + [r];
    }
    assert results[..|results|] == results;
    GatheredFigures(rs, ok, bad, service, response, deficit, first, last);
    rep := rep.(requests := |results| - skipped, ok := ok, bad := bad);
    if |service| == 0 {
      NoSamples();
      return;
    }
    rep := rep.(
      serviceP50 := Pct(service, 50), serviceP99 := Pct(service, 99),
      responseP50 := Pct(response, 50), responseP99 := Pct(response, 99),
      deficitP99 := Pct(deficit, 99), omission := Pct(response, 99) - Pct(service, 99));
    var elapsed := (last - first) as real / SECOND as real;
    if elapsed > 0.0 {
      rep := rep.(achieved := |service| as real / elapsed);
    }
  }

  lemma NothingGathered()
    ensures IssuedOf([]) == [] && Gathered([], 0, 0, [], [], [], ZERO_TIME, ZERO_TIME)
  {}

  lemma NoSamples()
    ensures Pct([], 50) == 0.0 && Pct([], 99) == 0.0
  {}

  lemma GatheredFigures(rs: seq<Attempted>, ok: nat, bad: nat, service: seq<real>, response: seq<real>,
                        deficit: seq<real>, first: int, last: int)
    requires Gathered(rs, ok, bad, service, response, deficit, first, last)
    ensures bad == BadOf(rs) && ok + bad == |rs| == |service|
    ensures service == Services(rs) && response == Responses(rs) && deficit == Deficits(rs)
    ensures first == FirstStart(rs) && last == LastEnd(rs)
    ensures rs == [] ==> first == last && service == [] && response == [] && deficit == []
  {}

  // ---- What the figures mean ----

  /**
   A response runs from when the request was due: the wait for the driver and the service. It is
   the service alone only for a request that started on time.
   */
  lemma ResponseRunsFromDue(r: Attempted)
    ensures r.Response() == r.ended - r.intended && r.Service() == r.ended - r.started
    ensures r.Response() == r.Deficit() + r.Service() && r.Deficit() == r.started - r.intended
    ensures r.Response() == r.Service() <==> r.started == r.intended
  {}

  /** In a run it is the wait for a slot, the worker's lag and the time the request took, from the due time. */
  lemma ResponseInARun(
    cfg: Config, start: int, rs: seq<Attempted>, ready: seq<int>, taken: seq<int>, world: nat -> Fate, i: nat)
    requires (rs != [] ==> cfg.rate > 0.0) && OnSchedule(cfg, start, rs, ready, taken, world) && i < |rs|
    ensures var due := start + i * Interval(cfg.rate);
      rs[i].Response() == (taken[i] - due) + world(i).lag + world(i).took >= rs[i].Service()
  {
    assert InTurn(cfg, start, rs, ready, taken, world, i);
    hide Interval, Later;
  }

  /** The samples are of the issued requests, in milliseconds. */
  lemma SamplesAreMilliseconds(rs: seq<Attempted>, i: nat)
    requires i < |rs|
    ensures |Services(rs)| == |Responses(rs)| == |Deficits(rs)| == |rs|
    ensures Services(rs)[i] * 1000000.0 == (rs[i].ended - rs[i].started) as real
    ensures Responses(rs)[i] * 1000000.0 == (rs[i].ended - rs[i].intended) as real
    ensures Deficits(rs)[i] * 1000000.0 == (rs[i].started - rs[i].intended) as real
  {}

  /** The requests counted are those with a due time, each as often as it was returned. */
  lemma {:induction false} IssuedAreKept(rs: seq<Attempted>, r: Attempted)
    ensures multiset(IssuedOf(rs))[r] == if r.intended != 0 then multiset(rs)[r] else 0
  {
    if rs != [] {
      var most, last := rs[..|rs| - 1], rs[|rs| - 1];
      IssuedAreKept(most, r);
      assert rs == most + [last];
    }
  }

  /** A request failed when nothing came back, or the server's own error did. */
  predicate FailedAt(rs: seq<Attempted>, i: nat) {
    i < |rs| && (rs[i].failed || rs[i].status == 0 || rs[i].status >= 500)
  }

  ghost function FailuresOf(rs: seq<Attempted>): set<nat> {
    set i: nat | i < |rs| && FailedAt(rs, i)
  }

  lemma {:induction false} FailuresAreCounted(rs: seq<Attempted>)
    ensures BadOf(rs) == |FailuresOf(rs)|
  {
    if rs == [] {
      assert FailuresOf(rs) == {};
    } else {
      var most, n := rs[..|rs| - 1], |rs| - 1;
      FailuresAreCounted(most);
      assert forall i: nat :: i < n ==> FailedAt(most, i) == FailedAt(rs, i);
      assert FailuresOf(rs) == FailuresOf(most) + if FailedAt(rs, n) then {n} else {};
    }
  }

  /** Requests per second are over the time from the first start to the last end. */
  lemma {:induction false} FirstAndLast(rs: seq<Attempted>)
    requires rs != [] && forall i :: 0 <= i < |rs| ==> rs[i].started > 0 && rs[i].ended > 0
    ensures exists i: nat :: i < |rs| && FirstStart(rs) == rs[i].started
    ensures exists i: nat :: i < |rs| && LastEnd(rs) == rs[i].ended
    ensures forall i :: 0 <= i < |rs| ==> FirstStart(rs) <= rs[i].started && rs[i].ended <= LastEnd(rs)
  {
    var most, n := rs[..|rs| - 1], |rs| - 1;
    assert rs[n].started > 0;
    if most != [] {
      FirstAndLast(most);
      var i: nat :| i < |most| && FirstStart(most) == most[i].started;
      var j: nat :| j < |most| && LastEnd(most) == most[j].ended;
      assert most[i] == rs[i] && most[j] == rs[j];
      assert forall k :: 0 <= k < n ==> rs[k] == most[k];
    }
  }

  // ---- Coordinated omission ----

  /** No request starts before it is due. */
  ghost predicate NoneEarly(rs: seq<Attempted>) {
    forall i :: 0 <= i < |rs| ==> rs[i].started >= rs[i].intended
  }

  lemma {:induction false} IssuedAreNotEarly(rs: seq<Attempted>)
    requires NoneEarly(rs)
    ensures NoneEarly(IssuedOf(rs))
  {
    if rs != [] {
      IssuedAreNotEarly(rs[..|rs| - 1]);
    }
  }

  lemma MsGrows(a: int, b: int)
    requires a <= b
    ensures Ms(a) <= Ms(b)
  {}

  /** What a closed-loop driver would not have seen is never negative, at any percentile. */
  lemma OmissionIsNotNegative(results: seq<Attempted>, p: nat)
    requires NoneEarly(results)
    ensures var rs := IssuedOf(results); Pct(Responses(rs), p) >= Pct(Services(rs), p)
  {
    var rs := IssuedOf(results);
    IssuedAreNotEarly(results);
    forall i | 0 <= i < |rs|
      ensures Services(rs)[i] <= Responses(rs)[i]
    {
      MsGrows(rs[i].Service(), rs[i].Response());
    }
    DominatedPercentiles(Services(rs), Responses(rs), p);
  }

  /** When every issued request started late, a closed-loop driver has missed something at every percentile. */
  lemma LatenessIsOmission(results: seq<Attempted>, p: nat)
    requires IssuedOf(results) != []
    requires forall i :: 0 <= i < |results| ==> results[i].started > results[i].intended
    ensures var rs := IssuedOf(results); Pct(Responses(rs), p) > Pct(Services(rs), p)
  {
    var rs := IssuedOf(results);
    forall i | 0 <= i < |rs|
      ensures Services(rs)[i] < Responses(rs)[i]
    {
      assert rs[i] in multiset(rs);
      IssuedAreKept(results, rs[i]);
      assert rs[i] in results;
    }
    hide Services, Responses, Pct, IssuedOf;
    StrictlyDominatedPercentiles(Services(rs), Responses(rs), p);
  }

  /** A run and its report: everything scheduled is counted, and the three readings are in order. */
  method Measure(cfg: Config, start: int, world: nat -> Fate) returns (rep: Report)
    requires start > ZERO_TIME
    ensures rep.requests == rep.ok + rep.bad == Total(cfg)
    ensures rep.omission >= 0.0 && rep.deficitP99 >= 0.0
    ensures rep.serviceP50 <= rep.serviceP99 && rep.responseP50 <= rep.responseP99
    ensures rep.serviceP50 <= rep.responseP50
    ensures Total(cfg) > 0 && (forall i: nat :: world(i).lag > 0) ==> rep.omission > 0.0
  {
    hide OnSchedule, OneAtATime, WaitsForSlots, NoneEarly, IssuedOf, Services, Responses, Deficits, Pct, FirstStart,
      LastEnd, BadOf;
    var results, ready, taken, _ := Run(cfg, start, world);
    rep := Summarise(results, cfg);
    ScheduledIsNotEarly(cfg, start, results, ready, taken, world);
    Readings(results);
    if Total(cfg) > 0 && forall i: nat :: world(i).lag > 0 {
      LateWhenLagging(cfg, start, results, ready, taken, world);
      LatenessIsOmission(results, 99);
    }
  }

  lemma LateWhenLagging(
    cfg: Config, start: int, rs: seq<Attempted>, ready: seq<int>, taken: seq<int>, world: nat -> Fate)
    requires (rs != [] ==> cfg.rate > 0.0) && OnSchedule(cfg, start, rs, ready, taken, world)
    requires forall i: nat :: world(i).lag > 0
    ensures forall i :: 0 <= i < |rs| ==> rs[i].started > rs[i].intended
  {
    hide Interval, Later;
    forall i: nat | i < |rs|
      ensures rs[i].started > rs[i].intended
    {
      assert InTurn(cfg, start, rs, ready, taken, world, i);
    }
  }

  lemma ScheduledIsNotEarly(
    cfg: Config, start: int, rs: seq<Attempted>, ready: seq<int>, taken: seq<int>, world: nat -> Fate)
    requires (rs != [] ==> cfg.rate > 0.0) && OnSchedule(cfg, start, rs, ready, taken, world)
    ensures NoneEarly(rs) && IssuedOf(rs) == rs
  {
    hide Interval, Later;
    forall i: nat | i < |rs|
      ensures rs[i].started >= rs[i].intended && rs[i].Issued()
    {
      assert InTurn(cfg, start, rs, ready, taken, world, i);
    }
    AllIssued(rs);
  }

  /** The readings of requests none of which started early, in order. */
  lemma Readings(rs: seq<Attempted>)
    requires NoneEarly(rs) && IssuedOf(rs) == rs
    ensures Pct(Services(rs), 99) <= Pct(Responses(rs), 99) && Pct(Deficits(rs), 99) >= 0.0
    ensures Pct(Services(rs), 50) <= Pct(Services(rs), 99) && Pct(Responses(rs), 50) <= Pct(Responses(rs), 99)
    ensures Pct(Services(rs), 50) <= Pct(Responses(rs), 50)
  {
    hide NoneEarly, IssuedOf, Services, Responses, Deficits, Pct;
    OmissionIsNotNegative(rs, 50);
    OmissionIsNotNegative(rs, 99);
    PctGrowsWithRank(Services(rs), 50, 99);
    PctGrowsWithRank(Responses(rs), 50, 99);
    DeficitIsNotNegative(rs);
  }

  lemma {:induction false} AllIssued(rs: seq<Attempted>)
    requires forall i :: 0 <= i < |rs| ==> rs[i].Issued()
    ensures IssuedOf(rs) == rs
  {
    if rs != [] {
      AllIssued(rs[..|rs| - 1]);
    }
  }

  lemma DeficitIsNotNegative(rs: seq<Attempted>)
    requires NoneEarly(rs)
    ensures Pct(Deficits(rs), 99) >= 0.0
  {
    if rs != [] {
      PctIsNearestRank(Deficits(rs), 99);
      var i :| 0 <= i < |rs| && Deficits(rs)[i] == Pct(Deficits(rs), 99);
      MsGrows(0, rs[i].Deficit());
    }
  }
}
