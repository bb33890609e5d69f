/**
 Flow permits and the adaptive cap.  Every method of the controller holds its lock for one atomic step;
 connection goroutines acquire a permit, then either give it back or turn it into a flow.
 */
module PolicyCap {
  import opened Wrappers
  import opened Seqs

  const RTT_HIGH_MS: real := 250.0
  const RTT_LOW_MS: real := 150.0
  const ENABLE_AFTER: nat := 2
  const DISABLE_AFTER: nat := 3
  const MAX_NEW_PER_SEC: nat := 2
  const ACTIVE_MARGIN: nat := 4

  // ---------------------------------------------------------------- states and steps

  /** `holders` are the goroutines that hold a permit; `granted` lists the seconds in which permits
      were granted since the cap was last switched on. */
  datatype Ctl = Ctl(
    auto: bool,
    flows: set<nat>,
    nextId: nat,
    pending: nat,
    capOn: bool,
    maxNew: nat,
    maxActive: nat,
    openedNow: nat,
    windowSec: int,
    high: nat,
    low: nat,
    holders: set<nat>,
    granted: seq<int>)

  datatype Step =
    | Acquire(t: nat, sec: int)
    | Release(t: nat)
    | Register(t: nat)
    | Unregister(id: nat)
    | StatsTick(sec: int, rtt: Option<real>)

  function Start(auto: bool): Ctl {
    Ctl(auto, {}, 0, 0, false, 0, 0, 0, 0, 0, 0, {}, [])
  }

  /** A goroutine holds at most one permit, and gives up or uses only a permit it holds. */
  predicate Enabled(c: Ctl, step: Step) {
    match step
    case Acquire(t, sec) => t !in c.holders && (c.capOn ==> sec >= c.windowSec)
    case Release(t) => t in c.holders
    case Register(t) => t in c.holders
    case Unregister(_) => true
    case StatsTick(_, _) => true
  }

  /** The per-second counter as an attempt in second `sec` finds it. */
  function Window(c: Ctl, sec: int): Ctl {
    if sec != c.windowSec then c.(windowSec := sec, openedNow := 0) else c
  }

  predicate CanOpen(c: Ctl) {
    |c.flows| + c.pending < c.maxActive && c.openedNow < c.maxNew
  }

  /** Whether one attempt to acquire succeeds. */
  predicate Grants(c: Ctl, sec: int) {
    !c.auto || !c.capOn || CanOpen(Window(c, sec))
  }

  function DoAcquire(c: Ctl, t: nat, sec: int): Ctl {
    if !c.auto || !c.capOn then c.(pending := c.pending + 1, holders := c.holders + {t})
    else
      var w := Window(c, sec);
      if CanOpen(w) then
        w.(pending := w.pending + 1, openedNow := w.openedNow + 1, holders := w.holders + {t}, granted := w.granted + [sec])
      else w
  }

  function DoRegister(c: Ctl, t: nat): Ctl {
    c.(pending := if c.pending > 0 then c.pending - 1 else c.pending,
       holders := c.holders - {t},
       nextId := c.nextId + 1,
       flows := c.flows + {c.nextId + 1})
  }

  function DoTick(c: Ctl, sec: int, rtt: Option<real>): Ctl {
    if !c.auto then c.(capOn := false, maxNew := 0, maxActive := 0, high := 0, low := 0, openedNow := 0)
    else if rtt.None? then c.(high := 0, low := 0)
    else if rtt.value > RTT_HIGH_MS then
      var c' := c.(high := c.high + 1, low := 0);
      if !c.capOn && c'.high >= ENABLE_AFTER then
        c'.(capOn := true, maxNew := MAX_NEW_PER_SEC, maxActive := |c.flows| + c.pending + ACTIVE_MARGIN,
            windowSec := sec, openedNow := 0, granted := [])
      else c'
    else if rtt.value < RTT_LOW_MS then
      var c' := c.(low := c.low + 1, high := 0);
      if c.capOn && c'.low >= DISABLE_AFTER then c'.(capOn := false, maxNew := 0, maxActive := 0, openedNow := 0)
      else c'
    else c.(high := 0, low := 0)
  }

  function Next(c: Ctl, step: Step): Ctl {
    match step
    case Acquire(t, sec) => DoAcquire(c, t, sec)
    case Release(t) => c.(pending := if c.pending > 0 then c.pending - 1 else c.pending, holders := c.holders - {t})
    case Register(t) => DoRegister(c, t)
    case Unregister(id) => c.(flows := c.flows - {id})
    case StatsTick(sec, rtt) => DoTick(c, sec, rtt)
  }

  /** The controller after a schedule, when each of its steps is enabled in turn. */
  function Exec(auto: bool, steps: seq<Step>): Option<Ctl> {
    if steps == [] then Some(Start(auto))
    else
      var r := Exec(auto, steps[..|steps| - 1]);
      var step := steps[|steps| - 1];
      if r.Some? && Enabled(r.value, step) then Some(Next(r.value, step)) else None
  }

  lemma {:induction false} ExecSnoc(auto: bool, steps: seq<Step>, step: Step)
    ensures var r := Exec(auto, steps);
            Exec(auto, steps + [step]) == if r.Some? && Enabled(r.value, step) then Some(Next(r.value, step)) else None
  {
    assert (steps + [step])[..|steps|] == steps;
  }

  // ---------------------------------------------------------------- admission

  /** Permits are counted exactly, ids are fresh, and the cap holds while it is on. */
  ghost predicate Inv(c: Ctl) {
    && c.pending == |c.holders|
    && (forall id :: id in c.flows ==> id <= c.nextId)
    && (c.capOn ==> c.auto && |c.flows| + c.pending <= c.maxActive && c.maxNew == MAX_NEW_PER_SEC)
    && (c.capOn ==> RateKept(c.granted, c.windowSec, c.openedNow))
  }

  /** At most two permits in any second, and the counter is right for the current one. */
  ghost predicate RateKept(granted: seq<int>, windowSec: int, openedNow: nat) {
    && (forall i :: 0 <= i < |granted| ==> granted[i] <= windowSec)
    && Count(granted, windowSec) == openedNow
    && forall sec: int :: Count(granted, sec) <= MAX_NEW_PER_SEC
  }

  lemma {:induction false} CountAbsent(s: seq<int>, x: int)
    requires forall i :: 0 <= i < |s| ==> s[i] < x
    ensures Count(s, x) == 0
  {
    if s != [] {
      CountAbsent(s[..|s| - 1], x);
    }
  }

  lemma {:induction false} RateAdvance(granted: seq<int>, windowSec: int, openedNow: nat, sec: int)
    requires RateKept(granted, windowSec, openedNow) && sec > windowSec
    ensures RateKept(granted, sec, 0)
  {
    CountAbsent(granted, sec);
  }

  lemma {:induction false} RateGrant(granted: seq<int>, sec: int, openedNow: nat)
    requires RateKept(granted, sec, openedNow) && openedNow < MAX_NEW_PER_SEC
    ensures RateKept(granted + [sec], sec, openedNow + 1)
  {
    forall x: int {
      CountSnoc(granted, sec, x);
    }
  }

  lemma {:induction false} AddFlow(flows: set<nat>, id: nat)
    requires forall f :: f in flows ==> f < id
    ensures |flows + {id}| == |flows| + 1
  {
  }

  lemma {:induction false} DropFlow(flows: set<nat>, id: nat)
    ensures |flows - {id}| <= |flows|
  {
    if id in flows {
      assert flows == (flows - {id}) + {id};
    } else {
      assert flows - {id} == flows;
    }
  }

  lemma {:induction false} AcquireKeeps(c: Ctl, t: nat, sec: int)
    requires Inv(c) && Enabled(c, Acquire(t, sec))
    ensures Inv(DoAcquire(c, t, sec))
  {
    hide RateKept;
    assert |c.holders + {t}| == |c.holders| + 1;
    if c.auto && c.capOn {
      var w := Window(c, sec);
      if sec > c.windowSec {
        RateAdvance(c.granted, c.windowSec, c.openedNow, sec);
      }
      assert Inv(w);
      if CanOpen(w) {
        RateGrant(w.granted, sec, w.openedNow);
      }
    }
  }

  lemma {:induction false} StepKeeps(c: Ctl, step: Step)
    requires Inv(c) && Enabled(c, step)
    ensures Inv(Next(c, step))
  {
    hide RateKept, DoAcquire, DoTick;
    match step
    case Acquire(t, sec) => AcquireKeeps(c, t, sec);
    case Release(t) =>
      assert |c.holders - {t}| == |c.holders| - 1;
    case Register(t) =>
      assert |c.holders - {t}| == |c.holders| - 1;
      AddFlow(c.flows, c.nextId + 1);
    case Unregister(id) => DropFlow(c.flows, id);
    case StatsTick(sec, rtt) => TickKeeps(c, sec, rtt);
  }

  lemma {:induction false} TickKeeps(c: Ctl, sec: int, rtt: Option<real>)
    requires Inv(c)
    ensures Inv(DoTick(c, sec, rtt))
  {
    NothingGranted(sec);
    hide RateKept;
  }

  lemma {:induction false} NothingGranted(sec: int)
    ensures RateKept([], sec, 0)
  {
  }

  /** MAIN RESULT.  Over every interleaving of acquire, release, register, unregister and stats ticks:
      the pending count is the number of permits held and not yet used or returned; while the cap is
      on, flows and pending permits together stay within it, and since it was switched on no second has
      seen more than two grants. */
  lemma {:induction false} AlwaysWithinCap(auto: bool, steps: seq<Step>)
    requires Exec(auto, steps).Some?
    ensures var c := Exec(auto, steps).value;
            && c.pending == |c.holders|
            && (c.capOn ==> |c.flows| + c.pending <= c.maxActive)
            && (c.capOn ==> forall sec: int :: Count(c.granted, sec) <= 2)
            && Inv(c)
  {
    if steps == [] {
      assert Inv(Start(auto));
    } else {
      AlwaysWithinCap(auto, steps[..|steps| - 1]);
      StepKeeps(Exec(auto, steps[..|steps| - 1]).value, steps[|steps| - 1]);
    }
  }

  // ---------------------------------------------------------------- when a permit is granted

  /** The last step of the run switched the cap on. */
  predicate SwitchesOn(auto: bool, steps: seq<Step>)
    requires steps != []
  {
    var before, now := Exec(auto, steps[..|steps| - 1]), Exec(auto, steps);
    before.Some? && now.Some? && !before.value.capOn && now.value.capOn
  }

  /** The seconds of the permits a run has granted since it last switched the cap on. */
  function GrantedSince(auto: bool, steps: seq<Step>): seq<int> {
    if steps == [] || SwitchesOn(auto, steps) then []
    else
      var init, step := steps[..|steps| - 1], steps[|steps| - 1];
      var since := GrantedSince(auto, init);
      if step.Acquire? && Exec(auto, steps).Some? && step.t in Exec(auto, steps).value.holders then since + [step.sec]
      else since
  }

  /** Flows and permits held when the run last switched the cap on. */
  function ActiveThen(auto: bool, steps: seq<Step>): nat {
    if steps == [] then 0
    else if SwitchesOn(auto, steps) then
      |Exec(auto, steps).value.flows| + |Exec(auto, steps).value.holders|
    else ActiveThen(auto, steps[..|steps| - 1])
  }

  /** What the cap remembers is what the run has done. */
  ghost predicate Remembers(c: Ctl, since: seq<int>, active: nat) {
    c.capOn ==> c.granted == since && c.maxActive == active + 4 && c.maxNew == 2
  }

  /** What the last step adds to those. */
  function SinceAfter(since: seq<int>, step: Step, c: Ctl, c': Ctl): seq<int> {
    if !c.capOn && c'.capOn then [] else if step.Acquire? && step.t in c'.holders then since + [step.sec] else since
  }

  function ActiveAfter(active: nat, c: Ctl, c': Ctl): nat {
    if !c.capOn && c'.capOn then |c'.flows| + |c'.holders| else active
  }

  lemma {:induction false} StepRemembers(c: Ctl, step: Step, since: seq<int>, active: nat)
    requires Inv(c) && Enabled(c, step) && Remembers(c, since, active)
    ensures var c' := Next(c, step);
            Remembers(c', SinceAfter(since, step, c, c'), ActiveAfter(active, c, c'))
  {
    hide RateKept;
  }

  lemma {:induction false} AlwaysRemembers(auto: bool, steps: seq<Step>)
    requires Exec(auto, steps).Some?
    ensures Remembers(Exec(auto, steps).value, GrantedSince(auto, steps), ActiveThen(auto, steps))
  {
    if steps != [] {
      hide Inv, Next, Enabled, Remembers;
      var init, step := steps[..|steps| - 1], steps[|steps| - 1];
      AlwaysRemembers(auto, init);
      AlwaysWithinCap(auto, init);
      StepRemembers(Exec(auto, init).value, step, GrantedSince(auto, init), ActiveThen(auto, init));
    } else {
      hide GrantedSince;
    }
  }

  /** MAIN RESULT.  After every schedule: without the cap an attempt to acquire a permit succeeds; with it,
      if and only if flows and permits held are fewer than those when the cap was switched on, plus four,
      and fewer than two permits have been granted since then in the second of the attempt. */
  lemma {:induction false} GrantedExactly(auto: bool, steps: seq<Step>, t: nat, sec: int)
    requires Exec(auto, steps).Some? && Enabled(Exec(auto, steps).value, Acquire(t, sec))
    ensures var c := Exec(auto, steps).value;
            t in Next(c, Acquire(t, sec)).holders
            <==> !c.capOn
                 || (&& |c.flows| + |c.holders| < ActiveThen(auto, steps) + 4
                     && Count(GrantedSince(auto, steps), sec) < 2)
    ensures var c := Exec(auto, steps).value;
            c.pending == |c.holders| && (t in Next(c, Acquire(t, sec)).holders <==> Grants(c, sec))
  {
    hide Exec, GrantedSince, ActiveThen;
    AlwaysRemembers(auto, steps);
    AlwaysWithinCap(auto, steps);
    var c := Exec(auto, steps).value;
    if c.capOn && sec > c.windowSec {
      CountAbsent(c.granted, sec);
    }
  }

  // ---------------------------------------------------------------- permits and flows from the history

  /** Goroutine `t` has been granted a permit and has neither returned nor used it. */
  predicate HoldsPermit(auto: bool, steps: seq<Step>, t: nat) {
    steps != [] &&
    var init, step := steps[..|steps| - 1], steps[|steps| - 1];
    if step.Acquire? && step.t == t then Exec(auto, init).Some? && Grants(Exec(auto, init).value, step.sec)
    else if (step.Release? || step.Register?) && step.t == t then false
    else HoldsPermit(auto, init, t)
  }

  function Registrations(steps: seq<Step>): nat {
    if steps == [] then 0
    else Registrations(steps[..|steps| - 1]) + if steps[|steps| - 1].Register? then 1 else 0
  }

  /** Flow `id`, which is the one registered as number `id`, has not been unregistered since. */
  predicate FlowOpen(steps: seq<Step>, id: nat) {
    steps != [] &&
    var init, step := steps[..|steps| - 1], steps[|steps| - 1];
    if step.Register? && Registrations(steps) == id then true
    else if step == Unregister(id) then false
    else FlowOpen(init, id)
  }

  lemma {:induction false} HoldersAfter(c: Ctl, step: Step, x: nat)
    ensures x in Next(c, step).holders
            <==> if step.Acquire? && step.t == x then x in c.holders || Grants(c, step.sec)
                 else x in c.holders && !((step.Release? || step.Register?) && step.t == x)
  {
    hide CanOpen;
  }

  lemma {:induction false} FlowsAfter(c: Ctl, step: Step, x: nat)
    ensures var c' := Next(c, step);
            && c'.nextId == c.nextId + (if step.Register? then 1 else 0)
            && (x in c'.flows <==> (step.Register? && x == c'.nextId) || (x in c.flows && step != Unregister(x)))
  {
    hide CanOpen;
  }

  /** Over every schedule the permits held and the flows are those the history tells. */
  lemma {:induction false} HeldExactly(auto: bool, steps: seq<Step>, x: nat)
    requires Exec(auto, steps).Some?
    ensures var c := Exec(auto, steps).value;
            && (x in c.holders <==> HoldsPermit(auto, steps, x))
            && (x in c.flows <==> FlowOpen(steps, x))
            && c.nextId == Registrations(steps)
  {
    if steps != [] {
      hide Next, Grants;
      var init, step := steps[..|steps| - 1], steps[|steps| - 1];
      HeldExactly(auto, init, x);
      HoldersAfter(Exec(auto, init).value, step, x);
      FlowsAfter(Exec(auto, init).value, step, x);
    }
  }

  // ---------------------------------------------------------------- hysteresis

  datatype Reading = High | Low | Neither

  function Classify(rtt: Option<real>): Reading {
    if rtt.None? then Neither
    else if rtt.value > 250.0 then High
    else if rtt.value < 150.0 then Low
    else Neither
  }

  /** The readings of a schedule's stats ticks, in order. */
  function Readings(steps: seq<Step>): seq<Reading> {
    if steps == [] then []
    else
      var init := Readings(steps[..|steps| - 1]);
      var step := steps[|steps| - 1];
      if step.StatsTick? then init + [Classify(step.rtt)] else init
  }

  /** A run of `n` readings `x` ends at position `i`. */
  predicate RunEnds(rs: seq<Reading>, x: Reading, n: nat, i: int) {
    0 <= i < |rs| && n <= i + 1 && forall j :: i - n < j <= i ==> rs[j] == x
  }

  /** Where the latest run of `n` readings `x` ends, or -1. */
  function LatestRun(rs: seq<Reading>, x: Reading, n: nat): (i: int)
    requires n > 0
    ensures i == -1 || RunEnds(rs, x, n, i)
    ensures forall j :: i < j < |rs| ==> !RunEnds(rs, x, n, j)
  {
    if rs == [] then -1
    else if RunEnds(rs, x, n, |rs| - 1) then |rs| - 1
    else
      var init := rs[..|rs| - 1];
      var i := LatestRun(init, x, n);
      assert forall j :: j < |init| ==> (RunEnds(init, x, n, j) <==> RunEnds(rs, x, n, j));
      i
  }

  function TrailingRun(rs: seq<Reading>, x: Reading): (n: nat)
    ensures n <= |rs|
    ensures forall j :: |rs| - n <= j < |rs| ==> rs[j] == x
    ensures n < |rs| ==> rs[|rs| - 1 - n] != x
  {
    if rs == [] || rs[|rs| - 1] != x then 0 else TrailingRun(rs[..|rs| - 1], x) + 1
  }

  lemma {:induction false} TrailingIsRun(rs: seq<Reading>, x: Reading, n: nat)
    requires n > 0 && rs != []
    ensures TrailingRun(rs, x) >= n <==> RunEnds(rs, x, n, |rs| - 1)
  {
    var t := TrailingRun(rs, x);
    if t < n && t < |rs| {
      assert rs[|rs| - 1 - t] != x;
    }
  }

  lemma {:induction false} LatestRunSnoc(rs: seq<Reading>, y: Reading, x: Reading, n: nat)
    requires n > 0
    ensures LatestRun(rs + [y], x, n)
            == if TrailingRun(rs + [y], x) >= n then |rs| else LatestRun(rs, x, n)
    ensures LatestRun(rs, x, n) < |rs|
    ensures TrailingRun(rs + [y], x) == if y == x then TrailingRun(rs, x) + 1 else 0
  {
    TrailingIsRun(rs + [y], x, n);
    assert (rs + [y])[..|rs|] == rs;
  }

  /** The cap and its counters are functions of the readings. */
  ghost predicate FromReadings(c: Ctl, rs: seq<Reading>) {
    && c.high == TrailingRun(rs, High)
    && c.low == TrailingRun(rs, Low)
    && (c.capOn <==> LatestRun(rs, High, ENABLE_AFTER) > LatestRun(rs, Low, DISABLE_AFTER))
  }

  lemma {:induction false} TickFollows(c: Ctl, rs: seq<Reading>, sec: int, rtt: Option<real>)
    requires c.auto && FromReadings(c, rs)
    ensures FromReadings(DoTick(c, sec, rtt), rs + [Classify(rtt)])
  {
    hide LatestRun, TrailingRun;
    var y := Classify(rtt);
    LatestRunSnoc(rs, y, High, ENABLE_AFTER);
    LatestRunSnoc(rs, y, Low, DISABLE_AFTER);
  }

  lemma {:induction false} OtherSteps(c: Ctl, step: Step)
    ensures Next(c, step).auto == c.auto
    ensures !step.StatsTick? ==>
              Next(c, step).high == c.high && Next(c, step).low == c.low && Next(c, step).capOn == c.capOn
  {
  }

  /** MAIN RESULT.  In automatic mode the cap is on after any schedule if and only if the latest run of
      two high readings is more recent than the latest run of three low ones; missing and middling
      readings break runs, and nothing else matters. */
  lemma {:induction false} CapFromHistory(steps: seq<Step>)
    requires Exec(true, steps).Some?
    ensures var rs := Readings(steps);
            Exec(true, steps).value.capOn
            <==> LatestRun(rs, High, 2) > LatestRun(rs, Low, 3)
    ensures FromReadings(Exec(true, steps).value, Readings(steps)) && Exec(true, steps).value.auto
  {
    if steps != [] {
      hide LatestRun, TrailingRun, Classify, DoTick, DoAcquire;
      var init, step := steps[..|steps| - 1], steps[|steps| - 1];
      CapFromHistory(init);
      var c := Exec(true, init).value;
      OtherSteps(c, step);
      if step.StatsTick? {
        TickFollows(c, Readings(init), step.sec, step.rtt);
      }
    }
  }

  /** A controller with a fixed mode never caps. */
  lemma {:induction false} FixedModeNeverCaps(steps: seq<Step>)
    requires Exec(false, steps).Some?
    ensures !Exec(false, steps).value.capOn && !Exec(false, steps).value.auto
  {
    if steps != [] {
      FixedModeNeverCaps(steps[..|steps| - 1]);
    }
  }
}
