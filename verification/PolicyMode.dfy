/**
 The client's transport mode: normal, fast, or survival, driven by sliding windows of failures.
 Recording a failure and evaluating the policy are each one atomic step; times are in nanoseconds.
 A failure carries the current time.  An evaluation carries the time of its tick, which may be older
 than failures recorded since, for a tick first waits for a round-trip probe.
 */
module PolicyMode {
  import opened Seqs

  const SECOND: int := 1_000_000_000
  const FAILURE_WINDOW: int := 30 * SECOND
  const SURVIVAL_MIN: int := 60 * SECOND
  /** The unset time; nothing reads it before survival is first entered. */
  const ZERO_TIME: int := 0
  const QUIC_THRESHOLD: nat := 3
  const ERROR_THRESHOLD: nat := 8

  // ---------------------------------------------------------------- sliding windows

  ghost predicate Sorted(ts: seq<int>) {
    forall i, j :: 0 <= i <= j < |ts| ==> ts[i] <= ts[j]
  }

  function NotBefore(cutoff: int): int -> bool {
    (t: int) => t >= cutoff
  }

  /** The events of a history that lie in the thirty seconds up to `now`. */
  function Within(ts: seq<int>, now: int): seq<int> {
    Filter(NotBefore(now - 30_000_000_000), ts)
  }

  /** Drops the stale times at the front. */
  method PruneTimes(items: seq<int>, cutoff: int) returns (kept: seq<int>)
    ensures kept == DropStale(items, cutoff)
  {
    if |items| == 0 {
      return items;
    }
    var idx := 0;
    while idx < |items| && items[idx] < cutoff
      invariant 0 <= idx <= |items|
      invariant DropStale(items, cutoff) == DropStale(items[idx..], cutoff)
    {
      idx := idx + 1;
    }
    return items[idx..];
  }

  function DropStale(items: seq<int>, cutoff: int): seq<int> {
    if items == [] || items[0] >= cutoff then items else DropStale(items[1..], cutoff)
  }

  /** On times in order, dropping a prefix is filtering. */
  lemma {:induction false} DropIsFilter(items: seq<int>, cutoff: int)
    requires Sorted(items)
    ensures DropStale(items, cutoff) == Filter(NotBefore(cutoff), items)
  {
    if items != [] {
      if items[0] >= cutoff {
        FilterAll(NotBefore(cutoff), items);
      } else {
        DropIsFilter(items[1..], cutoff);
        assert items == [items[0]] + items[1..];
        FilterAppend(NotBefore(cutoff), [items[0]], items[1..]);
        FilterNone(NotBefore(cutoff), [items[0]]);
      }
    }
  }

  /** A window can be cut out of any larger window. */
  lemma {:induction false} NarrowWindow(ts: seq<int>, earlier: int, later: int)
    requires earlier <= later
    ensures Within(Within(ts, earlier), later) == Within(ts, later)
  {
    FilterFilter(NotBefore(earlier - FAILURE_WINDOW), NotBefore(later - FAILURE_WINDOW), ts);
  }

  lemma {:induction false} SortedFilter(ts: seq<int>, cutoff: int)
    requires Sorted(ts)
    ensures Sorted(Filter(NotBefore(cutoff), ts))
  {
    if ts != [] {
      var init, last := ts[..|ts| - 1], ts[|ts| - 1];
      SortedFilter(init, cutoff);
      FilterMember(NotBefore(cutoff), init);
      var kept := Filter(NotBefore(cutoff), init);
      forall i | 0 <= i < |kept|
        ensures kept[i] <= last
      {
        assert kept[i] in init;
      }
    }
  }

  // ---------------------------------------------------------------- the mode machine

  datatype Mode = Normal | Fast | Survival

  /** `quicFails` and `errors` are the pruned windows; `quicAll` and `errorsAll` are whole histories;
      `quicSeen` and `errorsSeen` are the latest times each window was pruned for; `clock` is the
      latest time of any event and `lastEval` that of the last evaluation. */
  datatype Controller = Controller(
    auto: bool,
    mode: Mode,
    quicFails: seq<int>,
    errors: seq<int>,
    survivalUntil: int,
    clock: int,
    lastEval: int,
    quicAll: seq<int>,
    errorsAll: seq<int>,
    quicSeen: int,
    errorsSeen: int)

  datatype Event =
    | QuicFailure(now: int)
    | TransportError(now: int)
    | Evaluate(now: int, fastFlow: bool)

  /** Automatic mode begins as normal; otherwise the mode is the one asked for. */
  function Start(auto: bool, configured: Mode, now: int): Controller {
    Controller(auto, if auto then Normal else configured, [], [], ZERO_TIME, now, now, [], [], now, now)
  }

  function Max(x: int, y: int): int {
    if x < y then y else x
  }

  function SwitchTo(c: Controller, next: Mode, now: int): Controller {
    if c.mode == next then c
    else if next.Survival? then c.(mode := next, survivalUntil := now + SURVIVAL_MIN)
    else c.(mode := next)
  }

  function DoEvaluate(c: Controller, now: int, fastFlow: bool): Controller {
    if !c.auto then c.(clock := Max(c.clock, now), lastEval := now)
    else
      var fails := DropStale(c.quicFails, now - FAILURE_WINDOW);
      var errors := DropStale(c.errors, now - FAILURE_WINDOW);
      var c' := c.(quicFails := fails, errors := errors, clock := Max(c.clock, now), lastEval := now,
                   quicSeen := Max(c.quicSeen, now), errorsSeen := Max(c.errorsSeen, now));
      if !c.mode.Survival? && |fails| >= QUIC_THRESHOLD then SwitchTo(c', Survival, now)
      else if !c.mode.Survival? && |errors| >= ERROR_THRESHOLD then SwitchTo(c', Survival, now)
      else if c.mode.Survival? then
        if now > c.survivalUntil && fails == [] && errors == [] then SwitchTo(c', Normal, now) else c'
      else if c.mode.Normal? && fastFlow then SwitchTo(c', Fast, now)
      else c'
  }

  function Step(c: Controller, e: Event): Controller {
    var now := e.now;
    match e
    case QuicFailure(_) =>
      var fails := DropStale(c.quicFails + [now], now - FAILURE_WINDOW);
      var c' := c.(quicFails := fails, clock := now, quicAll := c.quicAll + [now], quicSeen := now);
      if c.auto && !c.mode.Survival? && |fails| >= QUIC_THRESHOLD then SwitchTo(c', Survival, now) else c'
    case TransportError(_) =>
      var errors := DropStale(c.errors + [now], now - FAILURE_WINDOW);
      var c' := c.(errors := errors, clock := now, errorsAll := c.errorsAll + [now], errorsSeen := now);
      if c.auto && !c.mode.Survival? && |errors| >= ERROR_THRESHOLD then SwitchTo(c', Survival, now) else c'
    case Evaluate(_, fastFlow) => DoEvaluate(c, now, fastFlow)
  }

  /** A failure is not before anything earlier, an evaluation not before an earlier evaluation. */
  predicate Timely(c: Controller, e: Event) {
    if e.Evaluate? then c.lastEval <= e.now else c.clock <= e.now
  }

  /** `t` is the last time of the history. */
  ghost predicate IsLast(all: seq<int>, t: int) {
    all != [] && all[|all| - 1] == t
  }

  /** The windows are the histories filtered as of the latest pruning, a pruning later than the last
      evaluation recorded a failure, and outside survival both windows are below their thresholds. */
  ghost predicate Inv(c: Controller) {
    && Sorted(c.quicAll) && Sorted(c.errorsAll)
    && (forall i :: 0 <= i < |c.quicAll| ==> c.quicAll[i] <= c.clock)
    && (forall i :: 0 <= i < |c.errorsAll| ==> c.errorsAll[i] <= c.clock)
    && c.quicSeen <= c.clock && c.errorsSeen <= c.clock && c.lastEval <= c.clock
    && (c.quicSeen > c.lastEval ==> IsLast(c.quicAll, c.quicSeen))
    && (c.errorsSeen > c.lastEval ==> IsLast(c.errorsAll, c.errorsSeen))
    && c.quicFails == Within(c.quicAll, c.quicSeen)
    && c.errors == Within(c.errorsAll, c.errorsSeen)
    && (c.auto && !c.mode.Survival? ==> |c.quicFails| < QUIC_THRESHOLD && |c.errors| < ERROR_THRESHOLD)
  }

  lemma {:induction false} StartInv(auto: bool, configured: Mode, now: int)
    ensures Inv(Start(auto, configured, now))
  {
  }

  /** Recording an event and pruning leaves the window of the longer history. */
  lemma {:induction false} RecordAndPrune(all: seq<int>, seen: int, now: int)
    requires Sorted(all) && seen <= now && forall i :: 0 <= i < |all| ==> all[i] <= now
    ensures Sorted(all + [now])
    ensures DropStale(Within(all, seen) + [now], now - FAILURE_WINDOW) == Within(all + [now], now)
  {
    hide Filter, DropStale;
    FilterMember(NotBefore(seen - FAILURE_WINDOW), all);
    SortedFilter(all, seen - FAILURE_WINDOW);
    var kept := Within(all, seen);
    assert Sorted(kept + [now]) by {
      forall i | 0 <= i < |kept|
        ensures kept[i] <= now
      {
        assert kept[i] in all;
      }
    }
    DropIsFilter(kept + [now], now - FAILURE_WINDOW);
    FilterSnoc(NotBefore(now - FAILURE_WINDOW), kept, now);
    FilterSnoc(NotBefore(now - FAILURE_WINDOW), all, now);
    NarrowWindow(all, seen, now);
  }

  /** Pruning, also for an older time, leaves the window of the latest time pruned for. */
  lemma {:induction false} PruneOnly(all: seq<int>, seen: int, now: int)
    requires Sorted(all)
    ensures DropStale(Within(all, seen), now - FAILURE_WINDOW) == Within(all, Max(seen, now))
    ensures |Within(all, Max(seen, now))| <= |Within(all, seen)|
  {
    hide Filter, DropStale;
    SortedFilter(all, seen - FAILURE_WINDOW);
    DropIsFilter(Within(all, seen), now - FAILURE_WINDOW);
    if seen <= now {
      NarrowWindow(all, seen, now);
    } else {
      var kept := Within(all, seen);
      FilterMember(NotBefore(seen - FAILURE_WINDOW), all);
      forall i | 0 <= i < |kept|
        ensures kept[i] >= now - FAILURE_WINDOW
      {
        assert kept[i] in kept;
      }
      FilterAll(NotBefore(now - FAILURE_WINDOW), kept);
    }
  }

  /** A window pruned for a recorded failure is not empty, nor is that of an older time. */
  lemma {:induction false} OlderWindow(all: seq<int>, seen: int, now: int)
    requires now < seen ==> IsLast(all, seen)
    ensures Within(all, Max(seen, now)) == [] <==> Within(all, now) == []
  {
    if now < seen {
      hide Filter;
      var init := all[..|all| - 1];
      assert all == init + [seen];
      FilterSnoc(NotBefore(seen - FAILURE_WINDOW), init, seen);
      FilterSnoc(NotBefore(now - FAILURE_WINDOW), init, seen);
    }
  }

  lemma {:induction false} FailureKeeps(c: Controller, e: Event)
    requires Inv(c) && Timely(c, e) && !e.Evaluate?
    ensures Inv(Step(c, e))
  {
    hide Within, DropStale;
    match e
    case QuicFailure(now) => RecordAndPrune(c.quicAll, c.quicSeen, now);
    case TransportError(now) => RecordAndPrune(c.errorsAll, c.errorsSeen, now);
  }

  lemma {:induction false} EvaluateKeeps(c: Controller, now: int, fastFlow: bool)
    requires Inv(c) && c.lastEval <= now
    ensures Inv(DoEvaluate(c, now, fastFlow))
  {
    PruneOnly(c.quicAll, c.quicSeen, now);
    PruneOnly(c.errorsAll, c.errorsSeen, now);
    hide Within, DropStale, Sorted;
  }

  lemma {:induction false} StepKeeps(c: Controller, e: Event)
    requires Inv(c) && Timely(c, e)
    ensures Inv(Step(c, e))
    ensures Step(c, e).clock == Max(c.clock, e.now)
    ensures Step(c, e).lastEval == if e.Evaluate? then e.now else c.lastEval
  {
    if e.Evaluate? {
      EvaluateKeeps(c, e.now, e.fastFlow);
    } else {
      FailureKeeps(c, e);
    }
    hide Inv, DropStale;
  }

  /** What an evaluation does to the fields the client keeps. */
  lemma {:induction false} EvaluateIs(c: Controller, now: int, fastFlow: bool)
    ensures var c' := Step(c, Evaluate(now, fastFlow));
            && c'.auto == c.auto
            && (!c.auto ==> c'.mode == c.mode && c'.quicFails == c.quicFails && c'.errors == c.errors
                            && c'.survivalUntil == c.survivalUntil)
            && (c.auto ==>
                  && c'.quicFails == DropStale(c.quicFails, now - FAILURE_WINDOW)
                  && c'.errors == DropStale(c.errors, now - FAILURE_WINDOW)
                  && c'.mode == (if c.mode.Survival?
                                 then if now > c.survivalUntil && c'.quicFails == [] && c'.errors == [] then Normal
                                      else Survival
                                 else if |c'.quicFails| >= QUIC_THRESHOLD || |c'.errors| >= ERROR_THRESHOLD then Survival
                                 else if c.mode.Normal? && fastFlow then Fast else c.mode)
                  && c'.survivalUntil == if !c.mode.Survival? && c'.mode.Survival? then now + SURVIVAL_MIN
                                         else c.survivalUntil)
  {
    hide DropStale;
  }

  // ---------------------------------------------------------------- what a step may do to the mode

  /** MAIN RESULT.  In automatic mode the mode changes only along these edges, and each under exactly
      this condition on the full failure histories; otherwise it never changes. */
  ghost predicate EdgeLaw(c: Controller, e: Event) {
    var c' := Step(c, e);
    if !c.auto then c'.mode == c.mode
    else match c.mode
      case Normal =>
        c'.mode == (if TooManyFailures(c, e) then Survival
                    else if e.Evaluate? && e.fastFlow then Fast else Normal)
      case Fast =>
        c'.mode == if TooManyFailures(c, e) then Survival else Fast
      case Survival =>
        c'.mode == if e.Evaluate? && e.now > c.survivalUntil
                      && Within(c.quicAll, e.now) == [] && Within(c.errorsAll, e.now) == [] then Normal
                   else Survival
  }

  /** The failure just recorded fills its window. */
  ghost predicate TooManyFailures(c: Controller, e: Event) {
    || (e.QuicFailure? && |Within(c.quicAll + [e.now], e.now)| >= 3)
    || (e.TransportError? && |Within(c.errorsAll + [e.now], e.now)| >= 8)
  }

  lemma {:induction false} Edges(c: Controller, e: Event)
    requires Inv(c) && Timely(c, e)
    ensures EdgeLaw(c, e)
  {
    hide Within, DropStale;
    match e
    case QuicFailure(now) => RecordAndPrune(c.quicAll, c.quicSeen, now);
    case TransportError(now) => RecordAndPrune(c.errorsAll, c.errorsSeen, now);
    case Evaluate(now, _) =>
      PruneOnly(c.quicAll, c.quicSeen, now);
      PruneOnly(c.errorsAll, c.errorsSeen, now);
      OlderWindow(c.quicAll, c.quicSeen, now);
      OlderWindow(c.errorsAll, c.errorsSeen, now);
  }

  // ---------------------------------------------------------------- whole runs

  /** Failures come in order, after all earlier events; evaluations come in order among themselves. */
  ghost predicate InOrder(c: Controller, es: seq<Event>) {
    && (forall i :: 0 <= i < |es| ==> Timely(c, es[i]))
    && (forall i, j :: 0 <= i <= j < |es| && (es[j].Evaluate? ==> es[i].Evaluate?) ==> es[i].now <= es[j].now)
  }

  function Run(c: Controller, es: seq<Event>): Controller {
    if es == [] then c else Step(Run(c, es[..|es| - 1]), es[|es| - 1])
  }

  /** The clocks of a run `es` that leads from `c` to `r` show times of its events, or have not moved. */
  ghost predicate ClocksFrom(c: Controller, es: seq<Event>, r: Controller) {
    && (r.clock == c.clock || exists i :: 0 <= i < |es| && es[i].now == r.clock)
    && (r.lastEval == c.lastEval || exists i :: 0 <= i < |es| && es[i].Evaluate? && es[i].now == r.lastEval)
  }

  lemma {:induction false} RunIsTimely(c: Controller, es: seq<Event>, r: Controller)
    requires es != [] && InOrder(c, es) && ClocksFrom(c, es[..|es| - 1], r)
    ensures Timely(r, es[|es| - 1])
  {
    assert Timely(c, es[|es| - 1]);
  }

  lemma {:induction false} ClocksStep(c: Controller, es: seq<Event>, r: Controller, r': Controller)
    requires es != [] && ClocksFrom(c, es[..|es| - 1], r)
    requires r'.clock == Max(r.clock, es[|es| - 1].now)
    requires r'.lastEval == if es[|es| - 1].Evaluate? then es[|es| - 1].now else r.lastEval
    ensures ClocksFrom(c, es, r')
  {
    assert es == es[..|es| - 1] + [es[|es| - 1]];
  }

  lemma {:induction false} RunKeeps(c: Controller, es: seq<Event>)
    requires Inv(c) && InOrder(c, es)
    ensures Inv(Run(c, es))
    ensures ClocksFrom(c, es, Run(c, es))
  {
    if es != [] {
      hide Inv, Step, ClocksFrom, Timely;
      var init, last := es[..|es| - 1], es[|es| - 1];
      RunKeeps(c, init);
      RunIsTimely(c, es, Run(c, init));
      StepKeeps(Run(c, init), last);
      ClocksStep(c, es, Run(c, init), Run(c, es));
    }
  }

  /** No event is later than the clocks of `r`, nor was `c`. */
  ghost predicate Covers(r: Controller, c: Controller, es: seq<Event>) {
    && c.clock <= r.clock && c.lastEval <= r.lastEval
    && (forall i :: 0 <= i < |es| ==> es[i].now <= r.clock)
    && (forall i :: 0 <= i < |es| && es[i].Evaluate? ==> es[i].now <= r.lastEval)
  }

  lemma {:induction false} CoversSnoc(r: Controller, r': Controller, c: Controller, es: seq<Event>, e: Event)
    requires Covers(r, c, es) && Timely(r, e)
    requires r'.clock == Max(r.clock, e.now) && r'.lastEval == if e.Evaluate? then e.now else r.lastEval
    ensures Covers(r', c, es + [e])
  {
  }

  lemma {:induction false} InOrderInit(c: Controller, es: seq<Event>)
    requires InOrder(c, es) && es != []
    ensures InOrder(c, es[..|es| - 1])
  {
  }

  lemma {:induction false} ClocksCover(c: Controller, es: seq<Event>)
    requires Inv(c) && InOrder(c, es)
    ensures Covers(Run(c, es), c, es)
  {
    if es != [] {
      hide Inv, Step, ClocksFrom, Timely, Covers, InOrder;
      var init, last := es[..|es| - 1], es[|es| - 1];
      InOrderInit(c, es);
      RunKeeps(c, init);
      RunIsTimely(c, es, Run(c, init));
      ClocksCover(c, init);
      StepKeeps(Run(c, init), last);
      CoversSnoc(Run(c, init), Run(c, es), c, init, last);
      assert es == init + [last];
    }
  }

  /** `c` is the state of a run with its events in order. */
  ghost predicate Reached(start: Controller, es: seq<Event>, c: Controller) {
    Inv(start) && InOrder(start, es) && Run(start, es) == c
  }

  lemma {:induction false} ReachedStep(start: Controller, es: seq<Event>, c: Controller, e: Event)
    requires Reached(start, es, c) && Timely(c, e)
    ensures Inv(Step(c, e)) && Reached(start, es + [e], Step(c, e))
  {
    hide Inv, Step, ClocksFrom;
    ClocksCover(start, es);
    RunKeeps(start, es);
    StepKeeps(c, e);
    assert (es + [e])[..|es|] == es;
  }

  /** What a step records, and when it sets the earliest end of survival. */
  lemma {:induction false} StepRecords(c: Controller, e: Event)
    ensures Step(c, e).auto == c.auto
    ensures Step(c, e).quicAll == if e.QuicFailure? then c.quicAll + [e.now] else c.quicAll
    ensures Step(c, e).errorsAll == if e.TransportError? then c.errorsAll + [e.now] else c.errorsAll
    ensures Step(c, e).survivalUntil
            == if !c.mode.Survival? && Step(c, e).mode.Survival? then e.now + 60_000_000_000 else c.survivalUntil
  {
    hide DropStale;
  }

  lemma {:induction false} AutoFixed(c: Controller, es: seq<Event>)
    ensures Run(c, es).auto == c.auto
  {
    if es != [] {
      AutoFixed(c, es[..|es| - 1]);
      StepRecords(Run(c, es[..|es| - 1]), es[|es| - 1]);
      hide Step;
    }
  }

  /** A failure of the run is in the history, so a window that reaches back to it is not empty. */
  lemma {:induction false} FailureIsRemembered(c: Controller, es: seq<Event>, f: nat, now: int)
    requires f < |es| && !es[f].Evaluate? && es[f].now >= now - FAILURE_WINDOW
    ensures var r := Run(c, es); Within(r.quicAll, now) != [] || Within(r.errorsAll, now) != []
  {
    hide Filter, Step;
    var init, last := es[..|es| - 1], es[|es| - 1];
    var prev := Run(c, init);
    StepRecords(prev, last);
    FilterSnoc(NotBefore(now - FAILURE_WINDOW), prev.quicAll, last.now);
    FilterSnoc(NotBefore(now - FAILURE_WINDOW), prev.errorsAll, last.now);
    if f < |init| {
      FailureIsRemembered(c, init, f, now);
    }
  }

  /** Event `m` cannot end a survival entered at `entry`: too early, not an evaluation, or a failure
      too recent. */
  ghost predicate CannotRecover(es: seq<Event>, entry: int, m: nat)
    requires m < |es|
  {
    || es[m].now <= entry + 60_000_000_000
    || !es[m].Evaluate?
    || exists f :: 0 <= f < m && !es[f].Evaluate? && es[f].now >= es[m].now - 30_000_000_000
  }

  lemma {:induction false} StaysInSurvival(c: Controller, es: seq<Event>, m: nat)
    requires Inv(c) && c.auto && InOrder(c, es) && m < |es|
    requires var prev := Run(c, es[..m]);
             prev.mode.Survival? && CannotRecover(es, prev.survivalUntil - 60_000_000_000, m)
    ensures Step(Run(c, es[..m]), es[m]).mode.Survival?
  {
    hide Step, Inv, Within, Run, ClocksFrom;
    var prev := Run(c, es[..m]);
    RunKeeps(c, es[..m]);
    assert es[..m + 1][..m] == es[..m];
    RunIsTimely(c, es[..m + 1], prev);
    AutoFixed(c, es[..m]);
    Edges(prev, es[m]);
    if es[m].Evaluate? && es[m].now > prev.survivalUntil {
      var f :| 0 <= f < m && !es[f].Evaluate? && es[f].now >= es[m].now - FAILURE_WINDOW;
      FailureIsRemembered(c, es[..m], f, es[m].now);
    }
  }

  lemma {:induction false} RunTo(c: Controller, es: seq<Event>, j: nat)
    requires 0 < j <= |es|
    ensures Run(c, es[..j]) == Step(Run(c, es[..j - 1]), es[j - 1])
  {
    assert es[..j][..j - 1] == es[..j - 1];
  }

  /** MAIN RESULT.  Once survival is entered it lasts: through every later event up to sixty seconds
      after the entry, and until thirty seconds have passed without any failure. */
  lemma {:induction false} SurvivalLasts(c: Controller, es: seq<Event>, i: nat, j: nat)
    requires Inv(c) && c.auto && InOrder(c, es) && i < j <= |es|
    requires !Run(c, es[..i]).mode.Survival? && Run(c, es[..i + 1]).mode.Survival?
    requires forall m :: i < m < j ==> CannotRecover(es, es[i].now, m)
    ensures Run(c, es[..j]).mode.Survival?
    ensures Run(c, es[..j]).survivalUntil == es[i].now + 60_000_000_000
  {
    hide Step, Inv, CannotRecover, Run, InOrder;
    RunTo(c, es, j);
    StepRecords(Run(c, es[..j - 1]), es[j - 1]);
    if j - 1 > i {
      SurvivalLasts(c, es, i, j - 1);
      StaysInSurvival(c, es, j - 1);
    }
  }
}
