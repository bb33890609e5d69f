/** The SOCKS client's policy controller, proved to make the steps of the mode and permit machines. */
module PolicyController {
  import opened Wrappers
  import S = Seqs
  import M = PolicyMode
  import C = PolicyCap

  const FAST_FLOW_DURATION: int := 10 * M.SECOND
  const FAST_DOWNLOAD: nat := 64 * 1024 * 1024
  const FAST_RATE_MBPS: real := 20.0

  /** A registered flow; `rateMbps` is its recent average download rate. */
  datatype Flow = Flow(startedAt: int, downBytes: nat, rateMbps: real)

  /** A flow that deserves fast mode: long, large, or quick. */
  predicate Deserving(f: Flow, now: int) {
    || now - f.startedAt >= FAST_FLOW_DURATION
    || f.downBytes >= FAST_DOWNLOAD
    || f.rateMbps >= FAST_RATE_MBPS
  }

  /** Ten seconds old, 64 MiB downloaded, or 20 Mbit/s: any one of them, from that value on. */
  lemma {:induction false} DeservingExactly(f: Flow, now: int)
    ensures Deserving(f, now)
            <==> now >= f.startedAt + 10_000_000_000 || f.downBytes >= 67_108_864 || f.rateMbps >= 20.0
  {
  }

  ghost predicate AnyDeserving(flows: map<nat, Flow>, now: int) {
    exists id :: id in flows && Deserving(flows[id], now)
  }

  ghost predicate ModeAgrees(m: M.Controller, auto: bool, mode: M.Mode, quic: seq<int>, errors: seq<int>,
                             until: int)
  {
    m.auto == auto && m.mode == mode && m.quicFails == quic && m.errors == errors && m.survivalUntil == until
  }

  /** The fields of the adaptive cap. */
  datatype Cap = Cap(on: bool, maxNew: nat, maxActive: nat, openedNow: nat, sec: int, high: nat, low: nat)

  ghost predicate CtlAgrees(c: C.Ctl, auto: bool, flows: map<nat, Flow>, nextId: nat, pending: nat, cap: Cap) {
    && c.auto == auto
    && c.flows == flows.Keys
    && c.nextId == nextId
    && c.pending == pending
    && cap == Cap(c.capOn, c.maxNew, c.maxActive, c.openedNow, c.windowSec, c.high, c.low)
  }

  lemma {:induction false} RegisterAgrees(c: C.Ctl, t: nat, auto: bool, flows: map<nat, Flow>, nextId: nat,
                                          pending: nat, cap: Cap, flow: Flow)
    requires C.Inv(c) && t in c.holders && CtlAgrees(c, auto, flows, nextId, pending, cap)
    ensures C.Inv(C.Next(c, C.Register(t)))
    ensures nextId + 1 !in flows && pending > 0
    ensures CtlAgrees(C.Next(c, C.Register(t)), auto, flows[nextId + 1 := flow], nextId + 1, pending - 1, cap)
  {
    hide C.Inv, C.DoAcquire, C.DoTick;
    FreshId(c, t);
    C.StepKeeps(c, C.Register(t));
    assert C.Next(c, C.Register(t)) == C.DoRegister(c, t);
    assert (flows[nextId + 1 := flow]).Keys == flows.Keys + {nextId + 1};
  }

  lemma {:induction false} AgreesOn(c: C.Ctl, auto: bool, flows: map<nat, Flow>, nextId: nat, pending: nat, cap: Cap)
    requires CtlAgrees(c, auto, flows, nextId, pending, cap)
    ensures |flows| == |c.flows| && pending == c.pending && cap.on == c.capOn
  {
  }

  lemma {:induction false} AcquireIs(c: C.Ctl, t: nat, sec: int)
    ensures C.Next(c, C.Acquire(t, sec)) == C.DoAcquire(c, t, sec)
  {
  }

  lemma {:induction false} TickIs(c: C.Ctl, sec: int, rtt: Option<real>)
    ensures C.Next(c, C.StatsTick(sec, rtt)) == C.DoTick(c, sec, rtt)
  {
  }

  lemma {:induction false} FreshId(c: C.Ctl, t: nat)
    requires C.Inv(c) && t in c.holders
    ensures c.nextId + 1 !in c.flows && c.pending > 0
  {
  }

  class Controller {
    const auto: bool
    var currentMode: M.Mode
    var nextFlowID: nat
    var flows: map<nat, Flow>
    var quicFailTimes: seq<int>
    var errorSpikeTime: seq<int>
    var survivalUntil: int
    var capEnabled: bool
    var capMaxNewPerSec: nat
    var capMaxActiveFlows: nat
    var capOpenedThisSec: nat
    var capWindowSec: int
    var pendingPermits: nat
    var highRTTTicks: nat
    var lowRTTTicks: nat

    /** The machines this controller runs, where they began, and what has happened since. */
    ghost const begin: M.Controller
    ghost var events: seq<M.Event>
    ghost var mode: M.Controller
    ghost var permits: seq<C.Step>
    ghost var ctl: C.Ctl

    ghost predicate Valid()
      reads this
    {
      ModeValid() && CapValid()
    }

    ghost predicate ModeValid()
      reads this`currentMode, this`quicFailTimes, this`errorSpikeTime, this`survivalUntil, this`events, this`mode
    {
      && M.Reached(begin, events, mode) && M.Inv(mode)
      && ModeAgrees(mode, auto, currentMode, quicFailTimes, errorSpikeTime, survivalUntil)
    }

    ghost predicate CapValid()
      reads this`flows, this`nextFlowID, this`pendingPermits, this`permits, this`ctl, this`capEnabled,
            this`capMaxNewPerSec, this`capMaxActiveFlows, this`capOpenedThisSec, this`capWindowSec,
            this`highRTTTicks, this`lowRTTTicks
    {
      && C.Exec(auto, permits) == Some(ctl) && C.Inv(ctl)
      && CtlAgrees(ctl, auto, flows, nextFlowID, pendingPermits, CapState())
    }

    ghost function CapState(): Cap
      reads this`capEnabled, this`capMaxNewPerSec, this`capMaxActiveFlows, this`capOpenedThisSec, this`capWindowSec,
            this`highRTTTicks, this`lowRTTTicks
    {
      Cap(capEnabled, capMaxNewPerSec, capMaxActiveFlows, capOpenedThisSec, capWindowSec, highRTTTicks, lowRTTTicks)
    }

    constructor (auto: bool, configured: M.Mode, now: int)
      ensures Valid() && this.auto == auto
      ensures begin == M.Start(auto, configured, now) && events == [] && permits == []
      ensures currentMode == (if auto then M.Normal else configured) && !capEnabled && flows == map[]
    {
      this.auto := auto;
      currentMode := if auto then M.Normal else configured;
      nextFlowID, flows := 0, map[];
      quicFailTimes, errorSpikeTime, survivalUntil := [], [], M.ZERO_TIME;
      capEnabled, capMaxNewPerSec, capMaxActiveFlows, capOpenedThisSec, capWindowSec := false, 0, 0, 0, 0;
      pendingPermits, highRTTTicks, lowRTTTicks := 0, 0, 0;
      begin, events, mode := M.Start(auto, configured, now), [], M.Start(auto, configured, now);
      permits, ctl := [], C.Start(auto);
      new;
      M.StartInv(auto, configured, now);
    }

    // -------------------------------------------------------------- permits

    /** The branches of one attempt, on the controller's fields. */
    method TryPermit(sec: int, ghost t: nat, ghost c: C.Ctl) returns (granted: bool)
      requires CtlAgrees(c, auto, flows, nextFlowID, pendingPermits, CapState())
      modifies this`pendingPermits, this`capWindowSec, this`capOpenedThisSec
      ensures CtlAgrees(C.DoAcquire(c, t, sec), auto, flows, nextFlowID, pendingPermits, CapState())
      ensures granted <==> C.Grants(c, sec)
    {
      assert |flows| == |c.flows|;
      if !auto || !capEnabled {
        pendingPermits := pendingPermits + 1;
        return true;
      }
      if sec != capWindowSec {
        capWindowSec := sec;
        capOpenedThisSec := 0;
      }
      var activeNow := |flows| + pendingPermits;
      if activeNow < capMaxActiveFlows && capOpenedThisSec < capMaxNewPerSec {
        pendingPermits := pendingPermits + 1;
        capOpenedThisSec := capOpenedThisSec + 1;
        return true;
      }
      return false;
    }

    /** One attempt of the waiting loop, by goroutine `t` in second `sec`. */
    method TryAcquireFlowPermit(sec: int, ghost t: nat) returns (granted: bool)
      requires Valid() && C.Enabled(ctl, C.Acquire(t, sec))
      modifies this`pendingPermits, this`capWindowSec, this`capOpenedThisSec, this`ctl, this`permits
      ensures Valid() && ctl == C.Next(old(ctl), C.Acquire(t, sec)) && permits == old(permits) + [C.Acquire(t, sec)]
      ensures granted <==> C.Grants(old(ctl), sec)
      ensures granted <==> t in ctl.holders
      ensures granted <==> !old(capEnabled)
                           || (&& |flows| + old(pendingPermits) < C.ActiveThen(auto, old(permits)) + 4
                               && S.Count(C.GrantedSince(auto, old(permits)), sec) < 2)
    {
      hide C.Inv, C.Exec, C.ActiveThen, C.GrantedSince, C.DoAcquire, C.Grants, C.Next, CtlAgrees, ModeValid;
      AgreesOn(ctl, auto, flows, nextFlowID, pendingPermits, CapState());
      C.GrantedExactly(auto, permits, t, sec);
      C.StepKeeps(ctl, C.Acquire(t, sec));
      AcquireIs(ctl, t, sec);
      C.ExecSnoc(auto, permits, C.Acquire(t, sec));
      granted := TryPermit(sec, t, ctl);
      permits, ctl := permits + [C.Acquire(t, sec)], C.Next(ctl, C.Acquire(t, sec));
    }

    method ReleaseFlowPermit(ghost t: nat)
      requires Valid() && t in ctl.holders
      modifies this`pendingPermits, this`ctl, this`permits
      ensures Valid() && ctl == C.Next(old(ctl), C.Release(t)) && permits == old(permits) + [C.Release(t)]
    {
      hide C.Inv, C.Exec, ModeValid;
      C.StepKeeps(ctl, C.Release(t));
      C.ExecSnoc(auto, permits, C.Release(t));
      permits, ctl := permits + [C.Release(t)], C.Next(ctl, C.Release(t));
      if pendingPermits > 0 {
        pendingPermits := pendingPermits - 1;
      }
    }

    /** Turns the permit of goroutine `t` into a flow under an id no live flow has. */
    method RegisterFlow(flow: Flow, ghost t: nat) returns (id: nat)
      requires Valid() && t in ctl.holders
      modifies this`pendingPermits, this`nextFlowID, this`flows, this`ctl, this`permits
      ensures Valid() && ctl == C.Next(old(ctl), C.Register(t)) && permits == old(permits) + [C.Register(t)]
      ensures id !in old(flows) && flows == old(flows)[id := flow]
    {
      hide C.Inv, C.Exec, C.Next, ModeValid, CtlAgrees;
      RegisterAgrees(ctl, t, auto, flows, nextFlowID, pendingPermits, CapState(), flow);
      C.ExecSnoc(auto, permits, C.Register(t));
      permits, ctl := permits + [C.Register(t)], C.Next(ctl, C.Register(t));
      if pendingPermits > 0 {
        pendingPermits := pendingPermits - 1;
      }
      nextFlowID := nextFlowID + 1;
      id := nextFlowID;
      flows := flows[id := flow];
    }

    method UnregisterFlow(id: nat)
      requires Valid()
      modifies this`flows, this`ctl, this`permits
      ensures Valid() && ctl == C.Next(old(ctl), C.Unregister(id)) && permits == old(permits) + [C.Unregister(id)]
      ensures flows == old(flows) - {id}
    {
      hide C.Inv, C.Exec, ModeValid;
      C.StepKeeps(ctl, C.Unregister(id));
      C.ExecSnoc(auto, permits, C.Unregister(id));
      permits, ctl := permits + [C.Unregister(id)], C.Next(ctl, C.Unregister(id));
      flows := flows - {id};
    }

    method EnableCap(sec: int)
      modifies this`capEnabled, this`capMaxNewPerSec, this`capMaxActiveFlows, this`capOpenedThisSec, this`capWindowSec
      ensures capEnabled && capMaxNewPerSec == C.MAX_NEW_PER_SEC && capOpenedThisSec == 0 && capWindowSec == sec
      ensures capMaxActiveFlows == |flows| + pendingPermits + C.ACTIVE_MARGIN
    {
      capEnabled, capMaxNewPerSec := true, C.MAX_NEW_PER_SEC;
      capMaxActiveFlows := |flows| + pendingPermits + C.ACTIVE_MARGIN;
      capWindowSec, capOpenedThisSec := sec, 0;
    }

    method DisableCap()
      modifies this`capEnabled, this`capMaxNewPerSec, this`capMaxActiveFlows, this`capOpenedThisSec
      ensures !capEnabled && capMaxNewPerSec == 0 && capMaxActiveFlows == 0 && capOpenedThisSec == 0
    {
      capEnabled, capMaxNewPerSec, capMaxActiveFlows, capOpenedThisSec := false, 0, 0, 0;
    }

    /** The branches of the adaptive cap, on the controller's fields. */
    method AdjustCap(sec: int, rttP95: Option<real>, ghost c: C.Ctl)
      requires CtlAgrees(c, auto, flows, nextFlowID, pendingPermits, CapState())
      modifies this`capEnabled, this`capMaxNewPerSec, this`capMaxActiveFlows, this`capOpenedThisSec, this`capWindowSec,
               this`highRTTTicks, this`lowRTTTicks
      ensures CtlAgrees(C.DoTick(c, sec, rttP95), auto, flows, nextFlowID, pendingPermits, CapState())
    {
      assert |flows| == |c.flows|;
      if !auto {
        DisableCap();
        highRTTTicks, lowRTTTicks := 0, 0;
      } else if rttP95.None? {
        highRTTTicks, lowRTTTicks := 0, 0;
      } else if rttP95.value > C.RTT_HIGH_MS {
        highRTTTicks, lowRTTTicks := highRTTTicks + 1, 0;
        if !capEnabled && highRTTTicks >= C.ENABLE_AFTER {
          EnableCap(sec);
        }
      } else if rttP95.value < C.RTT_LOW_MS {
        lowRTTTicks, highRTTTicks := lowRTTTicks + 1, 0;
        if capEnabled && lowRTTTicks >= C.DISABLE_AFTER {
          DisableCap();
        }
      } else {
        highRTTTicks, lowRTTTicks := 0, 0;
      }
    }

    method UpdateAdaptiveCapLocked(sec: int, rttP95: Option<real>)
      requires Valid()
      modifies this`capEnabled, this`capMaxNewPerSec, this`capMaxActiveFlows, this`capOpenedThisSec, this`capWindowSec,
               this`highRTTTicks, this`lowRTTTicks, this`ctl, this`permits
      ensures Valid()
      ensures ctl == C.Next(old(ctl), C.StatsTick(sec, rttP95)) && permits == old(permits) + [C.StatsTick(sec, rttP95)]
    {
      hide C.Inv, C.Exec, C.Next, C.DoTick, ModeValid, CtlAgrees;
      C.StepKeeps(ctl, C.StatsTick(sec, rttP95));
      TickIs(ctl, sec, rttP95);
      C.ExecSnoc(auto, permits, C.StatsTick(sec, rttP95));
      AdjustCap(sec, rttP95, ctl);
      permits, ctl := permits + [C.StatsTick(sec, rttP95)], C.Next(ctl, C.StatsTick(sec, rttP95));
    }

    // -------------------------------------------------------------- mode

    method SwitchMode(next: M.Mode, now: int)
      modifies this`currentMode, this`survivalUntil
      ensures currentMode == next
      ensures survivalUntil == if next == M.Survival && old(currentMode) != next then now + M.SURVIVAL_MIN
                               else old(survivalUntil)
    {
      if currentMode == next {
        return;
      }
      currentMode := next;
      if next == M.Survival {
        survivalUntil := now + M.SURVIVAL_MIN;
      }
    }

    method RecordQUICFailure(now: int)
      requires Valid() && mode.clock <= now
      modifies this`quicFailTimes, this`currentMode, this`survivalUntil, this`mode, this`events
      ensures Valid() && mode == M.Step(old(mode), M.QuicFailure(now)) && events == old(events) + [M.QuicFailure(now)]
    {
      hide M.Inv, M.Reached, M.DropStale, CapValid;
      M.ReachedStep(begin, events, mode, M.QuicFailure(now));
      quicFailTimes := M.PruneTimes(quicFailTimes + [now], now - M.FAILURE_WINDOW);
      events, mode := events + [M.QuicFailure(now)], M.Step(mode, M.QuicFailure(now));
      if auto && currentMode != M.Survival && |quicFailTimes| >= M.QUIC_THRESHOLD {
        SwitchMode(M.Survival, now);
      }
    }

    method RecordTransportError(now: int)
      requires Valid() && mode.clock <= now
      modifies this`errorSpikeTime, this`currentMode, this`survivalUntil, this`mode, this`events
      ensures Valid() && mode == M.Step(old(mode), M.TransportError(now)) && events == old(events) + [M.TransportError(now)]
    {
      hide M.Inv, M.Reached, M.DropStale, CapValid;
      M.ReachedStep(begin, events, mode, M.TransportError(now));
      errorSpikeTime := M.PruneTimes(errorSpikeTime + [now], now - M.FAILURE_WINDOW);
      events, mode := events + [M.TransportError(now)], M.Step(mode, M.TransportError(now));
      if auto && currentMode != M.Survival && |errorSpikeTime| >= M.ERROR_THRESHOLD {
        SwitchMode(M.Survival, now);
      }
    }

    /** Scans the flows in any order for one that deserves fast mode. */
    method FindDeserving(now: int) returns (found: bool)
      ensures found <==> AnyDeserving(flows, now)
    {
      var todo := flows.Keys;
      while todo != {}
        invariant todo <= flows.Keys
        invariant forall id :: id in flows && id !in todo ==> !Deserving(flows[id], now)
        decreases todo
      {
        var id :| id in todo;
        todo := todo - {id};
        if Deserving(flows[id], now) {
          return true;
        }
      }
      return false;
    }

    /** The branches of the evaluation, after pruning, for the machine's state `c` before it. */
    method ChooseMode(now: int, fast: bool, ghost c: M.Controller)
      requires c.auto && auto && c.mode == currentMode && c.survivalUntil == survivalUntil
      requires quicFailTimes == M.DropStale(c.quicFails, now - M.FAILURE_WINDOW)
      requires errorSpikeTime == M.DropStale(c.errors, now - M.FAILURE_WINDOW)
      modifies this`currentMode, this`survivalUntil
      ensures ModeAgrees(M.Step(c, M.Evaluate(now, fast)), auto, currentMode, quicFailTimes, errorSpikeTime, survivalUntil)
    {
      hide M.Step, M.DropStale;
      M.EvaluateIs(c, now, fast);
      if currentMode != M.Survival && |quicFailTimes| >= M.QUIC_THRESHOLD {
        SwitchMode(M.Survival, now);
      } else if currentMode != M.Survival && |errorSpikeTime| >= M.ERROR_THRESHOLD {
        SwitchMode(M.Survival, now);
      } else if currentMode == M.Survival {
        if now > survivalUntil && |quicFailTimes| == 0 && |errorSpikeTime| == 0 {
          SwitchMode(M.Normal, now);
        }
      } else if currentMode == M.Normal && fast {
        SwitchMode(M.Fast, now);
      }
    }

    method EvaluateAutoPolicy(now: int)
      requires Valid() && mode.lastEval <= now
      modifies this`quicFailTimes, this`errorSpikeTime, this`currentMode, this`survivalUntil, this`mode, this`events
      ensures Valid()
      ensures mode == M.Step(old(mode), M.Evaluate(now, AnyDeserving(flows, now)))
      ensures events == old(events) + [M.Evaluate(now, AnyDeserving(flows, now))]
    {
      hide M.Inv, M.Reached, M.Step, M.DropStale, CapValid, AnyDeserving;
      var fast := FindDeserving(now);
      ghost var e := M.Evaluate(now, fast);
      M.ReachedStep(begin, events, mode, e);
      if auto {
        PruneBoth(now);
        ChooseMode(now, fast, mode);
      } else {
        M.EvaluateIs(mode, now, fast);
      }
      events, mode := events + [e], M.Step(mode, e);
    }

    method PruneBoth(now: int)
      modifies this`quicFailTimes, this`errorSpikeTime
      ensures quicFailTimes == M.DropStale(old(quicFailTimes), now - M.FAILURE_WINDOW)
      ensures errorSpikeTime == M.DropStale(old(errorSpikeTime), now - M.FAILURE_WINDOW)
    {
      hide M.DropStale;
      quicFailTimes := M.PruneTimes(quicFailTimes, now - M.FAILURE_WINDOW);
      errorSpikeTime := M.PruneTimes(errorSpikeTime, now - M.FAILURE_WINDOW);
    }
  }

  /** So whatever its users have done: an automatic controller that is not in survival has seen few
      failures in each window as of its last pruning, and its cap is kept. */
  lemma {:induction false} ControllerKeeps(p: Controller)
    requires p.Valid()
    ensures p.pendingPermits == |p.ctl.holders|
    ensures p.capEnabled ==> |p.flows| + p.pendingPermits <= p.capMaxActiveFlows
    ensures p.auto && p.currentMode != M.Survival ==>
              |p.quicFailTimes| < M.QUIC_THRESHOLD && |p.errorSpikeTime| < M.ERROR_THRESHOLD
    ensures p.quicFailTimes == M.Within(p.mode.quicAll, p.mode.quicSeen)
    ensures p.errorSpikeTime == M.Within(p.mode.errorsAll, p.mode.errorsSeen)
  {
    hide C.Exec, M.Reached, C.Inv;
    C.AlwaysWithinCap(p.auto, p.permits);
    assert |p.flows| == |p.ctl.flows|;
  }
}
