/**
 The wheel's callbacks.  A tick collects the callbacks of the expired keys under the lock and calls
 them, one after another, with the lock released; the next tick waits for the last of them, other
 operations do not.  Each locked operation and each call is one step.
 */
module WheelCallbacks {
  import opened Wrappers
  import opened TtlWheel

  /** `order` is the order in which a tick collects the callbacks. */
  datatype Step = Do(op: Op, order: seq<string>) | Call

  /** `due` are the keys whose callbacks have been collected and not called. */
  datatype State = State(sched: Schedule, due: seq<string>)

  ghost predicate Enabled(s: State, step: Step) {
    match step
    case Do(op, order) =>
      op.Tick? ==>
        && s.due == []
        && (forall k :: k in order ==> k in Fired(s.sched, op))
        && (forall i, j :: 0 <= i < j < |order| ==> order[i] != order[j])
    case Call => s.due != []
  }

  function Next(s: State, step: Step, c: Config): State
    requires c.Valid() && (step.Call? ==> s.due != [])
  {
    match step
    case Do(op, order) => State(Apply(s.sched, op, c), if op.Tick? then order else s.due)
    case Call => s.(due := s.due[1..])
  }

  ghost function Exec(steps: seq<Step>, c: Config): Option<State>
    requires c.Valid()
  {
    if steps == [] then Some(State(Schedule(0, map[]), []))
    else
      var r := Exec(steps[..|steps| - 1], c);
      var step := steps[|steps| - 1];
      if r.Some? && Enabled(r.value, step) then Some(Next(r.value, step, c)) else None
  }

  /** The state before step `i` of a run. */
  ghost function At(steps: seq<Step>, i: nat, c: Config): State
    requires c.Valid() && i <= |steps| && Exec(steps, c).Some?
  {
    Prefix(steps, i, c);
    Exec(steps[..i], c).value
  }

  lemma {:induction false} Prefix(steps: seq<Step>, i: nat, c: Config)
    requires c.Valid() && i <= |steps| && Exec(steps, c).Some?
    ensures Exec(steps[..i], c).Some?
    decreases |steps|
  {
    if i == |steps| {
      assert steps[..i] == steps;
    } else {
      var init := steps[..|steps| - 1];
      Prefix(init, i, c);
      assert init[..i] == steps[..i];
    }
  }

  lemma {:induction false} Stepwise(steps: seq<Step>, i: nat, c: Config)
    requires c.Valid() && i < |steps| && Exec(steps, c).Some?
    ensures Enabled(At(steps, i, c), steps[i])
    ensures At(steps, i + 1, c) == Next(At(steps, i, c), steps[i], c)
  {
    Prefix(steps, i + 1, c);
    assert steps[..i + 1][..i] == steps[..i];
  }

  /** Step `i` calls the callback of `key`. */
  ghost predicate Calls(steps: seq<Step>, i: nat, key: string, c: Config)
    requires c.Valid() && i < |steps| && Exec(steps, c).Some?
  {
    steps[i].Call? && At(steps, i, c).due != [] && At(steps, i, c).due[0] == key
  }

  predicate IsTick(step: Step) {
    step.Do? && step.op.Tick?
  }

  predicate NoTick(steps: seq<Step>, lo: nat, hi: nat)
    requires hi <= |steps|
  {
    forall m :: lo <= m < hi ==> !IsTick(steps[m])
  }

  function CallCount(steps: seq<Step>, lo: nat, hi: nat): nat
    requires lo <= hi <= |steps|
    decreases hi
  {
    if lo == hi then 0 else CallCount(steps, lo, hi - 1) + if steps[hi - 1].Call? then 1 else 0
  }

  /** Between ticks, what is due is what was due without the calls made since. */
  lemma {:induction false} DueShrinks(steps: seq<Step>, j: nat, i: nat, c: Config)
    requires c.Valid() && j <= i <= |steps| && Exec(steps, c).Some? && NoTick(steps, j, i)
    ensures CallCount(steps, j, i) <= |At(steps, j, c).due|
    ensures At(steps, i, c).due == At(steps, j, c).due[CallCount(steps, j, i)..]
    decreases i
  {
    if j < i {
      hide Exec, Apply;
      DueShrinks(steps, j, i - 1, c);
      Stepwise(steps, i - 1, c);
    }
  }

  /** While a callback is due there is no tick. */
  lemma {:induction false} NoTickWhileDue(steps: seq<Step>, j: nat, i: nat, c: Config)
    requires c.Valid() && j <= i <= |steps| && Exec(steps, c).Some?
    requires CallCount(steps, j, i) < |At(steps, j, c).due|
    ensures NoTick(steps, j, i)
    decreases i
  {
    if j < i {
      NoTickWhileDue(steps, j, i - 1, c);
      DueShrinks(steps, j, i - 1, c);
      Stepwise(steps, i - 1, c);
    }
  }

  /** Every call has one tick as its cause: the latest, which expired that key.  Its callbacks are
      called in the order collected, each once. */
  lemma {:induction false} CallHasCause(steps: seq<Step>, i: nat, key: string, c: Config) returns (t: nat)
    requires c.Valid() && i < |steps| && Exec(steps, c).Some? && Calls(steps, i, key, c)
    ensures t < i && IsTick(steps[t]) && NoTick(steps, t + 1, i)
    ensures key in Fired(At(steps, t, c).sched, steps[t].op)
    ensures CallCount(steps, t + 1, i) < |steps[t].order| && steps[t].order[CallCount(steps, t + 1, i)] == key
  {
    hide Exec, Next;
    t := LatestTick(steps, i, c);
    Stepwise(steps, t, c);
    DueAfterTick(steps, t, c);
    DueShrinks(steps, t + 1, i, c);
  }

  lemma {:induction false} DueAfterTick(steps: seq<Step>, t: nat, c: Config)
    requires c.Valid() && t < |steps| && Exec(steps, c).Some? && IsTick(steps[t])
    ensures At(steps, t + 1, c).due == steps[t].order
  {
    Stepwise(steps, t, c);
  }

  lemma {:induction false} LatestTick(steps: seq<Step>, i: nat, c: Config) returns (t: nat)
    requires c.Valid() && i <= |steps| && Exec(steps, c).Some? && At(steps, i, c).due != []
    ensures t < i && IsTick(steps[t]) && NoTick(steps, t + 1, i)
  {
    assert steps[..0] == [];
    Stepwise(steps, i - 1, c);
    if IsTick(steps[i - 1]) {
      t := i - 1;
    } else {
      t := LatestTick(steps, i - 1, c);
    }
  }

  // ---------------------------------------------------------------- calls after a removal

  predicate NotSetAgain(steps: seq<Step>, lo: nat, hi: nat, key: string)
    requires hi <= |steps|
  {
    forall m :: lo <= m < hi ==> !(steps[m].Do? && steps[m].op.Upsert? && steps[m].op.key == key)
  }

  lemma {:induction false} StaysGone(s: State, step: Step, key: string, c: Config)
    requires c.Valid() && Enabled(s, step) && key !in s.sched.left
    requires !(step.Do? && step.op.Upsert? && step.op.key == key)
    ensures key !in Next(s, step, c).sched.left
    ensures key in Next(s, step, c).due ==> key in s.due && !IsTick(step)
  {
  }

  /** A removed key is not live, so no later tick collects its callback. */
  lemma {:induction false} RemovedIsGone(steps: seq<Step>, j: nat, i: nat, key: string, c: Config)
    requires c.Valid() && j < i <= |steps| && Exec(steps, c).Some?
    requires steps[j].Do? && steps[j].op == Remove(key) && NotSetAgain(steps, j, i, key)
    ensures key !in At(steps, i, c).sched.left
    ensures key in At(steps, i, c).due ==> NoTick(steps, j, i)
    decreases i
  {
    Stepwise(steps, i - 1, c);
    if i > j + 1 {
      hide Exec, Next, Enabled;
      RemovedIsGone(steps, j, i - 1, key, c);
      StaysGone(At(steps, i - 1, c), steps[i - 1], key, c);
    }
  }

  /** MAIN RESULT.  After Remove has returned, the callback of an expiry before it still runs if and only
      if it was among those collected and not called when Remove took the lock: if it was the p-th of
      them, then at the p-th call from there on, whether the key has been set again by then or not.
      Until the key is set again, no other call of its callback happens. */
  lemma {:induction false} CalledAfterRemove(steps: seq<Step>, j: nat, i: nat, key: string, c: Config)
    requires c.Valid() && j < i < |steps| && Exec(steps, c).Some?
    requires steps[j].Do? && steps[j].op == Remove(key)
    ensures var due := At(steps, j, c).due;
            var p := CallCount(steps, j, i);
            Calls(steps, i, key, c) && NoTick(steps, j, i) <==> steps[i].Call? && p < |due| && due[p] == key
    ensures Calls(steps, i, key, c) && NotSetAgain(steps, j, i, key) ==> NoTick(steps, j, i)
  {
    hide Exec, Next, Enabled;
    var p := CallCount(steps, j, i);
    if Calls(steps, i, key, c) && NotSetAgain(steps, j, i, key) {
      RemovedIsGone(steps, j, i, key, c);
    }
    if NoTick(steps, j, i) {
      DueShrinks(steps, j, i, c);
    } else if p < |At(steps, j, c).due| {
      NoTickWhileDue(steps, j, i, c);
    }
  }

  /** Both happen: a key expires, is removed, perhaps set again, and the callback of the expiry runs
      after that, on a key that is live if it was set again. */
  lemma {:induction false} CalledAfterRemoveHappens(key: string)
    ensures var c := Config(1_000_000_000, 512);
            var steps := [Do(Upsert(key, 1), []), Do(Tick, [key]), Do(Remove(key), [])];
            && Exec(steps + [Call], c).Some? && Calls(steps + [Call], 3, key, c)
            && var again := steps + [Do(Upsert(key, 1), []), Call];
            && Exec(again, c).Some? && Calls(again, 4, key, c) && key in At(again, 4, c).sched.left
  {
    var c := Config(1_000_000_000, 512);
    var u, t, r := Do(Upsert(key, 1), []), Do(Tick, [key]), Do(Remove(key), []);
    ThreeSteps(key);
    var s3 := Exec([u, t, r], c).value;
    var s4 := Next(s3, u, c);
    hide Exec, Apply, Lifetime, Steps;
    ExecSnoc([u, t, r], Call, c);
    ExecSnoc([u, t, r], u, c);
    ExecSnoc([u, t, r, u], Call, c);
    assert [u, t, r] + [u] == [u, t, r, u] && [u, t, r, u] + [Call] == [u, t, r] + [u, Call];
    assert ([u, t, r] + [Call])[..3] == [u, t, r] && ([u, t, r] + [u, Call])[..4] == [u, t, r, u];
    UpsertIsLive(s3.sched, key, c);
  }

  lemma {:induction false} ExecSnoc(steps: seq<Step>, step: Step, c: Config)
    requires c.Valid()
    ensures var r := Exec(steps, c);
            Exec(steps + [step], c)
            == if r.Some? && Enabled(r.value, step) then Some(Next(r.value, step, c)) else None
  {
    assert (steps + [step])[..|steps|] == steps;
  }

  lemma {:induction false} UpsertIsLive(s: Schedule, key: string, c: Config)
    requires c == Config(1_000_000_000, 512)
    ensures var s' := Apply(s, Upsert(key, 1), c);
            key in s'.left && (s.cursor == 0 ==> key in Fired(s', Op.Tick))
  {
  }

  lemma {:induction false} ThreeSteps(key: string)
    ensures var c := Config(1_000_000_000, 512);
            var r := Exec([Do(Upsert(key, 1), []), Do(Tick, [key]), Do(Remove(key), [])], c);
            r.Some? && r.value.due == [key]
  {
    hide Exec, Apply, Fired;
    var c := Config(1_000_000_000, 512);
    var u, t, r := Do(Upsert(key, 1), []), Do(Tick, [key]), Do(Remove(key), []);
    ExecNone(c);
    var s0 := Exec([], c).value;
    UpsertIsLive(s0.sched, key, c);
    ExecSnoc([], u, c);
    ExecSnoc([u], t, c);
    ExecSnoc([u, t], r, c);
    assert [] + [u] == [u] && [u] + [t] == [u, t] && [u, t] + [r] == [u, t, r];
  }

  lemma {:induction false} ExecNone(c: Config)
    requires c.Valid()
    ensures Exec([], c) == Some(State(Schedule(0, map[]), []))
  {
  }
}
