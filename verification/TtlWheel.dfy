/**
 The hashed timing wheel that expires idle sessions and relay connections.

 `Schedule` is the simple form: for every key, how many ticks are left.  `Wheel` is the fast form:
 a cursor, one map per slot, and a number of extra revolutions per entry.
 */
module TtlWheel {
  import opened Wrappers
  import opened Arith

  /** Identifies the closure to call when a key expires. */
  type Callback = nat

  // ---------------------------------------------------------------- placement arithmetic

  /** The number of ticks a lifetime stands for. */
  function Steps(ttl: int, interval: int): (s: nat)
    requires interval > 0
    ensures s >= 1
  {
    var t := if ttl <= 0 then interval else ttl;
    var steps := if t % interval != 0 then t / interval + 1 else t / interval;
    if steps < 1 then 1 else steps
  }

  /** It is the ceiling in intervals, and one for a lifetime that is not positive. */
  lemma {:induction false} StepsIsCeiling(ttl: int, interval: int)
    requires interval > 0
    ensures ttl <= 0 ==> Steps(ttl, interval) == 1
    ensures ttl > 0 ==> (Steps(ttl, interval) - 1) * interval < ttl <= Steps(ttl, interval) * interval
  {
    var t := if ttl <= 0 then interval else ttl;
    var q, r := t / interval, t % interval;
    assert t == q * interval + r;
    assert (q + 1) * interval == q * interval + interval;
    if ttl <= 0 {
      DivModUnique(interval, interval, 1, 0);
    } else if q < 1 {
      assert q == 0;
    }
  }

  /** Slot and extra revolutions chosen for a key that is to live `steps` ticks. */
  function Place(cursor: nat, steps: nat, n: nat): (p: (nat, nat))
    requires cursor < n
    ensures p.0 < n
  {
    var slot := (cursor + steps) % n;
    var rounds := steps / n;
    var adjusted := if slot <= cursor then rounds - 1 else rounds;
    (slot, if adjusted < 0 then 0 else adjusted)
  }

  /** Ticks until the cursor next reaches `slot`; a whole revolution when it is there already. */
  function Distance(slot: nat, cursor: nat, n: nat): (d: nat)
    requires slot < n && cursor < n
  {
    if slot > cursor then slot - cursor else slot + n - cursor
  }

  /** Ticks until an entry is removed by `Wheel.Tick`. */
  function Remaining(slot: nat, rounds: nat, cursor: nat, n: nat): (d: nat)
    requires slot < n && cursor < n
  {
    Distance(slot, cursor, n) + rounds * n
  }

  /** The inputs on which the wheel fires one revolution early: more than one revolution, not a
      whole number of them, and the partial revolution wraps past slot zero. */
  predicate FiresEarly(steps: nat, n: nat, cursor: nat)
    requires n > 0
  {
    steps > n && steps % n != 0 && cursor + steps % n >= n
  }

  function Lifetime(steps: nat, n: nat, cursor: nat): (life: nat)
    requires n > 0
  {
    if FiresEarly(steps, n, cursor) then steps - n else steps
  }

  /** The exact law of the slot and rounds arithmetic, for every lifetime. */
  lemma {:induction false} PlacementLaw(cursor: nat, steps: nat, n: nat)
    requires cursor < n && steps >= 1
    ensures var (slot, rounds) := Place(cursor, steps, n);
            Remaining(slot, rounds, cursor, n) == Lifetime(steps, n, cursor)
  {
    var q, r := steps / n, steps % n;
    assert steps == q * n + r;
    TargetSlot(cursor, steps, n, q, r);
    RoundsLaw(q, r, n, cursor);
    var (slot, rounds) := Place(cursor, steps, n);
    assert slot == if cursor + r < n then cursor + r else cursor + r - n;
  }

  lemma {:induction false} TargetSlot(cursor: nat, steps: nat, n: nat, q: nat, r: nat)
    requires cursor < n && r < n && steps == q * n + r
    ensures (cursor + steps) % n == if cursor + r < n then cursor + r else cursor + r - n
  {
    if cursor + r < n {
      DivModUnique(cursor + steps, n, q, cursor + r);
    } else {
      assert (q + 1) * n == q * n + n;
      DivModUnique(cursor + steps, n, q + 1, cursor + r - n);
    }
  }

  /** What the adjusted rounds are worth in ticks, with `q` whole revolutions and `r` left over. */
  lemma {:induction false} RoundsLaw(q: nat, r: nat, n: nat, cursor: nat)
    requires r < n && cursor < n && q * n + r >= 1
    ensures r == 0 ==> q >= 1 && (q - 1) * n + n == q * n
    ensures q >= 1 ==> (q - 1) * n == q * n - n && q * n + r >= n
    ensures (q * n + r > n && r != 0) <==> (q >= 1 && r != 0)
  {
    if q >= 1 {
      MulAtLeast(q, n);
    }
  }

  /** Never late, and at most one revolution early; on time exactly off the early family. */
  lemma {:induction false} LifetimeBounds(cursor: nat, steps: nat, n: nat)
    requires cursor < n && steps >= 1
    ensures var (slot, rounds) := Place(cursor, steps, n);
            var life := Remaining(slot, rounds, cursor, n);
            && 1 <= life <= steps
            && steps <= life + n
            && (life == steps <==> !FiresEarly(steps, n, cursor))
            && (steps <= n ==> life == steps)
  {
    PlacementLaw(cursor, steps, n);
  }

  // ---------------------------------------------------------------- the simple form

  /** Ticks left per live key.  The cursor only matters to the early family. */
  datatype Schedule = Schedule(cursor: nat, left: map<string, nat>)

  datatype Op =
    | Upsert(key: string, ttl: int)
    | Touch(key: string, ttl: int)
    | Remove(key: string)
    | Tick

  /** The fixed parameters of one wheel. */
  datatype Config = Config(interval: int, n: nat) {
    predicate Valid() {
      interval > 0 && n > 0
    }
  }

  function Set(s: Schedule, key: string, ttl: int, c: Config): (s': Schedule)
    requires c.Valid()
  {
    s.(left := s.left[key := Lifetime(Steps(ttl, c.interval), c.n, s.cursor)])
  }

  function Apply(s: Schedule, op: Op, c: Config): (s': Schedule)
    requires c.Valid()
  {
    match op
    case Upsert(key, ttl) => Set(s, key, ttl, c)
    case Touch(key, ttl) => if key in s.left then Set(s, key, ttl, c) else s
    case Remove(key) => s.(left := s.left - {key})
    case Tick =>
      Schedule((s.cursor + 1) % c.n, map k | k in s.left && s.left[k] > 1 :: s.left[k] - 1)
  }

  /** The keys an operation expires. */
  function Fired(s: Schedule, op: Op): set<string> {
    if op.Tick? then set k | k in s.left && s.left[k] <= 1 else {}
  }

  function After(ops: seq<Op>, c: Config): (s: Schedule)
    requires c.Valid()
  {
    if ops == [] then Schedule(0, map[]) else Apply(After(ops[..|ops| - 1], c), ops[|ops| - 1], c)
  }

  // ---------------------------------------------------------------- whole runs

  function Ticks(ops: seq<Op>): nat {
    if ops == [] then 0 else Ticks(ops[..|ops| - 1]) + if ops[|ops| - 1].Tick? then 1 else 0
  }

  predicate Names(op: Op, key: string) {
    !op.Tick? && op.key == key
  }

  /** Operation `j` of the run starts a new lifetime for `key`. */
  predicate Sets(ops: seq<Op>, j: nat, key: string, c: Config)
    requires c.Valid() && j < |ops|
  {
    || (ops[j].Upsert? && ops[j].key == key)
    || (ops[j].Touch? && ops[j].key == key && key in After(ops[..j], c).left)
  }

  predicate Untouched(ops: seq<Op>, lo: nat, hi: nat, key: string)
    requires hi <= |ops|
  {
    forall m :: lo <= m < hi ==> !Names(ops[m], key)
  }

  lemma {:induction false} CursorCountsTicks(ops: seq<Op>, c: Config)
    requires c.Valid()
    ensures After(ops, c).cursor == Ticks(ops) % c.n
  {
    if ops != [] {
      var init := ops[..|ops| - 1];
      CursorCountsTicks(init, c);
      if ops[|ops| - 1].Tick? {
        assert After(ops, c).cursor == (Ticks(init) % c.n + 1) % c.n;
        ModSucc(Ticks(init), c.n);
      }
    }
  }

  lemma {:induction false} ModSucc(t: nat, n: nat)
    requires n > 0
    ensures (t % n + 1) % n == (t + 1) % n
  {
    var q, r := t / n, t % n;
    assert t == q * n + r;
    if r + 1 < n {
      DivModUnique(t + 1, n, q, r + 1);
      DivModUnique(r + 1, n, 0, r + 1);
    } else {
      assert (q + 1) * n == q * n + n;
      DivModUnique(t + 1, n, q + 1, 0);
      DivModUnique(n, n, 1, 0);
    }
  }

  /** How long the lifetime started by operation `j` lasts, in terms of the run alone. */
  function LifeOf(ops: seq<Op>, j: nat, c: Config): (life: nat)
    requires c.Valid() && j < |ops| && (ops[j].Upsert? || ops[j].Touch?)
  {
    Lifetime(Steps(ops[j].ttl, c.interval), c.n, Ticks(ops[..j]) % c.n)
  }

  lemma {:induction false} LifeBounds(ops: seq<Op>, j: nat, c: Config)
    requires c.Valid() && j < |ops| && (ops[j].Upsert? || ops[j].Touch?)
    ensures var steps := Steps(ops[j].ttl, c.interval);
            && 1 <= LifeOf(ops, j, c) <= steps <= LifeOf(ops, j, c) + c.n
            && (steps <= c.n ==> LifeOf(ops, j, c) == steps)
  {
    LifetimeBounds(Ticks(ops[..j]) % c.n, Steps(ops[j].ttl, c.interval), c.n);
    PlacementLaw(Ticks(ops[..j]) % c.n, Steps(ops[j].ttl, c.interval), c.n);
  }

  /** What an operation that does not name a key does to it. */
  lemma {:induction false} OtherOp(s: Schedule, op: Op, key: string, c: Config)
    requires c.Valid() && !Names(op, key)
    ensures key in Apply(s, op, c).left <==> key in s.left && key !in Fired(s, op)
    ensures key in Apply(s, op, c).left ==>
              Apply(s, op, c).left[key] == s.left[key] - if op.Tick? then 1 else 0
  {
  }

  /** The operation that starts a lifetime. */
  lemma {:induction false} SettingOp(ops: seq<Op>, j: nat, key: string, c: Config)
    requires c.Valid() && j < |ops| && Sets(ops, j, key, c)
    ensures var s := Apply(After(ops[..j], c), ops[j], c);
            key in s.left && s.left[key] == LifeOf(ops, j, c) >= 1
  {
    hide Lifetime, Steps;
    CursorCountsTicks(ops[..j], c);
    LifeBounds(ops, j, c);
  }

  /** After operation `j` starts a lifetime and until something names the key again, the key is live
      exactly while fewer ticks have passed than the lifetime, and the count of ticks left is the
      difference. */
  lemma {:induction false} LiveUntilLifetime(ops: seq<Op>, j: nat, i: nat, key: string, c: Config)
    requires c.Valid() && j < i <= |ops|
    requires Sets(ops, j, key, c) && Untouched(ops, j + 1, i, key)
    ensures var s := After(ops[..i], c);
            var passed := Ticks(ops[j + 1..i]);
            && (key in s.left <==> passed < LifeOf(ops, j, c))
            && (key in s.left ==> s.left[key] == LifeOf(ops, j, c) - passed)
  {
    hide LifeOf, Apply;
    assert ops[..i][..i - 1] == ops[..i - 1];
    if i == j + 1 {
      SettingOp(ops, j, key, c);
    } else {
      LiveUntilLifetime(ops, j, i - 1, key, c);
      OtherOp(After(ops[..i - 1], c), ops[i - 1], key, c);
      assert ops[j + 1..i][..i - 1 - (j + 1)] == ops[j + 1..i - 1];
      assert !Names(ops[i - 1], key);
    }
  }

  /** A key fires on precisely the tick its lifetime names, counted from the last operation that
      started it, whatever happened to other keys. */
  lemma {:induction false} ExpiresExactly(ops: seq<Op>, j: nat, i: nat, key: string, c: Config)
    requires c.Valid() && j < i < |ops|
    requires Sets(ops, j, key, c) && Untouched(ops, j + 1, i, key)
    ensures key in Fired(After(ops[..i], c), ops[i])
            <==> ops[i].Tick? && Ticks(ops[j + 1..i + 1]) == LifeOf(ops, j, c)
  {
    hide LifeOf, Apply, After;
    LiveUntilLifetime(ops, j, i, key, c);
    assert ops[j + 1..i + 1][..i - j - 1] == ops[j + 1..i];
    if ops[i].Tick? && key in After(ops[..i], c).left {
      LifeBounds(ops, j, c);
    }
  }

  /** Every firing has such a cause: nothing expires that was not set, and never after a removal. */
  lemma {:induction false} LiveHasCause(ops: seq<Op>, i: nat, key: string, c: Config) returns (j: nat)
    requires c.Valid() && i <= |ops| && key in After(ops[..i], c).left
    ensures j < i && Sets(ops, j, key, c) && Untouched(ops, j + 1, i, key)
  {
    assert ops[..i][..i - 1] == ops[..i - 1];
    if Sets(ops, i - 1, key, c) {
      j := i - 1;
    } else {
      j := LiveHasCause(ops, i - 1, key, c);
    }
  }

  lemma {:induction false} NeverAfterRemove(ops: seq<Op>, j: nat, i: nat, key: string, c: Config)
    requires c.Valid() && j < i < |ops| && ops[j] == Remove(key)
    requires forall m :: j < m < i ==> !(ops[m].Upsert? && ops[m].key == key)
    ensures key !in After(ops[..i], c).left
    ensures key !in Fired(After(ops[..i], c), ops[i])
  {
    assert ops[..i][..i - 1] == ops[..i - 1];
    if i > j + 1 {
      NeverAfterRemove(ops, j, i - 1, key, c);
    }
  }

  /** Operation `j` starts a lifetime for `key`, told from the run: an Upsert, or a Touch of a key whose
      latest lifetime is not over. */
  ghost predicate Starts(ops: seq<Op>, j: nat, key: string, c: Config)
    requires c.Valid() && j < |ops|
    decreases j, 1
  {
    || (ops[j].Upsert? && ops[j].key == key)
    || (ops[j].Touch? && ops[j].key == key && Lives(ops, j, key, c))
  }

  /** Before operation `i` fewer ticks have passed than the latest lifetime of `key`. */
  ghost predicate Lives(ops: seq<Op>, i: nat, key: string, c: Config)
    requires c.Valid() && i <= |ops|
    decreases i, 0
  {
    exists j: nat :: j < i && Starts(ops, j, key, c) && Untouched(ops, j + 1, i, key)
                     && Ticks(ops[j + 1..i]) < LifeOf(ops, j, c)
  }

  lemma {:induction false} StartsIsSets(ops: seq<Op>, j: nat, key: string, c: Config)
    requires c.Valid() && j < |ops|
    ensures Starts(ops, j, key, c) <==> Sets(ops, j, key, c)
    decreases j, 1
  {
    if ops[j].Touch? && ops[j].key == key {
      LivesIsLive(ops, j, key, c);
    }
  }

  lemma {:induction false} LivesIsLive(ops: seq<Op>, i: nat, key: string, c: Config)
    requires c.Valid() && i <= |ops|
    ensures Lives(ops, i, key, c) <==> key in After(ops[..i], c).left
    decreases i, 0
  {
    hide After, LifeOf, Untouched;
    forall j: nat | j < i
      ensures Starts(ops, j, key, c) <==> Sets(ops, j, key, c)
    {
      StartsIsSets(ops, j, key, c);
    }
    if key in After(ops[..i], c).left {
      var j := LiveHasCause(ops, i, key, c);
      LiveUntilLifetime(ops, j, i, key, c);
    }
    forall j: nat | j < i && Sets(ops, j, key, c) && Untouched(ops, j + 1, i, key)
      ensures key in After(ops[..i], c).left <==> Ticks(ops[j + 1..i]) < LifeOf(ops, j, c)
    {
      LiveUntilLifetime(ops, j, i, key, c);
    }
  }

  /** MAIN RESULT.  Which keys fire when is a function of the run alone: exactly those whose latest
      effective Upsert or Touch lies its lifetime's number of ticks back, with nothing named since. */
  lemma {:induction false} ExpiryLaw(ops: seq<Op>, i: nat, key: string, c: Config)
    requires c.Valid() && i < |ops|
    ensures key in Fired(After(ops[..i], c), ops[i])
            <==> ops[i].Tick? && exists j: nat :: j < i && Starts(ops, j, key, c)
                                                  && Untouched(ops, j + 1, i, key)
                                                  && Ticks(ops[j + 1..i + 1]) == LifeOf(ops, j, c)
  {
    hide After, Apply, LifeOf, Untouched, Starts;
    forall j: nat | j < i
      ensures Starts(ops, j, key, c) <==> Sets(ops, j, key, c)
    {
      StartsIsSets(ops, j, key, c);
    }
    if key in Fired(After(ops[..i], c), ops[i]) {
      var j := LiveHasCause(ops, i, key, c);
      ExpiresExactly(ops, j, i, key, c);
    }
    forall j: nat | j < i && Sets(ops, j, key, c) && Untouched(ops, j + 1, i, key)
      ensures key in Fired(After(ops[..i], c), ops[i])
              <==> ops[i].Tick? && Ticks(ops[j + 1..i + 1]) == LifeOf(ops, j, c)
    {
      ExpiresExactly(ops, j, i, key, c);
    }
  }

  // ---------------------------------------------------------------- the early family in a run

  function TicksOnly(k: nat): (ops: seq<Op>)
    ensures |ops| == k
  {
    seq(k, _ => Op.Tick)
  }

  lemma {:induction false} CountTicks(ops: seq<Op>)
    requires forall i :: 0 <= i < |ops| ==> ops[i].Tick?
    ensures Ticks(ops) == |ops|
  {
    if ops != [] {
      CountTicks(ops[..|ops| - 1]);
    }
  }

  lemma {:induction false} WholeSteps(steps: nat, interval: int)
    requires steps >= 1 && interval > 0
    ensures Steps(steps * interval, interval) == steps
  {
    MulAtLeast(steps, interval);
    DivModUnique(steps * interval, interval, steps, 0);
  }

  /** Every member of the early family shows up in a run: after `cursor` ticks a key is given `steps`
      ticks to live, and it fires a whole revolution before they are over. */
  lemma {:induction false} EarlyRun(cursor: nat, steps: nat, key: string, c: Config)
    requires c.Valid() && cursor < c.n && FiresEarly(steps, c.n, cursor)
    ensures var ops := TicksOnly(cursor) + [Upsert(key, steps * c.interval)] + TicksOnly(steps - c.n);
            var last := |ops| - 1;
            && ops[last].Tick?
            && key in Fired(After(ops[..last], c), ops[last])
  {
    var ops := TicksOnly(cursor) + [Upsert(key, steps * c.interval)] + TicksOnly(steps - c.n);
    var last := |ops| - 1;
    CountTicks(ops[..cursor]);
    CountTicks(ops[cursor + 1..last + 1]);
    WholeSteps(steps, c.interval);
    DivModUnique(cursor, c.n, 0, cursor);
    hide After, Fired, Apply;
    ExpiresExactly(ops, cursor, last, key, c);
  }

  /** The gateway's session wheel has 512 one-second slots: a lifetime of 513 seconds given after 511
      ticks is over at the next tick. */
  lemma {:induction false} EarlyExample(key: string)
    ensures var c := Config(1_000_000_000, 512);
            var ops := TicksOnly(511) + [Upsert(key, 513_000_000_000)];
            key in Fired(After(ops, c), Op.Tick)
  {
    var c := Config(1_000_000_000, 512);
    EarlyRun(511, 513, key, c);
    var ops := TicksOnly(511) + [Upsert(key, 513_000_000_000)];
    assert (ops + TicksOnly(1))[..512] == ops;
  }

  // ---------------------------------------------------------------- the fast form

  /** Where a key sits: its slot and the revolutions it still has to skip. */
  datatype Cell = Cell(slot: nat, rounds: nat)

  type Cells = map<string, Cell>

  ghost predicate InRange(cells: Cells, n: nat) {
    forall k :: k in cells ==> cells[k].slot < n
  }

  ghost function ScheduleOf(cursor: nat, cells: Cells, n: nat): Schedule
    requires cursor < n && InRange(cells, n)
  {
    Schedule(cursor, map k | k in cells :: Remaining(cells[k].slot, cells[k].rounds, cursor, n))
  }

  /** The cells after the cursor has moved to `cursor` and its slot has been visited. */
  ghost function Visited(cells: Cells, cursor: nat): Cells {
    map k | k in cells && !(cells[k].slot == cursor && cells[k].rounds == 0) ::
      if cells[k].slot == cursor then Cell(cursor, cells[k].rounds - 1) else cells[k]
  }

  /** The visit of one entry of that slot. */
  ghost function VisitOne(cells: Cells, key: string): Cells
    requires key in cells
  {
    if cells[key].rounds > 0 then cells[key := Cell(cells[key].slot, cells[key].rounds - 1)]
    else cells - {key}
  }

  /** The cells once the keys of `done` have been visited. */
  ghost function VisitedPart(cells: Cells, done: set<string>): Cells {
    map k | k in cells && !(k in done && cells[k].rounds == 0) ::
      if k in done then Cell(cells[k].slot, cells[k].rounds - 1) else cells[k]
  }

  lemma {:induction false} VisitNext(cells: Cells, done: set<string>, key: string)
    requires key in cells && key !in done
    ensures key in VisitedPart(cells, done) && VisitedPart(cells, done)[key] == cells[key]
    ensures VisitOne(VisitedPart(cells, done), key) == VisitedPart(cells, done + {key})
  {
  }

  lemma {:induction false} VisitAll(cells: Cells, done: set<string>, cursor: nat)
    requires forall k :: k in cells ==> (k in done <==> cells[k].slot == cursor)
    ensures VisitedPart(cells, done) == Visited(cells, cursor)
  {
  }

  lemma {:induction false} RemoveThenSet<V>(m: map<string, V>, key: string, v: V)
    ensures (m - {key})[key := v] == m[key := v]
  {
  }

  lemma {:induction false} NextCursor(cursor: nat, n: nat)
    requires cursor < n
    ensures (cursor + 1) % n == if cursor + 1 == n then 0 else cursor + 1
  {
    if cursor + 1 == n {
      DivModUnique(n, n, 1, 0);
    } else {
      DivModUnique(cursor + 1, n, 0, cursor + 1);
    }
  }

  lemma {:induction false} StepOfOneCell(slot: nat, rounds: nat, cursor: nat, n: nat)
    requires slot < n && cursor < n
    ensures var next := (cursor + 1) % n;
            var left := Remaining(slot, rounds, cursor, n);
            && left >= 1
            && (left == 1 <==> slot == next && rounds == 0)
            && (slot == next && rounds > 0 ==> Remaining(slot, rounds - 1, next, n) == left - 1)
            && (slot != next ==> Remaining(slot, rounds, next, n) == left - 1)
  {
    NextCursor(cursor, n);
    assert rounds > 0 ==> (rounds - 1) * n == rounds * n - n;
    assert rounds > 0 ==> rounds * n >= n by {
      if rounds > 0 { MulAtLeast(rounds, n); }
    }
  }

  lemma {:induction false} TickOnCells(cursor: nat, cells: Cells, c: Config)
    requires c.Valid() && cursor < c.n && InRange(cells, c.n)
    ensures var next := (cursor + 1) % c.n;
            var s := ScheduleOf(cursor, cells, c.n);
            && ScheduleOf(next, Visited(cells, next), c.n) == Apply(s, Op.Tick, c)
            && Visited(cells, next).Keys == cells.Keys - Fired(s, Op.Tick)
  {
    hide Remaining;
    forall k | k in cells {
      StepOfOneCell(cells[k].slot, cells[k].rounds, cursor, c.n);
    }
  }

  lemma {:induction false} RemoveOnCells(cursor: nat, cells: Cells, key: string, c: Config)
    requires c.Valid() && cursor < c.n && InRange(cells, c.n)
    ensures ScheduleOf(cursor, cells - {key}, c.n) == Apply(ScheduleOf(cursor, cells, c.n), Op.Remove(key), c)
  {
  }

  lemma {:induction false} SetOnCells(cursor: nat, cells: Cells, key: string, ttl: int, c: Config)
    requires c.Valid() && cursor < c.n && InRange(cells, c.n)
    ensures var (slot, rounds) := Place(cursor, Steps(ttl, c.interval), c.n);
            ScheduleOf(cursor, cells[key := Cell(slot, rounds)], c.n)
            == Set(ScheduleOf(cursor, cells, c.n), key, ttl, c)
  {
    PlacementLaw(cursor, Steps(ttl, c.interval), c.n);
  }

  /** One scheduled key.  `slots` and `entries` share the object, so a decremented `rounds` is seen
      through both. */
  class Entry {
    const key: string
    const slot: nat
    var rounds: nat
    const callback: Option<Callback>

    constructor (key: string, slot: nat, rounds: nat, callback: Option<Callback>)
      ensures this.key == key && this.slot == slot && this.rounds == rounds && this.callback == callback
    {
      this.key := key;
      this.slot := slot;
      this.rounds := rounds;
      this.callback := callback;
    }
  }

  /** `entries` and `slots` hold the same objects, each key once and in the slot it names. */
  ghost predicate Agree(slots: seq<map<string, Entry>>, entries: map<string, Entry>) {
    && (forall k :: k in entries ==>
          entries[k].key == k && entries[k].slot < |slots|
          && k in slots[entries[k].slot] && slots[entries[k].slot][k] == entries[k])
    && (forall i, k :: 0 <= i < |slots| && k in slots[i] ==> k in entries && entries[k].slot == i)
  }

  lemma {:induction false} AgreeAt(slots: seq<map<string, Entry>>, entries: map<string, Entry>, i: nat)
    requires Agree(slots, entries) && i < |slots|
    ensures forall k :: k in slots[i] <==> k in entries && entries[k].slot == i
    ensures forall k :: k in slots[i] ==> slots[i][k] == entries[k]
    ensures forall k :: k in entries ==> entries[k].key == k && entries[k].slot < |slots|
  {
  }

  lemma {:induction false} AgreeRemove(slots: seq<map<string, Entry>>, entries: map<string, Entry>, key: string)
    requires Agree(slots, entries) && key in entries
    ensures var slot := entries[key].slot;
            slot < |slots| && Agree(slots[slot := slots[slot] - {key}], entries - {key})
  {
  }

  lemma {:induction false} AgreeInsert(slots: seq<map<string, Entry>>, entries: map<string, Entry>, entry: Entry)
    requires Agree(slots, entries) && entry.key !in entries && entry.slot < |slots|
    ensures Agree(slots[entry.slot := slots[entry.slot][entry.key := entry]], entries[entry.key := entry])
  {
  }

  class Wheel {
    const interval: int
    const n: nat
    var slots: seq<map<string, Entry>>
    var entries: map<string, Entry>
    var cursor: nat

    ghost var cells: Cells

    ghost predicate Valid()
      reads this, entries.Values
    {
      && interval > 0
      && |slots| == n > 0
      && cursor < n
      && Agree(slots, entries)
      && cells.Keys == entries.Keys
      && (forall k :: k in entries ==> cells[k] == Cell(entries[k].slot, entries[k].rounds))
    }

    ghost function Cfg(): Config {
      Config(interval, n)
    }

    /** The schedule this wheel stands for. */
    ghost function Model(): Schedule
      requires Valid()
      reads this, entries.Values
    {
      ScheduleOf(cursor, cells, n)
    }

    /** A non-positive interval and a small slot count are replaced by defaults. */
    constructor (interval: int, slotCount: int)
      ensures Valid() && Model() == After([], Cfg())
      ensures entries == map[]
      ensures this.n == if slotCount < 4 then 4 else slotCount
      ensures this.interval == if interval <= 0 then 1_000_000_000 else interval
    {
      var count: nat := if slotCount < 4 then 4 else slotCount;
      this.interval := if interval <= 0 then 1_000_000_000 else interval;
      this.n := count;
      this.slots := seq(count, i => map[]);
      this.entries, this.cells := map[], map[];
      this.cursor := 0;
    }

    method RemoveLocked(key: string)
      requires Valid()
      modifies this
      ensures Valid() && cursor == old(cursor)
      ensures entries == old(entries) - {key}
      ensures cells == old(cells) - {key}
    {
      hide Agree;
      if key in entries {
        AgreeRemove(slots, entries, key);
        var slot := entries[key].slot;
        slots := slots[slot := slots[slot] - {key}];
        entries, cells := entries - {key}, cells - {key};
      }
    }

    method Insert(key: string, slot: nat, rounds: nat, callback: Option<Callback>)
      requires Valid() && key !in entries && slot < n
      modifies this
      ensures Valid() && cursor == old(cursor)
      ensures key in entries && fresh(entries[key]) && entries[key].callback == callback
      ensures entries == old(entries)[key := entries[key]]
      ensures cells == old(cells)[key := Cell(slot, rounds)]
    {
      hide Agree;
      var entry := new Entry(key, slot, rounds, callback);
      AgreeInsert(slots, entries, entry);
      entries, cells := entries[key := entry], cells[key := Cell(slot, rounds)];
      slots := slots[slot := slots[slot][key := entry]];
    }

    method Upsert(key: string, ttl: int, callback: Option<Callback>)
      requires Valid()
      modifies this
      ensures Valid() && Model() == Apply(old(Model()), Op.Upsert(key, ttl), Cfg())
      ensures key in entries && fresh(entries[key]) && entries[key].callback == callback
      ensures entries == old(entries)[key := entries[key]]
    {
      SetOnCells(cursor, cells, key, ttl, Cfg());
      RemoveLocked(key);
      var (slot, rounds) := Place(cursor, Steps(ttl, interval), n);
      Insert(key, slot, rounds, callback);
      RemoveThenSet(old(cells), key, Cell(slot, rounds));
      RemoveThenSet(old(entries), key, entries[key]);
    }

    method Touch(key: string, ttl: int) returns (ok: bool)
      requires Valid()
      modifies this
      ensures Valid() && Model() == Apply(old(Model()), Op.Touch(key, ttl), Cfg())
      ensures ok <==> key in old(entries)
      ensures !ok ==> entries == old(entries)
      ensures ok ==> key in entries && fresh(entries[key]) && entries[key].callback == old(entries)[key].callback
      ensures ok ==> entries == old(entries)[key := entries[key]]
    {
      if key !in entries {
        return false;
      }
      SetOnCells(cursor, cells, key, ttl, Cfg());
      var callback := entries[key].callback;
      RemoveLocked(key);
      var (slot, rounds) := Place(cursor, Steps(ttl, interval), n);
      Insert(key, slot, rounds, callback);
      RemoveThenSet(old(cells), key, Cell(slot, rounds));
      RemoveThenSet(old(entries), key, entries[key]);
      return true;
    }

    method Remove(key: string)
      requires Valid()
      modifies this
      ensures Valid() && Model() == Apply(old(Model()), Op.Remove(key), Cfg())
      ensures entries == old(entries) - {key}
    {
      RemoveOnCells(cursor, cells, key, Cfg());
      RemoveLocked(key);
    }

    /** One entry of the slot under the cursor: one revolution less, or out. */
    method Visit(key: string) returns (expired: bool, callback: Option<Callback>)
      requires Valid() && key in slots[cursor]
      modifies this, slots[cursor][key]
      ensures Valid() && cursor == old(cursor)
      ensures cells == VisitOne(old(cells), key)
      ensures expired <==> old(cells)[key].rounds == 0
      ensures callback == old(entries)[key].callback
      ensures entries == if expired then old(entries) - {key} else old(entries)
    {
      hide Agree;
      AgreeAt(slots, entries, cursor);
      AgreeRemove(slots, entries, key);
      var entry := slots[cursor][key];
      callback := entry.callback;
      if entry.rounds > 0 {
        entry.rounds := entry.rounds - 1;
        cells := VisitOne(cells, key);
        return false, callback;
      }
      slots := slots[cursor := slots[cursor] - {key}];
      entries, cells := entries - {key}, cells - {key};
      return true, callback;
    }

    /** Advances the cursor and empties the slot it reaches of the entries with no rounds left.
        `fired` is the order the slot was visited in, restricted to keys that had a callback. */
    method Tick() returns (callbacks: seq<Callback>, ghost fired: seq<string>)
      requires Valid()
      modifies this, entries.Values
      ensures Valid() && Model() == Apply(old(Model()), Op.Tick, Cfg())
      ensures entries == old(entries) - Fired(old(Model()), Op.Tick)
      ensures Collected(old(entries), entries.Keys, fired, callbacks)
    {
      hide Agree, Visited, VisitOne, Collected, Apply, ScheduleOf, Fired;
      callbacks, fired := [], [];
      CollectNone(entries);
      AgreeAt(slots, entries, (cursor + 1) % n);
      cursor := (cursor + 1) % n;
      ghost var done := {};
      var todo := slots[cursor].Keys;
      while todo != {}
        invariant cursor == (old(cursor) + 1) % n
        invariant Valid()
        invariant forall k :: k in old(cells) ==> (k in todo + done <==> old(cells)[k].slot == cursor)
        invariant todo !! done && todo + done <= old(cells).Keys
        invariant cells == VisitedPart(old(cells), done)
        invariant forall k :: k in entries ==> k in old(entries) && entries[k] == old(entries)[k]
        invariant Collected(old(entries), entries.Keys, fired, callbacks)
        decreases todo
      {
        var key :| key in todo;
        AgreeAt(slots, entries, cursor);
        VisitNext(old(cells), done, key);
        CollectNext(old(entries), entries.Keys, fired, callbacks, key);
        var expired, callback := Visit(key);
        todo, done := todo - {key}, done + {key};
        if expired && callback.Some? {
          callbacks, fired := callbacks + [callback.value], fired + [key];
        }
      }
      VisitAll(old(cells), done, cursor);
      TickOnCells(old(cursor), old(cells), Cfg());
    }
  }

  ghost predicate AllHaveCallbacks(entries: map<string, Entry>) {
    forall k :: k in entries ==> entries[k].callback.Some?
  }

  lemma {:induction false} FiredAreLive(w: Wheel)
    requires w.Valid()
    ensures Fired(w.Model(), Op.Tick) <= w.entries.Keys
  {
  }

  /** One operation; `expired` are the keys whose callbacks it hands out. */
  method Perform(w: Wheel, op: Op, callback: Callback) returns (ghost expired: set<string>)
    requires w.Valid() && AllHaveCallbacks(w.entries)
    modifies w, w.entries.Values
    ensures w.Valid() && w.Model() == Apply(old(w.Model()), op, w.Cfg())
    ensures expired == Fired(old(w.Model()), op)
    ensures AllHaveCallbacks(w.entries)
    ensures forall k :: k in w.entries ==> fresh(w.entries[k]) || w.entries[k] in old(w.entries.Values)
  {
    hide Apply, ScheduleOf, Agree;
    expired := {};
    match op
    case Upsert(key, ttl) =>
      w.Upsert(key, ttl, Some(callback));
    case Touch(key, ttl) =>
      var _ := w.Touch(key, ttl);
    case Remove(key) =>
      w.Remove(key);
    case Tick =>
      FiredAreLive(w);
      var _, fired := w.Tick();
      expired := set k | k in fired;
  }

  /** Runs a whole list of operations on a new wheel.  `expired` holds, for each of them, the keys
      whose callbacks it handed out. */
  method Drive(ops: seq<Op>, interval: int, slotCount: int) returns (w: Wheel, ghost expired: seq<set<string>>)
    ensures fresh(w) && w.Valid() && w.Model() == After(ops, w.Cfg())
    ensures w.Cfg() == Config(if interval <= 0 then 1_000_000_000 else interval, if slotCount < 4 then 4 else slotCount)
    ensures |expired| == |ops|
    ensures forall i :: 0 <= i < |ops| ==> expired[i] == Fired(After(ops[..i], w.Cfg()), ops[i])
  {
    hide Apply, ScheduleOf, Agree, Fired;
    w := new Wheel(interval, slotCount);
    expired := [];
    for i := 0 to |ops|
      invariant fresh(w) && fresh(w.entries.Values)
      invariant w.Valid() && w.Model() == After(ops[..i], w.Cfg())
      invariant AllHaveCallbacks(w.entries)
      invariant |expired| == i
      invariant forall m :: 0 <= m < i ==> expired[m] == Fired(After(ops[..m], w.Cfg()), ops[m])
    {
      assert ops[..i + 1][..i] == ops[..i];
      ghost var out := Perform(w, ops[i], i);
      expired := expired + [out];
    }
    assert ops[..|ops|] == ops;
  }

  /** The callbacks collected so far, key by key: those of the removed entries that have one. */
  ghost predicate Collected(before: map<string, Entry>, live: set<string>, fired: seq<string>,
                            callbacks: seq<Callback>)
  {
    && |callbacks| == |fired|
    && (forall k :: k in fired <==> k in before && k !in live && before[k].callback.Some?)
    && (forall i, j :: 0 <= i < j < |fired| ==> fired[i] != fired[j])
    && (forall i :: 0 <= i < |fired| ==>
          fired[i] in before && before[fired[i]].callback == Some(callbacks[i]))
  }

  lemma {:induction false} CollectNone(before: map<string, Entry>)
    ensures Collected(before, before.Keys, [], [])
  {
  }

  lemma {:induction false} CollectNext(before: map<string, Entry>, live: set<string>, fired: seq<string>,
                    callbacks: seq<Callback>, key: string)
    requires Collected(before, live, fired, callbacks) && key in before && key in live
    ensures before[key].callback.None? ==> Collected(before, live - {key}, fired, callbacks)
    ensures before[key].callback.Some? ==>
              Collected(before, live - {key}, fired + [key], callbacks + [before[key].callback.value])
  {
    var fired' := fired + [key];
    assert forall k :: k in fired' <==> k in fired || k == key;
  }
}
