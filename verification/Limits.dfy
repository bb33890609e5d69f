/** Admission limits: relay connections in all and per client, and bytes per client and minute. */
module Limits {
  import opened Wrappers
  import opened Bytes

  const MINUTE: int := 60_000_000_000

  /** A limit that is not positive is no limit. */
  datatype Config = Config(maxConnsPerClient: int, maxTotalConns: int, maxBytesPerMinute: int)

  datatype LimitError = MaxTotalConns | MaxConnsPerClient | MaxBytesPerMinute

  // ---------------------------------------------------------------- the connection ledger

  type Counts = map<string, nat>

  datatype Ledger = Ledger(total: nat, byClient: Counts)

  function CountFor(m: Counts, client: string): nat {
    if client in m then m[client] else 0
  }

  function ReserveError(l: Ledger, client: string, cfg: Config): Option<LimitError> {
    if cfg.maxTotalConns > 0 && l.total >= cfg.maxTotalConns then Some(MaxTotalConns)
    else if cfg.maxConnsPerClient > 0 && CountFor(l.byClient, client) >= cfg.maxConnsPerClient then Some(MaxConnsPerClient)
    else None
  }

  function Reserve(l: Ledger, client: string): Ledger {
    Ledger(l.total + 1, l.byClient[client := CountFor(l.byClient, client) + 1])
  }

  function Release(l: Ledger, client: string): Ledger {
    Ledger(if l.total > 0 then l.total - 1 else 0,
           if CountFor(l.byClient, client) > 1 then l.byClient[client := CountFor(l.byClient, client) - 1]
           else l.byClient - {client})
  }

  ghost function Sum(m: Counts): nat {
    if m == map[] then 0 else var k :| k in m; m[k] + Sum(m - {k})
  }

  /** The sum does not depend on the order the keys are taken in. */
  lemma {:induction false} SumAt(m: Counts, k: string)
    requires k in m
    ensures Sum(m) == m[k] + Sum(m - {k})
    decreases |m|
  {
    var first :| first in m && Sum(m) == m[first] + Sum(m - {first});
    if first != k {
      var rest := m - {first};
      SumAt(rest, k);
      SumAt(m - {k}, first);
      assert rest - {k} == m - {k} - {first};
    }
  }

  lemma {:induction false} SumSet(m: Counts, k: string, v: nat)
    ensures Sum(m[k := v]) == Sum(m) - CountFor(m, k) + v
    ensures Sum(m - {k}) == Sum(m) - CountFor(m, k)
    ensures CountFor(m, k) <= Sum(m)
  {
    SumAt(m[k := v], k);
    assert m[k := v] - {k} == m - {k};
    if k in m {
      SumAt(m, k);
    } else {
      assert m - {k} == m;
    }
  }

  /** The total is the sum of the per-client counts, and no client is listed with none. */
  ghost predicate Balanced(l: Ledger) {
    l.total == Sum(l.byClient) && forall c :: c in l.byClient ==> l.byClient[c] > 0
  }

  ghost predicate WithinLimits(l: Ledger, cfg: Config) {
    && (cfg.maxTotalConns > 0 ==> l.total <= cfg.maxTotalConns)
    && (cfg.maxConnsPerClient > 0 ==> forall c :: c in l.byClient ==> l.byClient[c] <= cfg.maxConnsPerClient)
  }

  lemma {:induction false} ReserveKeeps(l: Ledger, client: string, cfg: Config)
    requires Balanced(l) && WithinLimits(l, cfg) && ReserveError(l, client, cfg).None?
    ensures Balanced(Reserve(l, client)) && WithinLimits(Reserve(l, client), cfg)
  {
    SumSet(l.byClient, client, CountFor(l.byClient, client) + 1);
  }

  /** A release undoes the books exactly, provided there is something to release. */
  lemma {:induction false} ReleaseKeeps(l: Ledger, client: string, cfg: Config)
    requires Balanced(l) && WithinLimits(l, cfg) && client in l.byClient
    ensures Balanced(Release(l, client)) && WithinLimits(Release(l, client), cfg)
    ensures Release(l, client).total == l.total - 1
    ensures CountFor(Release(l, client).byClient, client) == l.byClient[client] - 1
  {
    SumSet(l.byClient, client, l.byClient[client] - 1);
  }

  lemma {:induction false} ReleaseUndoesReserve(l: Ledger, client: string)
    requires Balanced(l)
    ensures Release(Reserve(l, client), client) == l
  {
    var r := Release(Reserve(l, client), client);
    assert r.byClient == l.byClient;
  }

  // ---------------------------------------------------------------- bytes per minute

  datatype Window = Window(start: int, used: int)

  function Wrap64(x: int): int {
    if x > MAX_INT64 then x - 0x1_0000_0000_0000_0000 else x
  }

  /** The window a request at `now` is counted in. */
  function Current(w: Option<Window>, now: int): Window {
    if w.None? || now - w.value.start >= MINUTE then Window(now, 0) else w.value
  }

  /** The window after a request of `n` bytes, and whether it was admitted. */
  function Allow(w: Option<Window>, n: int, now: int, limit: int): (r: (Option<Window>, bool)) {
    if n <= 0 then (w, true)
    else
      var cur := Current(w, now);
      if limit > 0 && Wrap64(cur.used + n) > limit then (Some(cur), false)
      else (Some(cur.(used := Wrap64(cur.used + n))), true)
  }

  datatype Send = Send(n: int, now: int)

  function WindowAfter(sends: seq<Send>, limit: int): Option<Window> {
    if sends == [] then None
    else
      var s := sends[|sends| - 1];
      Allow(WindowAfter(sends[..|sends| - 1], limit), s.n, s.now, limit).0
  }

  predicate Admitted(sends: seq<Send>, i: nat, limit: int)
    requires i < |sends|
  {
    sends[i].n > 0 && Allow(WindowAfter(sends[..i], limit), sends[i].n, sends[i].now, limit).1
  }

  /** Bytes admitted at times from `t` up to one minute later. */
  function BytesIn(sends: seq<Send>, t: int, limit: int): nat {
    if sends == [] then 0
    else
      var i := |sends| - 1;
      BytesIn(sends[..i], t, limit)
      + if t <= sends[i].now < t + 60_000_000_000 && Admitted(sends, i, limit) then sends[i].n else 0
  }

  /** Bytes admitted since the window now open was opened. */
  function BytesSince(sends: seq<Send>, start: int, limit: int): nat {
    if sends == [] then 0
    else
      var i := |sends| - 1;
      BytesSince(sends[..i], start, limit)
      + if start <= sends[i].now && Admitted(sends, i, limit) then sends[i].n else 0
  }

  /** Times do not go backwards. */
  ghost predicate Ordered(sends: seq<Send>) {
    forall i, j :: 0 <= i <= j < |sends| ==> sends[i].now <= sends[j].now
  }

  /** No request is larger than `most`. */
  ghost predicate UpTo(sends: seq<Send>, most: int) {
    forall i :: 0 <= i < |sends| ==> sends[i].n <= most
  }

  /** In order, and no single request is so large that the counter could wrap. */
  ghost predicate Sane(sends: seq<Send>, limit: int) {
    Ordered(sends) && UpTo(sends, MAX_INT64 - limit)
  }

  /** How the open window bounds what any minute has seen. */
  ghost predicate Bounded(sends: seq<Send>, t: int, limit: int) {
    var w := WindowAfter(sends, limit);
    var seen := BytesIn(sends, t, limit);
    if w.None? then seen == 0
    else
      var start, used := w.value.start, w.value.used;
      && 0 <= used <= limit
      && (sends != [] ==> start <= sends[|sends| - 1].now)
      && (sends != [] && sends[|sends| - 1].now < t ==> seen == 0)
      && (start < t ==> seen <= used)
      && (t <= start < t + MINUTE ==> seen <= limit + used)
      && seen <= 2 * limit
  }

  lemma {:induction false} StaysBounded(sends: seq<Send>, t: int, limit: int)
    requires limit > 0 && Sane(sends, limit)
    ensures Bounded(sends, t, limit)
  {
    if sends != [] {
      var i := |sends| - 1;
      StaysBounded(sends[..i], t, limit);
    }
  }

  /** MAIN RESULT.  Fixed windows give a sliding bound: in every half-open minute a client is admitted
      at most twice its limit. */
  lemma {:induction false} AtMostTwiceTheLimit(sends: seq<Send>, t: int, limit: int)
    requires limit > 0 && Sane(sends, limit)
    ensures BytesIn(sends, t, limit) <= 2 * limit
  {
    StaysBounded(sends, t, limit);
  }

  /** Nothing is admitted a minute or more after the open window began. */
  lemma {:induction false} NothingLater(sends: seq<Send>, limit: int, x: int)
    requires Sane(sends, limit)
    ensures var w := WindowAfter(sends, limit);
            w.None? || x >= w.value.start + MINUTE ==> BytesSince(sends, x, limit) == 0
  {
    if sends != [] {
      var i := |sends| - 1;
      NothingLater(sends[..i], limit, x);
    }
  }

  /** Within the open window the limit itself holds, and the counter is exact. */
  lemma {:induction false} WindowIsExact(sends: seq<Send>, limit: int)
    requires limit > 0 && Sane(sends, limit) && WindowAfter(sends, limit).Some?
    ensures var w := WindowAfter(sends, limit).value;
            && w.used == BytesSince(sends, w.start, limit)
            && w.used <= limit
  {
    StaysBounded(sends, 0, limit);
    var i := |sends| - 1;
    var init, now := sends[..i], sends[i].now;
    NothingLater(init, limit, now);
    StaysBounded(init, 0, limit);
    if WindowAfter(init, limit).Some? {
      WindowIsExact(init, limit);
    }
  }

  /** When the window that a request at `now` falls into began: with the request that opened it, unless that
      is a minute ago or more. */
  function WindowStart(sends: seq<Send>, now: int, limit: int): int {
    var w := WindowAfter(sends, limit);
    if w.Some? && now < w.value.start + 60_000_000_000 then w.value.start else now
  }

  /** MAIN RESULT.  After every run a request of `n` bytes is admitted if and only if it is empty, or
      together with what its window has admitted so far it stays within the limit. */
  lemma {:induction false} AdmittedExactly(sends: seq<Send>, n: int, now: int, limit: int)
    requires limit > 0 && Sane(sends + [Send(n, now)], limit)
    ensures Allow(WindowAfter(sends, limit), n, now, limit).1
            <==> n <= 0 || BytesSince(sends, WindowStart(sends, now, limit), limit) + n <= limit
    ensures n > 0 ==> WindowAfter(sends + [Send(n, now)], limit).Some?
                      && WindowAfter(sends + [Send(n, now)], limit).value.start == WindowStart(sends, now, limit)
  {
    var all := sends + [Send(n, now)];
    assert all[..|sends|] == sends && all[|sends|].n == n;
    assert Sane(sends, limit) by {
      assert forall i :: 0 <= i < |sends| ==> all[i] == sends[i];
    }
    NothingLater(sends, limit, now);
    if WindowAfter(sends, limit).Some? {
      hide WindowAfter, BytesSince;
      WindowIsExact(sends, limit);
    }
  }

  /** A limit that is not positive admits everything. */
  lemma {:induction false} NoLimit(w: Option<Window>, n: int, now: int, limit: int)
    requires limit <= 0
    ensures Allow(w, n, now, limit).1
  {
  }

  /** The factor two is reached: a refused request can open a window early. */
  lemma {:induction false} TwiceTheLimitHappens(limit: int) returns (sends: seq<Send>)
    requires 0 < limit < MAX_INT64
    ensures Ordered(sends) && BytesIn(sends, 1, limit) == 2 * limit
    ensures 2 * limit + 1 <= MAX_INT64 ==> Sane(sends, limit)
  {
    var a, b, c := Send(limit + 1, 0), Send(limit, MINUTE - 1), Send(limit, MINUTE);
    sends := [a, b, c];
    assert sends[..2] == [a, b] && [a, b][..1] == [a] && [a][..0] == [];
    assert WindowAfter([a], limit) == Some(Window(0, 0));
    assert WindowAfter([a, b], limit) == Some(Window(0, limit));
    assert !Admitted([a], 0, limit) && Admitted([a, b], 1, limit) && Admitted(sends, 2, limit);
    assert BytesIn([a], 1, limit) == 0;
    assert BytesIn([a, b], 1, limit) == limit;
  }

  // ---------------------------------------------------------------- when the counter wraps

  /** Requests at time zero of at most `most` bytes each. */
  ghost predicate AtZero(sends: seq<Send>, most: int) {
    forall i :: 0 <= i < |sends| ==> sends[i].now == 0 && 0 < sends[i].n <= most
  }

  /** Requests of at most `most` bytes that add up to `amount`. */
  function Fill(amount: nat, most: int): (sends: seq<Send>)
    requires most > 0
    ensures AtZero(sends, most)
  {
    if amount == 0 then [] else if amount <= most then [Send(amount, 0)]
    else Fill(amount - most, most) + [Send(most, 0)]
  }

  /** What an admitted request at time zero does to the window and to the bytes of the minute. */
  lemma {:induction false} OneMore(sends: seq<Send>, used: int, n: int, limit: int)
    requires Current(WindowAfter(sends, limit), 0) == Window(0, used)
    requires 0 < n && Wrap64(used + n) <= limit
    ensures var more := sends + [Send(n, 0)];
            && Current(WindowAfter(more, limit), 0) == Window(0, Wrap64(used + n))
            && BytesIn(more, 0, limit) == BytesIn(sends, 0, limit) + n
  {
    assert (sends + [Send(n, 0)])[..|sends|] == sends;
  }

  lemma {:induction false} FillIsAdmitted(sends: seq<Send>, used: int, amount: nat, most: int, limit: int)
    requires Current(WindowAfter(sends, limit), 0) == Window(0, used)
    requires 0 < most && used + amount <= limit <= MAX_INT64
    ensures var more := sends + Fill(amount, most);
            && Current(WindowAfter(more, limit), 0) == Window(0, used + amount)
            && BytesIn(more, 0, limit) == BytesIn(sends, 0, limit) + amount
    decreases amount
  {
    hide WindowAfter, BytesIn;
    if amount == 0 {
      assert sends + Fill(amount, most) == sends;
    } else if amount <= most {
      OneMore(sends, used, amount, limit);
    } else {
      FillIsAdmitted(sends, used, amount - most, most, limit);
      OneMore(sends + Fill(amount - most, most), used + amount - most, most, limit);
      assert sends + Fill(amount, most) == sends + Fill(amount - most, most) + [Send(most, 0)];
    }
  }

  lemma {:induction false} NothingYet(limit: int)
    ensures Current(WindowAfter([], limit), 0) == Window(0, 0) && BytesIn([], 0, limit) == 0
  {
  }

  /** Fills the window, wraps the counter, and fills the window again, `k` times in the same minute. */
  lemma {:induction false} Cycles(k: nat, most: int, limit: int) returns (sends: seq<Send>)
    requires 0 < limit <= MAX_INT64 && 0 < most <= MAX_INT64 && limit + most > MAX_INT64
    ensures AtZero(sends, most)
    ensures Current(WindowAfter(sends, limit), 0) == Window(0, limit)
    ensures BytesIn(sends, 0, limit) >= limit + k
  {
    hide WindowAfter, BytesIn, Fill;
    if k == 0 {
      sends := Fill(limit, most);
      NothingYet(limit);
      FillIsAdmitted([], 0, limit, most, limit);
      assert [] + sends == sends;
    } else {
      var before := Cycles(k - 1, most, limit);
      var used := Wrap64(limit + most);
      OneMore(before, limit, most, limit);
      FillIsAdmitted(before + [Send(most, 0)], used, limit - used, most, limit);
      sends := before + [Send(most, 0)] + Fill(limit - used, most);
    }
  }

  /** Once limit and request together can leave 64 bits, one minute admits any number of bytes. */
  lemma {:induction false} NoBoundOnceWrapping(bound: nat, most: int, limit: int) returns (sends: seq<Send>)
    requires 0 < limit <= MAX_INT64 && 0 < most <= MAX_INT64 && limit + most > MAX_INT64
    ensures Ordered(sends) && UpTo(sends, most)
    ensures BytesIn(sends, 0, limit) > bound
  {
    sends := Cycles(bound, most, limit);
  }

  /** Every ordered run of requests up to `most` bytes keeps the sliding bound. */
  ghost predicate BoundHolds(most: int, limit: int) {
    forall sends, t :: Ordered(sends) && UpTo(sends, most) ==> BytesIn(sends, t, limit) <= 2 * limit
  }

  /** After every such run the counter of the open window is what that window has admitted. */
  ghost predicate CounterExact(most: int, limit: int) {
    forall sends :: Ordered(sends) && UpTo(sends, most) && WindowAfter(sends, limit).Some? ==>
      WindowAfter(sends, limit).value.used == BytesSince(sends, WindowAfter(sends, limit).value.start, limit)
  }

  lemma {:induction false} SinceZero(sends: seq<Send>, most: int, limit: int)
    requires AtZero(sends, most)
    ensures BytesSince(sends, 0, limit) == BytesIn(sends, 0, limit)
    ensures sends != [] ==> WindowAfter(sends, limit).Some? && WindowAfter(sends, limit).value.start == 0
  {
    if sends != [] {
      SinceZero(sends[..|sends| - 1], most, limit);
    }
  }

  lemma {:induction false} HoldsWithoutWrapping(most: int, limit: int)
    requires 0 < limit && limit + most <= MAX_INT64
    ensures BoundHolds(most, limit) && CounterExact(most, limit)
  {
    hide BytesIn, BytesSince, WindowAfter;
    forall sends, t | Ordered(sends) && UpTo(sends, most)
      ensures BytesIn(sends, t, limit) <= 2 * limit
    {
      AtMostTwiceTheLimit(sends, t, limit);
    }
    forall sends | Ordered(sends) && UpTo(sends, most) && WindowAfter(sends, limit).Some?
      ensures WindowAfter(sends, limit).value.used
              == BytesSince(sends, WindowAfter(sends, limit).value.start, limit)
    {
      WindowIsExact(sends, limit);
    }
  }

  /** MAIN RESULT.  For requests of up to `most` bytes the sliding bound, and the exactness of the
      counter, hold over every run if and only if limit and largest request together fit in 64 bits. */
  lemma {:induction false} BoundExactly(most: int, limit: int)
    requires 0 < limit <= MAX_INT64 && 0 < most <= MAX_INT64
    ensures BoundHolds(most, limit) <==> limit + most <= MAX_INT64
    ensures CounterExact(most, limit) <==> limit + most <= MAX_INT64
  {
    hide BytesIn, BytesSince, WindowAfter;
    if limit + most <= MAX_INT64 {
      HoldsWithoutWrapping(most, limit);
    } else {
      var sends := Cycles(2 * limit, most, limit);
      assert Ordered(sends) && UpTo(sends, most);
      NothingYet(limit);
      SinceZero(sends, most, limit);
    }
  }

  // ---------------------------------------------------------------- the manager

  class Manager {
    const cfg: Config
    var totalRelayConns: nat
    var relayConnsByClient: Counts
    var relayBytesByClient: map<string, Window>

    ghost function Books(): Ledger
      reads this
    {
      Ledger(totalRelayConns, relayConnsByClient)
    }

    ghost function WindowOf(client: string): Option<Window>
      reads this
    {
      if client in relayBytesByClient then Some(relayBytesByClient[client]) else None
    }

    constructor (cfg: Config)
      ensures this.cfg == cfg && Books() == Ledger(0, map[]) && relayBytesByClient == map[]
    {
      this.cfg := cfg;
      totalRelayConns, relayConnsByClient, relayBytesByClient := 0, map[], map[];
    }

    method ReserveRelayConn(client: string) returns (r: Result<(), LimitError>)
      modifies this`totalRelayConns, this`relayConnsByClient
      ensures r == if ReserveError(old(Books()), client, cfg).Some?
                   then Err(ReserveError(old(Books()), client, cfg).value) else Ok(())
      ensures r == Err(MaxTotalConns) <==> cfg.maxTotalConns > 0 && old(totalRelayConns) >= cfg.maxTotalConns
      ensures r == Err(MaxConnsPerClient) <==>
                && r != Err(MaxTotalConns)
                && cfg.maxConnsPerClient > 0
                && client in old(relayConnsByClient) && old(relayConnsByClient)[client] >= cfg.maxConnsPerClient
      ensures r.Err? ==> r.error != MaxBytesPerMinute
      ensures Books() == if r.Ok? then Reserve(old(Books()), client) else old(Books())
    {
      if cfg.maxTotalConns > 0 && totalRelayConns >= cfg.maxTotalConns {
        return Err(MaxTotalConns);
      }
      var count := CountFor(relayConnsByClient, client);
      if cfg.maxConnsPerClient > 0 && count >= cfg.maxConnsPerClient {
        return Err(MaxConnsPerClient);
      }
      totalRelayConns := totalRelayConns + 1;
      relayConnsByClient := relayConnsByClient[client := count + 1];
      return Ok(());
    }

    method ReleaseRelayConn(client: string)
      modifies this`totalRelayConns, this`relayConnsByClient
      ensures Books() == Release(old(Books()), client)
    {
      if totalRelayConns > 0 {
        totalRelayConns := totalRelayConns - 1;
      }
      var count := CountFor(relayConnsByClient, client);
      if count > 1 {
        relayConnsByClient := relayConnsByClient[client := count - 1];
      } else {
        relayConnsByClient := relayConnsByClient - {client};
      }
    }

    method AllowRelayBytes(client: string, n: int, now: int) returns (r: Result<(), LimitError>)
      modifies this`relayBytesByClient
      ensures r == if Allow(old(WindowOf(client)), n, now, cfg.maxBytesPerMinute).1 then Ok(()) else Err(MaxBytesPerMinute)
      ensures WindowOf(client) == Allow(old(WindowOf(client)), n, now, cfg.maxBytesPerMinute).0
      ensures forall c :: c != client ==> WindowOf(c) == old(WindowOf(c))
    {
      if n <= 0 {
        return Ok(());
      }
      var window := if client in relayBytesByClient then relayBytesByClient[client] else Window(now, 0);
      if now - window.start >= MINUTE {
        window := Window(now, 0);
      }
      relayBytesByClient := relayBytesByClient[client := window];
      var limit := cfg.maxBytesPerMinute;
      if limit > 0 && Wrap64(window.used + n) > limit {
        return Err(MaxBytesPerMinute);
      }
      relayBytesByClient := relayBytesByClient[client := window.(used := Wrap64(window.used + n))];
      return Ok(());
    }
  }
}
