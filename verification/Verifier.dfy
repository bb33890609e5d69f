/**
 Verification of AUTH messages: presence, nonce size, clock skew, signature, then the replay cache.
 The keyed hash and the signed text are parameters; times are in nanoseconds.
 */
module Verifier {
  import opened Wrappers
  import opened Bytes
  import opened ReplayCache

  const MILLISECOND: int := 1_000_000

  datatype Auth = Auth(client: string, tsMS: uint64, nonce: seq<byte>, sig: seq<byte>, caps: uint64)

  datatype AuthError =
    | MissingHeaders
    | NonceSize(n: nat)
    | ClockSkew
    | UnknownClient
    | BadSignature
    | Replay

  /** The keyed hash, the text a client signs, the known secrets, and the configured durations. */
  datatype Policy = Policy(
    hmac: (seq<byte>, seq<byte>) -> seq<byte>,
    material: (string, uint64, seq<byte>, uint64) -> seq<byte>,
    secrets: map<string, seq<byte>>,
    clockSkew: int,
    ttl: int)
  {
    ghost predicate Valid() {
      && 0 < clockSkew <= MAX_INT64
      && 0 < ttl <= MAX_INT64
      && forall key, text :: |hmac(key, text)| == 32
    }
  }

  // ---------------------------------------------------------------- pieces

  /** The difference of two times as a duration, which saturates. */
  function SubTimes(a: int, b: int): (d: int)
    ensures MIN_INT64 <= d <= MAX_INT64
    ensures MIN_INT64 <= a - b <= MAX_INT64 ==> d == a - b
  {
    if a - b > MAX_INT64 then MAX_INT64 else if a - b < MIN_INT64 then MIN_INT64 else a - b
  }

  function RequestTime(m: Auth): int {
    ToInt64(m.tsMS) * MILLISECOND
  }

  function HexDigit(d: int): char
    requires 0 <= d < 16
  {
    "0123456789abcdef"[d]
  }

  function Hex(s: seq<byte>): (h: string)
    ensures |h| == 2 * |s|
  {
    if s == [] then "" else Hex(s[..|s| - 1]) + [HexDigit(s[|s| - 1] / 16), HexDigit(s[|s| - 1] % 16)]
  }

  /** The last two characters give the last byte, and the others the rest. */
  lemma {:induction false} HexEnds(s: seq<byte>)
    requires s != []
    ensures var h := Hex(s);
            var n := |h|;
            && n >= 2
            && h[..n - 2] == Hex(s[..|s| - 1])
            && h[n - 2] == HexDigit(s[|s| - 1] / 16)
            && h[n - 1] == HexDigit(s[|s| - 1] % 16)
  {
  }

  lemma {:induction false} LastByte(x: byte, y: byte)
    requires HexDigit(x / 16) == HexDigit(y / 16) && HexDigit(x % 16) == HexDigit(y % 16)
    ensures x == y
  {
    hide HexDigit;
    DigitInjective(x / 16, y / 16);
    DigitInjective(x % 16, y % 16);
  }

  /** Different nonces have different cache keys. */
  lemma {:induction false} HexInjective(a: seq<byte>, b: seq<byte>)
    requires Hex(a) == Hex(b)
    ensures a == b
  {
    hide Hex, HexDigit;
    if a != [] {
      HexEnds(a);
      HexEnds(b);
      HexInjective(a[..|a| - 1], b[..|b| - 1]);
      LastByte(a[|a| - 1], b[|b| - 1]);
      assert a == a[..|a| - 1] + [a[|a| - 1]] && b == b[..|b| - 1] + [b[|b| - 1]];
    }
  }

  lemma {:induction false} DigitInjective(c: int, d: int)
    requires 0 <= c < 16 && 0 <= d < 16 && HexDigit(c) == HexDigit(d)
    ensures c == d
  {
  }

  /** Everything that is checked before the replay cache is asked. */
  function Precheck(p: Policy, m: Auth, now: int): Option<AuthError> {
    var skew := SubTimes(now, RequestTime(m));
    if m.client == "" || m.nonce == [] || m.sig == [] then Some(MissingHeaders)
    else if |m.nonce| < 12 || |m.nonce| > 32 then Some(NonceSize(|m.nonce|))
    else if skew > p.clockSkew || skew < -p.clockSkew then Some(ClockSkew)
    else if m.client !in p.secrets then Some(UnknownClient)
    else if p.hmac(p.secrets[m.client], p.material(m.client, m.tsMS, m.nonce, m.caps)) != m.sig then Some(BadSignature)
    else None
  }

  // ---------------------------------------------------------------- what the checks mean

  predicate Missing(m: Auth) {
    m.client == "" || m.nonce == [] || m.sig == []
  }

  predicate NonceFits(m: Auth) {
    12 <= |m.nonce| <= 32
  }

  /** The time in the message is a signed number of milliseconds, within the skew of `now`.  A difference
      beyond 64 bits counts as the largest, which only the largest skew allows. */
  predicate InTime(p: Policy, m: Auth, now: int) {
    var ms := if m.tsMS < 0x8000_0000_0000_0000 then m.tsMS else m.tsMS - 0x1_0000_0000_0000_0000;
    var ahead := now - 1_000_000 * ms;
    -p.clockSkew <= ahead && (ahead <= p.clockSkew || p.clockSkew == 0x7FFF_FFFF_FFFF_FFFF)
  }

  predicate Authentic(p: Policy, m: Auth) {
    && m.client in p.secrets
    && m.sig == p.hmac(p.secrets[m.client], p.material(m.client, m.tsMS, m.nonce, m.caps))
  }

  /** A message that deserves to be accepted if it is not a replay. */
  predicate Genuine(p: Policy, m: Auth, now: int) {
    !Missing(m) && NonceFits(m) && InTime(p, m, now) && Authentic(p, m)
  }

  /** Which error each failing check gives: that of the first one that fails. */
  lemma {:induction false} FirstFailingCheck(p: Policy, m: Auth, now: int)
    requires p.Valid()
    ensures Precheck(p, m, now) ==
            (if Missing(m) then Some(MissingHeaders)
             else if !NonceFits(m) then Some(NonceSize(|m.nonce|))
             else if !InTime(p, m, now) then Some(ClockSkew)
             else if m.client !in p.secrets then Some(UnknownClient)
             else if !Authentic(p, m) then Some(BadSignature)
             else None)
    ensures Precheck(p, m, now).None? <==> Genuine(p, m, now)
  {
  }

  // ---------------------------------------------------------------- runs

  /** Requests in the order they reach the cache.  `Other` is any other user of the same cache, such
      as a signed HTTP request. */
  datatype Request =
    | Session(m: Auth, now: int)
    | Other(client: string, nonce: string, now: int)

  ghost predicate Monotone(rs: seq<Request>) {
    forall i, j :: 0 <= i <= j < |rs| ==> rs[i].now <= rs[j].now
  }

  function NonceKey(r: Request): (string, string) {
    match r
    case Session(m, _) => (m.client, Hex(m.nonce))
    case Other(client, nonce, _) => (client, nonce)
  }

  /** The acceptances a run makes. */
  function History(p: Policy, rs: seq<Request>): seq<Acceptance> {
    if rs == [] then []
    else
      var h := History(p, rs[..|rs| - 1]);
      var r := rs[|rs| - 1];
      if AcceptsAfter(p, h, r) then h + [Acceptance(NonceKey(r).0, NonceKey(r).1, r.now)] else h
  }

  predicate AcceptsAfter(p: Policy, h: seq<Acceptance>, r: Request) {
    && (r.Session? ==> Precheck(p, r.m, r.now).None?)
    && !Replayed(h, NonceKey(r).0, NonceKey(r).1, r.now, p.ttl)
  }

  /** Request `i` of the run is accepted. */
  predicate Accepts(p: Policy, rs: seq<Request>, i: nat)
    requires i < |rs|
  {
    AcceptsAfter(p, History(p, rs[..i]), rs[i])
  }

  /** A nonce accepted at request `i` has, ever after, a latest acceptance no older than that. */
  lemma {:induction false} LatestNotBefore(p: Policy, rs: seq<Request>, i: nat, j: nat)
    requires Monotone(rs) && i < j <= |rs| && Accepts(p, rs, i)
    ensures var last := Latest(History(p, rs[..j]), NonceKey(rs[i]).0, NonceKey(rs[i]).1);
            last.Some? && rs[i].now <= last.value
  {
    hide Precheck, Replayed, Latest, NonceKey;
    var h := History(p, rs[..j - 1]);
    var r := rs[j - 1];
    assert rs[..j][..j - 1] == rs[..j - 1];
    LatestSnoc(h, Acceptance(NonceKey(r).0, NonceKey(r).1, r.now));
    if i < j - 1 {
      LatestNotBefore(p, rs, i, j - 1);
    }
  }

  /** Two acceptances of one cache key are at least the retention time apart. */
  lemma {:induction false} AcceptedApart(p: Policy, rs: seq<Request>, i: nat, j: nat)
    requires Monotone(rs) && i < j < |rs| && NonceKey(rs[i]) == NonceKey(rs[j])
    requires Accepts(p, rs, i) && Accepts(p, rs, j)
    ensures rs[j].now - rs[i].now >= p.ttl
  {
    LatestNotBefore(p, rs, i, j);
  }

  /** Every recorded acceptance was made by some request of the run. */
  lemma {:induction false} LatestHasRequest(p: Policy, rs: seq<Request>, j: nat, key: (string, string))
    returns (i: nat)
    requires j <= |rs| && Latest(History(p, rs[..j]), key.0, key.1).Some?
    ensures i < j && Accepts(p, rs, i) && NonceKey(rs[i]) == key
    ensures Latest(History(p, rs[..j]), key.0, key.1) == Some(rs[i].now)
  {
    hide Precheck, Replayed, Latest, NonceKey;
    assert j > 0 by {
      if j == 0 { LatestOfNone(key); }
    }
    var h := History(p, rs[..j - 1]);
    var r := rs[j - 1];
    assert rs[..j][..j - 1] == rs[..j - 1];
    LatestSnoc(h, Acceptance(NonceKey(r).0, NonceKey(r).1, r.now));
    if Accepts(p, rs, j - 1) && NonceKey(r) == key {
      i := j - 1;
    } else {
      i := LatestHasRequest(p, rs, j - 1, key);
    }
  }

  lemma {:induction false} LatestOfNone(key: (string, string))
    ensures Latest([], key.0, key.1).None?
  {
  }

  /** Nothing is refused as a replay without cause: the same nonce of the same client was accepted less
      than the retention time before. */
  lemma {:induction false} ReplayHasCause(p: Policy, rs: seq<Request>, j: nat) returns (i: nat)
    requires j < |rs| && rs[j].Session? && Precheck(p, rs[j].m, rs[j].now).None? && !Accepts(p, rs, j)
    ensures i < j && Accepts(p, rs, i) && rs[j].now - rs[i].now < p.ttl
    ensures NonceKey(rs[i]) == NonceKey(rs[j])
    ensures rs[i].Session? ==> rs[i].m.client == rs[j].m.client && rs[i].m.nonce == rs[j].m.nonce
  {
    i := LatestHasRequest(p, rs, j, NonceKey(rs[j]));
    if rs[i].Session? {
      HexInjective(rs[i].m.nonce, rs[j].m.nonce);
    }
  }

  /** MAIN RESULT.  Over every run, a request is accepted if and only if no request with the same nonce
      of the same client was accepted less than the retention time before, and, for an AUTH message, the
      client is known, the nonce has 12 to 32 bytes, the time is within the skew, and the signature is
      the keyed hash of what the message says. */
  lemma {:induction false} AcceptsExactly(p: Policy, rs: seq<Request>, i: nat)
    requires p.Valid() && Monotone(rs) && i < |rs|
    ensures Accepts(p, rs, i)
            <==> && (rs[i].Session? ==> Genuine(p, rs[i].m, rs[i].now))
                 && forall j :: 0 <= j < i && NonceKey(rs[j]) == NonceKey(rs[i]) && Accepts(p, rs, j) ==>
                      rs[i].now - rs[j].now >= p.ttl
  {
    if rs[i].Session? {
      FirstFailingCheck(p, rs[i].m, rs[i].now);
    }
    hide Precheck, NonceKey, History, Genuine;
    if Accepts(p, rs, i) {
      forall j | 0 <= j < i && NonceKey(rs[j]) == NonceKey(rs[i]) && Accepts(p, rs, j)
        ensures rs[i].now - rs[j].now >= p.ttl
      {
        AcceptedApart(p, rs, j, i);
      }
    } else if Replayed(History(p, rs[..i]), NonceKey(rs[i]).0, NonceKey(rs[i]).1, rs[i].now, p.ttl) {
      var j := LatestHasRequest(p, rs, i, NonceKey(rs[i]));
      assert Accepts(p, rs, j);
    }
  }

  /** The cache keys are lower-case hexadecimal. */
  lemma {:induction false} HexExample()
    ensures Hex([0xAB, 0x07]) == "ab07"
  {
    assert [0xAB, 0x07][..1] == [0xAB] && [0xAB][..0] == [];
  }

  /** In every run, no AUTH message is accepted twice. */
  ghost predicate AtMostOnce(p: Policy) {
    forall rs: seq<Request>, i: nat, j: nat ::
      Monotone(rs) && i < j < |rs| && rs[i].Session? && rs[j].Session? && rs[i].m == rs[j].m ==>
        !(Accepts(p, rs, i) && Accepts(p, rs, j))
  }

  lemma {:induction false} TwiceNeedsSkew(p: Policy, rs: seq<Request>, i: nat, j: nat)
    requires p.Valid() && p.ttl > 2 * p.clockSkew
    requires Monotone(rs) && i < j < |rs| && rs[i].Session? && rs[j].Session? && rs[i].m == rs[j].m
    ensures !(Accepts(p, rs, i) && Accepts(p, rs, j))
  {
    if Accepts(p, rs, i) && Accepts(p, rs, j) {
      AcceptedApart(p, rs, i, j);
      assert false;
    }
  }

  /** A correctly signed message of a known client. */
  function Signed(p: Policy, client: string, tsMS: uint64, nonce: seq<byte>, caps: uint64): Auth
    requires client in p.secrets
  {
    Auth(client, tsMS, nonce, p.hmac(p.secrets[client], p.material(client, tsMS, nonce, caps)), caps)
  }

  /** With a short retention time the same message passes at both ends of its skew window. */
  lemma {:induction false} TwiceWithShortTtl(p: Policy, client: string)
    returns (rs: seq<Request>)
    requires p.Valid() && p.ttl <= 2 * p.clockSkew && client != "" && client in p.secrets
    ensures Monotone(rs) && |rs| == 2 && rs[0].Session? && rs[1].Session? && rs[0].m == rs[1].m
    ensures Accepts(p, rs, 0) && Accepts(p, rs, 1)
  {
    var m := Signed(p, client, 1_700_000_000_000, seq(12, i => 0), 0);
    rs := [Session(m, RequestTime(m) - p.clockSkew), Session(m, RequestTime(m) + p.clockSkew)];
    assert rs[..0] == [];
    assert rs[..1] == [rs[0]];
    assert rs[..1][..0] == [];
    assert Precheck(p, m, rs[0].now).None? && Precheck(p, m, rs[1].now).None?;
    LatestSnoc([], Acceptance(NonceKey(rs[0]).0, NonceKey(rs[0]).1, rs[0].now));
    assert History(p, rs[..1]) == [] + [Acceptance(NonceKey(rs[0]).0, NonceKey(rs[0]).1, rs[0].now)];
  }

  /** MAIN RESULT.  One AUTH message is accepted at most once in every run if and only if the retention
      time exceeds twice the allowed skew. */
  lemma {:induction false} AtMostOnceExactly(p: Policy, client: string)
    requires p.Valid() && client != "" && client in p.secrets
    ensures AtMostOnce(p) <==> p.ttl > 2 * p.clockSkew
  {
    if p.ttl > 2 * p.clockSkew {
      forall rs: seq<Request>, i: nat, j: nat
        | Monotone(rs) && i < j < |rs| && rs[i].Session? && rs[j].Session? && rs[i].m == rs[j].m
        ensures !(Accepts(p, rs, i) && Accepts(p, rs, j))
      {
        TwiceNeedsSkew(p, rs, i, j);
      }
    } else {
      var rs := TwiceWithShortTtl(p, client);
      assert Accepts(p, rs, 0) && Accepts(p, rs, 1);
    }
  }

  /** The shipped configuration, sixty seconds for both, is on the failing side. */
  lemma {:induction false} DefaultConfiguration(p: Policy, client: string)
    requires p.Valid() && client != "" && client in p.secrets
    requires p.clockSkew == 60_000 * MILLISECOND && p.ttl == 60_000 * MILLISECOND
    ensures !AtMostOnce(p)
  {
    AtMostOnceExactly(p, client);
  }

  // ---------------------------------------------------------------- the verifier

  class SessionVerifier {
    const policy: Policy
    const replay: Cache

    constructor (policy: Policy, replay: Cache)
      requires replay.ttl == policy.ttl
      ensures this.policy == policy && this.replay == replay
    {
      this.policy := policy;
      this.replay := replay;
    }

    /** Refuses for the first check that fails; only a message that passes all the others is recorded. */
    method VerifySession(m: Auth, now: int) returns (r: Result<(), AuthError>)
      requires replay.ttl == policy.ttl
      requires replay.Valid() && (replay.clock.Some? ==> replay.clock.value <= now)
      modifies replay
      ensures replay.Valid()
      ensures r.Ok? <==> AcceptsAfter(policy, old(replay.accepted), Session(m, now))
      ensures policy.Valid() ==>
                (r.Ok? <==> Genuine(policy, m, now)
                            && !Replayed(old(replay.accepted), m.client, Hex(m.nonce), now, policy.ttl))
      ensures policy.Valid() ==>
                && (r == Err(MissingHeaders) <==> Missing(m))
                && (r == Err(NonceSize(|m.nonce|)) <==> !Missing(m) && !NonceFits(m))
                && (r == Err(ClockSkew) <==> !Missing(m) && NonceFits(m) && !InTime(policy, m, now))
                && (r == Err(UnknownClient) <==>
                      !Missing(m) && NonceFits(m) && InTime(policy, m, now) && m.client !in policy.secrets)
                && (r == Err(BadSignature) <==>
                      !Missing(m) && NonceFits(m) && InTime(policy, m, now) && m.client in policy.secrets
                      && !Authentic(policy, m))
      ensures Precheck(policy, m, now).Some? ==> r == Err(Precheck(policy, m, now).value)
      ensures r.Err? && Precheck(policy, m, now).None? ==> r.error == Replay
      ensures replay.accepted == old(replay.accepted)
                                 + if r.Ok? then [Acceptance(m.client, Hex(m.nonce), now)] else []
      ensures replay.clock == if Precheck(policy, m, now).Some? then old(replay.clock) else Some(now)
    {
      if policy.Valid() {
        FirstFailingCheck(policy, m, now);
      }
      if m.client == "" || |m.nonce| == 0 || |m.sig| == 0 {
        return Err(MissingHeaders);
      }
      if |m.nonce| < 12 || |m.nonce| > 32 {
        return Err(NonceSize(|m.nonce|));
      }
      var skew := SubTimes(now, RequestTime(m));
      if skew > policy.clockSkew || skew < -policy.clockSkew {
        return Err(ClockSkew);
      }
      if m.client !in policy.secrets {
        return Err(UnknownClient);
      }
      var expected := policy.hmac(policy.secrets[m.client],
                                  policy.material(m.client, m.tsMS, m.nonce, m.caps));
      if expected != m.sig {
        return Err(BadSignature);
      }
      var fresh' := replay.CheckAndStore(m.client, Hex(m.nonce), now);
      if !fresh' {
        return Err(Replay);
      }
      return Ok(());
    }
  }

  /** Runs any requests, in order of time, on a new cache: a session verifier and the other users of the
      cache accept exactly what the run theorems say. */
  method Drive(policy: Policy, rs: seq<Request>) returns (accepted: seq<bool>, ghost history: seq<Acceptance>)
    requires Monotone(rs)
    ensures |accepted| == |rs| && forall i :: 0 <= i < |rs| ==> (accepted[i] <==> Accepts(policy, rs, i))
    ensures history == History(policy, rs)
  {
    hide AcceptsAfter, Precheck, Replayed;
    var replay := new Cache(policy.ttl);
    var verifier := new SessionVerifier(policy, replay);
    accepted := [];
    for i := 0 to |rs|
      invariant fresh(replay) && replay.Valid() && replay.ttl == policy.ttl
      invariant verifier.policy == policy && verifier.replay == replay
      invariant replay.clock.Some? ==> exists j :: 0 <= j < i && replay.clock.value <= rs[j].now
      invariant replay.accepted == History(policy, rs[..i])
      invariant |accepted| == i && forall j :: 0 <= j < i ==> (accepted[j] <==> Accepts(policy, rs, j))
    {
      assert rs[..i + 1][..i] == rs[..i];
      var ok := Answer(verifier, rs[i]);
      accepted := accepted + [ok];
    }
    assert rs[..|rs|] == rs;
    history := replay.accepted;
  }

  method Answer(v: SessionVerifier, r: Request) returns (ok: bool)
    requires v.replay.ttl == v.policy.ttl
    requires v.replay.Valid() && (v.replay.clock.Some? ==> v.replay.clock.value <= r.now)
    modifies v.replay
    ensures v.replay.Valid() && (v.replay.clock.Some? ==> v.replay.clock.value <= r.now)
    ensures ok <==> AcceptsAfter(v.policy, old(v.replay.accepted), r)
    ensures v.replay.accepted == old(v.replay.accepted)
                                 + if ok then [Acceptance(NonceKey(r).0, NonceKey(r).1, r.now)] else []
  {
    match r
    case Session(m, now) =>
      var result := v.VerifySession(m, now);
      ok := result.Ok?;
    case Other(client, nonce, now) =>
      ok := v.replay.CheckAndStore(client, nonce, now);
  }
}
