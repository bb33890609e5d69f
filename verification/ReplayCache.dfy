/** The nonce cache that refuses replayed requests.  Old nonces are purged one client at a time. */
module ReplayCache {
  import opened Wrappers

  datatype Acceptance = Acceptance(client: string, nonce: string, at: int)

  /** When a nonce of a client was last accepted, in the whole history. */
  function Latest(h: seq<Acceptance>, client: string, nonce: string): (t: Option<int>)
    ensures t.None? <==> forall a :: a in h ==> a.client != client || a.nonce != nonce
    ensures t.Some? ==> Acceptance(client, nonce, t.value) in h
  {
    if h == [] then None
    else
      var a := h[|h| - 1];
      if a.client == client && a.nonce == nonce then Some(a.at) else Latest(h[..|h| - 1], client, nonce)
  }

  /** The nonce was accepted less than `ttl` ago. */
  predicate Replayed(h: seq<Acceptance>, client: string, nonce: string, now: int, ttl: int) {
    var last := Latest(h, client, nonce);
    last.Some? && now - last.value < ttl
  }

  lemma {:induction false} LatestSnoc(h: seq<Acceptance>, a: Acceptance)
    ensures forall client, nonce ::
              Latest(h + [a], client, nonce)
              == if a.client == client && a.nonce == nonce then Some(a.at) else Latest(h, client, nonce)
  {
    assert (h + [a])[..|h|] == h;
  }

  type Nonces = map<string, int>

  function Purged(nonces: Nonces, cutoff: int): Nonces {
    map k | k in nonces && nonces[k] >= cutoff :: nonces[k]
  }

  /** What the cache knows of a history: it holds the latest acceptance, or has forgotten one that is
      more than `ttl` older than the last request. */
  ghost predicate Knows(items: map<string, Nonces>, h: seq<Acceptance>, clock: Option<int>, ttl: int) {
    forall client: string, nonce: string ::
      var last := Latest(h, client, nonce);
      if client in items && nonce in items[client] then last == Some(items[client][nonce])
      else last.None? || (clock.Some? && last.value < clock.value - ttl)
  }

  /** Looking a nonce up after a purge answers for the whole history. */
  lemma {:induction false} KnowsAt(items: map<string, Nonces>, h: seq<Acceptance>, ttl: int,
                                   client: string, nonce: string, now: int)
    requires Knows(items, h, Some(now), ttl) && client in items
    ensures Replayed(h, client, nonce, now, ttl)
            <==> nonce in items[client] && items[client][nonce] > now - ttl
  {
    var last := Latest(h, client, nonce);
  }

  lemma {:induction false} KnowsPurged(items: map<string, Nonces>, h: seq<Acceptance>, clock: Option<int>, ttl: int,
                                       client: string, now: int)
    requires Knows(items, h, clock, ttl) && (clock.Some? ==> clock.value <= now)
    ensures var nonces := if client in items then items[client] else map[];
            Knows(items[client := Purged(nonces, now - ttl)], h, Some(now), ttl)
  {
  }

  lemma {:induction false} KnowsStored(items: map<string, Nonces>, h: seq<Acceptance>, ttl: int,
                                       client: string, nonce: string, now: int)
    requires Knows(items, h, Some(now), ttl) && client in items
    ensures Knows(items[client := items[client][nonce := now]], h + [Acceptance(client, nonce, now)], Some(now), ttl)
  {
    LatestSnoc(h, Acceptance(client, nonce, now));
  }

  class Cache {
    const ttl: int
    var items: map<string, Nonces>

    /** Every acceptance ever made, and the time of the latest request. */
    ghost var accepted: seq<Acceptance>
    ghost var clock: Option<int>

    ghost predicate Valid()
      reads this
    {
      Knows(items, accepted, clock, ttl)
    }

    constructor (ttl: int)
      ensures Valid() && this.ttl == ttl && accepted == [] && clock == None
    {
      this.ttl := ttl;
      items := map[];
      accepted, clock := [], None;
    }

    method Purge(nonces: Nonces, cutoff: int) returns (kept: Nonces)
      ensures kept == Purged(nonces, cutoff)
    {
      kept := nonces;
      var todo := nonces.Keys;
      while todo != {}
        invariant todo <= kept.Keys <= nonces.Keys
        invariant kept == map k | k in nonces && (k in todo || nonces[k] >= cutoff) :: nonces[k]
        decreases todo
      {
        var k :| k in todo;
        todo := todo - {k};
        if kept[k] < cutoff {
          kept := kept - {k};
        }
      }
    }

    /** MAIN RESULT.  With purging, the answer still depends on the whole history: a nonce is refused
        exactly when its latest acceptance is less than `ttl` ago. */
    method CheckAndStore(client: string, nonce: string, now: int) returns (ok: bool)
      requires Valid() && (clock.Some? ==> clock.value <= now)
      modifies this
      ensures Valid() && clock == Some(now)
      ensures ok <==> !Replayed(old(accepted), client, nonce, now, ttl)
      ensures accepted == old(accepted) + if ok then [Acceptance(client, nonce, now)] else []
    {
      hide Knows, Replayed, Purged;
      KnowsPurged(items, accepted, clock, ttl, client, now);
      var nonces := if client in items then items[client] else map[];
      nonces := Purge(nonces, now - ttl);
      items := items[client := nonces];
      clock := Some(now);
      KnowsAt(items, accepted, ttl, client, nonce, now);
      if nonce in nonces && nonces[nonce] > now - ttl {
        return false;
      }
      KnowsStored(items, accepted, ttl, client, nonce, now);
      items := items[client := nonces[nonce := now]];
      accepted := accepted + [Acceptance(client, nonce, now)];
      return true;
    }
  }
}
