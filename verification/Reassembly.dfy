/**
 Reassembly of fragmented datagrams.  Every add of a fragment first sweeps all messages that have not
 been added to for five seconds; fragments are joined in the order they arrive.
 */
module Reassembly {
  import opened Wrappers
  import opened Bytes
  import opened Datagram

  /** Five seconds, in nanoseconds. */
  const FRAGMENT_TTL: int := 5_000_000_000

  datatype Fragment = Fragment(data: seq<byte>, updatedAt: int)

  type Parts = map<MessageKey, Fragment>

  // ---------------------------------------------------------------- one step, on values

  predicate Stale(f: Fragment, now: int) {
    f.updatedAt < now - FRAGMENT_TTL
  }

  function Swept(parts: Parts, now: int): Parts {
    map k | k in parts && !Stale(parts[k], now) :: parts[k]
  }

  /** The pending messages after a packet, and the payload it completes if it does. */
  function AddTo(parts: Parts, p: Packet, now: int): (r: (Parts, Option<seq<byte>>)) {
    if !p.Fragmented() then (parts, Some(p.payload))
    else
      var live := Swept(parts, now);
      var data := (if p.Key() in live then live[p.Key()].data else []) + p.payload;
      if p.Last() then (live - {p.Key()}, Some(data))
      else (live[p.Key() := Fragment(data, now)], None)
  }

  /** What one packet does to one message. */
  lemma {:induction false} AddAt(parts: Parts, p: Packet, now: int, key: MessageKey)
    ensures var (next, out) := AddTo(parts, p, now);
            if p.Fragmented() && p.Key() == key then
              var data := if key in parts && !Stale(parts[key], now) then parts[key].data + p.payload
                          else p.payload;
              && (key in next <==> !p.Last())
              && (key in next ==> next[key] == Fragment(data, now))
              && out == (if p.Last() then Some(data) else None)
            else
              && (key in next <==> key in parts && !(p.Fragmented() && Stale(parts[key], now)))
              && (key in next ==> next[key] == parts[key])
              && (!p.Fragmented() ==> out == Some(p.payload))
  {
    assert [] + p.payload == p.payload;
  }

  // ---------------------------------------------------------------- histories

  datatype Arrival = Arrival(pkt: Packet, now: int)

  ghost predicate Monotone(h: seq<Arrival>) {
    forall i, j :: 0 <= i <= j < |h| ==> h[i].now <= h[j].now
  }

  function Play(h: seq<Arrival>): Parts {
    if h == [] then map[] else AddTo(Play(h[..|h| - 1]), h[|h| - 1].pkt, h[|h| - 1].now).0
  }

  predicate Of(a: Arrival, key: MessageKey) {
    a.pkt.Fragmented() && a.pkt.Key() == key
  }

  /** The fragments of one message, in arrival order. */
  function FragmentsOf(h: seq<Arrival>, key: MessageKey): (ks: seq<Arrival>)
    ensures forall i :: 0 <= i < |ks| ==> Of(ks[i], key)
  {
    if h == [] then []
    else
      var init := FragmentsOf(h[..|h| - 1], key);
      if Of(h[|h| - 1], key) then init + [h[|h| - 1]] else init
  }

  function PacketsOf(h: seq<Arrival>): (ps: seq<Packet>)
    ensures |ps| == |h| && forall i :: 0 <= i < |h| ==> ps[i] == h[i].pkt
  {
    seq(|h|, i requires 0 <= i < |h| => h[i].pkt)
  }

  /** Nothing before `b` is joined to it: `a` completed the message, or came over five seconds before. */
  predicate Breaks(a: Arrival, b: Arrival) {
    a.pkt.Last() || b.now - a.now > 5_000_000_000
  }

  /** Where the run of joined fragments that ends the list begins: the latest break. */
  function RunStart(ks: seq<Arrival>): (s: nat)
    requires |ks| > 0
    ensures s < |ks|
    ensures forall i :: s <= i < |ks| - 1 ==> !Breaks(ks[i], ks[i + 1])
    ensures s > 0 ==> Breaks(ks[s - 1], ks[s])
  {
    if |ks| == 1 || Breaks(ks[|ks| - 2], ks[|ks| - 1]) then |ks| - 1
    else
      var init := ks[..|ks| - 1];
      var s := RunStart(init);
      assert forall i :: s <= i < |ks| - 2 ==> !Breaks(init[i], init[i + 1]);
      s
  }

  function Joined(ks: seq<Arrival>): seq<byte>
    requires |ks| > 0
  {
    Payloads(PacketsOf(ks[RunStart(ks)..]))
  }

  /** What the last packet of a history completes, told from its own message's fragments alone. */
  function Completed(h: seq<Arrival>): Option<seq<byte>>
    requires |h| > 0
  {
    var last := h[|h| - 1];
    if !last.pkt.Fragmented() then Some(last.pkt.payload)
    else if !last.pkt.Last() then None
    else Some(Joined(FragmentsOf(h, last.pkt.Key())))
  }

  lemma {:induction false} JoinedSnoc(ks: seq<Arrival>, a: Arrival)
    ensures Joined(ks + [a]) ==
            if ks == [] || Breaks(ks[|ks| - 1], a) then a.pkt.payload else Joined(ks) + a.pkt.payload
  {
    var all := ks + [a];
    assert all[..|ks|] == ks;
    var s := RunStart(all);
    if ks == [] || Breaks(ks[|ks| - 1], a) {
      assert all[s..] == [a];
      assert PacketsOf([a]) == [] + [a.pkt];
      PayloadsSnoc([], a.pkt);
    } else {
      assert all[s..] == ks[s..] + [a];
      assert PacketsOf(ks[s..] + [a]) == PacketsOf(ks[s..]) + [a.pkt];
      PayloadsSnoc(PacketsOf(ks[s..]), a.pkt);
    }
  }

  /** How the swept map and the per-message rule agree after every history: a kept message holds its
      joined fragments; one that is not kept has nothing a later packet could be joined to. */
  ghost predicate Agrees(h: seq<Arrival>, key: MessageKey) {
    var ks := FragmentsOf(h, key);
    if key in Play(h) then
      && |ks| > 0
      && !ks[|ks| - 1].pkt.Last()
      && Play(h)[key] == Fragment(Joined(ks), ks[|ks| - 1].now)
    else
      |ks| > 0 ==> ks[|ks| - 1].pkt.Last() || h[|h| - 1].now - ks[|ks| - 1].now > FRAGMENT_TTL
  }

  lemma {:induction false} LastFragmentTime(h: seq<Arrival>, key: MessageKey)
    requires Monotone(h) && FragmentsOf(h, key) != []
    ensures h != []
    ensures var ks := FragmentsOf(h, key); ks[|ks| - 1].now <= h[|h| - 1].now
  {
    if !Of(h[|h| - 1], key) {
      LastFragmentTime(h[..|h| - 1], key);
    }
  }

  lemma {:induction false} OwnFragmentAgrees(init: seq<Arrival>, a: Arrival, key: MessageKey)
    requires Monotone(init + [a]) && Monotone(init) && Of(a, key)
    requires FragmentsOf(init, key) != [] ==> init != []
    requires Agrees(init, key)
    ensures Agrees(init + [a], key)
  {
    hide Joined, AddTo;
    var h, ks := init + [a], FragmentsOf(init, key);
    assert h[..|h| - 1] == init;
    AddAt(Play(init), a.pkt, a.now, key);
    JoinedSnoc(ks, a);
    if ks != [] {
      LastFragmentTime(init, key);
      assert h[|init| - 1].now <= h[|init|].now;
    }
  }

  lemma {:induction false} OtherPacketAgrees(init: seq<Arrival>, a: Arrival, key: MessageKey)
    requires Monotone(init + [a]) && !Of(a, key)
    requires FragmentsOf(init, key) != [] ==> init != []
    requires Agrees(init, key)
    ensures Agrees(init + [a], key)
  {
    hide Joined, AddTo;
    var h := init + [a];
    assert h[..|h| - 1] == init;
    AddAt(Play(init), a.pkt, a.now, key);
    if init != [] {
      assert h[|init| - 1].now <= h[|init|].now;
    }
  }

  lemma {:induction false} SweepAgrees(h: seq<Arrival>, key: MessageKey)
    requires Monotone(h)
    ensures FragmentsOf(h, key) != [] ==> h != []
    ensures Agrees(h, key)
  {
    hide Joined, AddTo;
    if h != [] {
      hide Agrees;
      var init, a := h[..|h| - 1], h[|h| - 1];
      assert h == init + [a];
      SweepAgrees(init, key);
      if Of(a, key) {
        OwnFragmentAgrees(init, a, key);
      } else {
        OtherPacketAgrees(init, a, key);
      }
    }
  }

  /** MAIN RESULT.  Sweeping everything lazily gives, for every history, what looking at one message
      alone gives: a completing packet returns exactly that message's fragments since its last
      completion or its last gap of more than five seconds. */
  lemma {:induction false} AddMeansJoin(h: seq<Arrival>, a: Arrival)
    requires Monotone(h + [a])
    ensures AddTo(Play(h), a.pkt, a.now).1 == Completed(h + [a])
  {
    hide Joined, AddTo;
    var key := a.pkt.Key();
    AddAt(Play(h), a.pkt, a.now, key);
    assert (h + [a])[..|h|] == h;
    assert Monotone(h) by {
      assert forall i :: 0 <= i < |h| ==> h[i] == (h + [a])[i];
    }
    SweepAgrees(h, key);
    var ks := FragmentsOf(h, key);
    if a.pkt.Fragmented() && a.pkt.Last() {
      JoinedSnoc(ks, a);
      if ks != [] {
        LastFragmentTime(h, key);
        assert h[|h| - 1].now <= a.now by {
          assert (h + [a])[|h| - 1].now <= (h + [a])[|h|].now;
        }
      }
    }
  }

  // ---------------------------------------------------------------- the structure itself

  /** What the sweep leaves of one flow's messages. */
  function SweptFlow(bySeq: map<uint32, Fragment>, now: int): map<uint32, Fragment> {
    map s | s in bySeq && !Stale(bySeq[s], now) :: bySeq[s]
  }

  type Nested = map<uint64, map<uint32, Fragment>>

  /** No flow keeps an empty inner map, and `flat` lists exactly what the nested maps hold. */
  ghost predicate Lists(flat: Parts, parts: Nested) {
    && (forall f :: f in parts ==> parts[f] != map[])
    && (forall k :: k in flat <==> k.flow in parts && k.seqNo in parts[k.flow])
    && (forall k :: k in flat ==> flat[k] == parts[k.flow][k.seqNo])
  }

  /** Replacing one flow's inner map, or dropping the flow when nothing is left of it. */
  function WithFlow(parts: Nested, flow: uint64, bySeq: map<uint32, Fragment>): Nested {
    if bySeq == map[] then parts - {flow} else parts[flow := bySeq]
  }

  lemma {:induction false} ListsUpdate(flat: Parts, parts: Nested, flat': Parts, flow: uint64, bySeq: map<uint32, Fragment>)
    requires Lists(flat, parts)
    requires forall k: MessageKey :: k.flow == flow ==> (k in flat' <==> k.seqNo in bySeq)
    requires forall k: MessageKey :: k.flow == flow && k in flat' ==> flat'[k] == bySeq[k.seqNo]
    requires forall k: MessageKey :: k.flow != flow ==> (k in flat' <==> k in flat)
    requires forall k: MessageKey :: k.flow != flow && k in flat' ==> flat'[k] == flat[k]
    ensures Lists(flat', WithFlow(parts, flow, bySeq))
  {
  }

  /** The sweep, flow by flow, once the flows outside `todo` have been visited. */
  ghost predicate SweptExcept(before: Nested, parts: Nested, todo: set<uint64>, now: int) {
    && todo <= parts.Keys <= before.Keys
    && (forall f :: f in parts ==>
          parts[f] == (if f in todo then before[f] else SweptFlow(before[f], now)) && parts[f] != map[])
    && (forall f :: f in before && f !in parts ==> SweptFlow(before[f], now) == map[])
  }

  lemma {:induction false} SweepNone(flat: Parts, parts: Nested, now: int)
    requires Lists(flat, parts)
    ensures SweptExcept(parts, parts, parts.Keys, now)
  {
  }

  lemma {:induction false} SweepOneFlow(before: Nested, parts: Nested, todo: set<uint64>, flow: uint64, now: int)
    requires SweptExcept(before, parts, todo, now) && flow in todo
    ensures flow in parts && flow in before && parts[flow] == before[flow]
    ensures SweptExcept(before, WithFlow(parts, flow, SweptFlow(before[flow], now)), todo - {flow}, now)
  {
  }

  lemma {:induction false} ListsSwept(flat: Parts, before: Nested, parts: Nested, now: int)
    requires Lists(flat, before) && SweptExcept(before, parts, {}, now)
    ensures Lists(Swept(flat, now), parts)
  {
    forall k: MessageKey
      ensures k in Swept(flat, now) <==> k.flow in before && k.seqNo in SweptFlow(before[k.flow], now)
    {
    }
  }

  /** Pending messages by flow, then by sequence number. */
  class Assembler {
    var parts: Nested

    ghost var flat: Parts

    ghost predicate Valid()
      reads this
    {
      Lists(flat, parts)
    }

    constructor ()
      ensures Valid() && flat == map[]
    {
      parts, flat := map[], map[];
    }

    method CleanupFlow(bySeq: map<uint32, Fragment>, now: int) returns (kept: map<uint32, Fragment>)
      ensures kept == SweptFlow(bySeq, now)
    {
      kept := bySeq;
      var todo := bySeq.Keys;
      while todo != {}
        invariant todo <= kept.Keys <= bySeq.Keys
        invariant kept == map s | s in bySeq && (s in todo || !Stale(bySeq[s], now)) :: bySeq[s]
        decreases todo
      {
        var s :| s in todo;
        todo := todo - {s};
        if Stale(kept[s], now) {
          kept := kept - {s};
        }
      }
    }

    method CleanupLocked(now: int)
      requires Valid()
      modifies this
      ensures Valid() && flat == Swept(old(flat), now)
    {
      hide Lists, SweptExcept, SweptFlow, WithFlow;
      var todo := parts.Keys;
      SweepNone(flat, parts, now);
      while todo != {}
        invariant flat == old(flat)
        invariant SweptExcept(old(parts), parts, todo, now)
        decreases todo
      {
        var flow :| flow in todo;
        SweepOneFlow(old(parts), parts, todo, flow, now);
        var bySeq := CleanupFlow(parts[flow], now);
        parts := WithFlow(parts, flow, bySeq);
        todo := todo - {flow};
      }
      ListsSwept(flat, old(parts), parts, now);
      flat := Swept(flat, now);
    }

    /** `done` says whether the packet completes a message; `payload` is then the whole of it. */
    method Add(p: Packet, now: int) returns (payload: seq<byte>, done: bool)
      requires Valid()
      modifies this
      ensures Valid() && flat == AddTo(old(flat), p, now).0
      ensures AddTo(old(flat), p, now).1 == if done then Some(payload) else None
    {
      if !p.Fragmented() {
        return p.payload, true;
      }
      CleanupLocked(now);
      var bySeq := if p.flow in parts then parts[p.flow] else map[];
      assert p.seqNo in bySeq <==> p.Key() in flat;
      var data := (if p.seqNo in bySeq then bySeq[p.seqNo].data else []) + p.payload;
      done := p.Last();
      bySeq := if done then bySeq - {p.seqNo} else bySeq[p.seqNo := Fragment(data, now)];
      ghost var flat' := if done then flat - {p.Key()} else flat[p.Key() := Fragment(data, now)];
      ListsUpdate(flat, parts, flat', p.flow, bySeq);
      hide Lists;
      parts, flat := WithFlow(parts, p.flow, bySeq), flat';
      payload := if done then data else [];
    }
  }
}
