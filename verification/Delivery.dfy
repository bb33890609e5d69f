/** What the datagram pipeline guarantees: accounting, order, and delivery of whole messages. */
module Delivery {
  import opened Wrappers
  import opened Bytes
  import opened Datagram
  import opened Seqs
  import opened Reassembly
  import opened Pipeline
  import opened PipelineInvariant

  // ---------------------------------------------------------------- accounting

  ghost predicate InQueue(s: State, id: nat) {
    exists w, i :: 0 <= w < |s.queues| && 0 <= i < |s.queues[w]| && s.queues[w][i].id == id
  }

  ghost predicate InSomeHand(s: State, id: nat) {
    exists w, i :: 0 <= w < |s.hands| && 0 <= i < |s.hands[w]| && s.hands[w][i].id == id
  }

  ghost predicate InDrained(s: State, id: nat) {
    exists w, i :: 0 <= w < |s.drained| && 0 <= i < |s.drained[w]| && s.drained[w][i].id == id
  }

  ghost predicate InProcessed(s: State, id: nat) {
    exists i :: 0 <= i < |s.processed| && s.processed[i].task.id == id
  }

  lemma {:induction false} AcceptedIsSomewhere(s: State, t: Task, c: Config)
    requires c.Valid() && Inv(s, c) && t in s.enqueued
    ensures InQueue(s, t.id) || InSomeHand(s, t.id) || InDrained(s, t.id) || InProcessed(s, t.id)
  {
    hide Accepted, Remembered, Located;
    var w := ShardOf(t.pkt, c);
    hide ShardOf;
    var p := OnWorker(w, c);
    FilterMember(p, s.enqueued);
    FilterMember(p, Tasks(s.processed));
    assert t in Lane(s, w, c);
    if t in s.queues[w] {
    } else if t in s.hands[w] {
    } else if t in s.drained[w] {
    } else {
      assert t in Tasks(s.processed);
    }
  }

  /** MAIN RESULT.  At all times every received datagram is in exactly one class, and its status says
      which: refused on receipt, in a queue, in a worker's hand, drained at shutdown, or processed. */
  lemma {:induction false} ExactlyOneClass(steps: seq<Step>, c: Config, id: nat)
    requires c.Valid() && Exec(steps, c).Some? && id < |Exec(steps, c).value.raws|
    ensures var s := Exec(steps, c).value;
            && (s.status[id].Queued? <==> InQueue(s, id))
            && (s.status[id].InHand? <==> InSomeHand(s, id))
            && (s.status[id].Drained? <==> InDrained(s, id))
            && (s.status[id].Processed() <==> InProcessed(s, id))
            && (s.status[id].ParseFail? <==> Decode(s.raws[id]).Err?)
  {
    AlwaysInv(steps, c);
    var s := Exec(steps, c).value;
    assert s.enqueued == Accepted(s.raws, s.status);
    hide Remembered, Ordered, Decode, Exec;
    AcceptedAre(s.raws, s.status);
    if !s.status[id].Refused() {
      AcceptedIsSomewhere(s, Task(id, Decode(s.raws[id]).value), c);
    }
  }

  /** MAIN RESULT.  Under every schedule, what becomes of the next datagram on receipt: it is queued at the
      end of its flow's queue if and only if it has a header, passes the packet budget, and finds that
      queue with a free place; otherwise the first of the three that fails is its class. */
  lemma {:induction false} AdmissionLaw(steps: seq<Step>, raw: seq<byte>, admitted: bool, c: Config)
    requires c.Valid() && Exec(steps, c).Some?
    ensures var s := Exec(steps, c).value;
            var s' := Next(s, Receive(raw, admitted), c);
            && |s'.status| == |s.status| + 1
            && var st := s'.status[|s.status|];
            && (st.ParseFail? <==> |raw| < 13)
            && (st.OverPps? <==> |raw| >= 13 && !admitted)
            && (|raw| >= 13 ==>
                  var pkt := Decode(raw).value;
                  var w := pkt.flow % c.workers;
                  && (st.QueueFull? <==> admitted && |s.queues[w]| >= c.perWorker)
                  && (st.Queued? <==> admitted && |s.queues[w]| < c.perWorker)
                  && s'.queues == if st.Queued? then s.queues[w := s.queues[w] + [Task(|s.raws|, pkt)]] else s.queues)
            && (|raw| < 13 ==> s'.queues == s.queues)
  {
    hide Exec;
  }

  /** MAIN RESULT.  Under every schedule, what becomes of a task when its worker finishes it: it is
      absorbed if and only if it completes no message; the payload it completes is forwarded if and only
      if it is empty or within the byte budget, its flow is open, and the write succeeds; otherwise the
      first of the three that fails is its class. */
  lemma {:induction false} FinishLaw(
    steps: seq<Step>, w: nat, now: int, bytesOk: bool, flowOpen: bool, writeOk: bool, c: Config)
    requires c.Valid() && Exec(steps, c).Some?
    requires Enabled(Exec(steps, c).value, Finish(w, now, bytesOk, flowOpen, writeOk), c)
    ensures var s := Exec(steps, c).value;
            var s' := Next(s, Finish(w, now, bytesOk, flowOpen, writeOk), c);
            var task := s.hands[w][0];
            var out := Completed(Arrivals(s.processed) + [Arrival(task.pkt, now)]);
            var st := s'.status[task.id];
            && s'.processed == s.processed + [Done(task, now, out, st, bytesOk, flowOpen, writeOk)]
            && (st.Absorbed? <==> out.None?)
            && (st.OverBytes? <==> out.Some? && !bytesOk && out.value != [])
            && (st.FlowMissing? <==> out.Some? && (bytesOk || out.value == []) && !flowOpen)
            && (st.WriteFail? <==> out.Some? && (bytesOk || out.value == []) && flowOpen && !writeOk)
            && (st.Forwarded? <==> out.Some? && (bytesOk || out.value == []) && flowOpen && writeOk)
  {
    AlwaysInv(steps, c);
    hide Exec, AddTo, Completed, Inv;
    AddCompletes(Exec(steps, c).value, w, now, bytesOk, flowOpen, writeOk, c);
  }

  lemma {:induction false} AddCompletes(
    s: State, w: nat, now: int, bytesOk: bool, flowOpen: bool, writeOk: bool, c: Config)
    requires c.Valid() && Inv(s, c) && Enabled(s, Finish(w, now, bytesOk, flowOpen, writeOk), c)
    ensures AddTo(s.parts, s.hands[w][0].pkt, now).1
            == Completed(Arrivals(s.processed) + [Arrival(s.hands[w][0].pkt, now)])
  {
    assert Remembered(s.parts, s.processed);
    hide Ordered, Located, AddTo, Completed, Play;
    var h, a := Arrivals(s.processed), Arrival(s.hands[w][0].pkt, now);
    assert Monotone(h + [a]);
    AddMeansJoin(h, a);
  }

  /** Under every schedule no queue outgrows its channel. */
  lemma {:induction false} QueuesBounded(steps: seq<Step>, c: Config, w: nat)
    requires c.Valid() && Exec(steps, c).Some? && w < c.workers
    ensures |Exec(steps, c).value.queues[w]| <= c.perWorker
  {
    if steps != [] {
      hide ShardOf, Decode, AddTo, Outcome;
      QueuesBounded(steps[..|steps| - 1], c, w);
    }
  }

  lemma {:induction false} IncreasingAt(p: Task -> bool, ts: seq<Task>, i: nat, j: nat)
    requires Increasing(Filter(p, ts)) && i < j < |ts| && p(ts[i]) && p(ts[j])
    ensures ts[i].id < ts[j].id
  {
    var init := ts[..|ts| - 1];
    assert Increasing(Filter(p, init)) by {
      var kept := Filter(p, ts);
      assert forall k :: 0 <= k < |Filter(p, init)| ==> Filter(p, init)[k] == kept[k];
    }
    if j < |init| {
      IncreasingAt(p, init, i, j);
    } else {
      FilterMember(p, init);
      var kept := Filter(p, init);
      assert init[i] in kept;
      var k :| 0 <= k < |kept| && kept[k] == init[i];
      var all := Filter(p, ts);
      assert all == kept + [ts[j]];
      assert all[k].id < all[|kept|].id;
    }
  }

  lemma {:induction false} DifferentIds(s: State, i: nat, j: nat, c: Config)
    requires c.Valid() && WellFormed(s, c) && Ordered(s, c) && i < j < |s.processed|
    ensures s.processed[i].task.id != s.processed[j].task.id
  {
    hide ShardOf, Filter, Accepted, Lane;
    var ts := Tasks(s.processed);
    var w, v := ShardOf(ts[i].pkt, c), ShardOf(ts[j].pkt, c);
    LaneHead(s, w, c);
    LaneHead(s, v, c);
    FilterMember(OnWorker(w, c), ts);
    FilterMember(OnWorker(v, c), ts);
    AcceptedAre(s.raws, s.status);
    assert ts[i] in s.enqueued && ts[j] in s.enqueued;
    if w == v {
      IncreasingAt(OnWorker(w, c), ts, i, j);
    }
  }

  /** No datagram goes through reassembly twice. */
  lemma {:induction false} ProcessedOnce(steps: seq<Step>, c: Config, i: nat, j: nat)
    requires c.Valid() && Exec(steps, c).Some? && i < j < |Exec(steps, c).value.processed|
    ensures Exec(steps, c).value.processed[i].task.id != Exec(steps, c).value.processed[j].task.id
  {
    AlwaysInv(steps, c);
    hide Exec, Remembered, Located, Ordered;
    DifferentIds(Exec(steps, c).value, i, j, c);
  }

  /** What a worker has processed was enqueued for it, and in the same order. */
  lemma {:induction false} LaneHead(s: State, w: nat, c: Config)
    requires c.Valid() && WellFormed(s, c) && Ordered(s, c) && w < c.workers
    ensures var head := Filter(OnWorker(w, c), Tasks(s.processed));
            && head <= Filter(OnWorker(w, c), s.enqueued)
            && Increasing(head)
            && forall t :: t in head ==> t in s.enqueued
  {
    hide Accepted, Filter, ShardOf;
    AcceptedAre(s.raws, s.status);
    FilterIncreasing(OnWorker(w, c), s.enqueued);
    FilterMember(OnWorker(w, c), s.enqueued);
    var head, lane := Filter(OnWorker(w, c), Tasks(s.processed)), Filter(OnWorker(w, c), s.enqueued);
    assert lane == head + (s.hands[w] + s.drained[w] + s.queues[w]);
    assert forall k :: 0 <= k < |head| ==> head[k] == lane[k];
  }

  // ---------------------------------------------------------------- progress

  lemma {:induction false} DrainingAfter(s: State, step: Step, c: Config, w: nat)
    requires c.Valid() && WellFormed(s, c) && Enabled(s, step, c) && w < c.workers
    ensures Next(s, step, c).draining[w] <==> s.draining[w] || step == BeginDrain(w)
  {
  }

  /** Under every schedule a worker takes nothing once it has begun to drain, and throws nothing away
      before that. */
  lemma {:induction false} DrainingIsForEver(steps: seq<Step>, c: Config, w: nat)
    requires c.Valid() && Exec(steps, c).Some? && w < c.workers
    ensures Exec(steps, c).value.draining[w] <==> BeginDrain(w) in steps
    ensures forall j :: 0 <= j < |steps| && steps[j] == Take(w) ==> BeginDrain(w) !in steps[..j]
    ensures forall j :: 0 <= j < |steps| && steps[j] == DrainOne(w) ==> BeginDrain(w) in steps[..j]
  {
    hide DoReceive, DoTake, DoFinish, DoDrain;
    if steps != [] {
      var init, step := steps[..|steps| - 1], steps[|steps| - 1];
      assert steps == init + [step];
      DrainingIsForEver(init, c, w);
      DrainingAfter(Exec(init, c).value, step, c, w);
      assert forall j :: 0 <= j < |init| ==> steps[..j] == init[..j] && steps[j] == init[j];
    }
  }

  lemma {:induction false} ExecSnoc(steps: seq<Step>, step: Step, c: Config)
    requires c.Valid() && Exec(steps, c).Some? && Enabled(Exec(steps, c).value, step, c)
    ensures Exec(steps + [step], c) == Some(Next(Exec(steps, c).value, step, c))
  {
    assert (steps + [step])[..|steps|] == steps;
  }

  /** `k` turns of a worker: it takes a task and finishes it. */
  function Turns(w: nat, now: int, bytesOk: bool, flowOpen: bool, writeOk: bool, k: nat): seq<Step> {
    if k == 0 then [] else [Take(w), Finish(w, now, bytesOk, flowOpen, writeOk)] + Turns(w, now, bytesOk, flowOpen, writeOk, k - 1)
  }

  ghost predicate ReadyToWork(s: State, w: nat, now: int) {
    && w < |s.queues| && w < |s.hands| && w < |s.draining|
    && s.hands[w] == [] && !s.draining[w]
    && (s.processed != [] ==> s.processed[|s.processed| - 1].now <= now)
  }

  lemma {:induction false} OneTurn(
    steps: seq<Step>, c: Config, w: nat, now: int, bytesOk: bool, flowOpen: bool, writeOk: bool)
    requires c.Valid() && Exec(steps, c).Some?
    requires ReadyToWork(Exec(steps, c).value, w, now) && Exec(steps, c).value.queues[w] != []
    ensures var s := Exec(steps, c).value;
            var r := Exec(steps + [Take(w), Finish(w, now, bytesOk, flowOpen, writeOk)], c);
            && r.Some?
            && ReadyToWork(r.value, w, now)
            && r.value.queues[w] == s.queues[w][1..]
            && Tasks(r.value.processed) == Tasks(s.processed) + [s.queues[w][0]]
  {
    var s := Exec(steps, c).value;
    var finish := Finish(w, now, bytesOk, flowOpen, writeOk);
    ExecSnoc(steps, Take(w), c);
    ExecSnoc(steps + [Take(w)], finish, c);
    assert steps + [Take(w)] + [finish] == steps + [Take(w), finish];
    hide Exec, AddTo, Outcome;
  }

  /** MAIN RESULT.  From every state any schedule reaches, a worker that is neither busy nor draining and
      makes a turn for each task of its queue has then processed exactly those, in order, and the queue is
      empty; whatever the budget, the flows and the socket answer. */
  lemma {:induction false} WorkerCatchesUp(
    steps: seq<Step>, c: Config, w: nat, now: int, bytesOk: bool, flowOpen: bool, writeOk: bool)
    requires c.Valid() && Exec(steps, c).Some? && ReadyToWork(Exec(steps, c).value, w, now)
    ensures var s := Exec(steps, c).value;
            var r := Exec(steps + Turns(w, now, bytesOk, flowOpen, writeOk, |s.queues[w]|), c);
            && r.Some?
            && r.value.queues[w] == []
            && Tasks(r.value.processed) == Tasks(s.processed) + s.queues[w]
    decreases |Exec(steps, c).value.queues[w]|
  {
    hide Exec;
    var s := Exec(steps, c).value;
    if s.queues[w] == [] {
      assert steps + Turns(w, now, bytesOk, flowOpen, writeOk, 0) == steps;
    } else {
      var turn := [Take(w), Finish(w, now, bytesOk, flowOpen, writeOk)];
      OneTurn(steps, c, w, now, bytesOk, flowOpen, writeOk);
      WorkerCatchesUp(steps + turn, c, w, now, bytesOk, flowOpen, writeOk);
      var k := |s.queues[w]| - 1;
      assert steps + turn + Turns(w, now, bytesOk, flowOpen, writeOk, k)
          == steps + Turns(w, now, bytesOk, flowOpen, writeOk, k + 1);
      assert [s.queues[w][0]] + s.queues[w][1..] == s.queues[w];
    }
  }

  function Discards(w: nat, k: nat): seq<Step> {
    if k == 0 then [] else [DrainOne(w)] + Discards(w, k - 1)
  }

  lemma {:induction false} OneDiscarded(steps: seq<Step>, c: Config, w: nat)
    requires c.Valid() && Exec(steps, c).Some? && w < c.workers
    requires Exec(steps, c).value.draining[w] && Exec(steps, c).value.queues[w] != []
    ensures var s := Exec(steps, c).value;
            var r := Exec(steps + [DrainOne(w)], c);
            && r.Some?
            && r.value.draining[w]
            && r.value.queues[w] == s.queues[w][1..]
            && r.value.drained[w] == s.drained[w] + [s.queues[w][0]]
            && r.value.processed == s.processed
  {
    ExecSnoc(steps, DrainOne(w), c);
    hide Exec;
  }

  /** And a worker that drains has thrown away exactly the tasks of its queue after as many steps. */
  lemma {:induction false} DrainEmpties(steps: seq<Step>, c: Config, w: nat)
    requires c.Valid() && Exec(steps, c).Some? && w < c.workers && Exec(steps, c).value.draining[w]
    ensures var s := Exec(steps, c).value;
            var r := Exec(steps + Discards(w, |s.queues[w]|), c);
            && r.Some?
            && r.value.queues[w] == []
            && r.value.drained[w] == s.drained[w] + s.queues[w]
            && r.value.processed == s.processed
    decreases |Exec(steps, c).value.queues[w]|
  {
    hide Exec;
    var s := Exec(steps, c).value;
    if s.queues[w] == [] {
      assert steps + Discards(w, 0) == steps;
    } else {
      OneDiscarded(steps, c, w);
      DrainEmpties(steps + [DrainOne(w)], c, w);
      var k := |s.queues[w]| - 1;
      assert steps + [DrainOne(w)] + Discards(w, k) == steps + Discards(w, k + 1);
      assert [s.queues[w][0]] + s.queues[w][1..] == s.queues[w];
    }
  }

  // ---------------------------------------------------------------- order

  function OnFlow(f: uint64): Task -> bool {
    (t: Task) => t.pkt.flow == f
  }

  /** The entries of one lane that satisfy a condition: processed, in hand, drained, queued. */
  lemma {:induction false} LaneSplit(s: State, w: nat, q: Task -> bool, c: Config)
    requires c.Valid() && WellFormed(s, c) && Ordered(s, c) && w < c.workers
    requires forall t :: q(t) ==> ShardOf(t.pkt, c) == w
    ensures Filter(q, s.enqueued)
            == Filter(q, Tasks(s.processed)) + Filter(q, s.hands[w]) + Filter(q, s.drained[w]) + Filter(q, s.queues[w])
  {
    hide Accepted, Filter, ShardOf;
    var p := OnWorker(w, c);
    var head := Filter(p, Tasks(s.processed));
    FilterFilter(p, q, s.enqueued);
    FilterFilter(p, q, Tasks(s.processed));
    assert Filter(p, s.enqueued) == head + s.hands[w] + s.drained[w] + s.queues[w];
    FilterAppend(q, head + s.hands[w] + s.drained[w], s.queues[w]);
    FilterAppend(q, head + s.hands[w], s.drained[w]);
    FilterAppend(q, head, s.hands[w]);
  }

  /** MAIN RESULT.  For every schedule, the packets processed for a flow are, in order, a prefix of those
      enqueued for it. */
  lemma {:induction false} FlowOrder(steps: seq<Step>, c: Config, f: uint64)
    requires c.Valid() && Exec(steps, c).Some?
    ensures var s := Exec(steps, c).value;
            Filter(OnFlow(f), Tasks(s.processed)) <= Filter(OnFlow(f), s.enqueued)
  {
    AlwaysInv(steps, c);
    hide Exec, Remembered, Located, Ordered;
    FlowOrderIn(Exec(steps, c).value, f, c);
  }

  lemma {:induction false} FlowOrderIn(s: State, f: uint64, c: Config)
    requires c.Valid() && WellFormed(s, c) && Ordered(s, c)
    ensures Filter(OnFlow(f), Tasks(s.processed)) <= Filter(OnFlow(f), s.enqueued)
  {
    hide Ordered, Filter;
    var w := f % c.workers;
    assert forall t :: OnFlow(f)(t) ==> ShardOf(t.pkt, c) == w;
    LaneSplit(s, w, OnFlow(f), c);
    var done := Filter(OnFlow(f), Tasks(s.processed));
    assert Filter(OnFlow(f), s.enqueued)
        == done + (Filter(OnFlow(f), s.hands[w]) + Filter(OnFlow(f), s.drained[w]) + Filter(OnFlow(f), s.queues[w]));
  }

  // ---------------------------------------------------------------- one message among the others

  /*
   A message is told by its key and by the numbers of the datagrams received while its packets arrive,
   from `from` up to but not including `to`, so that earlier and later messages may use the same key.
   */

  function OnKey(k: MessageKey, from: nat, to: nat): Task -> bool {
    (t: Task) => t.pkt.Key() == k && from <= t.id < to
  }

  function DoneOf(k: MessageKey, from: nat, to: nat): Done -> bool {
    (d: Done) => d.task.pkt.Key() == k && from <= d.task.id < to
  }

  function DoneBefore(k: MessageKey, from: nat): Done -> bool {
    (d: Done) => d.task.pkt.Key() == k && d.task.id < from
  }

  function Carries(k: MessageKey): seq<byte> -> bool {
    (raw: seq<byte>) => Decode(raw).Ok? && Decode(raw).value.Key() == k
  }

  /** The packets under one key among the datagrams received. */
  function Received(raws: seq<seq<byte>>, k: MessageKey): (ps: seq<Packet>) {
    if raws == [] then []
    else
      var init := Received(raws[..|raws| - 1], k);
      var raw := raws[|raws| - 1];
      if Carries(k)(raw) then init + [Decode(raw).value] else init
  }

  function Pkts(ts: seq<Task>): (ps: seq<Packet>)
    ensures |ps| == |ts| && forall i :: 0 <= i < |ts| ==> ps[i] == ts[i].pkt
  {
    Map((t: Task) => t.pkt, ts)
  }

  lemma {:induction false} NothingAccepted(raws: seq<seq<byte>>, status: seq<Status>, k: MessageKey, to: nat)
    requires |raws| == |status|
    ensures Filter(OnKey(k, |raws|, to), Accepted(raws, status)) == []
  {
    AcceptedAre(raws, status);
    FilterNone(OnKey(k, |raws|, to), Accepted(raws, status));
  }

  lemma {:induction false} OnKeyUpTo(raws: seq<seq<byte>>, status: seq<Status>, k: MessageKey, from: nat, to: nat)
    requires |raws| == |status| && from <= to <= |raws|
    ensures Filter(OnKey(k, from, to), Accepted(raws, status))
            == Filter(OnKey(k, from, to), Accepted(raws[..to], status[..to]))
  {
    hide Decode, Filter, Accepted;
    if |raws| == to {
      assert raws[..to] == raws && status[..to] == status;
    } else {
      var n := |raws| - 1;
      OnKeyUpTo(raws[..n], status[..n], k, from, to);
      assert raws[..n][..to] == raws[..to] && status[..n][..to] == status[..to];
      assert raws == raws[..n] + [raws[n]] && status == status[..n] + [status[n]];
      AcceptedSnoc(raws[..n], status[..n], raws[n], status[n]);
      if !status[n].Refused() && Decode(raws[n]).Ok? {
        FilterSnoc(OnKey(k, from, to), Accepted(raws[..n], status[..n]), Task(n, Decode(raws[n]).value));
      }
    }
  }

  /** When none of a message's packets were refused, all of them were enqueued. */
  lemma {:induction false} ReceivedIsAccepted(raws: seq<seq<byte>>, status: seq<Status>, k: MessageKey, from: nat, to: nat)
    requires from <= |raws| == |status| <= to
    requires forall id :: from <= id < |raws| && Carries(k)(raws[id]) ==> !status[id].Refused()
    ensures Pkts(Filter(OnKey(k, from, to), Accepted(raws, status))) == Received(raws[from..], k)
  {
    hide Decode, Filter, Accepted;
    if |raws| == from {
      NothingAccepted(raws, status, k, to);
    } else {
      var n := |raws| - 1;
      ReceivedIsAccepted(raws[..n], status[..n], k, from, to);
      assert raws[from..][..n - from] == raws[..n][from..];
      assert raws == raws[..n] + [raws[n]] && status == status[..n] + [status[n]];
      AcceptedSnoc(raws[..n], status[..n], raws[n], status[n]);
      if !status[n].Refused() && Decode(raws[n]).Ok? {
        FilterSnoc(OnKey(k, from, to), Accepted(raws[..n], status[..n]), Task(n, Decode(raws[n]).value));
      }
    }
  }

  lemma {:induction false} ReceivedIsEnqueued(raws: seq<seq<byte>>, status: seq<Status>, k: MessageKey, from: nat, to: nat)
    requires |raws| == |status| && from <= to <= |raws|
    requires forall id :: from <= id < to && Carries(k)(raws[id]) ==> !status[id].Refused()
    ensures Pkts(Filter(OnKey(k, from, to), Accepted(raws, status))) == Received(raws[from..to], k)
  {
    hide Decode, Filter, Accepted, Received;
    OnKeyUpTo(raws, status, k, from, to);
    ReceivedIsAccepted(raws[..to], status[..to], k, from, to);
    assert raws[..to][from..] == raws[from..to];
  }

  /** The hypotheses of delivery for one message: its packets arrive complete so far and in order, none
      of them is refused or drained, no two that follow each other are processed more than five seconds
      apart, the last one finds the byte budget, the flow and the socket willing, and an earlier message
      under its key is over.  Nothing is asked of any other message. */
  ghost predicate Undisturbed(
    s: State, k: MessageKey, from: nat, to: nat, train: seq<Packet>, payload: seq<byte>)
    requires |s.status| == |s.raws|
  {
    && from <= to <= |s.raws|
    && Received(s.raws[from..to], k) <= train
    && Unharmed(s, k, from, to)
    && Served(Filter(DoneOf(k, from, to), s.processed), |train|, payload)
    && (Datagram.Marked(train) ==> Separate(s.processed, k, from, to))
  }

  ghost predicate Unharmed(s: State, k: MessageKey, from: nat, to: nat)
    requires to <= |s.status| == |s.raws|
  {
    var ds := Filter(DoneOf(k, from, to), s.processed);
    && (forall id :: from <= id < to && Carries(k)(s.raws[id]) ==>
          !s.status[id].Refused() && s.status[id] != Drained)
    && (forall i :: 0 <= i < |ds| - 1 ==> ds[i + 1].now - ds[i].now <= FRAGMENT_TTL)
  }

  /** When the last of the `n` packets of a message is processed, its payload is within the byte budget or
      empty, its flow is open, and the write succeeds. */
  predicate Served(mine: seq<Done>, n: nat, payload: seq<byte>) {
    |mine| == n > 0 ==> (mine[n - 1].bytesOk || payload == []) && mine[n - 1].flowOpen && mine[n - 1].writeOk
  }

  /** When the message's first packet was processed, the last fragment before it under the same key,
      if any, had completed its message or was more than five seconds old. */
  ghost predicate Separate(ds: seq<Done>, k: MessageKey, from: nat, to: nat) {
    var olds := FragmentsIn(DoneBefore(k, from), ds, k);
    var mine := Filter(DoneOf(k, from, to), ds);
    olds != [] && mine != [] ==> Breaks(olds[|olds| - 1], Arrival(mine[0].task.pkt, mine[0].now))
  }

  lemma {:induction false} NoneDrained(s: State, k: MessageKey, from: nat, to: nat, w: nat, c: Config)
    requires c.Valid() && Inv(s, c) && w < c.workers
    requires to <= |s.raws|
    requires forall id :: from <= id < to && Carries(k)(s.raws[id]) ==> s.status[id] != Drained
    ensures Filter(OnKey(k, from, to), s.drained[w]) == []
  {
    hide Remembered, Filter, Decode;
    FilterMember(OnWorker(w, c), s.enqueued);
    AcceptedAre(s.raws, s.status);
    forall t | t in s.drained[w]
      ensures !OnKey(k, from, to)(t)
    {
      assert t in Lane(s, w, c);
      assert Decode(s.raws[t.id]) == Ok(t.pkt);
    }
    FilterNone(OnKey(k, from, to), s.drained[w]);
  }

  /** The message's packets that a worker has not finished. */
  function Waiting(s: State, k: MessageKey, from: nat, to: nat, c: Config): seq<Task>
    requires c.Valid() && |s.hands| == |s.queues| == c.workers
  {
    var w := k.flow % c.workers;
    Filter(OnKey(k, from, to), s.hands[w]) + Filter(OnKey(k, from, to), s.queues[w])
  }

  lemma {:induction false} EnqueuedSplit(s: State, k: MessageKey, from: nat, to: nat, c: Config)
    requires c.Valid() && Inv(s, c)
    requires to <= |s.raws|
    requires forall id :: from <= id < to && Carries(k)(s.raws[id]) ==> s.status[id] != Drained
    ensures Filter(OnKey(k, from, to), s.enqueued)
            == Tasks(Filter(DoneOf(k, from, to), s.processed)) + Waiting(s, k, from, to, c)
  {
    var w := k.flow % c.workers;
    assert forall t :: OnKey(k, from, to)(t) ==> ShardOf(t.pkt, c) == w;
    NoneDrained(s, k, from, to, w, c);
    hide Remembered, Located, Ordered, Filter, ShardOf;
    LaneSplit(s, w, OnKey(k, from, to), c);
    DoneTasks(s.processed, k, from, to);
    WithoutDrained(Filter(OnKey(k, from, to), Tasks(s.processed)), Filter(OnKey(k, from, to), s.hands[w]),
                   Filter(OnKey(k, from, to), s.queues[w]));
  }

  lemma {:induction false} DoneTasks(ds: seq<Done>, k: MessageKey, from: nat, to: nat)
    ensures Filter(OnKey(k, from, to), Tasks(ds)) == Tasks(Filter(DoneOf(k, from, to), ds))
  {
    FilterMap(OnKey(k, from, to), DoneOf(k, from, to), (d: Done) => d.task, ds);
  }

  lemma {:induction false} WithoutDrained<T>(a: seq<T>, h: seq<T>, q: seq<T>)
    ensures a + h + [] + q == a + (h + q)
  {
  }

  /** In order: the message's packets processed so far are the first of its train. */
  lemma {:induction false} ProcessedIsPrefix(
    s: State, k: MessageKey, from: nat, to: nat, train: seq<Packet>, payload: seq<byte>, c: Config)
    requires c.Valid() && Inv(s, c) && Undisturbed(s, k, from, to, train, payload)
    ensures var ds := Filter(DoneOf(k, from, to), s.processed);
            && |ds| + |Waiting(s, k, from, to, c)| == |Received(s.raws[from..to], k)|
            && |ds| <= |train|
            && forall i :: 0 <= i < |ds| ==> ds[i].task.pkt == train[i]
  {
    EnqueuedSplit(s, k, from, to, c);
    ReceivedIsEnqueued(s.raws, s.status, k, from, to);
    assert s.enqueued == Accepted(s.raws, s.status);
    hide Remembered, Located, Ordered, Filter, Separate;
    var ds := Filter(DoneOf(k, from, to), s.processed);
    var all := Filter(OnKey(k, from, to), s.enqueued);
    forall i | 0 <= i < |ds|
      ensures ds[i].task.pkt == train[i]
    {
      assert all[i] == ds[i].task;
      assert Pkts(all)[i] == train[i];
    }
  }

  // ---------------------------------------------------------------- earlier messages under the key

  /** The datagrams under one key are processed in the order of their numbers. */
  ghost predicate Rising(ds: seq<Done>, k: MessageKey) {
    forall i, j :: 0 <= i < j < |ds| && ds[i].task.pkt.Key() == k && ds[j].task.pkt.Key() == k ==>
      ds[i].task.id < ds[j].task.id
  }

  lemma {:induction false} KeyRises(s: State, k: MessageKey, c: Config)
    requires c.Valid() && WellFormed(s, c) && Ordered(s, c)
    ensures Rising(s.processed, k)
  {
    var w := k.flow % c.workers;
    assert forall p: Packet :: p.Key() == k ==> ShardOf(p, c) == w;
    LaneHead(s, w, c);
    hide Ordered, Filter, ShardOf;
    var ts := Tasks(s.processed);
    forall i, j | 0 <= i < j < |ts| && ts[i].pkt.Key() == k && ts[j].pkt.Key() == k
      ensures ts[i].id < ts[j].id
    {
      IncreasingAt(OnWorker(w, c), ts, i, j);
    }
  }

  lemma {:induction false} FragmentsSnoc(h: seq<Arrival>, a: Arrival, k: MessageKey)
    ensures FragmentsOf(h + [a], k) == if Of(a, k) then FragmentsOf(h, k) + [a] else FragmentsOf(h, k)
  {
    assert (h + [a])[..|h|] == h;
  }

  /** The fragments under one key among some of the processed datagrams. */
  function FragmentsIn(p: Done -> bool, ds: seq<Done>, k: MessageKey): seq<Arrival> {
    FragmentsOf(Arrivals(Filter(p, ds)), k)
  }

  lemma {:induction false} FragmentsInSnoc(p: Done -> bool, ds: seq<Done>, d: Done, k: MessageKey)
    ensures var a := Arrival(d.task.pkt, d.now);
            FragmentsIn(p, ds + [d], k)
            == FragmentsIn(p, ds, k) + if p(d) && Of(a, k) then [a] else []
  {
    hide Filter, FragmentsOf;
    FilterSnoc(p, ds, d);
    TasksSnoc(Filter(p, ds), d);
    FragmentsSnoc(Arrivals(Filter(p, ds)), Arrival(d.task.pkt, d.now), k);
  }

  /** Nothing under the key is numbered `to` or above. */
  ghost predicate NoneLater(ds: seq<Done>, k: MessageKey, to: nat) {
    forall i :: 0 <= i < |ds| && ds[i].task.pkt.Key() == k ==> ds[i].task.id < to
  }

  lemma {:induction false} LastIsLatest(ds: seq<Done>, k: MessageKey, to: nat)
    requires Rising(ds, k) && ds != []
    requires ds[|ds| - 1].task.pkt.Key() == k && ds[|ds| - 1].task.id < to
    ensures NoneLater(ds, k, to)
  {
  }

  /** The fragments under a key are those of earlier messages, followed by those of this one. */
  lemma {:induction false} FragmentsSplit(ds: seq<Done>, k: MessageKey, from: nat, to: nat)
    requires Rising(ds, k) && NoneLater(ds, k, to)
    ensures FragmentsOf(Arrivals(ds), k)
            == FragmentsIn(DoneBefore(k, from), ds, k) + FragmentsIn(DoneOf(k, from, to), ds, k)
  {
    hide FragmentsIn, FragmentsOf, Rising, Arrivals;
    if ds == [] {
      NoFragments(k);
    } else {
      var init, last := ds[..|ds| - 1], ds[|ds| - 1];
      assert ds == init + [last];
      RisingInit(init, last, k);
      assert NoneLater(init, k, to) && (last.task.pkt.Key() == k ==> last.task.id < to);
      FragmentsSplit(init, k, from, to);
      if DoneBefore(k, from)(last) {
        NoneYet(init, last, k, from, to);
      }
      var a := Arrival(last.task.pkt, last.now);
      TasksSnoc(init, last);
      FragmentsSnoc(Arrivals(init), a, k);
      FragmentsInSnoc(DoneBefore(k, from), init, last, k);
      FragmentsInSnoc(DoneOf(k, from, to), init, last, k);
      ConcatAssoc(FragmentsIn(DoneBefore(k, from), init, k), FragmentsIn(DoneOf(k, from, to), init, k), [a]);
    }
  }

  /** A packet of an earlier message comes before all of this one. */
  lemma {:induction false} NoneYet(init: seq<Done>, last: Done, k: MessageKey, from: nat, to: nat)
    requires Rising(init + [last], k) && DoneBefore(k, from)(last)
    ensures FragmentsIn(DoneOf(k, from, to), init, k) == []
  {
    var ds := init + [last];
    forall i | 0 <= i < |init|
      ensures !DoneOf(k, from, to)(init[i])
    {
      assert ds[i] == init[i] && ds[|init|] == last;
    }
    FilterNone(DoneOf(k, from, to), init);
    NoFragments(k);
  }

  lemma {:induction false} RisingInit(init: seq<Done>, last: Done, k: MessageKey)
    requires Rising(init + [last], k)
    ensures Rising(init, k)
  {
    assert forall i :: 0 <= i < |init| ==> (init + [last])[i] == init[i];
  }

  lemma {:induction false} NoFragments(k: MessageKey)
    ensures Arrivals([]) == [] && FragmentsOf([], k) == []
    ensures forall p :: FragmentsIn(p, [], k) == []
  {
  }

  /** Up to a packet of this message, no earlier message under its key has anything left to come. */
  lemma {:induction false} OldsAreFirst(ds: seq<Done>, k: MessageKey, from: nat, to: nat, j: nat)
    requires Rising(ds, k) && j < |ds| && DoneOf(k, from, to)(ds[j])
    ensures Filter(DoneBefore(k, from), ds[..j + 1]) == Filter(DoneBefore(k, from), ds)
  {
    var head, tail := ds[..j + 1], ds[j + 1..];
    assert ds == head + tail;
    FilterAppend(DoneBefore(k, from), head, tail);
    forall i | 0 <= i < |tail|
      ensures !DoneBefore(k, from)(tail[i])
    {
      assert tail[i] == ds[j + 1 + i];
    }
    FilterNone(DoneBefore(k, from), tail);
  }

  lemma {:induction false} AllFragments(mine: seq<Done>, k: MessageKey)
    requires forall i :: 0 <= i < |mine| ==> mine[i].task.pkt.Key() == k && mine[i].task.pkt.Fragmented()
    ensures FragmentsOf(Arrivals(mine), k) == Arrivals(mine)
  {
    if mine != [] {
      var init, last := mine[..|mine| - 1], mine[|mine| - 1];
      AllFragments(init, k);
      assert mine == init + [last];
      TasksSnoc(init, last);
      FragmentsSnoc(Arrivals(init), Arrival(last.task.pkt, last.now), k);
    }
  }

  // ---------------------------------------------------------------- delivery of whole messages

  /** A run without breaks that follows a break is joined from its beginning. */
  lemma {:induction false} WholeRun(olds: seq<Arrival>, ks: seq<Arrival>)
    requires |ks| > 0
    requires olds != [] ==> Breaks(olds[|olds| - 1], ks[0])
    requires forall i :: 0 <= i < |ks| - 1 ==> !Breaks(ks[i], ks[i + 1])
    ensures Joined(olds + ks) == Payloads(PacketsOf(ks))
  {
    var all := olds + ks;
    assert forall i :: |olds| <= i < |all| ==> all[i] == ks[i - |olds|];
    StartOfRun(all, |olds|);
    assert all[|olds|..] == ks;
  }

  lemma {:induction false} StartOfRun(all: seq<Arrival>, n: nat)
    requires n < |all| && (n > 0 ==> Breaks(all[n - 1], all[n]))
    requires forall i :: n <= i < |all| - 1 ==> !Breaks(all[i], all[i + 1])
    ensures RunStart(all) == n
  {
    hide Breaks;
  }

  /** The packets of a message processed so far are the first of its train, close together in time. */
  ghost predicate FollowsTrain(mine: seq<Done>, train: seq<Packet>) {
    && |mine| <= |train|
    && (forall i :: 0 <= i < |mine| ==> mine[i].task.pkt == train[i])
    && (forall i :: 0 <= i < |mine| - 1 ==> mine[i + 1].now - mine[i].now <= FRAGMENT_TTL)
  }

  lemma {:induction false} FollowsPrefix(mine: seq<Done>, train: seq<Packet>, n: nat)
    requires FollowsTrain(mine, train) && n <= |mine|
    ensures FollowsTrain(mine[..n], train)
  {
  }

  lemma {:induction false} JoinedTrain(olds: seq<Arrival>, mine: seq<Done>, train: seq<Packet>)
    requires FollowsTrain(mine, train) && |mine| > 0 && Datagram.Marked(train)
    requires olds != [] ==> Breaks(olds[|olds| - 1], Arrivals(mine)[0])
    ensures Joined(olds + Arrivals(mine)) == Payloads(train[..|mine|])
  {
    hide Joined, Payloads;
    WholeRun(olds, Arrivals(mine));
    assert PacketsOf(Arrivals(mine)) == train[..|mine|];
  }

  lemma {:induction false} MineAreOf(ds: seq<Done>, k: MessageKey, from: nat, to: nat)
    ensures forall d :: d in Filter(DoneOf(k, from, to), ds) ==> d.task.pkt.Key() == k
  {
    FilterMember(DoneOf(k, from, to), ds);
  }

  /** What reassembly says on a packet of a train, given the packets of it seen so far. */
  lemma {:induction false} TrainOutcome(ds: seq<Done>, k: MessageKey, from: nat, to: nat, train: seq<Packet>, payload: seq<byte>)
    requires Train(train, k, payload) && 0 < |ds| && DoneOf(k, from, to)(ds[|ds| - 1])
    requires FollowsTrain(Filter(DoneOf(k, from, to), ds), train)
    requires Rising(ds, k) && (Datagram.Marked(train) ==> Separate(ds, k, from, to))
    ensures Completed(Arrivals(ds)) == if |Filter(DoneOf(k, from, to), ds)| == |train| then Some(payload) else None
  {
    hide Filter, Joined, FragmentsOf, Payloads, Rising;
    var mine := Filter(DoneOf(k, from, to), ds);
    var last := ds[|ds| - 1];
    FilterLast(DoneOf(k, from, to), ds);
    if Datagram.Marked(train) {
      MineAreOf(ds, k, from, to);
      AllFragments(mine, k);
      LastIsLatest(ds, k, to);
      FragmentsSplit(ds, k, from, to);
      JoinedTrain(FragmentsIn(DoneBefore(k, from), ds, k), mine, train);
      assert train[..|train|] == train;
    } else {
      assert train == [last.task.pkt];
      PayloadsOne(last.task.pkt);
    }
  }

  /** The fate of a message's packets: each absorbed but the last, which forwards the payload. */
  ghost predicate DeliveredOnLast(mine: seq<Done>, train: seq<Packet>, payload: seq<byte>) {
    && |mine| <= |train|
    && forall i :: 0 <= i < |mine| ==>
         && mine[i].task.pkt == train[i]
         && mine[i].status == (if i == |train| - 1 then Forwarded else Absorbed)
         && mine[i].out == (if i == |train| - 1 then Some(payload) else None)
  }

  /** What holds of all that was processed holds up to any packet of the message. */
  lemma {:induction false} UpToPacket(ds: seq<Done>, k: MessageKey, from: nat, to: nat, i: nat, j: nat)
    requires Rising(ds, k) && j < |ds| && DoneOf(k, from, to)(ds[j])
    requires i < |Filter(DoneOf(k, from, to), ds)|
    requires Filter(DoneOf(k, from, to), ds[..j + 1]) == Filter(DoneOf(k, from, to), ds)[..i + 1]
    ensures Rising(ds[..j + 1], k)
    ensures Separate(ds, k, from, to) ==> Separate(ds[..j + 1], k, from, to)
  {
    hide Filter, FragmentsOf;
    OldsAreFirst(ds, k, from, to, j);
  }

  lemma {:induction false} OutIsCompleted(parts: Parts, processed: seq<Done>, j: nat)
    requires Remembered(parts, processed) && j < |processed|
    ensures processed[j].out == Completed(Arrivals(processed[..j + 1]))
  {
    hide Completed, Play;
  }

  lemma {:induction false} OutcomeAt(
    parts: Parts, processed: seq<Done>, k: MessageKey, from: nat, to: nat, train: seq<Packet>, payload: seq<byte>, i: nat)
    requires Remembered(parts, processed) && Train(train, k, payload)
    requires Rising(processed, k) && (Datagram.Marked(train) ==> Separate(processed, k, from, to))
    requires FollowsTrain(Filter(DoneOf(k, from, to), processed), train) && i < |Filter(DoneOf(k, from, to), processed)|
    ensures Filter(DoneOf(k, from, to), processed)[i].out == if i == |train| - 1 then Some(payload) else None
  {
    hide Filter, Completed, Train, Remembered, Separate, Rising, FollowsTrain, Marked;
    var mine := Filter(DoneOf(k, from, to), processed);
    var j := FilterPosition(DoneOf(k, from, to), processed, i);
    OutIsCompleted(parts, processed, j);
    FollowsPrefix(mine, train, i + 1);
    UpToPacket(processed, k, from, to, i, j);
    TrainOutcome(processed[..j + 1], k, from, to, train, payload);
  }

  lemma {:induction false} UndisturbedFollows(
    s: State, c: Config, k: MessageKey, from: nat, to: nat, train: seq<Packet>, payload: seq<byte>)
    requires c.Valid() && Inv(s, c) && Undisturbed(s, k, from, to, train, payload)
    ensures FollowsTrain(Filter(DoneOf(k, from, to), s.processed), train) && Rising(s.processed, k)
    ensures Datagram.Marked(train) ==> Separate(s.processed, k, from, to)
    ensures Served(Filter(DoneOf(k, from, to), s.processed), |train|, payload)
  {
    ProcessedIsPrefix(s, k, from, to, train, payload, c);
    KeyRises(s, k, c);
    hide Filter, Ordered, Located, Remembered, Separate, Rising, Served, Received;
  }

  lemma {:induction false} DeliveredIn(
    s: State, c: Config, k: MessageKey, from: nat, to: nat, train: seq<Packet>, payload: seq<byte>)
    requires c.Valid() && Inv(s, c)
    requires Train(train, k, payload) && Undisturbed(s, k, from, to, train, payload)
    ensures DeliveredOnLast(Filter(DoneOf(k, from, to), s.processed), train, payload)
  {
    hide Filter, Train, Ordered, Located, Undisturbed, Remembered, Separate, Rising;
    UndisturbedFollows(s, c, k, from, to, train, payload);
    var mine := Filter(DoneOf(k, from, to), s.processed);
    forall i | 0 <= i < |mine|
      ensures mine[i].out == if i == |train| - 1 then Some(payload) else None
      ensures mine[i].status == if i == |train| - 1 then Forwarded else Absorbed
    {
      OutcomeAt(s.parts, s.processed, k, from, to, train, payload, i);
      var j := FilterPosition(DoneOf(k, from, to), s.processed, i);
      StatusOf(s, j, c);
    }
  }

  /** The fate of a processed task follows from what it completed and how the rest answered. */
  lemma {:induction false} StatusOf(s: State, j: nat, c: Config)
    requires c.Valid() && Inv(s, c) && j < |s.processed|
    ensures var d := s.processed[j];
            && (d.out.None? ==> d.status == Absorbed)
            && (d.out.Some? && (d.bytesOk || d.out.value == []) && d.flowOpen && d.writeOk ==> d.status == Forwarded)
  {
  }

  /** MAIN RESULT.  End to end, for one message and under every schedule that treats it as the
      hypotheses say, whatever other traffic does: every packet of the message but the last is
      absorbed, and the last one forwards the original payload, exactly once. */
  lemma {:induction false} EndToEnd(
    steps: seq<Step>, c: Config, k: MessageKey, from: nat, to: nat, train: seq<Packet>, payload: seq<byte>)
    requires c.Valid() && Exec(steps, c).Some?
    requires Train(train, k, payload) && Undisturbed(Exec(steps, c).value, k, from, to, train, payload)
    ensures DeliveredOnLast(Filter(DoneOf(k, from, to), Exec(steps, c).value.processed), train, payload)
  {
    AlwaysInv(steps, c);
    hide Exec, Train, Undisturbed, DeliveredOnLast, Inv;
    DeliveredIn(Exec(steps, c).value, c, k, from, to, train, payload);
  }

  /** And when the whole message has arrived, it has been delivered if and only if none of its packets
      still waits in the queue of its flow or in the hand of that queue's worker. */
  lemma {:induction false} DeliveredOnceDrained(
    steps: seq<Step>, c: Config, k: MessageKey, from: nat, to: nat, train: seq<Packet>, payload: seq<byte>)
    requires c.Valid() && Exec(steps, c).Some?
    requires Undisturbed(Exec(steps, c).value, k, from, to, train, payload)
    requires Received(Exec(steps, c).value.raws[from..to], k) == train
    ensures var s := Exec(steps, c).value;
            |Filter(DoneOf(k, from, to), s.processed)| == |train| <==> Waiting(s, k, from, to, c) == []
  {
    AlwaysInv(steps, c);
    hide Exec, Received, Undisturbed, Inv;
    ProcessedIsPrefix(Exec(steps, c).value, k, from, to, train, payload, c);
  }

  lemma {:induction false} ReceivedDecodes(raws: seq<seq<byte>>, k: MessageKey)
    ensures var mine := Filter(Carries(k), raws);
            && |Received(raws, k)| == |mine|
            && forall i :: 0 <= i < |mine| ==> Decode(mine[i]) == Ok(Received(raws, k)[i])
  {
    if raws != [] {
      hide Decode;
      ReceivedDecodes(raws[..|raws| - 1], k);
    }
  }

  /** The same from the sender's payload: the datagrams the fragmenter makes of it, received in order
      so far among any others. */
  lemma {:induction false} FragmentedMessageArrives(
    steps: seq<Step>, c: Config, flow: uint64, seqNo: uint32, from: nat, to: nat,
    payload: seq<byte>, maxDatagramPayload: nat)
    requires c.Valid() && Exec(steps, c).Some? && maxDatagramPayload > HEADER_SIZE
    requires var s := Exec(steps, c).value;
             var k := MessageKey(flow, seqNo);
             var sent := EncodeAll(Fragments(flow, seqNo, payload, maxDatagramPayload - HEADER_SIZE));
             && from <= to <= |s.raws|
             && Filter(Carries(k), s.raws[from..to]) <= sent
             && Unharmed(s, k, from, to)
             && Served(Filter(DoneOf(k, from, to), s.processed), |sent|, payload)
             && (|payload| > maxDatagramPayload - HEADER_SIZE ==> Separate(s.processed, k, from, to))
    ensures var s := Exec(steps, c).value;
            var k := MessageKey(flow, seqNo);
            var train := Fragments(flow, seqNo, payload, maxDatagramPayload - HEADER_SIZE);
            DeliveredOnLast(Filter(DoneOf(k, from, to), s.processed), train, payload)
  {
    var s := Exec(steps, c).value;
    var k := MessageKey(flow, seqNo);
    var train := Fragments(flow, seqNo, payload, maxDatagramPayload - HEADER_SIZE);
    hide Exec, Fragments, Train, Filter, Received, Decode, Encode, Separate, Unharmed, Served, Marked, DeliveredOnLast,
         EncodeAll;
    FragmentsTrain(flow, seqNo, payload, maxDatagramPayload);
    FragmentSizes(flow, seqNo, payload, maxDatagramPayload - HEADER_SIZE);
    SentIsReceived(s.raws[from..to], k, train);
    EndToEnd(steps, c, k, from, to, train, payload);
  }

  lemma {:induction false} SentIsReceived(raws: seq<seq<byte>>, k: MessageKey, train: seq<Packet>)
    requires Filter(Carries(k), raws) <= EncodeAll(train)
    ensures Received(raws, k) <= train
  {
    ReceivedDecodes(raws, k);
    hide Filter, Received, Decode, Encode;
    forall i | 0 <= i < |Received(raws, k)|
      ensures Received(raws, k)[i] == train[i]
    {
      DecodeEncode(train[i]);
    }
  }
}
