/** The pipeline as the session runs it: real queues, the shared assembler, and drop counters. */
module DatagramSession {
  import opened Wrappers
  import opened Bytes
  import opened Datagram
  import opened Seqs
  import opened Reassembly
  import opened Pipeline
  import opened PipelineInvariant
  import opened Delivery

  // ---------------------------------------------------------------- accounting by number

  /** The total over all classes is the number of datagrams received. */
  lemma {:induction false} ClassesAddUp(status: seq<Status>)
    ensures Count(status, ParseFail) + Count(status, OverPps) + Count(status, QueueFull)
            + Count(status, Queued) + Count(status, InHand) + Count(status, Drained)
            + Count(status, Absorbed) + Count(status, OverBytes) + Count(status, FlowMissing)
            + Count(status, WriteFail) + Count(status, Forwarded) == |status|
  {
    hide Count;
    if status == [] {
      NoneCounted();
    } else {
      var init, last := status[..|status| - 1], status[|status| - 1];
      ClassesAddUp(init);
      assert status == init + [last];
      CountSnoc(init, last, ParseFail);
      CountSnoc(init, last, OverPps);
      CountSnoc(init, last, QueueFull);
      CountSnoc(init, last, Queued);
      CountSnoc(init, last, InHand);
      CountSnoc(init, last, Drained);
      CountSnoc(init, last, Absorbed);
      CountSnoc(init, last, OverBytes);
      CountSnoc(init, last, FlowMissing);
      CountSnoc(init, last, WriteFail);
      CountSnoc(init, last, Forwarded);
      assert last.Refused() || last.Queued? || last.InHand? || last.Drained?
          || last.Absorbed? || last.OverBytes? || last.FlowMissing? || last.WriteFail? || last.Forwarded?;
    }
  }

  function ProcessedCount(status: seq<Status>): nat {
    Count(status, Absorbed) + Count(status, OverBytes) + Count(status, FlowMissing)
    + Count(status, WriteFail) + Count(status, Forwarded)
  }

  lemma {:induction false} ProcessedSnoc(status: seq<Status>, st: Status)
    requires !st.Processed()
    ensures ProcessedCount(status + [st]) == ProcessedCount(status)
  {
    hide Count;
    CountSnoc(status, st, Absorbed);
    CountSnoc(status, st, OverBytes);
    CountSnoc(status, st, FlowMissing);
    CountSnoc(status, st, WriteFail);
    CountSnoc(status, st, Forwarded);
  }

  lemma {:induction false} ProcessedUpdate(status: seq<Status>, id: nat, st: Status)
    requires id < |status| && (status[id].Queued? || status[id].InHand?)
    requires st.InHand? || st.Drained? || st.Processed()
    ensures ProcessedCount(status[id := st]) == ProcessedCount(status) + if st.Processed() then 1 else 0
  {
    hide Count;
    CountUpdate(status, id, st, Absorbed);
    CountUpdate(status, id, st, OverBytes);
    CountUpdate(status, id, st, FlowMissing);
    CountUpdate(status, id, st, WriteFail);
    CountUpdate(status, id, st, Forwarded);
    assert st.InHand? || st.Drained?
        || st.Absorbed? || st.OverBytes? || st.FlowMissing? || st.WriteFail? || st.Forwarded?;
  }

  /** As many datagrams have each status as there are in the place it stands for. */
  ghost predicate Tallied(s: State) {
    && Count(s.status, Queued) == TotalLength(s.queues)
    && Count(s.status, InHand) == TotalLength(s.hands)
    && Count(s.status, Drained) == TotalLength(s.drained)
    && ProcessedCount(s.status) == |s.processed|
  }

  lemma {:induction false} StatusMoves(status: seq<Status>, id: nat, st: Status)
    requires id < |status|
    ensures forall x: Status :: x == Queued || x == InHand || x == Drained ==>
              Count(status[id := st], x)
              == Count(status, x) - (if x == status[id] then 1 else 0) + (if x == st then 1 else 0)
  {
    hide Count;
    CountUpdate(status, id, st, Queued);
    CountUpdate(status, id, st, InHand);
    CountUpdate(status, id, st, Drained);
  }

  lemma {:induction false} StepTally(s: State, step: Step, c: Config)
    requires c.Valid() && Inv(s, c) && Enabled(s, step, c) && Tallied(s)
    ensures Tallied(Next(s, step, c))
  {
    hide Ordered, Remembered, AddTo, Decode, ShardOf, Count, TotalLength, ProcessedCount;
    match step
    case Receive(raw, admitted) =>
      var st := Admission(s, raw, admitted, c);
      CountSnoc(s.status, st, Queued);
      CountSnoc(s.status, st, InHand);
      CountSnoc(s.status, st, Drained);
      ProcessedSnoc(s.status, st);
      if st.Queued? {
        var w := ShardOf(Decode(raw).value, c);
        TotalLengthUpdate(s.queues, w, s.queues[w] + [Task(|s.raws|, Decode(raw).value)]);
      }
    case Take(w) =>
      StatusMoves(s.status, s.queues[w][0].id, InHand);
      ProcessedUpdate(s.status, s.queues[w][0].id, InHand);
      TotalLengthUpdate(s.queues, w, s.queues[w][1..]);
      TotalLengthUpdate(s.hands, w, [s.queues[w][0]]);
    case Finish(w, _, _, _, _) =>
      var id := s.hands[w][0].id;
      StatusMoves(s.status, id, Next(s, step, c).status[id]);
      ProcessedUpdate(s.status, id, Next(s, step, c).status[id]);
      TotalLengthUpdate(s.hands, w, s.hands[w][1..]);
    case BeginDrain(w) =>
    case DrainOne(w) =>
      StatusMoves(s.status, s.queues[w][0].id, Drained);
      ProcessedUpdate(s.status, s.queues[w][0].id, Drained);
      TotalLengthUpdate(s.queues, w, s.queues[w][1..]);
      TotalLengthUpdate(s.drained, w, s.drained[w] + [s.queues[w][0]]);
  }

  lemma {:induction false} QueuedTally(steps: seq<Step>, c: Config)
    requires c.Valid() && Exec(steps, c).Some?
    ensures Tallied(Exec(steps, c).value)
  {
    if steps == [] {
      TotalLengthZero(Init(c).queues);
      TotalLengthZero(Init(c).hands);
      TotalLengthZero(Init(c).drained);
    } else {
      var init := steps[..|steps| - 1];
      QueuedTally(init, c);
      AlwaysInv(init, c);
      StepTally(Exec(init, c).value, steps[|steps| - 1], c);
    }
  }

  /** MAIN RESULT.  Conservation: under every schedule the datagrams received are those refused, by the
      three counts, and those in the queues, in the workers' hands, drained, and processed. */
  lemma {:induction false} NoneUnaccounted(steps: seq<Step>, c: Config)
    requires c.Valid() && Exec(steps, c).Some?
    ensures var s := Exec(steps, c).value;
            |s.raws| == Count(s.status, ParseFail) + Count(s.status, OverPps) + Count(s.status, QueueFull)
                        + TotalLength(s.queues) + TotalLength(s.hands) + TotalLength(s.drained) + |s.processed|
  {
    hide Exec, Count, TotalLength;
    QueuedTally(steps, c);
    ClassesAddUp(Exec(steps, c).value.status);
  }

  // ---------------------------------------------------------------- the session's own state

  /** The session's own lists hold the packets of the tasks. */
  ghost predicate Mirrors(qs: seq<seq<Packet>>, tasks: seq<seq<Task>>) {
    |qs| == |tasks| && forall w :: 0 <= w < |qs| ==> qs[w] == Pkts(tasks[w])
  }

  lemma {:induction false} MirrorsLength(qs: seq<seq<Packet>>, tasks: seq<seq<Task>>)
    requires Mirrors(qs, tasks)
    ensures |qs| == |tasks|
  {
  }

  lemma {:induction false} MirrorsPop(qs: seq<seq<Packet>>, tasks: seq<seq<Task>>, w: nat)
    requires Mirrors(qs, tasks) && w < |tasks| && tasks[w] != []
    ensures |qs| == |tasks| && qs[w] != [] && qs[w][0] == tasks[w][0].pkt
    ensures Mirrors(qs[w := qs[w][1..]], tasks[w := tasks[w][1..]])
  {
  }

  lemma {:induction false} MirrorsPush(qs: seq<seq<Packet>>, tasks: seq<seq<Task>>, w: nat, t: Task)
    requires Mirrors(qs, tasks) && w < |tasks|
    ensures |qs| == |tasks| && |qs[w]| == |tasks[w]|
    ensures Mirrors(qs[w := qs[w] + [t.pkt]], tasks[w := tasks[w] + [t]])
  {
  }

  /** The session's drop counters, and what it has forwarded. */
  datatype Counters = Counters(
    parse: nat, budget: nat, queueFull: nat, flowMissing: nat, writeFail: nat, forwarded: nat)

  /** The counters as a tally of what became of the datagrams. */
  function TallyOf(status: seq<Status>): Counters {
    Counters(Count(status, ParseFail), Count(status, OverPps) + Count(status, OverBytes), Count(status, QueueFull),
             Count(status, FlowMissing), Count(status, WriteFail), Count(status, Forwarded))
  }

  function Bump(c: Counters, st: Status): Counters {
    match st
    case ParseFail => c.(parse := c.parse + 1)
    case OverPps => c.(budget := c.budget + 1)
    case OverBytes => c.(budget := c.budget + 1)
    case QueueFull => c.(queueFull := c.queueFull + 1)
    case FlowMissing => c.(flowMissing := c.flowMissing + 1)
    case WriteFail => c.(writeFail := c.writeFail + 1)
    case Forwarded => c.(forwarded := c.forwarded + 1)
    case _ => c
  }

  lemma {:induction false} TallySnoc(status: seq<Status>, st: Status)
    ensures TallyOf(status + [st]) == Bump(TallyOf(status), st)
  {
    hide Count;
    CountSnoc(status, st, ParseFail);
    CountSnoc(status, st, OverPps);
    CountSnoc(status, st, OverBytes);
    CountSnoc(status, st, QueueFull);
    CountSnoc(status, st, FlowMissing);
    CountSnoc(status, st, WriteFail);
    CountSnoc(status, st, Forwarded);
  }

  lemma {:induction false} TallyUpdate(status: seq<Status>, id: nat, st: Status)
    requires id < |status| && (status[id].Queued? || status[id].InHand?)
    ensures TallyOf(status[id := st]) == Bump(TallyOf(status), st)
  {
    hide Count;
    CountUpdate(status, id, st, ParseFail);
    CountUpdate(status, id, st, OverPps);
    CountUpdate(status, id, st, OverBytes);
    CountUpdate(status, id, st, QueueFull);
    CountUpdate(status, id, st, FlowMissing);
    CountUpdate(status, id, st, WriteFail);
    CountUpdate(status, id, st, Forwarded);
  }

  class Session {
    const workerCount: nat
    const perWorker: nat
    var datagramQueues: seq<seq<Packet>>
    /** The packet each worker goroutine is busy with, if any. */
    var inHand: seq<seq<Packet>>
    var draining: seq<bool>
    const reassembly: Assembler

    var dropParse: nat
    var dropBudget: nat
    var dropQueueFull: nat
    var dropFlowMissing: nat
    var dropWriteFail: nat
    var forwarded: nat

    /** The pipeline state this session is in, with its histories. */
    ghost var model: State

    ghost function Cfg(): Config {
      Config(workerCount, perWorker)
    }

    ghost predicate Valid()
      reads this, reassembly
    {
      && workerCount > 0
      && Inv(model, Cfg())
      && reassembly.Valid()
      && reassembly.flat == model.parts
      && draining == model.draining
      && Mirrors(datagramQueues, model.queues)
      && Mirrors(inHand, model.hands)
      && CountersAgree()
    }

    ghost predicate CountersAgree()
      reads this
    {
      Counters(dropParse, dropBudget, dropQueueFull, dropFlowMissing, dropWriteFail, forwarded)
      == TallyOf(model.status)
    }

    constructor (workers: int, queue: int)
      ensures Valid() && model == Init(Cfg()) && Cfg() == Sizing(workers, queue)
      ensures fresh(reassembly)
    {
      var c := Sizing(workers, queue);
      workerCount, perWorker := c.workers, c.perWorker;
      datagramQueues := seq(c.workers, i => []);
      inHand := seq(c.workers, i => []);
      draining := seq(c.workers, i => false);
      reassembly := new Assembler();
      dropParse, dropBudget, dropQueueFull, dropFlowMissing, dropWriteFail, forwarded := 0, 0, 0, 0, 0, 0;
      model := Init(c);
      new;
      InitInv(Cfg());
    }

    /** One turn of the reader: decode, admit, and offer to the queue of the flow without waiting. */
    method ReadOne(raw: seq<byte>, admitted: bool)
      requires Valid()
      modifies this
      ensures Valid() && model == Next(old(model), Receive(raw, admitted), Cfg())
      ensures dropParse == old(dropParse) + if |raw| < 13 then 1 else 0
      ensures dropBudget == old(dropBudget) + if |raw| >= 13 && !admitted then 1 else 0
      ensures |raw| < 13 || !admitted ==> datagramQueues == old(datagramQueues) && dropQueueFull == old(dropQueueFull)
      ensures |raw| >= 13 && admitted ==>
                var pkt := Decode(raw).value;
                var w := ShardOf(pkt, Cfg());
                && |old(datagramQueues)| == workerCount
                && var full := |old(datagramQueues)[w]| >= perWorker;
                && dropQueueFull == old(dropQueueFull) + (if full then 1 else 0)
                && datagramQueues == if full then old(datagramQueues)
                                     else old(datagramQueues)[w := old(datagramQueues)[w] + [pkt]]
      ensures dropFlowMissing == old(dropFlowMissing) && dropWriteFail == old(dropWriteFail)
      ensures forwarded == old(forwarded)
    {
      hide Ordered, Located, Remembered, Decode, ShardOf, TallyOf, Mirrors;
      MirrorsLength(datagramQueues, model.queues);
      ghost var st := Admission(model, raw, admitted, Cfg());
      StepKeeps(model, Receive(raw, admitted), Cfg());
      TallySnoc(model.status, st);
      model := Next(model, Receive(raw, admitted), Cfg());
      var r := Decode(raw);
      if r.Err? {
        dropParse := dropParse + 1;
        return;
      }
      if !admitted {
        dropBudget := dropBudget + 1;
        return;
      }
      var w := ShardOf(r.value, Config(workerCount, perWorker));
      MirrorsPush(datagramQueues, old(model).queues, w, Task(|old(model).raws|, r.value));
      if |datagramQueues[w]| < perWorker {
        datagramQueues := datagramQueues[w := datagramQueues[w] + [r.value]];
      } else {
        dropQueueFull := dropQueueFull + 1;
      }
    }

    /** A worker takes the next task off its queue. */
    method TakeOne(w: nat)
      requires Valid() && Enabled(model, Take(w), Cfg())
      modifies this
      ensures Valid() && model == Next(old(model), Take(w), Cfg())
    {
      hide Ordered, Located, Remembered, TallyOf, Lists, Mirrors;
      MirrorsPop(datagramQueues, model.queues, w);
      MirrorsPush(inHand, model.hands, w, model.queues[w][0]);
      assert model.hands[w] + [model.queues[w][0]] == [model.queues[w][0]];
      HeldStatus(model, w, Cfg());
      StepKeeps(model, Take(w), Cfg());
      TallyUpdate(model.status, model.queues[w][0].id, InHand);
      model := Next(model, Take(w), Cfg());
      var pkt := datagramQueues[w][0];
      datagramQueues := datagramQueues[w := datagramQueues[w][1..]];
      inHand := inHand[w := inHand[w] + [pkt]];
    }

    /** The rest of the worker's turn: reassemble, and forward what is complete. */
    method FinishOne(w: nat, now: int, bytesOk: bool, flowOpen: bool, writeOk: bool)
      returns (written: Option<seq<byte>>)
      requires Valid() && Enabled(model, Finish(w, now, bytesOk, flowOpen, writeOk), Cfg())
      modifies this, reassembly
      ensures Valid() && model == Next(old(model), Finish(w, now, bytesOk, flowOpen, writeOk), Cfg())
      ensures var d := model.processed[|old(model).processed|];
              written == if d.status == Forwarded then d.out else None
      ensures var out := Completed(Arrivals(old(model).processed) + [Arrival(old(model).hands[w][0].pkt, now)]);
              var kept := out.Some? && (bytesOk || out.value == []);
              && written == (if kept && flowOpen && writeOk then out else None)
              && dropBudget == old(dropBudget) + (if out.Some? && !kept then 1 else 0)
              && dropFlowMissing == old(dropFlowMissing) + (if kept && !flowOpen then 1 else 0)
              && dropWriteFail == old(dropWriteFail) + (if kept && flowOpen && !writeOk then 1 else 0)
              && forwarded == old(forwarded) + (if kept && flowOpen && writeOk then 1 else 0)
      ensures dropParse == old(dropParse) && dropQueueFull == old(dropQueueFull)
    {
      hide Ordered, Located, Remembered, AddTo, TallyOf, Lists, Mirrors, Completed;
      AddCompletes(model, w, now, bytesOk, flowOpen, writeOk, Cfg());
      MirrorsPop(inHand, model.hands, w);
      ghost var step := Finish(w, now, bytesOk, flowOpen, writeOk);
      ghost var task := model.hands[w][0];
      HeldStatus(model, w, Cfg());
      StepKeeps(model, step, Cfg());
      TallyUpdate(model.status, task.id, Next(model, step, Cfg()).status[task.id]);
      model := Next(model, step, Cfg());
      var pkt := inHand[w][0];
      inHand := inHand[w := inHand[w][1..]];
      var payload, done := reassembly.Add(pkt, now);
      written := Forward(if done then Some(payload) else None, bytesOk, flowOpen, writeOk);
    }

    /** What the worker does with the outcome of reassembly. */
    method Forward(out: Option<seq<byte>>, bytesOk: bool, flowOpen: bool, writeOk: bool)
      returns (written: Option<seq<byte>>)
      modifies this`dropBudget, this`dropFlowMissing, this`dropWriteFail, this`forwarded
      ensures var kept := out.Some? && (bytesOk || out.value == []);
              && written == (if kept && flowOpen && writeOk then out else None)
              && dropBudget == old(dropBudget) + (if out.Some? && !kept then 1 else 0)
              && dropFlowMissing == old(dropFlowMissing) + (if kept && !flowOpen then 1 else 0)
              && dropWriteFail == old(dropWriteFail) + (if kept && flowOpen && !writeOk then 1 else 0)
              && forwarded == old(forwarded) + (if kept && flowOpen && writeOk then 1 else 0)
    {
      if out.None? {
        return None;
      }
      if !bytesOk && out.value != [] {
        dropBudget := dropBudget + 1;
        return None;
      }
      if !flowOpen {
        dropFlowMissing := dropFlowMissing + 1;
        return None;
      }
      if !writeOk {
        dropWriteFail := dropWriteFail + 1;
        return None;
      }
      forwarded := forwarded + 1;
      return out;
    }

    /** A worker notices that the session is over. */
    method StartDraining(w: nat)
      requires Valid() && Enabled(model, BeginDrain(w), Cfg())
      modifies this
      ensures Valid() && model == Next(old(model), BeginDrain(w), Cfg())
    {
      StepKeeps(model, BeginDrain(w), Cfg());
      model := Next(model, BeginDrain(w), Cfg());
      draining := draining[w := true];
    }

    /** One task thrown away at shutdown. */
    method DiscardOne(w: nat)
      requires Valid() && Enabled(model, DrainOne(w), Cfg())
      modifies this
      ensures Valid() && model == Next(old(model), DrainOne(w), Cfg())
    {
      hide Ordered, Located, Remembered, TallyOf, Lists, Mirrors;
      MirrorsPop(datagramQueues, model.queues, w);
      HeldStatus(model, w, Cfg());
      StepKeeps(model, DrainOne(w), Cfg());
      TallyUpdate(model.status, model.queues[w][0].id, Drained);
      model := Next(model, DrainOne(w), Cfg());
      datagramQueues := datagramQueues[w := datagramQueues[w][1..]];
    }
  }

  lemma {:induction false} HeldStatus(s: State, w: nat, c: Config)
    requires c.Valid() && Inv(s, c) && w < c.workers
    ensures s.queues[w] != [] ==> s.status[s.queues[w][0].id] == Queued
    ensures s.hands[w] != [] ==> s.status[s.hands[w][0].id] == InHand
  {
  }

  /** One step of the session.  `written` is what it sends to the flow. */
  method Perform(s: Session, step: Step) returns (written: Option<seq<byte>>)
    requires s.Valid() && Enabled(s.model, step, s.Cfg())
    modifies s, s.reassembly
    ensures s.Valid() && s.model == Next(old(s.model), step, s.Cfg())
    ensures written == if step.Finish? && s.model.processed[|old(s.model).processed|].status == Forwarded
                       then s.model.processed[|old(s.model).processed|].out else None
  {
    hide Inv, AddTo, Outcome, Mirrors, TallyOf;
    written := None;
    match step
    case Receive(raw, admitted) => s.ReadOne(raw, admitted);
    case Take(w) => s.TakeOne(w);
    case Finish(w, now, bytesOk, flowOpen, writeOk) => written := s.FinishOne(w, now, bytesOk, flowOpen, writeOk);
    case BeginDrain(w) => s.StartDraining(w);
    case DrainOne(w) => s.DiscardOne(w);
  }

  lemma {:induction false} ExecPrefix(steps: seq<Step>, i: nat, c: Config)
    requires c.Valid() && i <= |steps| && Exec(steps, c).Some?
    ensures Exec(steps[..i], c).Some?
    decreases |steps|
  {
    if i == |steps| {
      assert steps[..i] == steps;
    } else {
      var init := steps[..|steps| - 1];
      ExecPrefix(init, i, c);
      assert init[..i] == steps[..i];
    }
  }

  lemma {:induction false} ExecStep(steps: seq<Step>, i: nat, c: Config)
    requires c.Valid() && i < |steps| && Exec(steps, c).Some?
    ensures Exec(steps[..i], c).Some? && Enabled(Exec(steps[..i], c).value, steps[i], c)
    ensures Exec(steps[..i + 1], c) == Some(Next(Exec(steps[..i], c).value, steps[i], c))
  {
    ExecPrefix(steps, i + 1, c);
    assert steps[..i + 1][..i] == steps[..i];
  }

  /** Runs a whole schedule on a new session. */
  method Drive(steps: seq<Step>, workers: int, queue: int) returns (s: Session)
    requires Exec(steps, Sizing(workers, queue)).Some?
    ensures fresh(s) && s.Valid() && s.Cfg() == Sizing(workers, queue)
    ensures s.model == Exec(steps, s.Cfg()).value
  {
    hide Inv, Exec, Next, Enabled, Mirrors, TallyOf;
    s := new Session(workers, queue);
    ghost var c := s.Cfg();
    ExecPrefix(steps, 0, c);
    assert steps[..0] == [];
    StartsAtInit(c);
    for i := 0 to |steps|
      invariant fresh(s) && fresh(s.reassembly) && s.Valid()
      invariant Exec(steps[..i], c) == Some(s.model)
    {
      ExecStep(steps, i, c);
      var _ := Perform(s, steps[i]);
    }
    assert steps[..|steps|] == steps;
  }

  lemma {:induction false} StartsAtInit(c: Config)
    requires c.Valid()
    ensures Exec([], c) == Some(Init(c))
  {
  }

  lemma {:induction false} NoneCounted()
    ensures forall x: Status :: Count([], x) == 0
  {
  }
}
