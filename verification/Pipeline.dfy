/**
 The session's datagram pipeline as a step system: a reader that decodes, admits and shards datagrams
 onto bounded worker queues, and workers that reassemble and forward them.  Steps of different
 goroutines interleave arbitrarily.  Receiving a datagram, taking a task off a queue, and throwing one
 away are one channel operation each; finishing a task is its locked reassembly together with what the
 worker makes of the outcome.  The packet budget, the byte budget, the flow lookup and the socket write
 are inputs of a step.
 */
module Pipeline {
  import opened Wrappers
  import opened Arith
  import opened Bytes
  import opened Datagram
  import opened Reassembly

  // ---------------------------------------------------------------- configuration

  datatype Config = Config(workers: nat, perWorker: nat) {
    predicate Valid() {
      workers > 0
    }
  }

  /** Places for each of `w` workers out of `q`, and never fewer than 64. */
  function Places(q: nat, w: nat): (n: nat)
    requires w > 0
    ensures n >= 64
  {
    if q / w < 64 then 64 else q / w
  }

  /** Queue sizing, with one worker and 1024 places in all as defaults. */
  function Sizing(workers: int, queue: int): (c: Config)
    ensures c.Valid() && c.perWorker >= 64
    ensures c.workers == if workers > 0 then workers else 1
  {
    var w: nat := if workers <= 0 then 1 else workers;
    var q: nat := if queue <= 0 then 1024 else queue;
    Config(w, Places(q, w))
  }

  /** Above that minimum the places do not exceed the queue size asked for, or 1024 by default, and one
      more place for each worker would. */
  lemma {:induction false} SizingIsTight(workers: int, queue: int)
    ensures var c := Sizing(workers, queue);
            var q := if queue > 0 then queue else 1024;
            && (c.perWorker > 64 ==> c.workers * c.perWorker <= q)
            && c.workers * c.perWorker + c.workers > q
  {
    hide Places;
    var w: nat := if workers <= 0 then 1 else workers;
    var q: nat := if queue <= 0 then 1024 else queue;
    PlacesAreTight(q, w);
  }

  lemma {:induction false} PlacesAreTight(q: nat, w: nat)
    requires w > 0
    ensures Places(q, w) > 64 ==> w * Places(q, w) <= q
    ensures w * Places(q, w) + w > q
  {
    DivBounds(q, w);
    if q / w < 64 {
      MoreIsMore(w, q / w, 64);
    }
  }

  // ---------------------------------------------------------------- states and steps

  /** What has become of a received datagram. */
  datatype Status =
    | ParseFail | OverPps | QueueFull
    | Queued | InHand | Drained
    | Absorbed | OverBytes | FlowMissing | WriteFail | Forwarded
  {
    /** The datagram never reached a queue. */
    predicate Refused() {
      ParseFail? || OverPps? || QueueFull?
    }

    /** A worker has run the datagram through reassembly. */
    predicate Processed() {
      !Refused() && !Queued? && !InHand? && !Drained?
    }
  }

  datatype Task = Task(id: nat, pkt: Packet)

  /** A finished task: when, what reassembly made of it, its fate, and how the byte budget, the flow
      lookup and the socket answered or would have. */
  datatype Done = Done(
    task: Task, now: int, out: Option<seq<byte>>, status: Status, bytesOk: bool, flowOpen: bool, writeOk: bool)

  /** A worker's hand holds the task it has taken and not finished, if any.
      `raws`, `enqueued`, `drained` and `processed` are histories; datagrams are numbered in the order
      received, and `status` is indexed by that number. */
  datatype State = State(
    raws: seq<seq<byte>>,
    status: seq<Status>,
    enqueued: seq<Task>,
    queues: seq<seq<Task>>,
    hands: seq<seq<Task>>,
    draining: seq<bool>,
    drained: seq<seq<Task>>,
    parts: Parts,
    processed: seq<Done>)

  datatype Step =
    | Receive(raw: seq<byte>, admitted: bool)
    | Take(w: nat)
    | Finish(w: nat, now: int, bytesOk: bool, flowOpen: bool, writeOk: bool)
    | BeginDrain(w: nat)
    | DrainOne(w: nat)

  function Init(c: Config): State {
    State([], [], [], seq(c.workers, i => []), seq(c.workers, i => []), seq(c.workers, i => false),
          seq(c.workers, i => []), map[], [])
  }

  function ShardOf(p: Packet, c: Config): (w: nat)
    requires c.Valid()
    ensures w < c.workers
  {
    p.flow % c.workers
  }

  /** Where a datagram goes on receipt. */
  function Admission(s: State, raw: seq<byte>, admitted: bool, c: Config): (r: Status)
    requires c.Valid() && |s.queues| == c.workers
    ensures r.Refused() || r.Queued?
    ensures r.ParseFail? <==> Decode(raw).Err?
  {
    if Decode(raw).Err? then ParseFail
    else if !admitted then OverPps
    else if |s.queues[ShardOf(Decode(raw).value, c)]| >= c.perWorker then QueueFull
    else Queued
  }

  /** What a worker makes of the outcome of reassembly.  An empty payload passes any byte budget. */
  function Outcome(out: Option<seq<byte>>, bytesOk: bool, flowOpen: bool, writeOk: bool): (r: Status)
    ensures r.Processed()
    ensures r.Absorbed? <==> out.None?
    ensures r.Forwarded? <==> out.Some? && (bytesOk || out.value == []) && flowOpen && writeOk
    ensures r.OverBytes? <==> out.Some? && !bytesOk && out.value != []
    ensures r.FlowMissing? ==> !flowOpen
    ensures r.WriteFail? ==> flowOpen && !writeOk
  {
    if out.None? then Absorbed
    else if !bytesOk && out.value != [] then OverBytes
    else if !flowOpen then FlowMissing
    else if !writeOk then WriteFail
    else Forwarded
  }

  /** One record per received datagram, one queue per worker, and only received datagrams queued. */
  ghost predicate WellFormed(s: State, c: Config) {
    && |s.status| == |s.raws|
    && |s.queues| == |s.hands| == |s.draining| == |s.drained| == c.workers
    && (forall w, i :: 0 <= w < c.workers && 0 <= i < |s.queues[w]| ==> s.queues[w][i].id < |s.raws|)
    && (forall w, i :: 0 <= w < c.workers && 0 <= i < |s.hands[w]| ==> s.hands[w][i].id < |s.raws|)
  }

  /** A worker has at most one task in hand, and begins to drain with none, after which it takes no
      more; reassembly reads a clock that does not run backwards. */
  ghost predicate Enabled(s: State, step: Step, c: Config)
    requires WellFormed(s, c)
  {
    match step
    case Receive(_, _) => true
    case Take(w) => w < c.workers && s.queues[w] != [] && s.hands[w] == [] && !s.draining[w]
    case Finish(w, now, _, _, _) =>
      && w < c.workers && s.hands[w] != []
      && (s.processed != [] ==> s.processed[|s.processed| - 1].now <= now)
    case BeginDrain(w) => w < c.workers && s.hands[w] == []
    case DrainOne(w) => w < c.workers && s.queues[w] != [] && s.draining[w]
  }

  function DoReceive(s: State, raw: seq<byte>, admitted: bool, c: Config): State
    requires c.Valid() && |s.queues| == c.workers
  {
    var st := Admission(s, raw, admitted, c);
    var s' := s.(raws := s.raws + [raw], status := s.status + [st]);
    if st.Queued? then
      var task := Task(|s.raws|, Decode(raw).value);
      var w := ShardOf(task.pkt, c);
      s'.(enqueued := s.enqueued + [task], queues := s.queues[w := s.queues[w] + [task]])
    else s'
  }

  function DoTake(s: State, w: nat): State
    requires w < |s.queues| && w < |s.hands| && s.queues[w] != [] && s.queues[w][0].id < |s.status|
  {
    var task := s.queues[w][0];
    s.(queues := s.queues[w := s.queues[w][1..]],
       status := s.status[task.id := InHand],
       hands := s.hands[w := [task]])
  }

  function DoFinish(s: State, w: nat, now: int, bytesOk: bool, flowOpen: bool, writeOk: bool): State
    requires w < |s.hands| && s.hands[w] != [] && s.hands[w][0].id < |s.status|
  {
    var task := s.hands[w][0];
    var (parts, out) := AddTo(s.parts, task.pkt, now);
    var st := Outcome(out, bytesOk, flowOpen, writeOk);
    s.(hands := s.hands[w := s.hands[w][1..]],
       status := s.status[task.id := st],
       parts := parts,
       processed := s.processed + [Done(task, now, out, st, bytesOk, flowOpen, writeOk)])
  }

  function DoDrain(s: State, w: nat): State
    requires w < |s.queues| && w < |s.drained| && s.queues[w] != [] && s.queues[w][0].id < |s.status|
  {
    var task := s.queues[w][0];
    s.(queues := s.queues[w := s.queues[w][1..]],
       status := s.status[task.id := Drained],
       drained := s.drained[w := s.drained[w] + [task]])
  }

  ghost function Next(s: State, step: Step, c: Config): (s': State)
    requires c.Valid() && WellFormed(s, c) && Enabled(s, step, c)
    ensures WellFormed(s', c)
  {
    match step
    case Receive(raw, admitted) => DoReceive(s, raw, admitted, c)
    case Take(w) => DoTake(s, w)
    case Finish(w, now, bytesOk, flowOpen, writeOk) => DoFinish(s, w, now, bytesOk, flowOpen, writeOk)
    case BeginDrain(w) => s.(draining := s.draining[w := true])
    case DrainOne(w) => DoDrain(s, w)
  }

  /** The state a schedule leads to, when every step of it is enabled in turn. */
  ghost function Exec(steps: seq<Step>, c: Config): (r: Option<State>)
    requires c.Valid()
    ensures r.Some? ==> WellFormed(r.value, c)
  {
    if steps == [] then Some(Init(c))
    else
      var r := Exec(steps[..|steps| - 1], c);
      var step := steps[|steps| - 1];
      if r.Some? && Enabled(r.value, step, c) then Some(Next(r.value, step, c)) else None
  }
}
