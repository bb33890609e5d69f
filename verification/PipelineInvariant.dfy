/** What every step of the datagram pipeline keeps. */
module PipelineInvariant {
  import opened Wrappers
  import opened Bytes
  import opened Datagram
  import opened Seqs
  import opened Reassembly
  import opened Pipeline

  // ---------------------------------------------------------------- views of a state

  function OnWorker(w: nat, c: Config): Task -> bool
    requires c.Valid()
  {
    (t: Task) => ShardOf(t.pkt, c) == w
  }

  function Tasks(ds: seq<Done>): (ts: seq<Task>)
    ensures |ts| == |ds| && forall i :: 0 <= i < |ds| ==> ts[i] == ds[i].task
  {
    Map((d: Done) => d.task, ds)
  }

  function Arrivals(ds: seq<Done>): (h: seq<Arrival>)
    ensures |h| == |ds| && forall i :: 0 <= i < |ds| ==> h[i] == Arrival(ds[i].task.pkt, ds[i].now)
  {
    Map((d: Done) => Arrival(d.task.pkt, d.now), ds)
  }

  /** The datagrams that reached a queue, numbered, in the order received. */
  function Accepted(raws: seq<seq<byte>>, status: seq<Status>): (ts: seq<Task>)
    requires |raws| == |status|
  {
    if raws == [] then []
    else
      var n := |raws| - 1;
      var init := Accepted(raws[..n], status[..n]);
      if status[n].Refused() || Decode(raws[n]).Err? then init else init + [Task(n, Decode(raws[n]).value)]
  }

  lemma {:induction false} AcceptedSnoc(raws: seq<seq<byte>>, status: seq<Status>, raw: seq<byte>, st: Status)
    requires |raws| == |status|
    ensures Accepted(raws + [raw], status + [st]) ==
            if st.Refused() || Decode(raw).Err? then Accepted(raws, status)
            else Accepted(raws, status) + [Task(|raws|, Decode(raw).value)]
  {
    assert (raws + [raw])[..|raws|] == raws;
    assert (status + [st])[..|raws|] == status;
  }

  /** A datagram moving on from a queue does not change which were accepted. */
  lemma {:induction false} AcceptedUpdate(raws: seq<seq<byte>>, status: seq<Status>, id: nat, st: Status)
    requires |raws| == |status| && id < |raws|
    requires !status[id].Refused() && !st.Refused()
    ensures Accepted(raws, status[id := st]) == Accepted(raws, status)
  {
    var n := |raws| - 1;
    if id < n {
      AcceptedUpdate(raws[..n], status[..n], id, st);
      assert status[id := st][..n] == status[..n][id := st];
    } else {
      assert status[id := st][..n] == status[..n];
    }
  }

  ghost predicate Increasing(ts: seq<Task>) {
    forall i, j :: 0 <= i < j < |ts| ==> ts[i].id < ts[j].id
  }

  lemma {:induction false} AcceptedAre(raws: seq<seq<byte>>, status: seq<Status>)
    requires |raws| == |status|
    ensures var ts := Accepted(raws, status);
            && (forall i :: 0 <= i < |ts| ==>
                  ts[i].id < |raws| && !status[ts[i].id].Refused() && Decode(raws[ts[i].id]) == Ok(ts[i].pkt))
            && Increasing(ts)
            && (forall id :: 0 <= id < |raws| && !status[id].Refused() && Decode(raws[id]).Ok? ==>
                  Task(id, Decode(raws[id]).value) in ts)
  {
    if raws != [] {
      var n := |raws| - 1;
      AcceptedAre(raws[..n], status[..n]);
    }
  }

  // ---------------------------------------------------------------- the invariant

  /** Everything ever queued for worker `w`, wherever it is by now, oldest first. */
  function Lane(s: State, w: nat, c: Config): seq<Task>
    requires c.Valid() && w < |s.hands| && w < |s.drained| && w < |s.queues|
  {
    Filter(OnWorker(w, c), Tasks(s.processed)) + s.hands[w] + s.drained[w] + s.queues[w]
  }

  /** Each lane is what was enqueued for it, in order; a hand holds at most one task and none while
      draining, and nothing is drained before draining begins. */
  ghost predicate Ordered(s: State, c: Config)
    requires c.Valid() && WellFormed(s, c)
  {
    && s.enqueued == Accepted(s.raws, s.status)
    && (forall w :: 0 <= w < c.workers ==> Lane(s, w, c) == Filter(OnWorker(w, c), s.enqueued))
    && (forall w :: 0 <= w < c.workers ==> |s.hands[w]| <= 1)
    && (forall w :: 0 <= w < c.workers ==> if s.draining[w] then s.hands[w] == [] else s.drained[w] == [])
  }

  /** The tasks held in one kind of place are those with one status. */
  ghost predicate HeldMarked(held: seq<seq<Task>>, status: seq<Status>, st: Status) {
    forall w, i :: 0 <= w < |held| && 0 <= i < |held[w]| ==>
      held[w][i].id < |status| && status[held[w][i].id] == st
  }

  ghost predicate ProcessedMarked(ds: seq<Done>, status: seq<Status>) {
    forall i :: 0 <= i < |ds| ==>
      && ds[i].task.id < |status|
      && status[ds[i].task.id] == ds[i].status
      && ds[i].status.Processed()
      && ds[i].status == Outcome(ds[i].out, ds[i].bytesOk, ds[i].flowOpen, ds[i].writeOk)
  }

  ghost predicate ParseMarked(raws: seq<seq<byte>>, status: seq<Status>)
    requires |raws| == |status|
  {
    forall id :: 0 <= id < |raws| ==> (status[id] == ParseFail <==> Decode(raws[id]).Err?)
  }

  /** The status of a datagram says where it is. */
  ghost predicate Located(s: State, c: Config)
    requires WellFormed(s, c)
  {
    && HeldMarked(s.queues, s.status, Queued)
    && HeldMarked(s.hands, s.status, InHand)
    && HeldMarked(s.drained, s.status, Drained)
    && ProcessedMarked(s.processed, s.status)
    && ParseMarked(s.raws, s.status)
  }

  /** Reassembly has seen exactly the processed packets, and every outcome follows from them. */
  ghost predicate Remembered(parts: Parts, ds: seq<Done>) {
    && Monotone(Arrivals(ds))
    && parts == Play(Arrivals(ds))
    && forall i :: 0 <= i < |ds| ==> ds[i].out == Completed(Arrivals(ds[..i + 1]))
  }

  ghost predicate Inv(s: State, c: Config)
    requires c.Valid()
  {
    WellFormed(s, c) && Ordered(s, c) && Located(s, c) && Remembered(s.parts, s.processed)
  }

  lemma {:induction false} InitInv(c: Config)
    requires c.Valid()
    ensures Inv(Init(c), c)
  {
  }

  // ---------------------------------------------------------------- numbering

  lemma {:induction false} FilterIncreasing(p: Task -> bool, ts: seq<Task>)
    requires Increasing(ts)
    ensures Increasing(Filter(p, ts))
  {
    if ts != [] {
      var init, last := ts[..|ts| - 1], ts[|ts| - 1];
      FilterIncreasing(p, init);
      FilterMember(p, init);
      var kept := Filter(p, init);
      forall i | 0 <= i < |kept|
        ensures kept[i].id < last.id
      {
        assert kept[i] in init;
      }
    }
  }

  /** What sits in a hand or a queue was enqueued, for the worker whose it is, in rising order. */
  lemma {:induction false} HeldContents(s: State, w: nat, c: Config)
    requires c.Valid() && WellFormed(s, c) && Ordered(s, c) && w < c.workers
    ensures Increasing(s.queues[w])
    ensures forall i :: 0 <= i < |s.queues[w]| ==>
              s.queues[w][i] in s.enqueued && ShardOf(s.queues[w][i].pkt, c) == w
    ensures forall i :: 0 <= i < |s.hands[w]| ==>
              s.hands[w][i] in s.enqueued && ShardOf(s.hands[w][i].pkt, c) == w
  {
    hide Accepted, Filter, ShardOf;
    AcceptedAre(s.raws, s.status);
    FilterIncreasing(OnWorker(w, c), s.enqueued);
    FilterMember(OnWorker(w, c), s.enqueued);
    var lane := Filter(OnWorker(w, c), s.enqueued);
    assert lane == Lane(s, w, c);
    var k := |lane| - |s.queues[w]|;
    assert lane[k..] == s.queues[w];
    forall i | 0 <= i < |s.queues[w]|
      ensures s.queues[w][i] in lane && s.queues[w][i] == lane[k + i]
    {
    }
    forall i | 0 <= i < |s.hands[w]|
      ensures s.hands[w][i] in lane
    {
    }
  }

  /** No datagram is queued twice. */
  lemma {:induction false} QueuedOnce(s: State, w: nat, i: nat, w': nat, i': nat, c: Config)
    requires c.Valid() && WellFormed(s, c) && Ordered(s, c)
    requires w < c.workers && w' < c.workers && i < |s.queues[w]| && i' < |s.queues[w']|
    requires s.queues[w][i].id == s.queues[w'][i'].id
    ensures w == w' && i == i'
  {
    HeldContents(s, w, c);
    HeldContents(s, w', c);
    AcceptedAre(s.raws, s.status);
  }

  /** No datagram is in two hands. */
  lemma {:induction false} InOneHand(s: State, w: nat, w': nat, c: Config)
    requires c.Valid() && WellFormed(s, c) && Ordered(s, c)
    requires w < c.workers && w' < c.workers && s.hands[w] != [] && s.hands[w'] != []
    requires s.hands[w][0].id == s.hands[w'][0].id
    ensures w == w'
  {
    HeldContents(s, w, c);
    HeldContents(s, w', c);
    AcceptedAre(s.raws, s.status);
  }

  // ---------------------------------------------------------------- every step keeps it

  lemma {:induction false} TasksSnoc(ds: seq<Done>, d: Done)
    ensures Tasks(ds + [d]) == Tasks(ds) + [d.task]
    ensures Arrivals(ds + [d]) == Arrivals(ds) + [Arrival(d.task.pkt, d.now)]
  {
  }

  lemma {:induction false} ReceiveOrdered(s: State, raw: seq<byte>, admitted: bool, c: Config)
    requires c.Valid() && WellFormed(s, c) && Ordered(s, c)
    ensures WellFormed(DoReceive(s, raw, admitted, c), c) && Ordered(DoReceive(s, raw, admitted, c), c)
  {
    hide Accepted, Filter, ShardOf, Decode, Tasks;
    var st := Admission(s, raw, admitted, c);
    var s' := DoReceive(s, raw, admitted, c);
    AcceptedSnoc(s.raws, s.status, raw, st);
    if st.Queued? {
      var task := Task(|s.raws|, Decode(raw).value);
      forall w | 0 <= w < c.workers
        ensures Lane(s', w, c) == Filter(OnWorker(w, c), s'.enqueued)
      {
        FilterSnoc(OnWorker(w, c), s.enqueued, task);
        if w == ShardOf(task.pkt, c) {
          ConcatAssoc(Filter(OnWorker(w, c), Tasks(s.processed)) + s.hands[w] + s.drained[w], s.queues[w], [task]);
        }
      }
    }
  }

  lemma {:induction false} ReceiveLocated(s: State, raw: seq<byte>, admitted: bool, c: Config)
    requires c.Valid() && WellFormed(s, c) && Located(s, c)
    ensures Located(DoReceive(s, raw, admitted, c), c)
  {
    hide Decode, ShardOf;
    var s' := DoReceive(s, raw, admitted, c);
    assert forall id :: 0 <= id < |s.status| ==> s'.status[id] == s.status[id];
  }

  lemma {:induction false} ReceiveKeeps(s: State, raw: seq<byte>, admitted: bool, c: Config)
    requires c.Valid() && Inv(s, c)
    ensures Inv(DoReceive(s, raw, admitted, c), c)
  {
    ReceiveOrdered(s, raw, admitted, c);
    ReceiveLocated(s, raw, admitted, c);
    hide Ordered, Located, Remembered, Decode;
  }

  /** A new status for one datagram that no other entry of the kind `st` has. */
  lemma {:induction false} OthersMarked(held: seq<seq<Task>>, status: seq<Status>, id: nat, st: Status, to: Status)
    requires HeldMarked(held, status, st) && id < |status| && status[id] != st
    ensures HeldMarked(held, status[id := to], st)
  {
  }

  /** The head of one list leaves it. */
  lemma {:induction false} PopMarked(held: seq<seq<Task>>, status: seq<Status>, w: nat, st: Status, to: Status)
    requires HeldMarked(held, status, st) && w < |held| && held[w] != []
    requires forall v, i :: 0 <= v < |held| && 0 <= i < |held[v]| && (v != w || i > 0) ==>
               held[v][i].id != held[w][0].id
    ensures HeldMarked(held[w := held[w][1..]], status[held[w][0].id := to], st)
  {
  }

  /** A task joins one list. */
  lemma {:induction false} JoinMarked(held: seq<seq<Task>>, status: seq<Status>, w: nat, t: Task, to: Status, more: seq<Task>)
    requires HeldMarked(held, status, to) && w < |held| && t.id < |status| && status[t.id] != to
    requires more == held[w] + [t]
    ensures HeldMarked(held[w := more], status[t.id := to], to)
  {
  }

  /** Moving on from a queue or a hand relabels nothing processed and nothing that did not parse. */
  lemma {:induction false} RestMarked(s: State, id: nat, to: Status, c: Config)
    requires WellFormed(s, c) && Located(s, c) && id < |s.status|
    requires (s.status[id].Queued? || s.status[id].InHand?) && !to.Refused()
    ensures ProcessedMarked(s.processed, s.status[id := to])
    ensures ParseMarked(s.raws, s.status[id := to])
  {
    hide Decode, HeldMarked;
  }

  // ---------------------------------------------------------------- taking a task

  lemma {:induction false} MoveToHand<T>(a: seq<T>, q: seq<T>)
    requires q != []
    ensures a + [q[0]] + [] + q[1..] == a + [] + [] + q
  {
  }

  lemma {:induction false} TakeOrdered(s: State, w: nat, c: Config)
    requires c.Valid() && Inv(s, c) && Enabled(s, Take(w), c)
    ensures Ordered(DoTake(s, w), c)
  {
    hide Accepted, Filter, ShardOf, Remembered, Tasks;
    var s' := DoTake(s, w);
    AcceptedUpdate(s.raws, s.status, s.queues[w][0].id, InHand);
    forall v | 0 <= v < c.workers
      ensures Lane(s', v, c) == Lane(s, v, c)
    {
      if v == w {
        MoveToHand(Filter(OnWorker(w, c), Tasks(s.processed)), s.queues[w]);
      }
    }
  }

  lemma {:induction false} TakeKeeps(s: State, w: nat, c: Config)
    requires c.Valid() && Inv(s, c) && Enabled(s, Take(w), c)
    ensures Inv(DoTake(s, w), c)
  {
    TakeOrdered(s, w, c);
    HeadIsUnique(s, w, c);
    var t := s.queues[w][0];
    assert s.status[t.id] == Queued;
    RestMarked(s, t.id, InHand, c);
    PopMarked(s.queues, s.status, w, Queued, InHand);
    JoinMarked(s.hands, s.status, w, t, InHand, [t]);
    OthersMarked(s.drained, s.status, t.id, Drained, InHand);
    hide Ordered, Remembered, HeldMarked, ProcessedMarked, ParseMarked;
  }

  // ---------------------------------------------------------------- finishing it

  lemma {:induction false} MoveToDone<T>(a: seq<T>, h: seq<T>, d: seq<T>, q: seq<T>)
    requires |h| == 1
    ensures (a + [h[0]]) + h[1..] + d + q == a + h + d + q
  {
  }

  /** Processing moves a task along its own lane and leaves the others alone. */
  lemma {:induction false} FinishLane(s: State, w: nat, d: Done, v: nat, c: Config)
    requires c.Valid() && WellFormed(s, c) && w < c.workers && v < c.workers
    requires |s.hands[w]| == 1 && d.task == s.hands[w][0] && ShardOf(d.task.pkt, c) == w
    ensures Filter(OnWorker(v, c), Tasks(s.processed + [d])) + s.hands[w := s.hands[w][1..]][v] + s.drained[v] + s.queues[v]
            == Lane(s, v, c)
  {
    hide Filter, ShardOf;
    TasksSnoc(s.processed, d);
    FilterSnoc(OnWorker(v, c), Tasks(s.processed), d.task);
    MoveToDone(Filter(OnWorker(w, c), Tasks(s.processed)), s.hands[w], s.drained[w], s.queues[w]);
  }

  lemma {:induction false} FinishOrdered(s: State, w: nat, now: int, bytesOk: bool, flowOpen: bool, writeOk: bool, c: Config)
    requires c.Valid() && Inv(s, c) && Enabled(s, Finish(w, now, bytesOk, flowOpen, writeOk), c)
    ensures Ordered(DoFinish(s, w, now, bytesOk, flowOpen, writeOk), c)
  {
    hide AddTo, Outcome, Accepted, Filter, ShardOf, Remembered, Tasks;
    var s' := DoFinish(s, w, now, bytesOk, flowOpen, writeOk);
    var d := s'.processed[|s.processed|];
    AcceptedUpdate(s.raws, s.status, d.task.id, d.status);
    HeldContents(s, w, c);
    forall v | 0 <= v < c.workers
      ensures Lane(s', v, c) == Lane(s, v, c)
    {
      FinishLane(s, w, d, v, c);
    }
  }

  lemma {:induction false} FinishRemembered(s: State, w: nat, now: int, bytesOk: bool, flowOpen: bool, writeOk: bool, c: Config)
    requires c.Valid() && Inv(s, c) && Enabled(s, Finish(w, now, bytesOk, flowOpen, writeOk), c)
    ensures var s' := DoFinish(s, w, now, bytesOk, flowOpen, writeOk);
            Remembered(s'.parts, s'.processed)
  {
    hide AddTo, Play, Completed;
    var s' := DoFinish(s, w, now, bytesOk, flowOpen, writeOk);
    var d := s'.processed[|s.processed|];
    var h, a := Arrivals(s.processed), Arrival(d.task.pkt, now);
    TasksSnoc(s.processed, d);
    assert Monotone(h + [a]);
    AddMeansJoin(h, a);
    PlaySnoc(h, a);
    forall i | 0 <= i < |s'.processed|
      ensures s'.processed[i].out == Completed(Arrivals(s'.processed[..i + 1]))
    {
      if i < |s.processed| {
        assert s'.processed[..i + 1] == s.processed[..i + 1];
      } else {
        assert s'.processed[..i + 1] == s'.processed;
      }
    }
  }

  lemma {:induction false} PlaySnoc(h: seq<Arrival>, a: Arrival)
    ensures Play(h + [a]) == AddTo(Play(h), a.pkt, a.now).0
  {
    assert (h + [a])[..|h|] == h;
  }

  lemma {:induction false} FinishLocated(s: State, w: nat, now: int, bytesOk: bool, flowOpen: bool, writeOk: bool, c: Config)
    requires c.Valid() && Inv(s, c) && Enabled(s, Finish(w, now, bytesOk, flowOpen, writeOk), c)
    ensures Located(DoFinish(s, w, now, bytesOk, flowOpen, writeOk), c)
  {
    hide AddTo, Outcome, Remembered, Decode;
    var s' := DoFinish(s, w, now, bytesOk, flowOpen, writeOk);
    var d := s'.processed[|s.processed|];
    var id := d.task.id;
    assert s.status[id] == InHand;
    HandIsUnique(s, w, c);
    RestMarked(s, id, d.status, c);
    PopMarked(s.hands, s.status, w, InHand, d.status);
    OthersMarked(s.queues, s.status, id, Queued, d.status);
    OthersMarked(s.drained, s.status, id, Drained, d.status);
    hide Ordered, HeldMarked, ParseMarked;
  }

  lemma {:induction false} FinishKeeps(s: State, w: nat, now: int, bytesOk: bool, flowOpen: bool, writeOk: bool, c: Config)
    requires c.Valid() && Inv(s, c) && Enabled(s, Finish(w, now, bytesOk, flowOpen, writeOk), c)
    ensures Inv(DoFinish(s, w, now, bytesOk, flowOpen, writeOk), c)
  {
    FinishOrdered(s, w, now, bytesOk, flowOpen, writeOk, c);
    FinishRemembered(s, w, now, bytesOk, flowOpen, writeOk, c);
    FinishLocated(s, w, now, bytesOk, flowOpen, writeOk, c);
    hide Ordered, Remembered, Located, AddTo, Outcome;
  }

  lemma {:induction false} HeadIsUnique(s: State, w: nat, c: Config)
    requires c.Valid() && WellFormed(s, c) && Ordered(s, c) && w < c.workers && s.queues[w] != []
    ensures forall v, i :: 0 <= v < c.workers && 0 <= i < |s.queues[v]| && (v != w || i > 0) ==>
              s.queues[v][i].id != s.queues[w][0].id
  {
    forall v, i | 0 <= v < c.workers && 0 <= i < |s.queues[v]| && s.queues[v][i].id == s.queues[w][0].id
      ensures v == w && i == 0
    {
      QueuedOnce(s, v, i, w, 0, c);
    }
  }

  lemma {:induction false} HandIsUnique(s: State, w: nat, c: Config)
    requires c.Valid() && WellFormed(s, c) && Ordered(s, c) && w < c.workers && s.hands[w] != []
    ensures forall v, i :: 0 <= v < c.workers && 0 <= i < |s.hands[v]| && (v != w || i > 0) ==>
              s.hands[v][i].id != s.hands[w][0].id
  {
    forall v, i | 0 <= v < c.workers && 0 <= i < |s.hands[v]| && s.hands[v][i].id == s.hands[w][0].id
      ensures v == w && i == 0
    {
      assert |s.hands[v]| <= 1;
      InOneHand(s, v, w, c);
    }
  }

  // ---------------------------------------------------------------- throwing it away

  lemma {:induction false} MoveToDrained<T>(a: seq<T>, d: seq<T>, q: seq<T>)
    requires q != []
    ensures a + (d + [q[0]]) + q[1..] == a + d + q
  {
  }

  lemma {:induction false} DrainOrdered(s: State, w: nat, c: Config)
    requires c.Valid() && Inv(s, c) && Enabled(s, DrainOne(w), c)
    ensures Ordered(DoDrain(s, w), c)
  {
    hide Accepted, Filter, ShardOf, Remembered, Tasks;
    var s' := DoDrain(s, w);
    AcceptedUpdate(s.raws, s.status, s.queues[w][0].id, Drained);
    forall v | 0 <= v < c.workers
      ensures Lane(s', v, c) == Lane(s, v, c)
    {
      if v == w {
        MoveToDrained(Filter(OnWorker(w, c), Tasks(s.processed)) + s.hands[w], s.drained[w], s.queues[w]);
      }
    }
  }

  lemma {:induction false} DrainKeeps(s: State, w: nat, c: Config)
    requires c.Valid() && Inv(s, c) && Enabled(s, DrainOne(w), c)
    ensures Inv(DoDrain(s, w), c)
  {
    DrainOrdered(s, w, c);
    HeadIsUnique(s, w, c);
    var t := s.queues[w][0];
    assert s.status[t.id] == Queued;
    RestMarked(s, t.id, Drained, c);
    PopMarked(s.queues, s.status, w, Queued, Drained);
    JoinMarked(s.drained, s.status, w, t, Drained, s.drained[w] + [t]);
    OthersMarked(s.hands, s.status, t.id, InHand, Drained);
    hide Ordered, Remembered, HeldMarked, ProcessedMarked, ParseMarked;
  }

  lemma {:induction false} StepKeeps(s: State, step: Step, c: Config)
    requires c.Valid() && Inv(s, c) && Enabled(s, step, c)
    ensures Inv(Next(s, step, c), c)
  {
    match step
    case Receive(raw, admitted) => ReceiveKeeps(s, raw, admitted, c);
    case Take(w) => TakeKeeps(s, w, c);
    case Finish(w, now, bytesOk, flowOpen, writeOk) => FinishKeeps(s, w, now, bytesOk, flowOpen, writeOk, c);
    case BeginDrain(w) =>
    case DrainOne(w) => DrainKeeps(s, w, c);
  }

  /** Every state any schedule reaches satisfies the invariant. */
  lemma {:induction false} AlwaysInv(steps: seq<Step>, c: Config)
    requires c.Valid() && Exec(steps, c).Some?
    ensures Inv(Exec(steps, c).value, c)
  {
    if steps == [] {
      InitInv(c);
    } else {
      AlwaysInv(steps[..|steps| - 1], c);
      StepKeeps(Exec(steps[..|steps| - 1], c).value, steps[|steps| - 1], c);
    }
  }
}
