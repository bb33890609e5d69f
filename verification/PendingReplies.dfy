/**
 Reply channels of the TCP session client.  A waiter registers a channel under a flow id or ping token;
 the reader, a timeout, or the end of the session takes it out under the lock, and then sends to it and
 closes it with the lock released.  Each such action is one step; steps interleave arbitrarily.
 */
module PendingReplies {
  import opened Wrappers
  import opened Bytes

  // ---------------------------------------------------------------- states and steps

  /** Where a waiter registers. */
  datatype Slot = Tcp(flow: uint64) | Udp(flow: uint64) | Ping(token: seq<byte>)

  datatype Reply = Success | Failure(reason: string)

  /** A channel with room for one reply, and the history of what was done to it.  `slot` is where it
      was registered, and `late` whether that was after the session ended; `origin` is the slot whose
      reply was sent to it, and `reply` that reply. */
  datatype Chan = Chan(
    slot: Slot,
    late: bool,
    buffer: Option<Reply>,
    closed: bool,
    sends: nat,
    closes: nat,
    origin: Option<Slot>,
    reply: Option<Reply>)

  /** A channel taken out of the table, and what its taker has left to do. */
  datatype Job = Sending(ch: nat, slot: Slot, reply: Reply) | Closing(ch: nat)

  datatype Fault = SendOnClosed | CloseOfClosed | SendBlocks | ReplyDropped

  /** `ending` means the end of the session holds the lock. */
  datatype State = State(
    chans: map<nat, Chan>,
    pending: map<Slot, nat>,
    jobs: map<nat, Job>,
    ending: bool,
    ended: bool,
    faults: set<Fault>)

  datatype Step =
    | Register(slot: Slot, ch: nat)
    | TakeToResolve(t: nat, slot: Slot, reply: Reply)
    | TakeToUnregister(t: nat, slot: Slot)
    | Send(t: nat)
    | CloseChan(t: nat)
    | Receive(ch: nat)
    | BeginEnd
    | EndOne(slot: Slot, reply: Reply)
    | FinishEnd

  function Start(): State {
    State(map[], map[], map[], false, false, {})
  }

  /** A new channel is new, a goroutine does one thing at a time, and the lock keeps the table to the
      end of the session while that runs, which is once. */
  predicate Enabled(s: State, step: Step) {
    match step
    case Register(_, ch) => !s.ending && ch !in s.chans
    case TakeToResolve(t, _, _) => !s.ending && t !in s.jobs
    case TakeToUnregister(t, _) => !s.ending && t !in s.jobs
    case Send(t) => t in s.jobs && s.jobs[t].Sending? && s.jobs[t].ch in s.chans
    case CloseChan(t) => t in s.jobs && s.jobs[t].Closing? && s.jobs[t].ch in s.chans
    case Receive(ch) => ch in s.chans && s.chans[ch].buffer.Some?
    case BeginEnd => !s.ended
    case EndOne(slot, _) => s.ending && slot in s.pending && s.pending[slot] in s.chans
    case FinishEnd => s.ending && s.pending == map[]
  }

  /** A send to a channel: what goes wrong, if anything, and the channel after it.  A ping reply is
      dropped where an open reply would block. */
  function SendFaults(c: Chan, slot: Slot): set<Fault> {
    if c.closed then {SendOnClosed}
    else if c.buffer.Some? then {if slot.Ping? then ReplyDropped else SendBlocks}
    else {}
  }

  function AfterSend(c: Chan, slot: Slot, reply: Reply): Chan {
    if SendFaults(c, slot) != {} then c
    else c.(buffer := Some(reply), sends := c.sends + 1, origin := Some(slot), reply := Some(reply))
  }

  function CloseFaults(c: Chan): set<Fault> {
    if c.closed then {CloseOfClosed} else {}
  }

  function AfterClose(c: Chan): Chan {
    c.(closed := true, closes := c.closes + 1)
  }

  /** Takes a channel out of the table, to send a reply to it and close it, or only to close it. */
  function Take(s: State, t: nat, slot: Slot, reply: Option<Reply>): State {
    if slot !in s.pending then s
    else
      var ch := s.pending[slot];
      s.(pending := s.pending - {slot},
         jobs := s.jobs[t := if reply.Some? then Sending(ch, slot, reply.value) else Closing(ch)])
  }

  function Next(s: State, step: Step): State
    requires Enabled(s, step)
  {
    match step
    case Register(slot, ch) =>
      s.(chans := s.chans[ch := Chan(slot, s.ended, None, false, 0, 0, None, None)], pending := s.pending[slot := ch])
    case TakeToResolve(t, slot, reply) => Take(s, t, slot, Some(reply))
    case TakeToUnregister(t, slot) => Take(s, t, slot, None)
    case Send(t) =>
      var Sending(ch, slot, reply) := s.jobs[t];
      s.(chans := s.chans[ch := AfterSend(s.chans[ch], slot, reply)],
         jobs := s.jobs[t := Closing(ch)],
         faults := s.faults + SendFaults(s.chans[ch], slot))
    case CloseChan(t) =>
      var ch := s.jobs[t].ch;
      s.(chans := s.chans[ch := AfterClose(s.chans[ch])],
         jobs := s.jobs - {t},
         faults := s.faults + CloseFaults(s.chans[ch]))
    case Receive(ch) => s.(chans := s.chans[ch := s.chans[ch].(buffer := None)])
    case BeginEnd => s.(ending := true, ended := true)
    case EndOne(slot, reply) =>
      var ch := s.pending[slot];
      var sent := AfterSend(s.chans[ch], slot, reply);
      s.(chans := s.chans[ch := AfterClose(sent)],
         pending := s.pending - {slot},
         faults := s.faults + SendFaults(s.chans[ch], slot) + CloseFaults(sent))
    case FinishEnd => s.(ending := false)
  }

  function Exec(steps: seq<Step>): Option<State> {
    if steps == [] then Some(Start())
    else
      var r := Exec(steps[..|steps| - 1]);
      var step := steps[|steps| - 1];
      if r.Some? && Enabled(r.value, step) then Some(Next(r.value, step)) else None
  }

  // ---------------------------------------------------------------- single ownership

  predicate Untouched(c: Chan) {
    c.buffer.None? && !c.closed && c.sends == 0 && c.closes == 0 && c.origin.None? && c.reply.None?
  }

  /** The table and the jobs never share a channel, and what they own is in the state it should be. */
  ghost predicate TableOwns(s: State) {
    && (forall a :: a in s.pending ==>
          s.pending[a] in s.chans && Untouched(s.chans[s.pending[a]]) && s.chans[s.pending[a]].slot == a)
    && (forall a, b :: a in s.pending && b in s.pending && a != b ==> s.pending[a] != s.pending[b])
  }

  ghost predicate JobsOwn(s: State) {
    && (forall t :: t in s.jobs ==> s.jobs[t].ch in s.chans && !s.chans[s.jobs[t].ch].closed)
    && (forall t :: t in s.jobs && s.jobs[t].Sending? ==>
          Untouched(s.chans[s.jobs[t].ch]) && s.chans[s.jobs[t].ch].slot == s.jobs[t].slot)
    && (forall t, u :: t in s.jobs && u in s.jobs && t != u ==> s.jobs[t].ch != s.jobs[u].ch)
    && (forall t, a :: t in s.jobs && a in s.pending ==> s.jobs[t].ch != s.pending[a])
  }

  /** What may have happened to any channel: at most one send, at most one close, and only a reply to
      the slot it was registered under. */
  predicate WellUsed(c: Chan) {
    && c.sends <= 1
    && c.closes <= 1
    && (c.closed <==> c.closes == 1)
    && (c.buffer.Some? ==> c.sends == 1)
    && (c.origin.Some? <==> c.sends == 1)
    && (c.origin.Some? ==> c.origin.value == c.slot)
    && (c.reply.Some? <==> c.sends == 1)
    && (c.buffer.Some? ==> c.buffer == c.reply)
  }

  ghost predicate Inv(s: State) {
    && TableOwns(s)
    && JobsOwn(s)
    && (forall ch :: ch in s.chans ==> WellUsed(s.chans[ch]))
    && s.faults == {}
  }

  lemma {:induction false} RegisterKeeps(s: State, slot: Slot, ch: nat)
    requires Inv(s) && Enabled(s, Register(slot, ch))
    ensures Inv(Next(s, Register(slot, ch)))
  {
  }

  lemma {:induction false} TakeTable(s: State, t: nat, slot: Slot, reply: Option<Reply>)
    requires TableOwns(s) && slot in s.pending
    ensures TableOwns(Take(s, t, slot, reply))
    ensures forall a :: a in s.pending && a != slot ==> s.pending[a] != s.pending[slot]
  {
  }

  lemma {:induction false} TakeJobs(s: State, t: nat, slot: Slot, reply: Option<Reply>)
    requires TableOwns(s) && JobsOwn(s) && slot in s.pending && t !in s.jobs
    ensures JobsOwn(Take(s, t, slot, reply))
  {
    TakeTable(s, t, slot, reply);
    var ch := s.pending[slot];
    assert ch in s.chans && Untouched(s.chans[ch]) && s.chans[ch].slot == slot;
    hide TableOwns, Untouched;
  }

  lemma {:induction false} TakeKeeps(s: State, t: nat, slot: Slot, reply: Option<Reply>)
    requires Inv(s) && t !in s.jobs
    ensures Inv(Take(s, t, slot, reply))
  {
    if slot in s.pending {
      TakeTable(s, t, slot, reply);
      TakeJobs(s, t, slot, reply);
      hide TableOwns, JobsOwn, WellUsed;
    }
  }

  lemma {:induction false} SendKeeps(s: State, t: nat)
    requires Inv(s) && Enabled(s, Send(t))
    ensures Inv(Next(s, Send(t)))
  {
  }

  lemma {:induction false} CloseKeeps(s: State, t: nat)
    requires Inv(s) && Enabled(s, CloseChan(t))
    ensures Inv(Next(s, CloseChan(t)))
  {
  }

  lemma {:induction false} ReceiveKeeps(s: State, ch: nat)
    requires Inv(s) && Enabled(s, Receive(ch))
    ensures Inv(Next(s, Receive(ch)))
  {
  }

  lemma {:induction false} EndOneKeeps(s: State, slot: Slot, reply: Reply)
    requires Inv(s) && Enabled(s, EndOne(slot, reply))
    ensures Inv(Next(s, EndOne(slot, reply)))
  {
  }

  lemma {:induction false} StepKeeps(s: State, step: Step)
    requires Inv(s) && Enabled(s, step)
    ensures Inv(Next(s, step))
  {
    match step
    case Register(slot, ch) => RegisterKeeps(s, slot, ch);
    case TakeToResolve(t, slot, reply) => TakeKeeps(s, t, slot, Some(reply));
    case TakeToUnregister(t, slot) => TakeKeeps(s, t, slot, None);
    case Send(t) => SendKeeps(s, t);
    case CloseChan(t) => CloseKeeps(s, t);
    case Receive(ch) => ReceiveKeeps(s, ch);
    case BeginEnd =>
    case EndOne(slot, reply) => EndOneKeeps(s, slot, reply);
    case FinishEnd =>
  }

  lemma {:induction false} AlwaysInv(steps: seq<Step>)
    requires Exec(steps).Some?
    ensures Inv(Exec(steps).value)
  {
    if steps != [] {
      AlwaysInv(steps[..|steps| - 1]);
      StepKeeps(Exec(steps[..|steps| - 1]).value, steps[|steps| - 1]);
    }
  }

  lemma {:induction false} ExecSnoc(steps: seq<Step>, step: Step)
    ensures var r := Exec(steps);
            Exec(steps + [step]) == if r.Some? && Enabled(r.value, step) then Some(Next(r.value, step)) else None
  {
    assert (steps + [step])[..|steps|] == steps;
  }

  /** MAIN RESULT.  In every interleaving of registrations, replies, timeouts and the end of the session:
      nothing is ever sent to a closed channel, closed twice, blocked or dropped; each channel is sent
      to at most once and closed at most once, and only receives the reply for its own slot. */
  lemma {:induction false} NoFaults(steps: seq<Step>, ch: nat)
    requires Exec(steps).Some?
    ensures var s := Exec(steps).value;
            && s.faults == {}
            && (ch in s.chans ==>
                  && s.chans[ch].sends <= 1
                  && s.chans[ch].closes <= 1
                  && (s.chans[ch].sends == 1 ==> s.chans[ch].origin == Some(s.chans[ch].slot)))
            && (forall t :: Enabled(s, Send(t)) ==>
                  !s.chans[s.jobs[t].ch].closed && s.chans[s.jobs[t].ch].buffer.None?)
            && (forall t :: Enabled(s, CloseChan(t)) ==> !s.chans[s.jobs[t].ch].closed)
            && (forall slot, reply :: Enabled(s, EndOne(slot, reply)) ==>
                  !s.chans[s.pending[slot]].closed && s.chans[s.pending[slot]].buffer.None?)
  {
    AlwaysInv(steps);
  }

  /** How many replies a waiter has received from the channel. */
  function Receipts(steps: seq<Step>, ch: nat): nat {
    if steps == [] then 0
    else Receipts(steps[..|steps| - 1], ch) + if steps[|steps| - 1] == Receive(ch) then 1 else 0
  }

  /** What has been sent to a channel has been received or is in it. */
  ghost predicate AllThere(s: State, ch: nat, receipts: nat) {
    if ch in s.chans then s.chans[ch].sends == receipts + (if s.chans[ch].buffer.Some? then 1 else 0) else receipts == 0
  }

  lemma {:induction false} StepAllThere(s: State, step: Step, ch: nat, receipts: nat)
    requires Inv(s) && Enabled(s, step) && AllThere(s, ch, receipts)
    ensures AllThere(Next(s, step), ch, receipts + if step == Receive(ch) then 1 else 0)
  {
  }

  /** Over every run each reply is received once at most, and until then stays in its channel. */
  lemma {:induction false} ReceivedOnce(steps: seq<Step>, ch: nat)
    requires Exec(steps).Some?
    ensures AllThere(Exec(steps).value, ch, Receipts(steps, ch))
    ensures Receipts(steps, ch) <= 1
  {
    AlwaysInv(steps);
    if steps != [] {
      var init, step := steps[..|steps| - 1], steps[|steps| - 1];
      ReceivedOnce(init, ch);
      AlwaysInv(init);
      hide Inv, Next, Enabled;
      StepAllThere(Exec(init).value, step, ch, Receipts(init, ch));
      if ch in Exec(steps).value.chans {
        InvBounds(Exec(steps).value, ch);
      }
    }
  }

  lemma {:induction false} InvBounds(s: State, ch: nat)
    requires Inv(s) && ch in s.chans
    ensures s.chans[ch].sends <= 1
  {
  }

  // ---------------------------------------------------------------- the right reply

  /** The step takes the channel out of the table. */
  predicate Takes(s: State, step: Step, ch: nat) {
    && (step.TakeToResolve? || step.TakeToUnregister? || step.EndOne?)
    && step.slot in s.pending && s.pending[step.slot] == ch
  }

  /** The reply that step brings. */
  function ReplyOf(step: Step): Option<Reply> {
    match step
    case TakeToResolve(_, _, reply) => Some(reply)
    case EndOne(_, reply) => Some(reply)
    case _ => None
  }

  /** The step of a run that took the channel out of the table, if one did. */
  function TakenBy(steps: seq<Step>, ch: nat): Option<Step> {
    if steps == [] then None
    else
      var init, last := steps[..|steps| - 1], steps[|steps| - 1];
      if TakenBy(init, ch).Some? then TakenBy(init, ch)
      else if Exec(init).Some? && Takes(Exec(init).value, last, ch) then Some(last)
      else None
  }

  /** What a channel and its taker are up to, given the step that took it out. */
  ghost predicate Fate(s: State, ch: nat, taker: Option<Step>) {
    && (taker.None? ==> (ch in s.chans ==> Untouched(s.chans[ch])) && forall t :: t in s.jobs ==> s.jobs[t].ch != ch)
    && (taker.Some? ==>
          && ch in s.chans
          && (forall a :: a in s.pending ==> s.pending[a] != ch)
          && (s.chans[ch].sends == 1 ==> s.chans[ch].reply == ReplyOf(taker.value))
          && (forall t :: t in s.jobs && s.jobs[t].ch == ch ==>
                if s.jobs[t].Sending? then ReplyOf(taker.value) == Some(s.jobs[t].reply)
                else s.chans[ch].sends == 1 <==> ReplyOf(taker.value).Some?)
          && (s.chans[ch].closed ==> (s.chans[ch].sends == 1 <==> ReplyOf(taker.value).Some?)))
  }

  function TakerAfter(s: State, step: Step, ch: nat, taker: Option<Step>): Option<Step> {
    if taker.Some? then taker else if Takes(s, step, ch) then Some(step) else None
  }

  lemma {:induction false} TakeKeepsFate(s: State, step: Step, ch: nat, taker: Option<Step>)
    requires Inv(s) && Enabled(s, step) && Fate(s, ch, taker) && (step.TakeToResolve? || step.TakeToUnregister?)
    ensures Fate(Next(s, step), ch, TakerAfter(s, step, ch, taker))
  {
  }

  lemma {:induction false} SendKeepsFate(s: State, step: Step, ch: nat, taker: Option<Step>)
    requires Inv(s) && Enabled(s, step) && Fate(s, ch, taker) && (step.Send? || step.CloseChan?)
    ensures Fate(Next(s, step), ch, TakerAfter(s, step, ch, taker))
  {
  }

  lemma {:induction false} EndKeepsFate(s: State, step: Step, ch: nat, taker: Option<Step>)
    requires Inv(s) && Enabled(s, step) && Fate(s, ch, taker) && step.EndOne?
    ensures Fate(Next(s, step), ch, TakerAfter(s, step, ch, taker))
  {
  }

  lemma {:induction false} FateKept(s: State, step: Step, ch: nat, taker: Option<Step>)
    requires Inv(s) && Enabled(s, step) && Fate(s, ch, taker)
    ensures Fate(Next(s, step), ch, TakerAfter(s, step, ch, taker))
  {
    if step.TakeToResolve? || step.TakeToUnregister? {
      hide Fate, Inv, Next, Enabled;
      TakeKeepsFate(s, step, ch, taker);
    } else if step.Send? || step.CloseChan? {
      hide Fate, Inv, Next, Enabled;
      SendKeepsFate(s, step, ch, taker);
    } else if step.EndOne? {
      hide Fate, Inv, Next, Enabled;
      EndKeepsFate(s, step, ch, taker);
    } else {
      assert TakerAfter(s, step, ch, taker) == taker;
      hide WellUsed;
    }
  }

  lemma {:induction false} AlwaysFate(steps: seq<Step>, ch: nat)
    requires Exec(steps).Some?
    ensures Fate(Exec(steps).value, ch, TakenBy(steps, ch))
  {
    if steps != [] {
      hide Fate, Next, Enabled, Inv;
      var init, last := steps[..|steps| - 1], steps[|steps| - 1];
      AlwaysFate(init, ch);
      AlwaysInv(init);
      FateKept(Exec(init).value, last, ch, TakenBy(init, ch));
    } else {
      hide Next, Enabled;
    }
  }

  /** MAIN RESULT.  In every interleaving: a channel is taken out of the table by at most one step; it is
      sent exactly the reply that step brought, which is what its waiter receives; and by the time it is
      closed it has been sent one if and only if that step brought one. */
  lemma {:induction false} RightReply(steps: seq<Step>, ch: nat)
    requires Exec(steps).Some? && ch in Exec(steps).value.chans
    ensures var c := Exec(steps).value.chans[ch];
            var taker := TakenBy(steps, ch);
            && (c.sends == 1 ==> taker.Some? && ReplyOf(taker.value).Some? && c.reply == ReplyOf(taker.value))
            && (c.buffer.Some? ==> taker.Some? && c.buffer == ReplyOf(taker.value))
            && (c.closed ==> taker.Some? && (c.sends == 1 <==> ReplyOf(taker.value).Some?))
            && (c.closed && c.sends == 0 ==> taker.value.TakeToUnregister?)
    ensures TakenBy(steps, ch).Some? ==> forall step :: !Takes(Exec(steps).value, step, ch)
  {
    AlwaysFate(steps, ch);
    AlwaysInv(steps);
    TakerTakes(steps, ch);
  }

  lemma {:induction false} TakerTakes(steps: seq<Step>, ch: nat)
    ensures var taker := TakenBy(steps, ch);
            taker.Some? ==> taker.value.TakeToResolve? || taker.value.TakeToUnregister? || taker.value.EndOne?
  {
    if steps != [] {
      hide Exec;
      TakerTakes(steps[..|steps| - 1], ch);
    }
  }

  // ---------------------------------------------------------------- nobody is forgotten

  ghost predicate InTable(s: State, ch: nat) {
    exists a :: a in s.pending && s.pending[a] == ch
  }

  ghost predicate InJob(s: State, ch: nat) {
    exists t :: t in s.jobs && s.jobs[t].ch == ch
  }

  /** Whoever waits on an open channel has someone left to answer: the table or a job owns it. */
  ghost predicate AllOwned(s: State) {
    forall ch :: ch in s.chans && !s.chans[ch].closed ==> InTable(s, ch) || InJob(s, ch)
  }

  /** No slot is registered while it is in use, as flow ids and tokens are unique. */
  ghost predicate UniqueSlots(steps: seq<Step>) {
    forall i :: 0 <= i < |steps| && steps[i].Register? && Exec(steps[..i]).Some? ==>
      steps[i].slot !in Exec(steps[..i]).value.pending
  }

  lemma {:induction false} OwnerKept(s: State, step: Step, ch: nat)
    requires AllOwned(s) && Enabled(s, step) && (step.Register? ==> step.slot !in s.pending)
    requires ch in Next(s, step).chans && !Next(s, step).chans[ch].closed
    ensures InTable(Next(s, step), ch) || InJob(Next(s, step), ch)
  {
    var s' := Next(s, step);
    if step.Register? && step.ch == ch {
      assert s'.pending[step.slot] == ch;
    } else if InTable(s, ch) {
      var a :| a in s.pending && s.pending[a] == ch;
      if a in s'.pending {
        assert s'.pending[a] == ch;
      } else {
        assert s'.jobs[step.t].ch == ch;
      }
    } else {
      var t :| t in s.jobs && s.jobs[t].ch == ch;
      assert t in s'.jobs && s'.jobs[t].ch == ch;
    }
  }

  /** Once the session has ended, only late channels are left in the table. */
  ghost predicate Swept(s: State) {
    s.ended && !s.ending ==> forall a :: a in s.pending ==> s.pending[a] in s.chans && s.chans[s.pending[a]].late
  }

  lemma {:induction false} SweptKept(s: State, step: Step)
    requires Swept(s) && TableOwns(s) && Enabled(s, step)
    ensures Swept(Next(s, step))
  {
  }

  lemma {:induction false} AlwaysOwned(steps: seq<Step>)
    requires Exec(steps).Some? && UniqueSlots(steps)
    ensures AllOwned(Exec(steps).value) && Swept(Exec(steps).value)
  {
    if steps != [] {
      var init := steps[..|steps| - 1];
      assert UniqueSlots(init) by {
        assert forall i :: 0 <= i < |init| ==> init[..i] == steps[..i];
      }
      AlwaysOwned(init);
      AlwaysInv(init);
      var s, step := Exec(init).value, steps[|steps| - 1];
      SweptKept(s, step);
      hide Inv, Enabled, Next, Swept;
      forall ch | ch in Next(s, step).chans && !Next(s, step).chans[ch].closed
        ensures InTable(Next(s, step), ch) || InJob(Next(s, step), ch)
      {
        OwnerKept(s, step, ch);
      }
    }
  }

  /** MAIN RESULT.  With unique slots, every channel still open is owned by the table or by a job in
      progress.  Once the session has ended, every channel registered before that is closed or about
      to be closed by a job; and once the jobs are done, the channels still open are exactly those
      left in the table, all of them registered after the end. */
  lemma {:induction false} NobodyForgotten(steps: seq<Step>, ch: nat)
    requires Exec(steps).Some? && UniqueSlots(steps) && ch in Exec(steps).value.chans
    ensures var s := Exec(steps).value;
            && (!s.chans[ch].closed ==> InTable(s, ch) || InJob(s, ch))
            && (s.ended && !s.ending ==>
                  && (!s.chans[ch].late ==> s.chans[ch].closed || InJob(s, ch))
                  && (s.jobs == map[] ==>
                        && (!s.chans[ch].late ==> s.chans[ch].closed)
                        && (!s.chans[ch].closed <==> InTable(s, ch))))
  {
    AlwaysOwned(steps);
    AlwaysInv(steps);
  }

  /** A waiter that registers after the end has nobody left to answer it. */
  lemma {:induction false} LateWaiterForgotten()
    ensures var steps := [BeginEnd, FinishEnd, Register(Tcp(0), 0)];
            && Exec(steps).Some? && UniqueSlots(steps)
            && var s := Exec(steps).value;
            && s.ended && !s.ending && s.jobs == map[]
            && 0 in s.chans && !s.chans[0].closed
  {
    var steps := [BeginEnd, FinishEnd, Register(Tcp(0), 0)];
    var s0 := Start();
    var s1 := Next(s0, BeginEnd);
    var s2 := Next(s1, FinishEnd);
    assert steps[..0] == [] && Exec([]) == Some(s0);
    assert steps[..1] == [BeginEnd] && [BeginEnd][..0] == [] && Exec(steps[..1]) == Some(s1);
    assert steps[..2] == [BeginEnd, FinishEnd] && steps[..2][..1] == steps[..1] && Exec(steps[..2]) == Some(s2);
  }

  // ---------------------------------------------------------------- the client

  class Client {
    var pending: map<Slot, nat>
    var chans: map<nat, Chan>
    var nextChan: nat
    var ended: bool

    /** The steps taken so far, and the state they lead to. */
    ghost var steps: seq<Step>
    ghost var model: State

    ghost predicate Valid()
      reads this
    {
      && Exec(steps) == Some(model)
      && Inv(model)
      && model.pending == pending
      && model.chans == chans
      && model.ended == ended
      && (forall ch :: ch in chans ==> ch < nextChan)
    }

    constructor ()
      ensures Valid() && steps == []
    {
      pending, chans, nextChan, ended := map[], map[], 0, false;
      steps, model := [], Start();
    }

    /** Records a step that the fields do not show yet. */
    ghost method Record(step: Step)
      requires Exec(steps) == Some(model) && Inv(model) && Enabled(model, step)
      modifies this`steps, this`model
      ensures steps == old(steps) + [step] && model == Next(old(model), step)
      ensures Exec(steps) == Some(model) && Inv(model)
    {
      hide Inv, Exec, Next, Enabled;
      StepKeeps(model, step);
      ExecSnoc(steps, step);
      steps, model := steps + [step], Next(model, step);
    }

    /** Makes the channel a waiter will wait on. */
    method RegisterPending(slot: Slot) returns (ch: nat)
      requires Valid() && !model.ending
      modifies this
      ensures ch !in old(model).chans
      ensures Valid() && model == Next(old(model), Register(slot, ch)) && steps == old(steps) + [Register(slot, ch)]
    {
      hide Inv, Exec;
      ch := nextChan;
      Record(Register(slot, ch));
      nextChan := nextChan + 1;
      chans := chans[ch := Chan(slot, ended, None, false, 0, 0, None, None)];
      pending := pending[slot := ch];
    }

    /** The locked part of answering a slot, by goroutine `t`. */
    method TakePending(slot: Slot, reply: Option<Reply>, ghost t: nat) returns (ch: Option<nat>)
      requires Valid() && !model.ending && t !in model.jobs
      modifies this
      ensures Valid()
      ensures var step := if reply.Some? then TakeToResolve(t, slot, reply.value) else TakeToUnregister(t, slot);
              model == Next(old(model), step) && steps == old(steps) + [step]
      ensures ch == if slot in old(pending) then Some(old(pending)[slot]) else None
    {
      hide Inv, Exec;
      ghost var step := if reply.Some? then TakeToResolve(t, slot, reply.value) else TakeToUnregister(t, slot);
      Record(step);
      if slot !in pending {
        return None;
      }
      ch := Some(pending[slot]);
      pending := pending - {slot};
    }

    method SendReply(ch: nat, slot: Slot, reply: Reply, ghost t: nat)
      requires Valid() && t in model.jobs && model.jobs[t] == Sending(ch, slot, reply)
      modifies this
      ensures Valid() && model == Next(old(model), Send(t)) && steps == old(steps) + [Send(t)]
      ensures ch in old(chans) && chans.Keys == old(chans).Keys
      ensures chans[ch].buffer == Some(reply) && !chans[ch].closed && chans[ch].sends == 1
      ensures forall other :: other in chans && other != ch ==> chans[other] == old(chans)[other]
    {
      assert ch in chans && Untouched(chans[ch]);
      hide Inv, Exec;
      Record(Send(t));
      chans := chans[ch := AfterSend(chans[ch], slot, reply)];
    }

    method CloseReply(ch: nat, ghost t: nat)
      requires Valid() && t in model.jobs && model.jobs[t] == Closing(ch)
      modifies this
      ensures Valid() && model == Next(old(model), CloseChan(t)) && steps == old(steps) + [CloseChan(t)]
    {
      assert ch in chans;
      hide Inv, Exec;
      Record(CloseChan(t));
      chans := chans[ch := AfterClose(chans[ch])];
    }

    /** A waiter takes the reply out of its channel. */
    method ReceiveReply(ch: nat) returns (reply: Reply)
      requires Valid() && ch in chans && chans[ch].buffer.Some?
      modifies this
      ensures Valid() && model == Next(old(model), Receive(ch)) && steps == old(steps) + [Receive(ch)]
      ensures Some(reply) == old(chans)[ch].buffer
      ensures TakenBy(old(steps), ch).Some? && Some(reply) == ReplyOf(TakenBy(old(steps), ch).value)
    {
      hide Inv, Exec;
      RightReply(steps, ch);
      Record(Receive(ch));
      reply := chans[ch].buffer.value;
      chans := chans[ch := chans[ch].(buffer := None)];
    }

    /** One waiter told that the session is over, under the lock. */
    method EndPending(slot: Slot, reply: Reply)
      requires Valid() && model.ending && slot in pending
      modifies this
      ensures Valid() && model.ending && model.jobs == old(model).jobs && ended == old(ended)
      ensures pending == old(pending) - {slot}
      ensures Answered(chans, old(pending)[slot], reply)
      ensures forall ch :: ch in old(chans) && old(chans)[ch].closed ==> ch in chans && chans[ch] == old(chans)[ch]
    {
      var ch := pending[slot];
      assert ch in chans && Untouched(chans[ch]);
      hide Inv, Exec;
      Record(EndOne(slot, reply));
      chans := chans[ch := AfterClose(AfterSend(chans[ch], slot, reply))];
      pending := pending - {slot};
    }

    /** The end of the session: every registered waiter is sent the error, under the lock, once. */
    method CloseWithError(reply: Reply)
      requires Valid() && !model.ending
      modifies this
      ensures Valid() && !model.ending && model.jobs == old(model).jobs
      ensures old(ended) ==> model == old(model)
      ensures !old(ended) ==> ended && pending == map[]
      ensures !old(ended) ==> forall a :: a in old(pending) ==> Answered(chans, old(pending)[a], reply)
    {
      hide Inv, Exec;
      if ended {
        return;
      }
      Record(BeginEnd);
      ended := true;
      while pending != map[]
        invariant Valid() && model.ending && ended && model.jobs == old(model).jobs
        invariant pending.Keys <= old(pending).Keys
        invariant forall a :: a in pending ==> pending[a] == old(pending)[a]
        invariant forall a :: a in old(pending) && a !in pending ==> Answered(chans, old(pending)[a], reply)
        decreases pending.Keys
      {
        var slot :| slot in pending;
        EndPending(slot, reply);
      }
      Record(FinishEnd);
    }
  }

  /** So whatever a client has been through, its channels are sent to and closed at most once, and with
      slots used once at a time nobody registered before the end waits for ever. */
  lemma {:induction false} ClientForgetsNobody(c: Client, ch: nat)
    requires c.Valid() && ch in c.chans
    ensures c.chans[ch].sends <= 1 && c.chans[ch].closes <= 1
    ensures c.chans[ch].buffer.Some? ==>
              TakenBy(c.steps, ch).Some? && c.chans[ch].buffer == ReplyOf(TakenBy(c.steps, ch).value)
    ensures UniqueSlots(c.steps) && c.ended && !c.model.ending && c.model.jobs == map[] && !c.chans[ch].late ==>
              c.chans[ch].closed
  {
    hide Exec, Inv;
    NoFaults(c.steps, ch);
    RightReply(c.steps, ch);
    if UniqueSlots(c.steps) {
      NobodyForgotten(c.steps, ch);
    }
  }

  /** A channel that got its one reply and was closed. */
  predicate Answered(chans: map<nat, Chan>, ch: nat, reply: Reply) {
    ch in chans && chans[ch].closed && chans[ch].sends == 1 && chans[ch].buffer == Some(reply)
  }
}
