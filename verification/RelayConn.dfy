/**
 The upstream side of a relay connection: data is cut into chunks and queued for a writer goroutine,
 within a byte window and a fixed number of slots, while the stream may end and the connection may be
 closed.  Each load, store or addition of an atomic and each channel operation is one step; steps of any
 number of callers, the writer and whoever ends or closes the connection interleave arbitrarily.  Only
 `closed` and `eos` are read, and stored by Close, in one step: Close stores the one right before the
 other, and every reader asks for both.
 */
module RelayConn {
  import opened Bytes

  const CHUNK: nat := 4096
  const SLOTS: nat := 256

  /** What the channel holds at most. */
  const CAPACITY: nat := SLOTS * CHUNK

  type Queue = seq<seq<byte>>

  function Flatten(q: Queue): seq<byte> {
    if q == [] then [] else q[0] + Flatten(q[1..])
  }

  function QueuedBytes(q: Queue): nat {
    |Flatten(q)|
  }

  lemma {:induction false} FlattenSnoc(q: Queue, part: seq<byte>)
    ensures Flatten(q + [part]) == Flatten(q) + part
  {
    if q == [] {
      assert q + [part] == [part];
      assert Flatten([part]) == part + Flatten([]);
    } else {
      FlattenSnoc(q[1..], part);
      assert (q + [part])[1..] == q[1..] + [part];
    }
  }

  // ---------------------------------------------------------------- states and steps

  /** Where the writer goroutine is with a chunk. */
  datatype Writer =
    | Waiting
    | Taken(chunk: seq<byte>)
    | Uncounted(chunk: seq<byte>)
    | Writing(chunk: seq<byte>)
    | Gone

  /** Where a call is with a chunk: it has seen the stream live, has found room in the window, or has
      sent the chunk and not yet counted it. */
  datatype Caller = Looked(part: seq<byte>) | Checked(part: seq<byte>) | Sent(part: seq<byte>)

  /** `counter` is the atomic byte counter; `live` ends with the stream, `closing` is set when Close
      begins, and `open` ends when it closes the channel.  Histories: `uncounted` bytes were sent and
      not yet counted, `accepted` bytes were sent, `sent` says by whom, `written` bytes reached the
      target. */
  datatype Conn = Conn(
    queue: Queue,
    counter: int,
    writer: Writer,
    callers: map<nat, Caller>,
    live: bool,
    closing: bool,
    open: bool,
    panicked: bool,
    uncounted: int,
    accepted: seq<byte>,
    sent: map<nat, seq<byte>>,
    written: seq<byte>)

  datatype Op =
    | Look(t: nat, part: seq<byte>)
    | Measure(t: nat)
    | Push(t: nat)
    | Count(t: nat)
    | Take
    | Uncount
    | CheckLive
    | Write(ok: bool, partial: nat)
    | Quit
    | MarkEnd
    | BeginClose
    | CloseChannel

  function Start(): Conn {
    Conn([], 0, Waiting, map[], true, false, true, false, 0, [], map[], [])
  }

  /** A send panics when the channel has been closed. */
  predicate Panics(c: Conn, op: Op) {
    op.Push? && op.t in c.callers && c.callers[op.t].Checked? && !c.open
  }

  function SentBy(c: Conn, t: nat): seq<byte> {
    if t in c.sent then c.sent[t] else []
  }

  /** What an action of a caller leaves alone. */
  predicate CallerFrame(c: Conn, c': Conn) {
    c'.writer == c.writer && c'.live == c.live && c'.closing == c.closing && c'.open == c.open
  }

  /** What an action of the writer leaves alone. */
  predicate WriterFrame(c: Conn, c': Conn) {
    && c'.callers == c.callers && c'.sent == c.sent && c'.uncounted == c.uncounted
    && c'.closing == c.closing && c'.open == c.open
  }

  /** Chunks are not empty and at most `CHUNK` long. */
  function DoLook(c: Conn, t: nat, part: seq<byte>): (c': Conn)
    ensures CallerFrame(c, c')
  {
    if t in c.callers || part == [] || |part| > CHUNK || !c.live then c
    else c.(callers := c.callers[t := Looked(part)])
  }

  function DoMeasure(c: Conn, t: nat, window: nat): (c': Conn)
    ensures CallerFrame(c, c')
  {
    if t !in c.callers || !c.callers[t].Looked? then c
    else if c.counter + |c.callers[t].part| > window then c.(callers := c.callers - {t})
    else c.(callers := c.callers[t := Checked(c.callers[t].part)])
  }

  function DoPush(c: Conn, t: nat): (c': Conn)
    ensures CallerFrame(c, c')
  {
    if t !in c.callers || !c.callers[t].Checked? then c
    else
      var part := c.callers[t].part;
      if !c.open then c.(callers := c.callers - {t}, panicked := true)
      else if |c.queue| >= SLOTS then c.(callers := c.callers - {t})
      else c.(queue := c.queue + [part], callers := c.callers[t := Sent(part)],
              uncounted := c.uncounted + |part|, accepted := c.accepted + part,
              sent := c.sent[t := SentBy(c, t) + part])
  }

  function DoCount(c: Conn, t: nat): (c': Conn)
    ensures CallerFrame(c, c')
  {
    if t !in c.callers || !c.callers[t].Sent? then c
    else
      var n := |c.callers[t].part|;
      c.(callers := c.callers - {t}, counter := c.counter + n, uncounted := c.uncounted - n)
  }

  function Min(x: nat, y: nat): nat {
    if x < y then x else y
  }

  function DoTake(c: Conn): (c': Conn)
    ensures WriterFrame(c, c')
  {
    if !c.writer.Waiting? || c.queue == [] then c else c.(queue := c.queue[1..], writer := Taken(c.queue[0]))
  }

  function DoUncount(c: Conn): (c': Conn)
    ensures WriterFrame(c, c')
  {
    if !c.writer.Taken? then c
    else c.(counter := c.counter - |c.writer.chunk|, writer := Uncounted(c.writer.chunk))
  }

  function DoCheckLive(c: Conn): (c': Conn)
    ensures WriterFrame(c, c')
  {
    if !c.writer.Uncounted? then c else c.(writer := if c.live then Writing(c.writer.chunk) else Gone)
  }

  function DoWrite(c: Conn, ok: bool, partial: nat): (c': Conn)
    ensures WriterFrame(c, c')
  {
    if !c.writer.Writing? then c
    else if ok then c.(written := c.written + c.writer.chunk, writer := Waiting)
    else c.(written := c.written + c.writer.chunk[..Min(partial, |c.writer.chunk|)], writer := Gone, live := false)
  }

  function DoQuit(c: Conn): (c': Conn)
    ensures WriterFrame(c, c')
  {
    if c.writer.Waiting? && !c.live then c.(writer := Gone) else c
  }

  /** One action of a caller, of the writer, or of whoever ends or closes the connection; it does
      nothing where the goroutine is not at that point. */
  function Next(c: Conn, op: Op, window: nat): Conn {
    match op
    case Look(t, part) => DoLook(c, t, part)
    case Measure(t) => DoMeasure(c, t, window)
    case Push(t) => DoPush(c, t)
    case Count(t) => DoCount(c, t)
    case Take => DoTake(c)
    case Uncount => DoUncount(c)
    case CheckLive => DoCheckLive(c)
    case Write(ok, partial) => DoWrite(c, ok, partial)
    case Quit => DoQuit(c)
    case MarkEnd => c.(live := false)
    case BeginClose => c.(live := false, closing := true)
    case CloseChannel => if c.closing then c.(open := false) else c
  }

  /** The state a list of actions leads to. */
  function Follow(c: Conn, ops: seq<Op>, window: nat): Conn {
    if ops == [] then c else Next(Follow(c, ops[..|ops| - 1], window), ops[|ops| - 1], window)
  }

  function Run(ops: seq<Op>, window: nat): Conn {
    Follow(Start(), ops, window)
  }

  lemma {:induction false} FollowSnoc(c: Conn, ops: seq<Op>, op: Op, window: nat)
    ensures Follow(c, ops + [op], window) == Next(Follow(c, ops, window), op, window)
  {
    assert (ops + [op])[..|ops|] == ops;
  }

  lemma {:induction false} FollowAppend(c: Conn, a: seq<Op>, b: seq<Op>, window: nat)
    ensures Follow(c, a + b, window) == Follow(Follow(c, a, window), b, window)
  {
    if b == [] {
      assert a + b == a;
    } else {
      var init, last := b[..|b| - 1], b[|b| - 1];
      FollowAppend(c, a, init, window);
      assert a + b == (a + init) + [last];
      FollowSnoc(c, a + init, last, window);
    }
  }

  lemma {:induction false} FollowTwo(c: Conn, a: Op, b: Op, window: nat)
    ensures Follow(c, [a, b], window) == Next(Next(c, a, window), b, window)
  {
    FollowSnoc(c, [], a, window);
    FollowSnoc(c, [a], b, window);
    assert [] + [a] == [a] && [a] + [b] == [a, b];
  }

  // ---------------------------------------------------------------- whole runs

  function Held(w: Writer): seq<byte> {
    if w.Waiting? || w.Gone? then [] else w.chunk
  }

  /** What the counter should show: the bytes queued, and those taken out and still counted. */
  function Load(c: Conn): nat {
    QueuedBytes(c.queue) + if c.writer.Taken? then |c.writer.chunk| else 0
  }

  /** No chunk is longer than the code cuts them. */
  ghost predicate Small(queue: Queue, callers: map<nat, Caller>) {
    && (forall i :: 0 <= i < |queue| ==> |queue[i]| <= CHUNK)
    && (forall t :: t in callers ==> |callers[t].part| <= CHUNK)
  }

  ghost predicate InOrder(c: Conn) {
    if c.writer.Gone? then !c.live && c.written <= c.accepted
    else c.written + Held(c.writer) + Flatten(c.queue) == c.accepted
  }

  ghost predicate Inv(c: Conn) {
    && |c.queue| <= SLOTS
    && Small(c.queue, c.callers)
    && c.counter == Load(c) - c.uncounted
    && InOrder(c)
    && (c.closing ==> !c.live)
    && (!c.open ==> c.closing)
    && (c.panicked ==> !c.open)
  }

  lemma {:induction false} FieldBounds(c: Conn)
    requires Inv(c)
    ensures |c.queue| <= SLOTS && (c.closing ==> !c.live) && (!c.open ==> c.closing)
    ensures c.live ==> !c.writer.Gone?
  {
  }

  lemma {:induction false} PushKeeps(c: Conn, t: nat)
    requires Inv(c)
    ensures Inv(DoPush(c, t))
  {
    hide Flatten;
    if t in c.callers && c.callers[t].Checked? {
      var part, before := c.callers[t].part, c.written + Held(c.writer);
      FlattenSnoc(c.queue, part);
      assert before + (Flatten(c.queue) + part) == before + Flatten(c.queue) + part;
      assert c.accepted <= c.accepted + part;
    }
  }

  lemma {:induction false} TakeKeeps(c: Conn)
    requires Inv(c)
    ensures Inv(DoTake(c))
  {
    if c.writer.Waiting? && c.queue != [] {
      assert Flatten(c.queue) == c.queue[0] + Flatten(c.queue[1..]);
      assert c.written + [] + Flatten(c.queue) == c.written + c.queue[0] + Flatten(c.queue[1..]);
    }
  }

  lemma {:induction false} WriteKeeps(c: Conn, ok: bool, partial: nat)
    requires Inv(c)
    ensures Inv(DoWrite(c, ok, partial))
  {
    hide Flatten, Small;
    if c.writer.Writing? {
      var chunk := c.writer.chunk;
      var k := Min(partial, |chunk|);
      assert chunk == chunk[..k] + chunk[k..];
      assert c.accepted == c.written + chunk[..k] + (chunk[k..] + Flatten(c.queue));
    }
  }

  lemma {:induction false} WrittenIsPrefix(c: Conn)
    requires Inv(c)
    ensures c.written <= c.accepted
  {
    if !c.writer.Gone? {
      assert c.accepted == c.written + (Held(c.writer) + Flatten(c.queue));
    }
  }

  lemma {:induction false} CallerKeeps(c: Conn, op: Op, window: nat)
    requires Inv(c) && (op.Look? || op.Measure? || op.Count?)
    ensures Inv(Next(c, op, window))
  {
    hide Flatten;
  }

  lemma {:induction false} StepKeeps(c: Conn, op: Op, window: nat)
    requires Inv(c)
    ensures Inv(Next(c, op, window))
  {
    WrittenIsPrefix(c);
    match op
    case Look(_, _) => CallerKeeps(c, op, window);
    case Measure(_) => CallerKeeps(c, op, window);
    case Count(_) => CallerKeeps(c, op, window);
    case Push(t) => PushKeeps(c, t);
    case Take => TakeKeeps(c);
    case Write(ok, partial) => WriteKeeps(c, ok, partial);
    case _ => hide Flatten, Small;
  }

  lemma {:induction false} AlwaysInv(ops: seq<Op>, window: nat)
    ensures Inv(Run(ops, window))
  {
    if ops != [] {
      AlwaysInv(ops[..|ops| - 1], window);
      StepKeeps(Run(ops[..|ops| - 1], window), ops[|ops| - 1], window);
    }
  }

  /** MAIN RESULT.  However any number of callers, the writer, the end of the stream and Close
      interleave: the target has received a prefix of the bytes sent, in order; until the writer is gone,
      which only the end of the stream makes it, what is missing is the chunk in its hand and the queue;
      and the counter is off by exactly what was sent or taken and not yet counted. */
  lemma {:induction false} AlwaysInOrder(ops: seq<Op>, window: nat)
    ensures var c := Run(ops, window);
            && c.written <= c.accepted
            && (c.live ==> !c.writer.Gone?)
            && (!c.writer.Gone? ==> c.written + Held(c.writer) + Flatten(c.queue) == c.accepted)
            && |c.queue| <= SLOTS
            && c.counter == Load(c) - c.uncounted
  {
    AlwaysInv(ops, window);
    WrittenIsPrefix(Run(ops, window));
  }

  // ---------------------------------------------------------------- the end of the stream

  /** The action ends the stream. */
  predicate Ends(c: Conn, op: Op) {
    op.MarkEnd? || op.BeginClose? || (op.Write? && !op.ok && c.writer.Writing?)
  }

  /** Some action of the run ended it. */
  predicate EverEnded(ops: seq<Op>, window: nat) {
    ops != [] && (EverEnded(ops[..|ops| - 1], window) || Ends(Run(ops[..|ops| - 1], window), ops[|ops| - 1]))
  }

  lemma {:induction false} EndsNow(c: Conn, op: Op, window: nat)
    ensures var c' := Next(c, op, window);
            && (!c'.live <==> !c.live || Ends(c, op))
            && (c'.closing <==> c.closing || op == BeginClose)
            && (!c'.open <==> !c.open || (op == CloseChannel && c.closing))
  {
    hide DoCount, DoPush, DoMeasure, DoLook;
  }

  /** The run closes the channel: with an action that follows the begin of Close. */
  predicate EverClosed(ops: seq<Op>) {
    exists j :: 0 <= j < |ops| && ops[j] == CloseChannel && BeginClose in ops[..j]
  }

  lemma {:induction false} EverClosedSnoc(ops: seq<Op>, op: Op)
    ensures EverClosed(ops + [op]) <==> EverClosed(ops) || (op == CloseChannel && BeginClose in ops)
  {
    var all := ops + [op];
    assert forall j :: 0 <= j < |ops| ==> all[j] == ops[j] && all[..j] == ops[..j];
    assert all[..|ops|] == ops && all[|ops|] == op;
  }

  /** In every interleaving the stream has ended exactly when someone marked it, Close began or a write
      failed, and the channel is closed exactly when Close has come to that after it began. */
  lemma {:induction false} EndedExactly(ops: seq<Op>, window: nat)
    ensures !Run(ops, window).live <==> EverEnded(ops, window)
    ensures Run(ops, window).closing <==> BeginClose in ops
    ensures !Run(ops, window).open <==> EverClosed(ops)
  {
    if ops != [] {
      hide Next, Ends, EverClosed;
      var init, op := ops[..|ops| - 1], ops[|ops| - 1];
      EndedExactly(init, window);
      EndsNow(Run(init, window), op, window);
      EverClosedSnoc(init, op);
      assert ops == init + [op];
    }
  }

  lemma {:induction false} NextIs(c: Conn, window: nat)
    ensures Next(c, Uncount, window) == DoUncount(c)
    ensures Next(c, CheckLive, window) == DoCheckLive(c)
    ensures Next(c, Write(true, 0), window) == DoWrite(c, true, 0)
    ensures Next(c, Quit, window) == DoQuit(c)
  {
  }

  lemma {:induction false} StopsIn(c: Conn)
    requires !c.live
    ensures var c' := DoQuit(DoWrite(DoCheckLive(DoUncount(c)), true, 0));
            && c'.writer == Gone
            && c'.written == if c.writer.Writing? then c.written + c.writer.chunk else c.written
  {
  }

  /** From every state in which the stream has ended, the writer's own actions bring it to its end, and all
      it still writes is the chunk it was writing. */
  lemma {:induction false} WriterStops(c: Conn, window: nat)
    requires !c.live
    ensures var c' := Follow(c, [Uncount, CheckLive, Write(true, 0), Quit], window);
            && c'.writer == Gone
            && c'.written == if c.writer.Writing? then c.written + c.writer.chunk else c.written
  {
    StopsIn(c);
    hide Next, Follow, DoUncount, DoCheckLive, DoWrite, DoQuit;
    FollowTwo(c, Uncount, CheckLive, window);
    var c1 := Follow(c, [Uncount, CheckLive], window);
    FollowTwo(c1, Write(true, 0), Quit, window);
    FollowAppend(c, [Uncount, CheckLive], [Write(true, 0), Quit], window);
    assert [Uncount, CheckLive] + [Write(true, 0), Quit] == [Uncount, CheckLive, Write(true, 0), Quit];
    NextIs(c, window);
    NextIs(DoUncount(c), window);
    NextIs(c1, window);
    NextIs(DoWrite(c1, true, 0), window);
  }

  /** Once the stream has ended, nothing is written but what the writer was writing already. */
  lemma {:induction false} NothingAfterEnd(c: Conn, ops: seq<Op>, window: nat)
    requires !c.live && !c.writer.Writing?
    ensures var c' := Follow(c, ops, window);
            c'.written == c.written && !c'.live && !c'.writer.Writing?
  {
    if ops != [] {
      NothingAfterEnd(c, ops[..|ops| - 1], window);
      EndedStep(Follow(c, ops[..|ops| - 1], window), ops[|ops| - 1], window);
    }
  }

  lemma {:induction false} EndedStep(c: Conn, op: Op, window: nat)
    requires !c.live && !c.writer.Writing?
    ensures var c' := Next(c, op, window);
            c'.written == c.written && !c'.live && !c'.writer.Writing?
  {
  }

  // ---------------------------------------------------------------- the writer makes progress

  /** A turn of the writer on which the target takes the chunk: it writes what it holds, if anything, and
      takes the next chunk, if there is one. */
  function WriterTurn(): seq<Op> {
    [Uncount, CheckLive, Write(true, 0), Take]
  }

  function WriterTurns(k: nat): seq<Op> {
    if k == 0 then [] else WriterTurn() + WriterTurns(k - 1)
  }

  lemma {:induction false} TurnWrites(c: Conn, window: nat)
    requires Inv(c) && c.live
    ensures var c' := Follow(c, WriterTurn(), window);
            && Inv(c') && c'.live && c'.accepted == c.accepted
            && (if c.queue == [] then c'.queue == [] && c'.writer == Waiting
                else c'.queue == c.queue[1..] && c'.writer == Taken(c.queue[0]))
  {
    hide Inv, Follow;
    var c1 := DoUncount(c);
    var c2 := DoCheckLive(c1);
    var c3 := DoWrite(c2, true, 0);
    FieldBounds(c);
    FollowTwo(c, Uncount, CheckLive, window);
    FollowTwo(c2, Write(true, 0), Take, window);
    FollowAppend(c, [Uncount, CheckLive], [Write(true, 0), Take], window);
    assert WriterTurn() == [Uncount, CheckLive] + [Write(true, 0), Take];
    StepKeeps(c, Uncount, window);
    StepKeeps(c1, CheckLive, window);
    StepKeeps(c2, Write(true, 0), window);
    StepKeeps(c3, Take, window);
  }

  /** MAIN RESULT.  On a live connection the writer gets everything through: after one turn more than there
      are chunks queued, with the target taking them, all bytes accepted have been written. */
  lemma {:induction false} WriterDrains(c: Conn, window: nat)
    requires Inv(c) && c.live
    ensures var c' := Follow(c, WriterTurns(|c.queue| + 1), window);
            c'.written == c'.accepted == c.accepted && c'.queue == [] && c'.live
    decreases |c.queue|
  {
    var k := |c.queue|;
    var c1 := Follow(c, WriterTurn(), window);
    TurnWrites(c, window);
    FollowAppend(c, WriterTurn(), WriterTurns(k), window);
    assert WriterTurns(k + 1) == WriterTurn() + WriterTurns(k);
    if k == 0 {
      assert WriterTurns(0) == [];
    } else {
      hide Inv;
      WriterDrains(c1, window);
    }
  }

  // ---------------------------------------------------------------- the window

  /** No call starts on a chunk while another is under way with one. */
  ghost predicate Serialised(ops: seq<Op>, window: nat) {
    forall i :: 0 <= i < |ops| && ops[i].Look? ==> Run(ops[..i], window).callers == map[]
  }

  function Reserved(caller: Caller): nat {
    if caller.Checked? then |caller.part| else 0
  }

  function Pending(caller: Caller): nat {
    if caller.Sent? then |caller.part| else 0
  }

  /** At most one caller: with what it has reserved the load is in the window, and only what it has
      sent is uncounted. */
  ghost predicate OneCaller(callers: map<nat, Caller>, uncounted: int, load: nat, window: nat) {
    || (callers == map[] && uncounted == 0 && load <= window)
    || exists t :: t in callers && callers == map[t := callers[t]]
                   && uncounted == Pending(callers[t]) && load + Reserved(callers[t]) <= window
  }

  ghost predicate Within(c: Conn, window: nat) {
    OneCaller(c.callers, c.uncounted, Load(c), window)
  }

  lemma {:induction false} LookWithin(c: Conn, t: nat, part: seq<byte>, window: nat)
    requires Within(c, window) && c.callers == map[]
    ensures Within(DoLook(c, t, part), window)
  {
    hide Flatten;
    assert map[][t := Looked(part)] == map[t := Looked(part)];
  }

  lemma {:induction false} MeasureWithin(c: Conn, t: nat, window: nat)
    requires Inv(c) && Within(c, window)
    ensures Within(DoMeasure(c, t, window), window)
  {
    hide Flatten, Small, InOrder;
    if t in c.callers && c.callers[t].Looked? {
      var part := c.callers[t].part;
      assert c.callers == map[t := c.callers[t]];
      assert c.callers - {t} == map[] && c.callers[t := Checked(part)] == map[t := Checked(part)];
    }
  }

  lemma {:induction false} PushWithin(c: Conn, t: nat, window: nat)
    requires Within(c, window)
    ensures Within(DoPush(c, t), window)
  {
    hide Flatten;
    if t in c.callers && c.callers[t].Checked? {
      var part := c.callers[t].part;
      FlattenSnoc(c.queue, part);
      assert c.callers == map[t := c.callers[t]];
      assert c.callers - {t} == map[] && c.callers[t := Sent(part)] == map[t := Sent(part)];
    }
  }

  lemma {:induction false} CountWithin(c: Conn, t: nat, window: nat)
    requires Within(c, window)
    ensures Within(DoCount(c, t), window)
  {
    hide Flatten;
    if t in c.callers && c.callers[t].Sent? {
      assert c.callers == map[t := c.callers[t]];
      assert c.callers - {t} == map[];
    }
  }

  /** The writer and the end of the stream only lower the load. */
  lemma {:induction false} OthersWithin(c: Conn, op: Op, window: nat)
    requires !op.Look? && !op.Measure? && !op.Push? && !op.Count?
    ensures var c' := Next(c, op, window);
            c'.callers == c.callers && c'.uncounted == c.uncounted && Load(c') <= Load(c)
  {
    if op.Take? && c.queue != [] {
      assert Flatten(c.queue) == c.queue[0] + Flatten(c.queue[1..]);
    }
    hide Flatten, DoLook, DoMeasure, DoPush, DoCount;
  }

  lemma {:induction false} LessLoad(callers: map<nat, Caller>, uncounted: int, load: nat, load': nat, window: nat)
    requires OneCaller(callers, uncounted, load, window) && load' <= load
    ensures OneCaller(callers, uncounted, load', window)
  {
  }

  lemma {:induction false} StepWithin(c: Conn, op: Op, window: nat)
    requires Inv(c) && Within(c, window) && (op.Look? ==> c.callers == map[])
    ensures Within(Next(c, op, window), window)
  {
    hide Inv, OneCaller, Load;
    match op
    case Look(t, part) => LookWithin(c, t, part, window);
    case Measure(t) => MeasureWithin(c, t, window);
    case Push(t) => PushWithin(c, t, window);
    case Count(t) => CountWithin(c, t, window);
    case _ =>
      OthersWithin(c, op, window);
      LessLoad(c.callers, c.uncounted, Load(c), Load(Next(c, op, window)), window);
  }

  /** When calls are serialised, the bytes queued never exceed the send window, whatever it is. */
  lemma {:induction false} WindowHolds(ops: seq<Op>, window: nat)
    requires Serialised(ops, window)
    ensures Within(Run(ops, window), window)
    ensures QueuedBytes(Run(ops, window).queue) <= window
  {
    if ops != [] {
      var init := ops[..|ops| - 1];
      assert Serialised(init, window) by {
        assert forall i :: 0 <= i < |init| ==> init[..i] == ops[..i];
      }
      WindowHolds(init, window);
      AlwaysInv(init, window);
      hide Follow, Inv, Serialised;
      FollowSnoc(Start(), init, ops[|ops| - 1], window);
      assert init + [ops[|ops| - 1]] == ops;
      StepWithin(Run(init, window), ops[|ops| - 1], window);
    }
  }

  // ---------------------------------------------------------------- calls that overlap

  lemma {:induction false} SmallBytes(q: Queue)
    requires forall i :: 0 <= i < |q| ==> |q[i]| <= CHUNK
    ensures QueuedBytes(q) <= |q| * CHUNK
  {
    if q != [] {
      SmallBytes(q[1..]);
    }
  }

  /** Whatever overlaps, the channel holds at most so much. */
  lemma {:induction false} CapacityHolds(ops: seq<Op>, window: nat)
    ensures QueuedBytes(Run(ops, window).queue) <= CAPACITY
  {
    AlwaysInv(ops, window);
    SmallBytes(Run(ops, window).queue);
  }

  /** Nobody is under way, and `k` chunks of `n` bytes in all are queued and counted. */
  predicate Idle(c: Conn, k: nat, n: nat) {
    && c.callers == map[] && c.live && c.open && c.uncounted == 0
    && |c.queue| == k && c.counter == n && QueuedBytes(c.queue) == n
  }

  /** A whole call with one chunk. */
  function OneCall(part: seq<byte>): seq<Op> {
    [Look(0, part), Measure(0), Push(0), Count(0)]
  }

  /** Two calls that both find room before either has sent. */
  function TwoCalls(part: seq<byte>): seq<Op> {
    [Look(0, part), Look(1, part), Measure(0), Measure(1), Push(0), Push(1)]
  }

  lemma {:induction false} OneSends(c: Conn, k: nat, n: nat, part: seq<byte>, window: nat)
    requires Idle(c, k, n) && part != [] && |part| <= CHUNK && n + |part| <= window && k < SLOTS
    ensures var c1 := DoMeasure(DoLook(c, 0, part), 0, window);
            Idle(DoCount(DoPush(c1, 0), 0), k + 1, n + |part|)
  {
    hide Flatten;
    var c1 := DoMeasure(DoLook(c, 0, part), 0, window);
    assert c1 == c.(callers := map[0 := Checked(part)]);
    FlattenSnoc(c.queue, part);
    assert DoCount(DoPush(c1, 0), 0).callers == map[];
  }

  lemma {:induction false} OneCallQueues(c: Conn, k: nat, n: nat, part: seq<byte>, window: nat)
    requires Idle(c, k, n) && part != [] && |part| <= CHUNK && n + |part| <= window && k < SLOTS
    ensures Idle(Follow(c, OneCall(part), window), k + 1, n + |part|)
  {
    hide Follow, Idle, DoLook, DoMeasure, DoPush, DoCount;
    OneSends(c, k, n, part, window);
    var c1 := DoMeasure(DoLook(c, 0, part), 0, window);
    FollowTwo(c, Look(0, part), Measure(0), window);
    FollowTwo(c1, Push(0), Count(0), window);
    FollowAppend(c, [Look(0, part), Measure(0)], [Push(0), Count(0)], window);
    assert OneCall(part) == [Look(0, part), Measure(0)] + [Push(0), Count(0)];
  }

  lemma {:induction false} BothSend(c: Conn, part: seq<byte>, window: nat)
    requires c.callers == map[] && c.live && c.open && |c.queue| + 1 < SLOTS
    requires part != [] && |part| <= CHUNK && c.counter + |part| <= window
    ensures var c1 := DoLook(DoLook(c, 0, part), 1, part);
            var c2 := DoMeasure(DoMeasure(c1, 0, window), 1, window);
            DoPush(DoPush(c2, 0), 1).queue == c.queue + [part] + [part]
  {
    var c1 := DoLook(DoLook(c, 0, part), 1, part);
    assert c1 == c.(callers := map[0 := Looked(part), 1 := Looked(part)]);
    var c2 := DoMeasure(DoMeasure(c1, 0, window), 1, window);
    assert c2 == c.(callers := map[0 := Checked(part), 1 := Checked(part)]);
  }

  lemma {:induction false} TwoCallsQueue(c: Conn, k: nat, n: nat, part: seq<byte>, window: nat)
    requires Idle(c, k, n) && part != [] && |part| <= CHUNK && n + |part| <= window && k + 1 < SLOTS
    ensures QueuedBytes(Follow(c, TwoCalls(part), window).queue) == n + 2 * |part|
  {
    hide Flatten, Follow, DoLook, DoMeasure, DoPush;
    BothSend(c, part, window);
    var c1 := DoLook(DoLook(c, 0, part), 1, part);
    var c2 := DoMeasure(DoMeasure(c1, 0, window), 1, window);
    FollowTwo(c, Look(0, part), Look(1, part), window);
    FollowTwo(c1, Measure(0), Measure(1), window);
    FollowTwo(c2, Push(0), Push(1), window);
    FollowAppend(c, [Look(0, part), Look(1, part)], [Measure(0), Measure(1)], window);
    FollowAppend(c, [Look(0, part), Look(1, part)] + [Measure(0), Measure(1)], [Push(0), Push(1)], window);
    assert TwoCalls(part) == [Look(0, part), Look(1, part)] + [Measure(0), Measure(1)] + [Push(0), Push(1)];
    FlattenSnoc(c.queue, part);
    FlattenSnoc(c.queue + [part], part);
  }

  function FullChunk(): (part: seq<byte>)
    ensures |part| == CHUNK
  {
    seq(CHUNK, _ => 0)
  }

  lemma {:induction false} FillUp(k: nat, window: nat) returns (ops: seq<Op>)
    requires k < SLOTS && k * CHUNK <= window
    ensures Idle(Run(ops, window), k, k * CHUNK)
  {
    if k == 0 {
      ops := [];
    } else {
      var before := FillUp(k - 1, window);
      hide Follow, Idle;
      OneCallQueues(Run(before, window), k - 1, (k - 1) * CHUNK, FullChunk(), window);
      FollowAppend(Start(), before, OneCall(FullChunk()), window);
      ops := before + OneCall(FullChunk());
    }
  }

  /** Below that capacity two overlapping calls can exceed the window: with as many full chunks queued
      as leave room for one more, both send one. */
  lemma {:induction false} WindowExceeded(window: nat) returns (ops: seq<Op>)
    requires 1 <= window < CAPACITY
    ensures QueuedBytes(Run(ops, window).queue) > window
  {
    hide Follow, Idle;
    var k := if window < CHUNK then 0 else window / CHUNK - 1;
    var part := if window < CHUNK then FullChunk()[..window] else FullChunk();
    var before := FillUp(k, window);
    TwoCallsQueue(Run(before, window), k, k * CHUNK, part, window);
    FollowAppend(Start(), before, TwoCalls(part), window);
    ops := before + TwoCalls(part);
  }

  /** In every run, with any overlap of calls, the queue stays within the window. */
  ghost predicate AlwaysWithin(window: nat) {
    forall ops :: QueuedBytes(Run(ops, window).queue) <= window
  }

  /** MAIN RESULT.  Without serialisation the queued bytes stay within the send window in every run if
      and only if the window is at least what the channel can hold. */
  lemma {:induction false} WindowExactly(window: nat)
    requires window >= 1
    ensures AlwaysWithin(window) <==> window >= 1_048_576
  {
    if window >= CAPACITY {
      forall ops
        ensures QueuedBytes(Run(ops, window).queue) <= window
      {
        CapacityHolds(ops, window);
      }
    } else {
      var ops := WindowExceeded(window);
    }
  }

  /** The shipped window is one that overlapping calls can exceed. */
  lemma {:induction false} ShippedWindow()
    ensures !AlwaysWithin(65536)
  {
    WindowExactly(65536);
  }

  // ---------------------------------------------------------------- sending on the closed channel

  /** A call is under way with this chunk and has not sent it. */
  predicate OnItsWay(c: Conn, t: nat, part: seq<byte>) {
    t in c.callers && !c.callers[t].Sent? && c.callers[t].part == part
  }

  lemma {:induction false} RunTo(ops: seq<Op>, i: nat, window: nat)
    requires i < |ops|
    ensures Run(ops[..i + 1], window) == Next(Run(ops[..i], window), ops[i], window)
  {
    assert ops[..i + 1][..i] == ops[..i];
  }

  lemma {:induction false} NothingUnderWay(window: nat)
    ensures Run([], window).callers == map[]
  {
  }

  /** Where a chunk that is not yet sent comes from, step by step. */
  lemma {:induction false} UnsentStep(c: Conn, op: Op, t: nat, part: seq<byte>, window: nat)
    requires OnItsWay(Next(c, op, window), t, part)
    ensures OnItsWay(c, t, part) || (op == Look(t, part) && c.live)
  {
    hide DoTake, DoUncount, DoCheckLive, DoWrite, DoQuit;
  }

  lemma {:induction false} FlagStep(c: Conn, op: Op, window: nat)
    ensures !Next(c, op, window).open <==> !c.open || (op.CloseChannel? && c.closing)
    ensures Next(c, op, window).closing <==> c.closing || op.BeginClose?
  {
    hide DoLook, DoMeasure, DoPush, DoCount, DoTake, DoUncount, DoCheckLive, DoWrite, DoQuit;
  }

  /** A chunk on its way was looked at while the stream was live, and has been on its way since. */
  lemma {:induction false} LookedAt(ops: seq<Op>, i: nat, t: nat, part: seq<byte>, window: nat) returns (j: nat)
    requires i <= |ops| && OnItsWay(Run(ops[..i], window), t, part)
    ensures j < i && ops[j] == Look(t, part) && Run(ops[..j], window).live
    ensures forall m :: j < m <= i ==> OnItsWay(Run(ops[..m], window), t, part)
  {
    hide Run, Next;
    assert ops[..0] == [];
    NothingUnderWay(window);
    RunTo(ops, i - 1, window);
    var prev := Run(ops[..i - 1], window);
    UnsentStep(prev, ops[i - 1], t, part, window);
    if OnItsWay(prev, t, part) {
      j := LookedAt(ops, i - 1, t, part, window);
    } else {
      j := i - 1;
    }
  }

  /** Flags only move one way, and which operation moves them. */
  lemma {:induction false} ClosedBy(ops: seq<Op>, j: nat, i: nat, window: nat) returns (k: nat, m: nat)
    requires j <= i <= |ops| && Run(ops[..j], window).live && !Run(ops[..i], window).open
    ensures j <= k < m < i && ops[k].BeginClose? && ops[m].CloseChannel?
  {
    hide Run, Next;
    m := ChannelClosedAt(ops, j, i, window);
    AlwaysInv(ops[..j], window);
    FieldBounds(Run(ops[..j], window));
    k := CloseBegunAt(ops, j, m, window);
  }

  lemma {:induction false} ChannelClosedAt(ops: seq<Op>, j: nat, i: nat, window: nat) returns (m: nat)
    requires j <= i <= |ops| && Run(ops[..j], window).live && !Run(ops[..i], window).open
    ensures j <= m < i && ops[m].CloseChannel? && Run(ops[..m], window).closing
  {
    hide Run, Next;
    AlwaysInv(ops[..j], window);
    FieldBounds(Run(ops[..j], window));
    hide Inv;
    RunTo(ops, i - 1, window);
    FlagStep(Run(ops[..i - 1], window), ops[i - 1], window);
    if Run(ops[..i - 1], window).open {
      m := i - 1;
    } else {
      m := ChannelClosedAt(ops, j, i - 1, window);
    }
  }

  lemma {:induction false} CloseBegunAt(ops: seq<Op>, j: nat, i: nat, window: nat) returns (k: nat)
    requires j <= i <= |ops| && !Run(ops[..j], window).closing && Run(ops[..i], window).closing
    ensures j <= k < i && ops[k].BeginClose?
  {
    hide Run, Next;
    RunTo(ops, i - 1, window);
    FlagStep(Run(ops[..i - 1], window), ops[i - 1], window);
    if Run(ops[..i - 1], window).closing {
      k := CloseBegunAt(ops, j, i - 1, window);
    } else {
      k := i - 1;
    }
  }

  lemma {:induction false} StaysClosed(ops: seq<Op>, m: nat, i: nat, window: nat)
    requires m < i <= |ops| && Run(ops[..m], window).closing && ops[m].CloseChannel?
    ensures !Run(ops[..i], window).open
  {
    hide Run, Next;
    RunTo(ops, i - 1, window);
    FlagStep(Run(ops[..i - 1], window), ops[i - 1], window);
    if i > m + 1 {
      StaysClosed(ops, m, i - 1, window);
    }
  }

  lemma {:induction false} StaysClosing(ops: seq<Op>, k: nat, i: nat, window: nat)
    requires k < i <= |ops| && ops[k].BeginClose?
    ensures Run(ops[..i], window).closing
  {
    hide Run, Next;
    RunTo(ops, i - 1, window);
    FlagStep(Run(ops[..i - 1], window), ops[i - 1], window);
    if i > k + 1 {
      StaysClosing(ops, k, i - 1, window);
    }
  }

  /** MAIN RESULT.  A send panics if and only if, since that call saw the stream live with this chunk,
      Close has begun and has closed the channel. */
  lemma {:induction false} SendPanicsExactly(ops: seq<Op>, i: nat, t: nat, part: seq<byte>, window: nat)
    returns (j: nat)
    requires i < |ops| && ops[i] == Push(t)
    requires t in Run(ops[..i], window).callers && Run(ops[..i], window).callers[t] == Checked(part)
    ensures j < i && ops[j] == Look(t, part)
    ensures forall m :: j < m <= i ==> OnItsWay(Run(ops[..m], window), t, part)
    ensures Panics(Run(ops[..i], window), ops[i])
            <==> exists k, m :: j < k < m < i && ops[k].BeginClose? && ops[m].CloseChannel?
  {
    hide Run;
    j := LookedAt(ops, i, t, part, window);
    if Panics(Run(ops[..i], window), ops[i]) {
      var k, m := ClosedBy(ops, j, i, window);
      assert k != j;
    }
    forall k, m | j < k < m < i && ops[k].BeginClose? && ops[m].CloseChannel?
      ensures Panics(Run(ops[..i], window), ops[i])
    {
      StaysClosing(ops, k, m, window);
      StaysClosed(ops, m, i, window);
    }
  }

  /** It does happen, to any chunk the window has room for. */
  lemma {:induction false} SendPanicHappens(part: seq<byte>, window: nat)
    requires part != [] && |part| <= CHUNK && |part| <= window
    ensures var ops := [Look(0, part), Measure(0), BeginClose, CloseChannel];
            Panics(Run(ops, window), Push(0))
  {
    var c1 := DoMeasure(DoLook(Start(), 0, part), 0, window);
    FollowTwo(Start(), Look(0, part), Measure(0), window);
    FollowTwo(c1, BeginClose, CloseChannel, window);
    FollowAppend(Start(), [Look(0, part), Measure(0)], [BeginClose, CloseChannel], window);
    assert [Look(0, part), Measure(0)] + [BeginClose, CloseChannel]
        == [Look(0, part), Measure(0), BeginClose, CloseChannel];
  }
}
