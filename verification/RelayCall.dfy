/** One call of Enqueue on a relay connection, with anything going on between its actions. */
module RelayCall {
  import opened Bytes
  import opened RelayConn

  function FirstChunk(data: seq<byte>): (part: seq<byte>)
    ensures |part| <= CHUNK && (data != [] ==> part != []) && part <= data
  {
    if |data| <= CHUNK then data else data[..CHUNK]
  }

  /** What others do before each action of a call on one chunk. */
  datatype Turn = Turn(looking: seq<Op>, measuring: seq<Op>, sending: seq<Op>, counting: seq<Op>)

  const QUIET: Turn := Turn([], [], [], [])

  function Head(turns: seq<Turn>): Turn {
    if turns == [] then QUIET else turns[0]
  }

  function Tail(turns: seq<Turn>): seq<Turn> {
    if turns == [] then [] else turns[1..]
  }

  /** How a chunk fares, and the connection after it. */
  datatype Offered = Offered(ok: bool, panics: bool, conn: Conn)

  function Offer(c: Conn, t: nat, part: seq<byte>, window: nat, turn: Turn): Offered {
    var looked := DoLook(Follow(c, turn.looking, window), t, part);
    if t !in looked.callers then Offered(false, false, looked)
    else
      var measured := DoMeasure(Follow(looked, turn.measuring, window), t, window);
      if t !in measured.callers then Offered(false, false, measured)
      else
        var ready := Follow(measured, turn.sending, window);
        var pushed := DoPush(ready, t);
        if t !in pushed.callers then Offered(false, Panics(ready, Push(t)), pushed)
        else Offered(true, false, DoCount(Follow(pushed, turn.counting, window), t))
  }

  /** How many bytes a call gets into the queue, whether it then panics, and the connection after it. */
  datatype Verdict = Verdict(n: nat, panics: bool, conn: Conn)

  /** What a call by `t` does while the others act as `turns` says. */
  function Accepts(c: Conn, t: nat, data: seq<byte>, window: nat, turns: seq<Turn>): (v: Verdict)
    ensures v.n <= |data|
    decreases |data|
  {
    if data == [] then Verdict(0, false, c)
    else
      var part := FirstChunk(data);
      var o := Offer(c, t, part, window, Head(turns));
      if !o.ok then Verdict(0, o.panics, o.conn)
      else
        var rest := Accepts(o.conn, t, data[|part|..], window, Tail(turns));
        Verdict(|part| + rest.n, rest.panics, rest.conn)
  }

  /** One turn of the chunking loop at `offset`. */
  lemma {:induction false} AcceptsStep(
    c: Conn, t: nat, data: seq<byte>, offset: nat, end: nat, window: nat, turns: seq<Turn>)
    requires offset < |data| && end == if offset + CHUNK > |data| then |data| else offset + CHUNK
    ensures var part := data[offset..end];
            var o := Offer(c, t, part, window, Head(turns));
            var rest := Accepts(o.conn, t, data[end..], window, Tail(turns));
            && part != [] && |part| <= CHUNK
            && Accepts(c, t, data[offset..], window, turns)
               == if o.ok then Verdict(|part| + rest.n, rest.panics, rest.conn) else Verdict(0, o.panics, o.conn)
  {
    hide Offer;
    assert data[offset..end] == FirstChunk(data[offset..]);
    assert data[offset..][end - offset..] == data[end..];
  }

  lemma {:induction false} AcceptsNothing(c: Conn, t: nat, window: nat, turns: seq<Turn>)
    ensures Accepts(c, t, [], window, turns) == Verdict(0, false, c)
  {
  }

  /** Whatever the others do is no action of this call. */
  predicate Foreign(ops: seq<Op>, t: nat) {
    forall i :: 0 <= i < |ops| ==>
      !((ops[i].Look? || ops[i].Measure? || ops[i].Push? || ops[i].Count?) && ops[i].t == t)
  }

  predicate ForeignTurn(turn: Turn, t: nat) {
    Foreign(turn.looking, t) && Foreign(turn.measuring, t) && Foreign(turn.sending, t) && Foreign(turn.counting, t)
  }

  predicate ForeignTurns(turns: seq<Turn>, t: nat) {
    forall i :: 0 <= i < |turns| ==> ForeignTurn(turns[i], t)
  }

  /** What others cannot change of a call. */
  ghost predicate SameFor(c: Conn, c': Conn, t: nat) {
    && (t in c.callers <==> t in c'.callers)
    && (t in c.callers ==> c'.callers[t] == c.callers[t])
    && SentBy(c', t) == SentBy(c, t)
  }

  lemma {:induction false} ForeignKeep(c: Conn, ops: seq<Op>, t: nat, window: nat)
    requires Foreign(ops, t)
    ensures SameFor(c, Follow(c, ops, window), t)
  {
    if ops != [] {
      var init, last := ops[..|ops| - 1], ops[|ops| - 1];
      ForeignKeep(c, init, t, window);
      if last.Look? || last.Measure? || last.Push? || last.Count? {
        OtherCaller(Follow(c, init, window), last, t, window);
      } else {
        NoCaller(Follow(c, init, window), last, window);
      }
      hide Next, SentBy;
    }
  }

  lemma {:induction false} OtherCaller(c: Conn, op: Op, t: nat, window: nat)
    requires (op.Look? || op.Measure? || op.Push? || op.Count?) && op.t != t
    ensures SameFor(c, Next(c, op, window), t)
  {
    match op
    case Look(u, part) => assert Next(c, op, window) == DoLook(c, u, part);
    case Measure(u) => assert Next(c, op, window) == DoMeasure(c, u, window);
    case Push(u) => OtherPush(c, u, t);
    case Count(u) => assert Next(c, op, window) == DoCount(c, u);
  }

  lemma {:induction false} OtherPush(c: Conn, u: nat, t: nat)
    requires u != t
    ensures SameFor(c, DoPush(c, u), t)
  {
  }

  lemma {:induction false} NoCaller(c: Conn, op: Op, window: nat)
    requires !op.Look? && !op.Measure? && !op.Push? && !op.Count?
    ensures Next(c, op, window).callers == c.callers && Next(c, op, window).sent == c.sent
  {
    hide DoTake, DoUncount, DoCheckLive, DoWrite, DoQuit;
  }

  /** What each action of a call does to its own place, and what it has sent. */
  lemma {:induction false} OwnSteps(c: Conn, t: nat, part: seq<byte>, window: nat)
    ensures t !in c.callers ==>
              var c' := DoLook(c, t, part);
              SentBy(c', t) == SentBy(c, t) && (t in c'.callers ==> c'.callers[t] == Looked(part))
    ensures t in c.callers && c.callers[t] == Looked(part) ==>
              var c' := DoMeasure(c, t, window);
              SentBy(c', t) == SentBy(c, t) && (t in c'.callers ==> c'.callers[t] == Checked(part))
    ensures t in c.callers && c.callers[t] == Checked(part) ==>
              var c' := DoPush(c, t);
              if t in c'.callers then c'.callers[t] == Sent(part) && SentBy(c', t) == SentBy(c, t) + part
              else SentBy(c', t) == SentBy(c, t)
    ensures t in c.callers && c.callers[t] == Sent(part) ==>
              var c' := DoCount(c, t);
              t !in c'.callers && SentBy(c', t) == SentBy(c, t)
  {
  }

  /** An offered chunk is sent whole exactly when the offer succeeds. */
  lemma {:induction false} OfferSends(c: Conn, t: nat, part: seq<byte>, window: nat, turn: Turn)
    requires t !in c.callers && ForeignTurn(turn, t)
    ensures var o := Offer(c, t, part, window, turn);
            && t !in o.conn.callers
            && SentBy(o.conn, t) == SentBy(c, t) + if o.ok then part else []
  {
    hide Follow, Foreign, SentBy, DoLook, DoMeasure, DoPush, DoCount;
    ForeignKeep(c, turn.looking, t, window);
    OwnSteps(Follow(c, turn.looking, window), t, part, window);
    var looked := DoLook(Follow(c, turn.looking, window), t, part);
    ForeignKeep(looked, turn.measuring, t, window);
    OwnSteps(Follow(looked, turn.measuring, window), t, part, window);
    var measured := DoMeasure(Follow(looked, turn.measuring, window), t, window);
    ForeignKeep(measured, turn.sending, t, window);
    OwnSteps(Follow(measured, turn.sending, window), t, part, window);
    var pushed := DoPush(Follow(measured, turn.sending, window), t);
    ForeignKeep(pushed, turn.counting, t, window);
    OwnSteps(Follow(pushed, turn.counting, window), t, part, window);
  }

  /** MAIN RESULT.  Whatever others do meanwhile, a call sends exactly the prefix it reports, in order,
      and leaves nothing of itself behind. */
  lemma {:induction false} CallSends(c: Conn, t: nat, data: seq<byte>, window: nat, turns: seq<Turn>)
    requires t !in c.callers && ForeignTurns(turns, t)
    ensures var v := Accepts(c, t, data, window, turns);
            && t !in v.conn.callers
            && SentBy(v.conn, t) == SentBy(c, t) + data[..v.n]
    decreases |data|
  {
    hide Offer, ForeignTurn, SentBy;
    if data != [] {
      var part := FirstChunk(data);
      var o := Offer(c, t, part, window, Head(turns));
      QuietIsForeign(t);
      OfferSends(c, t, part, window, Head(turns));
      if o.ok {
        CallSends(o.conn, t, data[|part|..], window, Tail(turns));
        var n := Accepts(o.conn, t, data[|part|..], window, Tail(turns)).n;
        assert data[..|part| + n] == part + data[|part|..][..n];
      }
    }
  }

  lemma {:induction false} QuietIsForeign(t: nat)
    ensures ForeignTurn(QUIET, t)
  {
  }

  // ---------------------------------------------------------------- the longest prefix

  /** A prefix length at which the data can be cut: whole chunks, or all of it. */
  predicate Cut(data: seq<byte>, m: nat) {
    m <= |data| && (m == |data| || m % CHUNK == 0)
  }

  function Chunks(m: nat): nat {
    (m + CHUNK - 1) / CHUNK
  }

  /** There is room for `m` bytes when the counter shows `used` and `slots` chunks are queued. */
  predicate Room(used: int, slots: nat, m: nat, window: nat) {
    used + m <= window && slots + Chunks(m) <= SLOTS
  }

  ghost predicate NoneLonger(used: int, slots: nat, data: seq<byte>, n: nat, window: nat) {
    forall m :: n < m && Cut(data, m) ==> !Room(used, slots, m, window)
  }

  lemma {:induction false} QuietOffer(c: Conn, t: nat, part: seq<byte>, window: nat)
    requires t !in c.callers && part != [] && |part| <= CHUNK && c.live && c.open
    ensures var o := Offer(c, t, part, window, QUIET);
            && !o.panics
            && (o.ok <==> c.counter + |part| <= window && |c.queue| < SLOTS)
            && (o.ok ==> o.conn.live && o.conn.open && o.conn.counter == c.counter + |part|
                         && |o.conn.queue| == |c.queue| + 1 && t !in o.conn.callers)
  {
  }

  /** MAIN RESULT.  Left alone on a live connection, a call accepts the longest prefix of whole chunks
      that the window and the slots have room for. */
  lemma {:induction false} AcceptsLongest(c: Conn, t: nat, data: seq<byte>, window: nat)
    requires t !in c.callers && c.live && c.open
    ensures var v := Accepts(c, t, data, window, []);
            && !v.panics
            && Cut(data, v.n)
            && (v.n == 0 || Room(c.counter, |c.queue|, v.n, window))
            && NoneLonger(c.counter, |c.queue|, data, v.n, window)
    decreases |data|
  {
    hide Offer;
    if data != [] {
      var part := FirstChunk(data);
      QuietOffer(c, t, part, window);
      var o := Offer(c, t, part, window, QUIET);
      if o.ok {
        hide Cut, Chunks, NoneLonger;
        var v := Accepts(o.conn, t, data[|part|..], window, []);
        AcceptsLongest(o.conn, t, data[|part|..], window);
        CutOn(data, v.n);
        NoChunks();
        LongestOn(c.counter, |c.queue|, data, v.n, window);
      } else {
        LongestHere(c.counter, |c.queue|, data, window);
      }
    }
  }

  lemma {:induction false} NoChunks()
    ensures Chunks(0) == 0
  {
  }

  lemma {:induction false} LongestOn(used: int, slots: nat, data: seq<byte>, n: nat, window: nat)
    requires data != []
    requires NoneLonger(used + |FirstChunk(data)|, slots + 1, data[|FirstChunk(data)|..], n, window)
    ensures NoneLonger(used, slots, data, |FirstChunk(data)| + n, window)
  {
    hide Cut, Chunks;
    var part := FirstChunk(data);
    forall m | |part| + n < m && Cut(data, m)
      ensures !Room(used, slots, m, window)
    {
      CutBack(data, m);
      assert !Room(used + |part|, slots + 1, m - |part|, window);
    }
  }

  lemma {:induction false} LongestHere(used: int, slots: nat, data: seq<byte>, window: nat)
    requires data != [] && !(used + |FirstChunk(data)| <= window && slots < SLOTS)
    ensures NoneLonger(used, slots, data, 0, window)
  {
    hide Cut, Chunks;
    forall m | 0 < m && Cut(data, m)
      ensures !Room(used, slots, m, window)
    {
      CutBack(data, m);
    }
  }

  lemma {:induction false} CutOn(data: seq<byte>, m: nat)
    requires data != [] && Cut(data[|FirstChunk(data)|..], m)
    ensures Cut(data, |FirstChunk(data)| + m) && Chunks(|FirstChunk(data)| + m) == 1 + Chunks(m)
  {
  }

  lemma {:induction false} CutBack(data: seq<byte>, m: nat)
    requires data != [] && Cut(data, m) && m > 0
    ensures var k := |FirstChunk(data)|;
            k <= m && Cut(data[k..], m - k) && Chunks(m) == 1 + Chunks(m - k)
  {
  }

  // ---------------------------------------------------------------- the writer helps

  /** Actions of the writer, with the target taking every chunk. */
  predicate WriterOnly(ops: seq<Op>) {
    forall i :: 0 <= i < |ops| ==>
      ops[i].Take? || ops[i].Uncount? || ops[i].CheckLive? || (ops[i].Write? && ops[i].ok)
  }

  predicate WriterTurn(turn: Turn) {
    WriterOnly(turn.looking) && WriterOnly(turn.measuring) && WriterOnly(turn.sending) && WriterOnly(turn.counting)
  }

  /** A connection on which a call by `t` gets at least as far as on `c`. */
  ghost predicate Easier(c': Conn, c: Conn, t: nat) {
    && c'.live && c'.open && c.live && c.open
    && c'.counter <= c.counter && |c'.queue| <= |c.queue|
    && (t in c'.callers <==> t in c.callers)
    && (t in c.callers ==> c'.callers[t] == c.callers[t])
  }

  lemma {:induction false} WriterEases(c': Conn, c: Conn, t: nat, ops: seq<Op>, window: nat)
    requires Easier(c', c, t) && WriterOnly(ops)
    ensures Easier(Follow(c', ops, window), c, t)
  {
    if ops != [] {
      WriterEases(c', c, t, ops[..|ops| - 1], window);
    }
  }

  /** Each action of the call succeeds on the easier connection where it does on the other. */
  lemma {:induction false} StepsEase(c': Conn, c: Conn, t: nat, part: seq<byte>, window: nat)
    requires Easier(c', c, t) && part != [] && |part| <= CHUNK
    ensures t !in c.callers ==>
              Easier(DoLook(c', t, part), DoLook(c, t, part), t) && t in DoLook(c, t, part).callers
              && DoLook(c, t, part).callers[t] == Looked(part)
    ensures t in c.callers && c.callers[t] == Looked(part) && t in DoMeasure(c, t, window).callers ==>
              Easier(DoMeasure(c', t, window), DoMeasure(c, t, window), t)
              && DoMeasure(c, t, window).callers[t] == Checked(part)
    ensures t in c.callers && c.callers[t] == Checked(part) && t in DoPush(c, t).callers ==>
              Easier(DoPush(c', t), DoPush(c, t), t) && DoPush(c, t).callers[t] == Sent(part)
    ensures t in c.callers && c.callers[t] == Sent(part) ==> Easier(DoCount(c', t), DoCount(c, t), t)
  {
  }

  lemma {:induction false} OfferEases(c': Conn, c: Conn, t: nat, part: seq<byte>, window: nat, turn: Turn)
    requires Easier(c', c, t) && WriterTurn(turn) && t !in c.callers && part != [] && |part| <= CHUNK
    requires Offer(c, t, part, window, QUIET).ok
    ensures var o := Offer(c', t, part, window, turn);
            o.ok && Easier(o.conn, Offer(c, t, part, window, QUIET).conn, t)
  {
    hide Follow, WriterOnly, DoLook, DoMeasure, DoPush, DoCount;
    var a0 := DoLook(c, t, part);
    var a1 := DoMeasure(a0, t, window);
    var a2 := DoPush(a1, t);
    NothingFollows(c, window);
    NothingFollows(a0, window);
    NothingFollows(a1, window);
    NothingFollows(a2, window);
    WriterEases(c', c, t, turn.looking, window);
    StepsEase(Follow(c', turn.looking, window), c, t, part, window);
    var b0 := DoLook(Follow(c', turn.looking, window), t, part);
    WriterEases(b0, a0, t, turn.measuring, window);
    StepsEase(Follow(b0, turn.measuring, window), a0, t, part, window);
    var b1 := DoMeasure(Follow(b0, turn.measuring, window), t, window);
    WriterEases(b1, a1, t, turn.sending, window);
    StepsEase(Follow(b1, turn.sending, window), a1, t, part, window);
    var b2 := DoPush(Follow(b1, turn.sending, window), t);
    WriterEases(b2, a2, t, turn.counting, window);
    StepsEase(Follow(b2, turn.counting, window), a2, t, part, window);
  }

  lemma {:induction false} NothingFollows(c: Conn, window: nat)
    ensures Follow(c, [], window) == c
  {
  }

  /** The writer can only help: however its actions fall between those of the call, the call accepts at
      least as much as it would have on a connection that is no emptier. */
  lemma {:induction false} WriterOnlyHelps(c': Conn, c: Conn, t: nat, data: seq<byte>, window: nat, turns: seq<Turn>)
    requires Easier(c', c, t) && t !in c.callers
    requires forall i :: 0 <= i < |turns| ==> WriterTurn(turns[i])
    ensures Accepts(c', t, data, window, turns).n >= Accepts(c, t, data, window, []).n
    decreases |data|
  {
    hide Offer, WriterTurn;
    if data != [] {
      var part := FirstChunk(data);
      var o := Offer(c, t, part, window, QUIET);
      QuietIsWriters();
      if o.ok {
        OfferEases(c', c, t, part, window, Head(turns));
        QuietOffer(c, t, part, window);
        WriterOnlyHelps(Offer(c', t, part, window, Head(turns)).conn, o.conn, t, data[|part|..], window, Tail(turns));
      }
    }
  }

  lemma {:induction false} QuietIsWriters()
    ensures WriterTurn(QUIET)
  {
  }
}
