/** The relay connection's own fields, proved to make the actions of the connection machine. */
module RelayUpstream {
  import opened Bytes
  import opened RelayConn
  import opened RelayCall

  /** What a call returns: bytes accepted and the counter, the error of an ended connection, or a panic. */
  datatype EnqueueResult = Done(accepted: nat, queued: int) | ConnClosed | PanicSendOnClosed

  /** The fields of a connection, with `writer` and `callers` the local variables of its goroutines. */
  datatype Fields = Fields(
    queue: Queue, bytes: int, eos: bool, closed: bool, open: bool, writer: Writer, callers: map<nat, Caller>)

  function FieldsOf(c: Conn): Fields {
    Fields(c.queue, c.counter, !c.live, c.closing, c.open, c.writer, c.callers)
  }

  class Upstream {
    const sendWindow: nat
    var upstreamQueue: Queue
    var upstreamBytes: int
    var eos: bool
    var closed: bool
    var channelOpen: bool
    var writer: Writer
    var callers: map<nat, Caller>

    /** All actions so far, and the state they lead to. */
    ghost var history: seq<Op>
    ghost var model: Conn

    ghost predicate Valid()
      reads this
    {
      && sendWindow >= 1
      && model == Run(history, sendWindow)
      && Inv(model)
      && Fields(upstreamQueue, upstreamBytes, eos, closed, channelOpen, writer, callers) == FieldsOf(model)
    }

    constructor (sendWindow: int)
      ensures Valid() && history == []
      ensures this.sendWindow == if sendWindow < 1 then 1 else sendWindow
    {
      this.sendWindow := if sendWindow < 1 then 1 else sendWindow;
      upstreamQueue, upstreamBytes, eos, closed, channelOpen := [], 0, false, false, true;
      writer, callers := Waiting, map[];
      history, model := [], Start();
    }

    /** What is true before and after an action, whatever it is. */
    ghost method Record(op: Op)
      requires model == Run(history, sendWindow) && Inv(model)
      modifies this`history, this`model
      ensures history == old(history) + [op]
      ensures model == Next(old(model), op, sendWindow) == Run(history, sendWindow) && Inv(model)
    {
      hide Next, Inv;
      StepKeeps(model, op, sendWindow);
      FollowSnoc(Start(), history, op, sendWindow);
      history, model := history + [op], Next(model, op, sendWindow);
    }

    // -------------------------------------------------------------- a call

    /** The loop's look at `closed` and `eos`. */
    method LookChunk(t: nat, part: seq<byte>)
      requires Valid() && part != [] && |part| <= CHUNK
      modifies this`callers, this`history, this`model
      ensures Valid() && history == old(history) + [Look(t, part)]
      ensures model == DoLook(old(model), t, part)
    {
      hide Inv, Run, Follow;
      FieldBounds(model);
      Record(Look(t, part));
      if t !in callers && !closed && !eos {
        callers := callers[t := Looked(part)];
      }
    }

    /** The look at the counter. */
    method MeasureChunk(t: nat)
      requires Valid()
      modifies this`callers, this`history, this`model
      ensures Valid() && history == old(history) + [Measure(t)]
      ensures model == DoMeasure(old(model), t, sendWindow)
    {
      hide Inv, Run;
      Record(Measure(t));
      if t in callers && callers[t].Looked? {
        var part := callers[t].part;
        if upstreamBytes + |part| > sendWindow {
          callers := callers - {t};
        } else {
          callers := callers[t := Checked(part)];
        }
      }
    }

    /** The send; on a closed channel it panics. */
    method SendChunk(t: nat) returns (panics: bool)
      requires Valid()
      modifies this`upstreamQueue, this`callers, this`history, this`model
      ensures Valid() && history == old(history) + [Push(t)]
      ensures model == DoPush(old(model), t)
      ensures panics <==> Panics(old(model), Push(t))
    {
      hide Inv, Run;
      FieldBounds(model);
      Record(Push(t));
      if t !in callers || !callers[t].Checked? {
        return false;
      }
      var part := callers[t].part;
      if !channelOpen {
        callers := callers - {t};
        return true;
      }
      if |upstreamQueue| == SLOTS {
        callers := callers - {t};
        return false;
      }
      upstreamQueue := upstreamQueue + [part];
      callers := callers[t := Sent(part)];
      return false;
    }

    method CountChunk(t: nat)
      requires Valid()
      modifies this`upstreamBytes, this`callers, this`history, this`model
      ensures Valid() && history == old(history) + [Count(t)]
      ensures model == DoCount(old(model), t)
    {
      hide Inv, Run;
      Record(Count(t));
      if t in callers && callers[t].Sent? {
        upstreamBytes := upstreamBytes + |callers[t].part|;
        callers := callers - {t};
      }
    }

    // -------------------------------------------------------------- the writer

    method TakeChunk()
      requires Valid()
      modifies this`upstreamQueue, this`writer, this`history, this`model
      ensures Valid() && history == old(history) + [Take]
      ensures model == DoTake(old(model))
    {
      hide Inv, Run;
      Record(Take);
      if writer.Waiting? && upstreamQueue != [] {
        writer := Taken(upstreamQueue[0]);
        upstreamQueue := upstreamQueue[1..];
      }
    }

    method UncountChunk()
      requires Valid()
      modifies this`upstreamBytes, this`writer, this`history, this`model
      ensures Valid() && history == old(history) + [Uncount]
      ensures model == DoUncount(old(model))
    {
      hide Inv, Run;
      Record(Uncount);
      if writer.Taken? {
        upstreamBytes := upstreamBytes - |writer.chunk|;
        writer := Uncounted(writer.chunk);
      }
    }

    method CheckEnded()
      requires Valid()
      modifies this`writer, this`history, this`model
      ensures Valid() && history == old(history) + [CheckLive]
      ensures model == DoCheckLive(old(model))
    {
      hide Inv, Run;
      FieldBounds(model);
      Record(CheckLive);
      if writer.Uncounted? {
        writer := if closed || eos then Gone else Writing(writer.chunk);
      }
    }

    /** The write to the target, which may take only a part before it fails. */
    method WriteChunk(ok: bool, ghost partial: nat)
      requires Valid()
      modifies this`eos, this`writer, this`history, this`model
      ensures Valid() && history == old(history) + [Write(ok, partial)]
      ensures model == DoWrite(old(model), ok, partial)
    {
      hide Inv, Run;
      Record(Write(ok, partial));
      if writer.Writing? {
        if ok {
          writer := Waiting;
        } else {
          eos, writer := true, Gone;
        }
      }
    }

    method QuitWriter()
      requires Valid()
      modifies this`writer, this`history, this`model
      ensures Valid() && history == old(history) + [Quit]
      ensures model == DoQuit(old(model))
    {
      hide Inv, Run;
      Record(Quit);
      if writer.Waiting? && eos {
        writer := Gone;
      }
    }

    // -------------------------------------------------------------- the end

    /** The target has ended or failed. */
    method MarkEOS()
      requires Valid()
      modifies this`eos, this`history, this`model
      ensures Valid() && history == old(history) + [MarkEnd]
      ensures model == old(model).(live := false)
    {
      hide Inv, Run;
      Record(MarkEnd);
      eos := true;
    }

    method StartClose()
      requires Valid()
      modifies this`eos, this`closed, this`history, this`model
      ensures Valid() && history == old(history) + [BeginClose]
      ensures model == old(model).(live := false, closing := true)
    {
      hide Inv, Run;
      Record(BeginClose);
      closed, eos := true, true;
    }

    method CloseQueue()
      requires Valid()
      modifies this`channelOpen, this`history, this`model
      ensures Valid() && history == old(history) + [CloseChannel]
      ensures model == if old(model).closing then old(model).(open := false) else old(model)
    {
      hide Inv, Run;
      Record(CloseChannel);
      if closed {
        channelOpen := false;
      }
    }

    // -------------------------------------------------------------- runs and whole calls

    method Perform(op: Op)
      requires Valid()
      modifies this
      ensures Valid() && history == old(history) + [op] && model == Next(old(model), op, sendWindow)
    {
      hide Inv, Run, DoPush, DoWrite, FieldsOf;
      match op
      case Look(t, part) =>
        if part == [] || |part| > CHUNK {
          Record(op);
        } else {
          LookChunk(t, part);
        }
      case Measure(t) => MeasureChunk(t);
      case Push(t) => var _ := SendChunk(t);
      case Count(t) => CountChunk(t);
      case Take => TakeChunk();
      case Uncount => UncountChunk();
      case CheckLive => CheckEnded();
      case Write(ok, partial) => WriteChunk(ok, partial);
      case Quit => QuitWriter();
      case MarkEnd => MarkEOS();
      case BeginClose => StartClose();
      case CloseChannel => CloseQueue();
    }

    /** What the others do before the next action of a call. */
    method Interlude(ops: seq<Op>)
      requires Valid()
      modifies this
      ensures Valid() && history == old(history) + ops && model == Follow(old(model), ops, sendWindow)
    {
      hide Inv, Run, Next, FieldsOf;
      for i := 0 to |ops|
        invariant Valid() && history == old(history) + ops[..i]
        invariant model == Follow(old(model), ops[..i], sendWindow)
      {
        assert ops[..i + 1] == ops[..i] + [ops[i]];
        FollowSnoc(old(model), ops[..i], ops[i], sendWindow);
        Perform(ops[i]);
      }
      assert ops[..|ops|] == ops;
    }

    /** One chunk of a call. */
    method OfferChunk(t: nat, part: seq<byte>, turn: Turn) returns (ok: bool, panics: bool)
      requires Valid() && part != [] && |part| <= CHUNK
      modifies this
      ensures Valid() && Offered(ok, panics, model) == Offer(old(model), t, part, sendWindow, turn)
    {
      hide Inv, Run, Follow, DoLook, DoMeasure, DoPush, DoCount;
      Interlude(turn.looking);
      LookChunk(t, part);
      if t !in callers {
        return false, false;
      }
      Interlude(turn.measuring);
      MeasureChunk(t);
      if t !in callers {
        return false, false;
      }
      Interlude(turn.sending);
      panics := SendChunk(t);
      if t !in callers {
        return false, panics;
      }
      Interlude(turn.counting);
      CountChunk(t);
      return true, false;
    }

    /** Accepts what fits, chunk by chunk, and returns the byte counter with it.  An ended connection
        is an error, except for an empty call. */
    method Enqueue(t: nat, data: seq<byte>, turns: seq<Turn>) returns (r: EnqueueResult)
      requires Valid()
      modifies this
      ensures Valid()
      ensures r.ConnClosed? <==> data != [] && old(eos)
      ensures r.ConnClosed? ==> model == old(model)
      ensures !r.ConnClosed? ==>
                var v := Accepts(old(model), t, data, sendWindow, turns);
                && model == v.conn
                && r == if v.panics then PanicSendOnClosed else Done(v.n, upstreamBytes)
    {
      hide Run, Accepts, Offer;
      FieldBounds(model);
      hide Inv;
      AcceptsNothing(model, t, sendWindow, turns);
      if |data| == 0 {
        assert data == [];
        return Done(0, upstreamBytes);
      }
      if closed || eos {
        return ConnClosed;
      }
      var offset := 0;
      var left := turns;
      ghost var goal := Accepts(model, t, data, sendWindow, turns);
      assert data[0..] == data && data[|data|..] == [];
      while offset < |data|
        invariant 0 <= offset <= |data|
        invariant Valid()
        invariant var rest := Accepts(model, t, data[offset..], sendWindow, left);
                  goal == Verdict(offset + rest.n, rest.panics, rest.conn)
        decreases |data| - offset
      {
        var end := offset + CHUNK;
        if end > |data| {
          end := |data|;
        }
        var part := data[offset..end];
        AcceptsStep(model, t, data, offset, end, sendWindow, left);
        var ok, panics := OfferChunk(t, part, Head(left));
        if !ok {
          return if panics then PanicSendOnClosed else Done(offset, upstreamBytes);
        }
        left := Tail(left);
        offset := end;
      }
      AcceptsNothing(model, t, sendWindow, left);
      return Done(offset, upstreamBytes);
    }
  }

  /** Runs any list of actions on a new connection. */
  method Drive(ops: seq<Op>, sendWindow: int) returns (u: Upstream)
    ensures fresh(u) && u.Valid() && u.model == Run(ops, u.sendWindow)
    ensures u.sendWindow == if sendWindow < 1 then 1 else sendWindow
  {
    u := new Upstream(sendWindow);
    u.Interlude(ops);
    assert [] + ops == ops;
  }
}
