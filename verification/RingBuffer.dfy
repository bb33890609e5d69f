/** The fixed-capacity byte ring between a relay target and its polling client. */
module RingBuffer {
  import opened Bytes

  // ---------------------------------------------------------------- the simple form

  /** A bounded queue of bytes that can be closed to further writes. */
  datatype Fifo = Fifo(content: seq<byte>, cap: nat, closed: bool) {
    predicate Valid() {
      |content| <= cap && cap > 0
    }

    function Free(): nat
      requires Valid()
    {
      cap - |content|
    }
  }

  function Min(a: int, b: int): int {
    if a < b then a else b
  }

  /** How much of a write is taken: as much as there is room for, and nothing once closed. */
  function Taken(f: Fifo, p: seq<byte>): (n: nat)
    requires f.Valid()
    ensures n <= |p| && n <= f.Free()
    ensures if f.closed then n == 0 else n == |p| || n == f.Free()
  {
    if f.closed then 0 else Min(|p|, f.Free())
  }

  function Pushed(f: Fifo, p: seq<byte>): (f': Fifo)
    requires f.Valid()
    ensures f'.Valid()
  {
    f.(content := f.content + p[..Taken(f, p)])
  }

  /** How much a read of at most `max` bytes yields: as much as it asks for, or everything. */
  function Given(f: Fifo, max: int): (n: nat)
    ensures n <= |f.content|
    ensures if max <= 0 then n == 0 else n <= max && (n == max || n == |f.content|)
  {
    if max <= 0 then 0 else Min(max, |f.content|)
  }

  function Popped(f: Fifo, max: int): (f': Fifo)
    requires f.Valid()
    ensures f'.Valid()
  {
    f.(content := f.content[Given(f, max)..])
  }

  predicate EndOfStream(f: Fifo) {
    f.closed && f.content == []
  }

  // ---------------------------------------------------------------- whole runs

  datatype Op = Write(p: seq<byte>) | Read(max: int) | Close

  function Next(f: Fifo, op: Op): (f': Fifo)
    requires f.Valid()
    ensures f'.Valid() && f'.cap == f.cap
  {
    match op
    case Write(p) => Pushed(f, p)
    case Read(max) => Popped(f, max)
    case Close => f.(closed := true)
  }

  function After(cap: nat, ops: seq<Op>): (f: Fifo)
    requires cap > 0
    ensures f.Valid() && f.cap == cap
  {
    if ops == [] then Fifo([], cap, false) else Next(After(cap, ops[..|ops| - 1]), ops[|ops| - 1])
  }

  /** Everything writes have been told was accepted. */
  function Accepted(cap: nat, ops: seq<Op>): seq<byte>
    requires cap > 0
  {
    if ops == [] then []
    else
      var init, op := ops[..|ops| - 1], ops[|ops| - 1];
      Accepted(cap, init) + if op.Write? then op.p[..Taken(After(cap, init), op.p)] else []
  }

  /** Everything reads have returned. */
  function Delivered(cap: nat, ops: seq<Op>): seq<byte>
    requires cap > 0
  {
    if ops == [] then []
    else
      var init, op := ops[..|ops| - 1], ops[|ops| - 1];
      var f := After(cap, init);
      Delivered(cap, init) + if op.Read? then f.content[..Given(f, op.max)] else []
  }

  lemma {:induction false} Regrouped(a: seq<byte>, b: seq<byte>, c: seq<byte>)
    ensures a + (b + c) == (a + b) + c
  {
  }

  lemma {:induction false} SplitBehind(a: seq<byte>, b: seq<byte>, n: nat)
    requires n <= |b|
    ensures a + b[..n] + b[n..] == a + b
  {
  }

  /** MAIN RESULT.  After every run, what has been read followed by what is held is exactly what was
      accepted, in order. */
  lemma {:induction false} NothingLostOrReordered(cap: nat, ops: seq<Op>)
    requires cap > 0
    ensures Delivered(cap, ops) + After(cap, ops).content == Accepted(cap, ops)
  {
    if ops != [] {
      hide Taken, Given;
      var init, op := ops[..|ops| - 1], ops[|ops| - 1];
      NothingLostOrReordered(cap, init);
      var f := After(cap, init);
      match op
      case Write(p) => Regrouped(Delivered(cap, init), f.content, p[..Taken(f, p)]);
      case Read(max) => SplitBehind(Delivered(cap, init), f.content, Given(f, max));
      case Close =>
    }
  }

  /** After every run the buffer is closed exactly when it has been closed in it. */
  lemma {:induction false} ClosedExactly(cap: nat, ops: seq<Op>)
    requires cap > 0
    ensures After(cap, ops).closed <==> Op.Close in ops
  {
    if ops != [] {
      var init, op := ops[..|ops| - 1], ops[|ops| - 1];
      ClosedExactly(cap, init);
      assert ops == init + [op];
    }
  }

  /** Nothing is accepted any more once it has been, and what is held is still there to be read. */
  lemma {:induction false} NothingAcceptedOnceClosed(cap: nat, ops: seq<Op>, more: seq<Op>)
    requires cap > 0 && Op.Close in ops
    ensures Accepted(cap, ops + more) == Accepted(cap, ops)
    ensures Delivered(cap, ops + more) + After(cap, ops + more).content == Accepted(cap, ops)
  {
    if more == [] {
      assert ops + more == ops;
    } else {
      var init := more[..|more| - 1];
      NothingAcceptedOnceClosed(cap, ops, init);
      assert (ops + more)[..|ops + more| - 1] == ops + init;
      ClosedExactly(cap, ops + init);
    }
    NothingLostOrReordered(cap, ops + more);
  }

  /** Once closed and empty, for ever so: no later operation yields or accepts a byte. */
  lemma {:induction false} EndIsForEver(cap: nat, ops: seq<Op>, more: seq<Op>)
    requires cap > 0 && EndOfStream(After(cap, ops))
    ensures EndOfStream(After(cap, ops + more))
    ensures Accepted(cap, ops + more) == Accepted(cap, ops)
    ensures Delivered(cap, ops + more) == Delivered(cap, ops)
  {
    if more == [] {
      assert ops + more == ops;
    } else {
      var init := more[..|more| - 1];
      EndIsForEver(cap, ops, init);
      assert (ops + more)[..|ops + more| - 1] == ops + init;
    }
  }

  // ---------------------------------------------------------------- the ring

  function Wrap(x: nat, n: nat): (y: nat)
    requires x < 2 * n
    ensures y < n
  {
    if x < n then x else x - n
  }

  lemma {:induction false} WrapIsMod(x: nat, n: nat)
    requires x < 2 * n
    ensures x % n == Wrap(x, n)
  {
    if x >= n {
      assert x == 1 * n + (x - n);
    }
  }

  /** The place of the `i`-th byte after position `r` of a ring of `n`, and its inverse. */
  function Pos(r: nat, i: nat, n: nat): (j: nat)
    requires r < n && i <= n
    ensures j < n
  {
    Wrap(r + i, n)
  }

  /** A cursor moved on by `k`, as the code computes it. */
  function Advance(r: nat, k: nat, n: nat): (j: nat)
    requires r < n && k <= n
    ensures j == Pos(r, k, n)
  {
    WrapIsMod(r + k, n);
    (r + k) % n
  }

  function Offset(w: nat, j: nat, n: nat): (i: nat)
    requires w < n && j < n
    ensures i < n && Pos(w, i, n) == j
  {
    if j >= w then j - w else j + n - w
  }

  /** The `size` bytes of a ring that start at position `r`. */
  function Ring(s: seq<byte>, r: nat, size: nat): (c: seq<byte>)
    requires r < |s| && size <= |s|
    ensures |c| == size
    ensures forall i :: 0 <= i < size ==> c[i] == s[Pos(r, i, |s|)]
  {
    seq(size, i requires 0 <= i < size => s[Pos(r, i, |s|)])
  }

  /** `s'` is `s` with `p` written into the ring from position `w` on. */
  ghost predicate WrittenAt(s: seq<byte>, s': seq<byte>, w: nat, p: seq<byte>) {
    && w < |s| == |s'|
    && forall j :: 0 <= j < |s| ==>
         s'[j] == if Offset(w, j, |s|) < |p| then p[Offset(w, j, |s|)] else s[j]
  }

  /** Writing `p` at the end of the live bytes appends it. */
  lemma {:induction false} RingAppend(s: seq<byte>, s': seq<byte>, r: nat, size: nat, p: seq<byte>)
    requires r < |s| && size + |p| <= |s| && WrittenAt(s, s', Pos(r, size, |s|), p)
    ensures Ring(s', r, size + |p|) == Ring(s, r, size) + p
  {
    var n, w := |s|, Pos(r, size, |s|);
    forall i | 0 <= i < size + |p|
      ensures s'[Pos(r, i, n)] == if i < size then s[Pos(r, i, n)] else p[i - size]
    {
      assert Offset(w, Pos(r, i, n), n) == if i < size then i + n - size else i - size;
    }
  }

  lemma {:induction false} RingDrop(s: seq<byte>, r: nat, size: nat, n: nat)
    requires r < |s| && n <= size <= |s|
    ensures Ring(s, Pos(r, n, |s|), size - n) == Ring(s, r, size)[n..]
  {
    forall i | 0 <= i < size - n
      ensures Pos(Pos(r, n, |s|), i, |s|) == Pos(r, n + i, |s|)
    {
    }
  }

  lemma {:induction false} PosTwice(r: nat, i: nat, k: nat, n: nat)
    requires r < n && i + k <= n
    ensures Pos(Pos(r, i, n), k, n) == Pos(r, i + k, n)
  {
  }

  /** The two copies of a read give the first `n` live bytes. */
  lemma {:induction false} RingTake(s: seq<byte>, r: nat, size: nat, n: nat)
    requires r < |s| && n <= size <= |s|
    ensures var first := Min(n, |s| - r);
            s[r..r + first] + s[..n - first] == Ring(s, r, size)[..n]
  {
    var first := Min(n, |s| - r);
    var out := s[r..r + first] + s[..n - first];
    forall i | 0 <= i < n
      ensures out[i] == Ring(s, r, size)[i]
    {
      assert Pos(r, i, |s|) == if i < first then r + i else i - first;
    }
  }

  class Buffer {
    const buf: array<byte>
    var r: nat
    var w: nat
    var size: nat
    var closed: bool

    ghost predicate Valid()
      reads this
    {
      && buf.Length > 0
      && r < buf.Length
      && size <= buf.Length
      && w == Pos(r, size, buf.Length)
    }

    ghost function Model(): (f: Fifo)
      requires Valid()
      reads this, buf
      ensures f.Valid() && f.cap == buf.Length && |f.content| == size && f.closed == closed
    {
      Fifo(Ring(buf[..], r, size), buf.Length, closed)
    }

    constructor (capacity: int)
      ensures Valid() && fresh(buf)
      ensures Model() == After(if capacity < 1 then 1 else capacity, [])
    {
      var cap := if capacity < 1 then 1 else capacity;
      buf := new byte[cap];
      r, w, size, closed := 0, 0, 0, false;
    }

    /** `overflow` is reported exactly when an open buffer could not take all of the input. */
    method Write(p: seq<byte>) returns (n: nat, overflow: bool)
      requires Valid()
      modifies this`w, this`size, buf
      ensures Valid() && Model() == Pushed(old(Model()), p)
      ensures n == Taken(old(Model()), p)
      ensures overflow <==> !closed && |p| > old(Model()).Free()
    {
      if closed || |p| == 0 {
        assert p[..0] == [];
        return 0, false;
      }
      var free := buf.Length - size;
      if free <= 0 {
        assert p[..0] == [];
        return 0, true;
      }
      overflow := |p| > free;
      var q := if overflow then p[..free] else p;
      n := |q|;
      CopyIn(q);
      RingAppend(old(buf[..]), buf[..], r, size, q);
      w := Advance(w, n, buf.Length);
      size := size + n;
      assert q == p[..n];
    }

    /** The two copies of a write: up to the end of the array, then from its beginning. */
    method CopyIn(q: seq<byte>)
      requires Valid() && size + |q| <= buf.Length
      modifies buf
      ensures WrittenAt(old(buf[..]), buf[..], w, q)
    {
      var n := |q|;
      var first := Min(n, buf.Length - w);
      forall i | 0 <= i < first {
        buf[w + i] := q[i];
      }
      forall i | first <= i < n {
        buf[i - first] := q[i];
      }
    }

    /** The two copies of a read. */
    method CopyOut(n: nat) returns (out: seq<byte>)
      requires Valid() && n <= size
      ensures out == Ring(buf[..], r, size)[..n]
    {
      hide Ring;
      var first := Min(n, buf.Length - r);
      out := buf[r..r + first] + buf[..n - first];
      assert buf[r..r + first] == buf[..][r..r + first] && buf[..n - first] == buf[..][..n - first];
      RingTake(buf[..], r, size, n);
    }

    method Read(max: int) returns (out: seq<byte>, eos: bool)
      requires Valid()
      modifies this`r, this`size
      ensures Valid() && Model() == Popped(old(Model()), max)
      ensures out == old(Model()).content[..Given(old(Model()), max)]
      ensures eos <==> EndOfStream(Model())
    {
      hide Ring, Advance, Wrap;
      if max <= 0 || size == 0 {
        return [], closed && size == 0;
      }
      var n := Min(max, size);
      out := CopyOut(n);
      RingDrop(buf[..], r, size, n);
      PosTwice(r, n, size - n, buf.Length);
      r := Advance(r, n, buf.Length);
      size := size - n;
      return out, closed && size == 0;
    }

    method Close()
      requires Valid()
      modifies this`closed
      ensures Valid() && Model() == Next(old(Model()), Op.Close)
    {
      closed := true;
    }
  }

  /** One operation; `out` is what a read returned, `taken` how much of a write was accepted. */
  method Perform(b: Buffer, op: Op) returns (out: seq<byte>, taken: nat)
    requires b.Valid()
    modifies b, b.buf
    ensures b.Valid() && b.Model() == Next(old(b.Model()), op)
    ensures out == if op.Read? then old(b.Model()).content[..Given(old(b.Model()), op.max)] else []
    ensures taken == if op.Write? then Taken(old(b.Model()), op.p) else 0
  {
    out, taken := [], 0;
    match op
    case Write(p) =>
      var n, _ := b.Write(p);
      taken := n;
    case Read(max) =>
      var data, _ := b.Read(max);
      out := data;
    case Close => b.Close();
  }

  /** Runs any operations on a new buffer, and collects what reads returned and writes accepted. */
  method Drive(capacity: int, ops: seq<Op>) returns (b: Buffer, delivered: seq<byte>, accepted: seq<byte>)
    ensures fresh(b) && b.Valid() && b.buf.Length == if capacity < 1 then 1 else capacity
    ensures b.Model() == After(b.buf.Length, ops)
    ensures delivered == Delivered(b.buf.Length, ops) && accepted == Accepted(b.buf.Length, ops)
    ensures delivered + b.Model().content == accepted
  {
    hide Next, Given, Taken;
    b := new Buffer(capacity);
    delivered, accepted := [], [];
    ghost var cap := b.buf.Length;
    for i := 0 to |ops|
      invariant fresh(b) && fresh(b.buf) && b.Valid() && b.buf.Length == cap
      invariant b.Model() == After(cap, ops[..i])
      invariant delivered == Delivered(cap, ops[..i]) && accepted == Accepted(cap, ops[..i])
    {
      assert ops[..i + 1][..i] == ops[..i];
      var out, taken := Perform(b, ops[i]);
      delivered := delivered + out;
      accepted := accepted + if ops[i].Write? then ops[i].p[..taken] else [];
    }
    assert ops[..|ops|] == ops;
    NothingLostOrReordered(cap, ops);
  }
}
