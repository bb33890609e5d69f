/** Base-128 varints, least significant group first, as used for every length on the wire. */
module Varint {
  import opened Wrappers
  import opened Bytes

  /** What can go wrong; the last is a panic of the reader. */
  datatype ReadError = EOF | UnexpectedEOF | Overflow | TrailingBytes | PanicLenOutOfRange

  /** An error is returned, as opposed to a panic. */
  predicate Rejected<T>(r: Result<T, ReadError>) {
    r.Err? && r.error != PanicLenOutOfRange
  }

  const MAX_LEN: nat := 10

  function PutUvarint(v: nat): (s: seq<byte>)
    ensures |s| >= 1
  {
    if v < 128 then [v] else [v % 128 + 128] + PutUvarint(v / 128)
  }

  /** One above the largest value that can still follow `i` groups. */
  function Bound(i: nat): (b: nat)
    requires i < MAX_LEN
    decreases MAX_LEN - i
  {
    if i == MAX_LEN - 1 then 2 else 128 * Bound(i + 1)
  }

  lemma BoundIs64Bits()
    ensures Bound(0) == 0x1_0000_0000_0000_0000
  {
    assert Bound(9) == 2;
    assert Bound(7) == 128 * Bound(8) == 128 * 128 * 2;
    assert Bound(5) == 128 * Bound(6) == 128 * 128 * Bound(7);
    assert Bound(3) == 128 * Bound(4) == 128 * 128 * Bound(5);
    assert Bound(1) == 128 * Bound(2) == 128 * 128 * Bound(3);
  }

  /** Reads the groups from the `i`-th on: at most ten, and the tenth at most one bit. */
  function ReadGroups(s: seq<byte>, i: nat): (r: Result<(nat, seq<byte>), ReadError>)
    requires i <= MAX_LEN
    decreases s
  {
    if i == MAX_LEN then Err(Overflow)
    else if s == [] then Err(if i == 0 then EOF else UnexpectedEOF)
    else if s[0] < 128 then
      if i == MAX_LEN - 1 && s[0] > 1 then Err(Overflow) else Ok((s[0], s[1..]))
    else
      var (v, rest) :- ReadGroups(s[1..], i + 1);
      Ok((s[0] - 128 + 128 * v, rest))
  }

  function ReadUvarint(s: seq<byte>): Result<(nat, seq<byte>), ReadError> {
    ReadGroups(s, 0)
  }

  lemma {:induction false} VarintNeverPanics(s: seq<byte>, i: nat)
    requires i <= MAX_LEN
    ensures ReadGroups(s, i).Err? ==> Rejected(ReadGroups(s, i))
    decreases s
  {
    if i < MAX_LEN && s != [] {
      VarintNeverPanics(s[1..], i + 1);
    }
  }

  /** What is read fits in 64 bits, whatever the input. */
  lemma {:induction false} ReadFits(s: seq<byte>, i: nat)
    requires i < MAX_LEN
    ensures ReadGroups(s, i).Ok? ==>
              && ReadGroups(s, i).value.0 < Bound(i)
              && |ReadGroups(s, i).value.1| < |s|
    decreases MAX_LEN - i
  {
    if s != [] && s[0] >= 128 && i < MAX_LEN - 1 {
      ReadFits(s[1..], i + 1);
    }
    if i < MAX_LEN - 1 {
      BoundAtLeast(i);
    }
  }

  /** Reading leaves the end of the input. */
  lemma {:induction false} RestIsSuffix(s: seq<byte>, i: nat)
    requires i <= MAX_LEN && ReadGroups(s, i).Ok?
    ensures var rest := ReadGroups(s, i).value.1;
            |rest| < |s| && s[|s| - |rest|..] == rest
    decreases s
  {
    if s[0] >= 128 {
      RestIsSuffix(s[1..], i + 1);
    }
  }

  lemma {:induction false} BoundAtLeast(i: nat)
    requires i < MAX_LEN - 1
    ensures Bound(i) >= 256
    decreases MAX_LEN - i
  {
    if i < MAX_LEN - 2 {
      BoundAtLeast(i + 1);
    }
  }

  /** Reading inverts writing and leaves what follows; a 64-bit value takes at most ten bytes. */
  lemma {:induction false} ReadPut(v: nat, i: nat, rest: seq<byte>)
    requires i < MAX_LEN && v < Bound(i)
    ensures ReadGroups(PutUvarint(v) + rest, i) == Ok((v, rest))
    ensures |PutUvarint(v)| <= MAX_LEN - i
    decreases MAX_LEN - i
  {
    var s := PutUvarint(v) + rest;
    if v < 128 {
      assert s[1..] == rest;
    } else {
      ReadPut(v / 128, i + 1, rest);
      assert s[1..] == PutUvarint(v / 128) + rest;
    }
  }

  lemma ReadPutUvarint(v: uint64, rest: seq<byte>)
    ensures ReadUvarint(PutUvarint(v) + rest) == Ok((v, rest))
    ensures |PutUvarint(v)| <= MAX_LEN
  {
    BoundIs64Bits();
    ReadPut(v, 0, rest);
  }

  /** The format: every byte but the last has its top bit set, and byte `i` carries the `i`-th group of
      seven bits, least significant first. */
  lemma {:induction false} GroupsOfSeven(v: nat)
    ensures var s := PutUvarint(v);
            && (v < 128 ==> s == [v])
            && (v >= 128 ==> s[0] >= 128 && s[0] % 128 == v % 128 && s[1..] == PutUvarint(v / 128))
  {
  }

  lemma {:induction false} UvarintExample()
    ensures PutUvarint(127) == [127] && PutUvarint(128) == [128, 1] && PutUvarint(300) == [172, 2]
  {
  }

  /** Which error an unreadable varint gives: nothing there, cut short, or too long for 64 bits. */
  lemma {:induction false} ReadErrors(s: seq<byte>, i: nat)
    requires i <= MAX_LEN && ReadGroups(s, i).Err?
    ensures var e := ReadGroups(s, i).error;
            && (e == EOF <==> s == [] && i == 0)
            && (e == UnexpectedEOF <==> i + |s| < MAX_LEN && i + |s| > 0 && forall k :: 0 <= k < |s| ==> s[k] >= 128)
            && (e == EOF || e == UnexpectedEOF || e == Overflow)
    decreases s
  {
    if i < MAX_LEN && s != [] && s[0] >= 128 {
      ReadErrors(s[1..], i + 1);
      assert forall k :: 1 <= k < |s| ==> s[k] == s[1..][k - 1];
    }
  }

  /** A varint cut short is never read as another one. */
  lemma {:induction false} CutShortIsErr(v: nat, i: nat, k: nat)
    requires i <= MAX_LEN && k < |PutUvarint(v)|
    ensures Rejected(ReadGroups(PutUvarint(v)[..k], i))
    ensures forall m :: 0 <= m < k ==> PutUvarint(v)[m] >= 128
    decreases MAX_LEN + k - i
  {
    if k > 0 {
      assert PutUvarint(v)[..k][1..] == PutUvarint(v / 128)[..k - 1];
      if i < MAX_LEN {
        CutShortIsErr(v / 128, i + 1, k - 1);
      } else {
        CutShortIsErr(v / 128, i, k - 1);
      }
    }
  }

  /** It is the end of the input when nothing is left of it, and an unexpected end otherwise. */
  lemma {:induction false} CutShort(v: uint64, k: nat)
    requires k < |PutUvarint(v)|
    ensures ReadUvarint(PutUvarint(v)[..k]) == Err(if k == 0 then EOF else UnexpectedEOF)
  {
    hide PutUvarint;
    CutShortIsErr(v, 0, k);
    ReadPutUvarint(v, []);
    ReadErrors(PutUvarint(v)[..k], 0);
  }
}
