/** Bytes and fixed-width big-endian integers. */
module Bytes {
  import opened Arith

  type byte = x: int | 0 <= x < 256
  type uint16 = x: int | 0 <= x < 0x1_0000
  type uint32 = x: int | 0 <= x < 0x1_0000_0000
  type uint64 = x: int | 0 <= x < 0x1_0000_0000_0000_0000

  const MAX_INT64: int := 0x7FFF_FFFF_FFFF_FFFF
  const MIN_INT64: int := -0x8000_0000_0000_0000

  /** Reinterprets an unsigned 64-bit value as signed. */
  function ToInt64(v: uint64): (x: int)
    ensures MIN_INT64 <= x <= MAX_INT64
  {
    if v <= MAX_INT64 then v else v - 0x1_0000_0000_0000_0000
  }

  function Pow256(k: nat): (p: nat)
    ensures p > 0
  {
    if k == 0 then 1 else 256 * Pow256(k - 1)
  }

  lemma {:induction false} Widths()
    ensures Pow256(2) == 0x1_0000
    ensures Pow256(4) == 0x1_0000_0000
    ensures Pow256(8) == 0x1_0000_0000_0000_0000
  {
    assert Pow256(2) == 256 * Pow256(1) == 256 * 256;
    assert Pow256(4) == 256 * Pow256(3) == 256 * 256 * Pow256(2);
    assert Pow256(6) == 256 * Pow256(5) == 256 * 256 * Pow256(4);
    assert Pow256(8) == 256 * Pow256(7) == 256 * 256 * Pow256(6);
  }

  /** The `k` low-order bytes of `v`, most significant first. */
  function PutBE(k: nat, v: nat): (s: seq<byte>)
    ensures |s| == k
    decreases k, v
  {
    if k == 0 then [] else PutBE(k - 1, v / 256) + [v % 256]
  }

  function GetBE(s: seq<byte>): nat {
    if s == [] then 0 else GetBE(s[..|s| - 1]) * 256 + s[|s| - 1]
  }

  /** Byte `i` of `k` is the one worth 256 to the power of the bytes after it. */
  lemma {:induction false} BigEndian(k: nat, v: nat, i: nat)
    requires i < k
    ensures PutBE(k, v)[i] == v / Pow256(k - 1 - i) % 256
    decreases k
  {
    if i < k - 1 {
      BigEndian(k - 1, v / 256, i);
      DivTwice(v, Pow256(k - 2 - i));
    }
  }

  lemma {:induction false} BigEndianExample()
    ensures PutBE(2, 0x0102) == [1, 2]
    ensures PutBE(4, 0x0102_0304) == [1, 2, 3, 4]
    ensures PutBE(8, 0x0102_0304_0506_0708) == [1, 2, 3, 4, 5, 6, 7, 8]
  {
    assert PutBE(1, 0x01) == [1];
    assert PutBE(2, 0x0102) == PutBE(1, 0x01) + [2];
    assert PutBE(3, 0x0102_03) == PutBE(2, 0x0102) + [3];
    assert PutBE(4, 0x0102_0304) == PutBE(3, 0x0102_03) + [4];
    assert PutBE(5, 0x0102_0304_05) == PutBE(4, 0x0102_0304) + [5];
    assert PutBE(6, 0x0102_0304_0506) == PutBE(5, 0x0102_0304_05) + [6];
    assert PutBE(7, 0x0102_0304_0506_07) == PutBE(6, 0x0102_0304_0506) + [7];
    assert PutBE(8, 0x0102_0304_0506_0708) == PutBE(7, 0x0102_0304_0506_07) + [8];
  }

  lemma {:induction false} GetPut(k: nat, v: nat)
    requires v < Pow256(k)
    ensures GetBE(PutBE(k, v)) == v
  {
    if k > 0 {
      GetPut(k - 1, v / 256);
      assert PutBE(k, v)[..k - 1] == PutBE(k - 1, v / 256);
    }
  }

  lemma {:induction false} PutGet(s: seq<byte>)
    ensures GetBE(s) < Pow256(|s|)
    ensures PutBE(|s|, GetBE(s)) == s
  {
    if s != [] {
      var init, last := s[..|s| - 1], s[|s| - 1];
      PutGet(init);
      assert GetBE(s) / 256 == GetBE(init) && GetBE(s) % 256 == last;
    }
  }

  function Uint16(s: seq<byte>): (v: uint16)
    requires |s| == 2
  {
    PutGet(s);
    Widths();
    GetBE(s)
  }

  function Uint32(s: seq<byte>): (v: uint32)
    requires |s| == 4
  {
    PutGet(s);
    Widths();
    GetBE(s)
  }

  function Uint64(s: seq<byte>): (v: uint64)
    requires |s| == 8
  {
    PutGet(s);
    Widths();
    GetBE(s)
  }

  lemma {:induction false} Uint16RoundTrip(v: uint16)
    ensures Uint16(PutBE(2, v)) == v
  {
    Widths();
    GetPut(2, v);
  }

  lemma {:induction false} Uint32RoundTrip(v: uint32)
    ensures Uint32(PutBE(4, v)) == v
  {
    Widths();
    GetPut(4, v);
  }

  lemma {:induction false} Uint64RoundTrip(v: uint64)
    ensures Uint64(PutBE(8, v)) == v
  {
    Widths();
    GetPut(8, v);
  }
}
