/** The datagram packet format and the splitting of a UDP payload into datagrams. */
module Datagram {
  import opened Wrappers
  import opened Bytes
  import opened Seqs

  const HEADER_SIZE: nat := 13
  const FLAG_FRAGMENTED: byte := 1
  const FLAG_LAST: byte := 2

  /** What identifies a message: its flow and its sequence number there. */
  datatype MessageKey = MessageKey(flow: uint64, seqNo: uint32)

  datatype Packet = Packet(flow: uint64, flags: byte, seqNo: uint32, payload: seq<byte>) {
    /** Bit 0 of the flags. */
    predicate Fragmented() {
      flags % 2 == 1
    }

    /** Bit 1 of the flags. */
    predicate Last() {
      flags / 2 % 2 == 1
    }

    function Key(): MessageKey {
      MessageKey(flow, seqNo)
    }
  }

  // ---------------------------------------------------------------- packet codec

  function Encode(p: Packet): (raw: seq<byte>)
    ensures |raw| == HEADER_SIZE + |p.payload|
  {
    PutBE(8, p.flow) + [p.flags] + PutBE(4, p.seqNo) + p.payload
  }

  function Decode(raw: seq<byte>): (r: Result<Packet, nat>)
    ensures r.Ok? <==> |raw| >= HEADER_SIZE
    ensures r.Err? ==> r.error == |raw|
  {
    if |raw| < HEADER_SIZE then Err(|raw|)
    else Ok(Packet(Uint64(raw[..8]), raw[8], Uint32(raw[9..13]), raw[13..]))
  }

  lemma {:induction false} DecodeEncode(p: Packet)
    ensures Decode(Encode(p)) == Ok(p)
  {
    var raw := Encode(p);
    assert raw[..8] == PutBE(8, p.flow);
    assert raw[9..13] == PutBE(4, p.seqNo);
    assert raw[13..] == p.payload;
    Uint64RoundTrip(p.flow);
    Uint32RoundTrip(p.seqNo);
  }

  /** Decoding loses nothing: only one byte string decodes to a packet. */
  lemma {:induction false} EncodeDecode(raw: seq<byte>)
    requires Decode(raw).Ok?
    ensures Encode(Decode(raw).value) == raw
  {
    PutGet(raw[..8]);
    PutGet(raw[9..13]);
    assert raw == raw[..8] + [raw[8]] + raw[9..13] + raw[13..];
  }

  /** Where each field is on the wire, most significant byte first, and which bits are the flags. */
  lemma {:induction false} Layout(p: Packet)
    ensures var raw := Encode(p);
            && |raw| == 13 + |p.payload|
            && raw[0..8] == PutBE(8, p.flow)
            && raw[8] == p.flags
            && raw[9..13] == PutBE(4, p.seqNo)
            && raw[13..] == p.payload
            && (p.Fragmented() <==> raw[8] % 2 == 1)
            && (p.Last() <==> raw[8] / 2 % 2 == 1)
  {
  }

  lemma {:induction false} LayoutExample()
    ensures Encode(Packet(0x0102_0304_0506_0708, 0xAA, 0x0102_0304, [0xFF]))
            == [1, 2, 3, 4, 5, 6, 7, 8, 0xAA, 1, 2, 3, 4, 0xFF]
  {
    BigEndianExample();
  }

  // ---------------------------------------------------------------- fragmentation

  function Payloads(ps: seq<Packet>): seq<byte> {
    if ps == [] then [] else Payloads(ps[..|ps| - 1]) + ps[|ps| - 1].payload
  }

  /** A message on the wire: either one plain packet, or marked fragments of which only the final
      one carries the last flag; either way the payloads add up to the message. */
  ghost predicate Train(ps: seq<Packet>, key: MessageKey, payload: seq<byte>) {
    && |ps| > 0
    && (forall i :: 0 <= i < |ps| ==> ps[i].Key() == key)
    && Payloads(ps) == payload
    && (|| (|ps| == 1 && !ps[0].Fragmented())
        || Marked(ps))
  }

  /** All fragments, with the last flag on the final one alone. */
  ghost predicate Marked(ps: seq<Packet>) {
    forall i :: 0 <= i < |ps| ==> ps[i].Fragmented() && (ps[i].Last() <==> i == |ps| - 1)
  }

  lemma {:induction false} PayloadsAppend(ps: seq<Packet>, qs: seq<Packet>)
    ensures Payloads(ps + qs) == Payloads(ps) + Payloads(qs)
  {
    if qs == [] {
      assert ps + qs == ps;
    } else {
      hide Payloads;
      var init, last := qs[..|qs| - 1], qs[|qs| - 1];
      PayloadsAppend(ps, init);
      PayloadsSnoc(init, last);
      PayloadsSnoc(ps + init, last);
      assert init + [last] == qs && ps + init + [last] == ps + qs;
      ConcatAssoc(Payloads(ps), Payloads(init), last.payload);
    }
  }

  lemma {:induction false} PayloadsOne(p: Packet)
    ensures Payloads([p]) == p.payload
  {
  }

  lemma {:induction false} PayloadsSnoc(ps: seq<Packet>, p: Packet)
    ensures Payloads(ps + [p]) == Payloads(ps) + p.payload
  {
    assert (ps + [p])[..|ps|] == ps;
  }

  /** The marked fragments of `payload` from offset `i` on. */
  function Pieces(flow: uint64, seqNo: uint32, payload: seq<byte>, maxChunk: nat, i: nat): (ps: seq<Packet>)
    requires maxChunk > 0 && i < |payload|
    decreases |payload| - i
  {
    if i + maxChunk >= |payload| then
      [Packet(flow, FLAG_FRAGMENTED + FLAG_LAST, seqNo, payload[i..])]
    else
      [Packet(flow, FLAG_FRAGMENTED, seqNo, payload[i..i + maxChunk])]
      + Pieces(flow, seqNo, payload, maxChunk, i + maxChunk)
  }

  function Fragments(flow: uint64, seqNo: uint32, payload: seq<byte>, maxChunk: nat): (ps: seq<Packet>)
    requires maxChunk > 0
  {
    if |payload| <= maxChunk then [Packet(flow, 0, seqNo, payload)]
    else Pieces(flow, seqNo, payload, maxChunk, 0)
  }

  function EncodeAll(ps: seq<Packet>): (raws: seq<seq<byte>>)
    ensures |raws| == |ps| && forall i :: 0 <= i < |ps| ==> raws[i] == Encode(ps[i])
  {
    seq(|ps|, i requires 0 <= i < |ps| => Encode(ps[i]))
  }

  /** Putting one more unfinished fragment in front of a train. */
  lemma {:induction false} TrainCons(p: Packet, ps: seq<Packet>, key: MessageKey, payload: seq<byte>)
    requires Train(ps, key, payload) && Marked(ps)
    requires p.Key() == key && p.Fragmented() && !p.Last()
    ensures Train([p] + ps, key, p.payload + payload) && Marked([p] + ps)
  {
    PayloadsAppend([p], ps);
    assert Payloads([p]) == p.payload;
    forall i | 0 <= i < |[p] + ps|
      ensures ([p] + ps)[i] == if i == 0 then p else ps[i - 1]
    {
    }
  }

  lemma {:induction false} PiecesTrain(flow: uint64, seqNo: uint32, payload: seq<byte>, maxChunk: nat, i: nat)
    requires maxChunk > 0 && i < |payload|
    ensures var ps := Pieces(flow, seqNo, payload, maxChunk, i);
            && Train(ps, MessageKey(flow, seqNo), payload[i..])
            && Marked(ps)
            && forall k :: 0 <= k < |ps| ==> 0 < |ps[k].payload| <= maxChunk
    decreases |payload| - i
  {
    if i + maxChunk < |payload| {
      hide Train, Marked;
      var head := Packet(flow, FLAG_FRAGMENTED, seqNo, payload[i..i + maxChunk]);
      PiecesTrain(flow, seqNo, payload, maxChunk, i + maxChunk);
      TrainCons(head, Pieces(flow, seqNo, payload, maxChunk, i + maxChunk), MessageKey(flow, seqNo), payload[i + maxChunk..]);
      assert head.payload + payload[i + maxChunk..] == payload[i..];
    } else {
      var p := Packet(flow, FLAG_FRAGMENTED + FLAG_LAST, seqNo, payload[i..]);
      assert Payloads([p]) == p.payload;
    }
  }

  /** Every fragment before the final one is full, so there are as many as the payload needs. */
  lemma {:induction false} PiecesAreFull(flow: uint64, seqNo: uint32, payload: seq<byte>, maxChunk: nat, i: nat)
    requires maxChunk > 0 && i < |payload|
    ensures var ps := Pieces(flow, seqNo, payload, maxChunk, i);
            && |ps| > 0
            && (forall k :: 0 <= k < |ps| - 1 ==> |ps[k].payload| == maxChunk)
            && (|ps| - 1) * maxChunk < |payload| - i <= (|ps| - 1) * maxChunk + maxChunk
    decreases |payload| - i
  {
    if i + maxChunk < |payload| {
      PiecesAreFull(flow, seqNo, payload, maxChunk, i + maxChunk);
      var rest := Pieces(flow, seqNo, payload, maxChunk, i + maxChunk);
      assert (|rest| - 1 + 1) * maxChunk == (|rest| - 1) * maxChunk + maxChunk;
    }
  }

  lemma {:induction false} PieceFlags(flow: uint64, seqNo: uint32, payload: seq<byte>, maxChunk: nat, i: nat)
    requires maxChunk > 0 && i < |payload|
    ensures var ps := Pieces(flow, seqNo, payload, maxChunk, i);
            && |ps| > 0
            && (forall k :: 0 <= k < |ps| - 1 ==> ps[k].flags == 1)
            && ps[|ps| - 1].flags == 3
    decreases |payload| - i
  {
    if i + maxChunk < |payload| {
      PieceFlags(flow, seqNo, payload, maxChunk, i + maxChunk);
    }
  }

  /** How a payload is cut: in one plain packet if it fits, else in the fewest fragments that hold it, all
      of them full but the final one, with bit 0 of the flags for a fragment and bit 1 for the final one. */
  lemma {:induction false} FragmentSizes(flow: uint64, seqNo: uint32, payload: seq<byte>, maxChunk: nat)
    requires maxChunk > 0
    ensures var ps := Fragments(flow, seqNo, payload, maxChunk);
            && (|payload| <= maxChunk ==> ps == [Packet(flow, 0, seqNo, payload)] && !Marked(ps))
            && (|payload| > maxChunk ==>
                  && |ps| > 0
                  && (forall k :: 0 <= k < |ps| - 1 ==> |ps[k].payload| == maxChunk && ps[k].flags == 1)
                  && ps[|ps| - 1].flags == 3
                  && (|ps| - 1) * maxChunk < |payload| <= (|ps| - 1) * maxChunk + maxChunk)
  {
    if |payload| > maxChunk {
      PiecesAreFull(flow, seqNo, payload, maxChunk, 0);
      PieceFlags(flow, seqNo, payload, maxChunk, 0);
    } else {
      assert !Fragments(flow, seqNo, payload, maxChunk)[0].Fragmented();
    }
  }

  /** The datagrams of one payload form a train for it, and each fits the limit. */
  lemma {:induction false} FragmentsTrain(flow: uint64, seqNo: uint32, payload: seq<byte>, maxDatagramPayload: nat)
    requires maxDatagramPayload > HEADER_SIZE
    ensures var ps := Fragments(flow, seqNo, payload, maxDatagramPayload - HEADER_SIZE);
            && Train(ps, MessageKey(flow, seqNo), payload)
            && forall k :: 0 <= k < |ps| ==> |Encode(ps[k])| <= maxDatagramPayload
  {
    var maxChunk := maxDatagramPayload - HEADER_SIZE;
    if |payload| <= maxChunk {
      var p := Packet(flow, 0, seqNo, payload);
      assert Payloads([p]) == p.payload;
    } else {
      PiecesTrain(flow, seqNo, payload, maxChunk, 0);
      assert payload[0..] == payload;
    }
  }

  /** The error is that a datagram of this size has no room for payload. */
  method FragmentDatagram(flow: uint64, seqNo: uint32, payload: seq<byte>, maxDatagramPayload: int)
    returns (r: Result<seq<seq<byte>>, ()>)
    ensures r.Err? <==> maxDatagramPayload <= HEADER_SIZE
    ensures r.Ok? ==> r.value == EncodeAll(Fragments(flow, seqNo, payload, maxDatagramPayload - HEADER_SIZE))
  {
    hide Encode;
    if maxDatagramPayload <= HEADER_SIZE {
      return Err(());
    }
    var maxChunk := maxDatagramPayload - HEADER_SIZE;
    if |payload| <= maxChunk {
      return Ok([Encode(Packet(flow, 0, seqNo, payload))]);
    }
    var out := [];
    ghost var all := EncodeAll(Pieces(flow, seqNo, payload, maxChunk, 0));
    var i := 0;
    while i < |payload|
      invariant 0 <= i <= |payload|
      invariant i < |payload| ==> all == out + EncodeAll(Pieces(flow, seqNo, payload, maxChunk, i))
      invariant i == |payload| ==> all == out
      decreases |payload| - i
    {
      var end := i + maxChunk;
      if end > |payload| {
        end := |payload|;
      }
      var flags: byte := FLAG_FRAGMENTED;
      if end == |payload| {
        flags := flags + FLAG_LAST;
      }
      out := out + [Encode(Packet(flow, flags, seqNo, payload[i..end]))];
      assert end == |payload| ==> payload[i..end] == payload[i..];
      i := end;
    }
    return Ok(out);
  }
}
