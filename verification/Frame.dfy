/** Control frames, and the payloads of AUTH, OPEN and FAIL frames. */
module Frame {
  import opened Wrappers
  import opened Bytes
  import opened Varint

  /** The longest byte slice the runtime of a 64-bit system allocates; asking for more panics. */
  const MAX_SLICE: nat := 0x1_0000_0000_0000

  // ---------------------------------------------------------------- frames

  datatype Frame = Frame(typ: uint64, payload: seq<byte>)

  function WriteFrame(f: Frame): seq<byte> {
    PutUvarint(f.typ) + (PutUvarint(|f.payload|) + f.payload)
  }

  /** The first `n` bytes, and the rest; a short read is an error. */
  function ReadFull(s: seq<byte>, n: nat): (r: Result<(seq<byte>, seq<byte>), ReadError>)
    ensures if n <= |s| then r == Ok((s[..n], s[n..])) else r == Err(if |s| == 0 then EOF else UnexpectedEOF)
  {
    if n <= |s| then Ok((s[..n], s[n..])) else Err(if s == [] then EOF else UnexpectedEOF)
  }

  /** Allocates a slice of the declared length and fills it. */
  function ReadSlice(s: seq<byte>, n: nat): (r: Result<(seq<byte>, seq<byte>), ReadError>) {
    if n > MAX_SLICE then Err(PanicLenOutOfRange) else ReadFull(s, n)
  }

  function ReadFrame(s: seq<byte>): Result<(Frame, seq<byte>), ReadError> {
    var (typ, s1) :- ReadUvarint(s);
    var (ln, s2) :- ReadUvarint(s1);
    var (payload, s3) :- ReadSlice(s2, ln);
    ReadFits(s, 0);
    BoundIs64Bits();
    Ok((Frame(typ, payload), s3))
  }

  lemma {:induction false} ReadWrite(f: Frame, rest: seq<byte>)
    requires |f.payload| <= MAX_SLICE
    ensures ReadFrame(WriteFrame(f) + rest) == Ok((f, rest))
  {
    hide PutUvarint, ReadGroups, Bound;
    var tail := f.payload + rest;
    ReadPutUvarint(f.typ, PutUvarint(|f.payload|) + tail);
    ReadPutUvarint(|f.payload|, tail);
    assert WriteFrame(f) + rest == PutUvarint(f.typ) + (PutUvarint(|f.payload|) + tail);
    assert tail[..|f.payload|] == f.payload && tail[|f.payload|..] == rest;
  }

  function WriteAll(fs: seq<Frame>): seq<byte> {
    if fs == [] then [] else WriteFrame(fs[0]) + WriteAll(fs[1..])
  }

  /** Reads `n` frames one after the other. */
  function ReadMany(s: seq<byte>, n: nat): Result<(seq<Frame>, seq<byte>), ReadError>
    decreases n
  {
    if n == 0 then Ok(([], s))
    else
      var (f, s1) :- ReadFrame(s);
      var (fs, s2) :- ReadMany(s1, n - 1);
      Ok(([f] + fs, s2))
  }

  /** A frame on the wire: type, length, payload. */
  lemma {:induction false} FrameLayout(f: Frame)
    ensures var raw, a, b := WriteFrame(f), |PutUvarint(f.typ)|, |PutUvarint(|f.payload|)|;
            && |raw| == a + b + |f.payload|
            && raw[..a] == PutUvarint(f.typ)
            && raw[a..a + b] == PutUvarint(|f.payload|)
            && raw[a + b..] == f.payload
  {
    hide PutUvarint;
  }

  lemma {:induction false} FrameExample()
    ensures WriteFrame(Frame(300, [7, 8])) == [172, 2, 2, 7, 8]
  {
    UvarintExample();
  }

  /** MAIN RESULT.  Any frames written back to back are read back as they were, and the bytes that
      follow them are not touched. */
  lemma {:induction false} StreamRoundTrip(fs: seq<Frame>, rest: seq<byte>)
    requires forall i :: 0 <= i < |fs| ==> |fs[i].payload| <= MAX_SLICE
    ensures ReadMany(WriteAll(fs) + rest, |fs|) == Ok((fs, rest))
  {
    hide ReadFrame, WriteFrame;
    if fs == [] {
      assert WriteAll(fs) + rest == rest;
    } else {
      ReadWrite(fs[0], WriteAll(fs[1..]) + rest);
      StreamRoundTrip(fs[1..], rest);
      assert WriteAll(fs) + rest == WriteFrame(fs[0]) + (WriteAll(fs[1..]) + rest);
      assert [fs[0]] + fs[1..] == fs;
    }
  }

  /** A frame cut short is not a frame: it is the end of the input when cut between two of its parts, and
      an unexpected end when cut within one. */
  lemma {:induction false} FrameCutShort(f: Frame, k: nat)
    requires |f.payload| <= MAX_SLICE && k < |WriteFrame(f)|
    ensures var a, b := |PutUvarint(f.typ)|, |PutUvarint(|f.payload|)|;
            ReadFrame(WriteFrame(f)[..k]) == Err(if k == 0 || k == a || k == a + b then EOF else UnexpectedEOF)
  {
    hide PutUvarint, ReadGroups;
    var a, b := PutUvarint(f.typ), PutUvarint(|f.payload|);
    CutConcat(a, b + f.payload, k);
    if k < |a| {
      CutShort(f.typ, k);
    } else {
      var k1 := k - |a|;
      ReadPutUvarint(f.typ, (b + f.payload)[..k1]);
      CutConcat(b, f.payload, k1);
      if k1 < |b| {
        CutShort(|f.payload|, k1);
      } else {
        ReadPutUvarint(|f.payload|, f.payload[..k1 - |b|]);
      }
    }
  }

  /** Exactly which streams make reading a frame panic: both varints are there, and the declared
      length is more than can be allocated, whatever follows. */
  lemma {:induction false} FramePanicsExactly(s: seq<byte>)
    ensures ReadFrame(s) == Err(PanicLenOutOfRange)
            <==> var r := ReadUvarint(s);
                 && r.Ok?
                 && ReadUvarint(r.value.1).Ok?
                 && ReadUvarint(r.value.1).value.0 > 0x1_0000_0000_0000
  {
    VarintNeverPanics(s, 0);
    if ReadUvarint(s).Ok? {
      VarintNeverPanics(ReadUvarint(s).value.1, 0);
    }
  }

  /** Such a stream for every type, length beyond the limit, and continuation. */
  lemma {:induction false} FramePanicHappens(typ: uint64, ln: uint64, rest: seq<byte>)
    requires ln > MAX_SLICE
    ensures ReadFrame(PutUvarint(typ) + (PutUvarint(ln) + rest)) == Err(PanicLenOutOfRange)
  {
    hide PutUvarint;
    ReadPutUvarint(typ, PutUvarint(ln) + rest);
    ReadPutUvarint(ln, rest);
  }

  lemma {:induction false} CutConcat(a: seq<byte>, b: seq<byte>, k: nat)
    requires k <= |a| + |b|
    ensures (a + b)[..k] == if k < |a| then a[..k] else a + b[..k - |a|]
  {
  }

  // ---------------------------------------------------------------- fields

  /** A length-prefixed byte string. */
  function PutBytes(data: seq<byte>): seq<byte> {
    PutUvarint(|data|) + data
  }

  function ReadBytes(s: seq<byte>): Result<(seq<byte>, seq<byte>), ReadError> {
    var (ln, rest) :- ReadUvarint(s);
    if ln == 0 then Ok(([], rest)) else ReadSlice(rest, ln)
  }

  function ReadUint64(s: seq<byte>): Result<(uint64, seq<byte>), ReadError> {
    var (raw, rest) :- ReadFull(s, 8);
    Ok((Uint64(raw), rest))
  }

  function ReadUint16(s: seq<byte>): Result<(uint16, seq<byte>), ReadError> {
    var (raw, rest) :- ReadFull(s, 2);
    Ok((Uint16(raw), rest))
  }

  lemma {:induction false} BytesField(data: seq<byte>, rest: seq<byte>)
    requires |data| <= MAX_SLICE
    ensures ReadBytes(PutBytes(data) + rest) == Ok((data, rest))
    ensures forall k :: 0 <= k < |PutBytes(data)| ==> Rejected(ReadBytes(PutBytes(data)[..k]))
  {
    ReadPutUvarint(|data|, data + rest);
    assert PutBytes(data) + rest == PutUvarint(|data|) + (data + rest);
    assert (data + rest)[..|data|] == data && (data + rest)[|data|..] == rest;
    forall k | 0 <= k < |PutBytes(data)|
      ensures Rejected(ReadBytes(PutBytes(data)[..k]))
    {
      var a := PutUvarint(|data|);
      CutConcat(a, data, k);
      if k < |a| {
        CutShort(|data|, k);
      } else {
        ReadPutUvarint(|data|, data[..k - |a|]);
      }
    }
  }

  /** A field declared longer than can be allocated. */
  predicate DeclaresTooMuch(s: seq<byte>) {
    ReadUvarint(s).Ok? && ReadUvarint(s).value.0 > MAX_SLICE
  }

  lemma {:induction false} BytesPanicsExactly(s: seq<byte>)
    ensures ReadBytes(s) == Err(PanicLenOutOfRange) <==> DeclaresTooMuch(s)
  {
    VarintNeverPanics(s, 0);
  }

  lemma {:induction false} BytesPanicHappens(ln: uint64, rest: seq<byte>)
    requires ln > MAX_SLICE
    ensures DeclaresTooMuch(PutUvarint(ln) + rest)
    ensures ReadBytes(PutUvarint(ln) + rest) == Err(PanicLenOutOfRange)
  {
    hide PutUvarint;
    ReadPutUvarint(ln, rest);
  }

  lemma {:induction false} Uint64Field(v: uint64, rest: seq<byte>)
    ensures ReadUint64(PutBE(8, v) + rest) == Ok((v, rest))
    ensures forall k :: 0 <= k < 8 ==> Rejected(ReadUint64(PutBE(8, v)[..k]))
  {
    var s := PutBE(8, v) + rest;
    assert s[..8] == PutBE(8, v) && s[8..] == rest;
    Uint64RoundTrip(v);
  }

  lemma {:induction false} Uint16Field(v: uint16, rest: seq<byte>)
    ensures ReadUint16(PutBE(2, v) + rest) == Ok((v, rest))
    ensures forall k :: 0 <= k < 2 ==> Rejected(ReadUint16(PutBE(2, v)[..k]))
  {
    var s := PutBE(2, v) + rest;
    assert s[..2] == PutBE(2, v) && s[2..] == rest;
    Uint16RoundTrip(v);
  }

  // ---------------------------------------------------------------- AUTH

  datatype Auth = Auth(clientID: seq<byte>, tsMS: uint64, nonce: seq<byte>, sig: seq<byte>, caps: uint64) {
    predicate Fits() {
      |clientID| <= MAX_SLICE && |nonce| <= MAX_SLICE && |sig| <= MAX_SLICE
    }
  }

  function EncodeAuth(p: Auth): seq<byte> {
    PutBytes(p.clientID) + (PutBE(8, p.tsMS) + (PutBytes(p.nonce) + (PutBytes(p.sig) + PutBE(8, p.caps))))
  }

  /** An AUTH payload on the wire: client, time, nonce, signature, capabilities. */
  lemma {:induction false} AuthExample()
    ensures EncodeAuth(Auth([65, 66], 0x0102_0304_0506_0708, [9], [10, 11, 12], 0x0102_0304_0506_0708))
            == [2, 65, 66, 1, 2, 3, 4, 5, 6, 7, 8, 1, 9, 3, 10, 11, 12, 1, 2, 3, 4, 5, 6, 7, 8]
  {
    BigEndianExample();
  }

  lemma {:induction false} AuthLayout(p: Auth)
    ensures var raw, id, nonce, sig := EncodeAuth(p), PutBytes(p.clientID), PutBytes(p.nonce), PutBytes(p.sig);
            var a := |id|;
            var b := a + 8 + |nonce|;
            && |raw| == b + |sig| + 8
            && raw[..a] == id
            && raw[a..a + 8] == PutBE(8, p.tsMS)
            && raw[a + 8..b] == nonce
            && raw[b..b + |sig|] == sig
            && raw[b + |sig|..] == PutBE(8, p.caps)
  {
    hide PutBytes;
  }

  /** The fields of an AUTH payload and what follows them. */
  function ReadAuth(s: seq<byte>): Result<(Auth, seq<byte>), ReadError> {
    var (clientID, s1) :- ReadBytes(s);
    var (ts, s2) :- ReadUint64(s1);
    var (nonce, s3) :- ReadBytes(s2);
    var (sig, s4) :- ReadBytes(s3);
    var (caps, s5) :- ReadUint64(s4);
    Ok((Auth(clientID, ts, nonce, sig, caps), s5))
  }

  function DecodeAuth(s: seq<byte>): Result<Auth, ReadError> {
    var (p, rest) :- ReadAuth(s);
    if rest != [] then Err(TrailingBytes) else Ok(p)
  }

  lemma {:induction false} AuthFields(p: Auth, rest: seq<byte>)
    requires p.Fits()
    ensures ReadAuth(EncodeAuth(p) + rest) == Ok((p, rest))
  {
    hide ReadBytes, ReadUint64, PutBytes;
    var t4 := PutBE(8, p.caps) + rest;
    var t3 := PutBytes(p.sig) + t4;
    var t2 := PutBytes(p.nonce) + t3;
    var t1 := PutBE(8, p.tsMS) + t2;
    assert EncodeAuth(p) + rest == PutBytes(p.clientID) + t1;
    BytesField(p.clientID, t1);
    Uint64Field(p.tsMS, t2);
    BytesField(p.nonce, t3);
    BytesField(p.sig, t4);
    Uint64Field(p.caps, rest);
  }

  /** One field read off a payload that has been cut at `k`: either the cut is in it and the read fails,
      or the field is whole and the cut is in what follows. */
  lemma {:induction false} CutBytes(data: seq<byte>, tail: seq<byte>, k: nat)
    requires |data| <= MAX_SLICE && k < |PutBytes(data)| + |tail|
    ensures var n := |PutBytes(data)|;
            var r := ReadBytes((PutBytes(data) + tail)[..k]);
            if k < n then Rejected(r) else r == Ok((data, tail[..k - n]))
  {
    hide ReadBytes, PutBytes;
    CutConcat(PutBytes(data), tail, k);
    var n := |PutBytes(data)|;
    BytesField(data, if k < n then [] else tail[..k - n]);
  }

  lemma {:induction false} CutUint64(v: uint64, tail: seq<byte>, k: nat)
    requires k < 8 + |tail|
    ensures var r := ReadUint64((PutBE(8, v) + tail)[..k]);
            if k < 8 then Rejected(r) else r == Ok((v, tail[..k - 8]))
  {
    hide ReadUint64;
    CutConcat(PutBE(8, v), tail, k);
    Uint64Field(v, if k < 8 then [] else tail[..k - 8]);
  }

  lemma {:induction false} AuthCutShort(p: Auth, k: nat)
    requires p.Fits() && k < |EncodeAuth(p)|
    ensures Rejected(ReadAuth(EncodeAuth(p)[..k]))
  {
    hide ReadBytes, ReadUint64, PutBytes;
    var t4 := PutBE(8, p.caps);
    var t3 := PutBytes(p.sig) + t4;
    var t2 := PutBytes(p.nonce) + t3;
    var t1 := PutBE(8, p.tsMS) + t2;
    var n1, n3, n4 := |PutBytes(p.clientID)|, |PutBytes(p.nonce)|, |PutBytes(p.sig)|;
    CutBytes(p.clientID, t1, k);
    if k >= n1 {
      CutUint64(p.tsMS, t2, k - n1);
      if k - n1 >= 8 {
        CutBytes(p.nonce, t3, k - n1 - 8);
        if k - n1 - 8 >= n3 {
          CutBytes(p.sig, t4, k - n1 - 8 - n3);
          if k - n1 - 8 - n3 >= n4 {
            Uint64Field(p.caps, []);
          }
        }
      }
    }
  }

  /** MAIN RESULT, with `AuthPrefix`.  Decoding an AUTH payload inverts encoding it, and rejects it with
      anything after it or cut short anywhere. */
  lemma {:induction false} AuthCodec(p: Auth, extra: seq<byte>)
    requires p.Fits()
    ensures DecodeAuth(EncodeAuth(p)) == Ok(p)
    ensures extra != [] ==> DecodeAuth(EncodeAuth(p) + extra) == Err(TrailingBytes)
  {
    hide ReadAuth, EncodeAuth;
    AuthFields(p, []);
    assert EncodeAuth(p) + [] == EncodeAuth(p);
    AuthFields(p, extra);
  }

  lemma {:induction false} AuthPrefix(p: Auth, k: nat)
    requires p.Fits() && k < |EncodeAuth(p)|
    ensures Rejected(DecodeAuth(EncodeAuth(p)[..k]))
  {
    AuthCutShort(p, k);
    hide ReadAuth, EncodeAuth;
  }

  /** MAIN RESULT.  Exactly which payloads make the AUTH decoder panic: whole fields, up to a length
      field that declares more than can be allocated, whatever follows. */
  lemma {:induction false} AuthPanicsExactly(s: seq<byte>)
    ensures DecodeAuth(s) == Err(PanicLenOutOfRange)
            <==> || DeclaresTooMuch(s)
                 || (&& ReadBytes(s).Ok?
                     && ReadUint64(ReadBytes(s).value.1).Ok?
                     && var s2 := ReadUint64(ReadBytes(s).value.1).value.1;
                        || DeclaresTooMuch(s2)
                        || (ReadBytes(s2).Ok? && DeclaresTooMuch(ReadBytes(s2).value.1)))
  {
    hide ReadBytes, DeclaresTooMuch;
    BytesPanicsExactly(s);
    if ReadBytes(s).Ok? && ReadUint64(ReadBytes(s).value.1).Ok? {
      var s2 := ReadUint64(ReadBytes(s).value.1).value.1;
      BytesPanicsExactly(s2);
      if ReadBytes(s2).Ok? {
        BytesPanicsExactly(ReadBytes(s2).value.1);
      }
    }
  }

  /** Such payloads at each of the three length fields, after any fields before it. */
  lemma {:induction false} AuthPanicHappens(p: Auth, ln: uint64, rest: seq<byte>)
    requires p.Fits() && ln > MAX_SLICE
    ensures var bad := PutUvarint(ln) + rest;
            && DecodeAuth(bad) == Err(PanicLenOutOfRange)
            && DecodeAuth(PutBytes(p.clientID) + (PutBE(8, p.tsMS) + bad)) == Err(PanicLenOutOfRange)
            && DecodeAuth(PutBytes(p.clientID) + (PutBE(8, p.tsMS) + (PutBytes(p.nonce) + bad)))
               == Err(PanicLenOutOfRange)
  {
    hide ReadBytes, ReadUint64, PutBytes, PutUvarint;
    var bad := PutUvarint(ln) + rest;
    BytesPanicHappens(ln, rest);
    BytesField(p.clientID, PutBE(8, p.tsMS) + bad);
    Uint64Field(p.tsMS, bad);
    BytesField(p.clientID, PutBE(8, p.tsMS) + (PutBytes(p.nonce) + bad));
    Uint64Field(p.tsMS, PutBytes(p.nonce) + bad);
    BytesField(p.nonce, bad);
  }

  // ---------------------------------------------------------------- OPEN

  datatype Open = Open(flowID: uint64, dstHost: seq<byte>, dstIP: seq<byte>, dstPort: uint16) {
    predicate Fits() {
      |dstHost| <= MAX_SLICE && |dstIP| <= MAX_SLICE
    }
  }

  function EncodeOpen(p: Open): seq<byte> {
    PutBE(8, p.flowID) + (PutBytes(p.dstHost) + (PutBytes(p.dstIP) + PutBE(2, p.dstPort)))
  }

  /** An OPEN payload on the wire: flow, host name, address, port. */
  lemma {:induction false} OpenExample()
    ensures EncodeOpen(Open(0x0102_0304_0506_0708, [65, 66], [], 0x0102)) == [1, 2, 3, 4, 5, 6, 7, 8, 2, 65, 66, 0, 1, 2]
  {
    BigEndianExample();
  }

  lemma {:induction false} OpenLayout(p: Open)
    ensures var raw, host, ip := EncodeOpen(p), PutBytes(p.dstHost), PutBytes(p.dstIP);
            var a := 8 + |host|;
            && |raw| == a + |ip| + 2
            && raw[..8] == PutBE(8, p.flowID)
            && raw[8..a] == host
            && raw[a..a + |ip|] == ip
            && raw[a + |ip|..] == PutBE(2, p.dstPort)
  {
    hide PutBytes;
  }

  function ReadOpen(s: seq<byte>): Result<(Open, seq<byte>), ReadError> {
    var (flowID, s1) :- ReadUint64(s);
    var (dstHost, s2) :- ReadBytes(s1);
    var (dstIP, s3) :- ReadBytes(s2);
    var (dstPort, s4) :- ReadUint16(s3);
    Ok((Open(flowID, dstHost, dstIP, dstPort), s4))
  }

  function DecodeOpen(s: seq<byte>): Result<Open, ReadError> {
    var (p, rest) :- ReadOpen(s);
    if rest != [] then Err(TrailingBytes) else Ok(p)
  }

  lemma {:induction false} OpenFields(p: Open, rest: seq<byte>)
    requires p.Fits()
    ensures ReadOpen(EncodeOpen(p) + rest) == Ok((p, rest))
  {
    hide ReadBytes, ReadUint64, ReadUint16, PutBytes;
    var t3 := PutBE(2, p.dstPort) + rest;
    var t2 := PutBytes(p.dstIP) + t3;
    var t1 := PutBytes(p.dstHost) + t2;
    assert EncodeOpen(p) + rest == PutBE(8, p.flowID) + t1;
    Uint64Field(p.flowID, t1);
    BytesField(p.dstHost, t2);
    BytesField(p.dstIP, t3);
    Uint16Field(p.dstPort, rest);
  }

  lemma {:induction false} OpenCutShort(p: Open, k: nat)
    requires p.Fits() && k < |EncodeOpen(p)|
    ensures Rejected(ReadOpen(EncodeOpen(p)[..k]))
  {
    hide ReadBytes, ReadUint64, ReadUint16, PutBytes;
    var t3 := PutBE(2, p.dstPort);
    var t2 := PutBytes(p.dstIP) + t3;
    var t1 := PutBytes(p.dstHost) + t2;
    var n2, n3 := |PutBytes(p.dstHost)|, |PutBytes(p.dstIP)|;
    CutUint64(p.flowID, t1, k);
    if k >= 8 {
      CutBytes(p.dstHost, t2, k - 8);
      if k - 8 >= n2 {
        CutBytes(p.dstIP, t3, k - 8 - n2);
        if k - 8 - n2 >= n3 {
          Uint16Field(p.dstPort, []);
        }
      }
    }
  }

  /** MAIN RESULT, with `OpenPrefix`.  The same for OPEN payloads. */
  lemma {:induction false} OpenCodec(p: Open, extra: seq<byte>)
    requires p.Fits()
    ensures DecodeOpen(EncodeOpen(p)) == Ok(p)
    ensures extra != [] ==> DecodeOpen(EncodeOpen(p) + extra) == Err(TrailingBytes)
  {
    hide ReadOpen, EncodeOpen;
    OpenFields(p, []);
    assert EncodeOpen(p) + [] == EncodeOpen(p);
    OpenFields(p, extra);
  }

  lemma {:induction false} OpenPrefix(p: Open, k: nat)
    requires p.Fits() && k < |EncodeOpen(p)|
    ensures Rejected(DecodeOpen(EncodeOpen(p)[..k]))
  {
    OpenCutShort(p, k);
    hide ReadOpen, EncodeOpen;
  }

  /** MAIN RESULT.  The same for the OPEN decoder and its two length fields. */
  lemma {:induction false} OpenPanicsExactly(s: seq<byte>)
    ensures DecodeOpen(s) == Err(PanicLenOutOfRange)
            <==> && ReadUint64(s).Ok?
                 && var s1 := ReadUint64(s).value.1;
                    || DeclaresTooMuch(s1)
                    || (ReadBytes(s1).Ok? && DeclaresTooMuch(ReadBytes(s1).value.1))
  {
    hide ReadBytes, DeclaresTooMuch;
    if ReadUint64(s).Ok? {
      var s1 := ReadUint64(s).value.1;
      BytesPanicsExactly(s1);
      if ReadBytes(s1).Ok? {
        BytesPanicsExactly(ReadBytes(s1).value.1);
      }
    }
  }

  lemma {:induction false} OpenPanicHappens(p: Open, ln: uint64, rest: seq<byte>)
    requires p.Fits() && ln > MAX_SLICE
    ensures var bad := PutUvarint(ln) + rest;
            && DecodeOpen(PutBE(8, p.flowID) + bad) == Err(PanicLenOutOfRange)
            && DecodeOpen(PutBE(8, p.flowID) + (PutBytes(p.dstHost) + bad)) == Err(PanicLenOutOfRange)
  {
    hide ReadBytes, ReadUint64, PutBytes, PutUvarint;
    var bad := PutUvarint(ln) + rest;
    BytesPanicHappens(ln, rest);
    Uint64Field(p.flowID, bad);
    Uint64Field(p.flowID, PutBytes(p.dstHost) + bad);
    BytesField(p.dstHost, bad);
  }

  // ---------------------------------------------------------------- FAIL

  function EncodeFail(flowID: uint64, reason: seq<byte>): seq<byte> {
    PutBE(8, flowID) + PutBytes(reason)
  }

  datatype FailOutcome = Decoded(flowID: uint64, reason: seq<byte>) | Panics

  /** The client's decoder.  It forgives a malformed reason, and slices with signed arithmetic. */
  function DecodeFail(payload: seq<byte>): FailOutcome {
    if |payload| < 8 then Decoded(0, payload)
    else
      var flowID := Uint64(payload[..8]);
      if |payload| == 8 then Decoded(flowID, [])
      else
        var r := ReadUvarint(payload[8..]);
        if r.Err? then Decoded(flowID, [])
        else
          ReadFits(payload[8..], 0);
          BoundIs64Bits();
          var start := |payload| - |r.value.1|;
          var sum := start + ToInt64(r.value.0);
          var end := if sum > MAX_INT64 then sum - 0x1_0000_0000_0000_0000 else sum;
          if start > |payload| || end > |payload| then Decoded(flowID, [])
          else if end < start then Panics
          else Decoded(flowID, payload[start..end])
  }

  lemma {:induction false} FailRoundTrip(flowID: uint64, reason: seq<byte>)
    requires |EncodeFail(flowID, reason)| <= MAX_INT64
    ensures DecodeFail(EncodeFail(flowID, reason)) == Decoded(flowID, reason)
  {
    var payload := EncodeFail(flowID, reason);
    assert payload[..8] == PutBE(8, flowID) && payload[8..] == PutUvarint(|reason|) + reason;
    Uint64RoundTrip(flowID);
    ReadPutUvarint(|reason|, reason);
    var start := |payload| - |reason|;
    assert payload[start..] == reason;
    assert payload[start..|payload|] == reason;
  }

  /** What it makes of every payload it can slice: fewer than eight bytes are the reason itself; else they
      begin with the flow, and the reason is what the length says, or empty when there is no length, it
      cannot be read, or it reaches past the end. */
  lemma {:induction false} FailMeans(payload: seq<byte>)
    requires |payload| <= MAX_INT64 && DecodeFail(payload) != Panics
    ensures |payload| < 8 ==> DecodeFail(payload) == Decoded(0, payload)
    ensures |payload| >= 8 ==>
              var r := ReadUvarint(payload[8..]);
              DecodeFail(payload) ==
              Decoded(Uint64(payload[..8]),
                      if |payload| > 8 && r.Ok? && r.value.0 <= |r.value.1| then r.value.1[..r.value.0] else [])
  {
    if |payload| > 8 && ReadUvarint(payload[8..]).Ok? {
      FailPanicsExactly(payload);
      ReadFits(payload[8..], 0);
      BoundIs64Bits();
      RestIsSuffix(payload[8..], 0);
      var rest := ReadUvarint(payload[8..]).value.1;
      var start := |payload| - |rest|;
      assert payload[start..] == rest by {
        assert payload[8..][|payload| - 8 - |rest|..] == payload[start..];
      }
    }
  }

  /** Exactly which inputs it cannot slice: a declared length that overflows a signed offset. */
  lemma {:induction false} FailPanicsExactly(payload: seq<byte>)
    requires |payload| <= MAX_INT64
    ensures DecodeFail(payload) == Panics
            <==> |payload| > 8
                 && var r := ReadUvarint(payload[8..]);
                    r.Ok? && |payload| - |r.value.1| + r.value.0 > MAX_INT64
  {
    if |payload| > 8 && ReadUvarint(payload[8..]).Ok? {
      ReadFits(payload[8..], 0);
      BoundIs64Bits();
    }
  }

  /** Such a payload for every flow and every length beyond the signed range. */
  lemma {:induction false} FailPanicHappens(flowID: uint64, ln: uint64)
    requires ln > MAX_INT64
    ensures DecodeFail(PutBE(8, flowID) + PutUvarint(ln)) == Panics
  {
    var payload := PutBE(8, flowID) + PutUvarint(ln);
    assert payload[8..] == PutUvarint(ln) + [];
    BoundIs64Bits();
    ReadPutUvarint(ln, []);
    hide PutUvarint, DecodeFail;
    FailPanicsExactly(payload);
  }
}
