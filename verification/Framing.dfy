/** The two layers of framing: goodix command frames inside message-protocol frames inside a wrapper. */
module Framing {
  import opened Common

  type Bytes = seq<byte>

  datatype Errno = InvalidArgument | Overflow | MessageSize | NoSpace | TryAgain | BadMessage | IoError | Other(code: int)

  datatype Result<+T> = Ok(value: T) | Err(error: Errno)

  const MP_TYPE_CMD: int := 0x0A
  const MP_TYPE_TLS: int := 0x0B
  const MP_TYPE_NOTICE: int := 0x0C
  const MP_LEN_MAX: int := 0x6C00
  const MP_TX_BUFFER_SIZE: int := 0x200
  const MP_MAX_PAYLOAD: int := MP_TX_BUFFER_SIZE - 8 - 4
  const MP_ALIGN: int := 8
  const WRAPPER_MAGIC: int := 0xF0
  const CHECKSUM_SEED: int := 0xAA
  const GOODIX_PAYLOAD_MAX: int := 0xFF00

  function Low(x: nat): byte {
    x % 256
  }

  /** The second byte of a 16-bit length. */
  function High(x: nat): byte {
    x / 256 % 256
  }

  function Le16(b: Bytes, i: nat): nat
    requires i + 2 <= |b|
  {
    (b[i] as int) + 256 * (b[i + 1] as int)
  }

  /** The sum of three bytes, as a byte. */
  function Sum3(a: int, b: int, c: int): byte {
    (a + b + c) % 256
  }

  lemma LengthBytes(lo: byte, hi: byte, len: nat)
    requires len < 0x1_0000
    ensures lo == Low(len) && hi == High(len) <==> (lo as int) + 256 * (hi as int) == len
  {
  }

  predicate TypeValid(t: int) {
    t == MP_TYPE_CMD || t == MP_TYPE_TLS || t == MP_TYPE_NOTICE
  }

  // ---------------------------------------------------------------- message-protocol frames

  /** Four header bytes: type in the upper half of the first, length, sum. */
  function MpHeader(mpType: int, len: nat): (h: Bytes)
    requires TypeValid(mpType)
    ensures |h| == 4
  {
    var flags := mpType * 16;
    [flags, Low(len), High(len), Sum3(flags, Low(len), High(len))]
  }

  function MpFrame(mpType: int, payload: Bytes): Bytes
    requires TypeValid(mpType)
  {
    MpHeader(mpType, |payload|) + payload
  }

  /** The length announced by a head that passes all checks. */
  function CheckHead(buf: Bytes): Option<nat> {
    if |buf| < 4 then None
    else if !TypeValid(buf[0] / 16) then None
    else if Le16(buf, 1) >= MP_LEN_MAX then None
    else if buf[3] != Sum3(buf[0], buf[1], buf[2]) then None
    else Some(Le16(buf, 1))
  }

  /**
   A head is accepted exactly if it is the header of a valid type and length, up to the low
   half of its first byte, which no check looks at but the sum.
   */
  lemma CheckHeadAccepts(buf: Bytes, len: nat)
    requires |buf| >= 4 && len < 0x1_0000
    ensures CheckHead(buf) == Some(len) <==>
              && len < MP_LEN_MAX
              && TypeValid(buf[0] / 16)
              && buf[1..3] == MpHeader(buf[0] / 16, len)[1..3]
              && buf[3] == Sum3(MpHeader(buf[0] / 16, len)[3], buf[0] % 16, 0)
  {
    LengthBytes(buf[1], buf[2], len);
    if TypeValid(buf[0] / 16) {
      var h := MpHeader(buf[0] / 16, len);
      var flags := (buf[0] / 16) * 16;
      assert buf[1..3] == [buf[1], buf[2]] && h[1..3] == [Low(len), High(len)];
      ModAdd(flags + Low(len) + High(len), buf[0] % 16);
    }
  }

  lemma BuiltHeadIsAccepted(mpType: int, payload: Bytes, rest: Bytes)
    requires TypeValid(mpType) && |payload| < MP_LEN_MAX
    ensures var f := MpFrame(mpType, payload) + rest;
            CheckHead(f) == Some(|payload|) && f[0] / 16 == mpType
  {
    var f := MpFrame(mpType, payload) + rest;
    LengthBytes(f[1], f[2], |payload|);
  }

  method MpBuild(mpType: int, payload: Bytes, outCap: nat) returns (r: Result<Bytes>)
    ensures if |payload| >= MP_LEN_MAX then r == Err(Overflow)
            else if !TypeValid(mpType) then r == Err(InvalidArgument)
            else if 4 + |payload| > outCap then r == Err(MessageSize)
            else r == Ok(MpFrame(mpType, payload))
  {
    if |payload| >= MP_LEN_MAX {
      return Err(Overflow);
    }
    if !TypeValid(mpType) {
      return Err(InvalidArgument);
    }
    var total := 4 + |payload|;
    if total > outCap {
      return Err(MessageSize);
    }
    var out := new byte[total](_ => 0);
    var header := StoreHeader(mpType * 16, |payload|, out);
    StoreBytes(out, 4, payload);
    assert out[..] == header + payload;
    return Ok(out[..]);
  }

  /** First byte, length and sum, as both header formats begin. */
  method StoreHeader(first: byte, len: nat, out: array<byte>) returns (ghost header: Bytes)
    requires out.Length >= 4
    modifies out
    ensures header == [first, Low(len), High(len), Sum3(first, Low(len), High(len))]
    ensures out[..] == header + old(out[4..])
  {
    out[0] := first;
    out[1] := Low(len);
    out[2] := High(len);
    out[3] := Sum3(out[0], out[1], out[2]);
    header := out[..4];
    assert out[4..] == old(out[4..]);
  }

  method StoreBytes(out: array<byte>, at: nat, b: Bytes)
    requires at + |b| <= out.Length
    modifies out
    ensures out[..] == old(out[..at]) + b + old(out[at + |b|..])
  {
    forall i | 0 <= i < |b| {
      out[at + i] := b[i];
    }
    assert out[..at] == old(out[..at]) && out[at..at + |b|] == b && out[at + |b|..] == old(out[at + |b|..]);
  }

  // ---------------------------------------------------------------- the wrapper

  function Padding(len: nat): nat {
    (MP_ALIGN - len % MP_ALIGN) % MP_ALIGN
  }

  function WrappedLen(len: nat): nat {
    8 + len + Padding(len)
  }

  function NextSeq(seq16: nat): nat {
    (seq16 + 1) % 0x1_0000
  }

  /** A wrapped frame as its reader sees it: magic, length, sum, sequence number, body, zeros. */
  predicate IsWrapped(out: Bytes, frame: Bytes, seq16: nat) {
    && |out| == WrappedLen(|frame|)
    && out[0] == WRAPPER_MAGIC
    && Le16(out, 1) == |frame|
    && out[3] == Sum3(out[0], out[1], out[2])
    && Le16(out, 4) == seq16
    && out[6] == 0 && out[7] == 0
    && out[8..8 + |frame|] == frame
    && forall i :: 8 + |frame| <= i < |out| ==> out[i] == 0
  }

  lemma WrappedLenBounds(len: nat)
    ensures WrappedLen(len) % 8 == 0 && 8 + len <= WrappedLen(len) < 16 + len
    ensures WrappedLen(len) <= MP_TX_BUFFER_SIZE <==> len <= MP_TX_BUFFER_SIZE - 8
  {
  }

  /** A wrapped frame determines what was wrapped. */
  lemma WrapInjective(out: Bytes, f: Bytes, s: nat, f': Bytes, s': nat)
    requires IsWrapped(out, f, s) && IsWrapped(out, f', s')
    ensures f == f' && s == s'
  {
  }

  /** Magic, length, sum, sequence number and two zeros, then the frame and zeros, are a wrapped frame. */
  lemma WrapStored(out: Bytes, head: Bytes, frame: Bytes, seq16: nat)
    requires |frame| < 0x1_0000 && seq16 < 0x1_0000 && |out| == WrappedLen(|frame|)
    requires head == [WRAPPER_MAGIC, Low(|frame|), High(|frame|), Sum3(WRAPPER_MAGIC, Low(|frame|), High(|frame|)),
                      Low(seq16), High(seq16), 0, 0]
    requires out[..8] == head && out[8..8 + |frame|] == frame
    requires forall i :: 8 + |frame| <= i < |out| ==> out[i] == 0
    ensures IsWrapped(out, frame, seq16)
  {
    LengthBytes(Low(|frame|), High(|frame|), |frame|);
    LengthBytes(Low(seq16), High(seq16), seq16);
    assert forall i :: 0 <= i < 8 ==> out[i] == out[..8][i];
  }

  method MpWrap(frame: Bytes, seq16: nat, outCap: nat) returns (r: Result<Bytes>, seqOut: nat)
    requires seq16 < 0x1_0000
    ensures if frame == [] then r == Err(InvalidArgument)
            else if WrappedLen(|frame|) > MP_TX_BUFFER_SIZE then r == Err(Overflow)
            else if WrappedLen(|frame|) > outCap then r == Err(MessageSize)
            else r.Ok? && IsWrapped(r.value, frame, NextSeq(seq16))
    ensures seqOut == if r.Ok? then NextSeq(seq16) else seq16
  {
    seqOut := seq16;
    if frame == [] {
      return Err(InvalidArgument), seqOut;
    }
    var txLen := WrappedLen(|frame|);
    WrappedLenBounds(|frame|);
    if txLen > MP_TX_BUFFER_SIZE {
      return Err(Overflow), seqOut;
    }
    if txLen > outCap {
      return Err(MessageSize), seqOut;
    }
    var out := new byte[txLen](_ => 0);
    seqOut := (seq16 + 1) % 0x1_0000;
    var header := StoreHeader(WRAPPER_MAGIC, |frame|, out);
    out[4] := Low(seqOut);
    out[5] := High(seqOut);
    ghost var head := out[..8];
    StoreBytes(out, 8, frame);
    r := Ok(out[..]);
    WrapStored(out[..], head, frame, seqOut);
  }

  // ---------------------------------------------------------------- goodix frames

  function Sum(b: Bytes): nat {
    if b == [] then 0 else Sum(b[..|b| - 1]) + b[|b| - 1]
  }

  function Checksum(cmd: byte, declLen: nat, payload: Bytes): byte {
    (CHECKSUM_SEED - (cmd + Low(declLen) + High(declLen) + Sum(payload))) % 256
  }

  /** The loop, in unsigned 32-bit steps. */
  method AddBytes(sum0: nat, payload: Bytes) returns (sum: nat)
    requires sum0 <= 765 && |payload| < 0x1_0000
    ensures sum == sum0 + Sum(payload)
  {
    sum := sum0;
    for i := 0 to |payload|
      invariant sum == sum0 + Sum(payload[..i]) <= 765 + 255 * i
    {
      assert payload[..i + 1][..i] == payload[..i];
      sum := AddU32(sum, payload[i]);
    }
    assert payload[..|payload|] == payload;
  }

  method ComputeChecksum(cmd: byte, declLen: nat, payload: Bytes) returns (ck: byte)
    requires |payload| < 0x1_0000
    ensures ck == Checksum(cmd, declLen, payload)
  {
    var sum := AddBytes((cmd as int) + (Low(declLen) as int) + (High(declLen) as int), payload);
    ck := (CHECKSUM_SEED - sum % 256) % 256;
  }

  /** Command, length including the checksum, payload, checksum. */
  function GoodixFrame(cmd: byte, payload: Bytes): Bytes {
    var declLen := 1 + |payload|;
    [cmd, Low(declLen), High(declLen)] + payload + [Checksum(cmd, declLen, payload)]
  }

  method GoodixBuild(cmd: byte, payload: Bytes, outCap: nat) returns (r: Result<Bytes>)
    ensures if |payload| > GOODIX_PAYLOAD_MAX then r == Err(Overflow)
            else if |payload| + 4 > outCap then r == Err(NoSpace)
            else r == Ok(GoodixFrame(cmd, payload))
  {
    if |payload| > GOODIX_PAYLOAD_MAX {
      return Err(Overflow);
    }
    var declLen := (1 + |payload|) % 0x1_0000;
    var total := 1 + 2 + |payload| + 1;
    if total > outCap {
      return Err(NoSpace);
    }
    var out := new byte[total](_ => 0);
    out[0] := cmd;
    out[1] := Low(declLen);
    out[2] := High(declLen);
    StoreBytes(out, 3, payload);
    out[3 + |payload|] := ComputeChecksum(cmd, declLen, payload);
    assert out[..] == GoodixFrame(cmd, payload);
    return Ok(out[..]);
  }

  datatype Parsed = Parsed(cmd: byte, payload: Bytes, checksum: byte, checksumOk: bool)

  /** A frame at the start of the buffer; what follows it is ignored. */
  function ParseGoodix(buf: Bytes): Option<Parsed> {
    if |buf| < 4 then None
    else
      var declLen := Le16(buf, 1);
      if declLen < 1 then None
      else
        var payloadLen := declLen - 1;
        if 3 + payloadLen + 1 > |buf| then None
        else
          var payload := buf[3..3 + payloadLen];
          var ck := buf[3 + payloadLen];
          Some(Parsed(buf[0], payload, ck, Checksum(buf[0], declLen, payload) == ck))
  }

  /** Parsing a buffer that starts with a length field finds the payload after it. */
  lemma ParseByLength(buf: Bytes, cmd: byte, payload: Bytes, ck: byte)
    requires |payload| <= GOODIX_PAYLOAD_MAX && |buf| >= 4 + |payload|
    requires buf[0] == cmd && buf[1] == Low(1 + |payload|) && buf[2] == High(1 + |payload|)
    requires buf[3..3 + |payload|] == payload && buf[3 + |payload|] == ck
    ensures ParseGoodix(buf)
         == Some(Parsed(cmd, payload, ck, Checksum(cmd, 1 + |payload|, payload) == ck))
  {
    LengthBytes(buf[1], buf[2], 1 + |payload|);
  }

  /** Parsing undoes building, whatever follows. */
  lemma GoodixRoundTrip(cmd: byte, payload: Bytes, rest: Bytes)
    requires |payload| <= GOODIX_PAYLOAD_MAX
    ensures var ck := Checksum(cmd, 1 + |payload|, payload);
            ParseGoodix(GoodixFrame(cmd, payload) + rest) == Some(Parsed(cmd, payload, ck, true))
  {
    var buf := GoodixFrame(cmd, payload) + rest;
    assert buf[3..3 + |payload|] == payload;
    ParseByLength(buf, cmd, payload, Checksum(cmd, 1 + |payload|, payload));
  }

  lemma {:induction false} SumOfUpdate(b: Bytes, i: nat, v: byte)
    requires i < |b|
    ensures Sum(b[i := v]) == Sum(b) - b[i] + v
    decreases |b|
  {
    var n := |b| - 1;
    if i < n {
      SumOfUpdate(b[..n], i, v);
      assert b[i := v][..n] == b[..n][i := v];
    } else {
      assert b[i := v][..n] == b[..n];
    }
  }

  lemma ChecksumSeesChange(declLen: nat, cmd: byte, p: Bytes, cmd': byte, p': Bytes)
    requires -256 < (cmd' + Sum(p')) - (cmd + Sum(p)) < 256
    ensures Checksum(cmd, declLen, p) == Checksum(cmd', declLen, p') <==> cmd + Sum(p) == cmd' + Sum(p')
  {
    var rest := CHECKSUM_SEED - Low(declLen) - High(declLen);
    ResiduesDiffer(rest - cmd - Sum(p), rest - cmd' - Sum(p'));
  }

  lemma ResiduesDiffer(x: int, y: int)
    requires -256 < x - y < 256
    ensures x % 256 == y % 256 <==> x == y
  {
  }

  /** Any change of one byte outside the length field is seen by the checksum. */
  lemma OneByteCorruptionIsSeen(cmd: byte, payload: Bytes, i: nat, v: byte)
    requires |payload| <= GOODIX_PAYLOAD_MAX
    requires i < 4 + |payload| && i != 1 && i != 2
    ensures var f := GoodixFrame(cmd, payload); var p := ParseGoodix(f[i := v]);
            p.Some? && (p.value.checksumOk <==> v == f[i])
  {
    var f := GoodixFrame(cmd, payload);
    var g := f[i := v];
    var n := |payload|;
    var payload' := if 3 <= i < 3 + n then payload[i - 3 := v] else payload;
    assert g[3..3 + n] == payload';
    ParseByLength(g, g[0], payload', g[3 + n]);
    if 3 <= i < 3 + n {
      SumOfUpdate(payload, i - 3, v);
    }
    ChecksumSeesChange(1 + n, cmd, payload, g[0], payload');
  }

  // ---------------------------------------------------------------- sending

  /** What the write to the device returns: an error, or how many bytes it took. */
  datatype WriteResult = WriteFailed(error: Errno) | Wrote(count: nat)

  /**
   gxfp_dev_send_packet: the bytes handed to the device, if it gets that far, and the error.
   The sequence number is used up by a packet that was built, even if the write then fails.
   */
  method SendPacket(mpType: int, payload: Bytes, seq16: nat, write: WriteResult)
    returns (sent: Option<Bytes>, error: Option<Errno>, seqOut: nat)
    requires seq16 < 0x1_0000
    ensures sent.Some? <==> |payload| <= MP_MAX_PAYLOAD && TypeValid(mpType)
    ensures sent.None? ==> seqOut == seq16
    ensures sent.None? ==> error == Some(if |payload| > MP_MAX_PAYLOAD then MessageSize else InvalidArgument)
    ensures sent.Some? ==> seqOut == NextSeq(seq16) && IsWrapped(sent.value, MpFrame(mpType, payload), seqOut)
    ensures sent.Some? ==> (error.None? <==> write == Wrote(|sent.value|))
    ensures sent.Some? && error.Some? ==> error.value == if write.WriteFailed? then write.error else IoError
  {
    if |payload| > MP_MAX_PAYLOAD {
      return None, Some(MessageSize), seq16;
    }
    var mp := MpBuild(mpType, payload, 4 + MP_MAX_PAYLOAD);
    if mp.Err? {
      return None, Some(mp.error), seq16;
    }
    WrappedLenBounds(|mp.value|);
    var tx;
    tx, seqOut := MpWrap(mp.value, seq16, MP_TX_BUFFER_SIZE);
    sent := Some(tx.value);
    match write {
      case WriteFailed(e) => error := Some(e);
      case Wrote(count) => error := if count != |tx.value| then Some(IoError) else None;
    }
  }

  /** What a command looks like when it arrives: unwrap by the length field, check, parse. */
  function Received(out: Bytes): Option<Parsed>
    requires |out| >= 8
  {
    var len := Le16(out, 1);
    if 8 + len > |out| then None
    else
      var frame := out[8..8 + len];
      var n := CheckHead(frame);
      if n.None? || 4 + n.value > |frame| || frame[0] / 16 != MP_TYPE_CMD then None
      else ParseGoodix(frame[4..4 + n.value])
  }

  /** A command fits the transmit buffer exactly up to 496 bytes of payload, and then arrives unharmed. */
  lemma CommandRoundTrip(cmd: byte, payload: Bytes, seq16: nat, out: Bytes)
    requires |payload| <= GOODIX_PAYLOAD_MAX
    ensures |GoodixFrame(cmd, payload)| <= MP_MAX_PAYLOAD <==> |payload| <= 496
    ensures |payload| <= 496 && IsWrapped(out, MpFrame(MP_TYPE_CMD, GoodixFrame(cmd, payload)), seq16) ==>
              && |out| % 8 == 0 && |out| <= 512
              && Received(out) == Some(Parsed(cmd, payload, Checksum(cmd, 1 + |payload|, payload), true))
  {
    var g := GoodixFrame(cmd, payload);
    if |payload| <= 496 && IsWrapped(out, MpFrame(MP_TYPE_CMD, g), seq16) {
      var frame := MpFrame(MP_TYPE_CMD, g);
      WrappedLenBounds(|frame|);
      BuiltHeadIsAccepted(MP_TYPE_CMD, g, []);
      assert frame + [] == frame;
      assert frame[4..4 + |g|] == g;
      GoodixRoundTrip(cmd, payload, []);
      assert g + [] == g;
    }
  }
}
