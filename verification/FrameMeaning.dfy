/** What the frames look like byte by byte, and what is read from them. */
module FrameMeaning {
  import opened Common
  import opened Framing

  lemma {:induction false} SumOfConcat(a: Bytes, b: Bytes)
    ensures Sum(a + b) == Sum(a) + Sum(b)
    decreases |b|
  {
    if b == [] {
      assert a + b == a;
    } else {
      SumOfConcat(a, b[..|b| - 1]);
      assert (a + b)[..|a + b| - 1] == a + b[..|b| - 1];
    }
  }

  lemma SumOfFrame(head: Bytes, payload: Bytes, ck: byte)
    requires |head| == 3
    ensures Sum(head + payload + [ck]) == head[0] + (head[1] as int) + (head[2] as int) + Sum(payload) + ck
  {
    var front := head + payload;
    assert (front + [ck])[..|front|] == front;
    SumOfConcat(head, payload);
    assert head[..2][..1] == head[..1] && head[..1][..0] == [];
    assert Sum(head[..1]) == head[0];
  }

  lemma ChecksumCloses(rest: int, ck: byte)
    ensures (rest + ck) % 256 == CHECKSUM_SEED <==> ck == (CHECKSUM_SEED - rest) % 256
  {
  }

  /**
   A command frame byte by byte: the command, the length of what follows, the payload, and
   the byte that makes the sum of all bytes 0xAA.
   */
  predicate WellFramed(f: Bytes, cmd: byte, payload: Bytes) {
    && |f| == 4 + |payload|
    && f[0] == cmd && f[1] + 256 * (f[2] as int) == 1 + |payload|
    && f[3..3 + |payload|] == payload
    && Sum(f) % 256 == 0xAA
  }

  lemma FrameLayout(f: Bytes, cmd: byte, payload: Bytes)
    requires |payload| <= GOODIX_PAYLOAD_MAX
    ensures f == GoodixFrame(cmd, payload) <==> WellFramed(f, cmd, payload)
  {
    var g := GoodixFrame(cmd, payload);
    BuiltIsWellFramed(g, cmd, payload);
    if WellFramed(f, cmd, payload) {
      WellFramedIsBuilt(f, cmd, payload);
    }
  }

  lemma BuiltIsWellFramed(f: Bytes, cmd: byte, payload: Bytes)
    requires |payload| <= GOODIX_PAYLOAD_MAX && f == GoodixFrame(cmd, payload)
    ensures WellFramed(f, cmd, payload)
  {
    var n := |payload|;
    LengthBytes(f[1], f[2], 1 + n);
    assert f[3..3 + n] == payload;
    assert f == f[..3] + payload + [f[3 + n]];
    SumOfFrame(f[..3], payload, f[3 + n]);
    ChecksumCloses(f[0] + (f[1] as int) + (f[2] as int) + Sum(payload), f[3 + n]);
  }

  lemma WellFramedIsBuilt(f: Bytes, cmd: byte, payload: Bytes)
    requires |payload| <= GOODIX_PAYLOAD_MAX && WellFramed(f, cmd, payload)
    ensures f == GoodixFrame(cmd, payload)
  {
    var n := |payload|;
    LengthBytes(f[1], f[2], 1 + n);
    assert f == f[..3] + payload + [f[3 + n]];
    SumOfFrame(f[..3], payload, f[3 + n]);
    ChecksumCloses(f[0] + (f[1] as int) + (f[2] as int) + Sum(payload), f[3 + n]);
    assert f[..3] == [f[0], f[1], f[2]];
  }

  /** What the parser accepts, and when it calls the checksum good. */
  lemma ParseAccepts(buf: Bytes)
    ensures ParseGoodix(buf).Some? <==>
              |buf| >= 4 && 1 <= buf[1] + 256 * (buf[2] as int) <= |buf| - 3
    ensures ParseGoodix(buf).Some? ==>
              var n := 3 + buf[1] + 256 * (buf[2] as int);
              ParseGoodix(buf).value.checksumOk <==> Sum(buf[..n]) % 256 == 0xAA
  {
    if ParseGoodix(buf).Some? {
      var n := buf[1] + 256 * (buf[2] as int) - 1;
      var f := buf[..4 + n];
      assert f == f[..3] + buf[3..3 + n] + [f[3 + n]];
      SumOfFrame(f[..3], buf[3..3 + n], f[3 + n]);
      LengthBytes(f[1], f[2], 1 + n);
      ChecksumCloses(f[0] + (f[1] as int) + (f[2] as int) + Sum(buf[3..3 + n]), f[3 + n]);
    }
  }

  /** A message frame byte by byte. */
  lemma MpFrameLayout(f: Bytes, mpType: int, payload: Bytes)
    requires TypeValid(mpType) && |payload| < 0x1_0000
    ensures f == MpFrame(mpType, payload) <==>
              && |f| == 4 + |payload|
              && f[0] == 16 * mpType && f[1] + 256 * (f[2] as int) == |payload|
              && f[3] == (f[0] + (f[1] as int) + (f[2] as int)) % 256
              && f[4..] == payload
  {
    if |f| == 4 + |payload| {
      LengthBytes(f[1], f[2], |payload|);
      assert f == [f[0], f[1], f[2], f[3]] + f[4..];
    }
  }

  /** A command on the wire: frame, message frame, lengths low byte first. */
  lemma CommandOnTheWire()
    ensures GoodixFrame(0x20, [0x01]) == [0x20, 0x02, 0x00, 0x01, 0x87]
    ensures MpFrame(MP_TYPE_CMD, GoodixFrame(0x20, [0x01])) == [0xA0, 0x05, 0x00, 0xA5, 0x20, 0x02, 0x00, 0x01, 0x87]
  {
    assert Sum([0x01]) == 1 by { assert [0x01 as byte][..0] == []; }
  }
}
