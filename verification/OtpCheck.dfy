/** The sensor's one-time-programmable memory: its checks, its redundant copies, its parameters. */
module OtpCheck {
  import opened Common

  type Otp = seq<byte>

  const MIN_LEN: int := 0x20

  /** The two calibration bytes an accepted memory yields. */
  datatype Raw = Raw(tcode: byte, dac: byte)

  datatype OtpCfg = OtpCfg(tcode: nat, fdtDelta: nat, dac: nat, hasTcodeDelta: bool)

  // ---------------------------------------------------------------- the cyclic code

  /** Exclusive or, digit by digit. */
  function Xor(a: nat, b: nat): nat {
    if a == 0 && b == 0 then 0 else 2 * Xor(a / 2, b / 2) + (a + b) % 2
  }

  function Pow2(k: nat): nat {
    if k == 0 then 1 else 2 * Pow2(k - 1)
  }

  lemma {:induction false} XorBelow(a: nat, b: nat, k: nat)
    requires a < Pow2(k) && b < Pow2(k)
    ensures Xor(a, b) < Pow2(k)
  {
    if k > 0 {
      XorBelow(a / 2, b / 2, k - 1);
    }
  }

  lemma {:induction false} XorCancels(a: nat, b: nat, c: nat)
    ensures Xor(a, c) == Xor(b, c) <==> a == b
    decreases a + b + c
  {
    if a + b + c > 0 {
      XorCancels(a / 2, b / 2, c / 2);
    }
  }

  lemma {:induction false} XorCommutes(a: nat, b: nat)
    ensures Xor(a, b) == Xor(b, a)
  {
    if a + b > 0 {
      XorCommutes(a / 2, b / 2);
    }
  }

  function XorByte(a: byte, b: byte): byte {
    assert Pow2(8) == 256;
    XorBelow(a, b, 8);
    Xor(a, b)
  }

  /** One bit of the division by x^8 + x^2 + x + 1. */
  function BitStep(c: byte): byte {
    if c >= 128 then XorByte(2 * c - 256, 0x07) else 2 * c
  }

  function BitSteps(c: byte, n: nat): byte {
    if n == 0 then c else BitStep(BitSteps(c, n - 1))
  }

  /** What is left after all of `data`, with `n` steps for each byte. */
  function Remainder(data: seq<byte>, n: nat): byte {
    if data == [] then 0 else BitSteps(XorByte(Remainder(data[..|data| - 1], n), data[|data| - 1]), n)
  }

  function Not(b: byte): byte {
    255 - b
  }

  function Crc8(data: seq<byte>): byte {
    Not(Remainder(data, 8))
  }

  method ComputeBits(c0: byte, n: nat) returns (c: byte)
    ensures c == BitSteps(c0, n)
  {
    c := c0;
    for bit := 0 to n
      invariant c == BitSteps(c0, bit)
    {
      c := if c >= 0x80 then XorByte(2 * c % 256, 0x07) else 2 * c;
    }
  }

  method ComputeCrc8(data: array<byte>) returns (crc: byte)
    ensures crc == Crc8(data[..])
  {
    var c: byte := 0;
    for i := 0 to data.Length
      invariant c == Remainder(data[..i], 8)
    {
      c := ComputeBits(XorByte(c, data[i]), 8);
      assert data[..i + 1][..i] == data[..i];
    }
    assert data[..data.Length] == data[..];
    crc := Not(c);
  }

  lemma BitStepInjective(a: byte, b: byte)
    requires BitStep(a) == BitStep(b)
    ensures a == b
  {
    if a >= 128 && b >= 128 {
      XorCancels(2 * a - 256, 2 * b - 256, 7);
    }
  }

  lemma {:induction false} BitStepsInjective(a: byte, b: byte, n: nat)
    ensures BitSteps(a, n) == BitSteps(b, n) <==> a == b
  {
    if n > 0 && BitSteps(a, n) == BitSteps(b, n) {
      BitStepInjective(BitSteps(a, n - 1), BitSteps(b, n - 1));
      BitStepsInjective(a, b, n - 1);
    }
  }

  lemma {:induction false} RemainderSeesOneByte(data: seq<byte>, bits: nat, i: nat, v: byte)
    requires i < |data|
    ensures Remainder(data[i := v], bits) == Remainder(data, bits) <==> v == data[i]
    decreases |data|
  {
    var n := |data| - 1;
    var other := data[i := v];
    var before, before' := Remainder(data[..n], bits), Remainder(other[..n], bits);
    BitStepsInjective(XorByte(before, data[n]), XorByte(before', other[n]), bits);
    if i < n {
      assert other[..n] == data[..n][i := v];
      RemainderSeesOneByte(data[..n], bits, i, v);
      XorCancels(before, before', data[n]);
    } else {
      assert other[..n] == data[..n];
      XorCommutes(before, v);
      XorCommutes(before, data[n]);
      XorCancels(v, data[n], before);
    }
  }

  /** Two strings that differ in at most one byte have the same code exactly if they are equal. */
  lemma CrcSeesOneByte(data: seq<byte>, i: nat, v: byte)
    requires i < |data|
    ensures Crc8(data[i := v]) == Crc8(data) <==> v == data[i]
  {
    RemainderSeesOneByte(data, 8, i, v);
  }

  // ---------------------------------------------------------------- the vote

  /** Two-out-of-three, in the order the source compares: `nb` is stored inverted. */
  function Vote(a: byte, nb: byte, c: byte): Option<byte> {
    if a != 0 && a == Not(nb) then Some(a)
    else if a != 0 && a == c then Some(a)
    else if c != 0 && c == Not(nb) then Some(c)
    else None
  }

  /** How many of the three copies hold `v`. */
  function Copies(v: byte, a: byte, nb: byte, c: byte): nat {
    (if a == v then 1 else 0) + (if Not(nb) == v then 1 else 0) + (if c == v then 1 else 0)
  }

  /** The vote yields exactly the nonzero value held by at least two copies. */
  lemma VoteIsMajority(v: byte, a: byte, nb: byte, c: byte)
    ensures Vote(a, nb, c) == Some(v) <==> v != 0 && Copies(v, a, nb, c) >= 2
  {
  }

  // ---------------------------------------------------------------- the check

  /** The bytes the cyclic code at 0x1e covers. */
  function Covered(otp: Otp): seq<byte>
    requires |otp| >= MIN_LEN
  {
    otp[..0x11] + [otp[0x12], otp[0x13], otp[0x1c], otp[0x1d], otp[0x1f]]
  }

  predicate IsCovered(i: int) {
    0 <= i < 0x11 || i == 0x12 || i == 0x13 || i == 0x1c || i == 0x1d || i == 0x1f
  }

  function SumOf(s: seq<byte>): nat {
    if s == [] then 0 else SumOf(s[..|s| - 1]) + s[|s| - 1]
  }

  function Sum4(a: int, b: int, c: int, d: int): byte {
    (a + b + c + d) % 256
  }

  lemma SumIsModular(a: int, b: int, c: int, d: int)
    ensures Sum4(a % 256, b, c, d) == Sum4(a, b, c, d)
  {
    ModAdd(a, b + c + d);
  }

  predicate SumOk(otp: Otp)
    requires |otp| >= MIN_LEN
  {
    Sum4(SumOf(otp[..8]), otp[0x12], otp[0x13], otp[0x1d]) == 0
  }

  function VoteTcode(otp: Otp): Option<byte>
    requires |otp| >= MIN_LEN
  {
    Vote(otp[0x16], otp[0x17], otp[0x19])
  }

  function VoteDac(otp: Otp): Option<byte>
    requires |otp| >= MIN_LEN
  {
    Vote(otp[0x1f], otp[0x1b], otp[0x1a])
  }

  /** A memory is accepted if its sum, its code and both votes are good; None is EBADMSG. */
  function Check(otp: Otp): Option<Raw> {
    if |otp| < MIN_LEN || !SumOk(otp) || Crc8(Covered(otp)) != otp[0x1e]
       || VoteTcode(otp).None? || VoteDac(otp).None?
    then None
    else Some(Raw(VoteTcode(otp).value, VoteDac(otp).value))
  }

  method SumBytes(s: seq<byte>) returns (sum: byte)
    ensures sum == SumOf(s) % 256
  {
    sum := 0;
    for i := 0 to |s|
      invariant sum == SumOf(s[..i]) % 256
    {
      assert s[..i + 1][..i] == s[..i];
      ModAdd(SumOf(s[..i]), s[i]);
      sum := (sum + s[i]) % 256;
    }
    assert s[..|s|] == s;
  }

  /** The code over the covered bytes, gathered in a buffer first. */
  method ComputeCode(otp: Otp) returns (crc: byte)
    requires |otp| >= MIN_LEN
    ensures crc == Crc8(Covered(otp))
  {
    var ftBuf := new byte[0x16](i requires 0 <= i < 0x16 => if i < 0x11 then otp[i] else 0);
    ftBuf[0x11] := otp[0x12];
    ftBuf[0x12] := otp[0x13];
    ftBuf[0x13] := otp[0x1c];
    ftBuf[0x14] := otp[0x1d];
    ftBuf[0x15] := otp[0x1f];
    assert ftBuf[..] == Covered(otp);
    crc := ComputeCrc8(ftBuf);
  }

  method ComputeSum(otp: Otp) returns (ok: bool)
    requires |otp| >= MIN_LEN
    ensures ok == SumOk(otp)
  {
    var sum := SumBytes(otp[..8]);
    SumIsModular(SumOf(otp[..8]), otp[0x12], otp[0x13], otp[0x1d]);
    sum := Sum4(sum, otp[0x12], otp[0x13], otp[0x1d]);
    ok := sum == 0;
  }

  method CheckOtp(otp: Otp) returns (r: Option<Raw>)
    ensures r == Check(otp)
  {
    if |otp| < MIN_LEN {
      return None;
    }
    var sumOk := ComputeSum(otp);
    if !sumOk {
      return None;
    }
    var crc := ComputeCode(otp);
    if crc != otp[0x1e] {
      return None;
    }
    var tcode := SelectValue(otp[0x16], otp[0x17], otp[0x19]);
    if tcode.None? {
      return None;
    }
    var dac := SelectValue(otp[0x1f], otp[0x1b], otp[0x1a]);
    if dac.None? {
      return None;
    }
    return Some(Raw(tcode.value, dac.value));
  }

  /** The chain of comparisons, the same for both values. */
  method SelectValue(first: byte, inverted: byte, third: byte) returns (r: Option<byte>)
    ensures r == Vote(first, inverted, third)
    ensures r.Some? ==> r.value != 0 && Copies(r.value, first, inverted, third) >= 2
  {
    if first != 0 && first == Not(inverted) {
      return Some(first);
    } else if first != 0 && first == third {
      return Some(first);
    } else if third != 0 && third == Not(inverted) {
      return Some(third);
    }
    return None;
  }

  // ---------------------------------------------------------------- one fault

  lemma CoveredUpdate(otp: Otp, i: nat, v: byte)
    requires |otp| >= MIN_LEN && i < |otp|
    ensures !IsCovered(i) ==> Covered(otp[i := v]) == Covered(otp)
    ensures IsCovered(i) ==>
              exists k: nat :: k < |Covered(otp)| && Covered(otp)[k] == otp[i]
                && Covered(otp[i := v]) == Covered(otp)[k := v]
  {
    var k := if i < 0x11 then i else if i == 0x12 then 0x11 else if i == 0x13 then 0x12
             else if i == 0x1c then 0x13 else if i == 0x1d then 0x14 else 0x15;
    if IsCovered(i) {
      assert Covered(otp)[k] == otp[i];
      assert Covered(otp[i := v]) == Covered(otp)[k := v];
    } else {
      assert otp[i := v][..0x11] == otp[..0x11];
    }
  }

  /** Both groups of three copies agree. */
  predicate Consistent(otp: Otp)
    requires |otp| >= MIN_LEN
  {
    && otp[0x16] == Not(otp[0x17]) == otp[0x19]
    && otp[0x1f] == Not(otp[0x1b]) == otp[0x1a]
  }

  /**
   One changed byte of an accepted memory whose copies agree never changes the outcome to
   other values: it is rejected exactly if the byte is the code or covered by it, and
   otherwise the same values come out.
   */
  lemma OneFault(otp: Otp, i: nat, v: byte)
    requires Check(otp).Some? && Consistent(otp) && i < |otp|
    ensures Check(otp[i := v])
         == if v != otp[i] && (IsCovered(i) || i == 0x1e) then None else Check(otp)
  {
    var other := otp[i := v];
    CoveredUpdate(otp, i, v);
    if i == 0x1e || !IsCovered(i) {
      assert Covered(other) == Covered(otp);
      assert other[..8] == otp[..8];
      assert SumOk(other);
      assert VoteTcode(other) == VoteTcode(otp);
      assert VoteDac(other) == VoteDac(otp);
    } else {
      var k: nat :| k < |Covered(otp)| && Covered(otp)[k] == otp[i] && Covered(other) == Covered(otp)[k := v];
      CrcSeesOneByte(Covered(otp), k, v);
      if v == otp[i] {
        assert other == otp;
      }
    }
  }

  /** Whatever else is wrong, a change confined to one covered byte is never accepted. */
  lemma CoveredFaultRejected(otp: Otp, i: nat, v: byte)
    requires Check(otp).Some? && IsCovered(i) && v != otp[i]
    ensures Check(otp[i := v]) == None
  {
    CoveredUpdate(otp, i, v);
    var k: nat :| k < |Covered(otp)| && Covered(otp)[k] == otp[i] && Covered(otp[i := v]) == Covered(otp)[k := v];
    CrcSeesOneByte(Covered(otp), k, v);
  }

  // ---------------------------------------------------------------- the parameters

  function HighNibble(b: byte): nat {
    b / 16
  }

  function LowNibble(b: byte): nat {
    b % 16
  }

  lemma NibbleBounds(b: byte)
    ensures HighNibble(b) < 16 && LowNibble(b) < 16
  {
  }

  /** The parameters in exact arithmetic: no step of the 16-bit computation loses anything. */
  function Parameters(raw: Raw): OtpCfg {
    var tcode := 16 * (HighNibble(raw.tcode) + 1);
    OtpCfg(tcode, (LowNibble(raw.tcode) + 2) * 25600 / (48 * tcode), raw.dac * 16 + 8, true)
  }

  function U16(x: int): nat {
    x % 0x1_0000
  }

  lemma QuotientIs(x: nat, d: nat, q: nat, r: nat)
    requires d > 0 && x == q * d + r && r < d
    ensures x / d == q
  {
    var k := x / d - q;
    assert x == x / d * d + x % d;
    assert k * d == r - x % d;
    MultipleIsFar(k, d);
  }

  lemma Distribute(q: nat, r: nat, a: nat)
    ensures (q * 48 + r) * a == q * (48 * a) + r * a
    ensures r <= 47 ==> r * a <= 47 * a
  {
    assert q * 48 * a == q * (48 * a);
  }

  lemma NestedQuotient(x: nat, a: nat)
    requires a > 0
    ensures x / a / 48 == x / (48 * a)
  {
    var q := x / a;
    assert x == q * a + x % a;
    assert q == q / 48 * 48 + q % 48;
    Distribute(q / 48, q % 48, a);
    QuotientIs(x, 48 * a, q / 48, q % 48 * a + x % a);
  }

  lemma QuotientBelow(x: nat, d: nat, k: nat)
    requires d > 0
    ensures x / d < k <==> x < k * d
  {
    assert x == x / d * d + x % d;
    assert (k - x / d) * d == k * d - x / d * d;
    MultipleIsFar(k - x / d, d);
  }

  lemma TwoDivisions(q: nat)
    requires q < 0x1_0000
    ensures U16(U16(q) / 3 / 16) == q / 48
  {
  }

  /** The delta as the source computes it, truncating to 16 bits after each of two divisions. */
  method ComputeFdtDelta(x: nat, tcode: nat) returns (delta: nat)
    requires x <= 17 * 25600 && tcode >= 16
    ensures delta == x / (48 * tcode)
  {
    QuotientBelow(x, tcode, 0x1_0000);
    TwoDivisions(x / tcode);
    NestedQuotient(x, tcode);
    delta := U16(x / tcode);
    delta := U16(delta / 3 / 16);
  }

  method ComputeTcode(raw: byte) returns (tcode: nat)
    ensures tcode == 16 * (HighNibble(raw) + 1)
  {
    NibbleBounds(raw);
    tcode := U16((HighNibble(raw) + 1) * 0x10);
  }

  /** Shifting leaves the lower digits zero, so setting bit 3 adds 8. */
  method ComputeDac(raw: byte) returns (dac: nat)
    ensures dac == raw * 16 + 8
  {
    dac := U16(raw * 16) + 0x0008;
  }

  method ParseOtp(otp: Otp) returns (r: Option<OtpCfg>)
    ensures r == if Check(otp).None? then None else Some(Parameters(Check(otp).value))
  {
    var check := CheckOtp(otp);
    if check.None? {
      return None;
    }
    var raw := check.value;
    var dac := ComputeDac(raw.dac);
    var tcode := ComputeTcode(raw.tcode);
    if tcode == 0 {
      return None;
    }
    var low := LowNibble(raw.tcode);
    NibbleBounds(raw.tcode);
    var fdt := ComputeFdtDelta((low + 2) * 0x6400, tcode);
    return Some(OtpCfg(tcode, fdt, dac, true));
  }

  /** The delta fits the one register byte it is written to exactly under this condition. */
  lemma FdtDeltaFits(raw: Raw)
    ensures var p := Parameters(raw);
            p.fdtDelta < 256 <==> 25 * (LowNibble(raw.tcode) + 2) < 12 * p.tcode
  {
    var p := Parameters(raw);
    QuotientBelow((LowNibble(raw.tcode) + 2) * 25600, 48 * p.tcode, 256);
  }

  /** A memory of zeros but for the copies of a calibration byte of 0x0f, of a DAC byte of 1, and the code. */
  function BeforeCode(): Otp {
    seq(MIN_LEN, i => if i == 0x16 || i == 0x19 then 0x0f else if i == 0x1a || i == 0x1f then 1 else 0)
  }

  function LargeDelta(): Otp {
    BeforeCode()[0x1e := Crc8(Covered(BeforeCode()))]
  }

  lemma LargeDeltaSum()
    ensures SumOk(LargeDelta())
  {
    SumOfZeros(LargeDelta()[..8]);
  }

  lemma LargeDeltaCode()
    ensures Crc8(Covered(LargeDelta())) == LargeDelta()[0x1e]
  {
    assert Covered(LargeDelta()) == Covered(BeforeCode());
  }

  lemma LargeDeltaVotes()
    ensures VoteTcode(LargeDelta()) == Some(0x0f) && VoteDac(LargeDelta()) == Some(1)
  {
  }

  /** So the condition is not always met: this memory is accepted and its delta does not fit. */
  lemma AcceptedDeltaCanOverflow()
    ensures Check(LargeDelta()) == Some(Raw(0x0f, 1)) && Parameters(Raw(0x0f, 1)).fdtDelta == 566
  {
    LargeDeltaSum();
    LargeDeltaCode();
    LargeDeltaVotes();
    AcceptedIf(LargeDelta(), 0x0f, 1);
    LargeDeltaValue();
  }

  lemma AcceptedIf(otp: Otp, tcode: byte, dac: byte)
    requires |otp| >= MIN_LEN && SumOk(otp) && Crc8(Covered(otp)) == otp[0x1e]
    requires VoteTcode(otp) == Some(tcode) && VoteDac(otp) == Some(dac)
    ensures Check(otp) == Some(Raw(tcode, dac))
  {
  }

  lemma LargeDeltaValue()
    ensures Parameters(Raw(0x0f, 1)).fdtDelta == 566
  {
  }

  lemma {:induction false} SumOfZeros(s: seq<byte>)
    requires forall i :: 0 <= i < |s| ==> s[i] == 0
    ensures SumOf(s) == 0
  {
    if s != [] {
      SumOfZeros(s[..|s| - 1]);
    }
  }

  lemma ParameterBounds(raw: Raw)
    ensures var p := Parameters(raw);
            16 <= p.tcode <= 256 && p.tcode % 16 == 0 && p.fdtDelta <= 566 && p.dac < 0x1000
  {
    var p := Parameters(raw);
    NibbleBounds(raw.tcode);
    QuotientBelow((LowNibble(raw.tcode) + 2) * 25600, 48 * p.tcode, 567);
  }
}
