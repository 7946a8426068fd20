/** What the checks of the one-time-programmable memory mean, in terms of numbers. */
module OtpMeaning {
  import opened Common
  import opened OtpCheck

  // ---------------------------------------------------------------- polynomials over the two-element field

  /** Binary digit `k` of a number. */
  function Digit(a: nat, k: nat): nat {
    if k == 0 then a % 2 else Digit(a / 2, k - 1)
  }

  /** Numbers stand for polynomials, their digits for the coefficients; the sum is exclusive or. */
  lemma {:induction false} XorAddsDigits(a: nat, b: nat, k: nat)
    ensures Digit(Xor(a, b), k) == (Digit(a, k) + Digit(b, k)) % 2
    decreases k
  {
    if k > 0 {
      XorAddsDigits(a / 2, b / 2, k - 1);
      XorHalves(a, b);
    }
  }

  lemma XorHalves(a: nat, b: nat)
    ensures Xor(a, b) / 2 == Xor(a / 2, b / 2) && Xor(a, b) % 2 == (a + b) % 2
  {
  }

  lemma XorDoubles(a: nat, b: nat)
    ensures Xor(2 * a, 2 * b) == 2 * Xor(a, b)
  {
    XorHalves(2 * a, 2 * b);
    assert 2 * a / 2 == a && 2 * b / 2 == b && (2 * a + 2 * b) % 2 == 0;
  }

  lemma {:induction false} XorZero(a: nat)
    ensures Xor(a, 0) == a && Xor(0, a) == a && Xor(a, a) == 0
  {
    if a > 0 {
      XorZero(a / 2);
    }
  }

  lemma SameBits(a: nat, b: nat, c: nat, ab: nat, bc: nat, l: nat, r: nat)
    requires ab % 2 == (a + b) % 2 && bc % 2 == (b + c) % 2
    requires l % 2 == (ab + c) % 2 && r % 2 == (a + bc) % 2 && l / 2 == r / 2
    ensures l == r
  {
  }

  lemma {:induction false} XorAssociates(a: nat, b: nat, c: nat)
    ensures Xor(Xor(a, b), c) == Xor(a, Xor(b, c))
    decreases a + b + c
  {
    if a + b + c > 0 {
      XorAssociates(a / 2, b / 2, c / 2);
      XorHalves(a, b);
      XorHalves(b, c);
      XorHalves(Xor(a, b), c);
      XorHalves(a, Xor(b, c));
      SameBits(a, b, c, Xor(a, b), Xor(b, c), Xor(Xor(a, b), c), Xor(a, Xor(b, c)));
    }
  }

  lemma XorSwaps(a: nat, b: nat, c: nat, d: nat)
    ensures Xor(Xor(a, b), Xor(c, d)) == Xor(Xor(a, c), Xor(b, d))
  {
    XorAssociates(a, b, Xor(c, d));
    XorAssociates(b, c, d);
    XorCommutes(b, c);
    XorAssociates(c, b, d);
    XorAssociates(a, c, Xor(b, d));
  }

  lemma {:induction false} XorOfShifted(a: nat, b: nat, k: nat)
    requires b < Pow2(k)
    ensures Xor(Shifted(a, k), b) == Shifted(a, k) + b
    decreases k
  {
    if k == 0 {
      XorZero(a);
    } else {
      XorOfShifted(a, b / 2, k - 1);
      XorHalves(Shifted(a, k), b);
    }
  }

  /** a times x^k. */
  function Shifted(a: nat, k: nat): nat {
    if k == 0 then a else 2 * Shifted(a, k - 1)
  }

  lemma ShiftedByte(a: nat)
    ensures Shifted(a, 8) == 256 * a && Pow2(8) == 256
  {
    assert Shifted(a, 1) == 2 * a && Shifted(a, 2) == 4 * a && Shifted(a, 3) == 8 * a;
    assert Shifted(a, 4) == 16 * a && Shifted(a, 5) == 32 * a && Shifted(a, 6) == 64 * a;
  }

  lemma {:induction false} XorAtLeast(a: nat, b: nat, k: nat)
    requires a < Pow2(k) <= b
    ensures Xor(a, b) >= Pow2(k)
  {
    if k == 0 {
      XorZero(b);
    } else {
      XorAtLeast(a / 2, b / 2, k - 1);
    }
  }

  function IfOdd(a: nat, p: nat): nat {
    if a % 2 == 1 then p else 0
  }

  /** The product, without carries. */
  function Times(a: nat, b: nat): nat {
    if a == 0 then 0 else Xor(IfOdd(a, b), 2 * Times(a / 2, b))
  }

  lemma TimesStep(a: nat, p: nat)
    ensures Times(a, p) == Xor(IfOdd(a, p), 2 * Times(a / 2, p))
  {
    XorZero(0);
  }

  lemma OddSum(a: nat, b: nat, x: nat)
    requires x % 2 == (a + b) % 2
    ensures x % 2 == 1 <==> (a % 2 == 1) != (b % 2 == 1)
  {
  }

  lemma OddPartsAdd(a: nat, b: nat, p: nat)
    ensures IfOdd(Xor(a, b), p) == Xor(IfOdd(a, p), IfOdd(b, p))
  {
    XorHalves(a, b);
    OddSum(a, b, Xor(a, b));
    XorZero(p);
  }

  lemma {:induction false} TimesDistributes(a: nat, b: nat, p: nat)
    ensures Times(Xor(a, b), p) == Xor(Times(a, p), Times(b, p))
    decreases a + b
  {
    if a + b == 0 {
      XorZero(0);
    } else {
      var s, t := Times(a / 2, p), Times(b / 2, p);
      TimesDistributes(a / 2, b / 2, p);
      XorHalves(a, b);
      TimesStep(a, p);
      TimesStep(b, p);
      TimesStep(Xor(a, b), p);
      OddPartsAdd(a, b, p);
      XorDoubles(s, t);
      XorSwaps(IfOdd(a, p), IfOdd(b, p), 2 * s, 2 * t);
    }
  }

  lemma TimesDoubles(a: nat, p: nat)
    ensures Times(2 * a, p) == 2 * Times(a, p)
  {
    XorZero(2 * Times(a, p));
  }

  // ---------------------------------------------------------------- division

  /** x^8 + x^2 + x + 1. */
  const POLY: nat := 0x107

  ghost predicate Multiple(a: nat) {
    exists q: nat :: Times(q, POLY) == a
  }

  lemma MultipleDoubles(a: nat)
    requires Multiple(a)
    ensures Multiple(2 * a)
  {
    var q: nat :| Times(q, POLY) == a;
    TimesDoubles(q, POLY);
    assert Times(2 * q, POLY) == 2 * a;
  }

  lemma MultiplesAdd(a: nat, b: nat)
    requires Multiple(a) && Multiple(b)
    ensures Multiple(Xor(a, b))
  {
    var q: nat :| Times(q, POLY) == a;
    var r: nat :| Times(r, POLY) == b;
    TimesDistributes(q, r, POLY);
    assert Times(Xor(q, r), POLY) == Xor(a, b);
  }

  lemma ZeroAndPoly()
    ensures Multiple(0) && Multiple(POLY)
  {
    assert Times(0, POLY) == 0;
    XorZero(POLY);
    assert Times(1, POLY) == POLY;
  }

  /** No multiple but zero is as small as a remainder. */
  lemma {:induction false} MultiplesAreLarge(q: nat)
    requires q > 0
    ensures Times(q, POLY) >= 256
  {
    if q == 1 {
      XorZero(POLY);
    } else {
      MultiplesAreLarge(q / 2);
      assert Pow2(9) == 512;
      XorAtLeast(IfOdd(q, POLY), 2 * Times(q / 2, POLY), 9);
    }
  }

  /** The string as a polynomial: the first byte has the highest coefficients. */
  function Number(data: seq<byte>): nat {
    if data == [] then 0 else 256 * Number(data[..|data| - 1]) + data[|data| - 1]
  }

  /** `r` is what is left of the string times x^8 when divided by x^8 + x^2 + x + 1. */
  ghost predicate IsRemainder(data: seq<byte>, r: nat) {
    r < 256 && Multiple(Xor(256 * Number(data), r))
  }

  lemma StepSubtractsPoly(c: byte)
    ensures 2 * c == Xor(BitStep(c), if c >= 128 then POLY else 0)
  {
    if c >= 128 {
      var low: nat := 2 * c - 256;
      assert Shifted(1, 8) == 256 by { ShiftedByte(1); }
      assert Pow2(8) == 256;
      XorBelow(low, 7, 8);
      XorOfShifted(1, 7, 8);
      XorOfShifted(1, low, 8);
      XorAssociates(low, 7, POLY);
      XorCommutes(7, POLY);
      XorAssociates(256, 7, 7);
      XorZero(7);
      XorZero(256);
      XorCommutes(low, 256);
    } else {
      XorZero(2 * c);
    }
  }

  lemma StepKeepsMultiple(m: nat, c: byte)
    requires Multiple(Xor(m, c))
    ensures Multiple(Xor(2 * m, BitStep(c)))
  {
    var p := if c >= 128 then POLY else 0;
    ZeroAndPoly();
    MultipleDoubles(Xor(m, c));
    XorDoubles(m, c);
    StepSubtractsPoly(c);
    MultiplesAdd(Xor(2 * m, 2 * c), p);
    XorAssociates(2 * m, 2 * c, p);
    XorAssociates(BitStep(c), p, p);
    XorZero(p);
    XorZero(BitStep(c));
  }

  lemma {:induction false} StepsKeepMultiple(m: nat, c: byte, n: nat)
    requires Multiple(Xor(m, c))
    ensures Multiple(Xor(Shifted(m, n), BitSteps(c, n)))
    decreases n
  {
    if n > 0 {
      StepsKeepMultiple(m, c, n - 1);
      StepKeepsMultiple(Shifted(m, n - 1), BitSteps(c, n - 1));
    }
  }

  lemma NextByte(n: nat, r: byte, d: byte)
    ensures Xor(256 * n + d, Xor(r, d)) == Xor(256 * n, r)
  {
    ShiftedByte(n);
    XorOfShifted(n, d, 8);
    XorSwaps(256 * n, d, r, d);
    XorZero(d);
    XorZero(Xor(256 * n, r));
  }

  lemma {:induction false} CodeIsRemainder(data: seq<byte>)
    ensures IsRemainder(data, 255 - Crc8(data))
    decreases |data|
  {
    if data == [] {
      ZeroAndPoly();
      XorZero(0);
    } else {
      var before, d := data[..|data| - 1], data[|data| - 1];
      CodeIsRemainder(before);
      var r := Remainder(before, 8);
      NextByte(Number(before), r, d);
      StepsKeepMultiple(Number(data), XorByte(r, d), 8);
      ShiftedByte(Number(data));
    }
  }

  lemma RemainderUnique(m: nat, r: nat, r': nat)
    requires r < 256 && r' < 256 && Multiple(Xor(m, r)) && Multiple(Xor(m, r'))
    ensures r == r'
  {
    MultiplesAdd(Xor(m, r), Xor(m, r'));
    XorSwaps(m, r, m, r');
    XorZero(m);
    XorZero(Xor(r, r'));
    ShiftedByte(1);
    XorBelow(r, r', 8);
    var q: nat :| Times(q, POLY) == Xor(r, r');
    if q > 0 {
      MultiplesAreLarge(q);
    }
    XorZero(r');
    XorCancels(r, r', r');
  }

  /** The code of a string is the complement of the remainder of its division by x^8 + x^2 + x + 1. */
  lemma CodeDividesByPoly(data: seq<byte>, r: nat)
    ensures IsRemainder(data, r) <==> r == 255 - Crc8(data)
  {
    CodeIsRemainder(data);
    if IsRemainder(data, r) {
      RemainderUnique(256 * Number(data), r, 255 - Crc8(data));
    }
  }

  lemma CodeOfOne()
    ensures Crc8([]) == 0xff && Crc8([1]) == 0xf8
  {
    assert BitSteps(1, 4) == 16;
    assert BitSteps(1, 7) == 128;
    assert BitSteps(1, 8) == BitStep(128) == Xor(0, 7);
    XorZero(7);
    XorZero(1);
    assert [1][..0] == [];
  }

  // ---------------------------------------------------------------- an accepted memory

  /** `v` is not zero, and at least two of three values are `v`. */
  predicate Majority(v: int, a: int, b: int, c: int) {
    v != 0 && ((a == v && b == v) || (a == v && c == v) || (b == v && c == v))
  }

  predicate AcceptedAs(otp: Otp, raw: Raw)
  {
    && |otp| >= 32
    && (otp[0] as int + otp[1] + otp[2] + otp[3] + otp[4] + otp[5] + otp[6] + otp[7]
        + otp[18] + otp[19] + otp[29]) % 256 == 0
    && Crc8(otp[0..17] + otp[18..20] + otp[28..30] + [otp[31]]) == otp[30]
    && Majority(raw.tcode, otp[22], 255 - otp[23], otp[25])
    && Majority(raw.dac, otp[31], 255 - otp[27], otp[26])
  }

  lemma SumStep(s: seq<byte>, k: nat)
    requires k < |s|
    ensures SumOf(s[..k + 1]) == SumOf(s[..k]) + s[k]
  {
    assert s[..k + 1][..k] == s[..k];
  }

  lemma SumOfEight(s: seq<byte>)
    requires |s| >= 8
    ensures SumOf(s[..8]) == s[0] as int + s[1] + s[2] + s[3] + s[4] + s[5] + s[6] + s[7]
  {
    SumStep(s, 0);
    SumStep(s, 1);
    SumStep(s, 2);
    SumStep(s, 3);
    SumStep(s, 4);
    SumStep(s, 5);
    SumStep(s, 6);
    SumStep(s, 7);
  }

  lemma SumMeans(otp: Otp)
    requires |otp| >= 32
    ensures SumOk(otp) <==>
              (otp[0] as int + otp[1] + otp[2] + otp[3] + otp[4] + otp[5] + otp[6] + otp[7]
               + otp[18] + otp[19] + otp[29]) % 256 == 0
  {
    SumOfEight(otp);
  }

  lemma CoveredMeans(otp: Otp)
    requires |otp| >= 32
    ensures Covered(otp) == otp[0..17] + otp[18..20] + otp[28..30] + [otp[31]]
  {
  }

  lemma VotesMean(otp: Otp, raw: Raw)
    requires |otp| >= 32
    ensures VoteTcode(otp) == Some(raw.tcode) <==> Majority(raw.tcode, otp[22], 255 - otp[23], otp[25])
    ensures VoteDac(otp) == Some(raw.dac) <==> Majority(raw.dac, otp[31], 255 - otp[27], otp[26])
  {
    VoteIsMajority(raw.tcode, otp[22], otp[23], otp[25]);
    VoteIsMajority(raw.dac, otp[31], otp[27], otp[26]);
    MajorityCounts(raw.tcode, otp[22], otp[23], otp[25]);
    MajorityCounts(raw.dac, otp[31], otp[27], otp[26]);
  }

  /** Acceptance byte by byte: the sum, the code of the covered bytes, and two majorities. */
  lemma AcceptedMeans(otp: Otp, raw: Raw)
    ensures Check(otp) == Some(raw) <==> AcceptedAs(otp, raw)
  {
    if |otp| >= 32 {
      SumMeans(otp);
      CoveredMeans(otp);
      VotesMean(otp, raw);
    }
  }

  lemma MajorityCounts(v: byte, a: byte, nb: byte, c: byte)
    ensures Majority(v, a, 255 - nb, c) <==> v != 0 && Copies(v, a, nb, c) >= 2
  {
  }

  lemma ParametersOfOne()
    ensures Parameters(Raw(0x0f, 1)) == OtpCfg(16, 566, 24, true)
    ensures Parameters(Raw(0x80, 0xff)) == OtpCfg(144, 7, 4088, true)
  {
  }
}
