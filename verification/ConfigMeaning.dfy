/** What patching the configuration blob does, byte by byte, and when it fails. */
module ConfigMeaning {
  import opened Common
  import opened OtpCheck
  import opened ConfigBlob

  // ---------------------------------------------------------------- the checksum

  /** The sum of the first `n` bytes, those at odd offsets 256 times. */
  function Weighted(s: Bytes, n: nat): nat
    requires n <= |s|
  {
    if n == 0 then 0 else Weighted(s, n - 1) + if n % 2 == 1 then s[n - 1] as int else 256 * s[n - 1] as int
  }

  lemma {:induction false} WordsAreWeighted(s: Bytes, n: nat)
    requires 2 * n <= |s|
    ensures WordSum(s, n) == Weighted(s, 2 * n)
  {
    if n > 0 {
      WordsAreWeighted(s, n - 1);
      assert Weighted(s, 2 * n - 1) == Weighted(s, 2 * n - 2) + s[2 * n - 2];
    }
  }

  /** A blob adds up if its bytes, low and high halves of words, and 0xa5a5 are 0 modulo 2^16. */
  lemma AddsUpMeans(s: Bytes)
    requires |s| == CFG_LEN
    ensures SumsToZero(s) <==> (0xa5a5 + Weighted(s, 0xe0)) % 0x1_0000 == 0
  {
    WordsAreWeighted(s, 0x70);
  }

  /** Of all blobs that agree with `s` before the checksum, recomputing yields the one that adds up. */
  lemma ChecksumIsUnique(s: Bytes, t: Bytes)
    requires |s| == |t| == CFG_LEN && t[..0xde] == s[..0xde]
    ensures t == WithChecksum(s) <==> (0xa5a5 + Weighted(t, 0xe0)) % 0x1_0000 == 0
  {
    var c := WithChecksum(s);
    ChecksumCloses(s);
    AddsUpMeans(c);
    AddsUpMeans(t);
    if SumsToZero(t) {
      WordSumOfPrefix(c, t, CHECKSUM_WORDS);
      SameResidue(0xa5a5 + WordSum(t, CHECKSUM_WORDS), Word(c, 0xde), Word(t, 0xde));
      SameWord(c, t, 0xde);
      assert c == c[..0xde] + [c[0xde], c[0xdf]] && t == t[..0xde] + [t[0xde], t[0xdf]];
    }
  }

  lemma SameResidue(x: nat, a: nat, b: nat)
    requires a < 0x1_0000 && b < 0x1_0000
    requires U16(x + a) == 0 && U16(x + b) == 0
    ensures a == b
  {
  }

  lemma SameWord(s: Bytes, t: Bytes, i: nat)
    requires i + 2 <= |s| && i + 2 <= |t| && Word(s, i) == Word(t, i)
    ensures s[i] == t[i] && s[i + 1] == t[i + 1]
  {
  }

  // ---------------------------------------------------------------- failing

  /** Entry `n` of the bytes from `off` on names the register, low byte first. */
  predicate Names(s: Bytes, off: nat, len: nat, reg: int, n: nat) {
    4 * n < len && off + 4 * n + 4 <= |s| && s[off + 4 * n] + 256 * s[off + 4 * n + 1] as int == reg
  }

  predicate Named(s: Bytes, off: nat, len: nat, reg: int) {
    exists n: nat :: n < 64 && Names(s, off, len, reg, n)
  }

  /** The last entry, be it incomplete, ends inside the blob. */
  predicate Whole(s: Bytes, off: nat, len: nat) {
    off + 4 * ((len + 3) / 4) <= |s|
  }

  lemma {:induction false} FindFrom(s: Bytes, off: nat, len: nat, k: nat, reg: int)
    requires off + len <= |s| && len < 256
    ensures var f := Find(s, off, len, 4 * k, reg);
            && (f.At? <==> exists n: nat :: k <= n < 64 && Names(s, off, len, reg, n))
            && (f == Absent <==> !f.At? && (4 * k >= len || Whole(s, off, len)))
    decreases if 4 * k < len then len - 4 * k else 0
  {
    if 4 * k < len && off + 4 * k + 4 <= |s| {
      if Word(s, off + 4 * k) == reg {
        assert k < 64 && Names(s, off, len, reg, k);
      } else {
        FindFrom(s, off, len, k + 1, reg);
      }
    }
  }

  /**
   When patching succeeds and how it fails: on the length of the blob and the number of the
   section, on a section that leaves the blob, on a register its section does not name, where
   an incomplete last entry that leaves the blob is malformed.
   */
  lemma PatchSucceedsIf(s: Bytes, reg: int, val: nat, section: nat, mode: WriteMode)
    ensures var error := Patched(s, reg, val, section, mode).error;
            if |s| != 224 || section >= 8 then error == Some(InvalidArgument)
            else
              var off, len := s[1 + 2 * section], s[2 + 2 * section];
              if off as int + len > 224 then error == Some(BadMessage)
              else if Named(s, off, len, reg) then error == None
              else error == Some(if Whole(s, off, len) then NotFound else BadMessage)
  {
    if |s| == 224 && section < 8 {
      var off, len := s[1 + 2 * section], s[2 + 2 * section];
      if off as int + len <= 224 {
        FindFrom(s, off, len, 0, reg);
        assert len == 0 ==> Whole(s, off, len);
      }
    }
  }

  /** The patches are made in order, and the first that fails leaves the earlier ones in place. */
  lemma ApplyStopsAtError(s: Bytes, p: OtpCfg)
    requires |s| == CFG_LEN
    ensures var o := Applied(s, p); var dac := Patched(s, 0x220, p.dac, 0, Both);
            && (dac.error.Some? ==> o == Outcome(s, dac.error))
            && (dac.error.None? && !p.hasTcodeDelta ==> o == dac)
            && (dac.error.None? && p.hasTcodeDelta && Patched(dac.cfg, 0x5c, p.tcode, 4, Both).error.Some? ==>
                  o == Outcome(dac.cfg, Patched(dac.cfg, 0x5c, p.tcode, 4, Both).error))
  {
    PatchFrame(s, 0x220, p.dac, 0, Both);
    var dac := Patched(s, 0x220, p.dac, 0, Both);
    PatchFrame(dac.cfg, 0x5c, p.tcode, 4, Both);
  }

  // ---------------------------------------------------------------- the template, patched

  /** The template with three parameters in place of its own, byte by byte. */
  predicate HoldsParameters(c: Bytes, t: Bytes, dac: nat, tcode: nat, delta: nat) {
    && |c| == 224 && |t| == 224
    && c[0x73] + 256 * c[0x74] as int == dac
    && c[0xc3] + 256 * c[0xc4] as int == tcode
    && c[0xa0] == delta % 256
    && (0xa5a5 + Weighted(c, 0xe0)) % 0x1_0000 == 0
    && forall i :: 0 <= i < 0xde && i != 0x73 && i != 0x74 && i != 0xc3 && i != 0xc4 && i != 0xa0 ==> c[i] == t[i]
  }

  lemma BytesMean(c: Bytes, t: Bytes, p: OtpCfg)
    requires HoldsBytes(c, t, p) && p.dac < 0x1_0000 && p.tcode < 0x1_0000
    ensures HoldsParameters(c, t, p.dac, p.tcode, p.fdtDelta)
  {
    AddsUpMeans(c);
    WordOfBytes(p.dac);
    WordOfBytes(p.tcode);
    ShiftedHighByte(p.fdtDelta);
  }

  lemma ParametersMean(raw: Raw)
    ensures var p := Parameters(raw);
            && p.dac == 16 * raw.dac + 8 && p.tcode == 16 * (raw.tcode / 16 + 1)
            && p.fdtDelta == (raw.tcode % 16 + 2) * 25600 / (768 * (raw.tcode / 16 + 1))
            && p.hasTcodeDelta
  {
    assert 48 * (16 * (raw.tcode / 16 + 1)) == 768 * (raw.tcode / 16 + 1);
  }

  lemma PatchedWith(t: Bytes, p: OtpCfg)
    requires HasLayout(t) && p.hasTcodeDelta && p.dac < 0x1_0000 && p.tcode < 0x1_0000
    ensures Applied(t, p).error.None? && HoldsParameters(Applied(t, p).cfg, t, p.dac, p.tcode, p.fdtDelta)
  {
    AppliedBytes(t, p);
    BytesMean(Applied(t, p).cfg, t, p);
  }

  /** So for every accepted memory the patched template is known byte by byte. */
  lemma PatchedTemplate(otp: Otp, raw: Raw)
    requires Check(otp) == Some(raw)
    ensures var p := Parameters(raw); var o := Applied(Template(), p);
            o.error.None? && HoldsParameters(o.cfg, Template(), p.dac, p.tcode, p.fdtDelta)
  {
    ParameterBounds(raw);
    TemplateHasLayout();
    PatchedWith(Template(), Parameters(raw));
  }
}
