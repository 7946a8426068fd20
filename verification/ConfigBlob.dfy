/** The sensor's configuration blob: sections of four-byte entries under one checksum. */
module ConfigBlob {
  import opened Common
  import opened OtpCheck

  type Bytes = seq<byte>

  const CFG_LEN: int := 0xE0
  const CHECKSUM_WORDS: int := 0x6F
  const CHECKSUM_OFF: int := 0xDE
  const CHECKSUM_SEED: int := 0xA5A5
  const SECTION_COUNT: int := 8
  const ENTRY_SIZE: int := 4
  const HEADER_LEN: int := 0x11

  const REG_TCODE: int := 0x5C
  const REG_FDT: int := 0x82
  const REG_DAC: int := 0x220
  const SECTION_DAC: int := 0
  const SECTION_FDT: int := 2
  const SECTION_TCODE: int := 4

  datatype Errno = InvalidArgument | BadMessage | NotFound

  datatype WriteMode = Both | Low | High

  function Word(s: Bytes, i: nat): nat
    requires i + 2 <= |s|
  {
    (s[i] as int) + 256 * (s[i + 1] as int)
  }

  function LowByte(x: nat): byte {
    x % 256
  }

  function HighByte(x: nat): byte {
    x / 256 % 256
  }

  lemma WordOfBytes(x: nat)
    requires x < 0x1_0000
    ensures (LowByte(x) as int) + 256 * (HighByte(x) as int) == x
  {
  }

  // ---------------------------------------------------------------- the checksum

  /** The sum of the first `n` little-endian words. */
  function WordSum(s: Bytes, n: nat): nat
    requires 2 * n <= |s|
  {
    if n == 0 then 0 else WordSum(s, n - 1) + Word(s, 2 * (n - 1))
  }

  /** Seed and all words, checksum included, add up to zero in 16 bits. */
  predicate SumsToZero(s: Bytes)
    requires |s| == CFG_LEN
  {
    U16(CHECKSUM_SEED + WordSum(s, CHECKSUM_WORDS + 1)) == 0
  }

  function ChecksumOf(s: Bytes): nat
    requires |s| == CFG_LEN
  {
    U16(-(CHECKSUM_SEED + WordSum(s, CHECKSUM_WORDS)))
  }

  function WithChecksum(s: Bytes): (r: Bytes)
    requires |s| == CFG_LEN
    ensures |r| == CFG_LEN
  {
    s[..CHECKSUM_OFF] + [LowByte(ChecksumOf(s)), HighByte(ChecksumOf(s))]
  }

  /** Conversion to a signed 16-bit integer. */
  function S16(x: int): int {
    (x + 0x8000) % 0x1_0000 - 0x8000
  }

  lemma S16Adds(x: int, y: int)
    ensures S16(S16(x) + S16(y)) == S16(x + y)
  {
  }

  lemma S16Negates(x: int)
    ensures U16(S16(-S16(x))) == U16(-x)
  {
  }

  method RecalcChecksum(cfg: array<byte>)
    requires cfg.Length == CFG_LEN
    modifies cfg
    ensures cfg[..] == WithChecksum(old(cfg[..]))
  {
    ghost var s := cfg[..];
    var sum := S16(CHECKSUM_SEED);
    for i := 0 to CHECKSUM_WORDS
      invariant sum == S16(CHECKSUM_SEED + WordSum(s, i))
      invariant cfg[..] == s
    {
      var w := S16((cfg[2 * i] as int) + 256 * (cfg[2 * i + 1] as int));
      S16Adds(CHECKSUM_SEED + WordSum(s, i), Word(s, 2 * i));
      sum := S16(sum + w);
    }
    S16Negates(CHECKSUM_SEED + WordSum(s, CHECKSUM_WORDS));
    sum := S16(-sum);
    cfg[CHECKSUM_OFF], cfg[CHECKSUM_OFF + 1] := LowByte(U16(sum)), HighByte(U16(sum));
    assert cfg[..CHECKSUM_OFF] == s[..CHECKSUM_OFF];
  }

  lemma {:induction false} WordSumOfPrefix(s: Bytes, t: Bytes, n: nat)
    requires 2 * n <= |s| && 2 * n <= |t| && s[..2 * n] == t[..2 * n]
    ensures WordSum(s, n) == WordSum(t, n)
  {
    if n > 0 {
      assert s[..2 * (n - 1)] == s[..2 * n][..2 * (n - 1)] && t[..2 * (n - 1)] == t[..2 * n][..2 * (n - 1)];
      assert s[2 * n - 2] == s[..2 * n][2 * n - 2] && s[2 * n - 1] == s[..2 * n][2 * n - 1];
      assert t[2 * n - 2] == t[..2 * n][2 * n - 2] && t[2 * n - 1] == t[..2 * n][2 * n - 1];
      WordSumOfPrefix(s, t, n - 1);
    }
  }

  lemma NegationCancels(x: int)
    ensures U16(x + U16(-x)) == 0
  {
  }

  /** Recomputing the checksum makes any blob add up, and touches nothing else. */
  lemma ChecksumCloses(s: Bytes)
    requires |s| == CFG_LEN
    ensures SumsToZero(WithChecksum(s))
    ensures WithChecksum(s)[..CHECKSUM_OFF] == s[..CHECKSUM_OFF]
  {
    var t := WithChecksum(s);
    assert t[..CHECKSUM_OFF] == s[..CHECKSUM_OFF];
    WordSumOfPrefix(s, t, CHECKSUM_WORDS);
    WordOfBytes(ChecksumOf(s));
    NegationCancels(CHECKSUM_SEED + WordSum(s, CHECKSUM_WORDS));
  }

  // ---------------------------------------------------------------- finding an entry

  datatype Search = At(off: nat) | Absent | Truncated

  /** The entries of a section from byte `step` on, until one names `reg`. */
  function Find(s: Bytes, off: nat, len: nat, step: nat, reg: int): Search
    decreases if step < len then len - step else 0
  {
    if step >= len then Absent
    else if off + step + ENTRY_SIZE > |s| then Truncated
    else if Word(s, off + step) == reg then At(off + step)
    else Find(s, off, len, step + ENTRY_SIZE, reg)
  }

  /** An entry found is the first of its section that names the register. */
  lemma {:induction false} FindIsFirst(s: Bytes, off: nat, len: nat, k: nat, reg: int, at: nat)
    ensures Find(s, off, len, 4 * k, reg) == At(at) <==>
              exists n: nat :: k <= n && EntryIs(s, off, len, n, reg) && at == off + 4 * n
                && forall j: nat :: k <= j < n ==> !EntryIs(s, off, len, j, reg)
    decreases if 4 * k < len then len - 4 * k else 0
  {
    if 4 * k >= len || off + 4 * k + 4 > |s| {
      assert forall n: nat :: k <= n ==> !EntryIs(s, off, len, n, reg);
    } else if EntryIs(s, off, len, k, reg) {
      assert at == off + 4 * k ==> at == off + 4 * k && forall j: nat :: k <= j < k ==> !EntryIs(s, off, len, j, reg);
    } else {
      FindIsFirst(s, off, len, k + 1, reg, at);
    }
  }

  /** Entry number `n` lies in the section and names the register. */
  predicate EntryIs(s: Bytes, off: nat, len: nat, n: nat, reg: int) {
    4 * n < len && off + 4 * n + 4 <= |s| && Word(s, off + 4 * n) == reg
  }

  /** The eight-bit counter of the search never wraps exactly for sections of at most 252 bytes. */
  lemma CounterNeverWraps(len: byte)
    ensures (forall step: byte :: step % 4 == 0 && step < len ==> NextStep(step) > step) <==> len <= 252
  {
    if len > 252 {
      var last: byte := 252;
      assert last % 4 == 0 && last < len && NextStep(last) == 0;
    }
  }

  function NextStep(step: byte): byte {
    (step + ENTRY_SIZE) % 256
  }

  // ---------------------------------------------------------------- patching a register

  function Written(s: Bytes, at: nat, val: nat, mode: WriteMode): (r: Bytes)
    requires at + ENTRY_SIZE <= |s|
    ensures |r| == |s|
  {
    match mode
    case Both => s[at + 2 := LowByte(val)][at + 3 := HighByte(val)]
    case Low => s[at + 2 := LowByte(val)]
    case High => s[at + 3 := HighByte(val)]
  }

  /** The blob after a call and its error, if any. */
  datatype Outcome = Outcome(cfg: Bytes, error: Option<Errno>)

  function Patched(s: Bytes, reg: int, val: nat, section: nat, mode: WriteMode): Outcome {
    if |s| != CFG_LEN || section >= SECTION_COUNT then Outcome(s, Some(InvalidArgument))
    else
      var off, len := s[1 + 2 * section], s[2 + 2 * section];
      if (off as int) + (len as int) > |s| then Outcome(s, Some(BadMessage))
      else
        match Find(s, off, len, 0, reg)
        case Absent => Outcome(s, Some(NotFound))
        case Truncated => Outcome(s, Some(BadMessage))
        case At(at) =>
          FindInBounds(s, off, len, 0, reg);
          Outcome(WithChecksum(Written(s, at, val, mode)), None)
  }

  lemma {:induction false} FindInBounds(s: Bytes, off: nat, len: nat, step: nat, reg: int)
    ensures var f := Find(s, off, len, step, reg);
            f.At? ==> off <= f.off && f.off + 4 <= |s| && Word(s, f.off) == reg
    decreases if step < len then len - step else 0
  {
    if step < len && off + step + 4 <= |s| && Word(s, off + step) != reg {
      FindInBounds(s, off, len, step + 4, reg);
    }
  }

  method Store(cfg: array<byte>, at: nat, val: nat, mode: WriteMode)
    requires cfg.Length == CFG_LEN && at + ENTRY_SIZE <= cfg.Length
    modifies cfg
    ensures cfg[..] == Written(old(cfg[..]), at, val, mode)
  {
    if mode == Both || mode == Low {
      cfg[at + 2] := LowByte(val);
    }
    if mode == Both || mode == High {
      cfg[at + 3] := HighByte(val);
    }
  }

  /** The search with its eight-bit counter: the bound on the section keeps it from wrapping. */
  method FindEntry(cfg: array<byte>, off: byte, len: byte, reg: int) returns (r: Search)
    requires cfg.Length == CFG_LEN && (off as int) + (len as int) <= cfg.Length
    ensures r == Find(cfg[..], off, len, 0, reg)
  {
    var step: byte := 0;
    while step < len
      invariant Find(cfg[..], off, len, 0, reg) == Find(cfg[..], off, len, step, reg)
      decreases 256 - step
    {
      var at := (off as int) + (step as int);
      if at + ENTRY_SIZE > cfg.Length {
        return Truncated;
      }
      if Word(cfg[..], at) == reg {
        return At(at);
      }
      step := NextStep(step);
    }
    return Absent;
  }

  method PatchReg(cfg: array<byte>, reg: int, val: nat, section: nat, mode: WriteMode)
    returns (error: Option<Errno>)
    modifies cfg
    ensures Outcome(cfg[..], error) == Patched(old(cfg[..]), reg, val, section, mode)
  {
    if cfg.Length != CFG_LEN || section >= SECTION_COUNT {
      return Some(InvalidArgument);
    }
    var off, len := cfg[1 + 2 * section], cfg[2 + 2 * section];
    if (off as int) + (len as int) > cfg.Length {
      return Some(BadMessage);
    }
    FindInBounds(cfg[..], off, len, 0, reg);
    var f := FindEntry(cfg, off, len, reg);
    match f {
      case Absent => return Some(NotFound);
      case Truncated => return Some(BadMessage);
      case At(at) =>
        Store(cfg, at, val, mode);
        RecalcChecksum(cfg);
        return None;
    }
  }

  /** A failed call leaves the blob alone; a good one leaves it adding up, with two bytes of one entry changed at most. */
  lemma PatchFrame(s: Bytes, reg: int, val: nat, section: nat, mode: WriteMode)
    ensures var o := Patched(s, reg, val, section, mode);
            && |o.cfg| == |s|
            && (o.error.Some? ==> o.cfg == s)
            && (o.error.None? ==> |s| == CFG_LEN && SumsToZero(o.cfg))
  {
    var o := Patched(s, reg, val, section, mode);
    if o.error.None? {
      var f := Find(s, s[1 + 2 * section], s[2 + 2 * section], 0, reg);
      FindInBounds(s, s[1 + 2 * section], s[2 + 2 * section], 0, reg);
      ChecksumCloses(Written(s, f.off, val, mode));
    }
  }

  // ---------------------------------------------------------------- registers of a blob

  /** A section of whole entries between the section table and the checksum. */
  predicate SectionOk(s: Bytes, section: nat) {
    |s| == CFG_LEN && section < SECTION_COUNT &&
    var off, len := SectionOff(s, section), SectionLen(s, section);
    HEADER_LEN <= off && off + len <= CHECKSUM_OFF && len % ENTRY_SIZE == 0
  }

  function SectionOff(s: Bytes, section: nat): nat
    requires |s| == CFG_LEN && section < SECTION_COUNT
  {
    s[1 + 2 * section]
  }

  function SectionLen(s: Bytes, section: nat): nat
    requires |s| == CFG_LEN && section < SECTION_COUNT
  {
    s[2 + 2 * section]
  }

  /** The same section, or two that share no byte. */
  predicate Apart(s: Bytes, a: nat, b: nat)
    requires SectionOk(s, a) && SectionOk(s, b)
  {
    a == b
    || SectionOff(s, a) + SectionLen(s, a) <= SectionOff(s, b)
    || SectionOff(s, b) + SectionLen(s, b) <= SectionOff(s, a)
  }

  function FindReg(s: Bytes, section: nat, reg: int): Search
    requires |s| == CFG_LEN && section < SECTION_COUNT
  {
    Find(s, SectionOff(s, section), SectionLen(s, section), 0, reg)
  }

  /** The value a blob holds for a register. */
  function Lookup(s: Bytes, section: nat, reg: int): Option<nat>
    requires |s| == CFG_LEN && section < SECTION_COUNT
  {
    FindInBounds(s, SectionOff(s, section), SectionLen(s, section), 0, reg);
    match FindReg(s, section, reg)
    case At(at) => Some(Word(s, at + 2))
    case _ => None
  }

  lemma {:induction false} FindInSection(s: Bytes, off: nat, len: nat, step: nat, reg: int)
    requires off + len <= |s| && len % 4 == 0 && step % 4 == 0
    ensures var f := Find(s, off, len, step, reg);
            f.At? ==> off <= f.off && f.off + 4 <= off + len && (f.off - off) % 4 == 0
    decreases if step < len then len - step else 0
  {
    if step < len {
      FindInSection(s, off, len, step + 4, reg);
    }
  }

  /** A search looks only at the first halves of entries. */
  lemma {:induction false} FindAgrees(s: Bytes, t: Bytes, off: nat, len: nat, step: nat, reg: int)
    requires |s| == |t| && off + len <= |s| && step % 4 == 0
    requires forall i :: off <= i < off + len && (i - off) % 4 < 2 ==> s[i] == t[i]
    requires len % 4 == 0
    ensures Find(s, off, len, step, reg) == Find(t, off, len, step, reg)
    decreases if step < len then len - step else 0
  {
    if step < len {
      assert (off + step - off) % 4 < 2 && (off + step + 1 - off) % 4 < 2;
      FindAgrees(s, t, off, len, step + 4, reg);
    }
  }

  /** Byte `i` after a value was written at the entry `at`. */
  function ByteAfter(s: Bytes, at: nat, val: nat, mode: WriteMode, i: nat): byte
    requires i < |s|
  {
    if i == at + 2 && mode != High then LowByte(val)
    else if i == at + 3 && mode != Low then HighByte(val)
    else s[i]
  }

  /** Patching a register that exists changes the chosen half, or both halves, of its value and the checksum. */
  lemma PatchWrites(s: Bytes, reg: int, val: nat, section: nat, mode: WriteMode)
    requires SectionOk(s, section) && FindReg(s, section, reg).At?
    ensures var at := FindReg(s, section, reg).off; var o := Patched(s, reg, val, section, mode);
            && SectionOff(s, section) <= at && at + 4 <= SectionOff(s, section) + SectionLen(s, section)
            && (at - SectionOff(s, section)) % 4 == 0
            && o.error.None? && |o.cfg| == CFG_LEN && SumsToZero(o.cfg)
            && forall i :: 0 <= i < CHECKSUM_OFF ==> o.cfg[i] == ByteAfter(s, at, val, mode, i)
  {
    var at := FindReg(s, section, reg).off;
    FindInBounds(s, SectionOff(s, section), SectionLen(s, section), 0, reg);
    FindInSection(s, SectionOff(s, section), SectionLen(s, section), 0, reg);
    ChecksumCloses(Written(s, at, val, mode));
  }

  /** A patch leaves the section table alone. */
  lemma PatchKeepsTable(s: Bytes, reg: int, val: nat, section: nat, mode: WriteMode, other: nat)
    requires SectionOk(s, section) && SectionOk(s, other) && FindReg(s, section, reg).At?
    ensures var c := Patched(s, reg, val, section, mode).cfg;
            && SectionOk(c, other)
            && SectionOff(c, other) == SectionOff(s, other) && SectionLen(c, other) == SectionLen(s, other)
  {
    PatchWrites(s, reg, val, section, mode);
  }

  /** An entry's value lies in the second half of that entry, and in no other entry. */
  lemma ValueIsNoName(off: nat, len: nat, at: nat, off': nat, len': nat, i: nat)
    requires off <= at && at + 4 <= off + len && (at - off) % 4 == 0
    requires off' <= i < off' + len' && (i - off') % 4 < 2
    requires (off == off' && len == len') || off + len <= off' || off' + len' <= off
    ensures i != at + 2 && i != at + 3
  {
  }

  /** Nor does it change a register's number in the same or another section. */
  lemma PatchKeepsNames(s: Bytes, reg: int, val: nat, section: nat, mode: WriteMode, other: nat, i: nat)
    requires SectionOk(s, section) && SectionOk(s, other) && Apart(s, section, other)
    requires FindReg(s, section, reg).At?
    requires SectionOff(s, other) <= i < SectionOff(s, other) + SectionLen(s, other)
    requires (i - SectionOff(s, other)) % 4 < 2
    ensures var c := Patched(s, reg, val, section, mode).cfg; |c| == CFG_LEN && c[i] == s[i]
  {
    PatchWrites(s, reg, val, section, mode);
    ValueIsNoName(SectionOff(s, section), SectionLen(s, section), FindReg(s, section, reg).off,
                  SectionOff(s, other), SectionLen(s, other), i);
  }

  /** After a patch, every register of that section and of those apart from it is found where it was. */
  lemma PatchKeepsEntries(s: Bytes, reg: int, val: nat, section: nat, mode: WriteMode, other: nat, reg': int)
    requires SectionOk(s, section) && SectionOk(s, other) && Apart(s, section, other)
    requires FindReg(s, section, reg).At?
    ensures var c := Patched(s, reg, val, section, mode).cfg;
            && SectionOk(c, other)
            && SectionOff(c, other) == SectionOff(s, other) && SectionLen(c, other) == SectionLen(s, other)
            && FindReg(c, other, reg') == FindReg(s, other, reg')
  {
    PatchKeepsTable(s, reg, val, section, mode, other);
    var c := Patched(s, reg, val, section, mode).cfg;
    var off, len := SectionOff(s, other), SectionLen(s, other);
    forall i | off <= i < off + len && (i - off) % 4 < 2
      ensures c[i] == s[i]
    {
      PatchKeepsNames(s, reg, val, section, mode, other, i);
    }
    FindAgrees(c, s, off, len, 0, reg');
  }

  /** The patched register reads back the value; no other register, here or apart, changes. */
  lemma PatchReadsBack(s: Bytes, reg: int, val: nat, section: nat, other: nat, reg': int)
    requires SectionOk(s, section) && SectionOk(s, other) && Apart(s, section, other)
    requires FindReg(s, section, reg).At? && val < 0x1_0000
    ensures var c := Patched(s, reg, val, section, Both).cfg;
            && |c| == CFG_LEN
            && Lookup(c, section, reg) == Some(val)
            && ((section, reg) != (other, reg') ==> Lookup(c, other, reg') == Lookup(s, other, reg'))
  {
    PatchWrites(s, reg, val, section, Both);
    PatchKeepsEntries(s, reg, val, section, Both, section, reg);
    PatchKeepsEntries(s, reg, val, section, Both, other, reg');
    WordOfBytes(val);
    FindInBounds(s, SectionOff(s, other), SectionLen(s, other), 0, reg');
    FindInSection(s, SectionOff(s, other), SectionLen(s, other), 0, reg');
    FindInBounds(s, SectionOff(s, section), SectionLen(s, section), 0, reg);
  }

  // ---------------------------------------------------------------- applying the parameters

  function Applied(s: Bytes, otp: OtpCfg): Outcome {
    if |s| != CFG_LEN then Outcome(s, Some(InvalidArgument))
    else
      var dac := Patched(s, REG_DAC, otp.dac, SECTION_DAC, Both);
      if dac.error.Some? || !otp.hasTcodeDelta then dac
      else
        var tcode := Patched(dac.cfg, REG_TCODE, otp.tcode, SECTION_TCODE, Both);
        if tcode.error.Some? then tcode
        else Patched(tcode.cfg, REG_FDT, U16(otp.fdtDelta * 256), SECTION_FDT, High)
  }

  method ApplyOtpPatch(cfg: array<byte>, otp: OtpCfg) returns (error: Option<Errno>)
    modifies cfg
    ensures Outcome(cfg[..], error) == Applied(old(cfg[..]), otp)
  {
    if cfg.Length != CFG_LEN {
      return Some(InvalidArgument);
    }
    error := PatchReg(cfg, REG_DAC, otp.dac, SECTION_DAC, Both);
    if error.Some? {
      return error;
    }
    if otp.hasTcodeDelta {
      error := PatchReg(cfg, REG_TCODE, otp.tcode, SECTION_TCODE, Both);
      if error.Some? {
        return error;
      }
      error := PatchReg(cfg, REG_FDT, U16(otp.fdtDelta * 256), SECTION_FDT, High);
    }
  }

  // ---------------------------------------------------------------- the template

  function TemplateRow(row: nat): (r: Bytes)
    ensures |r| == 16
  {
    if row == 0 then [0x30, 0x11, 0x64, 0x75, 0x00, 0x75, 0x2c, 0xa1, 0x1c, 0xbd, 0x18, 0xd5, 0x00, 0xd5, 0x00, 0xd5]
    else if row == 1 then [0x00, 0xba, 0x00, 0x00, 0x80, 0xca, 0x00, 0x06, 0x00, 0x84, 0x00, 0xbe, 0xb2, 0x86, 0x00, 0xc5]
    else if row == 2 then [0xb9, 0x88, 0x00, 0xb5, 0xad, 0x8a, 0x00, 0x9d, 0x95, 0x8c, 0x00, 0x00, 0xbe, 0x8e, 0x00, 0x00]
    else if row == 3 then [0xc5, 0x90, 0x00, 0x00, 0xb5, 0x92, 0x00, 0x00, 0x9d, 0x94, 0x00, 0x00, 0xaf, 0x96, 0x00, 0x00]
    else if row == 4 then [0xbf, 0x98, 0x00, 0x00, 0xb6, 0x9a, 0x00, 0x00, 0xa7, 0xd2, 0x00, 0x00, 0x00, 0xd4, 0x00, 0x00]
    else if row == 5 then [0x00, 0xd6, 0x00, 0x00, 0x00, 0xd8, 0x00, 0x00, 0x00, 0x12, 0x00, 0x03, 0x04, 0xd0, 0x00, 0x00]
    else if row == 6 then [0x00, 0x70, 0x00, 0x00, 0x00, 0x72, 0x00, 0x78, 0x56, 0x74, 0x00, 0x34, 0x12, 0x20, 0x00, 0x10]
    else if row == 7 then [0x40, 0x20, 0x02, 0x08, 0x10, 0x2a, 0x01, 0x82, 0x03, 0x22, 0x00, 0x01, 0x20, 0x24, 0x00, 0x14]
    else if row == 8 then [0x00, 0x80, 0x00, 0x01, 0x04, 0x5c, 0x00, 0x00, 0x01, 0x56, 0x00, 0x0c, 0x24, 0x58, 0x00, 0x05]
    else if row == 9 then [0x00, 0x32, 0x00, 0x08, 0x02, 0x66, 0x00, 0x00, 0x02, 0x7c, 0x00, 0x00, 0x38, 0x82, 0x00, 0x80]
    else if row == 10 then [0x15, 0x2a, 0x01, 0x08, 0x00, 0x5c, 0x00, 0x80, 0x00, 0x54, 0x00, 0x00, 0x01, 0x62, 0x00, 0x38]
    else if row == 11 then [0x04, 0x64, 0x00, 0x10, 0x00, 0x66, 0x00, 0x00, 0x02, 0x7c, 0x00, 0x01, 0x38, 0x2a, 0x01, 0x08]
    else if row == 12 then [0x00, 0x5c, 0x00, 0x80, 0x00, 0x52, 0x00, 0x08, 0x00, 0x54, 0x00, 0x00, 0x01, 0x66, 0x00, 0x00]
    else [0x02, 0x7c, 0x00, 0x01, 0x38, 0x00, 0x00, 0x00, 0x00, 0x00, 0x00, 0x00, 0x00, 0x00, 0x00, 0x00]
  }

  function Template(): (s: Bytes)
    ensures |s| == CFG_LEN
    ensures forall i :: 0 <= i < CFG_LEN ==> s[i] == TemplateRow(i / 16)[i % 16]
  {
    seq(CFG_LEN, i requires 0 <= i < CFG_LEN => TemplateRow(i / 16)[i % 16])
  }

  lemma TemplateSections()
    ensures var t := Template();
            && SectionOff(t, SECTION_DAC) == 0x11 && SectionLen(t, SECTION_DAC) == 0x64
            && SectionOff(t, SECTION_FDT) == 0x75 && SectionLen(t, SECTION_FDT) == 0x2c
            && SectionOff(t, SECTION_TCODE) == 0xbd && SectionLen(t, SECTION_TCODE) == 0x18
  {
    assert TemplateRow(0)[1] == 0x11 && TemplateRow(0)[2] == 0x64;
    assert TemplateRow(0)[5] == 0x75 && TemplateRow(0)[6] == 0x2c;
    assert TemplateRow(0)[9] == 0xbd && TemplateRow(0)[10] == 0x18;
  }

  /** Entry `n` of a section is the one found if it names the register and no earlier one does. */
  lemma FoundAt(s: Bytes, section: nat, n: nat, reg: int)
    requires SectionOk(s, section) && 4 * n < SectionLen(s, section)
    requires Word(s, SectionOff(s, section) + 4 * n) == reg
    requires forall j :: 0 <= j < n ==> Word(s, SectionOff(s, section) + 4 * j) != reg
    ensures FindReg(s, section, reg) == At(SectionOff(s, section) + 4 * n)
  {
    var off, len := SectionOff(s, section), SectionLen(s, section);
    assert EntryIs(s, off, len, n, reg);
    forall j: nat | j < n
      ensures !EntryIs(s, off, len, j, reg)
    {
    }
    FindIsFirst(s, off, len, 0, reg, off + 4 * n);
  }

  /** No register before the one for the DAC has a number above 255. */
  lemma SmallRegisters(row: nat, k: nat)
    requires 1 <= row <= 6 && k < 4
    ensures TemplateRow(row)[4 * k + 2] == 0
  {
  }

  lemma RowOf(row: nat, col: nat)
    requires row < 14 && col < 16
    ensures Template()[16 * row + col] == TemplateRow(row)[col]
  {
    assert (16 * row + col) / 16 == row && (16 * row + col) % 16 == col;
  }

  lemma NotDac(row: nat, k: nat)
    requires 1 <= row <= 6 && k < 4
    ensures Word(Template(), 16 * row + 4 * k + 1) != REG_DAC
  {
    SmallRegisters(row, k);
    RowOf(row, 4 * k + 2);
  }

  lemma NotFdtInRow(row: nat, k: nat)
    requires 7 <= row <= 9 && k < 4 && (row == 9 ==> k < 3)
    ensures TemplateRow(row)[4 * k + 1] != REG_FDT
  {
  }

  lemma NotFdt(row: nat, k: nat)
    requires 7 <= row <= 9 && k < 4 && (row == 9 ==> k < 3)
    ensures Word(Template(), 16 * row + 4 * k + 1) != REG_FDT
  {
    NotFdtInRow(row, k);
    RowOf(row, 4 * k + 1);
    LowByteDecides(Template(), 16 * row + 4 * k + 1, REG_FDT);
  }

  lemma LowByteDecides(s: Bytes, i: nat, v: nat)
    requires i + 2 <= |s| && v < 256 && s[i] != v
    ensures Word(s, i) != v
  {
  }

  lemma TemplateWords()
    ensures Word(Template(), 0x71) == REG_DAC && Word(Template(), 0x9d) == REG_FDT
    ensures Word(Template(), 0xc1) == REG_TCODE && Word(Template(), 0xbd) == 0x12a
    ensures Template()[0x9f] == 0x80
  {
    assert TemplateRow(7)[1] == 0x20 && TemplateRow(7)[2] == 0x02;
    assert TemplateRow(9)[13] == 0x82 && TemplateRow(9)[14] == 0 && TemplateRow(9)[15] == 0x80;
    assert TemplateRow(12)[1] == 0x5c && TemplateRow(12)[2] == 0;
    assert TemplateRow(11)[13] == 0x2a && TemplateRow(11)[14] == 1;
  }

  /** The bytes of the template that the parameters replace. */
  predicate IsPatched(i: int) {
    i == 0x73 || i == 0x74 || i == 0xc3 || i == 0xc4 || i == 0xa0
  }

  /** The sections and registers that patching looks for are where the template has them. */
  predicate HasLayout(s: Bytes) {
    && SectionOk(s, SECTION_DAC) && SectionOk(s, SECTION_FDT) && SectionOk(s, SECTION_TCODE)
    && Apart(s, SECTION_DAC, SECTION_FDT) && Apart(s, SECTION_DAC, SECTION_TCODE)
    && Apart(s, SECTION_TCODE, SECTION_FDT)
    && FindReg(s, SECTION_DAC, REG_DAC) == At(0x71)
    && FindReg(s, SECTION_TCODE, REG_TCODE) == At(0xc1)
    && FindReg(s, SECTION_FDT, REG_FDT) == At(0x9d)
  }

  /** Enough about a blob's bytes to know its layout. */
  lemma LayoutFromWords(s: Bytes)
    requires |s| == CFG_LEN
    requires SectionOff(s, SECTION_DAC) == 0x11 && SectionLen(s, SECTION_DAC) == 0x64
    requires SectionOff(s, SECTION_FDT) == 0x75 && SectionLen(s, SECTION_FDT) == 0x2c
    requires SectionOff(s, SECTION_TCODE) == 0xbd && SectionLen(s, SECTION_TCODE) == 0x18
    requires Word(s, 0x71) == REG_DAC && forall j :: 0 <= j < 24 ==> Word(s, 0x11 + 4 * j) != REG_DAC
    requires Word(s, 0x9d) == REG_FDT && forall j :: 0 <= j < 10 ==> Word(s, 0x75 + 4 * j) != REG_FDT
    requires Word(s, 0xc1) == REG_TCODE && Word(s, 0xbd) != REG_TCODE
    ensures HasLayout(s)
  {
    FoundAt(s, SECTION_DAC, 24, REG_DAC);
    FoundAt(s, SECTION_FDT, 10, REG_FDT);
    FoundAt(s, SECTION_TCODE, 1, REG_TCODE);
  }

  lemma EarlierDacEntries(j: nat)
    requires j < 24
    ensures Word(Template(), 0x11 + 4 * j) != REG_DAC
  {
    assert 0x11 + 4 * j == 16 * (j / 4 + 1) + 4 * (j % 4) + 1;
    NotDac(j / 4 + 1, j % 4);
  }

  lemma EarlierFdtEntries(j: nat)
    requires j < 10
    ensures Word(Template(), 0x75 + 4 * j) != REG_FDT
  {
    assert 0x75 + 4 * j == 16 * ((j + 1) / 4 + 7) + 4 * ((j + 1) % 4) + 1;
    NotFdt((j + 1) / 4 + 7, (j + 1) % 4);
  }

  lemma TemplateHasLayout()
    ensures HasLayout(Template()) && Template()[0x9f] == 0x80
  {
    TemplateSections();
    TemplateWords();
    forall j | 0 <= j < 24 ensures Word(Template(), 0x11 + 4 * j) != REG_DAC { EarlierDacEntries(j); }
    forall j | 0 <= j < 10 ensures Word(Template(), 0x75 + 4 * j) != REG_FDT { EarlierFdtEntries(j); }
    LayoutFromWords(Template());
  }

  lemma PatchKeepsLayout(s: Bytes, reg: int, val: nat, section: nat, mode: WriteMode)
    requires HasLayout(s)
    requires (section, reg) in {(SECTION_DAC, REG_DAC), (SECTION_TCODE, REG_TCODE), (SECTION_FDT, REG_FDT)}
    ensures HasLayout(Patched(s, reg, val, section, mode).cfg)
  {
    PatchKeepsEntries(s, reg, val, section, mode, SECTION_DAC, REG_DAC);
    PatchKeepsEntries(s, reg, val, section, mode, SECTION_TCODE, REG_TCODE);
    PatchKeepsEntries(s, reg, val, section, mode, SECTION_FDT, REG_FDT);
  }

  lemma ShiftedHighByte(x: nat)
    ensures HighByte(U16(x * 256)) == x % 256
  {
  }

  /** A blob that holds the bytes of the parameters and otherwise equals `s`, up to its checksum. */
  predicate HoldsBytes(c: Bytes, s: Bytes, p: OtpCfg) {
    && |s| == CFG_LEN && HasLayout(c) && SumsToZero(c)
    && c[0x73] == LowByte(p.dac) && c[0x74] == HighByte(p.dac)
    && c[0xc3] == LowByte(p.tcode) && c[0xc4] == HighByte(p.tcode)
    && c[0xa0] == HighByte(U16(p.fdtDelta * 256))
    && forall i :: 0 <= i < CHECKSUM_OFF && !IsPatched(i) ==> c[i] == s[i]
  }

  /** The first two patches. */
  lemma FirstPatches(s: Bytes, p: OtpCfg)
    requires HasLayout(s)
    ensures var o1 := Patched(s, REG_DAC, p.dac, SECTION_DAC, Both);
            var o2 := Patched(o1.cfg, REG_TCODE, p.tcode, SECTION_TCODE, Both); var c := o2.cfg;
            && o1.error.None? && o2.error.None? && HasLayout(c)
            && c[0x73] == LowByte(p.dac) && c[0x74] == HighByte(p.dac)
            && c[0xc3] == LowByte(p.tcode) && c[0xc4] == HighByte(p.tcode)
            && forall i :: 0 <= i < CHECKSUM_OFF && !IsPatched(i) ==> c[i] == s[i]
  {
    PatchWrites(s, REG_DAC, p.dac, SECTION_DAC, Both);
    PatchKeepsLayout(s, REG_DAC, p.dac, SECTION_DAC, Both);
    var c1 := Patched(s, REG_DAC, p.dac, SECTION_DAC, Both).cfg;
    PatchWrites(c1, REG_TCODE, p.tcode, SECTION_TCODE, Both);
    PatchKeepsLayout(c1, REG_TCODE, p.tcode, SECTION_TCODE, Both);
  }

  lemma AppliedBytes(s: Bytes, p: OtpCfg)
    requires HasLayout(s) && p.hasTcodeDelta
    ensures Applied(s, p).error.None? && HoldsBytes(Applied(s, p).cfg, s, p)
  {
    var fdt := U16(p.fdtDelta * 256);
    FirstPatches(s, p);
    var c1 := Patched(s, REG_DAC, p.dac, SECTION_DAC, Both).cfg;
    var c2 := Patched(c1, REG_TCODE, p.tcode, SECTION_TCODE, Both).cfg;
    PatchWrites(c2, REG_FDT, fdt, SECTION_FDT, High);
    PatchKeepsLayout(c2, REG_FDT, fdt, SECTION_FDT, High);
  }

  /** A blob whose registers read back the parameters and which otherwise equals `s`, and adds up. */
  predicate Programmed(c: Bytes, s: Bytes, p: OtpCfg) {
    && |s| == CFG_LEN && |c| == CFG_LEN && SumsToZero(c)
    && Lookup(c, SECTION_DAC, REG_DAC) == Some(p.dac)
    && Lookup(c, SECTION_TCODE, REG_TCODE) == Some(p.tcode)
    && Lookup(c, SECTION_FDT, REG_FDT) == Some((s[0x9f] as int) + 256 * (p.fdtDelta % 256))
    && forall i :: 0 <= i < CHECKSUM_OFF && !IsPatched(i) ==> c[i] == s[i]
  }

  lemma BytesReadBack(c: Bytes, s: Bytes, p: OtpCfg)
    requires HoldsBytes(c, s, p) && p.dac < 0x1_0000 && p.tcode < 0x1_0000
    ensures Programmed(c, s, p)
  {
    WordOfBytes(p.dac);
    WordOfBytes(p.tcode);
    ShiftedHighByte(p.fdtDelta);
  }

  /**
   Patching the template with the parameters of any accepted memory succeeds: the three
   registers read back the parameters, the delta modulo 256; no other byte before the checksum
   changes, and the blob adds up.
   */
  lemma AcceptedMemoryPatchesTemplate(otp: Otp)
    requires Check(otp).Some?
    ensures var p := Parameters(Check(otp).value);
            && Applied(Template(), p).error.None?
            && Programmed(Applied(Template(), p).cfg, Template(), p)
  {
    var raw := Check(otp).value;
    ParameterBounds(raw);
    TemplateHasLayout();
    AnyParametersPatch(Template(), Parameters(raw));
  }

  lemma AnyParametersPatch(s: Bytes, p: OtpCfg)
    requires HasLayout(s) && p.hasTcodeDelta && p.dac < 0x1_0000 && p.tcode < 0x1_0000
    ensures Applied(s, p).error.None? && Programmed(Applied(s, p).cfg, s, p)
  {
    AppliedBytes(s, p);
    BytesReadBack(Applied(s, p).cfg, s, p);
  }
}
