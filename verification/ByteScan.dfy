/**
 Scanning a byte reader for a 32-bit pattern under a mask.  The start code prefix
 00 00 01 of Annex B of ITU-T H.264 has a scan of its own that skips up to three bytes.
 */
module ByteScan {
  import opened Common

  type Bytes = seq<bv8>

  const START_MASK: bv32 := 0xffff_ff00
  const START_PATTERN: bv32 := 0x0000_0100

  /** The big-endian 32-bit value at `i`. */
  function Be32(data: Bytes, i: nat): bv32
    requires i + 4 <= |data|
  {
    ((data[i] as bv32) << 24) | ((data[i + 1] as bv32) << 16) | ((data[i + 2] as bv32) << 8) | (data[i + 3] as bv32)
  }

  predicate Under(value: bv32, mask: bv32, pattern: bv32) {
    value & mask == pattern
  }

  predicate Matches(data: Bytes, i: nat, mask: bv32, pattern: bv32)
    requires i + 4 <= |data|
  {
    Under(Be32(data, i), mask, pattern)
  }

  /** The offset of a matching window and its value. */
  datatype Hit = Hit(at: nat, value: bv32)

  /** `r` is the offset of the first matching window and its value, or nothing matches. */
  ghost predicate FirstMatch(data: Bytes, mask: bv32, pattern: bv32, r: Option<Hit>) {
    match r
    case None => forall i: nat :: i + 4 <= |data| ==> !Matches(data, i, mask, pattern)
    case Some(Hit(at, value)) =>
      && at + 4 <= |data|
      && Matches(data, at, mask, pattern)
      && value == Be32(data, at)
      && forall i: nat :: i < at ==> !Matches(data, i, mask, pattern)
  }

  predicate StartsCode(data: Bytes, i: nat)
    requires i + 4 <= |data|
  {
    data[i] == 0 && data[i + 1] == 0 && data[i + 2] == 1
  }

  /** A window matches the special mask and pattern exactly if it begins with the start code. */
  lemma StartCodeMatches(data: Bytes, i: nat)
    requires i + 4 <= |data|
    ensures Matches(data, i, START_MASK, START_PATTERN) <==> StartsCode(data, i)
    ensures StartsCode(data, i) ==> Be32(data, i) == (1 << 8) | (data[i + 3] as bv32)
  {
    StartCodeBits(data[i] as bv32, data[i + 1] as bv32, data[i + 2] as bv32, data[i + 3] as bv32);
  }

  lemma StartCodeBits(a: bv32, b: bv32, c: bv32, d: bv32)
    requires a < 256 && b < 256 && c < 256 && d < 256
    ensures var v := (a << 24) | (b << 16) | (c << 8) | d;
            && (v & START_MASK == START_PATTERN <==> a == 0 && b == 0 && c == 1)
            && (a == 0 && b == 0 && c == 1 ==> v == (1 << 8) | d)
  {
  }

  /** The scan for the start code: look at the third byte first, skip by 3, 2 or 1. */
  method ScanForStartCode(data: Bytes) returns (at: int)
    requires |data| >= 4
    ensures at == -1 ==> forall i: nat :: i + 4 <= |data| ==> !StartsCode(data, i)
    ensures at != -1 ==>
              && 0 <= at && at + 4 <= |data| && StartsCode(data, at)
              && forall i: nat :: i < at ==> !StartsCode(data, i)
  {
    var pend := |data| - 4;
    at := 0;
    while at <= pend
      invariant 0 <= at
      invariant forall i: nat :: i < at && i + 4 <= |data| ==> !StartsCode(data, i)
    {
      if data[at + 2] > 1 {
        at := at + 3;
      } else if data[at + 1] != 0 {
        at := at + 2;
      } else if data[at] != 0 || data[at + 2] != 1 {
        at := at + 1;
      } else {
        return;
      }
    }
    at := -1;
  }

  /** Throw away one byte of the register and move in the next. */
  function ShiftIn(r: bv32, b: bv8): bv32 {
    (r << 8) | (b as bv32)
  }

  /** The shift register after `n` bytes, started with `init`. */
  function Register(init: bv32, data: Bytes, n: nat): bv32
    requires n <= |data|
  {
    if n == 0 then init else ShiftIn(Register(init, data, n - 1), data[n - 1])
  }

  lemma FourShifts(r: bv32, data: Bytes, i: nat)
    requires i + 4 <= |data|
    ensures ShiftIn(ShiftIn(ShiftIn(ShiftIn(r, data[i]), data[i + 1]), data[i + 2]), data[i + 3]) == Be32(data, i)
  {
  }

  /** From the fourth byte on the register holds the last four bytes. */
  lemma RegisterIsWindow(init: bv32, data: Bytes, n: nat)
    requires n + 4 <= |data|
    ensures Register(init, data, n + 4) == Be32(data, n)
  {
    var r := Register(init, data, n);
    var r1 := Register(init, data, n + 1);
    assert r1 == ShiftIn(r, data[n]);
    var r2 := Register(init, data, n + 2);
    assert r2 == ShiftIn(r1, data[n + 1]);
    var r3 := Register(init, data, n + 3);
    assert r3 == ShiftIn(r2, data[n + 2]);
    FourShifts(r, data, n);
  }

  /** The general scan: shift the bytes through a register and compare it under the mask. */
  method ScanWithRegister(data: Bytes, mask: bv32, pattern: bv32) returns (r: Option<Hit>)
    requires |data| >= 4
    ensures FirstMatch(data, mask, pattern, r)
  {
    var state := !pattern;
    var i := 0;
    while i < |data|
      invariant i <= |data|
      invariant state == Register(!pattern, data, i)
      invariant forall k: nat :: k + 4 <= i ==> !Matches(data, k, mask, pattern)
    {
      state := ShiftIn(state, data[i]);
      if i >= 3 {
        RegisterIsWindow(!pattern, data, i - 3);
      }
      // A match counts only once four bytes have filled the register.
      if Under(state, mask, pattern) {
        if i >= 3 {
          return Some(Hit(i - 3, state));
        }
      }
      i := i + 1;
    }
    return None;
  }

  /** A match is unique, so any two scans that find the first one agree. */
  lemma FirstMatchUnique(data: Bytes, mask: bv32, pattern: bv32, r: Option<Hit>, s: Option<Hit>)
    requires FirstMatch(data, mask, pattern, r) && FirstMatch(data, mask, pattern, s)
    ensures r == s
  {
    if r.Some? && s.Some? {
      assert !(r.value.at < s.value.at) && !(s.value.at < r.value.at);
    }
  }

  /** The skipping scan refines the general one: the same first offset, the same value. */
  lemma StartCodeScanRefines(data: Bytes, at: int, r: Option<Hit>)
    requires |data| >= 4
    requires at == -1 ==> forall i: nat :: i + 4 <= |data| ==> !StartsCode(data, i)
    requires at != -1 ==> && 0 <= at && at + 4 <= |data| && StartsCode(data, at)
                          && forall i: nat :: i < at ==> !StartsCode(data, i)
    ensures FirstMatch(data, START_MASK, START_PATTERN, r)
       <==> r == if at == -1 then None else Some(Hit(at, (1 << 8) | (data[at + 3] as bv32)))
  {
    var s: Option<Hit> := if at == -1 then None else Some(Hit(at, (1 << 8) | (data[at + 3] as bv32)));
    forall i: nat | i + 4 <= |data|
      ensures Matches(data, i, START_MASK, START_PATTERN) <==> StartsCode(data, i)
      ensures StartsCode(data, i) ==> Be32(data, i) == (1 << 8) | (data[i + 3] as bv32)
    {
      StartCodeMatches(data, i);
    }
    assert FirstMatch(data, START_MASK, START_PATTERN, s);
    if FirstMatch(data, START_MASK, START_PATTERN, r) {
      FirstMatchUnique(data, START_MASK, START_PATTERN, r, s);
    }
  }

  /**
   _masked_scan_uint32_peek: scan `size` bytes from `offset` past the reading position.
   The result does not tell which of the two scans was used.
   */
  method MaskedScan(data: Bytes, byte: nat, mask: bv32, pattern: bv32, offset: nat, size: nat)
    returns (r: Option<Hit>)
    requires byte <= |data|
    ensures size == 0 || offset + size > |data| - byte || size < 4 ==> r == None
    ensures size >= 4 && offset + size <= |data| - byte ==>
              var window := data[byte + offset..byte + offset + size];
              && (r.Some? ==> r.value.at >= offset)
              && FirstMatch(window, mask, pattern,
                            if r.None? then None else Some(Hit(r.value.at - offset, r.value.value)))
  {
    if size == 0 || offset + size > |data| - byte {
      return None;
    }
    if size < 4 {
      return None;
    }
    var window := data[byte + offset..byte + offset + size];
    if pattern == START_PATTERN && mask == START_MASK {
      var at := ScanForStartCode(window);
      StartCodeScanRefines(window, at, if at == -1 then None else Some(Hit(at, (1 << 8) | (window[at + 3] as bv32))));
      if at == -1 {
        return None;
      }
      return Some(Hit(at + offset, (1 << 8) | (window[at + 3] as bv32)));
    }
    var found := ScanWithRegister(window, mask, pattern);
    if found.None? {
      return None;
    }
    return Some(Hit(found.value.at + offset, found.value.value));
  }
}
