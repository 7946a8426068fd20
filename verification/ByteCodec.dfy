/** Byte representations of integers, raw data and NUL-terminated strings, and reading them back. */
module ByteCodec {
  import opened Common

  type Bytes = seq<bv8>

  // ---------------------------------------------------------------- integers

  function Write16Be(v: bv16): Bytes {
    [((v >> 8) & 0xff) as bv8, (v & 0xff) as bv8]
  }

  function Write16Le(v: bv16): Bytes {
    [(v & 0xff) as bv8, ((v >> 8) & 0xff) as bv8]
  }

  function Write24Be(v: bv32): Bytes {
    [((v >> 16) & 0xff) as bv8, ((v >> 8) & 0xff) as bv8, (v & 0xff) as bv8]
  }

  function Write24Le(v: bv32): Bytes {
    [(v & 0xff) as bv8, ((v >> 8) & 0xff) as bv8, ((v >> 16) & 0xff) as bv8]
  }

  function Write32Be(v: bv32): Bytes {
    [((v >> 24) & 0xff) as bv8, ((v >> 16) & 0xff) as bv8, ((v >> 8) & 0xff) as bv8, (v & 0xff) as bv8]
  }

  function Write32Le(v: bv32): Bytes {
    [(v & 0xff) as bv8, ((v >> 8) & 0xff) as bv8, ((v >> 16) & 0xff) as bv8, ((v >> 24) & 0xff) as bv8]
  }

  function Write64Be(v: bv64): Bytes {
    [((v >> 56) & 0xff) as bv8, ((v >> 48) & 0xff) as bv8, ((v >> 40) & 0xff) as bv8, ((v >> 32) & 0xff) as bv8,
     ((v >> 24) & 0xff) as bv8, ((v >> 16) & 0xff) as bv8, ((v >> 8) & 0xff) as bv8, (v & 0xff) as bv8]
  }

  function Write64Le(v: bv64): Bytes {
    [(v & 0xff) as bv8, ((v >> 8) & 0xff) as bv8, ((v >> 16) & 0xff) as bv8, ((v >> 24) & 0xff) as bv8,
     ((v >> 32) & 0xff) as bv8, ((v >> 40) & 0xff) as bv8, ((v >> 48) & 0xff) as bv8, ((v >> 56) & 0xff) as bv8]
  }

  function Join16(hi: bv8, lo: bv8): bv16 {
    ((hi as bv16) << 8) | (lo as bv16)
  }

  function Join24(a: bv8, b: bv8, c: bv8): bv32 {
    ((a as bv32) << 16) | ((b as bv32) << 8) | (c as bv32)
  }

  function Join32(a: bv8, b: bv8, c: bv8, d: bv8): bv32 {
    ((a as bv32) << 24) | ((b as bv32) << 16) | ((c as bv32) << 8) | (d as bv32)
  }

  function Join64(a: bv8, b: bv8, c: bv8, d: bv8, e: bv8, f: bv8, g: bv8, h: bv8): bv64 {
    ((a as bv64) << 56) | ((b as bv64) << 48) | ((c as bv64) << 40) | ((d as bv64) << 32)
    | ((e as bv64) << 24) | ((f as bv64) << 16) | ((g as bv64) << 8) | (h as bv64)
  }

  /** Fix up the sign of a 24-bit value stored in 32 bits. */
  function SignExtend24(v: bv32): bv32 {
    if v & 0x0080_0000 != 0 then v | 0xff00_0000 else v
  }

  predicate Fits24(v: bv32) {
    v < 0x0100_0000
  }

  /** A 32-bit two's complement value that 24 bits can hold. */
  predicate FitsSigned24(v: bv32) {
    v < 0x0080_0000 || v >= 0xff80_0000
  }

  lemma Joins16(v: bv16)
    ensures Join16(Write16Be(v)[0], Write16Be(v)[1]) == v
    ensures Join16(Write16Le(v)[1], Write16Le(v)[0]) == v
  {
  }

  /** 24 bits come back exactly if they held the value, signed or not. */
  lemma Joins24(v: bv32)
    ensures var w := Write24Be(v); var r := Join24(w[0], w[1], w[2]);
            && (r == v <==> Fits24(v))
            && (SignExtend24(r) == v <==> FitsSigned24(v))
    ensures var w := Write24Le(v); Join24(w[2], w[1], w[0]) == Join24(Write24Be(v)[0], Write24Be(v)[1], Write24Be(v)[2])
  {
  }

  lemma Joins32(v: bv32)
    ensures var w := Write32Be(v); Join32(w[0], w[1], w[2], w[3]) == v
    ensures var w := Write32Le(v); Join32(w[3], w[2], w[1], w[0]) == v
  {
  }

  lemma Joins64Be(v: bv64)
    ensures var w := Write64Be(v); Join64(w[0], w[1], w[2], w[3], w[4], w[5], w[6], w[7]) == v
  {
  }

  lemma Joins64Le(v: bv64)
    ensures var w := Write64Le(v); Join64(w[7], w[6], w[5], w[4], w[3], w[2], w[1], w[0]) == v
  {
  }

  // ---------------------------------------------------------------- strings

  function Zeros(n: nat): (z: Bytes)
    ensures |z| == n && forall k :: 0 <= k < n ==> z[k] == 0
  {
    seq(n, _ => 0 as bv8)
  }

  /** The unit of `unit` bytes at `i` is a terminator. */
  predicate ZeroUnit(b: Bytes, unit: nat, i: nat)
    requires i + unit <= |b|
  {
    b[i..i + unit] == Zeros(unit)
  }

  /** Bytes up to and including the first aligned terminator; 0 without one. */
  function ScanString(b: Bytes, unit: nat, from: nat): nat
    requires unit > 0 && from <= |b|
    decreases |b| - from
  {
    if from + unit > |b| then 0
    else if ZeroUnit(b, unit, from) then from + unit
    else ScanString(b, unit, from + unit)
  }

  /** Whole units, none of them a terminator. */
  predicate IsString(b: Bytes, unit: nat)
    requires unit > 0
    decreases |b|
  {
    b == [] || (|b| >= unit && !ZeroUnit(b, unit, 0) && IsString(b[unit..], unit))
  }

  /** Scanning a terminated string stops at its terminator. */
  lemma {:induction false} ScanFindsTerminator(pre: Bytes, s: Bytes, unit: nat, rest: Bytes)
    requires unit > 0 && IsString(s, unit)
    ensures ScanString(pre + s + Zeros(unit) + rest, unit, |pre|) == |pre| + |s| + unit
    decreases |s|
  {
    var all := pre + s + Zeros(unit) + rest;
    if s == [] {
      assert all[|pre|..|pre| + unit] == Zeros(unit);
    } else {
      assert all[|pre|..|pre| + unit] == s[0..unit];
      assert all == (pre + s[..unit]) + s[unit..] + Zeros(unit) + rest;
      ScanFindsTerminator(pre + s[..unit], s[unit..], unit, rest);
    }
  }

  // ---------------------------------------------------------------- items

  /** What the typed puts write. */
  datatype Item =
    | U8(b: bv8)
    | U16(be: bool, h: bv16)
    | U24(be: bool, w: bv32)
    | S24(be: bool, w: bv32)
    | U32(be: bool, w: bv32)
    | U64(be: bool, d: bv64)
    | Data(bytes: Bytes)
    | Str(unit: nat, bytes: Bytes)

  /** What the typed gets ask for. */
  datatype Kind = K8 | K16(be: bool) | K24(be: bool) | KS24(be: bool) | K32(be: bool) | K64(be: bool)
                | KData(size: nat) | KStr(unit: nat)

  predicate ValidKind(k: Kind) {
    k.KStr? ==> k.unit == 1 || k.unit == 2 || k.unit == 4
  }

  function KindOf(i: Item): Kind {
    match i
    case U8(_) => K8
    case U16(be, _) => K16(be)
    case U24(be, _) => K24(be)
    case S24(be, _) => KS24(be)
    case U32(be, _) => K32(be)
    case U64(be, _) => K64(be)
    case Data(bytes) => KData(|bytes|)
    case Str(unit, _) => KStr(unit)
  }

  function Encode(i: Item): Bytes {
    match i
    case U8(b) => [b]
    case U16(be, v) => if be then Write16Be(v) else Write16Le(v)
    case U24(be, v) => if be then Write24Be(v) else Write24Le(v)
    case S24(be, v) => if be then Write24Be(v) else Write24Le(v)
    case U32(be, v) => if be then Write32Be(v) else Write32Le(v)
    case U64(be, v) => if be then Write64Be(v) else Write64Le(v)
    case Data(bytes) => bytes
    case Str(unit, bytes) => bytes + Zeros(unit)
  }

  /** The items the representation can hold. */
  predicate Representable(i: Item) {
    match i
    case U24(_, v) => Fits24(v)
    case S24(_, v) => FitsSigned24(v)
    case Str(unit, bytes) => (unit == 1 || unit == 2 || unit == 4) && IsString(bytes, unit)
    case _ => true
  }

  datatype Read = Read(item: Item, size: nat)

  function Width(k: Kind): nat {
    match k
    case K8 => 1
    case K16(_) => 2
    case K24(_) => 3
    case KS24(_) => 3
    case K32(_) => 4
    case K64(_) => 8
    case KData(size) => size
    case KStr(unit) => unit
  }

  function DecodeInt(k: Kind, b: Bytes): Item
    requires !k.KStr? && |b| >= Width(k)
  {
    match k
    case K8 => U8(b[0])
    case K16(be) => U16(be, if be then Join16(b[0], b[1]) else Join16(b[1], b[0]))
    case K24(be) => U24(be, if be then Join24(b[0], b[1], b[2]) else Join24(b[2], b[1], b[0]))
    case KS24(be) => S24(be, SignExtend24(if be then Join24(b[0], b[1], b[2]) else Join24(b[2], b[1], b[0])))
    case K32(be) => U32(be, if be then Join32(b[0], b[1], b[2], b[3]) else Join32(b[3], b[2], b[1], b[0]))
    case K64(be) => U64(be, if be then Join64(b[0], b[1], b[2], b[3], b[4], b[5], b[6], b[7])
                            else Join64(b[7], b[6], b[5], b[4], b[3], b[2], b[1], b[0]))
    case KData(size) => Data(b[..size])
  }

  /** The item at the start of `b` and its size, if there are enough bytes. */
  function Decode(k: Kind, b: Bytes): (r: Option<Read>)
    requires ValidKind(k)
    ensures r.Some? ==> r.value.size <= |b|
  {
    if k.KStr? then
      var size := ScanString(b, k.unit, 0);
      ScanInside(b, k.unit, 0);
      if size == 0 then None else Some(Read(Str(k.unit, b[..size - k.unit]), size))
    else if |b| < Width(k) then None
    else Some(Read(DecodeInt(k, b), Width(k)))
  }

  lemma {:induction false} ScanInside(b: Bytes, unit: nat, from: nat)
    requires unit > 0 && from <= |b|
    ensures ScanString(b, unit, from) != 0 ==> from + unit <= ScanString(b, unit, from) <= |b|
    decreases |b| - from
  {
    if from + unit <= |b| && !ZeroUnit(b, unit, from) {
      ScanInside(b, unit, from + unit);
    }
  }

  lemma EncodedWidth(i: Item)
    requires !i.Str?
    ensures |Encode(i)| == Width(KindOf(i))
  {
  }

  lemma RoundTrip24(i: Item)
    requires i.U24? || i.S24?
    ensures DecodeInt(KindOf(i), Encode(i)) == i <==> Representable(i)
  {
    Joins24(i.w);
  }

  lemma RoundTrip64(i: Item)
    requires i.U64?
    ensures DecodeInt(KindOf(i), Encode(i)) == i
  {
    if i.be {
      Joins64Be(i.d);
    } else {
      Joins64Le(i.d);
    }
  }

  lemma RoundTripFixed(i: Item)
    requires i.U8? || i.U16? || i.U32?
    ensures DecodeInt(KindOf(i), Encode(i)) == i
  {
    match i {
      case U8(_) =>
      case U16(_, v) => Joins16(v);
      case U32(_, v) => Joins32(v);
    }
  }

  /** An integer comes back from its bytes exactly if the width could hold it. */
  lemma IntegerRoundTrip(i: Item)
    requires !i.Data? && !i.Str?
    ensures |Encode(i)| == Width(KindOf(i))
    ensures DecodeInt(KindOf(i), Encode(i)) == i <==> Representable(i)
  {
    EncodedWidth(i);
    if i.U24? || i.S24? {
      RoundTrip24(i);
    } else if i.U64? {
      RoundTrip64(i);
    } else {
      RoundTripFixed(i);
    }
  }

  lemma DecodeIgnoresRest(k: Kind, b: Bytes, rest: Bytes)
    requires !k.KStr? && |b| == Width(k)
    ensures DecodeInt(k, b + rest) == DecodeInt(k, b)
  {
    if k.KData? {
      assert (b + rest)[..k.size] == b[..k.size];
    }
  }

  lemma DecodeString(unit: nat, b: Bytes, bytes: Bytes)
    requires (unit == 1 || unit == 2 || unit == 4) && |bytes| <= |b|
    requires ScanString(b, unit, 0) == |bytes| + unit && b[..|bytes|] == bytes
    ensures Decode(KStr(unit), b) == Some(Read(Str(unit, bytes), |bytes| + unit))
  {
    ScanInside(b, unit, 0);
  }

  lemma ScanTerminated(unit: nat, bytes: Bytes, rest: Bytes)
    requires unit > 0 && IsString(bytes, unit)
    ensures ScanString(bytes + Zeros(unit) + rest, unit, 0) == |bytes| + unit
    ensures (bytes + Zeros(unit) + rest)[..|bytes|] == bytes
  {
    ScanFindsTerminator([], bytes, unit, rest);
    assert [] + bytes + Zeros(unit) + rest == bytes + Zeros(unit) + rest;
  }

  lemma StringRoundTrip(unit: nat, bytes: Bytes, rest: Bytes)
    requires (unit == 1 || unit == 2 || unit == 4) && IsString(bytes, unit)
    ensures Decode(KStr(unit), bytes + Zeros(unit) + rest) == Some(Read(Str(unit, bytes), |bytes| + unit))
  {
    ScanTerminated(unit, bytes, rest);
    DecodeString(unit, bytes + Zeros(unit) + rest, bytes);
  }

  lemma DataRoundTrip(bytes: Bytes, rest: Bytes)
    ensures Decode(KData(|bytes|), bytes + rest) == Some(Read(Data(bytes), |bytes|))
  {
    assert (bytes + rest)[..|bytes|] == bytes;
  }

  /** A representable item, followed by anything, is read back, and just its bytes are consumed. */
  lemma RoundTrip(i: Item, rest: Bytes)
    requires Representable(i)
    ensures Decode(KindOf(i), Encode(i) + rest) == Some(Read(i, |Encode(i)|))
  {
    if i.Str? {
      StringRoundTrip(i.unit, i.bytes, rest);
    } else if i.Data? {
      DataRoundTrip(i.bytes, rest);
    } else {
      IntegerRoundTrip(i);
      DecodeIgnoresRest(KindOf(i), Encode(i), rest);
    }
  }

  function EncodeAll(items: seq<Item>): Bytes {
    if items == [] then [] else Encode(items[0]) + EncodeAll(items[1..])
  }

  function KindsOf(items: seq<Item>): seq<Kind> {
    if items == [] then [] else [KindOf(items[0])] + KindsOf(items[1..])
  }

  /** Read one item after the other. */
  function DecodeAll(kinds: seq<Kind>, b: Bytes): Option<seq<Item>>
    requires ValidKinds(kinds)
    decreases |kinds|
  {
    if kinds == [] then Some([])
    else
      var first := Decode(kinds[0], b);
      if first.None? then None
      else
        var others := DecodeAll(kinds[1..], b[first.value.size..]);
        if others.None? then None else Some([first.value.item] + others.value)
  }

  predicate ValidKinds(kinds: seq<Kind>) {
    forall i :: 0 <= i < |kinds| ==> ValidKind(kinds[i])
  }

  lemma DecodeAllStep(k: Kind, kinds: seq<Kind>, e: Bytes, tail: Bytes, i: Item, others: seq<Item>)
    requires ValidKind(k) && ValidKinds(kinds)
    requires Decode(k, e + tail) == Some(Read(i, |e|))
    requires DecodeAll(kinds, tail) == Some(others)
    ensures ValidKinds([k] + kinds) && DecodeAll([k] + kinds, e + tail) == Some([i] + others)
  {
    assert ([k] + kinds)[1..] == kinds;
    assert (e + tail)[|e|..] == tail;
  }

  lemma EncodeAllCons(first: Item, others: seq<Item>, rest: Bytes)
    ensures KindsOf([first] + others) == [KindOf(first)] + KindsOf(others)
    ensures EncodeAll([first] + others) + rest == Encode(first) + (EncodeAll(others) + rest)
  {
    assert ([first] + others)[1..] == others;
  }

  lemma ConsRoundTrip(first: Item, others: seq<Item>, rest: Bytes)
    requires Representable(first)
    requires ValidKinds(KindsOf(others))
    requires DecodeAll(KindsOf(others), EncodeAll(others) + rest) == Some(others)
    ensures ValidKinds(KindsOf([first] + others))
    ensures DecodeAll(KindsOf([first] + others), EncodeAll([first] + others) + rest) == Some([first] + others)
  {
    RoundTrip(first, EncodeAll(others) + rest);
    DecodeAllStep(KindOf(first), KindsOf(others), Encode(first), EncodeAll(others) + rest, first, others);
    EncodeAllCons(first, others, rest);
  }

  /** Any sequence of representable items is returned by the matching gets. */
  lemma {:induction false} SequenceRoundTrip(items: seq<Item>, rest: Bytes)
    requires forall i :: 0 <= i < |items| ==> Representable(items[i])
    ensures ValidKinds(KindsOf(items))
    ensures DecodeAll(KindsOf(items), EncodeAll(items) + rest) == Some(items)
    decreases |items|
  {
    if items != [] {
      SequenceRoundTrip(items[1..], rest);
      ConsRoundTrip(items[0], items[1..], rest);
      assert items == [items[0]] + items[1..];
    }
  }

  lemma {:induction false} EncodeAllAppend(items: seq<Item>, last: Item)
    ensures EncodeAll(items + [last]) == EncodeAll(items) + Encode(last)
  {
    if items == [] {
      assert items + [last] == [last] && EncodeAll([]) == [] && [last][1..] == [];
    } else {
      assert (items + [last])[1..] == items[1..] + [last];
      EncodeAllAppend(items[1..], last);
    }
  }

  // ---------------------------------------------------------------- byte order

  /** Most significant byte first, or last; a signed value in two's complement. */
  lemma ByteOrder()
    ensures Encode(U16(true, 0x0102)) == [1, 2] && Encode(U16(false, 0x0102)) == [2, 1]
    ensures Encode(U24(true, 0x01_0203)) == [1, 2, 3] && Encode(U24(false, 0x01_0203)) == [3, 2, 1]
    ensures Encode(S24(true, 0xffff_fffe)) == [0xff, 0xff, 0xfe] && Encode(S24(false, 0xffff_fffe)) == [0xfe, 0xff, 0xff]
    ensures Encode(U32(true, 0x0102_0304)) == [1, 2, 3, 4] && Encode(U32(false, 0x0102_0304)) == [4, 3, 2, 1]
    ensures Encode(U64(true, 0x0102_0304_0506_0708)) == [1, 2, 3, 4, 5, 6, 7, 8]
    ensures Encode(U64(false, 0x0102_0304_0506_0708)) == [8, 7, 6, 5, 4, 3, 2, 1]
  {
  }
}
