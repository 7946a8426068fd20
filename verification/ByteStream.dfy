/** The byte writer over a growing buffer, and the byte reader. */
module ByteStream {
  import opened Common
  import opened ByteCodec

  /** The sizes next_pow2 passes through. */
  predicate AllocationSize(r: int) {
    || r == 0x10 || r == 0x20 || r == 0x40 || r == 0x80
    || r == 0x100 || r == 0x200 || r == 0x400 || r == 0x800
    || r == 0x1000 || r == 0x2000 || r == 0x4000 || r == 0x8000
    || r == 0x1_0000 || r == 0x2_0000 || r == 0x4_0000 || r == 0x8_0000
    || r == 0x10_0000 || r == 0x20_0000 || r == 0x40_0000 || r == 0x80_0000
    || r == 0x100_0000 || r == 0x200_0000 || r == 0x400_0000 || r == 0x800_0000
    || r == 0x1000_0000 || r == 0x2000_0000 || r == 0x4000_0000 || r == 0x8000_0000
  }

  /**
   The least allocation size that holds `n` bytes; past the last one the shift leaves
   zero, the loop stops, and the result is `n` itself.
   */
  method NextPow2(n: nat) returns (ret: nat)
    requires n < TWO_32
    ensures n <= ret < TWO_32
    ensures if n <= 0x8000_0000 then AllocationSize(ret) && (ret == 16 || ret < 2 * n) else ret == n
  {
    ret := 16;
    while ret < n && ret > 0
      invariant ret == 0 || AllocationSize(ret)
      invariant ret == 0 ==> n > 0x8000_0000
      invariant ret > 16 ==> ret < 2 * n
      decreases if ret == 0 then 0 else TWO_32 - ret
    {
      ret := Common.U32(ret * 2);
    }
    if ret == 0 {
      ret := n;
    }
  }

  /** `old` with `b` written over it from position `at`, longer than before if need be. */
  function Overwrite(contents: Bytes, at: nat, b: Bytes): Bytes
    requires at <= |contents|
  {
    contents[..at] + b + if at + |b| <= |contents| then contents[at + |b|..] else []
  }

  lemma OverwriteAtEnd(contents: Bytes, b: Bytes)
    ensures Overwrite(contents, |contents|, b) == contents + b
  {
  }

  class ByteWriter {
    var data: array<bv8>
    var byte: nat
    var size: nat
    var allocSize: nat
    var fixed: bool
    var owned: bool

    ghost predicate Valid()
      reads this
    {
      byte <= size <= allocSize == data.Length && allocSize < TWO_32
    }

    ghost function Contents(): Bytes
      reads this, data
      requires Valid()
    {
      data[..size]
    }

    constructor (fixed: bool, owned: bool, capacity: nat)
      requires capacity < TWO_32
      ensures Valid() && fresh(data) && Contents() == [] && byte == 0 && allocSize == capacity
      ensures this.fixed == fixed && this.owned == owned
    {
      data := new bv8[capacity](_ => 0);
      byte, size, allocSize := 0, 0, capacity;
      this.fixed, this.owned := fixed, owned;
    }

    /** Whether `n` more bytes can be had at the current position. */
    ghost predicate HasRoom(n: nat)
      reads this
      requires Valid()
    {
      n <= allocSize - byte || (!fixed && owned && byte + n < TWO_32)
    }

    method EnsureFreeSpace(n: nat) returns (ok: bool)
      requires Valid() && n < TWO_32
      modifies this`data, this`allocSize
      ensures Valid() && Contents() == old(Contents())
      ensures data == old(data) || fresh(data)
      ensures ok == old(HasRoom(n))
      ensures ok ==> n <= allocSize - byte
      ensures !ok ==> data == old(data)
    {
      if n <= allocSize - byte {
        return true;
      }
      if fixed || !owned {
        return false;
      }
      if byte > TWO_32 - 1 - n {
        return false;
      }
      var newSize := NextPow2(byte + n);
      var newData := new bv8[newSize](_ => 0);
      forall i | 0 <= i < allocSize {
        newData[i] := data[i];
      }
      data, allocSize := newData, newSize;
      return true;
    }

    /** The unchecked put: store, advance, and raise the size. */
    method StoreUnchecked(b: Bytes)
      requires Valid() && |b| <= allocSize - byte
      modifies this`byte, this`size, data
      ensures Valid() && byte == old(byte) + |b|
      ensures Contents() == Overwrite(old(Contents()), old(byte), b)
    {
      forall i | 0 <= i < |b| {
        data[byte + i] := b[i];
      }
      byte := byte + |b|;
      size := Max(size, byte);
    }

    /** A typed put, put_data or put_string: all or nothing. */
    method Put(item: Item) returns (ok: bool)
      requires Valid() && |Encode(item)| < TWO_32
      modifies this, data
      ensures Valid() && (data == old(data) || fresh(data))
      ensures fixed == old(fixed) && owned == old(owned)
      ensures ok == old(HasRoom(|Encode(item)|))
      ensures ok ==> Contents() == Overwrite(old(Contents()), old(byte), Encode(item))
      ensures ok ==> byte == old(byte) + |Encode(item)|
      ensures !ok ==> Contents() == old(Contents()) && byte == old(byte)
    {
      var b := Encode(item);
      ok := EnsureFreeSpace(|b|);
      if ok {
        StoreUnchecked(b);
      }
    }

    method Fill(value: bv8, n: nat) returns (ok: bool)
      requires Valid() && n < TWO_32
      modifies this, data
      ensures Valid() && (data == old(data) || fresh(data))
      ensures ok == old(HasRoom(n))
      ensures ok ==> Contents() == Overwrite(old(Contents()), old(byte), seq(n, _ => value)) && byte == old(byte) + n
      ensures !ok ==> Contents() == old(Contents()) && byte == old(byte)
    {
      ok := EnsureFreeSpace(n);
      if ok {
        StoreUnchecked(seq(n, _ => value));
      }
    }

    method SetPos(pos: nat) returns (ok: bool)
      requires Valid()
      modifies this`byte
      ensures Valid() && ok == (pos <= size)
      ensures byte == if ok then pos else old(byte)
    {
      if pos > size {
        return false;
      }
      byte := pos;
      return true;
    }

    /** A put at the end of what has been written. */
    method Append(item: Item) returns (ok: bool)
      requires Valid() && byte == size && |Encode(item)| < TWO_32
      modifies this, data
      ensures Valid() && byte == size && (data == old(data) || fresh(data))
      ensures fixed == old(fixed) && owned == old(owned)
      ensures old(!fixed && owned && size + |Encode(item)| < TWO_32) ==> ok
      ensures ok ==> Contents() == old(Contents()) + Encode(item)
    {
      OverwriteAtEnd(Contents(), Encode(item));
      ok := Put(item);
    }

    /** The next of a list of items, behind those before it. */
    method AppendNext(items: seq<Item>, k: nat, ghost start: Bytes) returns (ok: bool)
      requires Valid() && byte == size && k < |items| && Fits(items[k])
      requires Contents() == start + EncodeAll(items[..k])
      modifies this, data
      ensures Valid() && byte == size && (data == old(data) || fresh(data))
      ensures fixed == old(fixed) && owned == old(owned)
      ensures ok ==> Contents() == start + EncodeAll(items[..k + 1])
      ensures !old(fixed) && old(owned) && |start| + |EncodeAll(items)| < TWO_32 ==> ok
    {
      EncodeAllSnoc(items, k);
      ghost var before, next := EncodeAll(items[..k]), Encode(items[k]);
      ok := Append(items[k]);
      assert start + before + next == start + (before + next);
    }

    /** Put one item after the other, stopping at the first that does not fit. */
    method PutAll(items: seq<Item>) returns (ok: bool)
      requires Valid() && byte == size
      requires forall i :: 0 <= i < |items| ==> Fits(items[i])
      modifies this, data
      ensures Valid()
      ensures ok ==> Contents() == old(Contents()) + EncodeAll(items) && byte == size
      ensures old(!fixed && owned && size + |EncodeAll(items)| < TWO_32) ==> ok
    {
      ghost var start := Contents();
      for k := 0 to |items|
        invariant Valid() && byte == size && (data == old(data) || fresh(data))
        invariant Contents() == start + EncodeAll(items[..k])
        invariant fixed == old(fixed) && owned == old(owned)
      {
        ok := AppendNext(items, k, start);
        if !ok {
          return false;
        }
      }
      assert items[..|items|] == items;
      ok := true;
    }
  }

  /** The size parameters of the puts are 32-bit. */
  predicate Fits(item: Item) {
    |Encode(item)| < TWO_32
  }

  lemma EncodeAllSnoc(items: seq<Item>, k: nat)
    requires k < |items|
    ensures EncodeAll(items[..k + 1]) == EncodeAll(items[..k]) + Encode(items[k])
    ensures |EncodeAll(items[..k])| + |Encode(items[k])| <= |EncodeAll(items)|
  {
    EncodeAllAppend(items[..k], items[k]);
    assert items[..k] + [items[k]] == items[..k + 1];
    EncodeAllPrefix(items, k + 1);
  }

  lemma {:induction false} EncodeAllPrefix(items: seq<Item>, k: nat)
    requires k <= |items|
    ensures |EncodeAll(items[..k])| <= |EncodeAll(items)|
    decreases |items| - k
  {
    if k < |items| {
      EncodeAllAppend(items[..k], items[k]);
      assert items[..k] + [items[k]] == items[..k + 1];
      EncodeAllPrefix(items, k + 1);
    } else {
      assert items[..k] == items;
    }
  }

  class ByteReader {
    const data: Bytes
    var byte: nat

    ghost predicate Valid()
      reads this
    {
      byte <= |data|
    }

    constructor (data: Bytes)
      ensures Valid() && this.data == data && byte == 0
    {
      this.data, byte := data, 0;
    }

    /** The scan loop behind the string functions: the size with its terminator, or 0. */
    method Scan(unit: nat) returns (n: nat)
      requires Valid() && (unit == 1 || unit == 2 || unit == 4)
      ensures n == ScanString(data[byte..], unit, 0)
    {
      var rest := data[byte..];
      var maxLen := |rest| / unit;
      if maxLen < 1 {
        return 0;
      }
      var len, off := 0, 0;
      while !ZeroUnit(rest, unit, off)
        invariant 0 <= len < maxLen && off == len * unit && off + unit <= |rest|
        invariant ScanString(rest, unit, off) == ScanString(rest, unit, 0)
        decreases maxLen - len
      {
        len := len + 1;
        off := off + unit;
        if len == maxLen {
          return 0;
        }
      }
      return (len + 1) * unit;
    }

    /** A typed get, get_data or dup_string: on success the item, and the position past it. */
    method Get(k: Kind) returns (item: Option<Item>)
      requires Valid() && ValidKind(k)
      modifies this`byte
      ensures Valid()
      ensures var r := Decode(k, data[old(byte)..]);
              && item == (if r.None? then None else Some(r.value.item))
              && byte == old(byte) + (if r.None? then 0 else r.value.size)
    {
      if k.KStr? {
        var size := Scan(k.unit);
        if size == 0 {
          return None;
        }
        ScanInside(data[byte..], k.unit, 0);
        assert data[byte..byte + size - k.unit] == data[byte..][..size - k.unit];
        item := Some(Str(k.unit, data[byte..byte + size - k.unit]));
        byte := byte + size;
      } else {
        if |data| - byte < Width(k) {
          return None;
        }
        item := Some(DecodeInt(k, data[byte..]));
        byte := byte + Width(k);
      }
    }

    method Skip(n: nat) returns (ok: bool)
      requires Valid()
      modifies this`byte
      ensures Valid() && ok == (n <= |data| - old(byte))
      ensures byte == old(byte) + if ok then n else 0
    {
      if |data| - byte < n {
        return false;
      }
      byte := byte + n;
      return true;
    }

    /** A reader of its own over the next `n` bytes, which are skipped here. */
    method GetSubReader(n: nat) returns (sub: ByteReader?)
      requires Valid()
      modifies this`byte
      ensures Valid()
      ensures sub == null <==> n > |data| - old(byte)
      ensures sub == null ==> byte == old(byte)
      ensures sub != null ==> && fresh(sub) && sub.Valid() && sub.byte == 0
                              && byte == old(byte) + n && sub.data == data[old(byte)..byte]
    {
      if |data| - byte < n {
        return null;
      }
      sub := new ByteReader(data[byte..byte + n]);
      byte := byte + n;
    }

    /** Get one item after the other. */
    method GetAll(kinds: seq<Kind>) returns (items: Option<seq<Item>>)
      requires Valid() && ValidKinds(kinds)
      modifies this`byte
      ensures Valid()
      ensures items == DecodeAll(kinds, data[old(byte)..])
    {
      var got: seq<Item> := [];
      assert kinds[0..] == kinds;
      PrependNothing(DecodeAll(kinds, data[byte..]));
      for i := 0 to |kinds|
        invariant Valid()
        invariant DecodeAll(kinds, data[old(byte)..]) == Prepend(got, DecodeAll(kinds[i..], data[byte..]))
      {
        ghost var before := data[byte..];
        DecodeAllUnfold(kinds[i..], before);
        assert kinds[i..][1..] == kinds[i + 1..];
        var item := Get(kinds[i]);
        if item.None? {
          return None;
        }
        assert data[byte..] == before[Decode(kinds[i], before).value.size..];
        PrependTwice(got, item.value, DecodeAll(kinds[i + 1..], data[byte..]));
        got := got + [item.value];
      }
      assert kinds[|kinds|..] == [] && got + [] == got;
      items := Some(got);
    }
  }

  function Prepend(got: seq<Item>, others: Option<seq<Item>>): Option<seq<Item>> {
    if others.None? then None else Some(got + others.value)
  }

  lemma PrependNothing(others: Option<seq<Item>>)
    ensures Prepend([], others) == others
  {
    if others.Some? {
      assert [] + others.value == others.value;
    }
  }

  lemma PrependTwice(got: seq<Item>, item: Item, others: Option<seq<Item>>)
    ensures Prepend(got, Prepend([item], others)) == Prepend(got + [item], others)
  {
    if others.Some? {
      assert got + ([item] + others.value) == got + [item] + others.value;
    }
  }

  lemma DecodeAllUnfold(kinds: seq<Kind>, b: Bytes)
    requires kinds != [] && ValidKinds(kinds)
    ensures var first := Decode(kinds[0], b);
            DecodeAll(kinds, b) == if first.None? then None
                                   else Prepend([first.value.item], DecodeAll(kinds[1..], b[first.value.size..]))
  {
  }

  /** Writing items into a fresh growable buffer and reading them back returns the items. */
  method WriteThenRead(items: seq<Item>) returns (read: Option<seq<Item>>)
    requires forall i :: 0 <= i < |items| ==> Representable(items[i]) && |Encode(items[i])| < TWO_32
    requires |EncodeAll(items)| < TWO_32
    ensures read == Some(items)
  {
    var w := new ByteWriter(false, true, 0);
    var ok := w.PutAll(items);
    assert w.Contents() == [] + EncodeAll(items) == EncodeAll(items) + [];
    SequenceRoundTrip(items, []);
    var r := new ByteReader(w.data[..w.size]);
    assert r.data[0..] == r.data;
    read := r.GetAll(KindsOf(items));
  }
}
