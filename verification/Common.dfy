/** Value types and integer helpers shared by the models. */
module Common {
  datatype Option<+T> = None | Some(value: T)

  type byte = i: int | 0 <= i < 256

  const TWO_32: int := 0x1_0000_0000
  const TWO_64: int := 0x1_0000_0000_0000_0000

  /** Conversion to an unsigned 32-bit integer, as C performs it. */
  function U32(x: int): int {
    x % TWO_32
  }

  /** Conversion to an unsigned 64-bit integer, as C performs it. */
  function U64(x: int): int {
    x % TWO_64
  }

  function Min(a: int, b: int): int {
    if a < b then a else b
  }

  function Max(a: int, b: int): int {
    if a < b then b else a
  }

  lemma U32Id(x: int)
    requires 0 <= x < TWO_32
    ensures U32(x) == x
  {
  }

  /** Unsigned addition, exact when the sum fits. */
  method AddU32(x: nat, y: nat) returns (r: nat)
    ensures r < TWO_32 && (x + y < TWO_32 ==> r == x + y)
  {
    r := U32(x + y);
  }

  lemma ModAdd(x: int, y: int)
    ensures (x % 256 + y) % 256 == (x + y) % 256
  {
  }

  // A product and a quotient of unknowns, defined by recursion so that proofs about the
  // surrounding code meet them as plain symbols; the lemmas below say what they are.

  function Mul(a: nat, b: nat): nat {
    if a == 0 then 0 else Mul(a - 1, b) + b
  }

  function Div(x: nat, d: nat): nat
    requires d > 0
  {
    if x < d then 0 else Div(x - d, d) + 1
  }

  lemma {:induction false} MulIsProduct(a: nat, b: nat)
    ensures Mul(a, b) == a * b
  {
    if a > 0 {
      MulIsProduct(a - 1, b);
      assert a * b == (a - 1) * b + b;
    }
  }

  lemma {:induction false} DivIsQuotient(x: nat, d: nat)
    requires d > 0
    ensures Div(x, d) == x / d
  {
    if x >= d {
      DivIsQuotient(x - d, d);
      QuotientStep(x, d);
    }
  }

  lemma QuotientStep(x: nat, d: nat)
    requires x >= d > 0
    ensures x / d == (x - d) / d + 1
  {
    var k := x / d - (x - d) / d - 1;
    assert x == x / d * d + x % d && x - d == (x - d) / d * d + (x - d) % d;
    assert k * d == (x - d) % d - x % d;
    MultipleIsFar(k, d);
  }

  lemma MultipleIsFar(k: int, d: int)
    requires d > 0
    ensures k >= 1 ==> k * d >= d
    ensures k <= -1 ==> k * d <= -d
  {
  }

  lemma {:induction false} MulMonotone(a: nat, a': nat, b: nat, b': nat)
    requires a <= a' && b <= b'
    ensures Mul(a, b) <= Mul(a', b')
    decreases a'
  {
    if a > 0 {
      MulMonotone(a - 1, a' - 1, b, b');
    }
  }

  lemma {:induction false} MulPositive(a: nat, b: nat)
    requires a > 0 && b > 0
    ensures Mul(a, b) > 0
  {
  }

  lemma {:induction false} MulDistributes(a: nat, b: nat, c: nat)
    ensures Mul(a, c) + Mul(b, c) == Mul(a + b, c)
  {
    if a > 0 {
      MulDistributes(a - 1, b, c);
    }
  }

  lemma {:induction false} DivAtMost(x: nat, q: nat, d: nat)
    requires d > 0 && x <= Mul(q, d)
    ensures Div(x, d) <= q
    decreases x
  {
    if x >= d {
      DivAtMost(x - d, q - 1, d);
    }
  }

  lemma {:induction false} DivAtLeast(x: nat, q: nat, d: nat)
    requires d > 0 && x >= Mul(q, d)
    ensures Div(x, d) >= q
    decreases q
  {
    if q > 0 {
      DivAtLeast(x - d, q - 1, d);
    }
  }

  lemma {:induction false} MulCommutes(a: nat, b: nat)
    ensures Mul(a, b) == Mul(b, a)
  {
    MulIsProduct(a, b);
    MulIsProduct(b, a);
  }
}
