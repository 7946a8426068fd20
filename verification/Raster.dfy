/** Pixels of an image stored row by row in one buffer. */
module Raster {
  import opened Common

  lemma {:induction false} RowsApart(r: nat, r': nat, w: nat)
    requires r < r'
    ensures Mul(r, w) + w <= Mul(r', w)
    decreases r'
  {
    if r + 1 < r' {
      RowsApart(r, r' - 1, w);
    }
  }

  /** The index of column `c` in row `r` of a `w` by `h` image. */
  function At(c: int, r: int, w: nat, h: nat): (p: int)
    requires 0 <= c < w && 0 <= r < h
    ensures 0 <= p < Mul(h, w)
  {
    RowsApart(r, h, w);
    c + Mul(r, w)
  }

  lemma AtIsFlatIndex(c: int, r: int, w: nat, h: nat)
    requires 0 <= c < w && 0 <= r < h
    ensures At(c, r, w, h) == c + r * w && Mul(h, w) == h * w
  {
    MulIsProduct(r, w);
    MulIsProduct(h, w);
  }

  lemma AtInjective(c: int, r: int, c': int, r': int, w: nat, h: nat)
    requires 0 <= c < w && 0 <= r < h && 0 <= c' < w && 0 <= r' < h
    requires At(c, r, w, h) == At(c', r', w, h)
    ensures c == c' && r == r'
  {
    if r < r' {
      RowsApart(r, r', w);
    } else if r' < r {
      RowsApart(r', r, w);
    }
  }
}
