/** Assembling the lines of a swipe into an image whose rows are evenly spaced, in 16.16 fixed point. */
module LineAssembly {
  import opened Common
  import opened Raster
  import MedianFilter

  /** Lines are named by their position in the list. */
  datatype Context = Context(
    lineWidth: nat, maxHeight: nat, resolution: nat, filterSize: nat, maxSearchOffset: nat,
    getDeviation: (int, int) -> int, getPixel: (int, int) -> byte)

  const ONE: int := 0x1_0000
  const INT_LIMIT: int := 0x8000_0000

  // ---------------------------------------------------------------- offsets

  function LastRow(ctx: Context, i: nat, numLines: nat): int {
    Min(i + ctx.maxSearchOffset, numLines - 1)
  }

  /** `best` is the first row after `i`, up to `last`, that deviates least from it. */
  ghost predicate FirstLeast(ctx: Context, i: nat, last: int, best: int) {
    && i < best <= last
    && (forall j :: i < j <= last ==> ctx.getDeviation(i, best) <= ctx.getDeviation(i, j))
    && (forall j :: i < j < best ==> ctx.getDeviation(i, best) < ctx.getDeviation(i, j))
  }

  /** The offset found for line `i`; 0 if there was nothing to search. */
  ghost predicate OffsetOf(ctx: Context, i: nat, numLines: nat, offset: int) {
    var last := LastRow(ctx, i, numLines);
    if i < last then FirstLeast(ctx, i, last, i + offset) else offset == 0
  }

  method BestMatch(ctx: Context, i: nat, numLines: nat) returns (bestmatch: int)
    requires i < numLines - 1
    ensures OffsetOf(ctx, i, numLines, bestmatch - i)
  {
    bestmatch := i;
    var bestdiff := 0;
    var firstrow := i + 1;
    var lastrow := Min(i + ctx.maxSearchOffset, numLines - 1);
    var j := firstrow;
    while j <= lastrow
      invariant firstrow <= j && (j <= lastrow + 1 || j == firstrow)
      invariant j == firstrow ==> bestmatch == i
      invariant j > firstrow ==> FirstLeast(ctx, i, j - 1, bestmatch) && bestdiff == ctx.getDeviation(i, bestmatch)
    {
      var diff := ctx.getDeviation(i, j);
      if j == firstrow || diff < bestdiff {
        bestdiff := diff;
        bestmatch := j;
      }
      j := j + 1;
    }
  }

  method SearchOffsets(ctx: Context, numLines: nat) returns (offsets: array<int>)
    requires numLines >= 2
    ensures fresh(offsets) && offsets.Length == numLines / 2
    ensures forall k :: 0 <= k < offsets.Length ==> OffsetOf(ctx, 2 * k, numLines, offsets[k])
  {
    offsets := new int[numLines / 2];
    var i := 0;
    while i < numLines - 1
      invariant i % 2 == 0 && i <= 2 * offsets.Length
      invariant forall k :: 0 <= k < i / 2 ==> OffsetOf(ctx, 2 * k, numLines, offsets[k])
    {
      var bestmatch := BestMatch(ctx, i, numLines);
      offsets[i / 2] := bestmatch - i;
      i := i + 2;
    }
  }

  predicate AllWithin(offsets: seq<int>, lo: int, hi: int) {
    forall k :: 0 <= k < |offsets| ==> lo <= offsets[k] <= hi
  }

  /** `offsets` are the searched ones, all but the last replaced by the median of their neighbourhood. */
  ghost predicate FilteredFrom(ctx: Context, numLines: nat, found: seq<int>, offsets: seq<int>) {
    && ctx.filterSize > 0
    && |offsets| == |found| == numLines / 2 > 0
    && (forall k :: 0 <= k < |found| ==> OffsetOf(ctx, 2 * k, numLines, found[k]))
    && (forall k :: 0 <= k < |found| - 1 ==>
          MedianFilter.IsMedian(found, k, |found| - 1, ctx.filterSize, offsets[k]))
    && offsets[|found| - 1] == found[|found| - 1]
  }

  /** Searching and filtering keep every offset between 1 and the search distance. */
  lemma FilteredOffsetsInRange(ctx: Context, numLines: nat, found: seq<int>, offsets: seq<int>)
    requires FilteredFrom(ctx, numLines, found, offsets) && ctx.maxSearchOffset >= 1
    ensures AllWithin(offsets, 1, ctx.maxSearchOffset)
  {
    forall k | 0 <= k < |found|
      ensures 1 <= found[k] <= ctx.maxSearchOffset
    {
      assert OffsetOf(ctx, 2 * k, numLines, found[k]);
    }
    forall k | 0 <= k < |offsets|
      ensures 1 <= offsets[k] <= ctx.maxSearchOffset
    {
      if k < |found| - 1 {
        MedianFilter.MedianInBounds(found, k, |found| - 1, ctx.filterSize, offsets[k], 1, ctx.maxSearchOffset);
      }
    }
  }

  // ---------------------------------------------------------------- positions

  /** The distance between a line and the next, in fixed point. */
  function LineStep(ctx: Context, offset: int): nat {
    if offset > 0 then Div(ctx.resolution * ONE, offset) else 0
  }

  /** The position of line `i`: the sum of the steps before it. */
  function Y(ctx: Context, offsets: seq<int>, i: nat): nat
    requires i <= 2 * |offsets|
  {
    if i == 0 then 0 else Y(ctx, offsets, i - 1) + LineStep(ctx, offsets[(i - 1) / 2])
  }

  /** Output row `k` lies between lines `i` and `i + 1`. */
  predicate LiesBetween(ctx: Context, offsets: seq<int>, i: nat, k: int)
    requires i < 2 * |offsets|
  {
    Y(ctx, offsets, i) <= k * ONE < Y(ctx, offsets, i + 1)
  }

  lemma {:induction false} YMonotone(ctx: Context, offsets: seq<int>, i: nat, j: nat)
    requires i <= j <= 2 * |offsets|
    ensures Y(ctx, offsets, i) <= Y(ctx, offsets, j)
    decreases j
  {
    if i < j {
      YMonotone(ctx, offsets, i, j - 1);
    }
  }

  /** Every output row below the end lies between exactly one pair of lines. */
  lemma {:induction false} UniqueRow(ctx: Context, offsets: seq<int>, n: nat, k: nat)
    requires n <= 2 * |offsets| && k * ONE < Y(ctx, offsets, n)
    ensures exists i: nat :: i < n && LiesBetween(ctx, offsets, i, k)
    ensures forall i: nat, j: nat ::
      i < n && j < n && LiesBetween(ctx, offsets, i, k) && LiesBetween(ctx, offsets, j, k) ==> i == j
    decreases n
  {
    if k * ONE < Y(ctx, offsets, n - 1) {
      UniqueRow(ctx, offsets, n - 1, k);
    } else {
      assert LiesBetween(ctx, offsets, n - 1, k);
    }
    forall i: nat, j: nat | i < n && j < n && LiesBetween(ctx, offsets, i, k) && LiesBetween(ctx, offsets, j, k)
      ensures i == j
    {
      if i < j {
        YMonotone(ctx, offsets, i + 1, j);
      } else if j < i {
        YMonotone(ctx, offsets, j + 1, i);
      }
    }
  }

  // ---------------------------------------------------------------- interpolation

  /** Weighted mean of two pixels; the weights are the distances to the other line. */
  function Interpolated(y1: nat, y2: nat, y: nat, p1: byte, p2: byte): (p: byte)
    requires y1 <= y < y2
    ensures Min(p1, p2) <= p <= Max(p1, p2)
  {
    Weights(y - y1, y2 - y, p1, p2);
    Div(Mul(y - y1, p2) + Mul(y2 - y, p1), y2 - y1)
  }

  /** A weighted mean lies between any bounds of its two values. */
  lemma MeanBetween(a: nat, b: nat, p1: nat, p2: nat, lo: nat, hi: nat)
    requires a + b > 0 && lo <= p1 <= hi && lo <= p2 <= hi
    ensures Mul(lo, a + b) <= Mul(a, p2) + Mul(b, p1) <= Mul(hi, a + b)
    ensures lo <= Div(Mul(a, p2) + Mul(b, p1), a + b) <= hi
  {
    MulMonotone(a, a, lo, p2);
    MulMonotone(b, b, lo, p1);
    MulMonotone(a, a, p2, hi);
    MulMonotone(b, b, p1, hi);
    MulDistributes(a, b, lo);
    MulDistributes(a, b, hi);
    MulCommutes(a + b, lo);
    MulCommutes(a + b, hi);
    DivAtLeast(Mul(a, p2) + Mul(b, p1), lo, a + b);
    DivAtMost(Mul(a, p2) + Mul(b, p1), hi, a + b);
  }

  lemma Weights(a: nat, b: nat, p1: byte, p2: byte)
    requires a + b > 0
    ensures Min(p1, p2) <= Div(Mul(a, p2) + Mul(b, p1), a + b) <= Max(p1, p2)
    ensures Mul(a, p2) + Mul(b, p1) <= 255 * (a + b)
  {
    MeanBetween(a, b, p1, p2, Min(p1, p2), Max(p1, p2));
    MeanBetween(a, b, p1, p2, 0, 255);
    MulIsProduct(255, a + b);
  }

  /** The same with the operators of the source. */
  lemma InterpolatedIsMean(y1: nat, y2: nat, y: nat, p1: byte, p2: byte)
    requires y1 <= y < y2
    ensures Interpolated(y1, y2, y, p1, p2) == ((y - y1) * p2 + (y2 - y) * p1) / (y2 - y1)
  {
    MulIsProduct(y - y1, p2);
    MulIsProduct(y2 - y, p1);
    DivIsQuotient(Mul(y - y1, p2) + Mul(y2 - y, p1), y2 - y1);
  }

  function PixelBetween(ctx: Context, offsets: seq<int>, i: nat, k: nat, x: int): byte
    requires i < 2 * |offsets| && LiesBetween(ctx, offsets, i, k)
  {
    Interpolated(Y(ctx, offsets, i), Y(ctx, offsets, i + 1), k * ONE, ctx.getPixel(i, x), ctx.getPixel(i + 1, x))
  }

  /** `v` is pixel `x` of output row `k`: interpolated between the lines around the row. */
  ghost predicate IsPixel(ctx: Context, offsets: seq<int>, n: nat, k: nat, x: int, v: byte)
    requires n <= 2 * |offsets|
  {
    exists i: nat :: i < n && LiesBetween(ctx, offsets, i, k) && v == PixelBetween(ctx, offsets, i, k, x)
  }

  /** interpolate_lines: the row of the output that starts at `base`. */
  method InterpolateLines(ctx: Context, line: nat, y1: nat, y2: nat, output: array<byte>, base: nat, y: nat)
    requires y1 <= y < y2 && 255 * (y2 - y1) < INT_LIMIT
    requires base + ctx.lineWidth <= output.Length
    modifies output
    ensures forall x :: 0 <= x < ctx.lineWidth ==>
              output[base + x] == Interpolated(y1, y2, y, ctx.getPixel(line, x), ctx.getPixel(line + 1, x))
    ensures forall p :: 0 <= p < output.Length && !(base <= p < base + ctx.lineWidth) ==> output[p] == old(output[p])
  {
    for i := 0 to ctx.lineWidth
      invariant forall x :: 0 <= x < i ==>
                  output[base + x] == Interpolated(y1, y2, y, ctx.getPixel(line, x), ctx.getPixel(line + 1, x))
      invariant forall p :: 0 <= p < output.Length && !(base <= p < base + i) ==> output[p] == old(output[p])
    {
      var p1, p2 := ctx.getPixel(line, i), ctx.getPixel(line + 1, i);
      Weights(y - y1, y2 - y, p1, p2);
      var unscaled := Mul(y - y1, p2) + Mul(y2 - y, p1);
      assert unscaled < INT_LIMIT;
      output[base + i] := Div(unscaled, y2 - y1);
    }
  }

  // ---------------------------------------------------------------- the output

  /** The integers of the computation fit their 32-bit types. */
  ghost predicate InRange(ctx: Context, offsets: seq<int>, n: nat)
    requires n <= 2 * |offsets|
  {
    && 255 * (ctx.resolution * ONE) < INT_LIMIT
    && Y(ctx, offsets, n) + ONE <= INT_LIMIT
    && ctx.maxHeight >= 1
  }

  function CeilRows(y: nat): nat {
    (y + ONE - 1) / ONE
  }

  lemma LineStepBound(ctx: Context, offset: int)
    ensures LineStep(ctx, offset) <= ctx.resolution * ONE
  {
    if offset > 0 {
      MulIsProduct(ctx.resolution * ONE, offset);
      assert ctx.resolution * ONE * offset >= ctx.resolution * ONE;
      DivAtMost(ctx.resolution * ONE, ctx.resolution * ONE, offset);
    }
  }

  /** The first `rows` rows of the output are complete. */
  ghost predicate RowsDone(ctx: Context, offsets: seq<int>, n: nat, output: seq<byte>, rows: nat)
    requires n <= 2 * |offsets| && rows <= ctx.maxHeight && |output| == Mul(ctx.maxHeight, ctx.lineWidth)
  {
    forall k, x {:trigger At(x, k, ctx.lineWidth, ctx.maxHeight)} | 0 <= k < rows && 0 <= x < ctx.lineWidth ::
      IsPixel(ctx, offsets, n, k, x, output[At(x, k, ctx.lineWidth, ctx.maxHeight)])
  }

  /** The inner loop: all rows between line `i` and the next, as far as the height allows. */
  method EmitRows(ctx: Context, offsets: seq<int>, n: nat, i: nat, output: array<byte>, lineInd0: nat)
    returns (lineInd: nat, full: bool)
    requires i < n <= 2 * |offsets| && InRange(ctx, offsets, n)
    requires output.Length == Mul(ctx.maxHeight, ctx.lineWidth)
    requires lineInd0 <= ctx.maxHeight && lineInd0 * ONE >= Y(ctx, offsets, i)
    requires lineInd0 == 0 || (lineInd0 - 1) * ONE < Y(ctx, offsets, i)
    requires RowsDone(ctx, offsets, n, output[..], lineInd0)
    modifies output
    ensures lineInd0 <= lineInd <= ctx.maxHeight
    ensures RowsDone(ctx, offsets, n, output[..], lineInd)
    ensures lineInd == 0 || (lineInd - 1) * ONE < Y(ctx, offsets, i + 1)
    ensures if full then lineInd == ctx.maxHeight && lineInd * ONE < Y(ctx, offsets, i + 1)
            else lineInd * ONE >= Y(ctx, offsets, i + 1)
  {
    lineInd, full := lineInd0, false;
    var y, ynext := Y(ctx, offsets, i), Y(ctx, offsets, i + 1);
    YMonotone(ctx, offsets, i + 1, n);
    LineStepBound(ctx, offsets[i / 2]);
    while lineInd * ONE < ynext
      invariant lineInd0 <= lineInd <= ctx.maxHeight && y <= lineInd * ONE
      invariant lineInd == 0 || (lineInd - 1) * ONE < ynext
      invariant RowsDone(ctx, offsets, n, output[..], lineInd)
    {
      if lineInd > ctx.maxHeight - 1 {
        full := true;
        return;
      }
      RowsApart(lineInd, ctx.maxHeight, ctx.lineWidth);
      ghost var before := output[..];
      InterpolateLines(ctx, i, y, ynext, output, Mul(lineInd, ctx.lineWidth), lineInd * ONE);
      RowAdded(ctx, offsets, n, i, before, output[..], lineInd);
      lineInd := lineInd + 1;
    }
  }

  lemma RowAdded(ctx: Context, offsets: seq<int>, n: nat, i: nat, before: seq<byte>, after: seq<byte>, row: nat)
    requires i < n <= 2 * |offsets| && row < ctx.maxHeight && LiesBetween(ctx, offsets, i, row)
    requires |before| == |after| == Mul(ctx.maxHeight, ctx.lineWidth)
    requires RowsDone(ctx, offsets, n, before, row)
    requires Mul(row, ctx.lineWidth) + ctx.lineWidth <= |after|
    requires forall x :: 0 <= x < ctx.lineWidth ==>
               after[Mul(row, ctx.lineWidth) + x] == PixelBetween(ctx, offsets, i, row, x)
    requires forall p :: 0 <= p < Mul(row, ctx.lineWidth) ==> after[p] == before[p]
    ensures RowsDone(ctx, offsets, n, after, row + 1)
  {
    forall k, x {:trigger At(x, k, ctx.lineWidth, ctx.maxHeight)} | 0 <= k < row + 1 && 0 <= x < ctx.lineWidth
      ensures IsPixel(ctx, offsets, n, k, x, after[At(x, k, ctx.lineWidth, ctx.maxHeight)])
    {
      if k < row {
        RowsApart(k, row, ctx.lineWidth);
        assert IsPixel(ctx, offsets, n, k, x, before[At(x, k, ctx.lineWidth, ctx.maxHeight)]);
      } else {
        assert after[Mul(row, ctx.lineWidth) + x] == PixelBetween(ctx, offsets, i, row, x);
      }
    }
  }

  /** Place the lines: the loop over all of them, left early when the image is full. */
  method PlaceLines(ctx: Context, offsets: seq<int>, numLines: nat, output: array<byte>) returns (lineInd: nat)
    requires 2 <= numLines && numLines / 2 == |offsets| && InRange(ctx, offsets, numLines - 1)
    requires output.Length == Mul(ctx.maxHeight, ctx.lineWidth)
    modifies output
    ensures lineInd == Min(ctx.maxHeight, CeilRows(Y(ctx, offsets, numLines - 1)))
    ensures RowsDone(ctx, offsets, numLines - 1, output[..], lineInd)
  {
    lineInd := 0;
    var i := 0;
    var n := numLines - 1;
    while i < n
      invariant i <= n && lineInd <= ctx.maxHeight
      invariant lineInd * ONE >= Y(ctx, offsets, i)
      invariant lineInd == 0 || (lineInd - 1) * ONE < Y(ctx, offsets, i)
      invariant RowsDone(ctx, offsets, n, output[..], lineInd)
    {
      var full;
      lineInd, full := EmitRows(ctx, offsets, n, i, output, lineInd);
      if full {
        YMonotone(ctx, offsets, i + 1, n);
        return;
      }
      i := i + 1;
    }
  }

  /**
   The assembled image: as many rows as the sum of the steps and the height allow, each
   pixel interpolated between the two lines around its row.  Nothing for fewer than two lines.
   */
  method AssembleLines(ctx: Context, numLines: nat)
    returns (img: array<byte>, height: Option<nat>, ghost found: seq<int>, offsets: seq<int>)
    requires ctx.filterSize > 0
    requires numLines >= 2 ==> forall found: seq<int>, offsets: seq<int> ::
               FilteredFrom(ctx, numLines, found, offsets) ==> InRange(ctx, offsets, numLines - 1)
    ensures fresh(img)
    ensures height.None? <==> numLines < 2
    ensures numLines >= 2 ==>
              && FilteredFrom(ctx, numLines, found, offsets)
              && height.value == Min(ctx.maxHeight, CeilRows(Y(ctx, offsets, numLines - 1)))
              && img.Length == Mul(height.value, ctx.lineWidth)
              && forall k, x {:trigger At(x, k, ctx.lineWidth, height.value)} |
                   0 <= k < height.value && 0 <= x < ctx.lineWidth ::
                   IsPixel(ctx, offsets, numLines - 1, k, x, img[At(x, k, ctx.lineWidth, height.value)])
  {
    found, offsets := [], [];
    if numLines < 2 {
      img := new byte[0];
      return img, None, found, offsets;
    }
    found, offsets := FindOffsets(ctx, numLines);
    var rows;
    img, rows := Render(ctx, offsets, numLines);
    height := Some(rows);
  }

  /** Search, then filter all offsets but the last. */
  method FindOffsets(ctx: Context, numLines: nat) returns (ghost found: seq<int>, offsets: seq<int>)
    requires ctx.filterSize > 0 && numLines >= 2
    ensures FilteredFrom(ctx, numLines, found, offsets)
  {
    var a := SearchOffsets(ctx, numLines);
    found := a[..];
    MedianFilter.Filter(a, numLines / 2 - 1, ctx.filterSize);
    offsets := a[..];
    assert a[numLines / 2 - 1] == a[numLines / 2 - 1..][0];
  }

  /** Place the lines in a buffer of the greatest height and keep the rows that are used. */
  method Render(ctx: Context, offsets: seq<int>, numLines: nat) returns (img: array<byte>, rows: nat)
    requires 2 <= numLines && numLines / 2 == |offsets| && InRange(ctx, offsets, numLines - 1)
    ensures fresh(img)
    ensures rows == Min(ctx.maxHeight, CeilRows(Y(ctx, offsets, numLines - 1)))
    ensures img.Length == Mul(rows, ctx.lineWidth)
    ensures forall k, x {:trigger At(x, k, ctx.lineWidth, rows)} | 0 <= k < rows && 0 <= x < ctx.lineWidth ::
              IsPixel(ctx, offsets, numLines - 1, k, x, img[At(x, k, ctx.lineWidth, rows)])
  {
    var output := new byte[Mul(ctx.maxHeight, ctx.lineWidth)](_ => 0);
    rows := PlaceLines(ctx, offsets, numLines, output);
    MulMonotone(rows, ctx.maxHeight, ctx.lineWidth, ctx.lineWidth);
    img := FirstBytes(output, Mul(rows, ctx.lineWidth));
    RowsKept(ctx, offsets, numLines - 1, output[..], img[..], rows);
  }

  /** The part of the output that is used, in an image of its own. */
  method FirstBytes(output: array<byte>, n: nat) returns (img: array<byte>)
    requires n <= output.Length
    ensures fresh(img) && img[..] == output[..n]
  {
    img := new byte[n](i requires 0 <= i < output.Length reads output => output[i]);
  }

  /** Cutting off the rows that are not used leaves the others where they are. */
  lemma RowsKept(ctx: Context, offsets: seq<int>, n: nat, output: seq<byte>, img: seq<byte>, rows: nat)
    requires n <= 2 * |offsets| && rows <= ctx.maxHeight && |output| == Mul(ctx.maxHeight, ctx.lineWidth)
    requires RowsDone(ctx, offsets, n, output, rows)
    requires |img| == Mul(rows, ctx.lineWidth) <= |output| && img == output[..|img|]
    ensures forall k, x {:trigger At(x, k, ctx.lineWidth, rows)} | 0 <= k < rows && 0 <= x < ctx.lineWidth ::
              IsPixel(ctx, offsets, n, k, x, img[At(x, k, ctx.lineWidth, rows)])
  {
    forall k, x {:trigger At(x, k, ctx.lineWidth, rows)} | 0 <= k < rows && 0 <= x < ctx.lineWidth
      ensures IsPixel(ctx, offsets, n, k, x, img[At(x, k, ctx.lineWidth, rows)])
    {
      assert At(x, k, ctx.lineWidth, rows) == At(x, k, ctx.lineWidth, ctx.maxHeight);
    }
  }
}
