/** What the assembled lines are, in the operators of the source. */
module LineMeaning {
  import opened Common
  import opened LineAssembly

  /** The offset found for line `i`: of the lines after it, within reach, the first that deviates least. */
  lemma OffsetMeans(ctx: Context, i: nat, numLines: nat, best: int)
    requires i < numLines - 1 && ctx.maxSearchOffset >= 1
    ensures OffsetOf(ctx, i, numLines, best - i) <==>
              && i < best <= i + ctx.maxSearchOffset && best < numLines
              && (forall j :: i < j <= i + ctx.maxSearchOffset && j < numLines ==>
                    ctx.getDeviation(i, best) <= ctx.getDeviation(i, j))
              && (forall j :: i < j < best ==> ctx.getDeviation(i, best) < ctx.getDeviation(i, j))
  {
    assert i + (best - i) == best;
  }

  /** The first line lies at 0, and each next one a step further: the resolution over the offset. */
  lemma PositionsAdvance(ctx: Context, offsets: seq<int>, i: nat)
    requires i < 2 * |offsets|
    ensures Y(ctx, offsets, 0) == 0
    ensures Y(ctx, offsets, i + 1)
         == Y(ctx, offsets, i) + if offsets[i / 2] > 0 then (ctx.resolution * 0x1_0000) / offsets[i / 2] else 0
  {
    if offsets[i / 2] > 0 {
      DivIsQuotient(ctx.resolution * ONE, offsets[i / 2]);
    }
  }

  /** `y` lists the positions of the lines, as the source adds them up. */
  predicate Positions(ctx: Context, offsets: seq<int>, y: seq<nat>) {
    && 0 < |y| <= 2 * |offsets| + 1
    && y[0] == 0
    && forall i {:trigger y[i]} :: 0 < i < |y| ==>
         var offset := offsets[(i - 1) / 2];
         y[i] == y[i - 1] + if offset > 0 then (ctx.resolution * 0x1_0000) / offset else 0
  }

  lemma {:induction false} PositionsAreY(ctx: Context, offsets: seq<int>, y: seq<nat>, i: nat)
    requires Positions(ctx, offsets, y) && i < |y|
    ensures y[i] == Y(ctx, offsets, i)
  {
    if i > 0 {
      PositionsAreY(ctx, offsets, y, i - 1);
      PositionsAdvance(ctx, offsets, i - 1);
    }
  }

  predicate Between(y: seq<nat>, i: nat, k: nat) {
    i + 1 < |y| && y[i] <= k * 0x1_0000 < y[i + 1]
  }

  /** The mean of two pixels on row `k`, weighted by the distances of their lines. */
  function MeanOnRow(ctx: Context, y: seq<nat>, i: nat, k: nat, x: int): int
    requires Between(y, i, k)
  {
    var p1, p2 := ctx.getPixel(i, x), ctx.getPixel(i + 1, x);
    ((k * 0x1_0000 - y[i]) * p2 + (y[i + 1] - k * 0x1_0000) * p1) / (y[i + 1] - y[i])
  }

  lemma PixelFrom(ctx: Context, offsets: seq<int>, y: seq<nat>, i: nat, k: nat, x: int)
    requires Positions(ctx, offsets, y) && i + 1 < |y|
    ensures LiesBetween(ctx, offsets, i, k) <==> Between(y, i, k)
    ensures Between(y, i, k) ==> PixelBetween(ctx, offsets, i, k, x) == MeanOnRow(ctx, y, i, k, x)
  {
    PositionsAreY(ctx, offsets, y, i);
    PositionsAreY(ctx, offsets, y, i + 1);
    if Between(y, i, k) {
      InterpolatedIsMean(y[i], y[i + 1], k * ONE, ctx.getPixel(i, x), ctx.getPixel(i + 1, x));
    }
  }

  /**
   What a pixel of the output is, for the positions the source adds up: on row `k`, between
   the lines `i` and `i + 1` around it, the mean of their pixels weighted by the distances.
   */
  lemma PixelMeans(ctx: Context, offsets: seq<int>, y: seq<nat>, k: nat, x: int, v: byte)
    requires Positions(ctx, offsets, y)
    ensures IsPixel(ctx, offsets, |y| - 1, k, x, v) <==>
              exists i: nat :: Between(y, i, k) && v == MeanOnRow(ctx, y, i, k, x)
  {
    if IsPixel(ctx, offsets, |y| - 1, k, x, v) {
      var i: nat :| i < |y| - 1 && LiesBetween(ctx, offsets, i, k) && v == PixelBetween(ctx, offsets, i, k, x);
      PixelFrom(ctx, offsets, y, i, k, x);
    }
    if i: nat :| Between(y, i, k) && v == MeanOnRow(ctx, y, i, k, x) {
      PixelFrom(ctx, offsets, y, i, k, x);
    }
  }

  /** The rows that begin before the last line: as many as start in the sum of the steps. */
  lemma HeightMeans(ctx: Context, offsets: seq<int>, y: seq<nat>, k: nat)
    requires Positions(ctx, offsets, y)
    ensures k < CeilRows(Y(ctx, offsets, |y| - 1)) <==> k * 0x1_0000 < y[|y| - 1]
  {
    PositionsAreY(ctx, offsets, y, |y| - 1);
  }
}
