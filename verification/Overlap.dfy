/** Searching for the movement between two frames of a swipe. */
module Overlap {
  import opened Common

  /** A frame by its pixels; `width` and `height` are those of the sensor. */
  datatype Context = Context(width: nat, height: nat)

  type Pixels = (int, int) -> byte

  const INT_MAX: int := 0x7FFF_FFFF

  function Abs(x: int): nat {
    if x < 0 then -x else x
  }

  /** The sizes for which the unsigned arithmetic below does not wrap around. */
  ghost predicate InRange(ctx: Context) {
    && ctx.width > 8
    && ctx.width < TWO_32 && ctx.height < TWO_32
    && Mul(255 * FrameArea(ctx), FrameArea(ctx)) < TWO_32
  }

  // ---------------------------------------------------------------- the difference of two frames

  /** Sum of absolute differences of `n` pixels of two rows, from columns `c` and `c'` on. */
  function RowDifference(a: Pixels, b: Pixels, c: int, r: int, c': int, r': int, n: nat): nat {
    if n == 0 then 0
    else RowDifference(a, b, c, r, c', r', n - 1) + Abs(a(c + n - 1, r) - b(c' + n - 1, r'))
  }

  /** Sum of absolute differences over the first `rows` rows of the overlap, `width` columns each. */
  function Difference(a: Pixels, b: Pixels, dx: int, dy: int, width: nat, rows: nat): nat {
    if rows == 0 then 0
    else Difference(a, b, dx, dy, width, rows - 1)
         + RowDifference(a, b, Max(dx, 0), rows - 1, Max(-dx, 0), rows - 1 + dy, width)
  }

  function OverlapWidth(ctx: Context, dx: int): int {
    ctx.width - Abs(dx)
  }

  function OverlapHeight(ctx: Context, dy: int): int {
    ctx.height - dy
  }

  /** Pixels of the sensor, and of the overlap of two frames. */
  function FrameArea(ctx: Context): nat {
    Mul(ctx.height, ctx.width)
  }

  function OverlapArea(ctx: Context, dx: int, dy: int): nat
    requires Abs(dx) <= ctx.width && 0 <= dy <= ctx.height
  {
    Mul(OverlapHeight(ctx, dy), OverlapWidth(ctx, dx))
  }

  function OverlapDifference(ctx: Context, a: Pixels, b: Pixels, dx: int, dy: int): nat
    requires Abs(dx) <= ctx.width && 0 <= dy <= ctx.height
  {
    Difference(a, b, dx, dy, OverlapWidth(ctx, dx), OverlapHeight(ctx, dy))
  }

  /** The error of a movement: the difference, scaled from the overlap to the whole frame. */
  function Error(ctx: Context, a: Pixels, b: Pixels, dx: int, dy: int): nat
    requires Abs(dx) < ctx.width && 0 <= dy < ctx.height
  {
    MulPositive(OverlapHeight(ctx, dy), OverlapWidth(ctx, dx));
    Div(Mul(OverlapDifference(ctx, a, b, dx, dy), FrameArea(ctx)), OverlapArea(ctx, dx, dy))
  }

  /** The same with the operators of the source. */
  lemma ErrorIsScaledDifference(ctx: Context, a: Pixels, b: Pixels, dx: int, dy: int)
    requires Abs(dx) < ctx.width && 0 <= dy < ctx.height
    ensures var part := (ctx.height - dy) * (ctx.width - Abs(dx));
            part > 0 && Error(ctx, a, b, dx, dy)
                     == OverlapDifference(ctx, a, b, dx, dy) * (ctx.height * ctx.width) / part
  {
    MulPositive(OverlapHeight(ctx, dy), OverlapWidth(ctx, dx));
    MulIsProduct(ctx.height, ctx.width);
    MulIsProduct(OverlapHeight(ctx, dy), OverlapWidth(ctx, dx));
    MulIsProduct(OverlapDifference(ctx, a, b, dx, dy), FrameArea(ctx));
    DivIsQuotient(Mul(OverlapDifference(ctx, a, b, dx, dy), FrameArea(ctx)), OverlapArea(ctx, dx, dy));
  }

  /** The distance of pixel (c, r) of the first frame from the pixel the movement takes it to. */
  function PixelDistance(a: Pixels, b: Pixels, dx: int, dy: int, c: int, r: int): nat {
    Abs(a(c, r) - b(c - dx, r + dy))
  }

  /** Whether a pixel of one frame lies on the sensor after the movement, too. */
  predicate Overlaps(ctx: Context, dx: int, dy: int, c: int, r: int) {
    0 <= c < ctx.width && 0 <= r < ctx.height && 0 <= c - dx < ctx.width && 0 <= r + dy < ctx.height
  }

  /** Sums over columns and rows of the whole sensor. */
  function RowSum(ctx: Context, a: Pixels, b: Pixels, dx: int, dy: int, r: int, n: nat): nat {
    if n == 0 then 0
    else RowSum(ctx, a, b, dx, dy, r, n - 1)
         + if Overlaps(ctx, dx, dy, n - 1, r) then PixelDistance(a, b, dx, dy, n - 1, r) else 0
  }

  function PixelSum(ctx: Context, a: Pixels, b: Pixels, dx: int, dy: int, n: nat): nat {
    if n == 0 then 0 else PixelSum(ctx, a, b, dx, dy, n - 1) + RowSum(ctx, a, b, dx, dy, n - 1, ctx.width)
  }

  lemma {:induction false} RowIsRowSum(ctx: Context, a: Pixels, b: Pixels, dx: int, dy: int, r: int, n: nat)
    requires Abs(dx) <= ctx.width && 0 <= r < ctx.height && 0 <= r + dy < ctx.height && n <= ctx.width
    ensures var c := Max(dx, 0); var inside := Min(n, c + OverlapWidth(ctx, dx)) - c;
            RowSum(ctx, a, b, dx, dy, r, n)
            == RowDifference(a, b, c, r, Max(-dx, 0), r + dy, if inside < 0 then 0 else inside)
    decreases n
  {
    if n > 0 {
      RowIsRowSum(ctx, a, b, dx, dy, r, n - 1);
    }
  }

  lemma {:induction false} EmptyRow(ctx: Context, a: Pixels, b: Pixels, dx: int, dy: int, r: int, n: nat)
    requires r + dy >= ctx.height
    ensures RowSum(ctx, a, b, dx, dy, r, n) == 0
  {
    if n > 0 {
      EmptyRow(ctx, a, b, dx, dy, r, n - 1);
    }
  }

  lemma {:induction false} RowsArePixelSum(ctx: Context, a: Pixels, b: Pixels, dx: int, dy: int, n: nat)
    requires Abs(dx) <= ctx.width && 0 <= dy <= ctx.height && n <= ctx.height
    ensures PixelSum(ctx, a, b, dx, dy, n)
         == Difference(a, b, dx, dy, OverlapWidth(ctx, dx), Min(n, OverlapHeight(ctx, dy)))
    decreases n
  {
    if n > 0 {
      RowsArePixelSum(ctx, a, b, dx, dy, n - 1);
      if n <= OverlapHeight(ctx, dy) {
        RowIsRowSum(ctx, a, b, dx, dy, n - 1, ctx.width);
      } else {
        EmptyRow(ctx, a, b, dx, dy, n - 1, ctx.width);
      }
    }
  }

  /**
   The difference of two frames is the sum, over all pixels of the sensor that the movement
   keeps on the sensor, of their distances: column c against c - dx, row r against r + dy.
   */
  lemma DifferenceIsPixelSum(ctx: Context, a: Pixels, b: Pixels, dx: int, dy: int)
    requires Abs(dx) <= ctx.width && 0 <= dy <= ctx.height
    ensures OverlapDifference(ctx, a, b, dx, dy) == PixelSum(ctx, a, b, dx, dy, ctx.height)
  {
    RowsArePixelSum(ctx, a, b, dx, dy, ctx.height);
  }

  lemma {:induction false} RowDifferenceBound(a: Pixels, b: Pixels, c: int, r: int, c': int, r': int, n: nat)
    ensures RowDifference(a, b, c, r, c', r', n) <= 255 * n
  {
    if n > 0 {
      RowDifferenceBound(a, b, c, r, c', r', n - 1);
    }
  }

  lemma {:induction false} DifferenceBound(a: Pixels, b: Pixels, dx: int, dy: int, w: nat, rows: nat)
    ensures Difference(a, b, dx, dy, w, rows) <= 255 * Mul(rows, w)
  {
    if rows > 0 {
      DifferenceBound(a, b, dx, dy, w, rows - 1);
      RowDifferenceBound(a, b, Max(dx, 0), rows - 1, Max(-dx, 0), rows - 1 + dy, w);
    }
  }

  /** s <= 255 * part implies s * scale / part <= 255 * scale. */
  lemma DivideScaled(s: nat, scale: nat, part: nat)
    requires part > 0 && s <= 255 * part
    ensures Div(Mul(s, scale), part) <= 255 * scale
  {
    MulMonotone(s, 255 * part, scale, scale);
    MulIsProduct(255 * part, scale);
    MulIsProduct(255 * scale, part);
    assert 255 * part * scale == 255 * scale * part;
    DivAtMost(Mul(s, scale), 255 * scale, part);
  }

  /** No intermediate value of calc_error exceeds 32 bits, and the error stays below the start value. */
  lemma ErrorInRange(ctx: Context, a: Pixels, b: Pixels, dx: int, dy: int)
    requires InRange(ctx) && Abs(dx) < ctx.width && 0 <= dy < ctx.height
    ensures 0 < OverlapArea(ctx, dx, dy) <= FrameArea(ctx) && 255 * FrameArea(ctx) < TWO_32
    ensures OverlapDifference(ctx, a, b, dx, dy) <= 255 * OverlapArea(ctx, dx, dy)
    ensures Mul(OverlapDifference(ctx, a, b, dx, dy), FrameArea(ctx)) < TWO_32
    ensures Error(ctx, a, b, dx, dy) <= 255 * FrameArea(ctx)
  {
    var w, h := OverlapWidth(ctx, dx), OverlapHeight(ctx, dy);
    var all, s := FrameArea(ctx), OverlapDifference(ctx, a, b, dx, dy);
    MulPositive(h, w);
    MulMonotone(h, ctx.height, w, ctx.width);
    DifferenceBound(a, b, dx, dy, w, h);
    MulMonotone(s, 255 * all, all, all);
    MulMonotone(255 * all, 255 * all, 1, all);
    MulIsProduct(255 * all, 1);
    DivideScaled(s, all, OverlapArea(ctx, dx, dy));
  }

  /** The inner loop; every addition is unsigned. */
  method AddRow(a: Pixels, b: Pixels, c: int, r: int, c': int, r': int, width: nat, err0: nat)
    returns (err: nat)
    requires err0 + 255 * width < TWO_32
    ensures err == err0 + RowDifference(a, b, c, r, c', r', width) <= err0 + 255 * width
  {
    err := err0;
    var x1, x2 := c, c';
    var j := 0;
    while j < width
      invariant 0 <= j <= width && x1 == c + j && x2 == c' + j
      invariant err == err0 + RowDifference(a, b, c, r, c', r', j) <= err0 + 255 * j
    {
      err := AddPixels(err, a(x1, r), b(x2, r'));
      j, x1, x2 := j + 1, x1 + 1, x2 + 1;
    }
  }

  /** The unsigned sum of an error and the distance of two pixels. */
  method AddPixels(err: nat, v1: byte, v2: byte) returns (r: nat)
    requires err + 255 < TWO_32
    ensures r == err + Abs(v1 - v2) <= err + 255
  {
    r := AddU32(err, if v1 > v2 then v1 - v2 else v2 - v1);
  }

  method StartColumns(dx: int) returns (x1: int, x2: int)
    ensures x1 == Max(dx, 0) && x2 == Max(-dx, 0)
  {
    x1, x2 := if dx < 0 then 0 else dx, if dx < 0 then -dx else 0;
  }

  /** The loop over the rows of the overlap. */
  method AddRows(a: Pixels, b: Pixels, dx: int, dy: int, width: nat, height: nat) returns (err: nat)
    requires width > 0 && height > 0 && 255 * Mul(height, width) < TWO_32
    ensures err == Difference(a, b, dx, dy, width, height)
  {
    err := 0;
    var i := 0;
    while i < height
      invariant 0 <= i <= height && err == Difference(a, b, dx, dy, width, i) <= 255 * Mul(i, width)
    {
      MulMonotone(i + 1, height, width, width);
      var x1, x2 := StartColumns(dx);
      err := AddRow(a, b, x1, i, x2, i + dy, width, err);
      i := i + 1;
    }
  }

  /** calc_error; an empty overlap counts as worst. */
  method CalcError(ctx: Context, a: Pixels, b: Pixels, dx: int, dy: int) returns (err: nat)
    requires InRange(ctx) && Abs(dx) <= ctx.width && 0 <= dy <= ctx.height
    ensures err == if Abs(dx) == ctx.width || dy == ctx.height then INT_MAX else Error(ctx, a, b, dx, dy)
  {
    var width := ctx.width - (if dx > 0 then dx else -dx);
    var height := ctx.height - dy;
    if height == 0 || width == 0 {
      return INT_MAX;
    }
    ErrorInRange(ctx, a, b, dx, dy);
    err := AddRows(a, b, dx, dy, width, height);
    U32Id(FrameArea(ctx));
    U32Id(OverlapArea(ctx, dx, dy));
    U32Id(Mul(err, FrameArea(ctx)));
    err := U32(Mul(err, U32(Mul(ctx.height, ctx.width))));
    err := Div(err, U32(Mul(height, width)));
  }

  // ---------------------------------------------------------------- the search

  /** A candidate movement and the order in which the two loops visit it. */
  predicate Candidate(ctx: Context, dx: int, dy: int) {
    2 <= dy < ctx.height && -8 <= dx < 8
  }

  predicate Before(dx: int, dy: int, dx': int, dy': int) {
    dy < dy' || (dy == dy' && dx < dx')
  }

  function StartError(ctx: Context): nat {
    255 * FrameArea(ctx)
  }

  datatype Found = Found(dx: int, dy: int, error: nat)

  /** `f` is the first candidate with the least error, provided that is below the start value. */
  ghost predicate FirstBest(ctx: Context, a: Pixels, b: Pixels, f: Found) {
    && ctx.width > 8
    && Candidate(ctx, f.dx, f.dy)
    && f.error == Error(ctx, a, b, f.dx, f.dy) < StartError(ctx)
    && (forall dx, dy :: Candidate(ctx, dx, dy) ==> f.error <= Error(ctx, a, b, dx, dy))
    && (forall dx, dy :: Candidate(ctx, dx, dy) && Before(dx, dy, f.dx, f.dy) ==>
          f.error < Error(ctx, a, b, dx, dy))
  }

  ghost predicate NothingBetter(ctx: Context, a: Pixels, b: Pixels) {
    && ctx.width > 8
    && forall dx, dy :: Candidate(ctx, dx, dy) ==> Error(ctx, a, b, dx, dy) >= StartError(ctx)
  }

  /** What has been found before candidate (x, y) is visited. */
  ghost predicate BestSoFar(ctx: Context, a: Pixels, b: Pixels, f: Option<Found>, min: nat, x: int, y: int)
    requires ctx.width > 8
  {
    && min == (if f.None? then StartError(ctx) else f.value.error)
    && (f.Some? ==>
          && Candidate(ctx, f.value.dx, f.value.dy) && Before(f.value.dx, f.value.dy, x, y)
          && min == Error(ctx, a, b, f.value.dx, f.value.dy) < StartError(ctx)
          && (forall dx, dy :: Candidate(ctx, dx, dy) && Before(dx, dy, f.value.dx, f.value.dy) ==>
                min < Error(ctx, a, b, dx, dy)))
    && (forall dx, dy :: Candidate(ctx, dx, dy) && Before(dx, dy, x, y) ==> min <= Error(ctx, a, b, dx, dy))
  }

  lemma Visit(ctx: Context, a: Pixels, b: Pixels, f: Option<Found>, min: nat, dx: int, dy: int)
    requires ctx.width > 8 && Candidate(ctx, dx, dy)
    requires BestSoFar(ctx, a, b, f, min, dx, dy)
    ensures var e := Error(ctx, a, b, dx, dy);
            if e < min then BestSoFar(ctx, a, b, Some(Found(dx, dy, e)), e, dx + 1, dy)
            else BestSoFar(ctx, a, b, f, min, dx + 1, dy)
  {
    assert forall x, y :: Candidate(ctx, x, y) && Before(x, y, dx + 1, dy) ==>
      Before(x, y, dx, dy) || (x == dx && y == dy);
  }

  lemma RowDone(ctx: Context, a: Pixels, b: Pixels, f: Option<Found>, min: nat, dy: int)
    requires ctx.width > 8
    requires BestSoFar(ctx, a, b, f, min, 8, dy)
    ensures BestSoFar(ctx, a, b, f, min, -8, dy + 1)
  {
    assert forall x, y :: Candidate(ctx, x, y) && Before(x, y, -8, dy + 1) ==> Before(x, y, 8, dy);
  }

  lemma SearchDone(ctx: Context, a: Pixels, b: Pixels, f: Option<Found>, min: nat, dy: int)
    requires ctx.width > 8 && dy >= ctx.height
    requires BestSoFar(ctx, a, b, f, min, -8, dy)
    ensures if f.Some? then FirstBest(ctx, a, b, f.value) else NothingBetter(ctx, a, b)
  {
    assert forall x, y :: Candidate(ctx, x, y) ==> Before(x, y, -8, dy);
  }

  /** The out-parameters hold what was found, with the horizontal movement negated. */
  ghost predicate Holds(f: Option<Found>, dxOut: int, dyOut: int, min: nat, dxIn: int, dyIn: int) {
    if f.Some? then f.value == Found(-dxOut, dyOut, min) else dxOut == dxIn && dyOut == dyIn
  }

  /** The inner loop of the search. */
  method SearchRow(ctx: Context, a: Pixels, b: Pixels, dy: int, dxIn: int, dyIn: int,
                   dx0: int, dy0: int, min0: nat, ghost f0: Option<Found>)
    returns (dxOut: int, dyOut: int, minError: nat, ghost f: Option<Found>)
    requires InRange(ctx) && 2 <= dy < ctx.height
    requires BestSoFar(ctx, a, b, f0, min0, -8, dy) && Holds(f0, dx0, dy0, min0, dxIn, dyIn)
    ensures BestSoFar(ctx, a, b, f, minError, 8, dy) && Holds(f, dxOut, dyOut, minError, dxIn, dyIn)
  {
    dxOut, dyOut, minError, f := dx0, dy0, min0, f0;
    var dx := -8;
    while dx < 8
      invariant -8 <= dx <= 8
      invariant BestSoFar(ctx, a, b, f, minError, dx, dy)
      invariant Holds(f, dxOut, dyOut, minError, dxIn, dyIn)
    {
      Visit(ctx, a, b, f, minError, dx, dy);
      var err := CalcError(ctx, a, b, dx, dy);
      if err < minError {
        minError := err;
        dxOut, dyOut := -dx, dy;
        f := Some(Found(dx, dy, err));
      }
      dx := dx + 1;
    }
  }

  /**
   The first best candidate, with the horizontal movement negated; without a candidate
   below the start value the movement is left as it was.
   */
  method FindOverlap(ctx: Context, a: Pixels, b: Pixels, dxIn: int, dyIn: int)
    returns (dxOut: int, dyOut: int, minError: nat)
    requires InRange(ctx)
    ensures FirstBest(ctx, a, b, Found(-dxOut, dyOut, minError))
         || (NothingBetter(ctx, a, b) && dxOut == dxIn && dyOut == dyIn && minError == StartError(ctx))
  {
    dxOut, dyOut := dxIn, dyIn;
    StartInRange(ctx);
    minError := U32(Mul(U32(255 * ctx.height), ctx.width));
    ghost var f: Option<Found> := None;
    var dy := 2;
    while dy < ctx.height
      invariant 2 <= dy
      invariant BestSoFar(ctx, a, b, f, minError, -8, dy)
      invariant Holds(f, dxOut, dyOut, minError, dxIn, dyIn)
    {
      dxOut, dyOut, minError, f := SearchRow(ctx, a, b, dy, dxIn, dyIn, dxOut, dyOut, minError, f);
      RowDone(ctx, a, b, f, minError, dy);
      dy := dy + 1;
    }
    SearchDone(ctx, a, b, f, minError, dy);
  }

  lemma StartInRange(ctx: Context)
    requires InRange(ctx)
    ensures U32(Mul(U32(255 * ctx.height), ctx.width)) == StartError(ctx)
  {
    var all := FrameArea(ctx);
    MulIsProduct(ctx.height, ctx.width);
    MulIsProduct(255 * ctx.height, ctx.width);
    assert 255 * ctx.height * ctx.width == 255 * (ctx.height * ctx.width);
    MulMonotone(255 * ctx.height, 255 * ctx.height, 1, ctx.width);
    MulIsProduct(255 * ctx.height, 1);
    if ctx.height > 0 {
      MulPositive(ctx.height, ctx.width);
      MulMonotone(255 * all, 255 * all, 1, all);
      MulIsProduct(255 * all, 1);
    }
    U32Id(255 * ctx.height);
    U32Id(255 * all);
  }

  /** The result of a search is unique. */
  lemma FirstBestUnique(ctx: Context, a: Pixels, b: Pixels, f: Found, g: Found)
    requires FirstBest(ctx, a, b, f)
    ensures FirstBest(ctx, a, b, g) ==> f == g
    ensures !NothingBetter(ctx, a, b)
  {
    assert Before(f.dx, f.dy, g.dx, g.dy) || Before(g.dx, g.dy, f.dx, f.dy) || (f.dx == g.dx && f.dy == g.dy);
  }

  // ---------------------------------------------------------------- a whole swipe

  datatype Stripe = Stripe(pixels: Pixels, deltaX: int, deltaY: int)

  ghost function Best(ctx: Context, a: Pixels, b: Pixels): (r: Option<Found>)
    ensures forall f :: FirstBest(ctx, a, b, f) ==> r == Some(f)
    ensures NothingBetter(ctx, a, b) ==> r == None
  {
    if exists f :: FirstBest(ctx, a, b, f) then
      var f :| FirstBest(ctx, a, b, f);
      assert forall g :: FirstBest(ctx, a, b, g) ==> f == g by {
        forall g { FirstBestUnique(ctx, a, b, f, g); }
      }
      Some(f)
    else None
  }

  ghost function BestError(ctx: Context, a: Pixels, b: Pixels): nat {
    var r := Best(ctx, a, b);
    if r.Some? then r.value.error else StartError(ctx)
  }

  /** The second of two stripes, searched for in one direction of the swipe or the other. */
  ghost function Estimated(ctx: Context, prev: Pixels, cur: Stripe, reverse: bool): Stripe {
    var r := if reverse then Best(ctx, prev, cur.pixels) else Best(ctx, cur.pixels, prev);
    var sign := if reverse then -1 else 1;
    if r.Some? then cur.(deltaX := -sign * r.value.dx, deltaY := sign * r.value.dy)
    else cur.(deltaX := sign * cur.deltaX, deltaY := sign * cur.deltaY)
  }

  ghost function PairError(ctx: Context, prev: Pixels, cur: Pixels, reverse: bool): nat {
    if reverse then BestError(ctx, prev, cur) else BestError(ctx, cur, prev)
  }

  /** One pass over the first `n` stripes; only the pixels of the stripe before matter. */
  ghost function PassTo(ctx: Context, stripes: seq<Stripe>, n: nat, reverse: bool): (r: seq<Stripe>)
    requires n <= |stripes|
    ensures |r| == n && forall k :: 0 <= k < n ==> r[k].pixels == stripes[k].pixels
  {
    if n <= 1 then stripes[..n]
    else PassTo(ctx, stripes, n - 1, reverse)
         + [Estimated(ctx, stripes[n - 2].pixels, stripes[n - 1], reverse)]
  }

  ghost function Pass(ctx: Context, stripes: seq<Stripe>, reverse: bool): seq<Stripe> {
    PassTo(ctx, stripes, |stripes|, reverse)
  }

  /** The sum of the errors of one pass. */
  ghost function ErrorTo(ctx: Context, stripes: seq<Stripe>, n: nat, reverse: bool): nat
    requires n <= |stripes|
  {
    if n <= 1 then 0
    else ErrorTo(ctx, stripes, n - 1, reverse)
         + PairError(ctx, stripes[n - 2].pixels, stripes[n - 1].pixels, reverse)
  }

  ghost function PassError(ctx: Context, stripes: seq<Stripe>, reverse: bool): nat {
    ErrorTo(ctx, stripes, |stripes|, reverse)
  }

  /** The body of the loop: search, and set the movement of the current stripe. */
  method EstimatePair(ctx: Context, prev: Stripe, cur: Stripe, reverse: bool)
    returns (moved: Stripe, minError: nat)
    requires InRange(ctx)
    ensures moved == Estimated(ctx, prev.pixels, cur, reverse)
    ensures minError == PairError(ctx, prev.pixels, cur.pixels, reverse)
  {
    var dx, dy;
    if reverse {
      dx, dy, minError := FindOverlap(ctx, prev.pixels, cur.pixels, cur.deltaX, cur.deltaY);
      dy := -dy;
      dx := -dx;
    } else {
      dx, dy, minError := FindOverlap(ctx, cur.pixels, prev.pixels, cur.deltaX, cur.deltaY);
    }
    moved := cur.(deltaX := dx, deltaY := dy);
  }

  method EstimateAll(ctx: Context, stripes: seq<Stripe>, reverse: bool)
    returns (result: seq<Stripe>, totalError: nat)
    requires InRange(ctx) && stripes != []
    ensures result == Pass(ctx, stripes, reverse)
    ensures totalError == PassError(ctx, stripes, reverse)
  {
    result := [stripes[0]];
    totalError := 0;
    var i := 1;
    while i < |stripes|
      invariant 1 <= i <= |stripes|
      invariant result == PassTo(ctx, stripes, i, reverse)
      invariant totalError == ErrorTo(ctx, stripes, i, reverse)
    {
      var moved, minError := EstimatePair(ctx, result[i - 1], stripes[i], reverse);
      result := result + [moved];
      totalError := totalError + minError;
      i := i + 1;
    }
  }

  method DoMovementEstimation(ctx: Context, stripes: seq<Stripe>, reverse: bool)
    returns (result: seq<Stripe>, average: nat)
    requires InRange(ctx) && stripes != []
    ensures result == Pass(ctx, stripes, reverse)
    ensures average == Div(PassError(ctx, stripes, reverse), |stripes|)
  {
    var totalError;
    result, totalError := EstimateAll(ctx, stripes, reverse);
    average := Div(totalError, |stripes|);
  }

  /** Forward, reverse, and forward again if that had the smaller average error. */
  ghost function Passes(ctx: Context, stripes: seq<Stripe>): seq<Stripe>
    requires stripes != []
  {
    var f := Pass(ctx, stripes, false);
    var r := Pass(ctx, f, true);
    if Div(PassError(ctx, stripes, false), |stripes|) < Div(PassError(ctx, f, true), |stripes|)
    then Pass(ctx, r, false) else r
  }

  method EstimateMovement(ctx: Context, stripes: seq<Stripe>) returns (result: seq<Stripe>)
    requires InRange(ctx) && stripes != []
    ensures result == Passes(ctx, stripes)
  {
    var err, revErr, again;
    result, err := DoMovementEstimation(ctx, stripes, false);
    result, revErr := DoMovementEstimation(ctx, result, true);
    if err < revErr {
      var r := result;
      result, again := DoMovementEstimation(ctx, r, false);
    }
  }

  ghost predicate PairFound(ctx: Context, a: Pixels, b: Pixels) {
    Best(ctx, a, b).Some? && Best(ctx, b, a).Some?
  }

  /** Every pair of neighbours has a candidate better than the start value, in both directions. */
  ghost predicate AllFound(ctx: Context, stripes: seq<Stripe>) {
    forall i :: 1 <= i < |stripes| ==> PairFound(ctx, stripes[i - 1].pixels, stripes[i].pixels)
  }

  lemma {:induction false} ErrorIgnoresDeltas(ctx: Context, s: seq<Stripe>, t: seq<Stripe>, n: nat, reverse: bool)
    requires n <= |s| == |t| && forall i :: 0 <= i < |s| ==> s[i].pixels == t[i].pixels
    ensures ErrorTo(ctx, s, n, reverse) == ErrorTo(ctx, t, n, reverse)
  {
    if n > 1 {
      ErrorIgnoresDeltas(ctx, s, t, n - 1, reverse);
    }
  }

  lemma EstimateIgnoresDeltas(ctx: Context, prev: Pixels, cur: Stripe, reverse: bool, first: bool)
    requires PairFound(ctx, prev, cur.pixels)
    ensures Estimated(ctx, prev, Estimated(ctx, prev, cur, first), reverse) == Estimated(ctx, prev, cur, reverse)
  {
  }

  lemma {:induction false} PassIgnoresDeltas(ctx: Context, s: seq<Stripe>, p: seq<Stripe>, n: nat, reverse: bool, first: bool)
    requires AllFound(ctx, s) && n <= |s| && p == Pass(ctx, s, first)
    ensures PassTo(ctx, p, n, reverse) == PassTo(ctx, s, n, reverse)
  {
    PassItem(ctx, s, |s|, first, n - 1);
    if n > 1 {
      PassIgnoresDeltas(ctx, s, p, n - 1, reverse, first);
      assert PairFound(ctx, s[n - 2].pixels, s[n - 1].pixels);
      EstimateIgnoresDeltas(ctx, s[n - 2].pixels, s[n - 1], reverse, first);
    }
  }

  lemma {:induction false} PassItem(ctx: Context, s: seq<Stripe>, n: nat, reverse: bool, k: int)
    requires k < n <= |s|
    ensures k > 0 ==> PassTo(ctx, s, n, reverse)[k] == Estimated(ctx, s[k - 1].pixels, s[k], reverse)
    ensures k == 0 ==> PassTo(ctx, s, n, reverse)[k] == s[0]
  {
    if n > 1 && k < n - 1 {
      PassItem(ctx, s, n - 1, reverse, k);
    }
  }

  /**
   The movement a stripe is left with: the one found in the direction of the last pass, else the
   one found in the other direction as seen in this one, else the one it came with, turned around.
   */
  ghost function Settled(ctx: Context, prev: Pixels, cur: Stripe, backward: bool): Stripe {
    var forth, back := Best(ctx, cur.pixels, prev), Best(ctx, prev, cur.pixels);
    if backward then
      if back.Some? then cur.(deltaX := back.value.dx, deltaY := -back.value.dy)
      else if forth.Some? then cur.(deltaX := forth.value.dx, deltaY := -forth.value.dy)
      else cur.(deltaX := -cur.deltaX, deltaY := -cur.deltaY)
    else
      if forth.Some? then cur.(deltaX := -forth.value.dx, deltaY := forth.value.dy)
      else if back.Some? then cur.(deltaX := back.value.dx, deltaY := -back.value.dy)
      else cur.(deltaX := -cur.deltaX, deltaY := -cur.deltaY)
  }

  lemma PairSettles(ctx: Context, prev: Pixels, cur: Stripe)
    ensures var r := Estimated(ctx, prev, Estimated(ctx, prev, cur, false), true);
            && r == Settled(ctx, prev, cur, true)
            && Estimated(ctx, prev, r, false) == Settled(ctx, prev, cur, false)
  {
  }

  /** What the passes leave at stripe `k`. */
  lemma StripeSettles(ctx: Context, s: seq<Stripe>, k: nat)
    requires k < |s|
    ensures var r := Pass(ctx, Pass(ctx, s, false), true); var again := Pass(ctx, r, false);
            && |r| == |again| == |s|
            && (k == 0 ==> r[0] == again[0] == s[0])
            && (k > 0 ==> r[k] == Settled(ctx, s[k - 1].pixels, s[k], true)
                          && again[k] == Settled(ctx, s[k - 1].pixels, s[k], false))
  {
    var f := Pass(ctx, s, false);
    var r := Pass(ctx, f, true);
    PassItem(ctx, s, |s|, false, k);
    PassItem(ctx, f, |s|, true, k);
    PassItem(ctx, r, |s|, false, k);
    if k > 0 {
      PairSettles(ctx, s[k - 1].pixels, s[k]);
    }
  }

  /**
   For every swipe: the direction of the smaller average error wins, reverse on a tie, and each
   stripe is left with what it settles on in that direction.
   */
  lemma MovementSettles(ctx: Context, stripes: seq<Stripe>, result: seq<Stripe>)
    requires stripes != [] && result == Passes(ctx, stripes)
    ensures var backward := Div(PassError(ctx, stripes, true), |stripes|)
                            <= Div(PassError(ctx, stripes, false), |stripes|);
            && |result| == |stripes| && result[0] == stripes[0]
            && forall k :: 1 <= k < |stripes| ==>
                 result[k] == Settled(ctx, stripes[k - 1].pixels, stripes[k], backward)
  {
    var f := Pass(ctx, stripes, false);
    ErrorIgnoresDeltas(ctx, stripes, f, |f|, true);
    StripeSettles(ctx, stripes, 0);
    forall k | 1 <= k < |stripes|
      ensures var backward := Div(PassError(ctx, stripes, true), |stripes|)
                              <= Div(PassError(ctx, stripes, false), |stripes|);
              result[k] == Settled(ctx, stripes[k - 1].pixels, stripes[k], backward)
    {
      StripeSettles(ctx, stripes, k);
    }
  }

  /** Where every pair has a candidate both ways, that is a single pass in the winning direction. */
  lemma BetterDirectionWins(ctx: Context, stripes: seq<Stripe>, result: seq<Stripe>)
    requires stripes != [] && AllFound(ctx, stripes) && result == Passes(ctx, stripes)
    ensures var forward := Div(PassError(ctx, stripes, false), |stripes|);
            var backward := Div(PassError(ctx, stripes, true), |stripes|);
            result == Pass(ctx, stripes, backward <= forward)
  {
    var f := Pass(ctx, stripes, false);
    ErrorIgnoresDeltas(ctx, stripes, f, |f|, true);
    PassIgnoresDeltas(ctx, stripes, f, |f|, true, false);
    PassIgnoresDeltas(ctx, stripes, Pass(ctx, stripes, true), |f|, false, true);
  }
}
