/** Assembling frames of a swipe into one image, each frame placed by the sum of the movements so far. */
module FrameAssembly {
  import opened Common
  import opened Raster

  datatype Frame = Frame(deltaX: int, deltaY: int, data: seq<byte>)

  datatype Context = Context(
    frameWidth: nat, frameHeight: nat, imageWidth: nat, getPixel: (Frame, int, int) -> byte)

  const INT_LIMIT: int := 0x8000_0000

  /** A frame whose top left corner lies at (x, y) covers the pixel (c, r). */
  predicate Covers(ctx: Context, x: int, y: int, c: int, r: int) {
    x <= c < x + ctx.frameWidth && y <= r < y + ctx.frameHeight
  }

  /**
   Copy the part of the stripe that lies inside the image; the starting points are
   computed with unsigned arithmetic.
   */
  method BlitStripe(ctx: Context, img: array<byte>, width: nat, height: nat, stripe: Frame, x: int, y: int)
    requires img.Length == Mul(height, width)
    requires -INT_LIMIT < x < INT_LIMIT && -INT_LIMIT < y < INT_LIMIT
    modifies img
    ensures forall c, r {:trigger At(c, r, width, height)} | 0 <= c < width && 0 <= r < height ::
              img[At(c, r, width, height)]
                == if Covers(ctx, x, y, c, r) then ctx.getPixel(stripe, c - x, r - y)
                   else old(img[At(c, r, width, height)])
  {
    var ix1, fx1 := if x < 0 then 0 else x, if x < 0 then U32(-x) else 0;
    var iy1, fy1 := if y < 0 then 0 else y, if y < 0 then U32(-y) else 0;
    var fy, iy := fy1, iy1;
    while fy < ctx.frameHeight && iy < height
      invariant fy >= 0 && fy == iy - y && iy >= iy1
      invariant forall c, r {:trigger At(c, r, width, height)} | 0 <= c < width && 0 <= r < height ::
                  img[At(c, r, width, height)]
                    == if Covers(ctx, x, y, c, r) && r < iy then ctx.getPixel(stripe, c - x, r - y)
                       else old(img[At(c, r, width, height)])
    {
      BlitRow(ctx, img, width, height, stripe, x, y, ix1, fx1, iy, fy);
      fy, iy := fy + 1, iy + 1;
    }
  }

  /** The inner loop: one row of the stripe. */
  method BlitRow(ctx: Context, img: array<byte>, width: nat, height: nat, stripe: Frame, x: int, y: int,
                 ix1: int, fx1: int, iy: int, fy: int)
    requires img.Length == Mul(height, width)
    requires ix1 == Max(x, 0) && fx1 == ix1 - x
    requires 0 <= iy < height && 0 <= fy < ctx.frameHeight && fy == iy - y
    modifies img
    ensures forall c, r {:trigger At(c, r, width, height)} | 0 <= c < width && 0 <= r < height ::
              img[At(c, r, width, height)]
                == if r == iy && Covers(ctx, x, y, c, r) then ctx.getPixel(stripe, c - x, r - y)
                   else old(img[At(c, r, width, height)])
  {
    var fx, ix := fx1, ix1;
    while fx < ctx.frameWidth && ix < width
      invariant fx >= 0 && fx == ix - x && ix >= ix1
      invariant forall c, r {:trigger At(c, r, width, height)} | 0 <= c < width && 0 <= r < height ::
                  img[At(c, r, width, height)]
                    == if r == iy && Covers(ctx, x, y, c, r) && c < ix then ctx.getPixel(stripe, c - x, r - y)
                       else old(img[At(c, r, width, height)])
    {
      forall c, r | 0 <= c < width && 0 <= r < height && At(c, r, width, height) == At(ix, iy, width, height)
        ensures c == ix && r == iy
      {
        AtInjective(c, r, ix, iy, width, height);
      }
      img[At(ix, iy, width, height)] := ctx.getPixel(stripe, fx, fy);
      fx, ix := fx + 1, ix + 1;
    }
  }

  // ---------------------------------------------------------------- placement

  function SumX(frames: seq<Frame>): int {
    if frames == [] then 0 else SumX(frames[..|frames| - 1]) + frames[|frames| - 1].deltaX
  }

  function SumY(frames: seq<Frame>): int {
    if frames == [] then 0 else SumY(frames[..|frames| - 1]) + frames[|frames| - 1].deltaY
  }

  /** No offset for the first frame. */
  function Anchored(frames: seq<Frame>): seq<Frame>
    requires frames != []
  {
    frames[0 := frames[0].(deltaX := 0, deltaY := 0)]
  }

  function AssembledHeight(ctx: Context, frames: seq<Frame>): int {
    (if SumY(frames) < 0 then -SumY(frames) else SumY(frames)) + ctx.frameHeight
  }

  function StartY(ctx: Context, frames: seq<Frame>): int {
    if SumY(frames) < 0 then AssembledHeight(ctx, frames) - ctx.frameHeight else 0
  }

  /** Half the margin, truncated towards zero as C divides. */
  function StartX(ctx: Context): int {
    var margin := ctx.imageWidth - ctx.frameWidth;
    if margin >= 0 then margin / 2 else -(-margin / 2)
  }

  function X(ctx: Context, frames: seq<Frame>, k: nat): int
    requires k < |frames|
  {
    StartX(ctx) + SumX(frames[..k + 1])
  }

  function Y(ctx: Context, frames: seq<Frame>, k: nat): int
    requires k < |frames|
  {
    StartY(ctx, frames) + SumY(frames[..k + 1])
  }

  /** Stripe `k` covers the pixel. */
  predicate Shows(ctx: Context, frames: seq<Frame>, k: int, c: int, r: int)
    requires 0 <= k < |frames|
  {
    Covers(ctx, X(ctx, frames, k), Y(ctx, frames, k), c, r)
  }

  /** The image as a function: after `n` stripes a pixel shows the last of them that covers it. */
  function PixelAfter(ctx: Context, frames: seq<Frame>, n: nat, c: int, r: int): byte
    requires n <= |frames|
  {
    if n == 0 then 0
    else if Shows(ctx, frames, n - 1, c, r) then
      ctx.getPixel(frames[n - 1], c - X(ctx, frames, n - 1), r - Y(ctx, frames, n - 1))
    else PixelAfter(ctx, frames, n - 1, c, r)
  }

  /** `v` is the pixel of the last stripe covering (c, r), or 0 if no stripe does. */
  ghost predicate ShowsLast(ctx: Context, frames: seq<Frame>, c: int, r: int, v: byte) {
    || (v == 0 && forall k :: 0 <= k < |frames| ==> !Shows(ctx, frames, k, c, r))
    || exists k :: 0 <= k < |frames| && Shows(ctx, frames, k, c, r)
         && v == ctx.getPixel(frames[k], c - X(ctx, frames, k), r - Y(ctx, frames, k))
         && forall l :: k < l < |frames| ==> !Shows(ctx, frames, l, c, r)
  }

  lemma {:induction false} PixelIsLastStripe(ctx: Context, frames: seq<Frame>, n: nat, c: int, r: int)
    requires n <= |frames|
    requires forall l :: n <= l < |frames| ==> !Shows(ctx, frames, l, c, r)
    ensures ShowsLast(ctx, frames, c, r, PixelAfter(ctx, frames, n, c, r))
  {
    if n > 0 && !Shows(ctx, frames, n - 1, c, r) {
      PixelIsLastStripe(ctx, frames, n - 1, c, r);
    }
  }

  /** Sums of movements that keep their sign stay between 0 and the total. */
  lemma {:induction false} SumYBetween(frames: seq<Frame>, k: nat, up: bool)
    requires k <= |frames|
    requires forall i :: 0 <= i < |frames| ==> if up then frames[i].deltaY >= 0 else frames[i].deltaY <= 0
    ensures if up then 0 <= SumY(frames[..k]) <= SumY(frames) else SumY(frames) <= SumY(frames[..k]) <= 0
    decreases |frames|
  {
    if k == |frames| {
      assert frames[..k] == frames;
      if k > 0 {
        SumYBetween(frames[..k - 1], k - 1, up);
        assert frames[..k - 1][..k - 1] == frames[..k - 1];
      }
    } else {
      var init := frames[..|frames| - 1];
      assert init[..k] == frames[..k];
      SumYBetween(init, k, up);
    }
  }

  /** A swipe in one direction: every stripe lies fully inside the height of the image. */
  lemma StripesInsideHeight(ctx: Context, frames: seq<Frame>, k: nat, up: bool)
    requires k < |frames|
    requires forall i :: 0 <= i < |frames| ==> if up then frames[i].deltaY >= 0 else frames[i].deltaY <= 0
    ensures 0 <= Y(ctx, frames, k) <= AssembledHeight(ctx, frames) - ctx.frameHeight
  {
    SumYBetween(frames, k + 1, up);
    SumYBetween(frames, |frames|, up);
    assert frames[..|frames|] == frames;
  }

  /** The first stripe is centred: the margins beside it differ by at most one, and add up to the rest. */
  lemma FirstStripeCentred(ctx: Context)
    ensures var left := StartX(ctx); var right := ctx.imageWidth - ctx.frameWidth - left;
            -1 <= left - right <= 1 && (ctx.imageWidth >= ctx.frameWidth ==> 0 <= left <= right)
            && (ctx.imageWidth < ctx.frameWidth ==> right <= left <= 0)
  {
  }

  /**
   Where the stripes lie: the first one centred, and at the top, or at the bottom if the
   movements add up to a negative one; each next one its own movement away from its predecessor.
   */
  lemma StripePositions(ctx: Context, stripes: seq<Frame>, k: nat)
    requires k < |stripes|
    ensures var frames := Anchored(stripes);
            && |frames| == |stripes|
            && (if k == 0 then
                  && -1 <= 2 * X(ctx, frames, 0) - (ctx.imageWidth - ctx.frameWidth) <= 1
                  && Y(ctx, frames, 0) + ctx.frameHeight
                     == if SumY(frames) < 0 then AssembledHeight(ctx, frames) else ctx.frameHeight
                else
                  && X(ctx, frames, k) == X(ctx, frames, k - 1) + stripes[k].deltaX
                  && Y(ctx, frames, k) == Y(ctx, frames, k - 1) + stripes[k].deltaY)
  {
    var frames := Anchored(stripes);
    FirstStripeCentred(ctx);
    assert frames[..k + 1][..k] == frames[..k];
    if k == 0 {
      assert frames[..0] == [];
      assert SumX(frames[..1]) == 0 && SumY(frames[..1]) == 0;
    }
  }

  /** The height spans the first stripe and the last one. */
  lemma HeightSpansSwipe(ctx: Context, stripes: seq<Frame>)
    requires stripes != []
    ensures var frames := Anchored(stripes); var way := Y(ctx, frames, |frames| - 1) - Y(ctx, frames, 0);
            AssembledHeight(ctx, frames) == ctx.frameHeight + if way < 0 then -way else way
  {
    var frames := Anchored(stripes);
    assert frames[..|frames|] == frames && frames[..1][..0] == [];
    assert SumY(frames[..1]) == 0;
  }

  /** Every running sum, and the position it leads to, fits an int. */
  ghost predicate FitsInt(ctx: Context, frames: seq<Frame>) {
    && ctx.imageWidth < INT_LIMIT && ctx.frameWidth < INT_LIMIT && ctx.frameHeight < INT_LIMIT
    && AssembledHeight(ctx, frames) < INT_LIMIT
    && forall k :: 0 <= k < |frames| ==>
         -INT_LIMIT < X(ctx, frames, k) < INT_LIMIT && -INT_LIMIT < Y(ctx, frames, k) < INT_LIMIT
  }

  method TotalMovement(frames: seq<Frame>) returns (height: int)
    ensures height == SumY(frames)
  {
    height := 0;
    for i := 0 to |frames|
      invariant height == SumY(frames[..i])
    {
      assert frames[..i + 1][..i] == frames[..i];
      height := height + frames[i].deltaY;
    }
    assert frames[..|frames|] == frames;
  }

  method BlitStripes(ctx: Context, img: array<byte>, w: nat, h: nat, frames: seq<Frame>, reverse: bool)
    requires img.Length == Mul(h, w) && FitsInt(ctx, frames)
    requires h == AssembledHeight(ctx, frames) && reverse == (SumY(frames) < 0)
    requires forall p :: 0 <= p < img.Length ==> img[p] == 0
    modifies img
    ensures forall c, r {:trigger At(c, r, w, h)} | 0 <= c < w && 0 <= r < h ::
              img[At(c, r, w, h)] == PixelAfter(ctx, frames, |frames|, c, r)
  {
    var y := if reverse then h - ctx.frameHeight else 0;
    var x := StartX(ctx);
    for k := 0 to |frames|
      invariant x == StartX(ctx) + SumX(frames[..k]) && y == StartY(ctx, frames) + SumY(frames[..k])
      invariant forall c, r {:trigger At(c, r, w, h)} | 0 <= c < w && 0 <= r < h ::
                  img[At(c, r, w, h)] == PixelAfter(ctx, frames, k, c, r)
    {
      assert frames[..k + 1][..k] == frames[..k];
      y := y + frames[k].deltaY;
      x := x + frames[k].deltaX;
      assert x == X(ctx, frames, k) && y == Y(ctx, frames, k);
      BlitStripe(ctx, img, w, h, frames[k], x, y);
    }
  }

  datatype Image = Image(width: nat, height: nat)

  /** The pixels, the size of the image, and the frames with the first one anchored; nothing for no frames. */
  method AssembleFrames(ctx: Context, stripes: seq<Frame>)
    returns (img: array<byte>, size: Option<Image>, frames: seq<Frame>)
    requires stripes != [] ==> FitsInt(ctx, Anchored(stripes))
    ensures fresh(img)
    ensures size.None? <==> stripes == []
    ensures stripes != [] ==>
              && frames == Anchored(stripes)
              && size.value == Image(ctx.imageWidth, AssembledHeight(ctx, frames))
              && img.Length == Mul(size.value.height, size.value.width)
              && forall c, r {:trigger At(c, r, size.value.width, size.value.height)} |
                   0 <= c < size.value.width && 0 <= r < size.value.height ::
                   ShowsLast(ctx, frames, c, r, img[At(c, r, size.value.width, size.value.height)])
  {
    frames := stripes;
    if stripes == [] {
      img := new byte[0];
      return img, None, frames;
    }
    frames := Anchored(stripes);
    var height := TotalMovement(frames);
    var reverse := height < 0;
    if reverse {
      height := -height;
    }
    height := height + ctx.frameHeight;
    img := new byte[Mul(height, ctx.imageWidth)](_ => 0);
    BlitStripes(ctx, img, ctx.imageWidth, height, frames, reverse);
    forall c, r {:trigger At(c, r, ctx.imageWidth, height)} | 0 <= c < ctx.imageWidth && 0 <= r < height
      ensures ShowsLast(ctx, frames, c, r, img[At(c, r, ctx.imageWidth, height)])
    {
      PixelIsLastStripe(ctx, frames, |frames|, c, r);
    }
    size := Some(Image(ctx.imageWidth, height));
  }
}
