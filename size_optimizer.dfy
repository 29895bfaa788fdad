/** The size rule of `optimizeBitmapForBlur`: which bitmaps are blurred at
    their own size and to which size the others are scaled before blurring. */
module SizeOptimizer {
  import opened Arith

  /** `MAX_BITMAP_SIZE`: the pixel count above which a bitmap is scaled down to fit. */
  const MaxBitmapSize: nat := 1024 * 1024

  /** The side length above which a bitmap within the pixel limit is still halved. */
  const SoftMaxSide: nat := 512

  /** What the optimizer does with a bitmap: hand it on as it is, or scale it
      (`Bitmap.createScaledBitmap`) to the given size. */
  datatype SizePlan = Keep | Rescale(width: nat, height: nat)

  /** The largest n <= bound with n * n * den <= num: the integer part of
      sqrt(num / den) whenever that lies below bound. */
  function FloorRoot(num: nat, den: nat, bound: nat): (n: nat)
    requires den > 0
    ensures n <= bound && n * n * den <= num
    ensures n < bound ==> num < (n + 1) * (n + 1) * den
    decreases bound
  {
    if bound * bound * den <= num then bound else FloorRoot(num, den, bound - 1)
  }

  /** A side of a bitmap with too many pixels after scaling by
      sqrt(MAX_BITMAP_SIZE / (side * other)), rounded toward zero: the
      integer part of sqrt(MAX_BITMAP_SIZE * side / other), computed exactly. */
  function ScaledSide(side: nat, other: nat): (n: nat)
    requires other > 0
    ensures n <= side
    ensures n * n * other <= MaxBitmapSize * side
  {
    FloorRoot(MaxBitmapSize * side, other, side)
  }

  /** The scaled side is the largest that keeps the scaled bitmap within the
      limit: one more would overshoot `side * sqrt(MAX_BITMAP_SIZE / (side * other))`. */
  lemma ScaledSideMaximal(side: nat, other: nat)
    requires other > 0 && side * other > MaxBitmapSize
    ensures MaxBitmapSize * side < (ScaledSide(side, other) + 1) * (ScaledSide(side, other) + 1) * other
  {
    SquareOverLimit(side, other, MaxBitmapSize);
    assert ScaledSide(side, other) < side;
  }

  /** Both sides scaled together never hold more than MAX_BITMAP_SIZE pixels. */
  lemma ScaledWithinLimit(width: nat, height: nat)
    requires width > 0 && height > 0
    ensures ScaledSide(width, height) * ScaledSide(height, width) <= MaxBitmapSize
  {
    ProductOfRoots(ScaledSide(width, height), ScaledSide(height, width), MaxBitmapSize, width, height);
  }

  /** `optimizeBitmapForBlur` as written: over MAX_BITMAP_SIZE pixels both
      sides are scaled by the square-root factor; otherwise a side over 512
      halves both (`(side * 0.5f).toInt()`); otherwise the bitmap is kept.
      A side may come out 0, which `createScaledBitmap` rejects. */
  function OptimizedSizeAsWritten(width: nat, height: nat): (plan: SizePlan)
    ensures plan == Keep <==> width * height <= MaxBitmapSize && width <= SoftMaxSide && height <= SoftMaxSide
  {
    if width * height > MaxBitmapSize then
      Rescale(ScaledSide(width, height), ScaledSide(height, width))
    else if width > SoftMaxSide || height > SoftMaxSide then
      Rescale(width / 2, height / 2)
    else
      Keep
  }

  /** A bitmap one pixel wide and 513 tall is within the pixel limit, is
      halved, and its width becomes 0. */
  lemma HalvingEmptiesThinBitmap()
    ensures OptimizedSizeAsWritten(1, 513) == Rescale(0, 256)
  {
  }

  /** Every bitmap one pixel wide and more than 512 tall that is within the
      pixel limit is planned with width 0. */
  lemma {:induction false} AsWrittenEmptiesThinBitmaps(height: nat)
    requires SoftMaxSide < height <= MaxBitmapSize
    ensures OptimizedSizeAsWritten(1, height).Rescale?
    ensures OptimizedSizeAsWritten(1, height).width == 0
  {
  }

  /** A bitmap one pixel wide and 2,000,000 tall is over the pixel limit, and
      its scaled width is 0. */
  lemma CeilingEmptiesThinBitmap()
    ensures OptimizedSizeAsWritten(1, 2000000) == Rescale(0, ScaledSide(2000000, 1))
  {
    assert ScaledSide(1, 2000000) == 0;
  }

  function Max1(n: nat): (m: nat)
    ensures m >= 1 && m >= n && (n >= 1 ==> m == n)
  {
    if n >= 1 then n else 1
  }

  /** The size rule with every scaled side kept at least 1, so that the plan
      always names a bitmap that can be created. */
  function OptimizedSize(width: nat, height: nat): (plan: SizePlan)
    ensures plan == Keep <==> width * height <= MaxBitmapSize && width <= SoftMaxSide && height <= SoftMaxSide
    ensures plan.Rescale? ==> plan.width >= 1 && plan.height >= 1
  {
    if width * height > MaxBitmapSize then
      Rescale(Max1(ScaledSide(width, height)), Max1(ScaledSide(height, width)))
    else if width > SoftMaxSide || height > SoftMaxSide then
      Rescale(Max1(width / 2), Max1(height / 2))
    else
      Keep
  }

  /** The corrected rule differs from the one as written only where the
      written one plans a side of 0. */
  lemma OptimizedSizeAgrees(width: nat, height: nat)
    ensures OptimizedSize(width, height) != OptimizedSizeAsWritten(width, height) ==>
              OptimizedSizeAsWritten(width, height).Rescale? &&
              (OptimizedSizeAsWritten(width, height).width == 0 || OptimizedSizeAsWritten(width, height).height == 0)
  {
  }

  /** Scaling never enlarges a real bitmap: each side stays between 1 and
      what it was. */
  lemma OptimizedNeverGrows(width: nat, height: nat)
    requires width > 0 && height > 0
    ensures OptimizedSize(width, height).Rescale? ==>
              1 <= OptimizedSize(width, height).width <= width && 1 <= OptimizedSize(width, height).height <= height
  {
  }

  /** Below the pixel limit with a side over 512, both sides are halved
      (rounded down) and nothing else happens. */
  lemma OptimizedHalves(width: nat, height: nat)
    requires 2 <= width && 2 <= height
    requires width * height <= MaxBitmapSize && (width > SoftMaxSide || height > SoftMaxSide)
    ensures OptimizedSize(width, height) == Rescale(width / 2, height / 2)
    ensures 2 * OptimizedSize(width, height).width <= width < 2 * OptimizedSize(width, height).width + 2
  {
  }

  /** A scaled plan never holds more pixels than MAX_BITMAP_SIZE, except when
      a side had to be raised from 0 to 1. */
  lemma OptimizedWithinLimit(width: nat, height: nat)
    requires width > 0 && height > 0
    ensures OptimizedSize(width, height).Rescale? ==>
              OptimizedSize(width, height).width * OptimizedSize(width, height).height <= MaxBitmapSize ||
              OptimizedSize(width, height).width == 1 || OptimizedSize(width, height).height == 1
  {
    if width * height > MaxBitmapSize {
      ScaledWithinLimit(width, height);
    } else if width > SoftMaxSide || height > SoftMaxSide {
      MulLe(width / 2, width, height / 2);
      MulLe(height / 2, height, width);
    }
  }
}
