# Jellify blur engine, modelled in Dafny

This project models the Android blur engine of the Jellify blur view. It has two
parts.

The blur performance optimizer (`JellifyBlurPerformanceOptimizer`):
- a cache of blurred bitmaps, keyed by source size, radius and blur type and
  bounded at ten entries, with least-recently-used eviction;
- the size rule that scales large bitmaps down before blurring;
- the fallback two-pass box blur (`fastBoxBlur`) over packed ARGB pixels.

The blur view (`JellifyBlurView`):
- the clamping of the blur amount;
- the blur-type table that turns type and amount into a radius and an overlay colour;
- the `needsUpdate` flag and the redraw that refreshes the blurred background;
- the cropping of the root view's bitmap to the part behind the view;
- the choice between the RenderScript result and the view's own
  one-pass software blur.

Pixels are 32-bit ARGB values, read and written channel by channel. A bitmap
is a width, a height and `width * height` pixels, row by row. The pixel loops
are methods over arrays. Each is proved equal to a function that defines the
blur pixel by pixel. Lemmas about those functions state what the blur
promises:
- a one-colour image is left unchanged;
- no channel leaves the range it spans in the input;
- the divisor is the number of samples.

The cache and the view are classes whose methods keep an invariant: at most
ten cache entries, and for the view, a radius and overlay that always match
its type and amount.

Files:
- `pixels.dfy` (packed pixels, channel means, buffer offsets)
- `arith.dfy` (nonlinear arithmetic facts)
- `box_blur.dfy` (`fastBoxBlur`, `performFallbackBlur`)
- `size_optimizer.dfy` (`optimizeBitmapForBlur`'s size rule)
- `cache_key.dfy` (the key text and its parser)
- `performance_optimizer.dfy` (the cache, `performBlurSync`)
- `software_blur.dfy` (`blurWithSoftware`)
- `blur_style.dfy` (`setBlurAmount`'s clamp, `updateBlurParameters`' table)
- `background_capture.dfy` (`captureViewBackground`)
- `blur_view.dfy` (the view's state and redraw)
- `options.dfy` (an option type)

The Kotlin code holds two software box blurs, and the model keeps both:
- `fastBoxBlur` (`JellifyBlurPerformanceOptimizer.kt`, lines 178-238) never
  writes into a buffer it is reading. Its horizontal pass reads `pixels` and
  writes the separate buffer `temp` allocated at line 180. Its vertical pass
  reads `temp` and writes `pixels`. At the edges it uses a shorter window and
  divides by the number of samples.
- `blurWithSoftware` (`JellifyBlurView.kt`, lines 340-383) is commented "Apply
  a simple box blur" at line 347. It runs one horizontal pass only. It repeats
  the edge pixel to fill the window and always divides by 2r + 1. It writes
  each result back into the `pixels` buffer that later windows of the same row
  still read. This in-place write is the second finding below.

Both blurs test the unclamped radius against 1 (`radius < 1f`) first, and
return an unblurred copy below 1. Only then do they truncate the radius and
clamp it to [1, 10] with `coerceIn`. The model keeps that order.

Where the code has a defect (the findings below), a member whose name ends
in `AsWritten` follows the code as it stands, and the member of the same name
without the suffix is the corrected version. The view's redraw
(`DrawWithBackgroundBlurAsWritten`) and `performBlurSync` (`PerformBlurSync`)
are modelled on the code as written. The corrected members beside them show
what the evidently intended behaviour would guarantee.

## Model

| member | source | states |
|---|---|---|
| Pixels.UnpackPack | android/src/main/java/com/riteshshukla/jellifyblur/JellifyBlurPerformanceOptimizer.kt:204-207 | reading a channel back out of `(a shl 24) or (r shl 16) or (g shl 8) or b` gives the byte it was packed from |
| Pixels.PackUnpack | android/src/main/java/com/riteshshukla/jellifyblur/JellifyBlurPerformanceOptimizer.kt:197-207 | packing the four channels read out of a pixel gives the pixel back, so a pixel is exactly its four channels |
| Pixels.ChannelsDetermine | android/src/main/java/com/riteshshukla/jellifyblur/JellifyBlurPerformanceOptimizer.kt:197-207 | two pixels whose four channels agree are the same pixel |
| Pixels.ChannelSum | android/src/main/java/com/riteshshukla/jellifyblur/JellifyBlurPerformanceOptimizer.kt:195-202 | a channel accumulated over n samples is at most 255 * n |
| Pixels.Mean | android/src/main/java/com/riteshshukla/jellifyblur/JellifyBlurPerformanceOptimizer.kt:204-207 | each channel of the averaged pixel is that channel's total over the samples divided (rounding down) by the number of samples |
| Pixels.ChannelSumBetween | android/src/main/java/com/riteshshukla/jellifyblur/JellifyBlurPerformanceOptimizer.kt:195-202 | when every sample's channel lies in [lo, hi], the channel total lies in [n * lo, n * hi] |
| Pixels.MeanWithin | android/src/main/java/com/riteshshukla/jellifyblur/JellifyBlurPerformanceOptimizer.kt:195-207 | the average of samples whose channel lies in [lo, hi] has that channel in [lo, hi] |
| Pixels.MeanOfUniform | android/src/main/java/com/riteshshukla/jellifyblur/JellifyBlurPerformanceOptimizer.kt:195-207 | the average of samples that are all one pixel is that pixel |
| Pixels.Offset | android/src/main/java/com/riteshshukla/jellifyblur/JellifyBlurPerformanceOptimizer.kt:224 | `y * width + x` addresses a pixel of the buffer, and row and column are recovered from it by division and remainder |
| Pixels.RowOf | android/src/main/java/com/riteshshukla/jellifyblur/JellifyBlurPerformanceOptimizer.kt:224 | every index of a width x height buffer is the offset of its own row and column |
| BoxFilter.WindowStart | android/src/main/java/com/riteshshukla/jellifyblur/JellifyBlurPerformanceOptimizer.kt:192 | `max(0, x - radius)` lies at most radius before x |
| BoxFilter.WindowEnd | android/src/main/java/com/riteshshukla/jellifyblur/JellifyBlurPerformanceOptimizer.kt:193 | `min(width - 1, x + radius)` stays in the row and at most radius after x |
| BoxFilter.WindowSize | android/src/main/java/com/riteshshukla/jellifyblur/JellifyBlurPerformanceOptimizer.kt:192-193 | a window holds between 1 and 2 * radius + 1 samples, and exactly 2 * radius + 1 away from the edges |
| BoxFilter.RowWindowMean | android/src/main/java/com/riteshshukla/jellifyblur/JellifyBlurPerformanceOptimizer.kt:195-207 | the inner loop over a row window returns the per-channel mean of exactly the samples first..last |
| BoxFilter.ColumnWindowMean | android/src/main/java/com/riteshshukla/jellifyblur/JellifyBlurPerformanceOptimizer.kt:219-235 | the inner loop over a column window of `temp` returns the per-channel mean of that column window |
| BoxFilter.HorizontalPixel | android/src/main/java/com/riteshshukla/jellifyblur/JellifyBlurPerformanceOptimizer.kt:186-207 | the pixel computed for (x, y) is the horizontal pass's pixel at `y * width + x` |
| BoxFilter.HorizontalStep | android/src/main/java/com/riteshshukla/jellifyblur/JellifyBlurPerformanceOptimizer.kt:185-207 | one iteration of the x loop sets `temp[y * width + x]` to its window mean and leaves every other entry of `temp` alone |
| BoxFilter.HorizontalRowInto | android/src/main/java/com/riteshshukla/jellifyblur/JellifyBlurPerformanceOptimizer.kt:184-208 | the x loop fills row y of `temp` with the horizontal pass and touches no other row |
| BoxFilter.HorizontalPassInto | android/src/main/java/com/riteshshukla/jellifyblur/JellifyBlurPerformanceOptimizer.kt:183-209 | the horizontal pass leaves in `temp` the row-window mean of every pixel, reading only `pixels` |
| BoxFilter.VerticalColumnInto | android/src/main/java/com/riteshshukla/jellifyblur/JellifyBlurPerformanceOptimizer.kt:213-236 | the y loop for column x writes the column-window means of `temp` into column x of `pixels` and no other column |
| BoxFilter.VerticalPassInto | android/src/main/java/com/riteshshukla/jellifyblur/JellifyBlurPerformanceOptimizer.kt:212-237 | the vertical pass leaves in `pixels` the column-window mean of `temp` for every pixel |
| BoxFilter.FastBoxBlur | android/src/main/java/com/riteshshukla/jellifyblur/JellifyBlurPerformanceOptimizer.kt:178-238 | `fastBoxBlur` replaces the buffer with the horizontal pass followed by the vertical pass of its old contents |
| BoxFilter.HorizontalPassUniform | android/src/main/java/com/riteshshukla/jellifyblur/JellifyBlurPerformanceOptimizer.kt:183-209 | the horizontal pass leaves an image of one colour unchanged |
| BoxFilter.VerticalPassUniform | android/src/main/java/com/riteshshukla/jellifyblur/JellifyBlurPerformanceOptimizer.kt:212-237 | the vertical pass leaves an image of one colour unchanged |
| BoxFilter.BoxBlurUniform | android/src/main/java/com/riteshshukla/jellifyblur/JellifyBlurPerformanceOptimizer.kt:178-238 | the box blur leaves an image of one colour unchanged |
| BoxFilter.HorizontalPassWithin | android/src/main/java/com/riteshshukla/jellifyblur/JellifyBlurPerformanceOptimizer.kt:183-209 | no channel leaves the range it spans in the input after the horizontal pass |
| BoxFilter.VerticalPassWithin | android/src/main/java/com/riteshshukla/jellifyblur/JellifyBlurPerformanceOptimizer.kt:212-237 | no channel leaves the range it spans in `temp` after the vertical pass |
| BoxFilter.BoxBlurWithin | android/src/main/java/com/riteshshukla/jellifyblur/JellifyBlurPerformanceOptimizer.kt:178-238 | no channel of the blurred image leaves the range that channel spans in the input |
| BoxFilter.Truncate | android/src/main/java/com/riteshshukla/jellifyblur/JellifyBlurPerformanceOptimizer.kt:166 | `toInt()` rounds toward zero: within 1 of its argument, on the side of zero |
| BoxFilter.KernelRadius | android/src/main/java/com/riteshshukla/jellifyblur/JellifyBlurPerformanceOptimizer.kt:166 | `radius.toInt().coerceIn(1, 10)` lies in [1, 10], never above a radius of at least 1, and is the integer part of the radius below 10 |
| BoxFilter.FallbackBlur | android/src/main/java/com/riteshshukla/jellifyblur/JellifyBlurPerformanceOptimizer.kt:157-173 | `performFallbackBlur` returns a bitmap of the source's width and height |
| BoxFilter.FallbackBlurUniform | android/src/main/java/com/riteshshukla/jellifyblur/JellifyBlurPerformanceOptimizer.kt:157-173 | a bitmap of one colour comes back unchanged at every radius |
| BoxFilter.FallbackBlurWithin | android/src/main/java/com/riteshshukla/jellifyblur/JellifyBlurPerformanceOptimizer.kt:157-173 | no channel of the result leaves the range it spans in the source |
| BoxFilter.PerformFallbackBlur | android/src/main/java/com/riteshshukla/jellifyblur/JellifyBlurPerformanceOptimizer.kt:157-173 | the copy of the bitmap, unchanged below radius 1, otherwise its pixels box-blurred in place with the kernel radius |
| SizeOptimizer.FloorRoot | android/src/main/java/com/riteshshukla/jellifyblur/JellifyBlurPerformanceOptimizer.kt:124-126 | the largest n up to a bound with n * n * den <= num, that is the integer part of sqrt(num / den) |
| SizeOptimizer.ScaledSide | android/src/main/java/com/riteshshukla/jellifyblur/JellifyBlurPerformanceOptimizer.kt:124-126 | a scaled side never exceeds the old side and keeps `side * sqrt(MAX_BITMAP_SIZE / total)` from above |
| SizeOptimizer.ScaledSideMaximal | android/src/main/java/com/riteshshukla/jellifyblur/JellifyBlurPerformanceOptimizer.kt:124-126 | one more pixel on the scaled side would exceed `side * sqrt(MAX_BITMAP_SIZE / total)` |
| SizeOptimizer.ScaledWithinLimit | android/src/main/java/com/riteshshukla/jellifyblur/JellifyBlurPerformanceOptimizer.kt:123-129 | a bitmap scaled down for exceeding MAX_BITMAP_SIZE holds at most MAX_BITMAP_SIZE pixels |
| SizeOptimizer.OptimizedSizeAsWritten | android/src/main/java/com/riteshshukla/jellifyblur/JellifyBlurPerformanceOptimizer.kt:117-140 | the size rule as written: the bitmap is kept exactly when it is within the pixel limit and no side exceeds 512 |
| SizeOptimizer.HalvingEmptiesThinBitmap | android/src/main/java/com/riteshshukla/jellifyblur/JellifyBlurPerformanceOptimizer.kt:132-137 | a 1 x 513 bitmap is planned as 0 x 256 |
| SizeOptimizer.AsWrittenEmptiesThinBitmaps | android/src/main/java/com/riteshshukla/jellifyblur/JellifyBlurPerformanceOptimizer.kt:132-137 | every bitmap one pixel wide, more than 512 tall and within the pixel limit is planned with width 0 |
| SizeOptimizer.CeilingEmptiesThinBitmap | android/src/main/java/com/riteshshukla/jellifyblur/JellifyBlurPerformanceOptimizer.kt:123-129 | a 1 x 2,000,000 bitmap is scaled to width 0 |
| SizeOptimizer.OptimizedSize | android/src/main/java/com/riteshshukla/jellifyblur/JellifyBlurPerformanceOptimizer.kt:117-140 | the size rule with sides kept at least 1: kept exactly when within both limits, otherwise scaled to a size with positive sides |
| SizeOptimizer.OptimizedSizeAgrees | android/src/main/java/com/riteshshukla/jellifyblur/JellifyBlurPerformanceOptimizer.kt:117-140 | the corrected rule differs from the one as written only where the one as written plans a side of 0 |
| SizeOptimizer.OptimizedNeverGrows | android/src/main/java/com/riteshshukla/jellifyblur/JellifyBlurPerformanceOptimizer.kt:117-140 | a scaled side stays between 1 and the original side |
| SizeOptimizer.OptimizedHalves | android/src/main/java/com/riteshshukla/jellifyblur/JellifyBlurPerformanceOptimizer.kt:132-137 | below the pixel limit with a side over 512, both sides are halved rounding down |
| SizeOptimizer.OptimizedWithinLimit | android/src/main/java/com/riteshshukla/jellifyblur/JellifyBlurPerformanceOptimizer.kt:123-137 | a scaled bitmap holds at most MAX_BITMAP_SIZE pixels unless a side had to be raised to 1 |
| CacheKey.Decimal | android/src/main/java/com/riteshshukla/jellifyblur/JellifyBlurPerformanceOptimizer.kt:244 | a width or height is written as a non-empty string of digits with no leading zero |
| CacheKey.ParseDecimalOfDecimal | android/src/main/java/com/riteshshukla/jellifyblur/JellifyBlurPerformanceOptimizer.kt:244 | reading the digits of a number back gives the number |
| CacheKey.SplitAt | android/src/main/java/com/riteshshukla/jellifyblur/JellifyBlurPerformanceOptimizer.kt:244 | splitting at the first delimiter gives the text before it, which holds no delimiter, and the rest |
| CacheKey.ParseKeyText | android/src/main/java/com/riteshshukla/jellifyblur/JellifyBlurPerformanceOptimizer.kt:244 | a key `<width>x<height>_<radius>_<type>` whose radius text has no underscore parses back into exactly its four fields |
| CacheKey.KeyTextInjective | android/src/main/java/com/riteshshukla/jellifyblur/JellifyBlurPerformanceOptimizer.kt:244 | two such keys are equal exactly when their four fields are equal |
| PerformanceOptimizer.GenerateCacheKey | android/src/main/java/com/riteshshukla/jellifyblur/JellifyBlurPerformanceOptimizer.kt:243-245 | the key reads back as the source's width and height, the radius text and the blur type |
| PerformanceOptimizer.SharedCacheKey | android/src/main/java/com/riteshshukla/jellifyblur/JellifyBlurPerformanceOptimizer.kt:243-245 | two requests share a key exactly when their sources have the same size and their radius texts and blur types agree, whatever their pixels |
| PerformanceOptimizer.EvictedRemovesOne | android/src/main/java/com/riteshshukla/jellifyblur/JellifyBlurPerformanceOptimizer.kt:266-272 | eviction from a non-empty cache removes exactly one entry, one with the smallest timestamp, and keeps every other entry |
| PerformanceOptimizer.InsertedBounded | android/src/main/java/com/riteshshukla/jellifyblur/JellifyBlurPerformanceOptimizer.kt:250-261 | after storing a result the cache holds at most MAX_CACHE_SIZE entries, the new entry under its key, and every other entry unchanged from before |
| PerformanceOptimizer.InsertedKeepsAllWhenRoom | android/src/main/java/com/riteshshukla/jellifyblur/JellifyBlurPerformanceOptimizer.kt:250-261 | storing into a cache with room keeps every earlier entry and grows the cache by one unless the key was present |
| PerformanceOptimizer.OptimizeBitmapForBlurAsWritten | android/src/main/java/com/riteshshukla/jellifyblur/JellifyBlurPerformanceOptimizer.kt:117-140 | `optimizeBitmapForBlur` as written fails (the uncaught `IllegalArgumentException` of `createScaledBitmap`) exactly when the planned size has a side of 0; otherwise it returns the source itself when the plan keeps it and a bitmap of the planned size when it scales |
| PerformanceOptimizer.OptimizeBitmapForBlur | android/src/main/java/com/riteshshukla/jellifyblur/JellifyBlurPerformanceOptimizer.kt:117-140 | with the corrected size rule the result is the source itself or a bitmap of the planned size, never a failure |
| PerformanceOptimizer.OptimizedBitmapNeverGrows | android/src/main/java/com/riteshshukla/jellifyblur/JellifyBlurPerformanceOptimizer.kt:117-140 | for a bitmap with an area the corrected result has sides between 1 and the source's, and it equals the result as written wherever that one succeeds |
| PerformanceOptimizer.BlurPipelineAsWritten | android/src/main/java/com/riteshshukla/jellifyblur/JellifyBlurPerformanceOptimizer.kt:88-99 | the miss as written yields no bitmap exactly when the optimizer throws |
| PerformanceOptimizer.BlurPipeline | android/src/main/java/com/riteshshukla/jellifyblur/JellifyBlurPerformanceOptimizer.kt:88-99 | the corrected miss yields a bitmap of the planned size: the source's size when the plan keeps it, the scaled size otherwise |
| PerformanceOptimizer.PipelineAgrees | android/src/main/java/com/riteshshukla/jellifyblur/JellifyBlurPerformanceOptimizer.kt:88-99 | the miss as written fails exactly when the planned size has a side of 0, and otherwise yields the corrected miss's bitmap |
| PerformanceOptimizer.PipelineSize | android/src/main/java/com/riteshshukla/jellifyblur/JellifyBlurPerformanceOptimizer.kt:88-99 | for a source with an area, the corrected miss yields a bitmap whose sides lie between 1 and the source's |
| PerformanceOptimizer.PipelineFailsOnThinBitmap | android/src/main/java/com/riteshshukla/jellifyblur/JellifyBlurPerformanceOptimizer.kt:88-99 | as written, a source one pixel wide and more than 512 tall within the pixel limit makes the miss fail |
| PerformanceOptimizer.PipelineBelowOne | android/src/main/java/com/riteshshukla/jellifyblur/JellifyBlurPerformanceOptimizer.kt:88-99 | any radius below 1 yields the optimized bitmap unblurred, as written and corrected |
| PerformanceOptimizer.PipelineKeepsSmall | android/src/main/java/com/riteshshukla/jellifyblur/JellifyBlurPerformanceOptimizer.kt:88-99 | a bitmap within both size limits is blurred at its own size without failing, and at radius 1 or more its pixels are the box blur with the kernel radius |
| PerformanceOptimizer.PipelineUniformSmall | android/src/main/java/com/riteshshukla/jellifyblur/JellifyBlurPerformanceOptimizer.kt:88-99 | a bitmap within both size limits and of one colour comes back unchanged |
| PerformanceOptimizer.BlurPerformanceOptimizer.constructor | android/src/main/java/com/riteshshukla/jellifyblur/JellifyBlurPerformanceOptimizer.kt:42 | the cache starts empty |
| PerformanceOptimizer.BlurPerformanceOptimizer.OldestKey | android/src/main/java/com/riteshshukla/jellifyblur/JellifyBlurPerformanceOptimizer.kt:267 | `minByOrNull` over timestamps gives no key exactly for an empty cache, and otherwise a key with the smallest timestamp |
| PerformanceOptimizer.BlurPerformanceOptimizer.EvictLeastRecentlyUsed | android/src/main/java/com/riteshshukla/jellifyblur/JellifyBlurPerformanceOptimizer.kt:266-272 | the cache after eviction is the cache before minus one oldest entry, or unchanged when empty, and stays within MAX_CACHE_SIZE |
| PerformanceOptimizer.BlurPerformanceOptimizer.CacheBlurResult | android/src/main/java/com/riteshshukla/jellifyblur/JellifyBlurPerformanceOptimizer.kt:250-261 | evict when the cache is full, then store the bitmap with the current time and access count 1; the cache stays within MAX_CACHE_SIZE |
| PerformanceOptimizer.BlurPerformanceOptimizer.ClearCache | android/src/main/java/com/riteshshukla/jellifyblur/JellifyBlurPerformanceOptimizer.kt:277-284 | the cache is empty afterwards |
| PerformanceOptimizer.BlurOnMiss | android/src/main/java/com/riteshshukla/jellifyblur/JellifyBlurPerformanceOptimizer.kt:88-99 | the miss branch as written: no bitmap when the optimizer throws, otherwise the source scaled to its planned size, unblurred at radius 0 or less and otherwise put through the fallback blur |
| PerformanceOptimizer.BlurPerformanceOptimizer.RecordHit | android/src/main/java/com/riteshshukla/jellifyblur/JellifyBlurPerformanceOptimizer.kt:78-86 | a hit returns the stored bitmap, and only that entry changes: one more access, timestamp `now` |
| PerformanceOptimizer.BlurPerformanceOptimizer.MissAndStore | android/src/main/java/com/riteshshukla/jellifyblur/JellifyBlurPerformanceOptimizer.kt:88-104 | the miss's result is stored as a new entry; when the optimizer throws, the cache is left as it was |
| PerformanceOptimizer.BlurPerformanceOptimizer.PerformBlurForKey | android/src/main/java/com/riteshshukla/jellifyblur/JellifyBlurPerformanceOptimizer.kt:77-111 | under a given key, a hit returns the stored bitmap and refreshes only that entry's timestamp and count; a miss returns the pipeline as written and stores its result as a new entry, or, when the optimizer throws, returns nothing and leaves the cache as it was |
| PerformanceOptimizer.BlurPerformanceOptimizer.PerformBlurSync | android/src/main/java/com/riteshshukla/jellifyblur/JellifyBlurPerformanceOptimizer.kt:74-112 | the same hit and miss outcomes under the key `generateCacheKey` gives the request |
| RowBoxBlur.ClampIndex | android/src/main/java/com/riteshshukla/jellifyblur/JellifyBlurView.kt:361 | `coerceIn(0, size - 1)` keeps an index inside the row and changes only indices outside it |
| RowBoxBlur.ClampedWindow | android/src/main/java/com/riteshshukla/jellifyblur/JellifyBlurView.kt:360-362 | a pixel's window always holds 2 * radius + 1 samples, edge pixels repeated |
| RowBoxBlur.ClampedWindowElements | android/src/main/java/com/riteshshukla/jellifyblur/JellifyBlurView.kt:360-362 | every sample of a window is a pixel of the row |
| RowBoxBlur.ClampedWindowOfOne | android/src/main/java/com/riteshshukla/jellifyblur/JellifyBlurView.kt:360-362 | at radius 1 the window is the left neighbour, the pixel and the right neighbour, each clamped into the row |
| RowBoxBlur.RowSlice | android/src/main/java/com/riteshshukla/jellifyblur/JellifyBlurView.kt:362 | row y of the buffer is the `width` pixels starting at `y * width` |
| RowBoxBlur.SweepPrefix | android/src/main/java/com/riteshshukla/jellifyblur/JellifyBlurView.kt:353-375 | after the first x steps of the in-place pass, the pixels from x on are still the original ones |
| RowBoxBlur.SweepPrefixSettled | android/src/main/java/com/riteshshukla/jellifyblur/JellifyBlurView.kt:353-375 | once pixel k has been written, later steps of the pass do not change it |
| RowBoxBlur.SweptImageRow | android/src/main/java/com/riteshshukla/jellifyblur/JellifyBlurView.kt:352-376 | each row of the in-place result is the in-place pass over that row alone |
| RowBoxBlur.SweptImageUniform | android/src/main/java/com/riteshshukla/jellifyblur/JellifyBlurView.kt:352-376 | the in-place pass leaves a buffer of one colour unchanged |
| RowBoxBlur.SweptImageWithin | android/src/main/java/com/riteshshukla/jellifyblur/JellifyBlurView.kt:352-376 | after the in-place pass no channel leaves the range it spans in the buffer |
| RowBoxBlur.SweepPrefixWithin | android/src/main/java/com/riteshshukla/jellifyblur/JellifyBlurView.kt:364-374 | the in-place pass keeps every channel within the range it spans in the row |
| RowBoxBlur.SweepPrefixUniform | android/src/main/java/com/riteshshukla/jellifyblur/JellifyBlurView.kt:364-374 | the in-place pass leaves a row of one colour unchanged |
| RowBoxBlur.ClampedBoxBlurAt | android/src/main/java/com/riteshshukla/jellifyblur/JellifyBlurView.kt:353-374 | each pixel of the corrected blur is the mean of its clamped window in the unmodified row |
| RowBoxBlur.ClampedBoxBlurDivisor | android/src/main/java/com/riteshshukla/jellifyblur/JellifyBlurView.kt:360-374 | each channel is the window's channel total divided by exactly 2 * radius + 1 |
| RowBoxBlur.ClampedBoxBlurUniform | android/src/main/java/com/riteshshukla/jellifyblur/JellifyBlurView.kt:352-376 | an image of one colour comes back unchanged |
| RowBoxBlur.ClampedBoxBlurWithin | android/src/main/java/com/riteshshukla/jellifyblur/JellifyBlurView.kt:352-376 | no channel leaves the range it spans in the source |
| RowBoxBlur.FirstColumnAgrees | android/src/main/java/com/riteshshukla/jellifyblur/JellifyBlurView.kt:353-374 | the in-place pass and the corrected blur agree on the first column of every row |
| RowBoxBlur.SecondColumnReadsBlurredFirst | android/src/main/java/com/riteshshukla/jellifyblur/JellifyBlurView.kt:362-371 | as written, the second pixel of a row averages the already blurred first pixel |
| RowBoxBlur.InPlaceSweepDiffers | android/src/main/java/com/riteshshukla/jellifyblur/JellifyBlurView.kt:353-374 | on the row blue, black, black at radius 1 the pass as written gives blue 56 in the middle where the box mean is blue 85 |
| RowBoxBlur.ClampedWindowMean | android/src/main/java/com/riteshshukla/jellifyblur/JellifyBlurView.kt:354-369 | the inner loop returns the per-channel mean of the pixel's clamped window in the current row |
| RowBoxBlur.SweepStep | android/src/main/java/com/riteshshukla/jellifyblur/JellifyBlurView.kt:360-374 | one iteration writes pixel x of the row from the partly rewritten row and leaves every pixel outside the row alone |
| RowBoxBlur.SweepRowInPlace | android/src/main/java/com/riteshshukla/jellifyblur/JellifyBlurView.kt:353-375 | the x loop turns the row into the in-place pass over it and leaves every other row alone |
| RowBoxBlur.SweepRowOfImage | android/src/main/java/com/riteshshukla/jellifyblur/JellifyBlurView.kt:352-376 | one more row of the buffer holds its in-place pass and the rows after it are untouched |
| RowBoxBlur.SoftwareBlurInPlace | android/src/main/java/com/riteshshukla/jellifyblur/JellifyBlurView.kt:352-376 | the loops as written leave the buffer equal to the row-by-row in-place pass of its old contents |
| RowBoxBlur.ClampedPixel | android/src/main/java/com/riteshshukla/jellifyblur/JellifyBlurView.kt:354-374 | the pixel computed from the copy is the corrected blur's pixel at `y * width + x` |
| RowBoxBlur.BoxStepFromCopy | android/src/main/java/com/riteshshukla/jellifyblur/JellifyBlurView.kt:360-374 | one iteration reading from the copy writes the corrected pixel at `y * width + x` and nothing else |
| RowBoxBlur.BoxRowFromCopy | android/src/main/java/com/riteshshukla/jellifyblur/JellifyBlurView.kt:353-375 | the x loop reading from the copy writes row y of the corrected blur and no other row |
| RowBoxBlur.BlurRowsFromCopy | android/src/main/java/com/riteshshukla/jellifyblur/JellifyBlurView.kt:352-376 | the loops reading from an unmodified copy leave the buffer equal to the corrected blur of the source |
| RowBoxBlur.SoftwareBlurAsWritten | android/src/main/java/com/riteshshukla/jellifyblur/JellifyBlurView.kt:340-383 | `blurWithSoftware` as written returns a bitmap of the source's width and height |
| RowBoxBlur.SoftwareBlur | android/src/main/java/com/riteshshukla/jellifyblur/JellifyBlurView.kt:340-383 | the corrected software blur returns a bitmap of the source's width and height |
| RowBoxBlur.SoftwareBlurAsWrittenUniform | android/src/main/java/com/riteshshukla/jellifyblur/JellifyBlurView.kt:340-383 | `blurWithSoftware` as written returns a background of one colour unchanged at every radius |
| RowBoxBlur.SoftwareBlurAsWrittenWithin | android/src/main/java/com/riteshshukla/jellifyblur/JellifyBlurView.kt:340-383 | `blurWithSoftware` as written keeps every channel within the range it spans in the source |
| RowBoxBlur.SoftwareBlurAsWrittenRows | android/src/main/java/com/riteshshukla/jellifyblur/JellifyBlurView.kt:344-376 | as written, at radius 1 or more row y of the result is that row swept in place with k the radius truncated into [1, 10], and its first pixel is the plain mean of its window; later pixels read neighbours already written (see `InPlaceSweepDiffers`) |
| RowBoxBlur.SoftwareBlurUniform | android/src/main/java/com/riteshshukla/jellifyblur/JellifyBlurView.kt:340-383 | the corrected blur returns a background of one colour unchanged at every radius |
| RowBoxBlur.SoftwareBlurDivisor | android/src/main/java/com/riteshshukla/jellifyblur/JellifyBlurView.kt:344-374 | in the corrected blur at radius 1 or more each channel is the clamped window total over 2k + 1 samples divided by 2k + 1, with k the radius truncated into [1, 10] |
| RowBoxBlur.SoftwareBlurWithin | android/src/main/java/com/riteshshukla/jellifyblur/JellifyBlurView.kt:340-383 | the corrected blur keeps every channel within the range it spans in the source |
| RowBoxBlur.BlurWithSoftwareAsWritten | android/src/main/java/com/riteshshukla/jellifyblur/JellifyBlurView.kt:340-383 | a copy below radius 1, otherwise the buffer after the in-place pass |
| RowBoxBlur.BlurWithSoftware | android/src/main/java/com/riteshshukla/jellifyblur/JellifyBlurView.kt:340-383 | a copy below radius 1, otherwise the buffer after the pass reading from an unmodified copy |
| BlurStyle.StyleOf | android/src/main/java/com/riteshshukla/jellifyblur/JellifyBlurView.kt:115-161 | every blur type maps to a radius scale in [4, 12] and an overlay opacity in [0.2, 0.85] |
| BlurStyle.UnknownTypeIsRegular | android/src/main/java/com/riteshshukla/jellifyblur/JellifyBlurView.kt:156-160 | a type the table does not name is styled exactly as "regular" |
| BlurStyle.ClampAmount | android/src/main/java/com/riteshshukla/jellifyblur/JellifyBlurView.kt:87 | the amount is kept in [0, 100], unchanged inside it, 0 below and 100 above |
| BlurStyle.ClampAmountIdempotent | android/src/main/java/com/riteshshukla/jellifyblur/JellifyBlurView.kt:87 | clamping twice is clamping once |
| BlurStyle.BlurRadiusFor | android/src/main/java/com/riteshshukla/jellifyblur/JellifyBlurView.kt:112-164 | the radius lies in [0.1, 25] |
| BlurStyle.BlurRadiusWithinScale | android/src/main/java/com/riteshshukla/jellifyblur/JellifyBlurView.kt:112-164 | for an amount in [0, 100] the radius is the intensity times the type's scale raised to 0.1, and never reaches the cap of 25 |
| BlurStyle.BlurRadiusMonotone | android/src/main/java/com/riteshshukla/jellifyblur/JellifyBlurView.kt:112-164 | a larger amount never gives a smaller radius |
| BlurStyle.OverlayAlpha | android/src/main/java/com/riteshshukla/jellifyblur/JellifyBlurView.kt:118 | the alpha is `opacity * intensity * 255` rounded toward zero |
| BlurStyle.OverlayColorFor | android/src/main/java/com/riteshshukla/jellifyblur/JellifyBlurView.kt:115-161 | the overlay's alpha is the type's opacity times the intensity, and its red, green and blue are the type's shade |
| BlurStyle.OverlayAlphaBounds | android/src/main/java/com/riteshshukla/jellifyblur/JellifyBlurView.kt:115-161 | the overlay is invisible at amount 0 and its alpha never exceeds 216 (85% of 255) |
| BackgroundCapture.ClampToBitmap | android/src/main/java/com/riteshshukla/jellifyblur/JellifyBlurView.kt:277-296 | the crop is exactly the part of the view inside the bitmap, and there is no crop exactly when they do not overlap |
| BackgroundCapture.Extract | android/src/main/java/com/riteshshukla/jellifyblur/JellifyBlurView.kt:284-290 | the extracted bitmap has the crop's size and its pixel (x, y) is the root's pixel (left + x, top + y) |
| BackgroundCapture.CaptureViewBackground | android/src/main/java/com/riteshshukla/jellifyblur/JellifyBlurView.kt:252-300 | no background exactly when the view and the root bitmap do not overlap, otherwise the extracted crop |
| BackgroundCapture.CaptureInside | android/src/main/java/com/riteshshukla/jellifyblur/JellifyBlurView.kt:272-291 | a view wholly inside the root gets the view-sized rectangle of the root behind it |
| BlurViewState.BlurredBitmapAsWritten | android/src/main/java/com/riteshshukla/jellifyblur/JellifyBlurView.kt:302-313 | `createBlurredBitmap` as written: without a RenderScript result the bitmap has the source's size; with one at a positive radius it is that result |
| BlurViewState.BlurredBitmap | android/src/main/java/com/riteshshukla/jellifyblur/JellifyBlurView.kt:302-313 | the same choice over the corrected software blur: the source's size without a RenderScript result, that result with one at a positive radius |
| BlurViewState.BlurredBitmapUnblurred | android/src/main/java/com/riteshshukla/jellifyblur/JellifyBlurView.kt:302-313 | at radius 0 or less, or below 1 on the software path, the background is returned unblurred, as written and corrected |
| BlurViewState.BlurredBitmapAsWrittenRows | android/src/main/java/com/riteshshukla/jellifyblur/JellifyBlurView.kt:302-313 | as written, on the software path at radius 1 or more row y of the blurred background is that row swept in place with k in [1, 10], and its first pixel is the mean of its window |
| BlurViewState.BlurredBitmapSoftware | android/src/main/java/com/riteshshukla/jellifyblur/JellifyBlurView.kt:340-374 | corrected, on the software path each channel is the clamped window total divided by 2k + 1, k in [1, 10] |
| BlurViewState.BlurredBitmapUniform | android/src/main/java/com/riteshshukla/jellifyblur/JellifyBlurView.kt:302-313 | without a RenderScript result a background of one colour comes back unchanged, as written and corrected |
| BlurViewState.BlurredBitmapWithin | android/src/main/java/com/riteshshukla/jellifyblur/JellifyBlurView.kt:302-313 | without a RenderScript result no channel leaves the range it spans in the background, as written and corrected |
| BlurViewState.RefreshedBackground | android/src/main/java/com/riteshshukla/jellifyblur/JellifyBlurView.kt:227-250 | after the corrected refresh, a view with an area has no blurred background exactly when it lies outside the root bitmap |
| BlurViewState.RefreshedInside | android/src/main/java/com/riteshshukla/jellifyblur/JellifyBlurView.kt:227-250 | a view wholly inside the root gets the blur of the rectangle of the root behind it |
| BlurViewState.BlurView.constructor | android/src/main/java/com/riteshshukla/jellifyblur/JellifyBlurView.kt:27-56 | a new view is "regular" at amount 100, marked for update, with radius 8 and a white overlay of alpha 102 |
| BlurViewState.BlurView.UpdateBlurParameters | android/src/main/java/com/riteshshukla/jellifyblur/JellifyBlurView.kt:111-166 | the radius and overlay become the ones the style table gives for the type and amount, and nothing else changes |
| BlurViewState.BlurView.SetBlurType | android/src/main/java/com/riteshshukla/jellifyblur/JellifyBlurView.kt:77-84 | the same type changes nothing; another type is stored, restyles the view and marks it for update |
| BlurViewState.BlurView.SetBlurAmount | android/src/main/java/com/riteshshukla/jellifyblur/JellifyBlurView.kt:86-94 | the clamped amount is stored; an amount whose clamp equals the current one changes nothing, another marks the view for update |
| BlurViewState.BlurView.OnSizeChanged | android/src/main/java/com/riteshshukla/jellifyblur/JellifyBlurView.kt:168-171 | the new size is recorded and the view is marked for update |
| BlurViewState.BlurView.OnAttachedToWindow | android/src/main/java/com/riteshshukla/jellifyblur/JellifyBlurView.kt:418-427 | attaching marks the view for update and changes nothing else |
| BlurViewState.BlurView.OnVisibilityChanged | android/src/main/java/com/riteshshukla/jellifyblur/JellifyBlurView.kt:429-435 | becoming visible marks the view for update; any other visibility changes nothing |
| BlurViewState.BlurView.CreateBlurredBitmapAsWritten | android/src/main/java/com/riteshshukla/jellifyblur/JellifyBlurView.kt:302-313 | the blurred bitmap as written for the view's current radius and the RenderScript outcome |
| BlurViewState.BlurView.CreateBlurredBitmap | android/src/main/java/com/riteshshukla/jellifyblur/JellifyBlurView.kt:302-313 | the corrected blurred bitmap for the view's current radius and the RenderScript outcome |
| BlurViewState.BlurView.UpdateBlurredBackgroundAsWritten | android/src/main/java/com/riteshshukla/jellifyblur/JellifyBlurView.kt:227-250 | a view with no area is unchanged; a captured background is blurred as written and becomes the live blurred bitmap; when none is captured the old bitmap is recycled yet kept as the blurred background |
| BlurViewState.BlurView.UpdateBlurredBackground | android/src/main/java/com/riteshshukla/jellifyblur/JellifyBlurView.kt:227-250 | corrected, the blurred background becomes the refreshed one, and it is never a recycled bitmap |
| BlurViewState.BlurView.DrawWithBackgroundBlurAsWritten | android/src/main/java/com/riteshshukla/jellifyblur/JellifyBlurView.kt:206-250 | the background is refreshed as written exactly when the view was marked, the mark is cleared, the stored bitmap is drawn and the overlay is drawn exactly when its alpha is positive; after a drawn background, a refresh that captures nothing draws the old, recycled bitmap |
| BlurViewState.BlurView.DrawWithBackgroundBlur | android/src/main/java/com/riteshshukla/jellifyblur/JellifyBlurView.kt:206-225 | over the corrected refresh: refreshed exactly when marked, the mark cleared, the stored background drawn and never a recycled one, the overlay drawn exactly when its alpha is positive |

## Left out

- RenderScript and RenderEffect (`initializeBlurComponents`, `blurWithRenderScript`, `drawWithRenderEffect`): platform blurs whose code is not visible. `RenderScriptOutcome` is a parameter saying whether RenderScript was unavailable, threw, or produced a bitmap.
- Threads: the singleton, the blur thread, `performBlurAsync` and its callbacks. The cache is modelled as a plain map changed by one caller at a time, not as a `ConcurrentHashMap`.
- Clocks: `System.currentTimeMillis` is the parameter `now`.
- Float text: `Float.toString` is the parameter `floatText`. The model only assumes a rendered float never contains `_`.
- Floating point in general: amounts, radii, intensities and opacities are exact reals, so float rounding is not modelled.
- SizeOptimizer.ScaledSide: takes the integer part of `side * sqrt(MAX_BITMAP_SIZE / total)` exactly. The source goes through a `Float` square root, so its result may differ by one.
- NaN: `setBlurAmount(NaN)` stores NaN in the source. Reals have no NaN.
- Scaling: `Bitmap.createScaledBitmap` is the parameter `resample`, assumed (`HonoursSize`) to return a bitmap of the size it is asked for. Its filtering is not modelled.
- Overflow: `width * height` in `optimizeBitmapForBlur` is a Kotlin `Int`, and its overflow for bitmaps above 2^31 pixels is not modelled. The channel totals stay far below it (at most 255 * 21).
- Pixels are modelled as unsigned 32-bit values. The Kotlin `Int` holds the same bits; `shr` followed by `and 0xff` reads the same channel either way.
- Copies and recycling: `bitmap.copy(...)` is the bitmap value itself, so a cache entry and the bitmap returned to the caller are equal values, not distinct instances. Recycling is tracked only for the view's `blurredBitmap`. A cache entry leaves the map when it is recycled, so the `isRecycled` test on a cache hit always passes in the model.
- Exceptions: every `catch` that turns an exception (for example out of memory) into a null bitmap. Without them `performActualBlur` is `performFallbackBlur` and `updateBlurredBackground` always completes. The one exception the model does show is the `IllegalArgumentException` that `createScaledBitmap` throws for a side of 0, which no `catch` in `performBlurSync` handles; it is the None result of `OptimizeBitmapForBlurAsWritten`, `BlurPipelineAsWritten` and `PerformBlurSync`.
- `backgroundBitmap`: the view never assigns it, so it is always null, and its `recycle` call and comparison are not modelled.
- The root view: `rootView.draw` and `getLocationInWindow` are parameters. They are the root drawn into a bitmap (`root`) and the view's position (`left`, `top`).
- BlurViewState.BlurView.DrawWithBackgroundBlurAsWritten: drawing the root view calls back into this view. `rootView.draw` (JellifyBlurView.kt:266) draws the whole view tree, this view included, so its `onDraw` (173-188) runs `drawWithBackgroundBlur` again while `needsUpdate` is still set (it is cleared at line 210 only after `updateBlurredBackground` returns), and the refresh starts itself again with nothing to stop it. The model's `root` is a plain bitmap value with no side effects, so it cannot show this re-entry or the stack overflow it may end in. `DrawWithBackgroundBlurAsWritten`'s "refreshed exactly when marked, and the mark is cleared" holds only under that simplification.
- Canvas drawing: `DrawWithBackgroundBlurAsWritten` and `DrawWithBackgroundBlur` return the bitmap they would draw and whether the overlay would be drawn; the first also says whether that bitmap is a recycled one.
- `onDraw`'s choice between RenderEffect and the captured background is not modelled, and neither is `invalidate`.
- `captureViewContent`, `getCacheStats` and `destroy` are not modelled.
- `setReducedTransparencyFallbackColor`, `isBlurEnabled` and `onDetachedFromWindow` are not modelled.
- PerformanceOptimizer.BlurPerformanceOptimizer.OldestKey: when several entries share the smallest timestamp it may return any of them. `minByOrNull` returns the first in the map's iteration order, which the model does not fix.
- The view manager, the React Native bridge and the iOS implementation are not part of this model.

## Findings

| source | as written | input that shows it | evidently intended | confidence | as-written member | corrected member |
|---|---|---|---|---|---|---|
| android/src/main/java/com/riteshshukla/jellifyblur/JellifyBlurPerformanceOptimizer.kt:132-137 | below the pixel limit, a bitmap with a side over 512 has both sides halved with `(side * 0.5f).toInt()` and no lower bound, so a side of 1 becomes 0 (the same happens in the square-root branch at 123-129) | a 1 x 513 bitmap is planned as 0 x 256; `Bitmap.createScaledBitmap` rejects a width of 0, and that call is outside every `try` in `performBlurSync` | every planned side is at least 1 | high for the planned size (proved); the platform's rejection of a zero width is documented behaviour; not executed | PerformanceOptimizer.PipelineFailsOnThinBitmap | PerformanceOptimizer.BlurPipeline |
| android/src/main/java/com/riteshshukla/jellifyblur/JellifyBlurView.kt:352-376 | the horizontal pass writes each mean back into `pixels`, which the windows of later pixels in the same row then read | row (0xFF0000FF, 0xFF000000, 0xFF000000) at radius 1: the middle pixel becomes 0xFF000038 (blue 56) where the mean of its window is 0xFF000055 (blue 85) | every pixel the mean of its clamped window in the unmodified row, as `fastBoxBlur` does by writing into `temp` | medium: an in-place pass is a known shortcut, but the result is not a box blur and smears towards the right; not executed | RowBoxBlur.InPlaceSweepDiffers | RowBoxBlur.BlurWithSoftware |
| android/src/main/java/com/riteshshukla/jellifyblur/JellifyBlurView.kt:227-250 | `blurredBitmap` is recycled before the capture, but it is replaced only when a background is captured | after one successful draw, a redraw with the view moved wholly outside the root bitmap: `blurredBitmap` stays the recycled bitmap, and `drawWithBackgroundBlur` (214-219) passes it to `canvas.drawBitmap`, which rejects recycled bitmaps; reaching it needs an earlier capture that finished, which the call back into this view from `rootView.draw` (line 266) may prevent | set `blurredBitmap` to null when it is recycled | high for the stale reference in the model (proved); whether an earlier capture finishes on a device is open; not executed | BlurViewState.BlurView.DrawWithBackgroundBlurAsWritten | BlurViewState.BlurView.DrawWithBackgroundBlur |
