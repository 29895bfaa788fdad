/** The view's own software blur, `blurWithSoftware`: one horizontal pass in
    which every pixel becomes the per-channel mean of 2r + 1 samples from its
    row, sample columns clamped into the row so that edge pixels repeat.

    As written the pass reads and writes the same buffer, so the samples left
    of a pixel have already been replaced by their own means when it is
    averaged. The model keeps that version (`SweptImage`, `SoftwareBlurInPlace`),
    which the view runs, and a corrected one that reads from an unmodified
    copy (`ClampedBoxBlur`, `BlurRowsFromCopy`). */
module RowBoxBlur {
  import opened Arith
  import opened Pixels
  import opened BoxFilter

  /** `k.coerceIn(0, size - 1)` */
  function ClampIndex(k: int, size: nat): (j: nat)
    requires size > 0
    ensures j < size
    ensures 0 <= k < size ==> j == k
    ensures k < 0 ==> j == 0
    ensures k >= size ==> j == size - 1
  {
    if k < 0 then 0 else if k >= size then size - 1 else k
  }

  /** The samples `blurWithSoftware` sums for column x: columns x - r through
      x + r of the row, each clamped into the row. There are always 2r + 1. */
  function ClampedWindow(row: seq<Argb>, x: nat, radius: nat): (ws: seq<Argb>)
    requires |row| > 0
    ensures |ws| == 2 * radius + 1
  {
    seq(2 * radius + 1, i requires 0 <= i < 2 * radius + 1 => row[ClampIndex(x + i - radius, |row|)])
  }

  /** Every sample of a clamped window is a pixel of the row. */
  lemma ClampedWindowElements(row: seq<Argb>, x: nat, radius: nat)
    requires |row| > 0
    ensures forall j :: 0 <= j < 2 * radius + 1 ==> ClampedWindow(row, x, radius)[j] in row
  {
    var ws := ClampedWindow(row, x, radius);
    forall j | 0 <= j < 2 * radius + 1
      ensures ws[j] in row
    {
      assert ws[j] == row[ClampIndex(x + j - radius, |row|)];
    }
  }

  /** With radius 1 the window of column x is its left neighbour, itself and
      its right neighbour, each clamped into the row. */
  lemma ClampedWindowOfOne(row: seq<Argb>, x: nat)
    requires |row| > 0
    ensures ClampedWindow(row, x, 1) ==
              [row[ClampIndex(x - 1, |row|)], row[ClampIndex(x, |row|)], row[ClampIndex(x + 1, |row|)]]
  {
  }

  /** Row y of a row-major buffer. */
  function RowSlice(s: seq<Argb>, width: nat, height: nat, y: nat): (row: seq<Argb>)
    requires |s| == width * height && y < height
    ensures |row| == width && y * width + width <= |s|
    ensures forall x :: 0 <= x < width ==> row[x] == s[y * width + x]
  {
    RowEnd(width, height, y);
    s[y * width .. y * width + width]
  }

  // ----- As written: the pass works in place -----

  /** Row `row` after the `x` loop has replaced columns 0 .. x - 1 in place:
      each of them by the mean of its clamped window in the row as it was
      at that moment. Columns x and beyond are still the original ones. */
  function SweepPrefix(row: seq<Argb>, radius: nat, x: nat): (swept: seq<Argb>)
    requires x <= |row|
    ensures |swept| == |row|
    ensures forall k :: x <= k < |row| ==> swept[k] == row[k]
    decreases x
  {
    if x == 0 then row
    else
      var before := SweepPrefix(row, radius, x - 1);
      before[x - 1 := Mean(ClampedWindow(before, x - 1, radius))]
  }

  /** Once the loop has passed column k, that column keeps the value it
      was given: later steps only write columns to its right. */
  lemma {:induction false} SweepPrefixSettled(row: seq<Argb>, radius: nat, k: nat, x: nat)
    requires k < x <= |row|
    ensures SweepPrefix(row, radius, x)[k] == SweepPrefix(row, radius, k + 1)[k]
    decreases x
  {
    if x > k + 1 {
      SweepPrefixSettled(row, radius, k, x - 1);
    }
  }

  /** A row after the whole in-place `x` loop. */
  function SweptRow(row: seq<Argb>, radius: nat): (swept: seq<Argb>)
    ensures |swept| == |row|
  {
    SweepPrefix(row, radius, |row|)
  }

  /** The buffer after the in-place pass: every row swept on its own. */
  function SweptImage(s: seq<Argb>, width: nat, height: nat, radius: nat): (u: seq<Argb>)
    requires |s| == width * height
    ensures |u| == width * height
  {
    seq(width * height, i requires 0 <= i < width * height =>
      SweptRow(RowSlice(s, width, height, RowOf(width, height, i)), radius)[ColumnOf(width, height, i)])
  }

  /** Row y of the swept buffer is row y of the input, swept. */
  lemma SweptImageRow(s: seq<Argb>, width: nat, height: nat, radius: nat, y: nat)
    requires |s| == width * height && y < height
    ensures y * width + width <= width * height
    ensures forall i :: y * width <= i < y * width + width ==>
              SweptImage(s, width, height, radius)[i] == SweptRow(s[y * width .. y * width + width], radius)[i - y * width]
  {
    RowEnd(width, height, y);
    forall i | y * width <= i < y * width + width
      ensures SweptImage(s, width, height, radius)[i] == SweptRow(s[y * width .. y * width + width], radius)[i - y * width]
    {
      RowAndColumn(width, height, y, i);
    }
  }

  /** Even as written the pass keeps every channel within the range it had
      in the row: each new value is a mean of values already in range. */
  lemma {:induction false} SweepPrefixWithin(row: seq<Argb>, radius: nat, x: nat, c: Channel, lo: int, hi: int)
    requires x <= |row|
    requires forall k :: 0 <= k < |row| ==> lo <= ChannelOf(row[k], c) <= hi
    ensures forall k :: 0 <= k < |row| ==> lo <= ChannelOf(SweepPrefix(row, radius, x)[k], c) <= hi
  {
    if x > 0 {
      SweepPrefixWithin(row, radius, x - 1, c, lo, hi);
      var before := SweepPrefix(row, radius, x - 1);
      ClampedWindowElements(before, x - 1, radius);
      MeanWithin(ClampedWindow(before, x - 1, radius), c, lo, hi);
    }
  }

  /** A row of one colour is left unchanged by the in-place sweep. */
  lemma {:induction false} SweepPrefixUniform(row: seq<Argb>, radius: nat, x: nat, p: Argb)
    requires x <= |row|
    requires forall k :: 0 <= k < |row| ==> row[k] == p
    ensures SweepPrefix(row, radius, x) == row
  {
    if x > 0 {
      SweepPrefixUniform(row, radius, x - 1, p);
      ClampedWindowElements(row, x - 1, radius);
      MeanOfUniform(ClampedWindow(row, x - 1, radius), p);
    }
  }

  /** A buffer of one colour is left unchanged by the in-place pass. */
  lemma SweptImageUniform(s: seq<Argb>, width: nat, height: nat, radius: nat, p: Argb)
    requires |s| == width * height
    requires forall i :: 0 <= i < |s| ==> s[i] == p
    ensures SweptImage(s, width, height, radius) == s
  {
    var u := SweptImage(s, width, height, radius);
    forall i | 0 <= i < width * height
      ensures u[i] == s[i]
    {
      var y := RowOf(width, height, i);
      var row := RowSlice(s, width, height, y);
      SweepPrefixUniform(row, radius, |row|, p);
    }
  }

  /** The in-place pass keeps every channel of the buffer within the range
      it spans in the input. */
  lemma SweptImageWithin(s: seq<Argb>, width: nat, height: nat, radius: nat, c: Channel, lo: int, hi: int)
    requires |s| == width * height
    requires forall i :: 0 <= i < |s| ==> lo <= ChannelOf(s[i], c) <= hi
    ensures forall i :: 0 <= i < width * height ==> lo <= ChannelOf(SweptImage(s, width, height, radius)[i], c) <= hi
  {
    var u := SweptImage(s, width, height, radius);
    forall i | 0 <= i < width * height
      ensures lo <= ChannelOf(u[i], c) <= hi
    {
      var y := RowOf(width, height, i);
      var row := RowSlice(s, width, height, y);
      SweepPrefixWithin(row, radius, |row|, c, lo, hi);
    }
  }

  // ----- Corrected: every window read from the unmodified row -----

  /** Every pixel replaced by the per-channel mean of its clamped window in
      the original row: each channel is the window's channel total divided
      by exactly 2r + 1. */
  function ClampedBoxBlur(s: seq<Argb>, width: nat, height: nat, radius: nat): (u: seq<Argb>)
    requires |s| == width * height
    ensures |u| == width * height
  {
    seq(width * height, i requires 0 <= i < width * height =>
      Mean(ClampedWindow(RowSlice(s, width, height, RowOf(width, height, i)), ColumnOf(width, height, i), radius)))
  }

  /** Pixel (x, y) of the corrected pass is the mean of the clamped window
      of column x in row y of the input. */
  lemma ClampedBoxBlurAt(s: seq<Argb>, width: nat, height: nat, radius: nat, x: nat, y: nat)
    requires |s| == width * height && x < width && y < height
    ensures ClampedBoxBlur(s, width, height, radius)[Offset(width, height, x, y)] ==
              Mean(ClampedWindow(RowSlice(s, width, height, y), x, radius))
  {
    var i := Offset(width, height, x, y);
    assert ColumnOf(width, height, i) == x && RowOf(width, height, i) == y;
  }

  /** Each channel of pixel (x, y) is the total of that channel over the
      clamped window of column x in row y, divided by exactly 2r + 1, at the
      edges as well as inside. */
  lemma ClampedBoxBlurDivisor(s: seq<Argb>, width: nat, height: nat, radius: nat, x: nat, y: nat, c: Channel)
    requires |s| == width * height && x < width && y < height
    ensures ChannelOf(ClampedBoxBlur(s, width, height, radius)[Offset(width, height, x, y)], c) ==
              ChannelSum(ClampedWindow(RowSlice(s, width, height, y), x, radius), c) / (2 * radius + 1)
  {
    var i := Offset(width, height, x, y);
    assert ColumnOf(width, height, i) == x && RowOf(width, height, i) == y;
  }

  /** An image of one colour is left unchanged. */
  lemma ClampedBoxBlurUniform(s: seq<Argb>, width: nat, height: nat, radius: nat, p: Argb)
    requires |s| == width * height
    requires forall i :: 0 <= i < |s| ==> s[i] == p
    ensures ClampedBoxBlur(s, width, height, radius) == s
  {
    var u := ClampedBoxBlur(s, width, height, radius);
    forall i | 0 <= i < width * height
      ensures u[i] == s[i]
    {
      var row := RowSlice(s, width, height, RowOf(width, height, i));
      ClampedWindowElements(row, ColumnOf(width, height, i), radius);
      MeanOfUniform(ClampedWindow(row, ColumnOf(width, height, i), radius), p);
    }
  }

  /** Every channel stays within the range it spans in the input. */
  lemma ClampedBoxBlurWithin(s: seq<Argb>, width: nat, height: nat, radius: nat, c: Channel, lo: int, hi: int)
    requires |s| == width * height
    requires forall i :: 0 <= i < |s| ==> lo <= ChannelOf(s[i], c) <= hi
    ensures forall i :: 0 <= i < width * height ==> lo <= ChannelOf(ClampedBoxBlur(s, width, height, radius)[i], c) <= hi
  {
    var u := ClampedBoxBlur(s, width, height, radius);
    forall i | 0 <= i < width * height
      ensures lo <= ChannelOf(u[i], c) <= hi
    {
      var row := RowSlice(s, width, height, RowOf(width, height, i));
      ClampedWindowElements(row, ColumnOf(width, height, i), radius);
      MeanWithin(ClampedWindow(row, ColumnOf(width, height, i), radius), c, lo, hi);
    }
  }

  /** The first column of a row comes out the same either way: its window
      is read before anything in the row has changed. */
  lemma FirstColumnAgrees(s: seq<Argb>, width: nat, height: nat, radius: nat, y: nat)
    requires |s| == width * height && 0 < width && y < height
    ensures SweptImage(s, width, height, radius)[Offset(width, height, 0, y)] ==
            ClampedBoxBlur(s, width, height, radius)[Offset(width, height, 0, y)]
  {
    var row := RowSlice(s, width, height, y);
    SweptImageRow(s, width, height, radius, y);
    ClampedBoxBlurAt(s, width, height, radius, 0, y);
    var k := 1;
    while k < width
      invariant 1 <= k <= width
      invariant SweepPrefix(row, radius, k)[0] == Mean(ClampedWindow(row, 0, radius))
    {
      k := k + 1;
    }
  }

  /** An opaque pixel with no red or green and the given blue level;
      `OpaqueBlue(0)` is opaque black. */
  function OpaqueBlue(level: Byte): (p: Argb)
    ensures ChannelOf(p, Alpha) == 0xff && ChannelOf(p, Red) == 0 && ChannelOf(p, Green) == 0
    ensures ChannelOf(p, Blue) == level
  {
    UnpackPack(0xff, 0, 0, level, Alpha);
    UnpackPack(0xff, 0, 0, level, Red);
    UnpackPack(0xff, 0, 0, level, Green);
    UnpackPack(0xff, 0, 0, level, Blue);
    Pack(0xff, 0, 0, level)
  }

  lemma ChannelSumOfThree(p: Argb, q: Argb, t: Argb, c: Channel)
    ensures ChannelSum([p, q, t], c) == ChannelOf(p, c) + ChannelOf(q, c) + ChannelOf(t, c)
  {
    assert [p, q, t][..2] == [p, q];
    assert [p, q][..1] == [p];
    assert [p][..0] == [];
    assert ChannelSum([p], c) == ChannelOf(p, c);
    assert ChannelSum([p, q], c) == ChannelOf(p, c) + ChannelOf(q, c);
  }

  /** The mean of three opaque blues is the opaque blue of their average
      level, rounded down. */
  lemma MeanOfBlues(u: Byte, v: Byte, w: Byte)
    ensures Mean([OpaqueBlue(u), OpaqueBlue(v), OpaqueBlue(w)]) == OpaqueBlue((u + v + w) / 3)
  {
    var m := Mean([OpaqueBlue(u), OpaqueBlue(v), OpaqueBlue(w)]);
    forall c: Channel
      ensures ChannelOf(m, c) == ChannelOf(OpaqueBlue((u + v + w) / 3), c)
    {
      ChannelSumOfThree(OpaqueBlue(u), OpaqueBlue(v), OpaqueBlue(w), c);
    }
    ChannelsDetermine(m, OpaqueBlue((u + v + w) / 3));
  }

  /** As written, column 1 is averaged over a row whose column 0 has
      already been replaced by its own mean. */
  lemma SecondColumnReadsBlurredFirst(row: seq<Argb>, radius: nat)
    requires |row| >= 2
    ensures SweptRow(row, radius)[1] == Mean(ClampedWindow(row[0 := Mean(ClampedWindow(row, 0, radius))], 1, radius))
  {
    SweepPrefixSettled(row, radius, 1, |row|);
    assert SweepPrefix(row, radius, 1) == row[0 := Mean(ClampedWindow(row, 0, radius))];
  }

  /** The row the counterexample below is about: opaque blue 255, then
      two opaque blacks. */
  predicate IsBlueBlackBlack(row: seq<Argb>) {
    row == [OpaqueBlue(255), OpaqueBlue(0), OpaqueBlue(0)]
  }

  /** Column 0 of that row averages blue 255, blue 255 (its clamped left
      neighbour) and black: blue 170. */
  lemma FirstWindowMean(row: seq<Argb>)
    requires IsBlueBlackBlack(row)
    ensures Mean(ClampedWindow(row, 0, 1)) == OpaqueBlue(170)
  {
    ClampedWindowOfOne(row, 0);
    MeanOfBlues(255, 255, 0);
  }

  /** Once column 0 is blue 170, column 1 averages it with two blacks: blue 56. */
  lemma SecondWindowMeanAfterSweep(swept: seq<Argb>)
    requires swept == [OpaqueBlue(170), OpaqueBlue(0), OpaqueBlue(0)]
    ensures Mean(ClampedWindow(swept, 1, 1)) == OpaqueBlue(56)
  {
    ClampedWindowOfOne(swept, 1);
    MeanOfBlues(170, 0, 0);
  }

  /** In the original row, column 1 averages blue 255 with two blacks: blue 85. */
  lemma SecondWindowMean(row: seq<Argb>)
    requires IsBlueBlackBlack(row)
    ensures Mean(ClampedWindow(row, 1, 1)) == OpaqueBlue(85)
  {
    ClampedWindowOfOne(row, 1);
    MeanOfBlues(255, 0, 0);
  }

  /** Over (blue 255, black, black) with radius 1, as written the middle
      pixel ends up blue 56 (0xFF000038); averaging the original row, as the
      corrected pass does, gives blue 85 (0xFF000055). */
  lemma InPlaceSweepDiffers(row: seq<Argb>)
    requires IsBlueBlackBlack(row)
    ensures SweptRow(row, 1)[1] == OpaqueBlue(56)
    ensures ClampedBoxBlur(row, 3, 1, 1)[1] == OpaqueBlue(85)
    ensures OpaqueBlue(56) != OpaqueBlue(85)
  {
    SecondColumnReadsBlurredFirst(row, 1);
    FirstWindowMean(row);
    SecondWindowMeanAfterSweep(row[0 := OpaqueBlue(170)]);
    ClampedBoxBlurAt(row, 3, 1, 1, 1, 0);
    assert Offset(3, 1, 1, 0) == 1;
    assert RowSlice(row, 3, 1, 0) == row;
    SecondWindowMean(row);
  }

  // ----- The loops -----

  /** The `i` loop: the four channel totals and the count over the clamped
      window of column x in the row starting at lineStart, divided and repacked. */
  method ClampedWindowMean(pixels: array<Argb>, lineStart: nat, width: nat, x: nat, radius: nat) returns (p: Argb)
    requires 0 < width && lineStart + width <= pixels.Length
    ensures p == Mean(ClampedWindow(pixels[lineStart .. lineStart + width], x, radius))
  {
    ghost var row := pixels[lineStart .. lineStart + width];
    ghost var window := ClampedWindow(row, x, radius);
    var a, r, g, b, count := 0, 0, 0, 0, 0;
    var i: int := -(radius as int);
    while i <= radius
      invariant -(radius as int) <= i <= radius + 1
      invariant count == i + radius
      invariant a == ChannelSum(window[..count], Alpha)
      invariant r == ChannelSum(window[..count], Red)
      invariant g == ChannelSum(window[..count], Green)
      invariant b == ChannelSum(window[..count], Blue)
    {
      var px := ClampIndex(x + i, width);
      var pixel := pixels[lineStart + px];
      assert row[px] == pixel;
      assert window[count] == row[ClampIndex(x + count - radius, width)];
      assert window[..count + 1][..count] == window[..count];
      a := a + ChannelOf(pixel, Alpha);
      r := r + ChannelOf(pixel, Red);
      g := g + ChannelOf(pixel, Green);
      b := b + ChannelOf(pixel, Blue);
      count := count + 1;
      i := i + 1;
    }
    assert window[..count] == window;
    QuotientAtMost(a, count, 0xff);
    QuotientAtMost(r, count, 0xff);
    QuotientAtMost(g, count, 0xff);
    QuotientAtMost(b, count, 0xff);
    p := Pack(a / count, r / count, g / count, b / count);
  }

  /** One step of the in-place `x` loop: with columns 0 .. x - 1 of the row
      already swept, pixel x is replaced by the mean of its window in the
      row as it is now. */
  method SweepStep(pixels: array<Argb>, lineStart: nat, width: nat, radius: nat, ghost row: seq<Argb>, x: nat)
    requires x < width == |row| && lineStart + width <= pixels.Length
    requires pixels[lineStart .. lineStart + width] == SweepPrefix(row, radius, x)
    modifies pixels
    ensures pixels[lineStart .. lineStart + width] == SweepPrefix(row, radius, x + 1)
    ensures forall i :: 0 <= i < pixels.Length && !(lineStart <= i < lineStart + width) ==> pixels[i] == old(pixels[i])
  {
    ghost var before := pixels[lineStart .. lineStart + width];
    var mean := ClampedWindowMean(pixels, lineStart, width, x, radius);
    pixels[lineStart + x] := mean;
    assert pixels[lineStart .. lineStart + width] == before[x := mean];
  }

  /** The `x` loop for the row at `lineStart` as written: each pixel is
      replaced in the buffer its neighbours are read from. */
  method SweepRowInPlace(pixels: array<Argb>, lineStart: nat, width: nat, radius: nat, ghost row: seq<Argb>)
    requires lineStart + width <= pixels.Length && |row| == width
    requires forall k :: 0 <= k < width ==> pixels[lineStart + k] == row[k]
    modifies pixels
    ensures forall i :: lineStart <= i < lineStart + width ==> pixels[i] == SweptRow(row, radius)[i - lineStart]
    ensures forall i :: 0 <= i < pixels.Length && !(lineStart <= i < lineStart + width) ==> pixels[i] == old(pixels[i])
  {
    assert pixels[lineStart .. lineStart + width] == row;
    var x := 0;
    while x < width
      invariant 0 <= x <= width
      invariant pixels[lineStart .. lineStart + width] == SweepPrefix(row, radius, x)
      invariant forall i :: 0 <= i < pixels.Length && !(lineStart <= i < lineStart + width) ==> pixels[i] == old(pixels[i])
    {
      SweepStep(pixels, lineStart, width, radius, row, x);
      x := x + 1;
    }
    forall i | lineStart <= i < lineStart + width
      ensures pixels[i] == SweptRow(row, radius)[i - lineStart]
    {
      assert pixels[i] == pixels[lineStart .. lineStart + width][i - lineStart];
    }
  }

  /** The buffer `cur` part way through the in-place pass: rows 0 .. y - 1
      are swept and rows y and beyond are still as in `original`. */
  ghost predicate SweptBefore(cur: seq<Argb>, original: seq<Argb>, width: nat, height: nat, radius: nat, y: nat)
    requires |cur| == |original| == width * height
  {
    (forall i :: 0 <= i < |cur| && i < y * width ==> cur[i] == SweptImage(original, width, height, radius)[i]) &&
    (forall i :: 0 <= i < |cur| && y * width <= i ==> cur[i] == original[i])
  }

  /** Once every row is swept the buffer is the swept image. */
  lemma SweptBeforeAll(cur: seq<Argb>, original: seq<Argb>, width: nat, height: nat, radius: nat)
    requires |cur| == |original| == width * height
    requires SweptBefore(cur, original, width, height, radius, height)
    ensures cur == SweptImage(original, width, height, radius)
  {
    var swept := SweptImage(original, width, height, radius);
    forall i | 0 <= i < |cur|
      ensures cur[i] == swept[i]
    {
      assert i < height * width;
    }
  }

  /** Sweeping row y of a buffer swept up to row y, and changing nothing
      else, gives a buffer swept up to row y + 1. */
  lemma SweptBeforeNext(prev: seq<Argb>, cur: seq<Argb>, original: seq<Argb>, width: nat, height: nat, radius: nat, y: nat)
    requires |prev| == |cur| == |original| == width * height && y < height
    requires y * width + width <= width * height
    requires SweptBefore(prev, original, width, height, radius, y)
    requires forall i :: 0 <= i < |cur| && !(y * width <= i < y * width + width) ==> cur[i] == prev[i]
    requires forall i :: y * width <= i < y * width + width ==>
               cur[i] == SweptRow(original[y * width .. y * width + width], radius)[i - y * width]
    ensures SweptBefore(cur, original, width, height, radius, y + 1)
  {
    SweptImageRow(original, width, height, radius, y);
    NextRow(y, width);
  }

  /** One turn of the `y` loop as written: row y is swept in place. */
  method SweepRowOfImage(pixels: array<Argb>, ghost original: seq<Argb>, width: nat, height: nat, radius: nat, y: nat)
    requires pixels.Length == width * height == |original| && y < height
    requires SweptBefore(pixels[..], original, width, height, radius, y)
    modifies pixels
    ensures SweptBefore(pixels[..], original, width, height, radius, y + 1)
  {
    var lineStart := y * width;
    RowEnd(width, height, y);
    ghost var row := original[lineStart .. lineStart + width];
    SweepRowInPlace(pixels, lineStart, width, radius, row);
    SweptBeforeNext(old(pixels[..]), pixels[..], original, width, height, radius, y);
  }

  /** The pass as written, over the whole buffer. */
  method SoftwareBlurInPlace(pixels: array<Argb>, width: nat, height: nat, radius: nat)
    requires pixels.Length == width * height
    modifies pixels
    ensures pixels[..] == SweptImage(old(pixels[..]), width, height, radius)
  {
    ghost var original := pixels[..];
    var y := 0;
    while y < height
      invariant 0 <= y <= height
      invariant SweptBefore(pixels[..], original, width, height, radius, y)
    {
      SweepRowOfImage(pixels, original, width, height, radius, y);
      y := y + 1;
    }
    SweptBeforeAll(pixels[..], original, width, height, radius);
  }

  /** The body of the corrected `x` loop: the mean of the clamped window of
      column x, read from the unmodified copy of row y. */
  method ClampedPixel(source: array<Argb>, width: nat, height: nat, radius: nat, x: nat, y: nat) returns (p: Argb)
    requires source.Length == width * height && x < width && y < height
    ensures y * width + x < width * height
    ensures p == ClampedBoxBlur(source[..], width, height, radius)[y * width + x]
  {
    var lineStart := y * width;
    RowEnd(width, height, y);
    p := ClampedWindowMean(source, lineStart, width, x, radius);
    ClampedBoxBlurAt(source[..], width, height, radius, x, y);
    assert source[lineStart .. lineStart + width] == RowSlice(source[..], width, height, y);
  }

  /** One turn of the corrected `x` loop: with columns 0 .. x - 1 of row y
      written, column x is written as well. */
  method BoxStepFromCopy(source: array<Argb>, pixels: array<Argb>, width: nat, height: nat, radius: nat, x: nat, y: nat)
    requires source != pixels
    requires source.Length == width * height && pixels.Length == width * height && x < width && y < height
    requires y * width + width <= width * height
    requires forall i :: y * width <= i < y * width + x ==> pixels[i] == ClampedBoxBlur(source[..], width, height, radius)[i]
    modifies pixels
    ensures forall i :: y * width <= i < y * width + x + 1 ==> pixels[i] == ClampedBoxBlur(source[..], width, height, radius)[i]
    ensures forall i :: 0 <= i < pixels.Length && i != y * width + x ==> pixels[i] == old(pixels[i])
  {
    var mean := ClampedPixel(source, width, height, radius, x, y);
    pixels[y * width + x] := mean;
  }

  /** The `x` loop for row y, corrected: windows are read from `source`, an
      unmodified copy, and means written to `pixels`. */
  method BoxRowFromCopy(source: array<Argb>, pixels: array<Argb>, width: nat, height: nat, radius: nat, y: nat)
    requires source != pixels
    requires source.Length == width * height && pixels.Length == width * height && y < height
    modifies pixels
    ensures y * width + width <= width * height
    ensures forall i :: y * width <= i < y * width + width ==> pixels[i] == ClampedBoxBlur(source[..], width, height, radius)[i]
    ensures forall i :: 0 <= i < pixels.Length && !(y * width <= i < y * width + width) ==> pixels[i] == old(pixels[i])
  {
    RowEnd(width, height, y);
    var x := 0;
    while x < width
      invariant 0 <= x <= width
      invariant forall i :: y * width <= i < y * width + x ==> pixels[i] == ClampedBoxBlur(source[..], width, height, radius)[i]
      invariant forall i :: 0 <= i < pixels.Length && !(y * width <= i < y * width + width) ==> pixels[i] == old(pixels[i])
    {
      BoxStepFromCopy(source, pixels, width, height, radius, x, y);
      x := x + 1;
    }
  }

  /** The corrected pass over the whole buffer. */
  method BlurRowsFromCopy(source: array<Argb>, pixels: array<Argb>, width: nat, height: nat, radius: nat)
    requires source != pixels
    requires source.Length == width * height && pixels.Length == width * height
    modifies pixels
    ensures pixels[..] == ClampedBoxBlur(source[..], width, height, radius)
  {
    ghost var spec := ClampedBoxBlur(source[..], width, height, radius);
    var y := 0;
    while y < height
      invariant 0 <= y <= height
      invariant forall i :: 0 <= i < y * width ==> pixels[i] == spec[i]
    {
      BoxRowFromCopy(source, pixels, width, height, radius, y);
      NextRow(y, width);
      y := y + 1;
    }
    assert forall i :: 0 <= i < width * height ==> pixels[i] == spec[i];
  }

  // ----- blurWithSoftware on bitmaps -----

  /** `blurWithSoftware` as written: a radius below 1 gives an unchanged
      copy; otherwise the in-place pass with `blurRadius.toInt().coerceIn(1, 10)`. */
  function SoftwareBlurAsWritten(source: Bitmap, blurRadius: real): (blurred: Bitmap)
    ensures blurred.width == source.width && blurred.height == source.height
  {
    if blurRadius < 1.0 then source
    else Image(source.width, source.height, SweptImage(source.pixels, source.width, source.height, KernelRadius(blurRadius)))
  }

  /** As written, a bitmap of one colour comes back unchanged at any radius. */
  lemma SoftwareBlurAsWrittenUniform(source: Bitmap, blurRadius: real, p: Argb)
    requires forall i :: 0 <= i < |source.pixels| ==> source.pixels[i] == p
    ensures SoftwareBlurAsWritten(source, blurRadius) == source
  {
    if blurRadius >= 1.0 {
      SweptImageUniform(source.pixels, source.width, source.height, KernelRadius(blurRadius), p);
    }
  }

  /** As written, every channel stays within the range it spans in the source. */
  lemma SoftwareBlurAsWrittenWithin(source: Bitmap, blurRadius: real, c: Channel, lo: int, hi: int)
    requires forall i :: 0 <= i < |source.pixels| ==> lo <= ChannelOf(source.pixels[i], c) <= hi
    ensures forall i :: 0 <= i < |source.pixels| ==> lo <= ChannelOf(SoftwareBlurAsWritten(source, blurRadius).pixels[i], c) <= hi
  {
    if blurRadius >= 1.0 {
      SweptImageWithin(source.pixels, source.width, source.height, KernelRadius(blurRadius), c, lo, hi);
    }
  }

  /** As written, from a radius of 1 up, row y of the result is row y of the
      source swept in place with k = `blurRadius.toInt().coerceIn(1, 10)`;
      its first pixel is the mean of its window in the unmodified row, and
      later pixels read neighbours already written (see `InPlaceSweepDiffers`). */
  lemma SoftwareBlurAsWrittenRows(source: Bitmap, blurRadius: real, y: nat)
    requires blurRadius >= 1.0 && y < source.height
    ensures var k := KernelRadius(blurRadius);
            var blurred := SoftwareBlurAsWritten(source, blurRadius);
            var row := RowSlice(source.pixels, source.width, source.height, y);
            1 <= k <= 10 && y * source.width + source.width <= |blurred.pixels| &&
            (forall x :: 0 <= x < source.width ==> blurred.pixels[y * source.width + x] == SweptRow(row, k)[x]) &&
            (0 < source.width ==> blurred.pixels[y * source.width] == Mean(ClampedWindow(row, 0, k)))
  {
    var k := KernelRadius(blurRadius);
    SweptImageRow(source.pixels, source.width, source.height, k, y);
    if 0 < source.width {
      FirstColumnAgrees(source.pixels, source.width, source.height, k, y);
      ClampedBoxBlurAt(source.pixels, source.width, source.height, k, 0, y);
    }
  }

  /** `blurWithSoftware` with every window read from the unblurred copy. */
  function SoftwareBlur(source: Bitmap, blurRadius: real): (blurred: Bitmap)
    ensures blurred.width == source.width && blurred.height == source.height
  {
    if blurRadius < 1.0 then source
    else Image(source.width, source.height, ClampedBoxBlur(source.pixels, source.width, source.height, KernelRadius(blurRadius)))
  }

  /** A bitmap of one colour is unchanged by the software blur at any radius. */
  lemma SoftwareBlurUniform(source: Bitmap, blurRadius: real, p: Argb)
    requires forall i :: 0 <= i < |source.pixels| ==> source.pixels[i] == p
    ensures SoftwareBlur(source, blurRadius) == source
  {
    if blurRadius >= 1.0 {
      ClampedBoxBlurUniform(source.pixels, source.width, source.height, KernelRadius(blurRadius), p);
    }
  }

  /** From a radius of 1 up, the kernel radius is `blurRadius.toInt()` kept
      within [1, 10], and each channel of pixel (x, y) is the channel total
      over 2k + 1 clamped samples of row y divided by exactly 2k + 1. */
  lemma SoftwareBlurDivisor(source: Bitmap, blurRadius: real, x: nat, y: nat, c: Channel)
    requires blurRadius >= 1.0 && x < source.width && y < source.height
    ensures var k := KernelRadius(blurRadius);
            1 <= k <= 10 && k as real <= blurRadius &&
            ChannelOf(SoftwareBlur(source, blurRadius).pixels[Offset(source.width, source.height, x, y)], c) ==
              ChannelSum(ClampedWindow(RowSlice(source.pixels, source.width, source.height, y), x, k), c) / (2 * k + 1)
  {
    ClampedBoxBlurDivisor(source.pixels, source.width, source.height, KernelRadius(blurRadius), x, y, c);
  }

  /** Every channel of the software blur stays within the range it spans in
      the source. */
  lemma SoftwareBlurWithin(source: Bitmap, blurRadius: real, c: Channel, lo: int, hi: int)
    requires forall i :: 0 <= i < |source.pixels| ==> lo <= ChannelOf(source.pixels[i], c) <= hi
    ensures forall i :: 0 <= i < |source.pixels| ==> lo <= ChannelOf(SoftwareBlur(source, blurRadius).pixels[i], c) <= hi
  {
    if blurRadius >= 1.0 {
      ClampedBoxBlurWithin(source.pixels, source.width, source.height, KernelRadius(blurRadius), c, lo, hi);
    }
  }

  /** The mutable copy, `getPixels`, the in-place pass and `setPixels`, as written. */
  method BlurWithSoftwareAsWritten(source: Bitmap, blurRadius: real) returns (blurred: Bitmap)
    ensures blurred == SoftwareBlurAsWritten(source, blurRadius)
  {
    if blurRadius < 1.0 {
      return source;
    }
    var radius := KernelRadius(blurRadius);
    var n := source.width * source.height;
    var pixels := new Argb[n](i requires 0 <= i < n => source.pixels[i]);
    assert pixels[..] == source.pixels;
    SoftwareBlurInPlace(pixels, source.width, source.height, radius);
    blurred := Image(source.width, source.height, pixels[..]);
  }

  /** The software blur, corrected: the pixels are read into two buffers and
      the pass reads one and writes the other. */
  method BlurWithSoftware(source: Bitmap, blurRadius: real) returns (blurred: Bitmap)
    ensures blurred == SoftwareBlur(source, blurRadius)
  {
    if blurRadius < 1.0 {
      return source;
    }
    var radius := KernelRadius(blurRadius);
    var n := source.width * source.height;
    var original := new Argb[n](i requires 0 <= i < n => source.pixels[i]);
    var pixels := new Argb[n](i requires 0 <= i < n => source.pixels[i]);
    assert original[..] == source.pixels;
    BlurRowsFromCopy(original, pixels, source.width, source.height, radius);
    blurred := Image(source.width, source.height, pixels[..]);
  }
}
