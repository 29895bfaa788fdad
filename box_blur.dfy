/** The software fallback blur of the performance optimizer: the two-pass
    integer box filter `fastBoxBlur` over a row-major ARGB buffer, the
    normalisation of the requested radius, and `performFallbackBlur` around them. */
module BoxFilter {
  import opened Arith
  import opened Pixels

  // ----- Windows -----

  /** Row y ends inside the buffer. */
  lemma RowEnd(width: nat, height: nat, y: nat)
    requires y < height
    ensures y * width + width <= width * height
  {
    MulLe(y + 1, height, width);
    NextRow(y, width);
  }

  /** `max(0, x - radius)`: the first index a window around x covers. */
  function WindowStart(x: nat, radius: nat): (lo: nat)
    ensures lo <= x && x - lo <= radius
  {
    if x >= radius then x - radius else 0
  }

  /** `min(size - 1, x + radius)`: the last index a window around x covers. */
  function WindowEnd(x: nat, size: nat, radius: nat): (hi: nat)
    requires x < size
    ensures x <= hi < size && hi - x <= radius
  {
    if x + radius < size then x + radius else size - 1
  }

  /** The window shrinks only at the edges: away from them it holds exactly
      2 * radius + 1 indices, and it always holds at least one. */
  lemma WindowSize(x: nat, size: nat, radius: nat)
    requires x < size
    ensures 1 <= WindowEnd(x, size, radius) - WindowStart(x, radius) + 1 <= 2 * radius + 1
    ensures radius <= x < size - radius ==>
              WindowEnd(x, size, radius) - WindowStart(x, radius) + 1 == 2 * radius + 1
  {
  }

  /** The pixels the horizontal pass averages for pixel (x, y): row y at
      columns WindowStart(x) through WindowEnd(x). */
  function RowWindow(s: seq<Argb>, width: nat, height: nat, radius: nat, x: nat, y: nat): (ws: seq<Argb>)
    requires |s| == width * height && x < width && y < height
    ensures |ws| == WindowEnd(x, width, radius) - WindowStart(x, radius) + 1
  {
    s[Offset(width, height, WindowStart(x, radius), y) .. Offset(width, height, WindowEnd(x, width, radius), y) + 1]
  }

  /** The pixels the vertical pass averages for pixel (x, y): column x at
      rows WindowStart(y) through WindowEnd(y). */
  function ColumnWindow(t: seq<Argb>, width: nat, height: nat, radius: nat, x: nat, y: nat): (ws: seq<Argb>)
    requires |t| == width * height && x < width && y < height
    ensures |ws| == WindowEnd(y, height, radius) - WindowStart(y, radius) + 1
  {
    var lo, hi := WindowStart(y, radius), WindowEnd(y, height, radius);
    seq(hi - lo + 1, j requires 0 <= j < hi - lo + 1 => t[Offset(width, height, x, lo + j)])
  }

  lemma ColumnWindowElements(t: seq<Argb>, width: nat, height: nat, radius: nat, x: nat, y: nat)
    requires |t| == width * height && x < width && y < height
    ensures forall j :: 0 <= j < |ColumnWindow(t, width, height, radius, x, y)| ==>
              ColumnWindow(t, width, height, radius, x, y)[j] in t
  {
    var ws := ColumnWindow(t, width, height, radius, x, y);
    forall j | 0 <= j < |ws|
      ensures ws[j] in t
    {
      assert ws[j] == t[Offset(width, height, x, WindowStart(y, radius) + j)];
    }
  }

  // ----- The passes, as functions of the whole buffer -----

  /** Every pixel replaced by the per-channel mean of its row window. */
  function HorizontalPass(s: seq<Argb>, width: nat, height: nat, radius: nat): (t: seq<Argb>)
    requires |s| == width * height
    ensures |t| == width * height
  {
    seq(width * height, i requires 0 <= i < width * height =>
      Mean(RowWindow(s, width, height, radius, ColumnOf(width, height, i), RowOf(width, height, i))))
  }

  /** Every pixel replaced by the per-channel mean of its column window. */
  function VerticalPass(t: seq<Argb>, width: nat, height: nat, radius: nat): (u: seq<Argb>)
    requires |t| == width * height
    ensures |u| == width * height
  {
    seq(width * height, i requires 0 <= i < width * height =>
      Mean(ColumnWindow(t, width, height, radius, ColumnOf(width, height, i), RowOf(width, height, i))))
  }

  /** What `fastBoxBlur` leaves in its buffer: the vertical pass over the
      result of the horizontal pass. */
  function BoxBlur(s: seq<Argb>, width: nat, height: nat, radius: nat): (u: seq<Argb>)
    requires |s| == width * height
    ensures |u| == width * height
  {
    VerticalPass(HorizontalPass(s, width, height, radius), width, height, radius)
  }

  // ----- The passes, as loops over arrays -----

  /** The innermost loop of the horizontal pass: the four channel totals and
      the count over `pixels[first..last]`, divided and repacked. */
  method RowWindowMean(pixels: array<Argb>, first: nat, last: nat) returns (p: Argb)
    requires first <= last < pixels.Length
    ensures p == Mean(pixels[first .. last + 1])
  {
    var a, r, g, b, count := 0, 0, 0, 0, 0;
    var i := first;
    while i <= last
      invariant first <= i <= last + 1
      invariant count == i - first
      invariant a == ChannelSum(pixels[first .. i], Alpha)
      invariant r == ChannelSum(pixels[first .. i], Red)
      invariant g == ChannelSum(pixels[first .. i], Green)
      invariant b == ChannelSum(pixels[first .. i], Blue)
    {
      var pixel := pixels[i];
      assert pixels[first .. i + 1][..count] == pixels[first .. i];
      a := a + ChannelOf(pixel, Alpha);
      r := r + ChannelOf(pixel, Red);
      g := g + ChannelOf(pixel, Green);
      b := b + ChannelOf(pixel, Blue);
      count := count + 1;
      i := i + 1;
    }
    assert count == last + 1 - first;
    QuotientAtMost(a, count, 0xff);
    QuotientAtMost(r, count, 0xff);
    QuotientAtMost(g, count, 0xff);
    QuotientAtMost(b, count, 0xff);
    p := Pack(a / count, r / count, g / count, b / count);
  }

  /** The innermost loop of the vertical pass: the four channel totals and
      the count over column x of `temp` at rows WindowStart(y)..WindowEnd(y),
      read at `i * width + x`, divided and repacked. */
  method ColumnWindowMean(temp: array<Argb>, width: nat, height: nat, radius: nat, x: nat, y: nat) returns (p: Argb)
    requires temp.Length == width * height && x < width && y < height
    ensures p == Mean(ColumnWindow(temp[..], width, height, radius, x, y))
  {
    ghost var column := ColumnWindow(temp[..], width, height, radius, x, y);
    var start := WindowStart(y, radius);
    var end := WindowEnd(y, height, radius);
    var a, r, g, b, count := 0, 0, 0, 0, 0;
    var i := start;
    while i <= end
      invariant start <= i <= end + 1
      invariant count == i - start
      invariant a == ChannelSum(column[..count], Alpha)
      invariant r == ChannelSum(column[..count], Red)
      invariant g == ChannelSum(column[..count], Green)
      invariant b == ChannelSum(column[..count], Blue)
    {
      assert i * width + x == Offset(width, height, x, i);
      var pixel := temp[i * width + x];
      assert column[count] == pixel;
      assert column[..count + 1][..count] == column[..count];
      a := a + ChannelOf(pixel, Alpha);
      r := r + ChannelOf(pixel, Red);
      g := g + ChannelOf(pixel, Green);
      b := b + ChannelOf(pixel, Blue);
      count := count + 1;
      i := i + 1;
    }
    assert column[..count] == column;
    QuotientAtMost(a, count, 0xff);
    QuotientAtMost(r, count, 0xff);
    QuotientAtMost(g, count, 0xff);
    QuotientAtMost(b, count, 0xff);
    p := Pack(a / count, r / count, g / count, b / count);
  }

  /** The body of the `x` loop of the horizontal pass: the window of pixel
      (x, y) within row y, averaged. */
  method HorizontalPixel(pixels: array<Argb>, width: nat, height: nat, radius: nat, x: nat, y: nat) returns (p: Argb)
    requires pixels.Length == width * height && x < width && y < height
    ensures y * width + x < width * height
    ensures p == HorizontalPass(pixels[..], width, height, radius)[y * width + x]
  {
    var lineStart := y * width;
    var start := WindowStart(x, radius);
    var end := WindowEnd(x, width, radius);
    assert lineStart + start == Offset(width, height, start, y);
    assert lineStart + end == Offset(width, height, end, y);
    p := RowWindowMean(pixels, lineStart + start, lineStart + end);
    ghost var here := Offset(width, height, x, y);
    assert ColumnOf(width, height, here) == x && RowOf(width, height, here) == y;
    assert RowWindow(pixels[..], width, height, radius, x, y) == pixels[lineStart + start .. lineStart + end + 1];
  }

  /** One turn of the `x` loop of the horizontal pass: with columns
      0 .. x - 1 of row y written, column x is written as well. */
  method HorizontalStep(pixels: array<Argb>, temp: array<Argb>, width: nat, height: nat, radius: nat, x: nat, y: nat)
    requires pixels != temp
    requires pixels.Length == width * height && temp.Length == width * height && x < width && y < height
    requires y * width + width <= width * height
    requires forall i :: y * width <= i < y * width + x ==> temp[i] == HorizontalPass(pixels[..], width, height, radius)[i]
    modifies temp
    ensures forall i :: y * width <= i < y * width + x + 1 ==> temp[i] == HorizontalPass(pixels[..], width, height, radius)[i]
    ensures forall i :: 0 <= i < temp.Length && i != y * width + x ==> temp[i] == old(temp[i])
  {
    var mean := HorizontalPixel(pixels, width, height, radius, x, y);
    temp[y * width + x] := mean;
  }

  /** One row of the horizontal pass: the `x` loop for a fixed `y`, which
      writes the offsets of row y and no others. */
  method HorizontalRowInto(pixels: array<Argb>, temp: array<Argb>, width: nat, height: nat, radius: nat, y: nat)
    requires pixels != temp
    requires pixels.Length == width * height && temp.Length == width * height && y < height
    modifies temp
    ensures y * width + width <= width * height
    ensures forall i :: y * width <= i < y * width + width ==> temp[i] == HorizontalPass(pixels[..], width, height, radius)[i]
    ensures forall i :: 0 <= i < temp.Length && !(y * width <= i < y * width + width) ==> temp[i] == old(temp[i])
  {
    RowEnd(width, height, y);
    var x := 0;
    while x < width
      invariant 0 <= x <= width
      invariant forall i :: y * width <= i < y * width + x ==> temp[i] == HorizontalPass(pixels[..], width, height, radius)[i]
      invariant forall i :: 0 <= i < temp.Length && !(y * width <= i < y * width + width) ==> temp[i] == old(temp[i])
    {
      HorizontalStep(pixels, temp, width, height, radius, x, y);
      x := x + 1;
    }
  }

  /** The horizontal pass of `fastBoxBlur`: reads `pixels` row by row, writes
      every entry of `temp`, and leaves `pixels` alone. */
  method HorizontalPassInto(pixels: array<Argb>, temp: array<Argb>, width: nat, height: nat, radius: nat)
    requires pixels != temp
    requires pixels.Length == width * height && temp.Length == width * height
    modifies temp
    ensures temp[..] == HorizontalPass(pixels[..], width, height, radius)
  {
    ghost var spec := HorizontalPass(pixels[..], width, height, radius);
    var y := 0;
    while y < height
      invariant 0 <= y <= height
      invariant forall i :: 0 <= i < y * width ==> temp[i] == spec[i]
    {
      HorizontalRowInto(pixels, temp, width, height, radius, y);
      NextRow(y, width);
      y := y + 1;
    }
    assert forall i :: 0 <= i < width * height ==> temp[i] == spec[i];
  }

  /** One column of the vertical pass: the `y` loop for a fixed `x`. */
  method VerticalColumnInto(temp: array<Argb>, pixels: array<Argb>, width: nat, height: nat, radius: nat, x: nat)
    requires pixels != temp
    requires pixels.Length == width * height && temp.Length == width * height && x < width
    modifies pixels
    ensures forall i :: 0 <= i < width * height && ColumnOf(width, height, i) == x ==>
              pixels[i] == VerticalPass(temp[..], width, height, radius)[i]
    ensures forall i :: 0 <= i < width * height && ColumnOf(width, height, i) != x ==> pixels[i] == old(pixels[i])
  {
    ghost var spec := VerticalPass(temp[..], width, height, radius);
    var y := 0;
    while y < height
      invariant 0 <= y <= height
      invariant forall i :: 0 <= i < width * height && ColumnOf(width, height, i) == x && RowOf(width, height, i) < y ==>
                  pixels[i] == spec[i]
      invariant forall i :: 0 <= i < width * height && ColumnOf(width, height, i) != x ==> pixels[i] == old(pixels[i])
    {
      assert y * width + x == Offset(width, height, x, y);
      var mean := ColumnWindowMean(temp, width, height, radius, x, y);
      assert mean == spec[y * width + x];
      pixels[y * width + x] := mean;
      y := y + 1;
    }
  }

  /** The vertical pass of `fastBoxBlur`: reads `temp` column by column and
      writes every entry of `pixels`. */
  method VerticalPassInto(temp: array<Argb>, pixels: array<Argb>, width: nat, height: nat, radius: nat)
    requires pixels != temp
    requires pixels.Length == width * height && temp.Length == width * height
    modifies pixels
    ensures pixels[..] == VerticalPass(temp[..], width, height, radius)
  {
    ghost var spec := VerticalPass(temp[..], width, height, radius);
    var x := 0;
    while x < width
      invariant 0 <= x <= width
      invariant forall i :: 0 <= i < width * height && ColumnOf(width, height, i) < x ==> pixels[i] == spec[i]
    {
      VerticalColumnInto(temp, pixels, width, height, radius, x);
      x := x + 1;
    }
    assert forall i :: 0 <= i < width * height ==> pixels[i] == spec[i];
  }

  /** `fastBoxBlur(pixels, width, height, radius)`: the horizontal pass into a
      fresh zero-filled `temp`, then the vertical pass from `temp` back into `pixels`. */
  method FastBoxBlur(pixels: array<Argb>, width: nat, height: nat, radius: nat)
    requires pixels.Length == width * height
    modifies pixels
    ensures pixels[..] == BoxBlur(old(pixels[..]), width, height, radius)
  {
    var temp := new Argb[pixels.Length];
    HorizontalPassInto(pixels, temp, width, height, radius);
    VerticalPassInto(temp, pixels, width, height, radius);
  }

  // ----- What the blur keeps -----

  /** The horizontal pass maps an image of one colour to itself. */
  lemma HorizontalPassUniform(s: seq<Argb>, width: nat, height: nat, radius: nat, p: Argb)
    requires |s| == width * height
    requires forall i :: 0 <= i < |s| ==> s[i] == p
    ensures HorizontalPass(s, width, height, radius) == s
  {
    var t := HorizontalPass(s, width, height, radius);
    forall i | 0 <= i < width * height
      ensures t[i] == s[i]
    {
      var ws := RowWindow(s, width, height, radius, ColumnOf(width, height, i), RowOf(width, height, i));
      MeanOfUniform(ws, p);
    }
  }

  /** The vertical pass maps an image of one colour to itself. */
  lemma VerticalPassUniform(t: seq<Argb>, width: nat, height: nat, radius: nat, p: Argb)
    requires |t| == width * height
    requires forall i :: 0 <= i < |t| ==> t[i] == p
    ensures VerticalPass(t, width, height, radius) == t
  {
    var u := VerticalPass(t, width, height, radius);
    forall i | 0 <= i < width * height
      ensures u[i] == t[i]
    {
      var x, y := ColumnOf(width, height, i), RowOf(width, height, i);
      var ws := ColumnWindow(t, width, height, radius, x, y);
      ColumnWindowElements(t, width, height, radius, x, y);
      MeanOfUniform(ws, p);
    }
  }

  /** Blurring an image of one colour leaves it unchanged, at every radius. */
  lemma BoxBlurUniform(s: seq<Argb>, width: nat, height: nat, radius: nat, p: Argb)
    requires |s| == width * height
    requires forall i :: 0 <= i < |s| ==> s[i] == p
    ensures BoxBlur(s, width, height, radius) == s
  {
    HorizontalPassUniform(s, width, height, radius, p);
    VerticalPassUniform(s, width, height, radius, p);
  }

  /** The horizontal pass keeps every channel within the range it had. */
  lemma HorizontalPassWithin(s: seq<Argb>, width: nat, height: nat, radius: nat, c: Channel, lo: int, hi: int)
    requires |s| == width * height
    requires forall i :: 0 <= i < |s| ==> lo <= ChannelOf(s[i], c) <= hi
    ensures forall i :: 0 <= i < width * height ==> lo <= ChannelOf(HorizontalPass(s, width, height, radius)[i], c) <= hi
  {
    var t := HorizontalPass(s, width, height, radius);
    forall i | 0 <= i < width * height
      ensures lo <= ChannelOf(t[i], c) <= hi
    {
      var ws := RowWindow(s, width, height, radius, ColumnOf(width, height, i), RowOf(width, height, i));
      MeanWithin(ws, c, lo, hi);
    }
  }

  /** The vertical pass keeps every channel within the range it had. */
  lemma VerticalPassWithin(t: seq<Argb>, width: nat, height: nat, radius: nat, c: Channel, lo: int, hi: int)
    requires |t| == width * height
    requires forall i :: 0 <= i < |t| ==> lo <= ChannelOf(t[i], c) <= hi
    ensures forall i :: 0 <= i < width * height ==> lo <= ChannelOf(VerticalPass(t, width, height, radius)[i], c) <= hi
  {
    var u := VerticalPass(t, width, height, radius);
    forall i | 0 <= i < width * height
      ensures lo <= ChannelOf(u[i], c) <= hi
    {
      var x, y := ColumnOf(width, height, i), RowOf(width, height, i);
      var ws := ColumnWindow(t, width, height, radius, x, y);
      ColumnWindowElements(t, width, height, radius, x, y);
      MeanWithin(ws, c, lo, hi);
    }
  }

  /** Blurring never takes a channel outside the range it spans in the input:
      no pixel gets darker than the darkest or lighter than the lightest. */
  lemma BoxBlurWithin(s: seq<Argb>, width: nat, height: nat, radius: nat, c: Channel, lo: int, hi: int)
    requires |s| == width * height
    requires forall i :: 0 <= i < |s| ==> lo <= ChannelOf(s[i], c) <= hi
    ensures forall i :: 0 <= i < width * height ==> lo <= ChannelOf(BoxBlur(s, width, height, radius)[i], c) <= hi
  {
    HorizontalPassWithin(s, width, height, radius, c, lo, hi);
    VerticalPassWithin(HorizontalPass(s, width, height, radius), width, height, radius, c, lo, hi);
  }

  // ----- performFallbackBlur -----

  /** Kotlin's `Float.toInt()`: the integer part, rounding toward zero. */
  function Truncate(x: real): (n: int)
    ensures 0.0 <= x ==> n as real <= x < n as real + 1.0
    ensures x <= 0.0 ==> n as real - 1.0 < x <= n as real
  {
    if x >= 0.0 then x.Floor else -((-x).Floor)
  }

  /** `radius.toInt().coerceIn(1, 10)`: the integer kernel radius the fallback
      blur uses for a requested radius. */
  function KernelRadius(radius: real): (k: nat)
    ensures 1 <= k <= 10
    ensures radius >= 1.0 ==> k as real <= radius
    ensures k < 10 && radius >= 1.0 ==> radius < k as real + 1.0
    ensures k > 1 ==> radius >= k as real
  {
    var n := Truncate(radius);
    if n < 1 then 1 else if n > 10 then 10 else n
  }

  /** What `performFallbackBlur` returns: a radius below 1 gives an unchanged
      copy, any other the box blur of the pixels with the kernel radius. */
  function FallbackBlur(bitmap: Bitmap, radius: real): (blurred: Bitmap)
    ensures blurred.width == bitmap.width && blurred.height == bitmap.height
  {
    if radius < 1.0 then bitmap
    else Image(bitmap.width, bitmap.height, BoxBlur(bitmap.pixels, bitmap.width, bitmap.height, KernelRadius(radius)))
  }

  /** The fallback blur of a one-colour bitmap is that bitmap, at any radius. */
  lemma FallbackBlurUniform(bitmap: Bitmap, radius: real, p: Argb)
    requires forall i :: 0 <= i < |bitmap.pixels| ==> bitmap.pixels[i] == p
    ensures FallbackBlur(bitmap, radius) == bitmap
  {
    if radius >= 1.0 {
      BoxBlurUniform(bitmap.pixels, bitmap.width, bitmap.height, KernelRadius(radius), p);
    }
  }

  /** The fallback blur keeps every channel within the range it spans in the input. */
  lemma FallbackBlurWithin(bitmap: Bitmap, radius: real, c: Channel, lo: int, hi: int)
    requires forall i :: 0 <= i < |bitmap.pixels| ==> lo <= ChannelOf(bitmap.pixels[i], c) <= hi
    ensures forall i :: 0 <= i < |bitmap.pixels| ==> lo <= ChannelOf(FallbackBlur(bitmap, radius).pixels[i], c) <= hi
  {
    if radius >= 1.0 {
      BoxBlurWithin(bitmap.pixels, bitmap.width, bitmap.height, KernelRadius(radius), c, lo, hi);
    }
  }

  /** `performFallbackBlur`: below radius 1 a copy; otherwise the pixels are
      read into an `IntArray` (getPixels), blurred in place by `fastBoxBlur`
      and written back (setPixels) into a mutable copy of the bitmap. */
  method PerformFallbackBlur(bitmap: Bitmap, radius: real) returns (blurred: Bitmap)
    ensures blurred == FallbackBlur(bitmap, radius)
  {
    if radius < 1.0 {
      return bitmap;
    }
    var n := bitmap.width * bitmap.height;
    var pixels := new Argb[n](i requires 0 <= i < n => bitmap.pixels[i]);
    assert pixels[..] == bitmap.pixels;
    FastBoxBlur(pixels, bitmap.width, bitmap.height, KernelRadius(radius));
    blurred := Image(bitmap.width, bitmap.height, pixels[..]);
  }
}
