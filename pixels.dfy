/** Packed 32-bit ARGB pixels, their four 8-bit channels, per-channel averaging,
    row-major pixel buffers and bitmaps. Shared by the blur engine and the view. */
module Pixels {
  import opened Arith

  /** A packed pixel, read as the unsigned value of its 32 bits. A Kotlin `Int`
      holds the same bits; `(pixel shr k) and 0xff` reads the same byte from
      either view, and or-ing shifted bytes that do not overlap is addition. */
  type Argb = p: int | 0 <= p < 0x1_0000_0000

  /** One 8-bit channel value. */
  type Byte = c: int | 0 <= c < 0x100

  datatype Channel = Alpha | Red | Green | Blue

  /** `(pixel shr 24) and 0xff`, `(pixel shr 16) and 0xff`, `(pixel shr 8) and 0xff`, `pixel and 0xff` */
  function ChannelOf(p: Argb, c: Channel): Byte {
    match c
    case Alpha => (p / 0x100_0000) % 0x100
    case Red => (p / 0x1_0000) % 0x100
    case Green => (p / 0x100) % 0x100
    case Blue => p % 0x100
  }

  /** `(a shl 24) or (r shl 16) or (g shl 8) or b` for four bytes. */
  function Pack(a: Byte, r: Byte, g: Byte, b: Byte): Argb {
    a * 0x100_0000 + r * 0x1_0000 + g * 0x100 + b
  }

  /** The argument of Pack that lands in channel c. */
  function Select(c: Channel, a: Byte, r: Byte, g: Byte, b: Byte): Byte {
    match c
    case Alpha => a
    case Red => r
    case Green => g
    case Blue => b
  }

  /** Unpacking a packed pixel gives back the four bytes it was packed from. */
  lemma UnpackPack(a: Byte, r: Byte, g: Byte, b: Byte, c: Channel)
    ensures ChannelOf(Pack(a, r, g, b), c) == Select(c, a, r, g, b)
  {
    var p := Pack(a, r, g, b);
    DivMod(p, 0x100_0000, a, r * 0x1_0000 + g * 0x100 + b);
    DivMod(p, 0x1_0000, a * 0x100 + r, g * 0x100 + b);
    DivMod(p, 0x100, a * 0x1_0000 + r * 0x100 + g, b);
    DivMod(a * 0x100 + r, 0x100, a, r);
    DivMod(a * 0x1_0000 + r * 0x100 + g, 0x100, a * 0x100 + r, g);
  }

  /** Packing the four channels of a pixel gives back that pixel. */
  lemma PackUnpack(p: Argb)
    ensures Pack(ChannelOf(p, Alpha), ChannelOf(p, Red), ChannelOf(p, Green), ChannelOf(p, Blue)) == p
  {
    var b, q1 := p % 0x100, p / 0x100;
    var g, q2 := q1 % 0x100, q1 / 0x100;
    var r, a := q2 % 0x100, q2 / 0x100;
    assert p == a * 0x100_0000 + r * 0x1_0000 + g * 0x100 + b;
    DivMod(p, 0x1_0000, q2, g * 0x100 + b);
    DivMod(p, 0x100_0000, a, r * 0x1_0000 + g * 0x100 + b);
    assert ChannelOf(p, Alpha) == a && ChannelOf(p, Red) == r;
    assert ChannelOf(p, Green) == g && ChannelOf(p, Blue) == b;
  }

  /** Two pixels with the same four channels are the same pixel. */
  lemma ChannelsDetermine(p: Argb, q: Argb)
    requires forall c: Channel :: ChannelOf(p, c) == ChannelOf(q, c)
    ensures p == q
  {
    PackUnpack(p);
    PackUnpack(q);
    assert ChannelOf(p, Alpha) == ChannelOf(q, Alpha);
    assert ChannelOf(p, Red) == ChannelOf(q, Red);
    assert ChannelOf(p, Green) == ChannelOf(q, Green);
    assert ChannelOf(p, Blue) == ChannelOf(q, Blue);
  }

  /** The running per-channel total kept by the blur loops (`a += (pixel shr 24) and 0xff`, ...). */
  function ChannelSum(ws: seq<Argb>, c: Channel): (s: nat)
    ensures s <= 0xff * |ws|
  {
    if |ws| == 0 then 0 else ChannelSum(ws[..|ws| - 1], c) + ChannelOf(ws[|ws| - 1], c)
  }

  /** The pixel whose every channel is the integer average (rounded down) of
      that channel over the run: `(a / count shl 24) or (r / count shl 16) or ...`. */
  function Mean(ws: seq<Argb>): (m: Argb)
    requires |ws| > 0
    ensures forall c: Channel :: ChannelOf(m, c) == ChannelSum(ws, c) / |ws|
  {
    var n := |ws|;
    QuotientAtMost(ChannelSum(ws, Alpha), n, 0xff);
    QuotientAtMost(ChannelSum(ws, Red), n, 0xff);
    QuotientAtMost(ChannelSum(ws, Green), n, 0xff);
    QuotientAtMost(ChannelSum(ws, Blue), n, 0xff);
    var a, r, g, b := ChannelSum(ws, Alpha) / n, ChannelSum(ws, Red) / n, ChannelSum(ws, Green) / n, ChannelSum(ws, Blue) / n;
    UnpackPack(a, r, g, b, Alpha);
    UnpackPack(a, r, g, b, Red);
    UnpackPack(a, r, g, b, Green);
    UnpackPack(a, r, g, b, Blue);
    Pack(a, r, g, b)
  }

  /** A channel that lies in [lo, hi] at every pixel of a run has its sum in [lo * n, hi * n]. */
  lemma {:induction false} ChannelSumBetween(ws: seq<Argb>, c: Channel, lo: int, hi: int)
    requires forall j :: 0 <= j < |ws| ==> lo <= ChannelOf(ws[j], c) <= hi
    ensures lo * |ws| <= ChannelSum(ws, c) <= hi * |ws|
  {
    if |ws| > 0 {
      var n := |ws| - 1;
      var init := ws[..n];
      assert forall j :: 0 <= j < |init| ==> init[j] == ws[j];
      ChannelSumBetween(init, c, lo, hi);
      var s0, x := ChannelSum(init, c), ChannelOf(ws[n], c);
      assert ChannelSum(ws, c) == s0 + x;
      assert lo * n <= s0 <= hi * n;
      assert lo <= x <= hi;
      MulSucc(lo, n);
      MulSucc(hi, n);
    }
  }

  /** Averaging never leaves the range of its inputs: a channel that lies in
      [lo, hi] at every pixel of the run lies in [lo, hi] in their mean. */
  lemma MeanWithin(ws: seq<Argb>, c: Channel, lo: int, hi: int)
    requires |ws| > 0
    requires forall j :: 0 <= j < |ws| ==> lo <= ChannelOf(ws[j], c) <= hi
    ensures lo <= ChannelOf(Mean(ws), c) <= hi
  {
    ChannelSumBetween(ws, c, lo, hi);
    var s := ChannelSum(ws, c);
    if hi >= 0 {
      QuotientAtMost(s, |ws|, hi);
    }
    QuotientAtLeast(s, |ws|, lo);
  }

  /** The mean of a run of equal pixels is that pixel. */
  lemma MeanOfUniform(ws: seq<Argb>, p: Argb)
    requires |ws| > 0
    requires forall j :: 0 <= j < |ws| ==> ws[j] == p
    ensures Mean(ws) == p
  {
    forall c: Channel
      ensures ChannelOf(Mean(ws), c) == ChannelOf(p, c)
    {
      MeanWithin(ws, c, ChannelOf(p, c), ChannelOf(p, c));
    }
    ChannelsDetermine(Mean(ws), p);
  }

  // ----- Row-major buffers -----

  /** The offset `y * width + x` of pixel (x, y) in a row-major buffer;
      dividing it by the width gives back the row and the column. */
  function Offset(width: nat, height: nat, x: nat, y: nat): (i: nat)
    requires x < width && y < height
    ensures i < width * height
    ensures i / width == y && i % width == x
  {
    OffsetFacts(width, height, x, y);
    y * width + x
  }

  lemma OffsetFacts(width: nat, height: nat, x: nat, y: nat)
    requires x < width && y < height
    ensures y * width + x < width * height
    ensures (y * width + x) / width == y && (y * width + x) % width == x
  {
    assert (y + 1) * width == y * width + width;
    MulLe(y + 1, height, width);
    DivMod(y * width + x, width, y, x);
  }

  /** The column of buffer offset i. */
  function ColumnOf(width: nat, height: nat, i: nat): (x: nat)
    requires i < width * height
    ensures x < width
  {
    i % width
  }

  /** The row of buffer offset i. */
  function RowOf(width: nat, height: nat, i: nat): (y: nat)
    requires i < width * height
    ensures y < height
    ensures Offset(width, height, ColumnOf(width, height, i), y) == i
  {
    RowBound(width, height, i);
    i / width
  }

  /** Offsets y * width through y * width + width - 1 are row y, column by column. */
  lemma RowAndColumn(width: nat, height: nat, y: nat, i: nat)
    requires y < height && y * width <= i < y * width + width
    ensures i < width * height
    ensures RowOf(width, height, i) == y && ColumnOf(width, height, i) == i - y * width
  {
    OffsetFacts(width, height, i - y * width, y);
  }

  lemma RowBound(width: nat, height: nat, i: nat)
    requires i < width * height
    ensures i / width < height
  {
    var q := i / width;
    assert q * width <= i;
    MulLe(height, q, width);
  }

  /** The image a bitmap holds: its size and its pixels, row by row. */
  datatype Image = Image(width: nat, height: nat, pixels: seq<Argb>)

  /** An image whose buffer has one pixel per (x, y); Android's getPixels and
      setPixels with stride `width` read and write exactly such a buffer. */
  type Bitmap = b: Image | |b.pixels| == b.width * b.height witness Image(0, 0, [])
}
