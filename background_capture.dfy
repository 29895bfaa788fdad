/** `captureViewBackground`: the part of the root view's bitmap that lies
    behind the blur view, found by clamping the view's rectangle to the
    bitmap and cutting that rectangle out. */
module BackgroundCapture {
  import opened Options
  import opened Pixels

  /** A rectangle [left, right) x [top, bottom) in window coordinates. */
  datatype Rect = Rect(left: int, top: int, right: int, bottom: int)

  predicate Contains(r: Rect, x: int, y: int) {
    r.left <= x < r.right && r.top <= y < r.bottom
  }

  /** The view at `location` with the view's width and height. */
  function ViewRect(left: int, top: int, width: nat, height: nat): Rect {
    Rect(left, top, left + width, top + height)
  }

  /** The rectangle a bitmap covers. */
  function BitmapRect(bitmapWidth: nat, bitmapHeight: nat): Rect {
    Rect(0, 0, bitmapWidth, bitmapHeight)
  }

  function Max(a: int, b: int): int { if a < b then b else a }
  function Min(a: int, b: int): int { if a < b then a else b }

  /** The crop clamping: `max(0, left)`, `max(0, top)`,
      `min(bitmap.width, right)`, `min(bitmap.height, bottom)`, and no crop
      unless the result has positive width and height. The crop is exactly
      the part of the view inside the bitmap, and there is none exactly when
      the view and the bitmap do not overlap. */
  function ClampToBitmap(view: Rect, bitmapWidth: nat, bitmapHeight: nat): (crop: Option<Rect>)
    ensures crop.Some? ==> 0 <= crop.value.left < crop.value.right <= bitmapWidth
    ensures crop.Some? ==> 0 <= crop.value.top < crop.value.bottom <= bitmapHeight
    ensures crop.Some? ==> forall x, y :: Contains(crop.value, x, y) <==>
                                          Contains(view, x, y) && Contains(BitmapRect(bitmapWidth, bitmapHeight), x, y)
    ensures crop.None? <==> forall x, y :: !(Contains(view, x, y) && Contains(BitmapRect(bitmapWidth, bitmapHeight), x, y))
  {
    var clampedLeft := Max(0, view.left);
    var clampedTop := Max(0, view.top);
    var clampedRight := Min(bitmapWidth, view.right);
    var clampedBottom := Min(bitmapHeight, view.bottom);
    if clampedRight > clampedLeft && clampedBottom > clampedTop then
      assert Contains(view, clampedLeft, clampedTop);
      Some(Rect(clampedLeft, clampedTop, clampedRight, clampedBottom))
    else
      None
  }

  /** `Bitmap.createBitmap(source, x, y, width, height)`: the pixels of the
      rectangle, row by row. Pixel (x, y) of the result is pixel
      (left + x, top + y) of the source. */
  function Extract(source: Bitmap, crop: Rect): (part: Bitmap)
    requires 0 <= crop.left < crop.right <= source.width
    requires 0 <= crop.top < crop.bottom <= source.height
    ensures part.width == crop.right - crop.left && part.height == crop.bottom - crop.top
    ensures forall x: nat, y: nat :: x < part.width && y < part.height ==>
              part.pixels[Offset(part.width, part.height, x, y)] ==
              source.pixels[Offset(source.width, source.height, crop.left + x, crop.top + y)]
  {
    var width: nat, height: nat := crop.right - crop.left, crop.bottom - crop.top;
    var pixels := seq(width * height, i requires 0 <= i < width * height =>
      source.pixels[Offset(source.width, source.height, crop.left + ColumnOf(width, height, i), crop.top + RowOf(width, height, i))]);
    Image(width, height, pixels)
  }

  /** `captureViewBackground` once the root view has been drawn into `root`
      and the view's position in the window is known: no bitmap for an empty
      root, none when the view lies outside the root bitmap, otherwise the
      part of the root bitmap behind the view. */
  function CaptureViewBackground(root: Bitmap, left: int, top: int, width: nat, height: nat): (background: Option<Bitmap>)
    ensures background.None? <==>
              forall x, y :: !(Contains(ViewRect(left, top, width, height), x, y) && Contains(BitmapRect(root.width, root.height), x, y))
    ensures background.Some? ==>
              ClampToBitmap(ViewRect(left, top, width, height), root.width, root.height).Some? &&
              background.value == Extract(root, ClampToBitmap(ViewRect(left, top, width, height), root.width, root.height).value)
  {
    if root.width == 0 || root.height == 0 then
      None
    else
      match ClampToBitmap(ViewRect(left, top, width, height), root.width, root.height)
      case None => None
      case Some(crop) => Some(Extract(root, crop))
  }

  /** A view lying wholly inside the root bitmap gets the full view-sized
      rectangle of the root behind it. */
  lemma CaptureInside(root: Bitmap, left: int, top: int, width: nat, height: nat)
    requires 0 <= left && left + width <= root.width && 0 <= top && top + height <= root.height
    requires width > 0 && height > 0
    ensures CaptureViewBackground(root, left, top, width, height) ==
              Some(Extract(root, Rect(left, top, left + width, top + height)))
  {
  }
}
