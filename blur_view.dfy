/** The blur view: its blur settings, the change flag `needsUpdate`, the
    choice of blur for a captured background, and the redraw that refreshes
    the blurred background only when the flag is set.

    Members whose names end in `AsWritten` follow the view's code exactly,
    including its in-place software blur and its keeping of a recycled
    bitmap; the members of the same name without the suffix are the
    corrected versions. */
module BlurViewState {
  import opened Options
  import opened Pixels
  import opened BoxFilter
  import opened RowBoxBlur
  import opened BlurStyle
  import opened BackgroundCapture

  /** What the RenderScript path does with a background: there is no
      RenderScript (or no blur script), the platform blur threw, or it
      produced a bitmap. The platform's blur itself is not modelled. */
  datatype RenderScriptOutcome = Unavailable | Failed | Blurred(bitmap: Bitmap)

  /** `createBlurredBitmap` as written: an unblurred copy for a radius of at
      most 0, the RenderScript result when it produced one, and otherwise (no
      RenderScript, or RenderScript threw) `blurWithSoftware`, which blurs
      each row in place. */
  function BlurredBitmapAsWritten(source: Bitmap, blurRadius: real, renderScript: RenderScriptOutcome): (blurred: Bitmap)
    ensures !renderScript.Blurred? ==> blurred.width == source.width && blurred.height == source.height
    ensures blurRadius > 0.0 && renderScript.Blurred? ==> blurred == renderScript.bitmap
  {
    if blurRadius <= 0.0 then source
    else match renderScript
      case Blurred(bitmap) => bitmap
      case _ => SoftwareBlurAsWritten(source, blurRadius)
  }

  /** `createBlurredBitmap` with the software blur reading every window from
      the unblurred background. */
  function BlurredBitmap(source: Bitmap, blurRadius: real, renderScript: RenderScriptOutcome): (blurred: Bitmap)
    ensures !renderScript.Blurred? ==> blurred.width == source.width && blurred.height == source.height
    ensures blurRadius > 0.0 && renderScript.Blurred? ==> blurred == renderScript.bitmap
  {
    if blurRadius <= 0.0 then source
    else match renderScript
      case Blurred(bitmap) => bitmap
      case _ => SoftwareBlur(source, blurRadius)
  }

  /** A radius of at most 0 in the dispatcher, or below 1 on the software
      path, gives a copy of the source with every pixel unchanged. */
  lemma BlurredBitmapUnblurred(source: Bitmap, blurRadius: real, renderScript: RenderScriptOutcome)
    requires blurRadius <= 0.0 || (blurRadius < 1.0 && !renderScript.Blurred?)
    ensures BlurredBitmapAsWritten(source, blurRadius, renderScript) == source
    ensures BlurredBitmap(source, blurRadius, renderScript) == source
  {
  }

  /** As written, the software path at radius 1 or more turns row y of the
      background into that row swept in place with k in [1, 10]. Its first
      pixel is the mean of its window in the unmodified row; later pixels
      read neighbours already written (see `InPlaceSweepDiffers`). */
  lemma BlurredBitmapAsWrittenRows(source: Bitmap, blurRadius: real, renderScript: RenderScriptOutcome, y: nat)
    requires blurRadius >= 1.0 && !renderScript.Blurred? && y < source.height
    ensures BlurredBitmapAsWritten(source, blurRadius, renderScript) == SoftwareBlurAsWritten(source, blurRadius)
    ensures var k := KernelRadius(blurRadius);
            var blurred := BlurredBitmapAsWritten(source, blurRadius, renderScript);
            var row := RowSlice(source.pixels, source.width, source.height, y);
            1 <= k <= 10 && y * source.width + source.width <= |blurred.pixels| &&
            (forall x :: 0 <= x < source.width ==> blurred.pixels[y * source.width + x] == SweptRow(row, k)[x]) &&
            (0 < source.width ==> blurred.pixels[y * source.width] == Mean(ClampedWindow(row, 0, k)))
  {
    SoftwareBlurAsWrittenRows(source, blurRadius, y);
  }

  /** Corrected, each channel of each pixel on the software path is the
      channel total over 2k + 1 clamped samples of its row divided by exactly
      2k + 1, where k is the radius truncated and kept within [1, 10]. */
  lemma BlurredBitmapSoftware(source: Bitmap, blurRadius: real, renderScript: RenderScriptOutcome, x: nat, y: nat, c: Channel)
    requires blurRadius >= 1.0 && !renderScript.Blurred? && x < source.width && y < source.height
    ensures var k := KernelRadius(blurRadius);
            1 <= k <= 10 &&
            ChannelOf(BlurredBitmap(source, blurRadius, renderScript).pixels[Offset(source.width, source.height, x, y)], c) ==
              ChannelSum(ClampedWindow(RowSlice(source.pixels, source.width, source.height, y), x, k), c) / (2 * k + 1)
  {
    SoftwareBlurDivisor(source, blurRadius, x, y, c);
  }

  /** Without a RenderScript result, a background of one colour comes back
      unchanged, as written and corrected. */
  lemma BlurredBitmapUniform(source: Bitmap, blurRadius: real, renderScript: RenderScriptOutcome, p: Argb)
    requires !renderScript.Blurred?
    requires forall i :: 0 <= i < |source.pixels| ==> source.pixels[i] == p
    ensures BlurredBitmapAsWritten(source, blurRadius, renderScript) == source
    ensures BlurredBitmap(source, blurRadius, renderScript) == source
  {
    SoftwareBlurAsWrittenUniform(source, blurRadius, p);
    SoftwareBlurUniform(source, blurRadius, p);
  }

  /** Without a RenderScript result no channel leaves the range it spans in
      the background, as written and corrected. */
  lemma BlurredBitmapWithin(source: Bitmap, blurRadius: real, renderScript: RenderScriptOutcome, c: Channel, lo: int, hi: int)
    requires !renderScript.Blurred?
    requires forall i :: 0 <= i < |source.pixels| ==> lo <= ChannelOf(source.pixels[i], c) <= hi
    ensures forall i :: 0 <= i < |source.pixels| ==>
              lo <= ChannelOf(BlurredBitmapAsWritten(source, blurRadius, renderScript).pixels[i], c) <= hi
    ensures forall i :: 0 <= i < |source.pixels| ==>
              lo <= ChannelOf(BlurredBitmap(source, blurRadius, renderScript).pixels[i], c) <= hi
  {
    if blurRadius > 0.0 {
      SoftwareBlurAsWrittenWithin(source, blurRadius, c, lo, hi);
      SoftwareBlurWithin(source, blurRadius, c, lo, hi);
    }
  }

  /** The blurred background after the corrected `updateBlurredBackground`:
      nothing happens for a view with no area; otherwise the part of the root
      behind the view is captured and blurred, and when there is no such part
      the view is left with no background. */
  function RefreshedBackground(previous: Option<Bitmap>, width: nat, height: nat, root: Bitmap, left: int, top: int,
                               blurRadius: real, renderScript: RenderScriptOutcome): (refreshed: Option<Bitmap>)
    ensures width > 0 && height > 0 ==>
              (refreshed.None? <==>
               forall x, y :: !(Contains(ViewRect(left, top, width, height), x, y) && Contains(BitmapRect(root.width, root.height), x, y)))
  {
    if width == 0 || height == 0 then previous
    else match CaptureViewBackground(root, left, top, width, height)
      case None => None
      case Some(background) => Some(BlurredBitmap(background, blurRadius, renderScript))
  }

  /** A view with an area lying wholly inside the root gets the blur of the
      view-sized rectangle of the root behind it, whatever it showed before. */
  lemma RefreshedInside(previous: Option<Bitmap>, width: nat, height: nat, root: Bitmap, left: int, top: int,
                        blurRadius: real, renderScript: RenderScriptOutcome)
    requires width > 0 && height > 0
    requires 0 <= left && left + width <= root.width && 0 <= top && top + height <= root.height
    ensures RefreshedBackground(previous, width, height, root, left, top, blurRadius, renderScript) ==
              Some(BlurredBitmap(Extract(root, Rect(left, top, left + width, top + height)), blurRadius, renderScript))
  {
    CaptureInside(root, left, top, width, height);
  }

  class BlurView {
    var blurType: string
    var blurAmount: real
    var blurRadius: real
    var overlayColor: Argb
    var needsUpdate: bool
    /** The view's size, as last laid out. */
    var width: nat
    var height: nat
    /** `blurredBitmap`: the blurred background drawn behind the content. */
    var blurredBitmap: Option<Bitmap>
    /** Whether `blurredBitmap` has been recycled since it was stored. */
    var blurredRecycled: bool

    /** The amount stays within [0, 100], and the radius and the overlay are
        the ones the style table gives for the current type and amount. */
    ghost predicate Valid()
      reads this
    {
      0.0 <= blurAmount <= 100.0 &&
      blurRadius == BlurRadiusFor(blurType, blurAmount) &&
      overlayColor == OverlayColorFor(blurType, blurAmount)
    }

    /** The background the view would draw is not a recycled bitmap: what the
        corrected redraw keeps, and what the redraw as written can lose. */
    ghost predicate Live()
      reads this
    {
      !blurredRecycled
    }

    /** The defaults ("regular" at amount 100) with the style applied by
        `init`: radius 8 and a white overlay of alpha 102. */
    constructor()
      ensures Valid() && Live()
      ensures blurType == "regular" && blurAmount == 100.0 && needsUpdate
      ensures blurRadius == 8.0 && ChannelOf(overlayColor, Alpha) == 102
      ensures width == 0 && height == 0 && blurredBitmap == None
    {
      blurType := "regular";
      blurAmount := 100.0;
      blurRadius := 25.0;
      overlayColor := 0;
      needsUpdate := true;
      width, height := 0, 0;
      blurredBitmap := None;
      blurredRecycled := false;
      new;
      UpdateBlurParameters();
    }

    /** `updateBlurParameters`: the radius is the intensity times the type's
        scale, kept within [0.1, 25]; the overlay is the type's shade at the
        type's opacity times the intensity. Nothing else changes. */
    method UpdateBlurParameters()
      requires 0.0 <= blurAmount <= 100.0
      modifies this
      ensures blurType == old(blurType) && blurAmount == old(blurAmount) && needsUpdate == old(needsUpdate)
      ensures blurRadius == BlurRadiusFor(blurType, blurAmount) && 0.1 <= blurRadius <= 25.0
      ensures overlayColor == OverlayColorFor(blurType, blurAmount)
      ensures width == old(width) && height == old(height)
      ensures blurredBitmap == old(blurredBitmap) && blurredRecycled == old(blurredRecycled)
    {
      var intensity := blurAmount / 100.0;
      var style := StyleOf(blurType);
      blurRadius := intensity * style.radiusScale;
      overlayColor := Pack(OverlayAlpha(style.overlayOpacity, intensity), style.shade, style.shade, style.shade);
      blurRadius := ClampRadius(blurRadius);
    }

    /** `setBlurType`: a type equal to the current one changes nothing;
        another type is stored, restyles the view and marks it for update. */
    method SetBlurType(newType: string)
      requires Valid()
      modifies this
      ensures Valid()
      ensures newType == old(blurType) ==> unchanged(this)
      ensures newType != old(blurType) ==> blurType == newType && needsUpdate
      ensures blurAmount == old(blurAmount) && width == old(width) && height == old(height)
      ensures blurredBitmap == old(blurredBitmap) && blurredRecycled == old(blurredRecycled)
    {
      if blurType != newType {
        blurType := newType;
        UpdateBlurParameters();
        needsUpdate := true;
      }
    }

    /** `setBlurAmount`: the amount is clamped to [0, 100]; a clamped amount
        equal to the current one changes nothing, another is stored,
        restyles the view and marks it for update. */
    method SetBlurAmount(amount: real)
      requires Valid()
      modifies this
      ensures Valid()
      ensures ClampAmount(amount) == old(blurAmount) ==> unchanged(this)
      ensures ClampAmount(amount) != old(blurAmount) ==> needsUpdate
      ensures blurAmount == ClampAmount(amount)
      ensures blurType == old(blurType) && width == old(width) && height == old(height)
      ensures blurredBitmap == old(blurredBitmap) && blurredRecycled == old(blurredRecycled)
    {
      var clampedAmount := ClampAmount(amount);
      if blurAmount != clampedAmount {
        blurAmount := clampedAmount;
        UpdateBlurParameters();
        needsUpdate := true;
      }
    }

    /** `onSizeChanged`: the new size is recorded and the view marked for update. */
    method OnSizeChanged(w: nat, h: nat)
      requires Valid()
      modifies this
      ensures Valid()
      ensures width == w && height == h && needsUpdate
      ensures blurType == old(blurType) && blurAmount == old(blurAmount)
      ensures blurredBitmap == old(blurredBitmap) && blurredRecycled == old(blurredRecycled)
    {
      width, height := w, h;
      needsUpdate := true;
    }

    /** `onAttachedToWindow`: the view is marked for update. */
    method OnAttachedToWindow()
      requires Valid()
      modifies this
      ensures Valid()
      ensures needsUpdate
      ensures blurType == old(blurType) && blurAmount == old(blurAmount)
      ensures blurredBitmap == old(blurredBitmap) && blurredRecycled == old(blurredRecycled)
      ensures width == old(width) && height == old(height)
    {
      needsUpdate := true;
    }

    /** `onVisibilityChanged`: becoming visible marks the view for update;
        any other visibility changes nothing. */
    method OnVisibilityChanged(visible: bool)
      requires Valid()
      modifies this
      ensures Valid()
      ensures visible ==> needsUpdate
      ensures !visible ==> unchanged(this)
      ensures blurType == old(blurType) && blurAmount == old(blurAmount)
      ensures blurredBitmap == old(blurredBitmap) && blurredRecycled == old(blurredRecycled)
      ensures width == old(width) && height == old(height)
    {
      if visible {
        needsUpdate := true;
      }
    }

    /** `createBlurredBitmap` with the view's current radius, as written. */
    method CreateBlurredBitmapAsWritten(source: Bitmap, renderScript: RenderScriptOutcome) returns (blurred: Bitmap)
      ensures blurred == BlurredBitmapAsWritten(source, blurRadius, renderScript)
    {
      if blurRadius <= 0.0 {
        return source;
      }
      match renderScript
      case Blurred(bitmap) =>
        blurred := bitmap;
      case _ =>
        blurred := BlurWithSoftwareAsWritten(source, blurRadius);
    }

    /** `createBlurredBitmap` with the corrected software blur. */
    method CreateBlurredBitmap(source: Bitmap, renderScript: RenderScriptOutcome) returns (blurred: Bitmap)
      ensures blurred == BlurredBitmap(source, blurRadius, renderScript)
    {
      if blurRadius <= 0.0 {
        return source;
      }
      match renderScript
      case Blurred(bitmap) =>
        blurred := bitmap;
      case _ =>
        blurred := BlurWithSoftware(source, blurRadius);
    }

    /** `updateBlurredBackground` as written: for a view with an area the old
        blurred bitmap is recycled, and it is replaced only when a background
        is captured; when none is, the recycled bitmap stays in
        `blurredBitmap` for the next draw. */
    method UpdateBlurredBackgroundAsWritten(root: Bitmap, left: int, top: int, renderScript: RenderScriptOutcome)
      requires Valid()
      modifies this
      ensures Valid()
      ensures (width == 0 || height == 0) ==> unchanged(this)
      ensures width > 0 && height > 0 && CaptureViewBackground(root, left, top, width, height).Some? ==>
                blurredBitmap == Some(BlurredBitmapAsWritten(CaptureViewBackground(root, left, top, width, height).value,
                                                             blurRadius, renderScript)) &&
                !blurredRecycled
      ensures width > 0 && height > 0 && CaptureViewBackground(root, left, top, width, height).None? ==>
                blurredBitmap == old(blurredBitmap) && blurredRecycled == (old(blurredBitmap).Some? || old(blurredRecycled))
      ensures blurType == old(blurType) && blurAmount == old(blurAmount) && blurRadius == old(blurRadius)
      ensures overlayColor == old(overlayColor) && needsUpdate == old(needsUpdate)
      ensures width == old(width) && height == old(height)
    {
      if width == 0 || height == 0 {
        return;
      }
      if blurredBitmap.Some? {
        blurredRecycled := true;
      }
      var background := CaptureViewBackground(root, left, top, width, height);
      if background.Some? {
        var blurred := CreateBlurredBitmapAsWritten(background.value, renderScript);
        blurredBitmap := Some(blurred);
        blurredRecycled := false;
      }
    }

    /** `updateBlurredBackground`, corrected: the recycled bitmap is dropped
        and the background is blurred with the corrected software blur, so
        the background becomes the refreshed one and is never recycled. */
    method UpdateBlurredBackground(root: Bitmap, left: int, top: int, renderScript: RenderScriptOutcome)
      requires Valid() && Live()
      modifies this
      ensures Valid() && Live()
      ensures blurredBitmap == RefreshedBackground(old(blurredBitmap), width, height, root, left, top, blurRadius, renderScript)
      ensures blurType == old(blurType) && blurAmount == old(blurAmount) && needsUpdate == old(needsUpdate)
      ensures width == old(width) && height == old(height)
    {
      if width == 0 || height == 0 {
        return;
      }
      blurredBitmap := None;
      var background := CaptureViewBackground(root, left, top, width, height);
      if background.Some? {
        var blurred := CreateBlurredBitmap(background.value, renderScript);
        blurredBitmap := Some(blurred);
      }
    }

    /** `drawWithBackgroundBlur` as written: the background is refreshed
        exactly when the view is marked for update, the mark is cleared, and
        the stored bitmap is drawn, followed by the overlay when it is not
        fully transparent. `drawnRecycled` says whether the bitmap handed to
        the canvas is a recycled one. `root`, `left` and `top` are the root
        view drawn into a bitmap and the view's position at this draw. */
    method DrawWithBackgroundBlurAsWritten(root: Bitmap, left: int, top: int, renderScript: RenderScriptOutcome)
      returns (drawn: Option<Bitmap>, drawnRecycled: bool, overlay: bool)
      requires Valid()
      modifies this
      ensures Valid()
      ensures !needsUpdate
      ensures old(needsUpdate) && width > 0 && height > 0 && CaptureViewBackground(root, left, top, width, height).Some? ==>
                blurredBitmap == Some(BlurredBitmapAsWritten(CaptureViewBackground(root, left, top, width, height).value,
                                                             blurRadius, renderScript)) &&
                !blurredRecycled
      ensures old(needsUpdate) && width > 0 && height > 0 && CaptureViewBackground(root, left, top, width, height).None? ==>
                blurredBitmap == old(blurredBitmap) && blurredRecycled == (old(blurredBitmap).Some? || old(blurredRecycled))
      ensures !old(needsUpdate) || width == 0 || height == 0 ==>
                blurredBitmap == old(blurredBitmap) && blurredRecycled == old(blurredRecycled)
      ensures old(needsUpdate) && width > 0 && height > 0 && old(blurredBitmap).Some? &&
              CaptureViewBackground(root, left, top, width, height).None? ==>
                drawn == old(blurredBitmap) && drawnRecycled
      ensures drawn == blurredBitmap && (drawnRecycled <==> blurredBitmap.Some? && blurredRecycled)
      ensures overlay <==> ChannelOf(overlayColor, Alpha) > 0
      ensures blurType == old(blurType) && blurAmount == old(blurAmount)
      ensures width == old(width) && height == old(height)
    {
      if needsUpdate {
        UpdateBlurredBackgroundAsWritten(root, left, top, renderScript);
        needsUpdate := false;
      }
      drawn := blurredBitmap;
      drawnRecycled := blurredBitmap.Some? && blurredRecycled;
      overlay := ChannelOf(overlayColor, Alpha) > 0;
    }

    /** `drawWithBackgroundBlur` over the corrected refresh: the background is
        refreshed exactly when the view is marked for update, the mark is
        cleared, and the stored background, never a recycled one, is drawn,
        followed by the overlay when it is not fully transparent. */
    method DrawWithBackgroundBlur(root: Bitmap, left: int, top: int, renderScript: RenderScriptOutcome)
      returns (drawn: Option<Bitmap>, overlay: bool)
      requires Valid() && Live()
      modifies this
      ensures Valid() && Live()
      ensures !needsUpdate
      ensures old(needsUpdate) ==>
                blurredBitmap == RefreshedBackground(old(blurredBitmap), width, height, root, left, top, blurRadius, renderScript)
      ensures !old(needsUpdate) ==> blurredBitmap == old(blurredBitmap)
      ensures drawn == blurredBitmap
      ensures overlay <==> ChannelOf(overlayColor, Alpha) > 0
      ensures blurType == old(blurType) && blurAmount == old(blurAmount)
      ensures width == old(width) && height == old(height)
    {
      if needsUpdate {
        UpdateBlurredBackground(root, left, top, renderScript);
        needsUpdate := false;
      }
      drawn := blurredBitmap;
      overlay := ChannelOf(overlayColor, Alpha) > 0;
    }
  }
}
