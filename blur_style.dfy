/** The view's mapping from a blur type and a blur amount to a blur radius
    and an overlay colour (`updateBlurParameters`), and the amount clamp of
    `setBlurAmount`. */
module BlurStyle {
  import opened Pixels
  import opened BoxFilter

  /** One row of the style table: the radius at full intensity, the overlay
      opacity at full intensity, and the grey level of the overlay. */
  datatype Style = Style(radiusScale: real, overlayOpacity: real, shade: Byte)

  /** The blur types the table names; every other type is drawn as "regular". */
  predicate IsKnownBlurType(blurType: string) {
    blurType in {"light", "extraLight", "dark", "regular", "prominent", "systemUltraThinMaterial",
                 "systemThinMaterial", "systemMaterial", "systemThickMaterial", "systemChromeMaterial"}
  }

  /** The `when (blurType)` table. */
  function StyleOf(blurType: string): (style: Style)
    ensures 4.0 <= style.radiusScale <= 12.0
    ensures 0.2 <= style.overlayOpacity <= 0.85
  {
    match blurType
    case "light" => Style(8.0, 0.7, 255)
    case "extraLight" => Style(6.0, 0.85, 255)
    case "dark" => Style(10.0, 0.7, 20)
    case "regular" => Style(8.0, 0.4, 255)
    case "prominent" => Style(12.0, 0.5, 240)
    case "systemUltraThinMaterial" => Style(4.0, 0.2, 250)
    case "systemThinMaterial" => Style(6.0, 0.35, 245)
    case "systemMaterial" => Style(8.0, 0.5, 240)
    case "systemThickMaterial" => Style(12.0, 0.65, 235)
    case "systemChromeMaterial" => Style(10.0, 0.8, 248)
    case _ => Style(8.0, 0.4, 255)
  }

  /** A type the table does not name gets exactly the radius and overlay of "regular". */
  lemma UnknownTypeIsRegular(blurType: string)
    requires !IsKnownBlurType(blurType)
    ensures StyleOf(blurType) == StyleOf("regular")
  {
  }

  /** `max(0f, min(100f, amount))` */
  function ClampAmount(amount: real): (clamped: real)
    ensures 0.0 <= clamped <= 100.0
    ensures 0.0 <= amount <= 100.0 ==> clamped == amount
    ensures amount < 0.0 ==> clamped == 0.0
    ensures amount > 100.0 ==> clamped == 100.0
  {
    if 100.0 < amount then 100.0 else if amount < 0.0 then 0.0 else amount
  }

  /** Clamping twice is clamping once. */
  lemma ClampAmountIdempotent(amount: real)
    ensures ClampAmount(ClampAmount(amount)) == ClampAmount(amount)
  {
  }

  /** `max(0.1f, min(radius, 25f))`: a radius within [0.1, 25] is kept, one
      outside is moved to the nearer bound. */
  function ClampRadius(raw: real): (radius: real)
    ensures 0.1 <= radius <= 25.0
    ensures 0.1 <= raw <= 25.0 ==> radius == raw
  {
    var capped := if raw < 25.0 then raw else 25.0;
    if 0.1 < capped then capped else 0.1
  }

  /** The blur radius `updateBlurParameters` sets: intensity (amount / 100)
      times the type's scale, then clamped to [0.1, 25]. */
  function BlurRadiusFor(blurType: string, blurAmount: real): (radius: real)
    ensures 0.1 <= radius <= 25.0
  {
    ClampRadius(blurAmount / 100.0 * StyleOf(blurType).radiusScale)
  }

  /** For an amount in [0, 100] the radius is the type's scale times the
      intensity, raised to 0.1 at the bottom: the cap of 25 never binds,
      because no type scales beyond 12. */
  lemma BlurRadiusWithinScale(blurType: string, blurAmount: real)
    requires 0.0 <= blurAmount <= 100.0
    ensures var raw := blurAmount / 100.0 * StyleOf(blurType).radiusScale;
            BlurRadiusFor(blurType, blurAmount) == (if raw < 0.1 then 0.1 else raw)
    ensures BlurRadiusFor(blurType, blurAmount) <= StyleOf(blurType).radiusScale <= 12.0
  {
    var s := StyleOf(blurType).radiusScale;
    var i := blurAmount / 100.0;
    assert i * s <= 1.0 * s;
  }

  /** More blur amount never gives a smaller radius. */
  lemma BlurRadiusMonotone(blurType: string, a1: real, a2: real)
    requires a1 <= a2
    ensures BlurRadiusFor(blurType, a1) <= BlurRadiusFor(blurType, a2)
  {
    var s := StyleOf(blurType).radiusScale;
    assert a1 / 100.0 * s <= a2 / 100.0 * s;
  }

  /** `(opacity * intensity * 255).toInt()` for an opacity and an intensity in [0, 1]. */
  function OverlayAlpha(opacity: real, intensity: real): (alpha: Byte)
    requires 0.0 <= opacity <= 1.0 && 0.0 <= intensity <= 1.0
    ensures alpha as real <= opacity * intensity * 255.0 < alpha as real + 1.0
  {
    ScaleWithinUnit(opacity, intensity);
    ScaleWithinUnit(opacity * intensity, 255.0);
    Truncate(opacity * intensity * 255.0)
  }

  /** Scaling a non-negative value by a factor in [0, 1] keeps it between 0 and itself. */
  lemma ScaleWithinUnit(factor: real, v: real)
    requires 0.0 <= factor <= 1.0 && 0.0 <= v
    ensures 0.0 <= factor * v <= v
  {
    assert v - factor * v == (1.0 - factor) * v;
  }

  /** The overlay colour `updateBlurParameters` sets:
      `Color.argb(alpha, shade, shade, shade)` with the alpha above. */
  function OverlayColorFor(blurType: string, blurAmount: real): (color: Argb)
    requires 0.0 <= blurAmount <= 100.0
    ensures ChannelOf(color, Alpha) == OverlayAlpha(StyleOf(blurType).overlayOpacity, blurAmount / 100.0)
    ensures ChannelOf(color, Red) == ChannelOf(color, Green) == ChannelOf(color, Blue) == StyleOf(blurType).shade
  {
    var style := StyleOf(blurType);
    var alpha := OverlayAlpha(style.overlayOpacity, blurAmount / 100.0);
    UnpackPack(alpha, style.shade, style.shade, style.shade, Alpha);
    UnpackPack(alpha, style.shade, style.shade, style.shade, Red);
    UnpackPack(alpha, style.shade, style.shade, style.shade, Green);
    UnpackPack(alpha, style.shade, style.shade, style.shade, Blue);
    Pack(alpha, style.shade, style.shade, style.shade)
  }

  /** The overlay is invisible at amount 0 and at most 85% opaque at any amount. */
  lemma OverlayAlphaBounds(blurType: string, blurAmount: real)
    requires 0.0 <= blurAmount <= 100.0
    ensures blurAmount == 0.0 ==> ChannelOf(OverlayColorFor(blurType, blurAmount), Alpha) == 0
    ensures ChannelOf(OverlayColorFor(blurType, blurAmount), Alpha) <= 216
  {
    var o, i := StyleOf(blurType).overlayOpacity, blurAmount / 100.0;
    assert o * i <= 0.85 * i <= 0.85;
  }
}
