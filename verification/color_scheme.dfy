/** The last steps of the extractor: `processImage` turning a sampled
    canvas into one HSL colour, and `generateColorScheme` turning a hue
    into three gradient stops. */
module ColorScheme {
  import opened Wrappers
  import opened Colors
  import opened ColorSampling
  import opened KMeans

  /** Side of the square canvas the cover is drawn onto. */
  const CanvasSize: nat := 200

  /** The colour used when there is no 2D context or no usable sample. */
  const DefaultColor: HslColor := HslColor(0.0, 70.0, 80.0)

  /** `processImage`, from the canvas's pixel buffer on: `None` stands
      for a canvas without a 2D context. */
  function ProcessImage(pixels: Option<seq<Byte>>): (hsl: HslColor)
    requires pixels.Some? ==> IsRgbaBuffer(pixels.value)
    ensures pixels.None? ==> hsl == DefaultColor
    ensures pixels.Some? && |ExtractRgbColors(pixels.value)| == 0 ==> hsl == DefaultColor
    ensures 0.0 <= hsl.hue < 360.0
    ensures 0.0 <= hsl.saturation <= 100.0 && 0.0 <= hsl.lightness <= 100.0
  {
    match pixels
    case None => DefaultColor
    case Some(data) =>
      var samples := ExtractRgbColors(data);
      if |samples| == 0 then DefaultColor
      else RgbToHslObject(FindDominantColorByKMeans(samples, ClusterCount))
  }

  /** With samples, the colour reported is that of a colour lying in every
      channel-wise box that holds all the samples. */
  lemma ProcessImageBetween(data: seq<Byte>, lo: Rgb, hi: Rgb)
    requires IsRgbaBuffer(data) && |ExtractRgbColors(data)| > 0
    requires AllBetween(lo, ExtractRgbColors(data), hi)
    ensures exists c :: Between(lo, c, hi) && ProcessImage(Some(data)) == RgbToHslObject(c)
  {
    var samples := ExtractRgbColors(data);
    DominantBetween(samples, ClusterCount, lo, hi);
    var c := FindDominantColorByKMeans(samples, ClusterCount);
    assert Between(lo, c, hi) && ProcessImage(Some(data)) == RgbToHslObject(c);
  }

  /** A cover whose sampled pixels all have one colour is reported as that
      colour. */
  lemma UniformImage(data: seq<Byte>, c: Rgb)
    requires IsRgbaBuffer(data) && |ExtractRgbColors(data)| > 0
    requires forall i :: 0 <= i < |ExtractRgbColors(data)| ==> ExtractRgbColors(data)[i] == c
    ensures ProcessImage(Some(data)) == RgbToHslObject(c)
  {
    UniformSamples(ExtractRgbColors(data), ClusterCount, c);
  }

  // ---------------------------------------------------------------------
  // generateColorScheme

  /** Rounding toward zero, as JavaScript's `%` uses it. */
  function Trunc(x: real): int {
    if x >= 0.0 then x.Floor else -((-x).Floor)
  }

  /** JavaScript's `x % 360` on numbers: the remainder takes the sign of
      the dividend, is smaller than 360 in magnitude, and differs from
      `x` by a whole number of turns. */
  function Rem360(x: real): (r: real)
    ensures x >= 0.0 ==> 0.0 <= r < 360.0
    ensures x < 0.0 ==> -360.0 < r <= 0.0
    ensures ((x - r) / 360.0).Floor as real == (x - r) / 360.0
  {
    var q := Trunc(x / 360.0);
    TruncBounds(x / 360.0);
    var r := x - 360.0 * q as real;
    assert (x - r) / 360.0 == q as real;
    r
  }

  lemma TruncBounds(y: real)
    ensures y >= 0.0 ==> 0.0 <= y - Trunc(y) as real < 1.0
    ensures y < 0.0 ==> -1.0 < y - Trunc(y) as real <= 0.0
  {
  }

  /** A number already in `[0, 360)` is its own remainder, and one in
      `[360, 720)` loses one turn. */
  lemma Rem360Small(x: real)
    requires 0.0 <= x < 720.0
    ensures x < 360.0 ==> Rem360(x) == x
    ensures 360.0 <= x ==> Rem360(x) == x - 360.0
  {
    if x < 360.0 {
      assert Trunc(x / 360.0) == 0;
    } else {
      assert Trunc(x / 360.0) == 1;
    }
  }

  /** `generateColorScheme`: three stops around `baseHue`, the base itself
      and neighbours ten degrees up and five degrees down, with fixed
      saturation and lightness. */
  function GenerateColorScheme(baseHue: real): (stops: seq<HslColor>)
    ensures |stops| == 3
    ensures stops[0] == HslColor(baseHue, 75.0, 82.0)
    ensures stops[1].saturation == 80.0 && stops[1].lightness == 78.0
    ensures stops[2].saturation == 70.0 && stops[2].lightness == 85.0
    ensures stops[1].hue == Rem360(baseHue + 10.0) && stops[2].hue == Rem360(baseHue + 355.0)
  {
    [ HslColor(baseHue, 75.0, 82.0),
      HslColor(Rem360(baseHue + 10.0), 80.0, 78.0),
      HslColor(Rem360(baseHue - 5.0 + 360.0), 70.0, 85.0) ]
  }

  /** For a hue in `[0, 360)` the neighbours are the hue turned ten degrees
      forward and five degrees back around the colour wheel, and every
      stop stays in `[0, 360)`. */
  lemma SchemeHues(baseHue: real)
    requires 0.0 <= baseHue < 360.0
    ensures GenerateColorScheme(baseHue)[1].hue
            == (if baseHue < 350.0 then baseHue + 10.0 else baseHue - 350.0)
    ensures GenerateColorScheme(baseHue)[2].hue
            == (if baseHue < 5.0 then baseHue + 355.0 else baseHue - 5.0)
    ensures forall i :: 0 <= i < 3 ==> 0.0 <= GenerateColorScheme(baseHue)[i].hue < 360.0
  {
    Rem360Small(baseHue + 10.0);
    Rem360Small(baseHue - 5.0 + 360.0);
  }

  /** The hue `processImage` reports always gives a scheme whose stops lie
      on the colour wheel. */
  lemma ProcessedHueGivesWheelScheme(pixels: Option<seq<Byte>>)
    requires pixels.Some? ==> IsRgbaBuffer(pixels.value)
    ensures forall i :: 0 <= i < 3 ==>
              0.0 <= GenerateColorScheme(ProcessImage(pixels).hue)[i].hue < 360.0
  {
    SchemeHues(ProcessImage(pixels).hue);
  }

  /** A negative base hue, which `processImage` never reports, keeps its
      sign in the neighbours: `%` does not wrap it onto the wheel. */
  lemma NegativeHueStaysNegative(baseHue: real)
    requires -370.0 < baseHue < -10.0
    ensures GenerateColorScheme(baseHue)[1].hue == baseHue + 10.0 < 0.0
    ensures baseHue < -355.0 ==> GenerateColorScheme(baseHue)[2].hue == baseHue + 355.0 < 0.0
  {
    Rem360SmallNegative(baseHue + 10.0);
    if baseHue < -355.0 {
      Rem360SmallNegative(baseHue - 5.0 + 360.0);
    }
  }

  /** A number in `(-360, 0)` is its own remainder. */
  lemma Rem360SmallNegative(x: real)
    requires -360.0 < x < 0.0
    ensures Rem360(x) == x
  {
    assert (-x / 360.0).Floor == 0;
    assert Trunc(x / 360.0) == 0;
  }
}
