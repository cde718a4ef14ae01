/** Colours as the extractor handles them: RGB with channels 0–255, and
    HSL in two scales, fractions (`rgbToHsl`) and percentages
    (`rgbToHslObject`). Arithmetic is exact: `real` stands for JavaScript
    numbers. */
module Colors {

  /** One channel of a pixel, as a `Uint8ClampedArray` holds it. */
  type Byte = x: int | 0 <= x < 256

  datatype Rgb = Rgb(r: Byte, g: Byte, b: Byte)

  /** `rgbToHsl`'s result: hue in degrees, saturation and lightness as
      fractions. */
  datatype Hsl = Hsl(h: real, s: real, l: real)

  /** `rgbToHslObject`'s result: hue in degrees, saturation and lightness
      as percentages. */
  datatype HslColor = HslColor(hue: real, saturation: real, lightness: real)

  function Max3(x: real, y: real, z: real): real {
    if x >= y && x >= z then x else if y >= z then y else z
  }

  function Min3(x: real, y: real, z: real): real {
    if x <= y && x <= z then x else if y <= z then y else z
  }

  /** The channel that holds the maximum, in the order the `switch`
      tries them: red, then green, then blue. */
  datatype Channel = Red | Green | Blue

  function MaxChannel(red: real, green: real, blue: real): Channel {
    var max := Max3(red, green, blue);
    if max == red then Red else if max == green then Green else Blue
  }

  /** The hue, as a fraction of a full turn, when the maximum sits in
      `ch`; `diff` is the spread between maximum and minimum. */
  function HueFraction(ch: Channel, red: real, green: real, blue: real, diff: real): real
    requires diff > 0.0
  {
    match ch
    case Red => ((green - blue) / diff + (if green < blue then 6.0 else 0.0)) / 6.0
    case Green => ((blue - red) / diff + 2.0) / 6.0
    case Blue => ((red - green) / diff + 4.0) / 6.0
  }

  /** Saturation of a colour whose channel fractions have maximum `max`
      and minimum `min`. */
  function Saturation(max: real, min: real): real
    requires 0.0 <= min < max <= 1.0
  {
    var l := (max + min) / 2.0;
    if l > 0.5 then (max - min) / (2.0 - max - min) else (max - min) / (max + min)
  }

  /** `rgbToHsl`: hue in [0, 360), saturation and lightness in [0, 1];
      a grey has hue and saturation 0, and only a grey has saturation 0. */
  function RgbToHsl(c: Rgb): (hsl: Hsl)
    ensures 0.0 <= hsl.h < 360.0
    ensures 0.0 <= hsl.s <= 1.0 && 0.0 <= hsl.l <= 1.0
    ensures c.r == c.g == c.b ==> hsl.h == 0.0 && hsl.s == 0.0
    ensures hsl.s == 0.0 <==> c.r == c.g == c.b
    ensures hsl.l == (Max3(c.r as real, c.g as real, c.b as real)
                      + Min3(c.r as real, c.g as real, c.b as real)) / 510.0
  {
    var red, green, blue := c.r as real / 255.0, c.g as real / 255.0, c.b as real / 255.0;
    var max := Max3(red, green, blue);
    var min := Min3(red, green, blue);
    var diff := max - min;
    var l := (max + min) / 2.0;
    ScaledExtremes(c);
    if diff == 0.0 then Hsl(0.0, 0.0, l)
    else
      var ch := MaxChannel(red, green, blue);
      HueInRange(ch, red, green, blue);
      SaturationInRange(max, min);
      Hsl(HueFraction(ch, red, green, blue, diff) * 360.0, Saturation(max, min), l)
  }

  /** Scaling every channel by 1/255 scales the maximum and the minimum. */
  lemma ScaledExtremes(c: Rgb)
    ensures Max3(c.r as real / 255.0, c.g as real / 255.0, c.b as real / 255.0)
            == Max3(c.r as real, c.g as real, c.b as real) / 255.0
    ensures Min3(c.r as real / 255.0, c.g as real / 255.0, c.b as real / 255.0)
            == Min3(c.r as real, c.g as real, c.b as real) / 255.0
    ensures 0.0 <= Min3(c.r as real, c.g as real, c.b as real)
    ensures Max3(c.r as real, c.g as real, c.b as real) <= 255.0
  {
  }

  lemma SaturationInRange(max: real, min: real)
    requires 0.0 <= min < max <= 1.0
    ensures 0.0 < Saturation(max, min) <= 1.0
  {
    var l := (max + min) / 2.0;
    if l > 0.5 {
      QuotientBetween(max - min, 2.0 - max - min, 0.0, 1.0);
    } else {
      QuotientBetween(max - min, max + min, 0.0, 1.0);
    }
  }

  lemma HueInRange(ch: Channel, red: real, green: real, blue: real)
    requires Max3(red, green, blue) - Min3(red, green, blue) > 0.0
    requires ch == MaxChannel(red, green, blue)
    ensures 0.0 <= HueFraction(ch, red, green, blue, Max3(red, green, blue) - Min3(red, green, blue)) < 1.0
  {
    var diff := Max3(red, green, blue) - Min3(red, green, blue);
    match ch
    case Red =>
      if green < blue {
        QuotientBetween(green - blue, diff, -1.0, 0.0);
      } else {
        QuotientBetween(green - blue, diff, 0.0, 1.0);
      }
    case Green =>
      QuotientBetween(blue - red, diff, -1.0, 1.0);
    case Blue =>
      QuotientBetween(red - green, diff, -1.0, 1.0);
  }

  /** Dividing by a positive `d` keeps `x` between `lo·d` and `hi·d`
      between `lo` and `hi`. */
  lemma QuotientBetween(x: real, d: real, lo: real, hi: real)
    requires d > 0.0 && lo * d <= x <= hi * d
    ensures lo <= x / d <= hi
    ensures x < hi * d ==> x / d < hi
    ensures lo * d < x ==> lo < x / d
  {
  }

  /** The hue does not depend on which of two tied maximal channels the
      `switch` picks first. */
  lemma HueIgnoresTies(red: real, green: real, blue: real)
    requires Max3(red, green, blue) - Min3(red, green, blue) > 0.0
    ensures red == green == Max3(red, green, blue) ==>
              HueFraction(Red, red, green, blue, Max3(red, green, blue) - Min3(red, green, blue))
              == HueFraction(Green, red, green, blue, Max3(red, green, blue) - Min3(red, green, blue))
    ensures green == blue == Max3(red, green, blue) ==>
              HueFraction(Green, red, green, blue, Max3(red, green, blue) - Min3(red, green, blue))
              == HueFraction(Blue, red, green, blue, Max3(red, green, blue) - Min3(red, green, blue))
    ensures red == blue == Max3(red, green, blue) ==>
              HueFraction(Red, red, green, blue, Max3(red, green, blue) - Min3(red, green, blue))
              == HueFraction(Blue, red, green, blue, Max3(red, green, blue) - Min3(red, green, blue))
  {
    var diff := Max3(red, green, blue) - Min3(red, green, blue);
    if red == green == Max3(red, green, blue) {
      assert blue == Min3(red, green, blue);
      assert (green - blue) / diff == 1.0;
      assert (blue - red) / diff == -1.0;
    }
    if green == blue == Max3(red, green, blue) {
      assert red == Min3(red, green, blue);
      assert (blue - red) / diff == 1.0;
      assert (red - green) / diff == -1.0;
    }
    if red == blue == Max3(red, green, blue) {
      assert green == Min3(red, green, blue);
      assert (green - blue) / diff == -1.0;
      assert (red - green) / diff == 1.0;
    }
  }

  /** `rgbToHslObject`: the same colour with saturation and lightness as
      percentages, so every component is in range. */
  function RgbToHslObject(c: Rgb): (hsl: HslColor)
    ensures 0.0 <= hsl.hue < 360.0
    ensures 0.0 <= hsl.saturation <= 100.0 && 0.0 <= hsl.lightness <= 100.0
    ensures hsl.hue == RgbToHsl(c).h
    ensures hsl.saturation == RgbToHsl(c).s * 100.0 && hsl.lightness == RgbToHsl(c).l * 100.0
  {
    var hsl := RgbToHsl(c);
    HslColor(hsl.h, hsl.s * 100.0, hsl.l * 100.0)
  }
}
