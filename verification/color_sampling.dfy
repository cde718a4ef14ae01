/** `extractRgbColors`: every third pixel of an RGBA buffer, kept when it
    is opaque enough and neither too dark nor too bright. */
module ColorSampling {
  import opened Colors

  /** Bytes between two visited pixels: every third pixel of four bytes. */
  const Stride: nat := 12

  /** A pixel read from the buffer: its colour and its alpha. */
  datatype Pixel = Pixel(color: Rgb, alpha: Byte)

  /** A buffer as `getImageData` returns it: four bytes per pixel. */
  predicate IsRgbaBuffer(data: seq<Byte>) {
    |data| % 4 == 0
  }

  /** The pixel whose red byte sits at offset `o`. */
  function PixelAt(data: seq<Byte>, o: nat): Pixel
    requires o + 3 < |data|
  {
    Pixel(Rgb(data[o], data[o + 1], data[o + 2]), data[o + 3])
  }

  /** Kept: alpha at least 128 and brightness `(r + g + b) / 3` within
      [10, 250], stated on the channel sum. */
  predicate IsSampled(p: Pixel) {
    p.alpha >= 128 && 30 <= p.color.r + p.color.g + p.color.b <= 750
  }

  /** The integer test on the channel sum is the source's test on the
      average brightness. */
  lemma BrightnessTest(p: Pixel)
    ensures IsSampled(p)
            <==> !(p.alpha < 128)
                 && !((p.color.r + p.color.g + p.color.b) as real / 3.0 > 250.0
                      || (p.color.r + p.color.g + p.color.b) as real / 3.0 < 10.0)
  {
  }

  /** How many offsets `0, 12, 24, …` lie inside a buffer of `len` bytes. */
  function VisitCount(len: nat): nat {
    (len + Stride - 1) / Stride
  }

  /** The pixels the loop looks at, in buffer order. */
  function VisitedPixels(data: seq<Byte>): (ps: seq<Pixel>)
    requires IsRgbaBuffer(data)
    ensures |ps| == VisitCount(|data|)
    ensures forall i :: 0 <= i < |ps| ==> Stride * i + 3 < |data| && ps[i] == PixelAt(data, Stride * i)
  {
    seq(VisitCount(|data|), i requires 0 <= i < VisitCount(|data|) && IsRgbaBuffer(data) =>
      VisitOffsetInside(|data|, i);
      PixelAt(data, Stride * i))
  }

  lemma VisitOffsetInside(len: nat, i: nat)
    requires len % 4 == 0 && i < VisitCount(len)
    ensures Stride * i + 3 < len
  {
    var m := len / 4;
    assert len == 4 * m;
    assert 12 * i <= len - 1;
    assert 3 * i < m;
  }

  /** The colours of the pixels that pass the test, in order. */
  function Kept(ps: seq<Pixel>): (cs: seq<Rgb>)
    ensures |cs| <= |ps|
  {
    if |ps| == 0 then []
    else (if IsSampled(ps[0]) then [ps[0].color] else []) + Kept(ps[1..])
  }

  /** The loop of `extractRgbColors` from offset `o` on. */
  function ExtractFrom(data: seq<Byte>, o: nat): seq<Rgb>
    requires IsRgbaBuffer(data) && o % 4 == 0
    decreases |data| - o
  {
    if o >= |data| then []
    else
      var p := PixelAt(data, o);
      (if IsSampled(p) then [p.color] else []) + ExtractFrom(data, o + Stride)
  }

  /** `extractRgbColors`. */
  function ExtractRgbColors(data: seq<Byte>): seq<Rgb>
    requires IsRgbaBuffer(data)
  {
    ExtractFrom(data, 0)
  }

  /** The samples are exactly the colours of the visited pixels that pass
      the test, in buffer order. */
  lemma ExtractIsKeptVisited(data: seq<Byte>)
    requires IsRgbaBuffer(data)
    ensures ExtractRgbColors(data) == Kept(VisitedPixels(data))
  {
    ExtractFromTail(data, 0, 0);
    assert VisitedPixels(data)[0..] == VisitedPixels(data);
  }

  lemma {:induction false} ExtractFromTail(data: seq<Byte>, j: nat, o: nat)
    requires IsRgbaBuffer(data) && j <= VisitCount(|data|)
    requires o == Stride * j && o % 4 == 0
    ensures ExtractFrom(data, o) == Kept(VisitedPixels(data)[j..])
    decreases VisitCount(|data|) - j
  {
    var ps := VisitedPixels(data);
    if j < VisitCount(|data|) {
      ExtractFromTail(data, j + 1, o + Stride);
      assert ps[j..][1..] == ps[j + 1..];
      assert ps[j..][0] == PixelAt(data, o);
    } else {
      assert o >= |data|;
    }
  }

  /** Every sample comes from a visited pixel that passes the test, and
      every such pixel gives a sample; there is at most one sample per
      visited pixel. */
  lemma SamplesComeFromVisitedPixels(data: seq<Byte>)
    requires IsRgbaBuffer(data)
    ensures |ExtractRgbColors(data)| <= VisitCount(|data|)
    ensures forall c :: c in ExtractRgbColors(data) <==>
              exists i :: 0 <= i < |VisitedPixels(data)| && IsSampled(VisitedPixels(data)[i])
                          && VisitedPixels(data)[i].color == c
  {
    ExtractIsKeptVisited(data);
    KeptMembers(VisitedPixels(data));
  }

  /** A colour is kept exactly when some pixel that passes the test has it. */
  lemma {:induction false} KeptMembers(ps: seq<Pixel>)
    ensures forall c :: c in Kept(ps) <==> exists i :: 0 <= i < |ps| && IsSampled(ps[i]) && ps[i].color == c
  {
    if |ps| > 0 {
      KeptMembers(ps[1..]);
      forall c ensures c in Kept(ps) <==> exists i :: 0 <= i < |ps| && IsSampled(ps[i]) && ps[i].color == c
      {
        if exists i :: 0 <= i < |ps| && IsSampled(ps[i]) && ps[i].color == c {
          var i :| 0 <= i < |ps| && IsSampled(ps[i]) && ps[i].color == c;
          if i > 0 {
            assert ps[1..][i - 1] == ps[i];
          }
        }
        if c in Kept(ps[1..]) {
          var i :| 0 <= i < |ps| - 1 && IsSampled(ps[1..][i]) && ps[1..][i].color == c;
          assert ps[i + 1] == ps[1..][i];
        }
      }
    }
  }
}
