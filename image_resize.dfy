/**
 * `_compress_image` of pdf_compressor.py (lines 87-105): the target
 * dimensions of the resize and the colour-mode normalisation. The LANCZOS
 * resampling and the RGB conversion are library calls on the image's pixel
 * data, passed in as the functions of an `Imaging` value. Python's `int()`
 * truncates toward zero; every operand here is non-negative (pixel counts and
 * a scale of at least 0.5), so truncation is `.Floor`.
 *
 * `Scaled`, `AspectHeight` and `ResizeRaises` model lines 90-96 on integers:
 * the products `pixels * quality` and `width * MaxDouble` are written as
 * `Times` (binary recursion) and the quotient `1200 * height / width` as
 * `Quotient` (repeated subtraction), so that the solver sees only linear
 * terms beside the 309-digit largest double. `TimesIsProduct` and
 * `QuotientIsDiv` prove them equal to `*` and `/`; `ScaledTruncates`,
 * `AspectHeightTruncates`, `FitsScaledIsFitsFloat` and `AspectFitsFloat`
 * prove the integer forms equal to the real expressions of the source.
 */
module ImageResize {
  import opened Wrappers
  import opened QualityMapper

  /** The width floor of line 95, also the reference width of line 96. */
  const MinWidth: nat := 1200

  /** PIL image modes; only RGBA and P are converted (line 102). */
  datatype Mode = RGB | RGBA | P | OtherMode(name: string)

  /** Raw pixel data, as PIL holds it. */
  type Pixels = seq<bv8>

  /** A PIL image: its size, its mode and its pixel data. */
  datatype Raster = Raster(width: nat, height: nat, mode: Mode, pixels: Pixels)

  datatype Dims = Dims(width: nat, height: nat)

  /**
   * PIL's pixel work: the pixel data of the LANCZOS resample of an image to a
   * size (line 99), and of the conversion of an image to RGB (line 103).
   */
  datatype Imaging = Imaging(resample: (Raster, Dims) -> Pixels, toRgb: Raster -> Pixels)

  /**
   * `int(pixels * max(quality / 60, 0.5))` (lines 90-92), computed on
   * integers: half the pixels at a quality up to 30, pixels * quality / 60
   * above. `ScaledTruncates` shows it is the truncated real product.
   */
  function Scaled(pixels: nat, quality: int): nat
  {
    if quality <= 30 then pixels / 2
    else
      TimesIsProduct(pixels, quality);
      Times(pixels, quality) / 60
  }

  /** In exact arithmetic the scaled side is the floor of the real product. */
  lemma ScaledTruncates(pixels: nat, quality: int)
    ensures Scaled(pixels, quality) == (pixels as real * ScaleFactor(quality)).Floor
    ensures Scaled(pixels, quality) as real <= pixels as real * ScaleFactor(quality) < Scaled(pixels, quality) as real + 1.0
  {
    var x := pixels as real * ScaleFactor(quality);
    if quality <= 30 {
      HalfFloor(pixels);
      assert x == pixels as real * 0.5;
      assert Scaled(pixels, quality) == x.Floor;
    } else {
      TimesIsProduct(pixels, quality);
      SixtiethFloor(pixels, quality);
      assert x == pixels as real * (quality as real / 60.0);
      assert Scaled(pixels, quality) == x.Floor;
    }
  }

  lemma HalfFloor(p: nat)
    ensures (p as real * 0.5).Floor == p / 2
  {
    assert p as real * 0.5 == p as real / 2 as real;
    FloorOfQuotient(p, 2);
  }

  lemma SixtiethFloor(p: nat, q: int)
    requires q > 30
    ensures p * q >= 0
    ensures (p as real * (q as real / 60.0)).Floor == (p * q) / 60
  {
    assert p * q >= 0;
    assert p as real * (q as real / 60.0) == (p * q) as real / 60 as real;
    FloorOfQuotient(p * q, 60);
  }

  /** a / b by repeated subtraction; `QuotientIsDiv` shows it is the integer quotient. */
  function Quotient(a: nat, b: nat): nat
    requires b > 0
    decreases a
  {
    if a < b then 0 else 1 + Quotient(a - b, b)
  }

  lemma {:induction false} QuotientIsDiv(a: nat, b: nat)
    requires b > 0
    ensures Quotient(a, b) == a / b
    decreases a
  {
    if a >= b {
      QuotientIsDiv(a - b, b);
      var q, r := (a - b) / b, (a - b) % b;
      assert a - b == q * b + r;
      assert (q + 1) * b == q * b + b;
      DivUnique(a, b, q + 1, r);
    }
  }

  /** A quotient and remainder in range are the ones `/` and `%` give. */
  lemma DivUnique(a: int, b: int, k: int, r: int)
    requires b > 0 && 0 <= r < b && a == k * b + r
    ensures a / b == k
  {
    var q, s := a / b, a % b;
    assert a == q * b + s;
    if k > q {
      assert (k - q) * b == k * b - q * b;
      MulAtLeast(k - q, b);
    } else if k < q {
      assert (q - k) * b == q * b - k * b;
      MulAtLeast(q - k, b);
    }
  }

  lemma MulAtLeast(m: int, b: int)
    requires m >= 1 && b > 0
    ensures m * b >= b
  {
    assert m * b == (m - 1) * b + b;
    assert (m - 1) * b >= 0;
  }

  /** `int(1200 * (height / width))`: the height that keeps the aspect ratio at width 1200. */
  function AspectHeight(width: nat, height: nat): nat
    requires width > 0
  {
    Quotient(MinWidth * height, width)
  }

  /** In exact arithmetic the aspect height is the floor of `1200 * (height / width)`. */
  lemma AspectHeightTruncates(width: nat, height: nat)
    requires width > 0
    ensures AspectHeight(width, height) == (MinWidth * height) / width
    ensures AspectHeight(width, height) == (MinWidth as real * (height as real / width as real)).Floor
  {
    QuotientIsDiv(MinWidth * height, width);
    AspectQuotient(width, height);
    FloorOfQuotient(MinWidth * height, width);
  }

  /** The real quotient of two naturals floors to their integer quotient. */
  lemma FloorOfQuotient(a: nat, b: nat)
    requires b > 0
    ensures (a as real / b as real).Floor == a / b
  {
    var q, r := a / b, a % b;
    assert a as real == q as real * b as real + r as real;
    assert a as real / b as real == q as real + r as real / b as real;
    assert 0.0 <= r as real / b as real < 1.0;
  }

  /**
   * New size of the page image (lines 90-96): each side scaled and truncated,
   * then raised to its floor, the width to 1200 and the height to the
   * aspect-preserving height at width 1200.
   */
  function TargetDims(width: nat, height: nat, quality: int): (r: Dims)
    requires width > 0
    ensures r.width >= MinWidth && r.width >= Scaled(width, quality)
    ensures r.width == MinWidth || r.width == Scaled(width, quality)
    ensures r.height >= AspectHeight(width, height) && r.height >= Scaled(height, quality)
    ensures r.height == AspectHeight(width, height) || r.height == Scaled(height, quality)
  {
    Dims(MaxInt(Scaled(width, quality), MinWidth), MaxInt(Scaled(height, quality), AspectHeight(width, height)))
  }

  /** Lines 102-103: RGBA and palette images become RGB, every other mode is kept. */
  function NormalizeMode(m: Mode): (r: Mode)
    ensures r != RGBA && r != P
    ensures m != RGBA && m != P ==> r == m
  {
    if m == RGBA || m == P then RGB else m
  }

  /** `image.resize` (line 99): the resampled pixels at the requested size, in the same mode. */
  function Resize(im: Imaging, image: Raster, size: Dims): (r: Raster)
    ensures r.width == size.width && r.height == size.height && r.mode == image.mode
    ensures r.pixels == im.resample(image, size)
  {
    Raster(size.width, size.height, image.mode, im.resample(image, size))
  }

  /** Lines 102-103: `image.convert('RGB')` for RGBA and palette images; other images are returned as they are. */
  function ToRgb(im: Imaging, image: Raster): (r: Raster)
    ensures r.width == image.width && r.height == image.height
    ensures r.mode == NormalizeMode(image.mode)
    ensures image.mode in {RGBA, P} ==> r.pixels == im.toRgb(image)
    ensures image.mode !in {RGBA, P} ==> r == image
  {
    if image.mode == RGBA || image.mode == P then Raster(image.width, image.height, RGB, im.toRgb(image))
    else image
  }

  /**
   * The product a * b by binary recursion on a. The contract is left to
   * `TimesIsProduct`, so that the scaled sides and the overflow tests below
   * reach the solver as linear terms.
   */
  function Times(a: nat, b: int): int
    decreases a
  {
    if a == 0 then 0
    else if a % 2 == 0 then 2 * Times(a / 2, b)
    else 2 * Times(a / 2, b) + b
  }

  lemma {:induction false} TimesIsProduct(a: nat, b: int)
    ensures Times(a, b) == a * b
    decreases a
  {
    if a > 0 {
      TimesIsProduct(a / 2, b);
      var h := a / 2;
      assert a == 2 * h + a % 2;
      assert a * b == 2 * (h * b) + (a % 2) * b;
    }
  }

  /**
   * Whether `pixels * max(quality / 60, 0.5)` (lines 90-92) is at most m:
   * pixels / 2 at a quality up to 30, pixels * quality / 60 above.
   */
  predicate ScaledAtMost(pixels: nat, quality: int, m: nat)
  {
    if quality <= 30 then pixels <= 2 * m
    else Times(pixels, quality) <= 60 * m
  }

  lemma ScaledAtMostExact(pixels: nat, quality: int, m: nat)
    ensures pixels as real * ScaleFactor(quality) >= 0.0
    ensures ScaledAtMost(pixels, quality, m) <==> pixels as real * ScaleFactor(quality) <= m as real
  {
    var x := pixels as real * ScaleFactor(quality);
    if quality <= 30 {
      HalfAtMost(pixels, m);
      assert x == pixels as real * 0.5;
      assert ScaledAtMost(pixels, quality, m) <==> pixels <= 2 * m;
    } else {
      TimesIsProduct(pixels, quality);
      SixtiethAtMost(pixels, quality, m);
      assert x == pixels as real * (quality as real / 60.0);
      assert ScaledAtMost(pixels, quality, m) <==> pixels * quality <= 60 * m;
    }
  }

  lemma HalfAtMost(p: nat, m: nat)
    ensures p as real * 0.5 >= 0.0
    ensures p as real * 0.5 <= m as real <==> p <= 2 * m
  {
  }

  lemma SixtiethAtMost(p: nat, q: int, m: nat)
    requires q > 30
    ensures p as real * (q as real / 60.0) >= 0.0
    ensures p as real * (q as real / 60.0) <= m as real <==> p * q <= 60 * m
  {
    assert p as real * (q as real / 60.0) == (p * q) as real / 60.0;
  }

  /** Whether a side scaled at lines 91-92 is a finite double. */
  predicate FitsScaled(pixels: nat, quality: int)
  {
    ScaledAtMost(pixels, quality, MaxDouble)
  }

  lemma FitsScaledIsFitsFloat(pixels: nat, quality: int)
    ensures FitsScaled(pixels, quality) <==> FitsFloat(pixels as real * ScaleFactor(quality))
  {
    ScaledAtMostExact(pixels, quality, MaxDouble);
  }

  /** a / d <= m in the reals exactly when a <= d * m, for a positive d. */
  lemma QuotientAtMost(a: int, d: nat, m: int)
    requires d > 0
    ensures a as real / d as real <= m as real <==> a <= d * m
  {
    var q := a as real / d as real;
    assert q * d as real == a as real;
    assert (d * m) as real == m as real * d as real;
    ScaleBoth(q, m as real, d as real);
  }

  /**
   * Whether lines 91-96 raise: a scaled side that is not a finite double
   * (OverflowError from `int()`), a width of 0 (ZeroDivisionError at line 96),
   * or an aspect height `1200 * (height / width)` beyond the largest double,
   * stated without the division as 1200 * height > MaxDouble * width
   * (`AspectFitsFloat`).
   */
  predicate ResizeRaises(width: nat, height: nat, quality: int)
  {
    || !FitsScaled(width, quality)
    || !FitsScaled(height, quality)
    || width == 0
    || MinWidth * height > Times(width, MaxDouble)
  }

  /** `1200 * (height / width)` is at most m exactly when 1200 * height <= width * m. */
  lemma AspectAtMost(width: nat, height: nat, m: nat)
    requires width > 0
    ensures MinWidth as real * (height as real / width as real) >= 0.0
    ensures MinWidth * height <= Times(width, m) <==> MinWidth as real * (height as real / width as real) <= m as real
  {
    TimesIsProduct(width, m);
    AspectQuotient(width, height);
    QuotientAtMost(MinWidth * height, width, m);
  }

  lemma AspectQuotient(width: nat, height: nat)
    requires width > 0
    ensures MinWidth as real * (height as real / width as real) == (MinWidth * height) as real / width as real
    ensures (MinWidth * height) as real / width as real >= 0.0
  {
  }

  /** The aspect clause of `ResizeRaises` is the overflow of `1200 * (height / width)`. */
  lemma AspectFitsFloat(width: nat, height: nat)
    requires width > 0
    ensures MinWidth * height <= Times(width, MaxDouble)
        <==> FitsFloat(MinWidth as real * (height as real / width as real))
  {
    AspectAtMost(width, height, MaxDouble);
  }

  /** Multiplying both sides by a positive factor keeps the order. */
  lemma ScaleBoth(x: real, m: real, w: real)
    requires w > 0.0
    ensures x <= m <==> x * w <= m * w
  {
    if x <= m {
      assert (m - x) * w >= 0.0;
    } else {
      assert (x - m) * w > 0.0;
    }
  }

  /**
   * `_compress_image`: None stands for the exception that lines 91-96 raise;
   * otherwise the image is resampled to the target size and converted to RGB.
   */
  function CompressImage(im: Imaging, image: Raster, quality: int): (r: Option<Raster>)
    ensures match r
      case None => ResizeRaises(image.width, image.height, quality)
      case Some(img) =>
        && !ResizeRaises(image.width, image.height, quality)
        && image.width > 0
        && Dims(img.width, img.height) == TargetDims(image.width, image.height, quality)
        && img.width >= MinWidth
        && img.mode == NormalizeMode(image.mode)
        && img == ToRgb(im, Resize(im, image, TargetDims(image.width, image.height, quality)))
  {
    if ResizeRaises(image.width, image.height, quality) then None
    else Some(ToRgb(im, Resize(im, image, TargetDims(image.width, image.height, quality))))
  }

  /**
   * For page images up to 10^9 pixels a side and qualities up to 10^290,
   * the only exception is the division by a width of 0.
   */
  lemma ResizeRaisesOnlyOnZeroWidth(width: nat, height: nat, quality: int)
    requires width <= 1000000000 && height <= 1000000000 && quality <= TenTo290
    ensures ResizeRaises(width, height, quality) <==> width == 0
  {
    TimesIsProduct(width, MaxDouble);
    if width > 0 {
      ProductBelow(1, MaxDouble, width, MaxDouble);
    }
    if quality > 30 {
      TimesIsProduct(width, quality);
      TimesIsProduct(height, quality);
      ProductBelow(width, quality, 1000000000, TenTo290);
      ProductBelow(height, quality, 1000000000, TenTo290);
    }
  }

  lemma ProductBelow(a: nat, b: nat, c: nat, d: nat)
    requires a <= c && b <= d
    ensures a * b <= c * d
  {
    assert a * b <= c * b;
  }

  /**
   * Line 91 overflows at quality 10^307 on a page image 1200 pixels wide,
   * although line 28 does not.
   */
  lemma HugeQualityRaises()
    ensures !TargetDpiRaises(TenTo307)
    ensures ResizeRaises(1200, 1600, TenTo307)
  {
    TimesIsProduct(1200, TenTo307);
  }

  /** At quality 30 or below the scale is one half, so the width is max(width / 2, 1200). */
  lemma HalfScaleWidth(width: nat, height: nat, quality: int)
    requires width > 0 && quality <= 30
    ensures TargetDims(width, height, quality).width == MaxInt(width / 2, MinWidth)
    ensures TargetDims(width, height, quality).height
            == MaxInt(height / 2, (MinWidth * height) / width)
  {
    AspectHeightTruncates(width, height);
  }

  /** Raising the quality never shrinks the target image. */
  lemma TargetDimsMonotone(width: nat, height: nat, q1: int, q2: int)
    requires width > 0 && q1 <= q2
    ensures TargetDims(width, height, q1).width <= TargetDims(width, height, q2).width
    ensures TargetDims(width, height, q1).height <= TargetDims(width, height, q2).height
  {
    ScaledMonotone(width, q1, q2);
    ScaledMonotone(height, q1, q2);
  }

  lemma ScaledMonotone(pixels: nat, q1: int, q2: int)
    requires q1 <= q2
    ensures Scaled(pixels, q1) <= Scaled(pixels, q2)
  {
    ScaleFactorMonotone(q1, q2);
    ScaledTruncates(pixels, q1);
    ScaledTruncates(pixels, q2);
    FloorsOrdered(Scaled(pixels, q1), Scaled(pixels, q2), pixels as real, ScaleFactor(q1), ScaleFactor(q2));
  }

  /** Floors of two ordered products of the same non-negative factor are ordered. */
  lemma FloorsOrdered(a: int, b: int, p: real, s1: real, s2: real)
    requires p >= 0.0 && s1 <= s2
    requires a as real <= p * s1 && p * s2 < b as real + 1.0
    ensures a <= b
  {
    MulMonotone(p, s1, s2);
  }

  lemma MulMonotone(p: real, s1: real, s2: real)
    requires p >= 0.0 && s1 <= s2
    ensures p * s1 <= p * s2
  {
    assert p * s2 - p * s1 == p * (s2 - s1);
  }

  /**
   * A page image of 892 x 1263 pixels (about an A4 page rendered at 1.5 x 72
   * dpi) at the default quality: the width is lifted to 1200 and the height
   * follows the aspect ratio.
   */
  lemma A4AtDefaultQuality()
    ensures TargetDims(892, 1263, 30) == Dims(1200, 1699)
  {
    HalfScaleWidth(892, 1263, 30);
  }
}
