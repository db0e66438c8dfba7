/**
 * The quality mapping of pdf_compressor.py: the JPEG encoder quality derived
 * from the user's `quality` (line 29), the resize scale factor (line 90) and
 * the unused `target_dpi` (line 28). `quality` is not validated: line 28
 * raises OverflowError once `150 * (quality / 30)` leaves the range of a
 * double, and lines 29 and 90 accept every integer that gets past it.
 */
module QualityMapper {

  function MaxInt(a: int, b: int): int { if a >= b then a else b }
  function MinInt(a: int, b: int): int { if a <= b then a else b }
  function MaxReal(a: real, b: real): real { if a >= b then a else b }

  /** The largest finite IEEE 754 double, (2 - 2^-52) * 2^1023. */
  const MaxDouble: int := 179769313486231570814527423731704356798070567525844996598917476803157260780028538760589558632766878171540458953514382464234321326889464182768467546703537516986049910576551282076245490090389328944075868508455133942304583236903222948165808559332123348274797826204144723168738177180919299881250404026184124858368
  const MaxFloat: real := MaxDouble as real

  /** Powers of ten around the range of a double, named for the lemmas about it. */
  const TenTo290: int := 100000000000000000000000000000000000000000000000000000000000000000000000000000000000000000000000000000000000000000000000000000000000000000000000000000000000000000000000000000000000000000000000000000000000000000000000000000000000000000000000000000000000000000000000000000000000000000000000000
  const TenTo307: int := 10000000000000000000000000000000000000000000000000000000000000000000000000000000000000000000000000000000000000000000000000000000000000000000000000000000000000000000000000000000000000000000000000000000000000000000000000000000000000000000000000000000000000000000000000000000000000000000000000000000000000000000
  const TenTo308: int := 100000000000000000000000000000000000000000000000000000000000000000000000000000000000000000000000000000000000000000000000000000000000000000000000000000000000000000000000000000000000000000000000000000000000000000000000000000000000000000000000000000000000000000000000000000000000000000000000000000000000000000000

  /**
   * Whether a float computation whose exact value is x stays finite. Beyond
   * this range Python's float multiplication gives an infinity (and `int()`
   * of an infinity raises OverflowError), and the true division of two
   * ints raises OverflowError itself.
   */
  predicate FitsFloat(x: real)
  {
    -MaxFloat <= x <= MaxFloat
  }

  /**
   * Line 28: `int(150 * (quality / 30))`, whose exact value is 5 * quality,
   * raises OverflowError when that value is not a finite double. The value
   * itself is never used.
   */
  function TargetDpiRaises(quality: int): (b: bool)
    ensures -1000000 <= quality <= 1000000 ==> !b
  {
    !FitsFloat(5.0 * quality as real)
  }

  /**
   * The qualities at which line 28 raises: exactly those beyond a fifth of
   * the largest double on either side; 10^308 does, 10^307 does not.
   */
  lemma TargetDpiOverflowBoundary(quality: int)
    ensures !TargetDpiRaises(quality) <==> -MaxFloat / 5.0 <= quality as real <= MaxFloat / 5.0
    ensures TargetDpiRaises(TenTo308) && TargetDpiRaises(-TenTo308)
    ensures !TargetDpiRaises(TenTo307)
  {
  }

  /** Encoder quality: twice the requested quality, clamped into [40, 80]. */
  function ImageQuality(quality: int): (q: int)
    ensures 40 <= q <= 80
    ensures q == 2 * quality <==> 20 <= quality <= 40
    ensures quality < 20 ==> q == 40
    ensures quality > 40 ==> q == 80
  {
    MinInt(MaxInt(quality * 2, 40), 80)
  }

  /** Resize scale: quality / 60, but never below one half. */
  function ScaleFactor(quality: int): (s: real)
    ensures s >= 0.5
    ensures s == 0.5 <==> quality <= 30
    ensures quality >= 30 ==> s == quality as real / 60.0
  {
    MaxReal(quality as real / 60.0, 0.5)
  }

  /** A higher requested quality never lowers the encoder quality. */
  lemma ImageQualityMonotone(q1: int, q2: int)
    requires q1 <= q2
    ensures ImageQuality(q1) <= ImageQuality(q2)
  {
  }

  /** A higher requested quality never lowers the resize scale. */
  lemma ScaleFactorMonotone(q1: int, q2: int)
    requires q1 <= q2
    ensures ScaleFactor(q1) <= ScaleFactor(q2)
  {
  }

  /** The default quality 30 and the extreme quality 0. */
  lemma QualityScenarios()
    ensures ImageQuality(30) == 60 && ScaleFactor(30) == 0.5
    ensures ImageQuality(0) == 40 && ScaleFactor(0) == 0.5
    ensures ImageQuality(100) == 80 && ScaleFactor(-5) == 0.5
  {
  }
}
