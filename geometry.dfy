/** QR symbol geometry: how many modules a version has per side, how many
    pixels each module gets in a rendered image, whether that is a whole
    number, and the smallest "safe" image size whose modules are whole.
    Sizes follow ISO/IEC 18004:2015: section 6.3.1 (a version-V symbol is
    17 + 4V modules wide, V in 1..40) and section 6.3.8 (a quiet zone of 4
    modules). Go's float64 division is modelled by an exact `real`. */
module Geometry {
  import opened Common

  /** Quiet zone width, in modules. */
  const QuietZoneModules: int := 4

  /** The smallest image side, in pixels, that the safe-size search accepts. */
  const MinPracticalSize: int := 100

  const MinVersion: int := 1
  const MaxVersion: int := 40

  /** Version detection from a rendered image. It is not implemented: it
      reports version -1 together with an error, for a nil image as well as
      for any other. */
  function DetectQRVersion(img: Image): (r: (int, Option<string>))
    ensures r.0 == -1 && r.1.Some?
  {
    if img.NilImage? then (-1, Some("image is nil"))
    else (-1, Some("QR version detection not yet implemented"))
  }

  /** Modules per side of a version-`version` symbol, or 0 for a version
      outside 1..40. */
  function CalculateModuleCount(version: int): (r: int)
    ensures MinVersion <= version <= MaxVersion ==> r == 17 + 4 * version
    ensures !(MinVersion <= version <= MaxVersion) ==> r == 0
  {
    if version < MinVersion || version > MaxVersion then 0 else 17 + 4 * version
  }

  /** Pixels per module of a `pixelSize`-wide image holding a symbol of
      `moduleCount` modules plus `quietZone` modules of margin; 0 when any
      argument is out of range. */
  function CalculateModulePixelSize(pixelSize: int, moduleCount: int, quietZone: int): (r: real)
    ensures pixelSize <= 0 || moduleCount <= 0 || quietZone < 0 ==> r == 0.0
    ensures pixelSize > 0 && moduleCount > 0 && quietZone >= 0 ==>
              r > 0.0 && r * (moduleCount + quietZone) as real == pixelSize as real
  {
    if pixelSize <= 0 || moduleCount <= 0 || quietZone < 0 then 0.0
    else pixelSize as real / (moduleCount + quietZone) as real
  }

  /** Whether a module width has a non-zero fractional part (Go compares the
      value with its floor exactly, with no tolerance). */
  predicate IsFractionalModuleSize(modulePixelSize: real): (b: bool)
    ensures b <==> modulePixelSize - modulePixelSize.Floor as real > 0.0
  {
    modulePixelSize != modulePixelSize.Floor as real
  }

  /** The smallest multiple of `moduleCount + quietZone` that is at least
      `MinPracticalSize`; 0 when an argument is out of range. */
  function CalculateOptimalPixelSize(moduleCount: int, quietZone: int): (r: int)
    ensures moduleCount <= 0 || quietZone < 0 ==> r == 0
    ensures moduleCount > 0 && quietZone >= 0 ==>
              && r >= MinPracticalSize
              && r % (moduleCount + quietZone) == 0
              && r - (moduleCount + quietZone) < MinPracticalSize
  {
    if moduleCount <= 0 || quietZone < 0 then 0
    else
      var totalModules := moduleCount + quietZone;
      var multiplier := (MinPracticalSize + totalModules - 1) / totalModules;
      OptimalBounds(totalModules, multiplier);
      totalModules * multiplier
  }

  /** The arithmetic behind `CalculateOptimalPixelSize`: rounding the
      quotient up lands on the first multiple at or above the minimum. */
  lemma OptimalBounds(t: int, m: int)
    requires t > 0 && m == (MinPracticalSize + t - 1) / t
    ensures t * m >= MinPracticalSize
    ensures t * m - t < MinPracticalSize
    ensures (t * m) % t == 0
  {
    var n := MinPracticalSize + t - 1;
    assert n == t * m + n % t;
    DivModUnique(t * m, m, 0, t);
  }

  /** For versions 1..40 the module count lies in 21..177, grows by 4 per
      version, and gives the version back. */
  lemma ModuleCountRange(version: int)
    requires MinVersion <= version <= MaxVersion
    ensures 21 <= CalculateModuleCount(version) <= 177
    ensures (CalculateModuleCount(version) - 17) / 4 == version
    ensures version < MaxVersion ==> CalculateModuleCount(version + 1) == CalculateModuleCount(version) + 4
  {
    DivModUnique(CalculateModuleCount(version) - 17, version, 0, 4);
  }

  /** Whole numbers are never fractional, so neither is the 0 sentinel. */
  lemma IntegersAreNotFractional(n: int)
    ensures !IsFractionalModuleSize(n as real)
  {
  }

  /** A module width is fractional exactly when the image size is not a
      multiple of the symbol's width including the quiet zone. */
  lemma {:induction false} FractionalIffNotDivisible(pixelSize: int, moduleCount: int, quietZone: int)
    requires pixelSize > 0 && moduleCount > 0 && quietZone >= 0
    ensures (IsFractionalModuleSize(CalculateModulePixelSize(pixelSize, moduleCount, quietZone))
             <==> pixelSize % (moduleCount + quietZone) != 0)
  {
    var t := moduleCount + quietZone;
    var x := CalculateModulePixelSize(pixelSize, moduleCount, quietZone);
    var q := pixelSize / t;
    var rem := pixelSize % t;
    assert pixelSize == q * t + rem;
    if rem == 0 {
      QuotientExact(x, q, t);
    } else {
      QuotientBetween(x, q, t, rem);
      assert x.Floor == q;
    }
  }

  /** A width times `t` that is a multiple `q * t` is `q` itself. */
  lemma QuotientExact(x: real, q: int, t: int)
    requires t > 0 && x * t as real == (q * t) as real
    ensures x == q as real
  {
    assert (q * t) as real == q as real * t as real;
  }

  /** With a remainder, the width lies strictly between `q` and `q + 1`. */
  lemma QuotientBetween(x: real, q: int, t: int, rem: int)
    requires t > 0 && 0 < rem < t && x * t as real == (q * t + rem) as real
    ensures q as real < x < (q + 1) as real
  {
    assert (q * t + rem) as real == q as real * t as real + rem as real;
    assert ((q + 1) * t) as real == (q + 1) as real * t as real;
    assert x * t as real > q as real * t as real;
    assert x * t as real < (q + 1) as real * t as real;
  }

  /** The safe size is safe: fed back through `CalculateModulePixelSize`, it
      gives a positive whole number of pixels per module. */
  lemma OptimalSizeRoundTrip(moduleCount: int, quietZone: int)
    requires moduleCount > 0 && quietZone >= 0
    ensures var p := CalculateOptimalPixelSize(moduleCount, quietZone);
            var x := CalculateModulePixelSize(p, moduleCount, quietZone);
            x > 0.0 && !IsFractionalModuleSize(x)
  {
    FractionalIffNotDivisible(CalculateOptimalPixelSize(moduleCount, quietZone), moduleCount, quietZone);
  }

  lemma MultipleGap(a: int, b: int, t: int)
    requires a < b && t > 0
    ensures a * t <= b * t - t
  {
    AtLeastOneMultiple(b - a, t);
    assert b * t - a * t == (b - a) * t;
  }

  /** No multiple of the symbol width at or above the minimum is smaller
      than the safe size. */
  lemma OptimalSizeIsLeast(moduleCount: int, quietZone: int, k: int)
    requires moduleCount > 0 && quietZone >= 0
    requires k * (moduleCount + quietZone) >= MinPracticalSize
    ensures CalculateOptimalPixelSize(moduleCount, quietZone) <= k * (moduleCount + quietZone)
  {
    var t := moduleCount + quietZone;
    var p := CalculateOptimalPixelSize(moduleCount, quietZone);
    DivModUnique(p, p / t, 0, t);
    var m := p / t;
    assert p == m * t;
    if k < m {
      MultipleGap(k, m, t);
    }
  }
}
