/**
 Colour arithmetic of Color/ColorTools.cpp: floating-point RGBA colours
 (ImVec4, channels nominally in [0, 1]), linear interpolation between two of
 them, and packed 32-bit colours (ImU32) whose top byte is the alpha channel.
 */
module Colors {

  /** ImVec4 used as a colour: x, y, z are red, green, blue; w is alpha. */
  datatype Color4 = Color4(x: real, y: real, z: real, w: real)

  /** The red, green and blue channels of two colours agree. */
  predicate SameRgb(a: Color4, b: Color4) {
    a.x == b.x && a.y == b.y && a.z == b.z
  }

  /** `v` lies between `a` and `b`, in whichever order they come. */
  predicate Between(a: real, b: real, v: real) {
    (a <= v <= b) || (b <= v <= a)
  }

  /** Every channel of `c` lies between the matching channels of `a` and `b`. */
  predicate RgbBetween(a: Color4, b: Color4, c: Color4) {
    Between(a.x, b.x, c.x) && Between(a.y, b.y, c.y) && Between(a.z, b.z, c.z)
  }

  /** RGBtoImVec4: converts 0..255 channel values to the 0..1 scale; alpha is
      passed through unchanged. */
  function RGBtoImVec4(r: real, g: real, b: real, a: real): (c: Color4)
    ensures c.x * 255.0 == r && c.y * 255.0 == g && c.z * 255.0 == b
    ensures c.w == a
  {
    Color4(r / 255.0, g / 255.0, b / 255.0, a)
  }

  /** One channel of LerpRGB: linear interpolation from `start` (t = 0) to
      `end` (t = 1), the weighted average of the two endpoints. */
  function Lerp(start: real, end: real, t: real): (v: real)
    ensures v == (1.0 - t) * start + t * end
    ensures t == 0.0 ==> v == start
    ensures t == 1.0 ==> v == end
    ensures 0.0 <= t <= 1.0 ==> Between(start, end, v)
  {
    var v := start + (end - start) * t;
    assert 0.0 <= t <= 1.0 ==> Between(start, end, v) by {
      if 0.0 <= t <= 1.0 {
        LerpBetween(start, end, t);
      }
    }
    v
  }

  lemma LerpBetween(start: real, end: real, t: real)
    requires 0.0 <= t <= 1.0
    ensures Between(start, end, start + (end - start) * t)
  {
    var d := end - start;
    if d >= 0.0 {
      assert d * (1.0 - t) >= 0.0;
      assert 0.0 <= d * t <= d;
    } else {
      assert d * t - d == d * (t - 1.0);
      assert d * (t - 1.0) >= 0.0 by {
        assert -d > 0.0 && 1.0 - t >= 0.0;
        assert (-d) * (1.0 - t) >= 0.0;
      }
      assert d <= d * t <= 0.0;
    }
  }

  /** LerpRGB: interpolates red, green and blue; the result is always opaque
      (alpha 1), whatever the endpoints' alpha. */
  function LerpRGB(start: Color4, end: Color4, t: real): (c: Color4)
    ensures c.w == 1.0
    ensures c.x == (1.0 - t) * start.x + t * end.x
    ensures c.y == (1.0 - t) * start.y + t * end.y
    ensures c.z == (1.0 - t) * start.z + t * end.z
    ensures t == 0.0 ==> SameRgb(c, start)
    ensures t == 1.0 ==> SameRgb(c, end)
    ensures 0.0 <= t <= 1.0 ==> RgbBetween(start, end, c)
  {
    Color4(Lerp(start.x, end.x, t), Lerp(start.y, end.y, t), Lerp(start.z, end.z, t), 1.0)
  }

  /** std::clamp(v, lo, hi); the standard leaves `hi < lo` undefined. */
  function Clamp(v: real, lo: real, hi: real): (r: real)
    requires lo <= hi
    ensures lo <= r <= hi
    ensures lo <= v <= hi ==> r == v
    ensures v < lo ==> r == lo
    ensures v > hi ==> r == hi
  {
    if v < lo then lo else if hi < v then hi else v
  }

  /** Indigo, the low end of the default gradient. */
  const Indigo: Color4 := RGBtoImVec4(102.0, 110.0, 255.0, 1.0)

  /** Blue-green, the high end of the default gradient. */
  const BlueGreen: Color4 := RGBtoImVec4(45.0, 199.0, 163.0, 1.0)

  /** GetInterpolatedColor(percentage, r1, g1, b1, r2, g2, b2): the percentage
      is clamped to [0, 1], so every channel stays between the two endpoint
      colours, and percentages outside the range give an endpoint. */
  function GetInterpolatedColorBetween(percentage: real, r1: real, g1: real, b1: real,
                                       r2: real, g2: real, b2: real): (c: Color4)
    ensures c.w == 1.0
    ensures var p := Clamp(percentage, 0.0, 1.0);
            && c.x * 255.0 == (1.0 - p) * r1 + p * r2
            && c.y * 255.0 == (1.0 - p) * g1 + p * g2
            && c.z * 255.0 == (1.0 - p) * b1 + p * b2
    ensures RgbBetween(RGBtoImVec4(r1, g1, b1, 1.0), RGBtoImVec4(r2, g2, b2, 1.0), c)
    ensures percentage <= 0.0 ==> SameRgb(c, RGBtoImVec4(r1, g1, b1, 1.0))
    ensures percentage >= 1.0 ==> SameRgb(c, RGBtoImVec4(r2, g2, b2, 1.0))
  {
    var p := Clamp(percentage, 0.0, 1.0);
    var lowColor := RGBtoImVec4(r1, g1, b1, 1.0);
    var highColor := RGBtoImVec4(r2, g2, b2, 1.0);
    LerpRGB(lowColor, highColor, p)
  }

  /** GetInterpolatedColor(percentage): the same clamped interpolation over
      the default indigo to blue-green gradient. */
  function GetInterpolatedColor(percentage: real): (c: Color4)
    ensures c.w == 1.0
    ensures var p := Clamp(percentage, 0.0, 1.0);
            && c.x * 255.0 == (1.0 - p) * 102.0 + p * 45.0
            && c.y * 255.0 == (1.0 - p) * 110.0 + p * 199.0
            && c.z * 255.0 == (1.0 - p) * 255.0 + p * 163.0
    ensures RgbBetween(Indigo, BlueGreen, c)
    ensures percentage <= 0.0 ==> SameRgb(c, Indigo)
    ensures percentage >= 1.0 ==> SameRgb(c, BlueGreen)
  {
    var p := Clamp(percentage, 0.0, 1.0);
    LerpRGB(Indigo, BlueGreen, p)
  }

  /** The default gradient is the general one over (102, 110, 255) and
      (45, 199, 163). */
  lemma DefaultGradientEndpoints(percentage: real)
    ensures GetInterpolatedColor(percentage)
         == GetInterpolatedColorBetween(percentage, 102.0, 110.0, 255.0, 45.0, 199.0, 163.0)
    ensures Indigo == Color4(102.0 / 255.0, 110.0 / 255.0, 1.0, 1.0)
    ensures BlueGreen == Color4(45.0 / 255.0, 199.0 / 255.0, 163.0 / 255.0, 1.0)
  {
  }

  /** Interpolation is affine in `t`: moving `t` by `d` moves the value by
      `d` times the span between the endpoints, so equal steps in `t` give
      equal steps in the colour. */
  lemma LerpAffine(start: real, end: real, t: real, u: real)
    ensures Lerp(start, end, t) - Lerp(start, end, u) == (t - u) * (end - start)
  {
  }

  /** The same for each channel of LerpRGB. */
  lemma LerpRGBAffine(start: Color4, end: Color4, t: real, u: real)
    ensures LerpRGB(start, end, t).x - LerpRGB(start, end, u).x == (t - u) * (end.x - start.x)
    ensures LerpRGB(start, end, t).y - LerpRGB(start, end, u).y == (t - u) * (end.y - start.y)
    ensures LerpRGB(start, end, t).z - LerpRGB(start, end, u).z == (t - u) * (end.z - start.z)
  {
    LerpAffine(start.x, end.x, t, u);
    LerpAffine(start.y, end.y, t, u);
    LerpAffine(start.z, end.z, t, u);
  }

  /** Inside [0, 1] the gradient is linear in the percentage: two
      percentages' colours differ, channel by channel, by their difference
      times the span between the endpoint colours. */
  lemma GradientLinear(p: real, q: real, r1: real, g1: real, b1: real, r2: real, g2: real, b2: real)
    requires 0.0 <= p <= 1.0 && 0.0 <= q <= 1.0
    ensures var a := GetInterpolatedColorBetween(p, r1, g1, b1, r2, g2, b2);
            var b := GetInterpolatedColorBetween(q, r1, g1, b1, r2, g2, b2);
            && (a.x - b.x) * 255.0 == (p - q) * (r2 - r1)
            && (a.y - b.y) * 255.0 == (p - q) * (g2 - g1)
            && (a.z - b.z) * 255.0 == (p - q) * (b2 - b1)
  {
    LerpRGBAffine(RGBtoImVec4(r1, g1, b1, 1.0), RGBtoImVec4(r2, g2, b2, 1.0), p, q);
  }

  /** The default gradient is linear in the percentage in the same way. */
  lemma DefaultGradientLinear(p: real, q: real)
    requires 0.0 <= p <= 1.0 && 0.0 <= q <= 1.0
    ensures GetInterpolatedColor(p).x - GetInterpolatedColor(q).x == (p - q) * (BlueGreen.x - Indigo.x)
    ensures GetInterpolatedColor(p).y - GetInterpolatedColor(q).y == (p - q) * (BlueGreen.y - Indigo.y)
    ensures GetInterpolatedColor(p).z - GetInterpolatedColor(q).z == (p - q) * (BlueGreen.z - Indigo.z)
  {
    LerpRGBAffine(Indigo, BlueGreen, p, q);
  }

  // ---------------------------------------------------------------------------
  // Packed colours

  /** Mask of the red, green and blue bytes of an ImU32. */
  const RgbMask: bv32 := 0x00FF_FFFF

  /** `r` is `color` with its alpha byte replaced by the low byte of `alpha`. */
  predicate Realpha(r: bv32, color: bv32, alpha: bv32) {
    r & RgbMask == color & RgbMask && r >> 24 == alpha & 0xFF
  }

  /** WithAlpha: masks out the existing alpha and ORs in the new one shifted
      to the top byte. `alpha` is the integer `(ImU32)(transparency * 255)`;
      the 32-bit shift keeps only its low byte. */
  function WithAlpha(color: bv32, alpha: bv32): (r: bv32)
    ensures r & RgbMask == color & RgbMask
    ensures r >> 24 == alpha & 0xFF
    ensures Realpha(r, color, alpha)
  {
    (color & RgbMask) | (alpha << 24)
  }

  /** A packed colour is determined by its RGB bytes and its alpha byte. */
  lemma RealphaUnique(r: bv32, s: bv32, color: bv32, alpha: bv32)
    requires Realpha(r, color, alpha) && Realpha(s, color, alpha)
    ensures r == s
  {
  }

  /** Applying a second alpha overrides the first, so re-applying the same
      alpha changes nothing. */
  lemma WithAlphaOverrides(color: bv32, a: bv32, b: bv32)
    ensures WithAlpha(WithAlpha(color, a), b) == WithAlpha(color, b)
    ensures WithAlpha(WithAlpha(color, a), a) == WithAlpha(color, a)
  {
  }

  /** Re-applying a colour's own alpha byte gives the colour back. */
  lemma WithOwnAlpha(color: bv32)
    ensures WithAlpha(color, color >> 24) == color
  {
  }
}
