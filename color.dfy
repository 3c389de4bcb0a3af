/** Colours as the plugin sees them: byte triples read from an RGBA buffer,
    their 8-step quantisation, the dictionary key a quantised colour is counted
    under, and the perceptual background test in CIE L*a*b*. */
module Colors {
  import opened Strings
  import opened Wrappers

  /** One channel of a `Uint8ClampedArray`. */
  type Byte = x: int | 0 <= x < 256

  datatype Color = Color(r: Byte, g: Byte, b: Byte)

  /** The fallback background `{ r: 255, g: 255, b: 255 }`. */
  const White: Color := Color(255, 255, 255)

  /** `Math.floor(c / 8) * 8`: the largest multiple of 8 that is not above `c`. */
  function QuantizeChannel(c: Byte): (q: Byte)
    ensures q % 8 == 0 && q <= c < q + 8 && q <= 248
  {
    (c / 8) * 8
  }

  function Quantize(c: Color): (q: Color)
    ensures q.r % 8 == 0 && q.r <= c.r < q.r + 8
    ensures q.g % 8 == 0 && q.g <= c.g < q.g + 8
    ensures q.b % 8 == 0 && q.b <= c.b < q.b + 8
  {
    Color(QuantizeChannel(c.r), QuantizeChannel(c.g), QuantizeChannel(c.b))
  }

  /** Every channel is a multiple of 8 in [0, 248]. */
  predicate IsQuantized(c: Color) {
    c.r % 8 == 0 && c.g % 8 == 0 && c.b % 8 == 0 && c.r <= 248 && c.g <= 248 && c.b <= 248
  }

  /** Quantising yields a quantised colour, and quantising again changes nothing. */
  lemma QuantizeIsProjection(c: Color)
    ensures IsQuantized(Quantize(c))
    ensures Quantize(Quantize(c)) == Quantize(c)
  {
  }

  /** The dictionary key `${r}-${g}-${b}` under which a quantised colour is
      counted. */
  function ColorKey(c: Color): string {
    NatToString(c.r) + "-" + NatToString(c.g) + "-" + NatToString(c.b)
  }

  predicate AllDigits(s: string) {
    forall i :: 0 <= i < |s| ==> IsDecimalDigit(s[i])
  }

  /** `colorKey.split("-").map(Number)` read back as a colour. A key that is not
      three digit groups of byte values (never produced by `ColorKey`) gives None. */
  function ParseKey(key: string): Option<Color> {
    var parts := Split(key, '-');
    if |parts| == 3 && AllDigits(parts[0]) && AllDigits(parts[1]) && AllDigits(parts[2]) then
      var r, g, b := DecimalValue(parts[0]), DecimalValue(parts[1]), DecimalValue(parts[2]);
      if r < 256 && g < 256 && b < 256 then Some(Color(r, g, b)) else None
    else None
  }

  /** Reading a key back gives the colour it was made from. */
  lemma KeyRoundTrip(c: Color)
    ensures ParseKey(ColorKey(c)) == Some(c)
  {
    var r, g, b := NatToString(c.r), NatToString(c.g), NatToString(c.b);
    assert ColorKey(c) == r + ['-'] + (g + ['-'] + b);
    SplitAtFirst(r, '-', g + ['-'] + b);
    SplitAtFirst(g, '-', b);
    SplitPieces(b, '-');
    assert Split(ColorKey(c), '-') == [r, g, b];
    DecimalRoundTrip(c.r);
    DecimalRoundTrip(c.g);
    DecimalRoundTrip(c.b);
  }

  /** Distinct colours get distinct keys, so counting by key is counting by colour. */
  lemma KeyInjective(c1: Color, c2: Color)
    ensures ColorKey(c1) == ColorKey(c2) <==> c1 == c2
  {
    KeyRoundTrip(c1);
    KeyRoundTrip(c2);
  }

  /** A CIE L*a*b* triple. The conversion `rgbToLab` (sRGB gamma, the XYZ matrix,
      the D65 white point and the cube-root nonlinearity) is floating point and
      is a parameter `toLab: Color -> Lab` of every member that needs it. */
  datatype Lab = Lab(l: real, a: real, b: real)

  /** `Math.pow(x, 2)`. */
  function Square(x: real): (s: real)
    ensures s >= 0.0
  {
    x * x
  }

  /** The square of the Delta E (CIE76) distance. */
  function DeltaESquared(p: Lab, q: Lab): real {
    Square(p.l - q.l) + Square(p.a - q.a) + Square(p.b - q.b)
  }

  /** `isPixelBackgroundLab`: `deltaE < threshold`, compared on squares so that
      no square root is needed (SqrtComparison shows the two agree). */
  predicate IsPixelBackgroundLab(toLab: Color -> Lab, pixel: Color, background: Color, threshold: real) {
    threshold > 0.0 && DeltaESquared(toLab(pixel), toLab(background)) < threshold * threshold
  }

  /** For `deltaE` the non-negative square root of `d`, `deltaE < threshold`
      holds exactly when the threshold is positive and `d < threshold²`. */
  lemma SqrtComparison(d: real, deltaE: real, threshold: real)
    requires deltaE >= 0.0 && deltaE * deltaE == d
    ensures deltaE < threshold <==> threshold > 0.0 && d < threshold * threshold
  {
    if deltaE < threshold {
      var p, q := deltaE * threshold, threshold * threshold;
      assert deltaE * deltaE <= p;
      assert p < q;
    } else if threshold > 0.0 {
      var p, q := deltaE * threshold, threshold * threshold;
      assert deltaE * deltaE >= p;
      assert p >= q;
    }
  }

  /** Delta E is symmetric, so whether a pixel matches a background does not
      depend on which of the two is called the pixel. */
  lemma BackgroundTestSymmetric(toLab: Color -> Lab, p: Color, q: Color, threshold: real)
    ensures IsPixelBackgroundLab(toLab, p, q, threshold) == IsPixelBackgroundLab(toLab, q, p, threshold)
  {
    var x, y := toLab(p), toLab(q);
    assert Square(x.l - y.l) == Square(y.l - x.l);
    assert Square(x.a - y.a) == Square(y.a - x.a);
    assert Square(x.b - y.b) == Square(y.b - x.b);
  }

  /** Delta E of a colour with itself is 0: a pixel of exactly the background
      colour is background for every positive threshold, and no pixel is
      background when the threshold is not positive. */
  lemma BackgroundTestThreshold(toLab: Color -> Lab, p: Color, q: Color, threshold: real)
    ensures DeltaESquared(toLab(p), toLab(p)) == 0.0
    ensures threshold > 0.0 ==> IsPixelBackgroundLab(toLab, p, p, threshold)
    ensures threshold <= 0.0 ==> !IsPixelBackgroundLab(toLab, p, q, threshold)
  {
    if threshold > 0.0 {
      calc {
        DeltaESquared(toLab(p), toLab(p));
        == 0.0;
        < threshold * threshold;
      }
    }
  }
}
