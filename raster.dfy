/** The background-to-alpha pipeline `processBackgroundToTransparent` on a flat
    RGBA buffer: classify every pixel against the background colour into a 0/1
    alpha map, optionally smooth the colour channels with the bilateral filter,
    feather the alpha bytes at the edges, and finally write the alpha map into
    the alpha bytes.

    The floating-point parts are parameters: `weightedMean(data, width, height,
    p, c)` is the rounded bilateral average of channel `c` around pixel `p`, and
    `featherMean(alphaMap, width, height, p, radius)` is the Gaussian average
    `smoothedAlpha[p]` of the alpha map around pixel `p`. */
module Raster {
  import opened Wrappers
  import opened Colors
  import opened Background

  // ---------------------------------------------------------------------------
  // Alpha values and alpha bytes
  // ---------------------------------------------------------------------------

  function Clamp(v: real): (c: real)
    ensures 0.0 <= c <= 255.0
    ensures 0.0 <= v <= 255.0 ==> c == v
  {
    if v < 0.0 then 0.0 else if v > 255.0 then 255.0 else v
  }

  /** An alpha value stored as a byte: `Math.round(Math.max(0, Math.min(255, a * 255)))`.
      The final step's `Math.round(a * 255)` stored into a `Uint8ClampedArray`
      rounds and clamps the other way round, which gives the same byte. */
  function AlphaByte(a: real): (b: Byte)
    ensures a <= 0.0 ==> b == 0
    ensures a >= 1.0 ==> b == 255
    ensures 0.0 <= a <= 1.0 ==> (a * 255.0 + 0.5).Floor == b
  {
    (Clamp(a * 255.0) + 0.5).Floor
  }

  function Abs(v: real): real {
    if v < 0.0 then -v else v
  }

  // ---------------------------------------------------------------------------
  // Classification
  // ---------------------------------------------------------------------------

  /** `alphaMap[pixelIndex]`: 0 for a background pixel, 1 otherwise. */
  function AlphaOf(toLab: Color -> Lab, background: Color, threshold: real, pixel: Color): real {
    if IsPixelBackgroundLab(toLab, pixel, background, threshold) then 0.0 else 1.0
  }

  /** The alpha map the classification loop fills. */
  function Classification(data: seq<Byte>, toLab: Color -> Lab, background: Color, threshold: real): (alpha: seq<real>)
    requires |data| % 4 == 0
    ensures |alpha| == |data| / 4
  {
    seq(|data| / 4, p requires 0 <= p < |data| / 4 => AlphaOf(toLab, background, threshold, PixelColor(data, p)))
  }

  /** How many of the first `n` pixels are background. */
  function TransparentCount(data: seq<Byte>, toLab: Color -> Lab, background: Color, threshold: real, n: nat): (count: nat)
    requires n * 4 <= |data|
    ensures count <= n
  {
    if n == 0 then 0
    else
      TransparentCount(data, toLab, background, threshold, n - 1)
        + if IsPixelBackgroundLab(toLab, PixelColor(data, n - 1), background, threshold) then 1 else 0
  }

  /** Every alpha map entry is 0 or 1, and it is 0 exactly when the Delta E of
      the pixel from the background (any non-negative square root of the
      squared distance) is below the threshold. */
  lemma ClassificationMeaning(data: seq<Byte>, toLab: Color -> Lab, background: Color, threshold: real, p: nat, deltaE: real)
    requires |data| % 4 == 0 && p < |data| / 4
    requires deltaE >= 0.0 && deltaE * deltaE == DeltaESquared(toLab(PixelColor(data, p)), toLab(background))
    ensures Classification(data, toLab, background, threshold)[p] == 0.0 || Classification(data, toLab, background, threshold)[p] == 1.0
    ensures Classification(data, toLab, background, threshold)[p] == 0.0 <==> deltaE < threshold
  {
    SqrtComparison(DeltaESquared(toLab(PixelColor(data, p)), toLab(background)), deltaE, threshold);
  }

  /** A pixel of exactly the background colour becomes transparent for every
      positive threshold; with a threshold that is not positive every pixel
      stays opaque. */
  lemma ClassificationThreshold(data: seq<Byte>, toLab: Color -> Lab, background: Color, threshold: real, p: nat)
    requires |data| % 4 == 0 && p < |data| / 4
    ensures threshold > 0.0 && PixelColor(data, p) == background ==> Classification(data, toLab, background, threshold)[p] == 0.0
    ensures threshold <= 0.0 ==> Classification(data, toLab, background, threshold)[p] == 1.0
  {
    BackgroundTestThreshold(toLab, background, PixelColor(data, p), threshold);
  }

  /** An image made only of background pixels is counted as all transparent,
      one with none as all opaque. */
  lemma {:induction false} TransparentCountExtremes(data: seq<Byte>, toLab: Color -> Lab, background: Color, threshold: real, n: nat)
    requires n * 4 <= |data|
    ensures (forall p :: 0 <= p < n ==> IsPixelBackgroundLab(toLab, PixelColor(data, p), background, threshold))
      ==> TransparentCount(data, toLab, background, threshold, n) == n
    ensures (forall p :: 0 <= p < n ==> !IsPixelBackgroundLab(toLab, PixelColor(data, p), background, threshold))
      ==> TransparentCount(data, toLab, background, threshold, n) == 0
  {
    if n > 0 {
      TransparentCountExtremes(data, toLab, background, threshold, n - 1);
    }
  }

  /** The classification loop of `processBackgroundToTransparent`. */
  method ClassifyPixels(data: array<Byte>, width: nat, height: nat, toLab: Color -> Lab, background: Color, threshold: real)
    returns (alphaMap: array<real>, transparentCount: nat, opaqueCount: nat)
    requires IsImage(data[..], width, height)
    ensures fresh(alphaMap)
    ensures alphaMap[..] == Classification(data[..], toLab, background, threshold)
    ensures transparentCount == TransparentCount(data[..], toLab, background, threshold, width * height)
    ensures transparentCount + opaqueCount == width * height
  {
    alphaMap := new real[width * height](_ => 0.0);
    ghost var target := Classification(data[..], toLab, background, threshold);
    transparentCount, opaqueCount := 0, 0;
    var i := 0;
    ghost var p := 0;
    while i < data.Length
      invariant i == p * 4 && p <= width * height
      invariant forall q :: 0 <= q < p ==> alphaMap[q] == target[q]
      invariant transparentCount == TransparentCount(data[..], toLab, background, threshold, p)
      invariant transparentCount + opaqueCount == p
    {
      var pixel := Color(data[i], data[i + 1], data[i + 2]);
      var pixelIndex := i / 4;
      assert pixelIndex == p && pixel == PixelColor(data[..], p);
      var isBackground := IsPixelBackgroundLab(toLab, pixel, background, threshold);
      if isBackground {
        alphaMap[pixelIndex] := 0.0;
        transparentCount := transparentCount + 1;
      } else {
        alphaMap[pixelIndex] := 1.0;
        opaqueCount := opaqueCount + 1;
      }
      i := i + 4;
      p := p + 1;
    }
    assert alphaMap[..] == target;
  }

  // ---------------------------------------------------------------------------
  // Bilateral smoothing of the colour channels
  // ---------------------------------------------------------------------------

  /** The buffer after `applyBilateralFilter`: every colour byte is replaced by
      its filtered value, every alpha byte is kept. */
  function Bilateral(data: seq<Byte>, width: nat, height: nat, weightedMean: (seq<Byte>, nat, nat, nat, nat) -> Byte): (r: seq<Byte>)
    ensures |r| == |data|
    ensures forall i :: 0 <= i < |data| && i % 4 == 3 ==> r[i] == data[i]
  {
    seq(|data|, i requires 0 <= i < |data| => if i % 4 != 3 then weightedMean(data, width, height, i / 4, i % 4) else data[i])
  }

  /** `output` after the first `done` pixels have been filtered. */
  function BilateralUpTo(data: seq<Byte>, width: nat, height: nat, weightedMean: (seq<Byte>, nat, nat, nat, nat) -> Byte, done: nat): seq<Byte> {
    seq(|data|, i requires 0 <= i < |data| =>
      if i % 4 != 3 && i / 4 < done then weightedMean(data, width, height, i / 4, i % 4) else data[i])
  }

  /** Filtering pixel `p` writes its three colour bytes. */
  lemma BilateralUpToStep(data: seq<Byte>, width: nat, height: nat, weightedMean: (seq<Byte>, nat, nat, nat, nat) -> Byte, p: nat)
    requires p * 4 + 3 < |data|
    ensures BilateralUpTo(data, width, height, weightedMean, p + 1)
      == BilateralUpTo(data, width, height, weightedMean, p)
        [p * 4 := weightedMean(data, width, height, p, 0)]
        [p * 4 + 1 := weightedMean(data, width, height, p, 1)]
        [p * 4 + 2 := weightedMean(data, width, height, p, 2)]
  {
  }

  lemma BilateralComplete(data: seq<Byte>, width: nat, height: nat, weightedMean: (seq<Byte>, nat, nat, nat, nat) -> Byte)
    requires IsImage(data, width, height)
    ensures BilateralUpTo(data, width, height, weightedMean, height * width) == Bilateral(data, width, height, weightedMean)
  {
  }

  /** The body of the pixel loop of `applyBilateralFilter`: the three rounded
      averages written at `centerIndex`. */
  method FilterPixel(data: array<Byte>, output: array<Byte>, width: nat, height: nat,
                     weightedMean: (seq<Byte>, nat, nat, nat, nat) -> Byte, x: nat, y: nat)
    requires IsImage(data[..], width, height) && output.Length == data.Length && output != data
    requires x < width && y < height
    modifies output
    ensures var p := y * width + x;
      p * 4 + 3 < output.Length &&
      output[..] == old(output[..])
        [p * 4 := weightedMean(data[..], width, height, p, 0)]
        [p * 4 + 1 := weightedMean(data[..], width, height, p, 1)]
        [p * 4 + 2 := weightedMean(data[..], width, height, p, 2)]
  {
    var centerIndex := PixelIndex(width, height, x, y);
    var p := y * width + x;
    output[centerIndex] := weightedMean(data[..], width, height, p, 0);
    output[centerIndex + 1] := weightedMean(data[..], width, height, p, 1);
    output[centerIndex + 2] := weightedMean(data[..], width, height, p, 2);
  }

  /** The two nested pixel loops of `applyBilateralFilter`: every colour byte
      of `output` receives the filtered value of `data`. */
  method FilterPixels(data: array<Byte>, output: array<Byte>, width: nat, height: nat,
                      weightedMean: (seq<Byte>, nat, nat, nat, nat) -> Byte)
    requires IsImage(data[..], width, height) && output.Length == data.Length && output != data
    requires output[..] == data[..]
    modifies output
    ensures output[..] == Bilateral(data[..], width, height, weightedMean)
  {
    ghost var d := data[..];
    ghost var done := 0;
    for y := 0 to height
      invariant done == y * width
      invariant output[..] == BilateralUpTo(d, width, height, weightedMean, done)
    {
      for x := 0 to width
        invariant done == y * width + x
        invariant output[..] == BilateralUpTo(d, width, height, weightedMean, done)
      {
        FilterPixel(data, output, width, height, weightedMean, x, y);
        BilateralUpToStep(d, width, height, weightedMean, done);
        done := done + 1;
      }
      MulSucc(y, width);
    }
    BilateralComplete(d, width, height, weightedMean);
  }

  /** `applyBilateralFilter`: filter into the copy `output`, then copy every
      byte but the alpha bytes back. */
  method ApplyBilateralFilter(data: array<Byte>, width: nat, height: nat, weightedMean: (seq<Byte>, nat, nat, nat, nat) -> Byte)
    requires IsImage(data[..], width, height)
    modifies data
    ensures data[..] == Bilateral(old(data[..]), width, height, weightedMean)
  {
    ghost var original := data[..];
    var output := new Byte[data.Length](i requires 0 <= i < data.Length reads data => data[i]);
    assert output[..] == original;
    FilterPixels(data, output, width, height, weightedMean);
    ghost var filtered := output[..];
    for i := 0 to data.Length
      invariant output[..] == filtered
      invariant forall k :: 0 <= k < i ==> data[k] == filtered[k]
      invariant forall k :: i <= k < data.Length ==> data[k] == original[k]
    {
      if i % 4 != 3 {
        data[i] := output[i];
      }
    }
    assert data[..] == filtered;
  }

  // ---------------------------------------------------------------------------
  // Edge feathering
  // ---------------------------------------------------------------------------

  /** The neighbour (nx, ny) lies in the image and its alpha differs from
      `original` by more than 0.5. */
  predicate Differs(alpha: seq<real>, width: nat, height: nat, nx: int, ny: int, original: real) {
    0 <= nx < width && 0 <= ny < height && ny * width + nx < |alpha| && Abs(alpha[ny * width + nx] - original) > 0.5
  }

  /** The 3x3 edge gate: some neighbour of (x, y), the pixel itself included,
      has a clearly different alpha. */
  predicate IsEdge(alpha: seq<real>, width: nat, height: nat, x: nat, y: nat, original: real) {
    exists nx, ny :: x - 1 <= nx <= x + 1 && y - 1 <= ny <= y + 1 && Differs(alpha, width, height, nx, ny, original)
  }

  /** The `hasEdge` search of `applySmoothEdges`, leaving both loops at the
      first neighbour that differs. */
  method HasEdge(alphaMap: array<real>, width: nat, height: nat, x: nat, y: nat, originalAlpha: real) returns (hasEdge: bool)
    requires alphaMap.Length == width * height
    ensures hasEdge == IsEdge(alphaMap[..], width, height, x, y, originalAlpha)
  {
    hasEdge := false;
    for dy := -1 to 2
      invariant !hasEdge ==> forall nx, ny :: x - 1 <= nx <= x + 1 && y - 1 <= ny < y + dy ==> !Differs(alphaMap[..], width, height, nx, ny, originalAlpha)
      invariant hasEdge ==> IsEdge(alphaMap[..], width, height, x, y, originalAlpha)
    {
      var ny := y + dy;
      for dx := -1 to 2
        invariant !hasEdge ==> forall nx, ny :: x - 1 <= nx <= x + 1 && y - 1 <= ny < y + dy ==> !Differs(alphaMap[..], width, height, nx, ny, originalAlpha)
        invariant !hasEdge ==> forall nx :: x - 1 <= nx < x + dx ==> !Differs(alphaMap[..], width, height, nx, ny, originalAlpha)
        invariant hasEdge ==> IsEdge(alphaMap[..], width, height, x, y, originalAlpha)
      {
        var nx := x + dx;
        if 0 <= nx < width && 0 <= ny < height {
          PixelCoordinates(width, height, nx, ny);
          var neighborIndex := ny * width + nx;
          if Abs(alphaMap[neighborIndex] - originalAlpha) > 0.5 {
            hasEdge := true;
            assert Differs(alphaMap[..], width, height, nx, ny, originalAlpha);
            break;
          }
        }
      }
      if hasEdge {
        break;
      }
    }
  }

  /** `finalAlpha` of pixel (x, y): a pixel whose alpha is exactly 0 or 1 takes
      the smoothed value only at an edge; any other pixel always takes it. */
  function FeatheredAlpha(alpha: seq<real>, width: nat, height: nat, x: nat, y: nat, smoothed: real): real
    requires x < width && y < height && |alpha| == width * height
  {
    PixelCoordinates(width, height, x, y);
    var original := alpha[y * width + x];
    if original == 0.0 || original == 1.0 then
      if IsEdge(alpha, width, height, x, y, original) then smoothed else original
    else smoothed
  }

  /** The alpha byte `applySmoothEdges` writes for pixel number `p`. */
  function FeatheredByte(alpha: seq<real>, width: nat, height: nat, radius: real,
                         featherMean: (seq<real>, nat, nat, nat, real) -> real, p: nat): Byte
    requires |alpha| == width * height && p < width * height
  {
    var x, y := p % width, p / width;
    assert y < height by {
      if y >= height {
        MulMonotone(height, y, width);
      }
    }
    AlphaByte(FeatheredAlpha(alpha, width, height, x, y, featherMean(alpha, width, height, p, radius)))
  }

  /** The buffer after the first `done` pixels have been feathered: only their
      alpha bytes change. */
  function SmoothEdgesUpTo(data: seq<Byte>, alpha: seq<real>, width: nat, height: nat, radius: real,
                           featherMean: (seq<real>, nat, nat, nat, real) -> real, done: nat): (r: seq<Byte>)
    requires IsImage(data, width, height) && |alpha| == width * height && done <= width * height
    ensures |r| == |data|
    ensures forall i :: 0 <= i < |data| && i % 4 != 3 ==> r[i] == data[i]
  {
    seq(|data|, i requires 0 <= i < |data| =>
      if i % 4 == 3 && i / 4 < done then FeatheredByte(alpha, width, height, radius, featherMean, i / 4) else data[i])
  }

  /** The buffer after `applySmoothEdges`. */
  function SmoothEdges(data: seq<Byte>, alpha: seq<real>, width: nat, height: nat, radius: real,
                       featherMean: (seq<real>, nat, nat, nat, real) -> real): seq<Byte>
    requires IsImage(data, width, height) && |alpha| == width * height
  {
    SmoothEdgesUpTo(data, alpha, width, height, radius, featherMean, width * height)
  }

  lemma SmoothEdgesUpToStep(data: seq<Byte>, alpha: seq<real>, width: nat, height: nat, radius: real,
                            featherMean: (seq<real>, nat, nat, nat, real) -> real, p: nat)
    requires IsImage(data, width, height) && |alpha| == width * height && p < width * height
    ensures p * 4 + 3 < |data|
    ensures SmoothEdgesUpTo(data, alpha, width, height, radius, featherMean, p + 1)
      == SmoothEdgesUpTo(data, alpha, width, height, radius, featherMean, p)
        [p * 4 + 3 := FeatheredByte(alpha, width, height, radius, featherMean, p)]
  {
  }

  /** The gate of `applySmoothEdges` for pixel (x, y): the alpha it settles on,
      given the smoothed value. */
  method FinalAlpha(alphaMap: array<real>, width: nat, height: nat, x: nat, y: nat, smoothedValue: real)
    returns (finalAlpha: real)
    requires x < width && y < height && alphaMap.Length == width * height
    ensures finalAlpha == FeatheredAlpha(alphaMap[..], width, height, x, y, smoothedValue)
  {
    PixelCoordinates(width, height, x, y);
    var originalAlpha := alphaMap[y * width + x];
    if originalAlpha == 0.0 || originalAlpha == 1.0 {
      var hasEdge := HasEdge(alphaMap, width, height, x, y, originalAlpha);
      finalAlpha := if hasEdge then smoothedValue else originalAlpha;
    } else {
      finalAlpha := smoothedValue;
    }
  }

  /** `applySmoothEdges`: for each pixel, row by row, write the feathered alpha
      byte. The alpha map itself is only read. */
  method ApplySmoothEdges(data: array<Byte>, alphaMap: array<real>, width: nat, height: nat, radius: real,
                          featherMean: (seq<real>, nat, nat, nat, real) -> real)
    requires IsImage(data[..], width, height) && alphaMap.Length == width * height
    modifies data
    ensures data[..] == SmoothEdges(old(data[..]), alphaMap[..], width, height, radius, featherMean)
  {
    ghost var original := data[..];
    ghost var alpha := alphaMap[..];
    var smoothedAlpha := new real[width * height](_ => 0.0);
    ghost var done := 0;
    for y := 0 to height
      invariant done == y * width
      invariant data[..] == SmoothEdgesUpTo(original, alpha, width, height, radius, featherMean, done)
    {
      MulMonotone(y + 1, height, width);
      MulSucc(y, width);
      for x := 0 to width
        invariant done == y * width + x
        invariant data[..] == SmoothEdgesUpTo(original, alpha, width, height, radius, featherMean, done)
      {
        PixelCoordinates(width, height, x, y);
        var centerIndex := y * width + x;
        smoothedAlpha[centerIndex] := featherMean(alphaMap[..], width, height, centerIndex, radius);
        var finalAlpha := FinalAlpha(alphaMap, width, height, x, y, smoothedAlpha[centerIndex]);
        SmoothEdgesUpToStep(original, alpha, width, height, radius, featherMean, done);
        data[centerIndex * 4 + 3] := AlphaByte(finalAlpha);
        done := done + 1;
      }
    }
  }

  // ---------------------------------------------------------------------------
  // Final alpha and the whole pipeline
  // ---------------------------------------------------------------------------

  /** The buffer after the final step: every alpha byte is `alphaMap[p]`
      scaled to a byte, every colour byte is kept. */
  function WithAlpha(data: seq<Byte>, alpha: seq<real>): (r: seq<Byte>)
    requires |data| == |alpha| * 4
    ensures |r| == |data|
    ensures forall i :: 0 <= i < |data| && i % 4 != 3 ==> r[i] == data[i]
  {
    seq(|data|, i requires 0 <= i < |data| => if i % 4 == 3 then AlphaByte(alpha[i / 4]) else data[i])
  }

  /** The background the pipeline removes: the given colour, otherwise the
      detected one. */
  function BackgroundFor(data: seq<Byte>, width: nat, height: nat, targetColor: Option<Color>): Color
    requires IsImage(data, width, height)
  {
    match targetColor
    case Some(c) => c
    case None => MostFrequent(CornerSamples(data, width, height))
  }

  /** What `processBackgroundToTransparent` leaves in the buffer. */
  function Composite(data: seq<Byte>, width: nat, height: nat, threshold: real, smooth: bool, background: Color,
                     toLab: Color -> Lab, weightedMean: (seq<Byte>, nat, nat, nat, nat) -> Byte): seq<Byte>
    requires IsImage(data, width, height)
  {
    var alpha := Classification(data, toLab, background, threshold);
    var colours := if smooth then Bilateral(data, width, height, weightedMean) else data;
    WithAlpha(colours, alpha)
  }

  /** The final step overwrites every byte the feathering wrote: feathering
      has no effect on the result. */
  lemma FeatheringOverwritten(data: seq<Byte>, alpha: seq<real>, width: nat, height: nat, radius: real,
                              featherMean: (seq<real>, nat, nat, nat, real) -> real)
    requires IsImage(data, width, height) && |alpha| == width * height
    ensures WithAlpha(SmoothEdges(data, alpha, width, height, radius, featherMean), alpha) == WithAlpha(data, alpha)
  {
  }

  /** Every alpha byte of the result is 0 or 255: 0 exactly for the pixels
      classified as background, judged on the buffer as it was given. */
  lemma CompositeAlphaIsBinary(data: seq<Byte>, width: nat, height: nat, threshold: real, smooth: bool, background: Color,
                               toLab: Color -> Lab, weightedMean: (seq<Byte>, nat, nat, nat, nat) -> Byte, p: nat)
    requires IsImage(data, width, height) && p < width * height
    ensures var r := Composite(data, width, height, threshold, smooth, background, toLab, weightedMean);
      p * 4 + 3 < |r| && (r[p * 4 + 3] == 0 || r[p * 4 + 3] == 255) &&
      (r[p * 4 + 3] == 0 <==> IsPixelBackgroundLab(toLab, PixelColor(data, p), background, threshold))
  {
    var alpha := Classification(data, toLab, background, threshold);
    var colours := if smooth then Bilateral(data, width, height, weightedMean) else data;
    assert (p * 4 + 3) / 4 == p && (p * 4 + 3) % 4 == 3;
    assert WithAlpha(colours, alpha)[p * 4 + 3] == AlphaByte(alpha[p]);
  }

  /** The colour bytes of the result are the filtered ones when smoothing, and
      exactly the given ones otherwise. */
  lemma CompositeColours(data: seq<Byte>, width: nat, height: nat, threshold: real, smooth: bool, background: Color,
                         toLab: Color -> Lab, weightedMean: (seq<Byte>, nat, nat, nat, nat) -> Byte, i: nat)
    requires IsImage(data, width, height) && i < |data| && i % 4 != 3
    ensures var r := Composite(data, width, height, threshold, smooth, background, toLab, weightedMean);
      |r| == |data| && r[i] == if smooth then weightedMean(data, width, height, i / 4, i % 4) else data[i]
  {
  }

  /** `dst` with its colour bytes taken from `src` and its alpha bytes kept. */
  function ColoursFrom(dst: seq<Byte>, src: seq<Byte>): (r: seq<Byte>)
    requires |dst| == |src|
    ensures |r| == |dst|
  {
    seq(|dst|, i requires 0 <= i < |dst| => if i % 4 != 3 then src[i] else dst[i])
  }

  method CopyPixelColours(data: array<Byte>, source: array<Byte>, i: nat)
    requires data.Length == source.Length && i + 3 < data.Length && data != source
    modifies data
    ensures data[..] == old(data[..])[i := source[i]][i + 1 := source[i + 1]][i + 2 := source[i + 2]]
  {
    data[i] := source[i];
    data[i + 1] := source[i + 1];
    data[i + 2] := source[i + 2];
  }

  /** Copying the three colour bytes of pixel `p` extends the copied prefix by
      one pixel. */
  lemma CopyColoursStep(dst: seq<Byte>, src: seq<Byte>, p: nat)
    requires |dst| == |src| && 4 * p + 3 < |dst|
    ensures var i, target := 4 * p, ColoursFrom(dst, src);
      (target[..i] + dst[i..])[i := src[i]][i + 1 := src[i + 1]][i + 2 := src[i + 2]]
      == target[..i + 4] + dst[i + 4..]
  {
    var i, target := 4 * p, ColoursFrom(dst, src);
    assert i % 4 == 0 && (i + 1) % 4 == 1 && (i + 2) % 4 == 2 && (i + 3) % 4 == 3;
  }

  /** The copy-back of step 3: the colour bytes of every pixel from `source`,
      four bytes at a time. */
  method CopyColours(data: array<Byte>, source: array<Byte>)
    requires data.Length == source.Length && data.Length % 4 == 0 && data != source
    modifies data
    ensures data[..] == ColoursFrom(old(data[..]), source[..])
  {
    ghost var original := data[..];
    ghost var target := ColoursFrom(original, source[..]);
    var i := 0;
    ghost var p := 0;
    ghost var n := data.Length / 4;
    while i < data.Length
      invariant i == 4 * p && data.Length == 4 * n && p <= n
      invariant data[..] == target[..i] + original[i..]
    {
      CopyColoursStep(original, source[..], p);
      CopyPixelColours(data, source, i);
      i := i + 4;
      p := p + 1;
    }
    assert data[..] == target;
  }

  /** The filter changes only colour bytes, so copying its colour bytes back
      reproduces it. */
  lemma BilateralColoursOnly(data: seq<Byte>, width: nat, height: nat, weightedMean: (seq<Byte>, nat, nat, nat, nat) -> Byte)
    requires IsImage(data, width, height)
    ensures ColoursFrom(data, Bilateral(data, width, height, weightedMean)) == Bilateral(data, width, height, weightedMean)
  {
  }

  /** Step 3 of `processBackgroundToTransparent`: filter a copy of the buffer
      and copy its colour bytes back. */
  method SmoothColours(data: array<Byte>, width: nat, height: nat, weightedMean: (seq<Byte>, nat, nat, nat, nat) -> Byte)
    requires IsImage(data[..], width, height)
    modifies data
    ensures data[..] == Bilateral(old(data[..]), width, height, weightedMean)
  {
    ghost var original := data[..];
    var imageDataCopy := new Byte[data.Length](i requires 0 <= i < data.Length reads data => data[i]);
    assert imageDataCopy[..] == original;
    ApplyBilateralFilter(imageDataCopy, width, height, weightedMean);
    CopyColours(data, imageDataCopy);
    BilateralColoursOnly(original, width, height, weightedMean);
  }

  /** Step 5 of `processBackgroundToTransparent`: write every alpha byte from
      the alpha map. */
  method WriteAlpha(data: array<Byte>, alphaMap: array<real>)
    requires data.Length == alphaMap.Length * 4
    modifies data
    ensures data[..] == WithAlpha(old(data[..]), alphaMap[..])
  {
    ghost var original := data[..];
    var i := 0;
    while i < data.Length
      invariant 0 <= i <= data.Length && i % 4 == 0
      invariant forall k :: 0 <= k < i ==> data[k] == WithAlpha(original, alphaMap[..])[k]
      invariant forall k :: i <= k < data.Length ==> data[k] == original[k]
    {
      var pixelIndex := i / 4;
      data[i + 3] := AlphaByte(alphaMap[pixelIndex]);
      i := i + 4;
    }
    assert data[..] == WithAlpha(original, alphaMap[..]);
  }

  /** `processBackgroundToTransparent`. */
  method ProcessBackgroundToTransparent(data: array<Byte>, width: nat, height: nat, threshold: real, smooth: bool,
                                        featherRadius: real, targetColor: Option<Color>, toLab: Color -> Lab,
                                        weightedMean: (seq<Byte>, nat, nat, nat, nat) -> Byte,
                                        featherMean: (seq<real>, nat, nat, nat, real) -> real)
    requires IsImage(data[..], width, height)
    modifies data
    ensures data[..] == Composite(old(data[..]), width, height, threshold, smooth,
      BackgroundFor(old(data[..]), width, height, targetColor), toLab, weightedMean)
  {
    ghost var original := data[..];
    var backgroundColor;
    if targetColor.Some? {
      backgroundColor := targetColor.value;
    } else {
      backgroundColor := DetectBackgroundColor(data, width, height);
    }

    var alphaMap, transparentCount, opaqueCount := ClassifyPixels(data, width, height, toLab, backgroundColor, threshold);

    if smooth {
      SmoothColours(data, width, height, weightedMean);
    }
    ghost var colours := data[..];

    if featherRadius > 0.0 {
      ApplySmoothEdges(data, alphaMap, width, height, featherRadius, featherMean);
      FeatheringOverwritten(colours, alphaMap[..], width, height, featherRadius, featherMean);
    }

    WriteAlpha(data, alphaMap);
  }
}
