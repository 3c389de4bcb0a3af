/** Statistical background detection: sample the four corner blocks of the
    RGBA buffer, quantise every sample to 8 steps per channel, and take the
    most frequent quantised colour, the earliest seen winning a tie; white when
    there are no samples. */
module Background {
  import opened Wrappers
  import opened Strings
  import opened Colors

  function Min(a: int, b: int): int {
    if a <= b then a else b
  }

  // ---------------------------------------------------------------------------
  // Pixels of an RGBA buffer
  // ---------------------------------------------------------------------------

  /** The colour of pixel number `p`: the three bytes at `p * 4`, alpha ignored. */
  function PixelColor(data: seq<Byte>, p: nat): Color
    requires p * 4 + 3 < |data|
  {
    Color(data[p * 4], data[p * 4 + 1], data[p * 4 + 2])
  }

  /** An `ImageData` buffer: four bytes per pixel, row by row. */
  predicate IsImage(data: seq<Byte>, width: nat, height: nat) {
    |data| == width * height * 4
  }

  /** Pixel (x, y) lies inside the buffer. */
  lemma PixelIndexInRange(width: nat, height: nat, x: nat, y: nat)
    requires x < width && y < height
    ensures (y * width + x) * 4 + 3 < width * height * 4
  {
    assert y * width + width == (y + 1) * width;
    assert (y + 1) * width <= height * width by {
      MulMonotone(y + 1, height, width);
    }
  }

  /** Pixel (x, y) is pixel number `y * width + x`, and that number gives back x and y. */
  lemma PixelCoordinates(width: nat, height: nat, x: nat, y: nat)
    requires x < width && y < height
    ensures y * width + x < width * height
    ensures (y * width + x) % width == x && (y * width + x) / width == y
  {
    PixelIndexInRange(width, height, x, y);
    var p := y * width + x;
    var q, r := p / width, p % width;
    assert p == q * width + r;
    if q > y {
      MulMonotone(y + 1, q, width);
      MulSucc(y, width);
    } else if q < y {
      MulMonotone(q + 1, y, width);
      MulSucc(q, width);
    }
  }

  lemma MulSucc(n: nat, k: nat)
    ensures n * k + k == (n + 1) * k
  {
  }

  lemma MulMonotone(a: nat, b: nat, c: nat)
    requires a <= b
    ensures a * c <= b * c
  {
  }

  /** `(y * width + x) * 4`: where pixel (x, y) starts in the buffer. */
  function PixelIndex(width: nat, height: nat, x: nat, y: nat): (index: nat)
    requires x < width && y < height
    ensures index % 4 == 0 && index + 3 < width * height * 4
  {
    PixelIndexInRange(width, height, x, y);
    (y * width + x) * 4
  }

  /** The colour of pixel (x, y). */
  function PixelAt(data: seq<Byte>, width: nat, height: nat, x: nat, y: nat): Color
    requires IsImage(data, width, height) && x < width && y < height
  {
    var index := PixelIndex(width, height, x, y);
    Color(data[index], data[index + 1], data[index + 2])
  }

  // ---------------------------------------------------------------------------
  // Corner sampling
  // ---------------------------------------------------------------------------

  datatype Point = Point(x: nat, y: nat)

  /** `Math.min(20, Math.floor(Math.min(width, height) / 10))`. */
  function SampleSize(width: nat, height: nat): (s: nat)
    ensures s <= 20 && s * 10 <= width && s * 10 <= height
    ensures width >= 200 && height >= 200 ==> s == 20
    ensures width < 10 || height < 10 ==> s == 0
  {
    Min(20, Min(width, height) / 10)
  }

  /** Top-left, top-right, bottom-left and bottom-right corners of the sampled blocks. */
  function Corners(width: nat, height: nat): (cs: seq<Point>)
    ensures |cs| == 4
    ensures forall i :: 0 <= i < 4 ==> cs[i].x + SampleSize(width, height) <= width && cs[i].y + SampleSize(width, height) <= height
  {
    var s := SampleSize(width, height);
    [Point(0, 0), Point(width - s, 0), Point(0, height - s), Point(width - s, height - s)]
  }

  /** Row `dy` of the block at `corner`, left to right. */
  function BlockRow(data: seq<Byte>, width: nat, height: nat, corner: Point, s: nat, dy: nat): (row: seq<Color>)
    requires IsImage(data, width, height)
    requires corner.x + s <= width && corner.y + s <= height && dy < s
    ensures |row| == s
  {
    seq(s, dx requires 0 <= dx < s => PixelAt(data, width, height, corner.x + dx, corner.y + dy))
  }

  /** The first `n` rows of the `s`-by-`s` block at `corner`, top to bottom. */
  function BlockRows(data: seq<Byte>, width: nat, height: nat, corner: Point, s: nat, n: nat): seq<Color>
    requires IsImage(data, width, height)
    requires corner.x + s <= width && corner.y + s <= height && n <= s
  {
    if n == 0 then [] else BlockRows(data, width, height, corner, s, n - 1) + BlockRow(data, width, height, corner, s, n - 1)
  }

  /** The samples of the first `n` corners, in the order top-left, top-right,
      bottom-left, bottom-right. */
  function CornersUpTo(data: seq<Byte>, width: nat, height: nat, n: nat): seq<Color>
    requires IsImage(data, width, height) && n <= 4
  {
    if n == 0 then []
    else
      var s := SampleSize(width, height);
      CornersUpTo(data, width, height, n - 1) + BlockRows(data, width, height, Corners(width, height)[n - 1], s, s)
  }

  /** The `cornerSamples` array built by `detectBackgroundColor`. */
  function CornerSamples(data: seq<Byte>, width: nat, height: nat): seq<Color>
    requires IsImage(data, width, height)
  {
    CornersUpTo(data, width, height, 4)
  }

  lemma {:induction false} BlockRowsLength(data: seq<Byte>, width: nat, height: nat, corner: Point, s: nat, n: nat)
    requires IsImage(data, width, height)
    requires corner.x + s <= width && corner.y + s <= height && n <= s
    ensures |BlockRows(data, width, height, corner, s, n)| == n * s
  {
    if n > 0 {
      BlockRowsLength(data, width, height, corner, s, n - 1);
      MulSucc(n - 1, s);
    }
  }

  /** Sample `dy * s + dx` of a block is its pixel (dx, dy). */
  lemma {:induction false} BlockRowsAt(data: seq<Byte>, width: nat, height: nat, corner: Point, s: nat, n: nat, dx: nat, dy: nat)
    requires IsImage(data, width, height)
    requires corner.x + s <= width && corner.y + s <= height && n <= s
    requires dx < s && dy < n
    ensures dy * s + dx < |BlockRows(data, width, height, corner, s, n)|
    ensures BlockRows(data, width, height, corner, s, n)[dy * s + dx] == PixelAt(data, width, height, corner.x + dx, corner.y + dy)
  {
    BlockRowsLength(data, width, height, corner, s, n - 1);
    BlockRowsLength(data, width, height, corner, s, n);
    RowIndex(dy, dx, s, n);
    var before := BlockRows(data, width, height, corner, s, n - 1);
    assert BlockRows(data, width, height, corner, s, n) == before + BlockRow(data, width, height, corner, s, n - 1);
    if dy < n - 1 {
      RowIndex(dy, dx, s, n - 1);
      BlockRowsAt(data, width, height, corner, s, n - 1, dx, dy);
    } else {
      assert dy * s + dx == |before| + dx;
    }
  }

  lemma {:induction false} CornersUpToLength(data: seq<Byte>, width: nat, height: nat, n: nat)
    requires IsImage(data, width, height) && n <= 4
    ensures |CornersUpTo(data, width, height, n)| == n * (SampleSize(width, height) * SampleSize(width, height))
  {
    if n > 0 {
      var s := SampleSize(width, height);
      CornersUpToLength(data, width, height, n - 1);
      BlockRowsLength(data, width, height, Corners(width, height)[n - 1], s, s);
      MulSucc(n - 1, s * s);
    }
  }

  /** The corner samples are the four `s`-by-`s` blocks one after another,
      top-left, top-right, bottom-left, bottom-right, each listed row by row. */
  lemma CornerSamplesLayout(data: seq<Byte>, width: nat, height: nat)
    requires IsImage(data, width, height)
    ensures var s, cs := SampleSize(width, height), Corners(width, height);
      CornerSamples(data, width, height)
        == BlockRows(data, width, height, cs[0], s, s) + BlockRows(data, width, height, cs[1], s, s)
          + BlockRows(data, width, height, cs[2], s, s) + BlockRows(data, width, height, cs[3], s, s)
    ensures var s := SampleSize(width, height);
      |CornerSamples(data, width, height)| == 4 * (s * s)
  {
    var s, cs := SampleSize(width, height), Corners(width, height);
    var b0, b1 := BlockRows(data, width, height, cs[0], s, s), BlockRows(data, width, height, cs[1], s, s);
    var b2, b3 := BlockRows(data, width, height, cs[2], s, s), BlockRows(data, width, height, cs[3], s, s);
    assert CornersUpTo(data, width, height, 1) == b0;
    assert CornersUpTo(data, width, height, 2) == b0 + b1;
    assert CornersUpTo(data, width, height, 3) == b0 + b1 + b2;
    assert CornersUpTo(data, width, height, 4) == b0 + b1 + b2 + b3;
    CornersUpToLength(data, width, height, 4);
  }

  lemma RowIndex(dy: nat, dx: nat, s: nat, n: nat)
    requires dy < n && dx < s
    ensures dy * s + dx < n * s
  {
    MulMonotone(dy + 1, n, s);
  }

  /** Images narrower or lower than 10 pixels give no samples. */
  lemma SmallImageHasNoSamples(data: seq<Byte>, width: nat, height: nat)
    requires IsImage(data, width, height)
    requires width < 10 || height < 10
    ensures CornerSamples(data, width, height) == []
  {
    CornersUpToLength(data, width, height, 4);
  }

  // ---------------------------------------------------------------------------
  // The most frequent quantised colour
  // ---------------------------------------------------------------------------

  function QuantizeAll(samples: seq<Color>): (qs: seq<Color>)
    ensures |qs| == |samples|
    ensures forall i :: 0 <= i < |samples| ==> qs[i] == Quantize(samples[i])
    ensures forall i :: 0 <= i < |qs| ==> IsQuantized(qs[i])
  {
    seq(|samples|, i requires 0 <= i < |samples| => Quantize(samples[i]))
  }

  /** Quantising the samples a second time changes nothing. */
  lemma QuantizeAllIdempotent(samples: seq<Color>)
    ensures QuantizeAll(QuantizeAll(samples)) == QuantizeAll(samples)
  {
    var qs := QuantizeAll(samples);
    forall i | 0 <= i < |qs|
      ensures QuantizeAll(qs)[i] == qs[i]
    {
      QuantizeIsProjection(samples[i]);
    }
  }

  function Count(qs: seq<Color>, c: Color): nat {
    multiset(qs)[c]
  }

  /** The distinct colours of `qs` in the order they are first seen: the order
      in which their keys enter `colorCounts`, and so the order of
      `Object.entries` (keys such as "248-248-248" are never array indices). */
  function Distinct(qs: seq<Color>): seq<Color> {
    if |qs| == 0 then []
    else
      var before := Distinct(qs[..|qs| - 1]);
      if qs[|qs| - 1] in qs[..|qs| - 1] then before else before + [qs[|qs| - 1]]
  }

  /** The state `maxCount` / `mostFrequent` of the second loop. */
  datatype Leader = Leader(best: Option<Color>, maxCount: nat)

  /** Scanning `ds` with `count > maxCount`, counting in `qs`. */
  function Scan(ds: seq<Color>, qs: seq<Color>): Leader {
    if |ds| == 0 then Leader(None, 0)
    else
      var previous := Scan(ds[..|ds| - 1], qs);
      var count := Count(qs, ds[|ds| - 1]);
      if count > previous.maxCount then Leader(Some(ds[|ds| - 1]), count) else previous
  }

  lemma ScanStep(ds: seq<Color>, qs: seq<Color>, j: nat)
    requires j < |ds|
    ensures var previous := Scan(ds[..j], qs);
      Scan(ds[..j + 1], qs)
        == if Count(qs, ds[j]) > previous.maxCount then Leader(Some(ds[j]), Count(qs, ds[j])) else previous
  {
    assert ds[..j + 1][..j] == ds[..j];
  }

  /** The colour `findMostFrequentColor` returns. */
  function MostFrequent(samples: seq<Color>): Color {
    var qs := QuantizeAll(samples);
    match Scan(Distinct(qs), qs).best
    case None => White
    case Some(c) => c
  }

  /** The reference definition: `r` occurs in `qs` as often as any colour, and
      at some position before which every colour occurs strictly less often. */
  predicate IsFirstMode(qs: seq<Color>, r: Color) {
    (forall i :: 0 <= i < |qs| ==> Count(qs, qs[i]) <= Count(qs, r)) &&
    exists j :: 0 <= j < |qs| && qs[j] == r && forall i :: 0 <= i < j ==> Count(qs, qs[i]) < Count(qs, r)
  }

  lemma {:induction false} DistinctMembers(qs: seq<Color>)
    ensures forall x :: x in Distinct(qs) <==> x in qs
  {
    if |qs| > 0 {
      DistinctMembers(qs[..|qs| - 1]);
      assert qs == qs[..|qs| - 1] + [qs[|qs| - 1]];
    }
  }

  lemma {:induction false} DistinctNoDuplicates(qs: seq<Color>)
    ensures forall a, b :: 0 <= a < b < |Distinct(qs)| ==> Distinct(qs)[a] != Distinct(qs)[b]
  {
    if |qs| > 0 {
      DistinctNoDuplicates(qs[..|qs| - 1]);
      DistinctMembers(qs[..|qs| - 1]);
    }
  }

  /** The distinct colours of a prefix are a prefix of the distinct colours. */
  lemma {:induction false} DistinctPrefix(qs: seq<Color>, j: nat)
    requires j <= |qs|
    ensures Distinct(qs[..j]) <= Distinct(qs)
    decreases |qs|
  {
    if j < |qs| {
      assert qs[..|qs| - 1][..j] == qs[..j];
      DistinctPrefix(qs[..|qs| - 1], j);
    } else {
      assert qs[..j] == qs;
    }
  }

  /** The first position of `x` in `qs`. */
  function FirstIndex(qs: seq<Color>, x: Color): (j: nat)
    requires x in qs
    ensures j < |qs| && qs[j] == x && x !in qs[..j]
  {
    if qs[0] == x then 0
    else
      var j := 1 + FirstIndex(qs[1..], x);
      assert qs[..j] == [qs[0]] + qs[1..][..j - 1];
      j
  }

  /** What the scan leaves: the largest count seen, and the first colour that
      reached it (at position `k`). */
  lemma {:induction false} ScanLeader(ds: seq<Color>, qs: seq<Color>) returns (k: nat)
    ensures forall i :: 0 <= i < |ds| ==> Count(qs, ds[i]) <= Scan(ds, qs).maxCount
    ensures Scan(ds, qs).best == None ==> Scan(ds, qs).maxCount == 0
    ensures Scan(ds, qs).best.Some? ==>
      k < |ds| && ds[k] == Scan(ds, qs).best.value && Count(qs, ds[k]) == Scan(ds, qs).maxCount &&
      forall i :: 0 <= i < k ==> Count(qs, ds[i]) < Scan(ds, qs).maxCount
  {
    if |ds| == 0 {
      k := 0;
    } else {
      var init := ds[..|ds| - 1];
      k := ScanLeader(init, qs);
      var previous := Scan(init, qs);
      var count := Count(qs, ds[|ds| - 1]);
      if count > previous.maxCount {
        k := |ds| - 1;
        assert forall i :: 0 <= i < k ==> ds[i] == init[i];
      } else {
        assert forall i :: 0 <= i < |init| ==> ds[i] == init[i];
      }
    }
  }

  /** With samples, the colour found is the first mode of the quantised samples. */
  lemma MostFrequentIsFirstMode(samples: seq<Color>)
    requires |samples| > 0
    ensures IsFirstMode(QuantizeAll(samples), MostFrequent(samples))
  {
    var qs := QuantizeAll(samples);
    var ds := Distinct(qs);
    DistinctMembers(qs);
    var k := ScanLeader(ds, qs);
    assert qs[0] in ds;
    var leader := Scan(ds, qs);
    assert Count(qs, qs[0]) >= 1;
    var r := leader.best.value;
    var j := FirstIndex(qs, r);
    var before := Distinct(qs[..j]);
    DistinctPrefix(qs, j);
    DistinctMembers(qs[..j]);
    DistinctNoDuplicates(qs);
    assert before == ds[..|before|];
    assert |before| <= k;
    forall i | 0 <= i < j
      ensures Count(qs, qs[i]) < Count(qs, r)
    {
      assert qs[i] in qs[..j];
      var i' :| 0 <= i' < |before| && before[i'] == qs[i];
      assert ds[i'] == qs[i];
    }
    forall i | 0 <= i < |qs|
      ensures Count(qs, qs[i]) <= Count(qs, r)
    {
      assert qs[i] in qs;
      var i' :| 0 <= i' < |ds| && ds[i'] == qs[i];
    }
  }

  /** At most one colour is the first mode. */
  lemma FirstModeUnique(qs: seq<Color>, r1: Color, r2: Color)
    requires IsFirstMode(qs, r1) && IsFirstMode(qs, r2)
    ensures r1 == r2
  {
    var j1 :| 0 <= j1 < |qs| && qs[j1] == r1 && forall i :: 0 <= i < j1 ==> Count(qs, qs[i]) < Count(qs, r1);
    var j2 :| 0 <= j2 < |qs| && qs[j2] == r2 && forall i :: 0 <= i < j2 ==> Count(qs, qs[i]) < Count(qs, r2);
    assert Count(qs, r1) == Count(qs, r2) by {
      assert Count(qs, qs[j1]) <= Count(qs, r2);
      assert Count(qs, qs[j2]) <= Count(qs, r1);
    }
  }

  /** `findMostFrequentColor` returns exactly the first mode of the quantised
      samples, and white when there are none. */
  lemma MostFrequentCharacterized(samples: seq<Color>, r: Color)
    ensures MostFrequent(samples) == r <==>
      (|samples| == 0 && r == White) || (|samples| > 0 && IsFirstMode(QuantizeAll(samples), r))
  {
    if |samples| > 0 {
      MostFrequentIsFirstMode(samples);
      if IsFirstMode(QuantizeAll(samples), r) {
        FirstModeUnique(QuantizeAll(samples), r, MostFrequent(samples));
      }
    }
  }

  /** The colour found is quantised, and it is the quantisation of one of the samples. */
  lemma MostFrequentIsSampled(samples: seq<Color>)
    requires |samples| > 0
    ensures IsQuantized(MostFrequent(samples))
    ensures exists i :: 0 <= i < |samples| && MostFrequent(samples) == Quantize(samples[i])
  {
    MostFrequentIsFirstMode(samples);
    var qs := QuantizeAll(samples);
    var j :| 0 <= j < |qs| && qs[j] == MostFrequent(samples) && forall i :: 0 <= i < j ==> Count(qs, qs[i]) < Count(qs, MostFrequent(samples));
    QuantizeIsProjection(samples[j]);
  }

  /** A uniform image is detected as the quantisation of its colour, and a
      small one as white. */
  lemma DetectUniform(data: seq<Byte>, width: nat, height: nat, c: Color)
    requires IsImage(data, width, height)
    requires forall p :: 0 <= p < width * height ==> PixelColor(data, p) == c
    ensures width >= 10 && height >= 10 ==> MostFrequent(CornerSamples(data, width, height)) == Quantize(c)
    ensures width < 10 || height < 10 ==> MostFrequent(CornerSamples(data, width, height)) == White
  {
    var samples := CornerSamples(data, width, height);
    var s := SampleSize(width, height);
    if width >= 10 && height >= 10 {
      CornersUpToLength(data, width, height, 4);
      MostFrequentIsSampled(samples);
      var i :| 0 <= i < |samples| && MostFrequent(samples) == Quantize(samples[i]);
      assert samples[i] == c by {
        SampleIsPixel(data, width, height, 4, i);
      }
    } else {
      SmallImageHasNoSamples(data, width, height);
    }
  }

  /** Every sample is the colour of some pixel of the image. */
  lemma {:induction false} SampleIsPixel(data: seq<Byte>, width: nat, height: nat, n: nat, i: nat)
    requires IsImage(data, width, height) && n <= 4
    requires i < |CornersUpTo(data, width, height, n)|
    ensures exists p :: 0 <= p < width * height && CornersUpTo(data, width, height, n)[i] == PixelColor(data, p)
  {
    var before := CornersUpTo(data, width, height, n - 1);
    if i < |before| {
      SampleIsPixel(data, width, height, n - 1, i);
    } else {
      var s := SampleSize(width, height);
      BlockSampleIsPixel(data, width, height, Corners(width, height)[n - 1], s, s, i - |before|);
    }
  }

  lemma {:induction false} BlockSampleIsPixel(data: seq<Byte>, width: nat, height: nat, corner: Point, s: nat, n: nat, i: nat)
    requires IsImage(data, width, height)
    requires corner.x + s <= width && corner.y + s <= height && n <= s
    requires i < |BlockRows(data, width, height, corner, s, n)|
    ensures exists p :: 0 <= p < width * height && BlockRows(data, width, height, corner, s, n)[i] == PixelColor(data, p)
  {
    var before := BlockRows(data, width, height, corner, s, n - 1);
    if i < |before| {
      BlockSampleIsPixel(data, width, height, corner, s, n - 1, i);
    } else {
      var dx := i - |before|;
      var x, y := corner.x + dx, corner.y + n - 1;
      PixelIndexInRange(width, height, x, y);
      var p := y * width + x;
      assert p < width * height;
      assert BlockRows(data, width, height, corner, s, n) == before + BlockRow(data, width, height, corner, s, n - 1);
      assert BlockRows(data, width, height, corner, s, n)[i] == PixelAt(data, width, height, x, y) == PixelColor(data, p);
    }
  }

  // ---------------------------------------------------------------------------
  // The plugin's two functions
  // ---------------------------------------------------------------------------

  function KeysOf(cs: seq<Color>): seq<string> {
    seq(|cs|, i requires 0 <= i < |cs| => ColorKey(cs[i]))
  }

  /** Two positions have the same key exactly when they hold the same colour,
      so the dictionary never merges two colours. */
  lemma KeysOfInjective(cs: seq<Color>)
    ensures forall i, j :: 0 <= i < |cs| && 0 <= j < |cs| ==> (KeysOf(cs)[i] == KeysOf(cs)[j] <==> cs[i] == cs[j])
  {
    forall i, j | 0 <= i < |cs| && 0 <= j < |cs|
      ensures KeysOf(cs)[i] == KeysOf(cs)[j] <==> cs[i] == cs[j]
    {
      KeyInjective(cs[i], cs[j]);
    }
  }

  lemma KeyOfMember(cs: seq<Color>, c: Color)
    ensures ColorKey(c) in KeysOf(cs) <==> c in cs
  {
    if ColorKey(c) in KeysOf(cs) {
      var i :| 0 <= i < |cs| && KeysOf(cs)[i] == ColorKey(c);
      KeyInjective(cs[i], c);
    }
    if c in cs {
      var i :| 0 <= i < |cs| && cs[i] == c;
      assert KeysOf(cs)[i] == ColorKey(c);
    }
  }

  /** `colorCounts` and its insertion order `keys` after counting `prefix`:
      one key per distinct colour, in first-seen order, mapped to its count. */
  ghost predicate CountsAgree(colorCounts: map<string, nat>, keys: seq<string>, prefix: seq<Color>) {
    keys == KeysOf(Distinct(prefix)) &&
    (forall k :: k in colorCounts <==> k in keys) &&
    forall m :: 0 <= m < |keys| ==> colorCounts[keys[m]] == Count(prefix, Distinct(prefix)[m])
  }

  lemma CountSnoc(prefix: seq<Color>, q: Color, c: Color)
    ensures Count(prefix + [q], c) == Count(prefix, c) + (if c == q then 1 else 0)
  {
    assert multiset(prefix + [q]) == multiset(prefix) + multiset{q};
  }

  /** A colour's key is in the dictionary exactly when the colour was seen. */
  lemma KeyPresent(colorCounts: map<string, nat>, keys: seq<string>, prefix: seq<Color>, q: Color)
    requires CountsAgree(colorCounts, keys, prefix)
    ensures ColorKey(q) in colorCounts <==> q in prefix
  {
    DistinctMembers(prefix);
    KeyOfMember(Distinct(prefix), q);
  }

  /** Counting a colour seen before adds one to its entry. */
  lemma CountsAgreeSeen(colorCounts: map<string, nat>, keys: seq<string>, prefix: seq<Color>, q: Color)
    requires CountsAgree(colorCounts, keys, prefix) && q in prefix
    requires ColorKey(q) in colorCounts
    ensures CountsAgree(colorCounts[ColorKey(q) := colorCounts[ColorKey(q)] + 1], keys, prefix + [q])
  {
    var key, extended, ds := ColorKey(q), prefix + [q], Distinct(prefix);
    assert extended[..|prefix|] == prefix;
    assert Distinct(extended) == ds;
    forall m | 0 <= m < |keys|
      ensures colorCounts[key := colorCounts[key] + 1][keys[m]] == Count(extended, ds[m])
    {
      KeyInjective(ds[m], q);
      CountSnoc(prefix, q, ds[m]);
    }
  }

  /** Counting a new colour appends its key with count 1. */
  lemma CountsAgreeNew(colorCounts: map<string, nat>, keys: seq<string>, prefix: seq<Color>, q: Color)
    requires CountsAgree(colorCounts, keys, prefix) && q !in prefix
    ensures CountsAgree(colorCounts[ColorKey(q) := 1], keys + [ColorKey(q)], prefix + [q])
  {
    var key, extended, ds := ColorKey(q), prefix + [q], Distinct(prefix);
    assert extended[..|prefix|] == prefix;
    assert Distinct(extended) == ds + [q];
    assert KeysOf(ds + [q]) == keys + [key];
    DistinctMembers(prefix);
    forall m | 0 <= m < |keys| + 1
      ensures colorCounts[key := 1][(keys + [key])[m]] == Count(extended, (ds + [q])[m])
    {
      CountSnoc(prefix, q, (ds + [q])[m]);
      if m < |keys| {
        assert ds[m] in prefix;
        KeyInjective(ds[m], q);
      }
    }
  }

  lemma CountsAgreeEntries(colorCounts: map<string, nat>, keys: seq<string>, qs: seq<Color>)
    requires CountsAgree(colorCounts, keys, qs)
    ensures |keys| == |Distinct(qs)|
    ensures forall m :: 0 <= m < |keys| ==>
      keys[m] == ColorKey(Distinct(qs)[m]) && keys[m] in colorCounts && colorCounts[keys[m]] == Count(qs, Distinct(qs)[m])
  {
  }

  /** `findMostFrequentColor`: counts the quantised samples in a dictionary
      keyed by `ColorKey`, then keeps the first entry, in insertion order, with
      a count above every earlier one. */
  method FindMostFrequentColor(samples: seq<Color>) returns (result: Color)
    ensures result == MostFrequent(samples)
  {
    ghost var qs := QuantizeAll(samples);
    var colorCounts: map<string, nat> := map[];
    var keys: seq<string> := [];  // the keys of colorCounts in insertion order
    for i := 0 to |samples|
      invariant CountsAgree(colorCounts, keys, qs[..i])
    {
      var quantized := ColorKey(Quantize(samples[i]));
      assert qs[..i + 1] == qs[..i] + [qs[i]];
      KeyPresent(colorCounts, keys, qs[..i], qs[i]);
      var previous := if quantized in colorCounts then colorCounts[quantized] else 0;
      if quantized in colorCounts {
        CountsAgreeSeen(colorCounts, keys, qs[..i], qs[i]);
      } else {
        CountsAgreeNew(colorCounts, keys, qs[..i], qs[i]);
        keys := keys + [quantized];
      }
      colorCounts := colorCounts[quantized := previous + 1];
    }
    assert qs[..|samples|] == qs;
    ghost var ds := Distinct(qs);
    CountsAgreeEntries(colorCounts, keys, qs);

    var maxCount := 0;
    var mostFrequent: Option<Color> := None;
    for j := 0 to |keys|
      invariant Leader(mostFrequent, maxCount) == Scan(ds[..j], qs)
    {
      var count := colorCounts[keys[j]];
      ScanStep(ds, qs, j);
      if count > maxCount {
        maxCount := count;
        KeyRoundTrip(ds[j]);
        mostFrequent := ParseKey(keys[j]);
      }
    }
    assert ds[..|keys|] == ds;
    result := if mostFrequent.Some? then mostFrequent.value else White;
  }

  /** `detectBackgroundColor`: the most frequent colour of the four corner blocks. */
  method DetectBackgroundColor(data: array<Byte>, width: nat, height: nat) returns (background: Color)
    requires IsImage(data[..], width, height)
    ensures background == MostFrequent(CornerSamples(data[..], width, height))
  {
    ghost var d := data[..];
    var sampleSize := Min(20, Min(width, height) / 10);
    var corners := [Point(0, 0), Point(width - sampleSize, 0), Point(0, height - sampleSize),
      Point(width - sampleSize, height - sampleSize)];
    assert corners == Corners(width, height);
    var cornerSamples: seq<Color> := [];
    for c := 0 to 4
      invariant cornerSamples == CornersUpTo(d, width, height, c)
    {
      var corner := corners[c];
      for dy := 0 to sampleSize
        invariant cornerSamples == CornersUpTo(d, width, height, c) + BlockRows(d, width, height, corner, sampleSize, dy)
      {
        ghost var row := BlockRow(d, width, height, corner, sampleSize, dy);
        for dx := 0 to sampleSize
          invariant cornerSamples == CornersUpTo(d, width, height, c) + BlockRows(d, width, height, corner, sampleSize, dy) + row[..dx]
        {
          var x := corner.x + dx;
          var y := corner.y + dy;
          var index := PixelIndex(width, height, x, y);
          assert row[dx] == PixelAt(d, width, height, x, y);
          assert row[dx] == Color(data[index], data[index + 1], data[index + 2]);
          assert row[..dx + 1] == row[..dx] + [row[dx]];
          cornerSamples := cornerSamples + [Color(data[index], data[index + 1], data[index + 2])];
        }
        assert row[..sampleSize] == row;
      }
    }
    background := FindMostFrequentColor(cornerSamples);
  }
}
