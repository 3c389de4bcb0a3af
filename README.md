# Background removal and batch conversion for RPG Maker MZ, in Dafny

This project models the two plugins that make up the logic of the image tools.

`ImageAlphaProcessor` turns the background of a JPEG into transparency. It does this in several steps:

- It takes the background colour from the options or detects it. Detection samples the four corners, rounds each channel of each sample down to a multiple of 8, and takes the most frequent colour, with white as the fallback.
- It classifies every pixel against that background by its CIE L\*a\*b\* Delta E.
- It can smooth the colour bytes with a bilateral filter.
- It feathers the alpha of edge pixels.
- Last, it writes the alpha bytes from the classification.

Around that pipeline sit the loader functions:

- `loadJpegPseudoAlphaChannel` reads its options, puts `./` in front of relative paths, and refuses a zero-sized image.
- The preset wrappers build options objects.

`ImageBatchProcessor` runs every JPEG of a folder through the loader its preset selects. It keeps its progress in the module-level record `batchState`.

Files, one module each:

- `wrappers.dfy`: `Option` and `Result`.
- `strings.dfy`: the JavaScript string operations the plugins use (`split`, `join`, `replace`, decimal rendering).
- `color.dfy`: bytes, colours, quantisation, the dictionary key of a colour, and the Lab background test.
- `background.dfy`: corner sampling and the most frequent colour. The two loops are methods proved against specification functions.
- `raster.dfy`: the classification loop, the bilateral copy-back, `applySmoothEdges`, the final alpha write and the whole `processBackgroundToTransparent`. All of these are methods on `array`s, proved against functions on sequences.
- `paths.dfy`: `normalizeImagePath` and the load-path prefix.
- `hexcolor.dfy`: `parseInt(_, 16)` and the reading of `#rrggbb` codes.
- `options.dfy`: the option objects of every loader and how they resolve.
- `loading.dfy`: `loadJpegPseudoAlphaChannel` once the image is decoded.
- `batch.dfy`: the batch configuration, `processFile`, the output name, and the class holding `batchState` with `convertAll`, `resetBatchState` and `getBatchState`.

Values that the source computes in floating point are function-typed parameters, so every property holds for any implementation of them:

- `rgbToLab` is `toLab: Color -> Lab`.
- The Gaussian-weighted average of the bilateral filter is `weightedMean`.
- The Gaussian alpha average of `applySmoothEdges` is `featherMean`.

The test `deltaE < threshold` is decided on squares. `Colors.SqrtComparison` shows that this agrees with the square root.

The model follows the code where it differs from what its comments and documentation suggest:

- **Alpha ends up binary.** `applySmoothEdges` writes feathered alpha bytes, but the final step rewrites every alpha byte from the untouched `alphaMap`. So every output alpha is 0 or 255 (`Raster.FeatheringOverwritten`, `Raster.CompositeAlphaIsBinary`).
- **`loadJpegSimpleTransparent` uses threshold 235.** It is assigned twice. The later assignment, with threshold 235, is the one that takes effect.
- **A falsy threshold does not get the colour's own default.** The colour wrappers spread the caller's options over their defaults. An own property `threshold: 0` therefore ends up as 15, not as the colour's entry in the table (`LoaderOptions.RedZeroThreshold`).
- **No feather radius is 0.** `featherRadius || 1` turns a radius of 0 into 1. So the feathering step runs even for the presets that pass 0.
- **`#fff` does not mean white.** The three-digit shorthand is read as red 255, green 15 and a NaN blue.

## Model

| member | source | states |
|---|---|---|
| Colors.QuantizeChannel | js/plugins/ImageAlphaProcessor.js:493-495 | `floor(c/8)*8` is the multiple of 8 just at or below the channel, at most 248 |
| Colors.Quantize | js/plugins/ImageAlphaProcessor.js:493-495 | each channel of the quantised colour is a multiple of 8 within 8 below the original |
| Colors.QuantizeIsProjection | js/plugins/ImageAlphaProcessor.js:493-495 | a quantised colour has channels that are multiples of 8 in [0, 248], and quantising it again changes nothing |
| Colors.KeyRoundTrip | js/plugins/ImageAlphaProcessor.js:493-506 | splitting the key `${r}-${g}-${b}` on `-` and reading the numbers gives back the colour |
| Colors.KeyInjective | js/plugins/ImageAlphaProcessor.js:493-497 | two colours share a key exactly when they are equal, so counting keys counts colours |
| Colors.ColorKey | js/plugins/ImageAlphaProcessor.js:493-496 | definition of the key `${r}-${g}-${b}`; its read-back is KeyRoundTrip and its injectivity KeyInjective |
| Colors.IsPixelBackgroundLab | js/plugins/ImageAlphaProcessor.js:532-546 | definition of the background test on the Delta E of `toLab` images; its meaning is SqrtComparison, its symmetry BackgroundTestSymmetric and its threshold cases BackgroundTestThreshold |
| Colors.SqrtComparison | js/plugins/ImageAlphaProcessor.js:538-545 | for the non-negative root of the squared distance, `deltaE < threshold` holds exactly when the threshold is positive and the squared distance is below its square; the squared differences (`Square`) are never negative, so the root exists |
| Colors.BackgroundTestSymmetric | js/plugins/ImageAlphaProcessor.js:532-546 | the background test gives the same answer with pixel and background swapped |
| Colors.BackgroundTestThreshold | js/plugins/ImageAlphaProcessor.js:532-546 | a colour has distance 0 from itself, so it matches itself for every positive threshold; nothing matches when the threshold is not positive |
| Strings.Split | js/plugins/ImageAlphaProcessor.js:665 | `split` on one character yields at least one piece and no piece holds the separator |
| Strings.JoinSplit | js/plugins/ImageAlphaProcessor.js:665-667 | joining the pieces of a split with the same separator gives back the string |
| Strings.SplitPieces | js/plugins/ImageAlphaProcessor.js:673 | a string without the separator splits into itself; one with it into at least two pieces |
| Strings.SplitAtFirst | js/plugins/ImageAlphaProcessor.js:673 | the piece before the first separator comes first, followed by the split of the rest |
| Strings.JoinLast | js/plugins/ImageAlphaProcessor.js:666-667 | the join of all pieces is the join of all but the popped last, the separator and the last piece |
| Strings.ReplaceAll | js/plugins/ImageAlphaProcessor.js:672 | `replace(/\\/g, "/")` keeps the length, leaves no backslash, puts a `/` in wherever there was a backslash, and leaves a path without backslashes unchanged |
| Strings.DigitChar | js/plugins/ImageAlphaProcessor.js:493-495 | a digit below 10 is rendered as the decimal character of that value |
| Strings.NatToString | js/plugins/ImageAlphaProcessor.js:493-495 | the template-literal rendering of a number is a non-empty string of decimal digits |
| Strings.DecimalRoundTrip | js/plugins/ImageAlphaProcessor.js:506 | `Number` of the rendering of a number is the number |
| Background.PixelIndexInRange | js/plugins/ImageAlphaProcessor.js:466-473 | every index read for a pixel inside the image lies in [0, w*h*4) |
| Background.PixelCoordinates | js/plugins/ImageAlphaProcessor.js:466-468 | pixel number `y * width + x` lies in the image and gives back x and y |
| Background.PixelIndex | js/plugins/ImageAlphaProcessor.js:468 | the start of a pixel is a multiple of 4 whose three colour bytes are in the buffer |
| Background.SampleSize | js/plugins/ImageAlphaProcessor.js:453 | the block size is at most 20 and one tenth of each side; 20 from 200 pixels up and 0 below 10 |
| Background.Corners | js/plugins/ImageAlphaProcessor.js:456-461 | four corners whose blocks fit inside the image |
| Background.BlockRow | js/plugins/ImageAlphaProcessor.js:465-474 | one row of a block has one sample per column; which pixel each sample is comes from BlockRowsAt |
| Background.BlockRowsLength | js/plugins/ImageAlphaProcessor.js:464-476 | n rows of an s-wide block hold n*s samples |
| Background.BlockRowsAt | js/plugins/ImageAlphaProcessor.js:464-476 | sample `dy*s + dx` of a block is the colour of pixel (corner.x+dx, corner.y+dy) |
| Background.CornersUpToLength | js/plugins/ImageAlphaProcessor.js:463-477 | n corners give n*s² samples |
| Background.CornerSamplesLayout | js/plugins/ImageAlphaProcessor.js:451-477 | the samples are the four blocks in the order top-left, top-right, bottom-left, bottom-right, each row by row, 4*s² in all |
| Background.CornerSamples | js/plugins/ImageAlphaProcessor.js:451-477 | definition of the samples the corner loops collect; their layout is CornerSamplesLayout and their origin SampleIsPixel |
| Background.SmallImageHasNoSamples | js/plugins/ImageAlphaProcessor.js:453-477 | an image with a side below 10 pixels yields no samples |
| Background.QuantizeAll | js/plugins/ImageAlphaProcessor.js:491-497 | one quantised colour per sample, in order, each with channels that are multiples of 8 in [0, 248]; quantising again is QuantizeAllIdempotent |
| Background.QuantizeAllIdempotent | js/plugins/ImageAlphaProcessor.js:491-497 | quantising the quantised samples again changes nothing |
| Background.ScanStep | js/plugins/ImageAlphaProcessor.js:503-509 | one step of the second loop replaces the leader exactly when the new count is strictly greater |
| Background.DistinctMembers | js/plugins/ImageAlphaProcessor.js:496-497 | the dictionary's keys are exactly the colours seen |
| Background.DistinctNoDuplicates | js/plugins/ImageAlphaProcessor.js:496-497 | no colour gets two entries |
| Background.DistinctPrefix | js/plugins/ImageAlphaProcessor.js:491-497 | keys inserted while counting a prefix come first, in insertion order |
| Background.FirstIndex | js/plugins/ImageAlphaProcessor.js:491-497 | the first position of a sampled colour holds it and none before it does |
| Background.ScanLeader | js/plugins/ImageAlphaProcessor.js:500-509 | the scan keeps the largest count seen, and the first entry that reached it; no leader means count 0 |
| Background.MostFrequent | js/plugins/ImageAlphaProcessor.js:488-512 | definition of `findMostFrequentColor`; it is characterised by MostFrequentCharacterized and computed by FindMostFrequentColor |
| Background.MostFrequentIsFirstMode | js/plugins/ImageAlphaProcessor.js:488-512 | with samples, the result occurs at least as often as any colour, and every colour seen before its first occurrence occurs strictly less often |
| Background.FirstModeUnique | js/plugins/ImageAlphaProcessor.js:503-509 | the strict `>` tie-break singles out one colour |
| Background.MostFrequentCharacterized | js/plugins/ImageAlphaProcessor.js:488-512 | the result is r exactly when there are no samples and r is white, or r is the first mode of the quantised samples |
| Background.MostFrequentIsSampled | js/plugins/ImageAlphaProcessor.js:488-512 | the result is quantised and is the quantisation of some sample |
| Background.DetectUniform | js/plugins/ImageAlphaProcessor.js:451-481 | a one-colour image is detected as the quantisation of its colour, or as white when a side is below 10 |
| Background.SampleIsPixel | js/plugins/ImageAlphaProcessor.js:463-477 | every sample is the colour of some pixel of the image |
| Background.BlockSampleIsPixel | js/plugins/ImageAlphaProcessor.js:464-476 | every sample of a block is the colour of some pixel |
| Background.KeysOf | js/plugins/ImageAlphaProcessor.js:493-497 | definition: the key of each colour, in order; that two positions share a key exactly when they share a colour is KeysOfInjective |
| Background.KeysOfInjective | js/plugins/ImageAlphaProcessor.js:493-497 | two positions have the same key exactly when they hold the same colour |
| Background.KeyOfMember | js/plugins/ImageAlphaProcessor.js:493-497 | a colour's key is among the keys exactly when the colour is among the colours |
| Background.CountSnoc | js/plugins/ImageAlphaProcessor.js:497 | counting one more sample adds one to its own colour and nothing to others |
| Background.KeyPresent | js/plugins/ImageAlphaProcessor.js:497 | `colorCounts[key]` exists exactly when the colour was counted before |
| Background.CountsAgreeSeen | js/plugins/ImageAlphaProcessor.js:497 | counting a colour seen before adds one to its entry and keeps the key order |
| Background.CountsAgreeNew | js/plugins/ImageAlphaProcessor.js:497 | counting a new colour appends its key with count 1 |
| Background.CountsAgreeEntries | js/plugins/ImageAlphaProcessor.js:500-502 | `Object.entries` lists one entry per distinct colour, in first-seen order, with its count |
| Background.FindMostFrequentColor | js/plugins/ImageAlphaProcessor.js:488-512 | the dictionary loop and the argmax loop return exactly `MostFrequent(samples)` |
| Background.DetectBackgroundColor | js/plugins/ImageAlphaProcessor.js:451-481 | the nested corner loops collect exactly `CornerSamples` and return their most frequent colour |
| Raster.Clamp | js/plugins/ImageAlphaProcessor.js:1040-1042 | `max(0, min(255, v))` lies in [0, 255] and keeps a value already inside |
| Raster.AlphaByte | js/plugins/ImageAlphaProcessor.js:1040-1042 | the stored alpha byte is 0 for alpha at most 0, 255 from 1 up, and the rounded `a*255` between |
| Raster.Classification | js/plugins/ImageAlphaProcessor.js:818-875 | one entry per pixel; what each entry means is ClassificationMeaning |
| Raster.TransparentCount | js/plugins/ImageAlphaProcessor.js:867-874 | at most n of the first n pixels are counted transparent; the counts at the extremes are TransparentCountExtremes |
| Raster.ClassificationMeaning | js/plugins/ImageAlphaProcessor.js:835-874 | every entry is 0 or 1, and 0 exactly when `deltaE < threshold` |
| Raster.ClassificationThreshold | js/plugins/ImageAlphaProcessor.js:835-874 | a pixel of exactly the background colour is transparent for every positive threshold; nothing is for a threshold that is not positive |
| Raster.TransparentCountExtremes | js/plugins/ImageAlphaProcessor.js:867-874 | all background pixels count n, none count 0 |
| Raster.ClassifyPixels | js/plugins/ImageAlphaProcessor.js:818-875 | the loop fills the alpha map with the classification and its counters add up to w*h |
| Raster.Bilateral | js/plugins/ImageAlphaProcessor.js:588-649 | the filtered buffer keeps the length and every alpha byte |
| Raster.BilateralUpToStep | js/plugins/ImageAlphaProcessor.js:591-640 | filtering one more pixel writes its three colour bytes from the unfiltered input |
| Raster.BilateralComplete | js/plugins/ImageAlphaProcessor.js:591-642 | the two nested loops visit every pixel once |
| Raster.FilterPixel | js/plugins/ImageAlphaProcessor.js:593-640 | one pixel's body writes its three colour bytes of `output` and nothing else |
| Raster.FilterPixels | js/plugins/ImageAlphaProcessor.js:588-642 | the nested loops leave `output` equal to the filtered buffer |
| Raster.ApplyBilateralFilter | js/plugins/ImageAlphaProcessor.js:582-650 | after the copy-back, the image holds the filtered colours and its own alpha |
| Raster.HasEdge | js/plugins/ImageAlphaProcessor.js:1014-1029 | the search with its two `break`s answers exactly whether some in-image 3x3 neighbour differs by more than 0.5 |
| Raster.SmoothEdgesUpTo | js/plugins/ImageAlphaProcessor.js:990-1044 | feathering changes only alpha bytes |
| Raster.SmoothEdgesUpToStep | js/plugins/ImageAlphaProcessor.js:1011-1042 | one pixel writes its alpha byte: the smoothed value at an edge or in between, the original value elsewhere |
| Raster.FinalAlpha | js/plugins/ImageAlphaProcessor.js:1011-1036 | the gate settles on the specified feathered alpha |
| Raster.ApplySmoothEdges | js/plugins/ImageAlphaProcessor.js:972-1045 | the loops leave the buffer equal to `SmoothEdges` of the old one; `alphaMap` is left alone |
| Raster.SmoothEdges | js/plugins/ImageAlphaProcessor.js:972-1045 | definition of `applySmoothEdges` on a buffer; it changes only alpha bytes (SmoothEdgesUpTo) and is computed by ApplySmoothEdges |
| Raster.WithAlpha | js/plugins/ImageAlphaProcessor.js:914-918 | the final step keeps every colour byte |
| Raster.FeatheringOverwritten | js/plugins/ImageAlphaProcessor.js:909-918 | feathering followed by the final step is the final step alone |
| Raster.CompositeAlphaIsBinary | js/plugins/ImageAlphaProcessor.js:794-918 | every output alpha byte is 0 or 255, and 0 exactly for the background pixels |
| Raster.CompositeColours | js/plugins/ImageAlphaProcessor.js:893-907 | output colour bytes are the filtered ones when smoothing and the input's otherwise |
| Raster.ColoursFrom | js/plugins/ImageAlphaProcessor.js:902-906 | the copy-back keeps the length; which bytes it takes from where is CopyColours |
| Raster.CopyPixelColours | js/plugins/ImageAlphaProcessor.js:903-905 | one pixel's three colour bytes are copied and nothing else changes |
| Raster.CopyColoursStep | js/plugins/ImageAlphaProcessor.js:902-906 | copying pixel p extends the copied prefix by one pixel |
| Raster.CopyColours | js/plugins/ImageAlphaProcessor.js:902-906 | the copy-back loop takes every colour byte from the copy and keeps every alpha byte |
| Raster.BilateralColoursOnly | js/plugins/ImageAlphaProcessor.js:893-907 | because the filter changes only colour bytes, copying them back gives the filtered buffer |
| Raster.SmoothColours | js/plugins/ImageAlphaProcessor.js:893-907 | filtering a copy and copying its colours back leaves the filtered buffer |
| Raster.WriteAlpha | js/plugins/ImageAlphaProcessor.js:914-918 | the final loop writes `round(alphaMap[p]*255)` into every alpha byte |
| Raster.ProcessBackgroundToTransparent | js/plugins/ImageAlphaProcessor.js:794-925 | the buffer ends as `Composite` of the old buffer with the given or detected background |
| Raster.Composite | js/plugins/ImageAlphaProcessor.js:794-925 | definition of the whole pipeline; its alpha is CompositeAlphaIsBinary, its colours CompositeColours, and ProcessBackgroundToTransparent computes it |
| Paths.SplitAtLastSlash | js/plugins/ImageAlphaProcessor.js:665-667 | `pop` then `join` gives a folder that, followed by the file name, is the path; the file name has no `/` |
| Paths.NormalizeImagePath | js/plugins/ImageAlphaProcessor.js:657-678 | definition of `normalizeImagePath`; its three branches are stated by NormalizeImagePathParts |
| Paths.ReplaceKeepsSeparator | js/plugins/ImageAlphaProcessor.js:672 | a path with a `/` or `\` has a `/` once backslashes are replaced |
| Paths.NormalizeImagePathParts | js/plugins/ImageAlphaProcessor.js:657-678 | a bare name is a file in the root; otherwise the folder ends in `/`, the file name has no `/`, and together they are the path, with `\` made `/` unless it starts with `img/` |
| Paths.FullImagePathShape | js/plugins/ImageAlphaProcessor.js:767-777 | the path stays its suffix; remote or `./` paths are unchanged, and the rest get exactly `./` in front |
| Paths.FullImagePathIdempotent | js/plugins/ImageAlphaProcessor.js:767-777 | prefixing twice is prefixing once |
| Paths.FullImagePath | js/plugins/ImageAlphaProcessor.js:767-777 | definition of the load-path prefix; stated by FullImagePathShape and FullImagePathIdempotent |
| HexColor.TrimStart | js/plugins/ImageAlphaProcessor.js:340-342 | `parseInt` skips a suffix's leading white space and stops at a character that is not |
| HexColor.HexPrefix | js/plugins/ImageAlphaProcessor.js:340-342 | the longest prefix of hexadecimal digits |
| HexColor.Digit | js/plugins/ImageAlphaProcessor.js:340-342 | a digit is worth below 16, the value of a hexadecimal digit |
| HexColor.ParseIntHex | js/plugins/ImageAlphaProcessor.js:340-342 | definition of `parseInt(s, 16)` (None for NaN); its range is UnsignedRange and ChannelRange, its value on digits PlainHex |
| HexColor.RemoveFirstHash | js/plugins/ImageAlphaProcessor.js:339 | a code without `#` is unchanged |
| HexColor.ParseHexColor | js/plugins/ImageAlphaProcessor.js:339-342 | definition of the three channel reads; their range is ParseHexColorRange, their inverse HexRoundTrip |
| HexColor.HexTarget | js/plugins/ImageAlphaProcessor.js:333-345 | definition of the colour selected by a code; stated by HexRoundTrip, HashOptional and ShorthandNotSupported |
| HexColor.Substr | js/plugins/ImageAlphaProcessor.js:340-342 | `substr` yields at most `length` characters |
| HexColor.HexValueBound | js/plugins/ImageAlphaProcessor.js:340-342 | n digits are worth less than 16ⁿ, where `Pow16(n)` is 16ⁿ and at least 1 |
| HexColor.ChannelRange | js/plugins/ImageAlphaProcessor.js:340-342 | two characters read as NaN or a value in [-15, 255] |
| HexColor.UnsignedRange | js/plugins/ImageAlphaProcessor.js:340-342 | n characters read without a sign give a value below 16ⁿ |
| HexColor.Pow16Monotone | js/plugins/ImageAlphaProcessor.js:340-342 | more digits allow larger values |
| HexColor.ParseHexColorRange | js/plugins/ImageAlphaProcessor.js:339-342 | every channel of a code is NaN or in [-15, 255] |
| HexColor.HexDigitChar | js/plugins/ImageAlphaProcessor.js:340-342 | the digit character of a value reads back as the value |
| HexColor.ByteToHex | js/plugins/ImageAlphaProcessor.js:340-342 | a byte has two hexadecimal digits |
| HexColor.ColorToHex | js/plugins/ImageAlphaProcessor.js:333-345 | the code of a colour is `#` and six digits |
| HexColor.HexPrefixOfDigits | js/plugins/ImageAlphaProcessor.js:340-342 | a string of digits is its own digit prefix |
| HexColor.DigitIsNotSpaceOrSign | js/plugins/ImageAlphaProcessor.js:340-342 | a digit is neither white space nor a sign |
| HexColor.ReadFromStart | js/plugins/ImageAlphaProcessor.js:340-342 | a string starting with neither space nor sign is read from its first character |
| HexColor.ReadDigits | js/plugins/ImageAlphaProcessor.js:340-342 | a run of digits that does not start with `0x` reads as its value |
| HexColor.PlainHex | js/plugins/ImageAlphaProcessor.js:340-342 | `parseInt(s, 16)` of hexadecimal digits not starting with `0x` is their value |
| HexColor.HexValuePair | js/plugins/ImageAlphaProcessor.js:340-342 | two digits are worth 16 times the first plus the second |
| HexColor.ByteDigits | js/plugins/ImageAlphaProcessor.js:340-342 | the two digits of a byte are worth the byte |
| HexColor.ByteRoundTrip | js/plugins/ImageAlphaProcessor.js:340-342 | the two digits of a byte read back as the byte |
| HexColor.HexRoundTrip | js/plugins/ImageAlphaProcessor.js:333-345 | reading `#rrggbb` of a colour gives its three channels and selects that colour |
| HexColor.HashOptional | js/plugins/ImageAlphaProcessor.js:339 | a code reads the same with or without its `#` |
| HexColor.ShorthandNotSupported | js/plugins/ImageAlphaProcessor.js:339-342 | `#fff` reads as 255, 15 and NaN and selects no colour |
| LoaderOptions.OrNumber | js/plugins/ImageAlphaProcessor.js:694-695 | `o.x` or-ed with a default is the default or a given non-zero value |
| LoaderOptions.IfDefined | js/plugins/ImageAlphaProcessor.js:691-693 | definition of `o.x !== undefined ? o.x : d`; what it resolves to for each loader is in CustomColorSettings and ColourPresetSettings |
| LoaderOptions.Over | js/plugins/ImageAlphaProcessor.js:97-114 | definition of one property of a spread; what the spreads resolve to is in CustomColorSettings, ColourPresetSettings and RedZeroThreshold |
| LoaderOptions.Spread | js/plugins/ImageAlphaProcessor.js:97-114 | definition of `{...base, ...over}` on the modelled properties; stated through ColourPresetSettings and RedZeroThreshold |
| LoaderOptions.Resolve | js/plugins/ImageAlphaProcessor.js:690-695 | definition of how `loadJpegPseudoAlphaChannel` reads its options; stated by PseudoFeatherTaken and the per-loader settings lemmas |
| LoaderOptions.PseudoFeatherTaken | js/plugins/ImageAlphaProcessor.js:694 | the radius reaching the pipeline is never 0, and positive unless a negative one was given |
| LoaderOptions.FixedPresetOptions | js/plugins/ImageAlphaProcessor.js:1052-1102 | definition of the literal each fixed preset passes; stated by FixedPresetSettings |
| LoaderOptions.CustomColorOptions | js/plugins/ImageAlphaProcessor.js:293-305 | definition of `loadJpegCustomColorTransparent`; stated by CustomColorSettings |
| LoaderOptions.RGBColorOptions | js/plugins/ImageAlphaProcessor.js:316-324 | definition of `loadJpegRGBColorTransparent`; stated by HexColorAgreesWithRGB |
| LoaderOptions.HexColorOptions | js/plugins/ImageAlphaProcessor.js:333-345 | definition of `loadJpegHexColorTransparent`; stated by HexColorAgreesWithRGB |
| LoaderOptions.ColourPresetOptions | js/plugins/ImageAlphaProcessor.js:97-271 | definition of the nine colour wrappers; stated by ColourPresetSettings, ColourPresetDefaults and RedZeroThreshold |
| LoaderOptions.FixedPresetSettings | js/plugins/ImageAlphaProcessor.js:1052-1102 | a fixed preset ignores the plugin parameters, always feathers, detects its background, waits 10000 ms, and the radius-0 presets feather with 1 |
| LoaderOptions.CustomColorSettings | js/plugins/ImageAlphaProcessor.js:293-305 | the custom colour always wins over `options.targetColor`; a falsy threshold becomes 15 and a falsy radius 1.5 |
| LoaderOptions.HexColorAgreesWithRGB | js/plugins/ImageAlphaProcessor.js:316-345 | the code of a colour gives the same options as naming the colour in RGB |
| LoaderOptions.ColourPresetSettings | js/plugins/ImageAlphaProcessor.js:97-271 | each colour wrapper removes its colour; a given non-zero value is kept, a missing one takes the table entry, and an own falsy one becomes 15 or 1.5 |
| LoaderOptions.ColourPresetDefaults | js/plugins/ImageAlphaProcessor.js:97-271 | with no options, a colour wrapper uses exactly its threshold, radius and colour |
| LoaderOptions.RedZeroThreshold | js/plugins/ImageAlphaProcessor.js:97-114 | the red wrapper turns a threshold of 0 into 15, not its own 12 |
| LoaderOptions.TargetColorOfLoader | js/plugins/ImageAlphaProcessor.js:52-345 | which colour each public loader removes; only the plain loader and the fixed presets detect it |
| Loading.LoadJpegPseudoAlphaChannel | js/plugins/ImageAlphaProcessor.js:690-781 | loads from the prefixed path, rejects exactly a zero-sized image leaving it unchanged, and otherwise processes it with the resolved settings |
| Batch.OrString | js/plugins/ImageBatchProcessor.js:188-189 | a string or-ed with a default is the default or a non-empty value |
| Batch.OrParsed | js/plugins/ImageBatchProcessor.js:190-195 | a parsed number or-ed with a default is the default or a non-zero number |
| Batch.ParametersTruthy | js/plugins/ImageBatchProcessor.js:188-195 | the defaults are never 0 or empty, whatever the parameters hold |
| Batch.ParametersOf | js/plugins/ImageBatchProcessor.js:188-195 | definition of the parsed plugin parameters; stated by ParametersTruthy |
| Batch.MakeConfig | js/plugins/ImageBatchProcessor.js:224-231 | definition of `config`; stated by ConfigFields |
| Batch.ConfigFields | js/plugins/ImageBatchProcessor.js:224-231 | every config field is the truthy option or the plugin default, the preset defaults to `auto`, and threshold and radius are not 0 when the defaults are not |
| Batch.ProcessOptions | js/plugins/ImageBatchProcessor.js:352-356 | definition of `processOptions`; the settings it yields for every preset are in DispatchSettings |
| Batch.SelectLoader | js/plugins/ImageBatchProcessor.js:358-390 | definition of the preset `switch`; stated by SelectLoaderOfPreset and SelectLoaderOfOtherName |
| Batch.SelectLoaderOfPreset | js/plugins/ImageBatchProcessor.js:358-385 | each colour's name selects its wrapper |
| Batch.SelectLoaderOfOtherName | js/plugins/ImageBatchProcessor.js:358-390 | exactly the names of no colour preset, `auto` among them, select the plain loader |
| Batch.DispatchSettings | js/plugins/ImageBatchProcessor.js:352-396 | the selected loader runs with the config's threshold, smooth flag and radius; a colour preset fixes its own colour as the target, and `auto` and every other name detect it |
| Batch.OutputFileNameShape | js/plugins/ImageBatchProcessor.js:348 | a `.jpg` or `.jpeg` name in any case loses exactly that 4- or 5-character extension, keeps everything before it, and gets `.png` in its place; any other name is kept; renaming twice is renaming once |
| Batch.OutputFileName | js/plugins/ImageBatchProcessor.js:348 | definition of `outputFileName`; stated by OutputFileNameShape |
| Batch.InputPath | js/plugins/ImageBatchProcessor.js:347 | definition of `inputPath`; the record that carries it and the loader that receives it are in FileOutcomeRecord |
| Batch.FileOutcomeRecord | js/plugins/ImageBatchProcessor.js:346-411 | a record names its file; a success carries its input path, output name, preset and options, and a failure its error |
| Batch.FileOutcome | js/plugins/ImageBatchProcessor.js:346-411 | definition of `processFile` with the `catch` around it; stated by FileOutcomeRecord and ResultsFollowFiles |
| Batch.Slice | js/plugins/ImageBatchProcessor.js:254 | `slice(0, n)` is a prefix of the list |
| Batch.SliceTruncates | js/plugins/ImageBatchProcessor.js:254 | for a non-negative limit, the first min(n, maxFiles) files, all of them when few enough; a negative limit counts from the back |
| Batch.ResultsUpTo | js/plugins/ImageBatchProcessor.js:265-295 | one record per attempted file; the contents of record i are ResultsFollowFiles |
| Batch.ResultsUpToStep | js/plugins/ImageBatchProcessor.js:266-295 | each iteration appends the record of its own file |
| Batch.Filter | js/plugins/ImageBatchProcessor.js:301-311 | a filter keeps only records with the wanted `success` and is no longer than its input |
| Batch.FilterSnoc | js/plugins/ImageBatchProcessor.js:279-292 | pushing a record extends exactly the filter it belongs to |
| Batch.IndicesWhere | js/plugins/ImageBatchProcessor.js:310-311 | the indices of the selected records lie within the records; which indices they are is IndicesSelected |
| Batch.FilterIndices | js/plugins/ImageBatchProcessor.js:310-311 | a filter holds exactly the records at the selected indices, in their order |
| Batch.IndicesAscending | js/plugins/ImageBatchProcessor.js:310-311 | the selected indices ascend, so file order is kept |
| Batch.IndicesSelected | js/plugins/ImageBatchProcessor.js:310-311 | an index is selected exactly when its record's `success` is the wanted one |
| Batch.PartitionContents | js/plugins/ImageBatchProcessor.js:310-311 | the two filters together hold every record once |
| Batch.PartitionCounts | js/plugins/ImageBatchProcessor.js:301-311 | the filters' lengths add up to the number of records and their contents to the records |
| Batch.NoFailures | js/plugins/ImageBatchProcessor.js:302-308 | no failure exactly when every record is a success |
| Batch.BatchReportPartition | js/plugins/ImageBatchProcessor.js:298-314 | the report's lists are the two filters, its counts their lengths, summing to the file count, and it succeeds exactly when no file failed |
| Batch.BatchReport | js/plugins/ImageBatchProcessor.js:298-314 | definition of the returned report; stated by BatchReportPartition |
| Batch.ResultsFollowFiles | js/plugins/ImageBatchProcessor.js:266-295 | record i names file i and succeeds exactly when its processing raised nothing |
| Batch.ProgressTrace | js/plugins/ImageBatchProcessor.js:266-270 | one snapshot per file started; the fields of each snapshot are ProgressCounters |
| Batch.ProgressTraceStep | js/plugins/ImageBatchProcessor.js:266-270 | each iteration adds the snapshot taken as its file starts |
| Batch.ProgressCounters | js/plugins/ImageBatchProcessor.js:266-299 | at file i, `currentFile` is file i and `processedCount == i < totalFiles`, with i records kept; at the end `processedCount == totalFiles` and processing is over |
| Batch.FinalState | js/plugins/ImageBatchProcessor.js:298-299 | definition of `batchState` after the loop; stated by ProgressCounters and ConvertAll |
| Batch.ImageBatchProcessor.constructor | js/plugins/ImageBatchProcessor.js:198-205 | `batchState` starts as the initial record |
| Batch.ImageBatchProcessor.GetBatchState | js/plugins/ImageBatchProcessor.js:607-609 | the copy has every field of the record |
| Batch.ImageBatchProcessor.ResetBatchState | js/plugins/ImageBatchProcessor.js:592-601 | the record is back to its initial value |
| Batch.ImageBatchProcessor.ProcessFiles | js/plugins/ImageBatchProcessor.js:264-295 | the loop keeps one record per file in order, the successes in `results` and the failures in `errors`, and leaves `currentFile` and `processedCount` at the last file |
| Batch.ImageBatchProcessor.ConvertAll | js/plugins/ImageBatchProcessor.js:216-325 | a missing loader throws with the state untouched; a failing search reports a system error and processing over; no files reports so, still processing; otherwise the partition report, the final state and the per-file progress |

## Left out

- Floating point: `rgbToLab` (js/plugins/ImageAlphaProcessor.js:367-404), the Gaussian weights and rounded weighted averages of the bilateral filter (:603-640), and the Gaussian alpha average of `applySmoothEdges` (:975-1006) are parameters. Their values are not modelled, only where they are read and written. The alpha map holds reals rather than `Float32Array` entries.
- Raster.FilterPixels: the filter's fixed `spatialSigma` 2 and `intensitySigma` 30 are not modelled. Each colour byte is the parameter `weightedMean` applied to the unfiltered buffer, the pixel and the channel.
- `rgbToHsv` and both copies of `isPixelWhiteBackground` are never called on the pipeline's path.
- Image loading, the timeout, `onerror`, the canvas, `ImageData` and `Bitmap`: browser I/O. `Loading.LoadJpegPseudoAlphaChannel` takes the decoded buffer and its size. The path it returns stands for `img.src`.
- Console output, including the debug samples and the transparency rate of `processBackgroundToTransparent`.
- The plugin parameters of `ImageAlphaProcessor` (`whiteThreshold`, `smoothEdges`) are taken as already parsed. The parsing of the batch parameters is modelled on the results of `parseInt`/`parseFloat` (None for NaN).
- Plugin command registration and `$gameMessage` output in both files.
- Option properties other than `threshold`, `smooth`, `featherRadius`, `timeout` and `targetColor` are not modelled. The spread carries them along without the loaders reading them.
- A `targetColor` is modelled as a byte colour. A hex code whose channels are NaN or negative (possible for codes with a sign, such as `#-f0000`, with too few digits, or with a pair that does not start with a hexadecimal digit, such as `#zz0000`) gives no target colour. The source would pass such an object on.
- `findJpegFiles` and its two strategies (js/plugins/ImageBatchProcessor.js:418-551): the file list, or the error raised while finding it, is an input of `ConvertAll`.
- Whether processing a file raises, and with what message, is the input `failure`: one optional error per file.
- `saveBitmapAsPng` and `autoDownload`: a download through the DOM. A failed download counts as a failure of that file through `failure`.
- `sleep(100)` between files, `await` and concurrency in general: the model is sequential.
- `convertWithPreset` only calls `convertAll` with a preset option, and is not modelled separately.
- Batch.ImageBatchProcessor.GetBatchState: returns a value snapshot, so it does not model the aliasing of the source's shallow copy, whose `errors` and `results` arrays are shared with `batchState`.
- Batch.ImageBatchProcessor.ConvertAll: only an error from finding the files reaches the outer `catch`. The source's other fatal errors out of its setup (none are possible in the modelled code) are not modelled.
