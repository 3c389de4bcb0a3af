/** The option objects of the loaders: how every preset wrapper builds the
    object it hands to `loadJpegPseudoAlphaChannel`, and how that function
    reads it. JavaScript objects are modelled field by field, so that `||`
    (which treats 0 as missing), `!== undefined` and the object spread
    `{...a, ...b}` (where an own property holding `undefined` still overrides)
    can be told apart. */
module LoaderOptions {
  import opened Wrappers
  import opened Colors
  import opened HexColor

  /** One property of an options object: not an own property, an own property
      holding `undefined`, or a value. */
  datatype Field<T> = Absent | Undefined | Given(value: T)

  /** `o.x || d` for a number: the value unless it is missing or 0. */
  function OrNumber(f: Field<real>, d: real): (r: real)
    ensures r == d || (f.Given? && r == f.value && r != 0.0)
  {
    if f.Given? && f.value != 0.0 then f.value else d
  }

  /** `o.x !== undefined ? o.x : d`. */
  function IfDefined<T>(f: Field<T>, d: T): T {
    if f.Given? then f.value else d
  }

  /** The property after `{...base, ...over}`: `over`'s own property wins, even
      when it holds `undefined`. */
  function Over<T>(base: Field<T>, over: Field<T>): Field<T> {
    if over.Absent? then base else over
  }

  /** The properties the loaders read; every other property is carried along
      by the spreads and never read. */
  datatype Options = Options(threshold: Field<real>, smooth: Field<bool>, featherRadius: Field<real>,
                             timeout: Field<real>, targetColor: Field<Color>)

  /** `{}`, the default options argument. */
  const NoOptions: Options := Options(Absent, Absent, Absent, Absent, Absent)

  /** `{...base, ...over}`. */
  function Spread(base: Options, over: Options): Options {
    Options(Over(base.threshold, over.threshold), Over(base.smooth, over.smooth),
            Over(base.featherRadius, over.featherRadius), Over(base.timeout, over.timeout),
            Over(base.targetColor, over.targetColor))
  }

  /** The object literal `{ threshold, smooth, featherRadius }`. */
  function Literal(threshold: real, smooth: bool, featherRadius: real): Options {
    Options(Given(threshold), Given(smooth), Given(featherRadius), Absent, Absent)
  }

  /** What `loadJpegPseudoAlphaChannel` works with, once its options are read. */
  datatype Settings = Settings(threshold: real, smooth: bool, featherRadius: real, timeout: real,
                               targetColor: Option<Color>)

  /** The plugin parameters `whiteThreshold` and `smoothEdges`, as parsed. */
  datatype PluginParameters = PluginParameters(whiteThreshold: real, smoothEdges: bool)

  /** The first lines of `loadJpegPseudoAlphaChannel`: a threshold and a smooth
      flag that are not `undefined` are kept (0 included), otherwise the plugin
      parameters apply; a falsy feather radius becomes 1 and a falsy timeout
      10000 ms; the target colour is passed on when present. */
  function Resolve(options: Options, parameters: PluginParameters): Settings {
    Settings(IfDefined(options.threshold, parameters.whiteThreshold),
             IfDefined(options.smooth, parameters.smoothEdges),
             OrNumber(options.featherRadius, 1.0),
             OrNumber(options.timeout, 10000.0),
             if options.targetColor.Given? then Some(options.targetColor.value) else None)
  }

  /** The feather radius handed to the pipeline is never 0, so its feathering
      step runs for every options object except one whose radius is negative. */
  lemma PseudoFeatherTaken(options: Options, parameters: PluginParameters)
    ensures Resolve(options, parameters).featherRadius != 0.0
    ensures Resolve(options, parameters).featherRadius > 0.0 <==>
      !(options.featherRadius.Given? && options.featherRadius.value < 0.0)
  {
  }

  // ---------------------------------------------------------------------------
  // Presets with fixed settings
  // ---------------------------------------------------------------------------

  datatype FixedPreset = AIOptimized | Simple | SuperSmooth | PhotoGrade | HighQuality | Fast | PureWhite

  /** The literal each fixed preset passes. `loadJpegSimpleTransparent` is
      assigned twice; the second assignment, inside the plugin's closure, runs
      last and is the one in effect (threshold 235). */
  function FixedPresetOptions(preset: FixedPreset): Options {
    match preset
    case AIOptimized => Literal(6.0, true, 1.5)
    case Simple => Literal(235.0, false, 0.0)
    case SuperSmooth => Literal(7.0, true, 3.0)
    case PhotoGrade => Literal(8.0, true, 2.0)
    case HighQuality => Literal(230.0, true, 2.0)
    case Fast => Literal(245.0, false, 0.0)
    case PureWhite => Literal(250.0, true, 1.0)
  }

  /** A fixed preset ignores the plugin parameters and always feathers with a
      positive radius: the radius 0 of `Simple` and `Fast` becomes 1. It never
      names a target colour, so the background is detected. */
  lemma FixedPresetSettings(preset: FixedPreset, parameters: PluginParameters, other: PluginParameters)
    ensures Resolve(FixedPresetOptions(preset), parameters) == Resolve(FixedPresetOptions(preset), other)
    ensures Resolve(FixedPresetOptions(preset), parameters).featherRadius > 0.0
    ensures Resolve(FixedPresetOptions(preset), parameters).targetColor == None
    ensures Resolve(FixedPresetOptions(preset), parameters).timeout == 10000.0
    ensures preset == Simple || preset == Fast ==> Resolve(FixedPresetOptions(preset), parameters).featherRadius == 1.0
  {
  }

  // ---------------------------------------------------------------------------
  // Presets with a target colour
  // ---------------------------------------------------------------------------

  /** `loadJpegCustomColorTransparent`: the given options, then the target
      colour and the defaults 15, true and 1.5 written over them. */
  function CustomColorOptions(targetColor: Color, options: Options): Options {
    Spread(options, Options(Given(OrNumber(options.threshold, 15.0)),
                            Given(IfDefined(options.smooth, true)),
                            Given(OrNumber(options.featherRadius, 1.5)),
                            Absent,
                            Given(targetColor)))
  }

  /** `loadJpegCustomColorTransparent` always removes its own colour, whatever
      `options.targetColor` says, and its settings are the options' own
      threshold and feather radius unless falsy (then 15 and 1.5), the smooth
      flag unless `undefined` (then true), and the plugin parameters play no
      part. */
  lemma CustomColorSettings(targetColor: Color, options: Options, parameters: PluginParameters)
    ensures var s := Resolve(CustomColorOptions(targetColor, options), parameters);
      s.targetColor == Some(targetColor) &&
      s.threshold == (if options.threshold.Given? && options.threshold.value != 0.0 then options.threshold.value else 15.0) &&
      s.smooth == (if options.smooth.Given? then options.smooth.value else true) &&
      s.featherRadius == (if options.featherRadius.Given? && options.featherRadius.value != 0.0 then options.featherRadius.value else 1.5) &&
      s.timeout == (if options.timeout.Given? && options.timeout.value != 0.0 then options.timeout.value else 10000.0)
  {
  }

  /** `loadJpegRGBColorTransparent`. */
  function RGBColorOptions(r: Byte, g: Byte, b: Byte, options: Options): Options {
    CustomColorOptions(Color(r, g, b), options)
  }

  /** `loadJpegHexColorTransparent`, for a code whose three channels are bytes;
      None for any other code. */
  function HexColorOptions(hexColor: string, options: Options): Option<Options> {
    match HexTarget(hexColor)
    case Some(c) => Some(CustomColorOptions(c, options))
    case None => None
  }

  /** The code of a colour selects that colour, like naming it in RGB. */
  lemma HexColorAgreesWithRGB(c: Color, options: Options)
    ensures HexColorOptions(ColorToHex(c), options) == Some(RGBColorOptions(c.r, c.g, c.b, options))
  {
    HexRoundTrip(c);
  }

  datatype ColourPreset = Red | Green | Blue | White | Black | Gray | Cyan | Magenta | Yellow

  function PresetColor(preset: ColourPreset): Color {
    match preset
    case Red => Color(255, 0, 0)
    case Green => Color(0, 255, 0)
    case Blue => Color(0, 0, 255)
    case White => Color(255, 255, 255)
    case Black => Color(0, 0, 0)
    case Gray => Color(128, 128, 128)
    case Cyan => Color(0, 255, 255)
    case Magenta => Color(255, 0, 255)
    case Yellow => Color(255, 255, 0)
  }

  function PresetThreshold(preset: ColourPreset): real {
    match preset
    case Red => 12.0
    case Green => 12.0
    case Blue => 12.0
    case White => 8.0
    case Black => 15.0
    case Gray => 20.0
    case Cyan => 10.0
    case Magenta => 10.0
    case Yellow => 12.0
  }

  function PresetFeatherRadius(preset: ColourPreset): real {
    match preset
    case Red => 1.5
    case Green => 1.5
    case Blue => 1.5
    case White => 1.8
    case Black => 2.0
    case Gray => 2.5
    case Cyan => 1.5
    case Magenta => 1.5
    case Yellow => 1.8
  }

  /** The colour wrappers (`loadJpegRedBackgroundTransparent` and the rest):
      the preset's defaults, then the caller's options spread over them, handed
      to `loadJpegCustomColorTransparent` with the preset's colour. */
  function ColourPresetOptions(preset: ColourPreset, options: Options): Options {
    var defaults := Options(Given(OrNumber(options.threshold, PresetThreshold(preset))),
                            Given(IfDefined(options.smooth, true)),
                            Given(OrNumber(options.featherRadius, PresetFeatherRadius(preset))),
                            Absent, Absent);
    CustomColorOptions(PresetColor(preset), Spread(defaults, options))
  }

  /** How a colour preset settles its threshold (the feather radius alike): a
      non-zero value of the caller's is kept; with no such property the preset's
      own default applies; but a property holding 0 or `undefined` is spread
      over that default, so the generic default 15 (1.5 for the radius) of
      `loadJpegCustomColorTransparent` applies instead. The colour is always
      the preset's, and smoothing is on unless the caller gives a flag. */
  lemma ColourPresetSettings(preset: ColourPreset, options: Options, parameters: PluginParameters)
    ensures var s := Resolve(ColourPresetOptions(preset, options), parameters);
      s.targetColor == Some(PresetColor(preset)) &&
      s.threshold == (if options.threshold.Given? && options.threshold.value != 0.0 then options.threshold.value
                      else if options.threshold.Absent? then PresetThreshold(preset) else 15.0) &&
      s.featherRadius == (if options.featherRadius.Given? && options.featherRadius.value != 0.0 then options.featherRadius.value
                          else if options.featherRadius.Absent? then PresetFeatherRadius(preset) else 1.5) &&
      s.smooth == (if options.smooth.Given? then options.smooth.value else true)
  {
  }

  /** With no options at all, a colour preset uses exactly its table row. */
  lemma ColourPresetDefaults(preset: ColourPreset, parameters: PluginParameters)
    ensures Resolve(ColourPresetOptions(preset, NoOptions), parameters)
      == Settings(PresetThreshold(preset), true, PresetFeatherRadius(preset), 10000.0, Some(PresetColor(preset)))
  {
    ColourPresetSettings(preset, NoOptions, parameters);
  }

  /** A threshold of 0 given to the red preset ends up as 15, not as the preset's
      12. */
  lemma RedZeroThreshold(parameters: PluginParameters)
    ensures Resolve(ColourPresetOptions(Red, Options(Given(0.0), Absent, Absent, Absent, Absent)), parameters).threshold == 15.0
    ensures Resolve(ColourPresetOptions(Red, NoOptions), parameters).threshold == 12.0
  {
    ColourPresetSettings(Red, Options(Given(0.0), Absent, Absent, Absent, Absent), parameters);
    ColourPresetSettings(Red, NoOptions, parameters);
  }

  // ---------------------------------------------------------------------------
  // Every loader
  // ---------------------------------------------------------------------------

  /** The public loaders of the plugin, with the arguments each takes besides
      the path. */
  datatype Loader =
    | PseudoAlphaChannel(options: Options)
    | FixedLoader(preset: FixedPreset)
    | ColourLoader(colour: ColourPreset, options: Options)
    | CustomColorLoader(target: Color, options: Options)
    | RGBColorLoader(r: Byte, g: Byte, b: Byte, options: Options)
    | HexColorLoader(hexColor: string, options: Options)

  /** The options a loader hands to `loadJpegPseudoAlphaChannel`; None for a hex
      code that does not name a colour of bytes. */
  function LoaderOptionsOf(loader: Loader): Option<Options> {
    match loader
    case PseudoAlphaChannel(options) => Some(options)
    case FixedLoader(preset) => Some(FixedPresetOptions(preset))
    case ColourLoader(colour, options) => Some(ColourPresetOptions(colour, options))
    case CustomColorLoader(target, options) => Some(CustomColorOptions(target, options))
    case RGBColorLoader(r, g, b, options) => Some(RGBColorOptions(r, g, b, options))
    case HexColorLoader(hexColor, options) => HexColorOptions(hexColor, options)
  }

  /** Only `loadJpegPseudoAlphaChannel` called directly or a fixed preset leaves
      the background to detection; every colour loader fixes it. */
  lemma TargetColorOfLoader(loader: Loader, parameters: PluginParameters)
    requires LoaderOptionsOf(loader).Some?
    ensures var s := Resolve(LoaderOptionsOf(loader).value, parameters);
      (loader.PseudoAlphaChannel? ==> (s.targetColor.Some? <==> loader.options.targetColor.Given?)) &&
      (loader.FixedLoader? ==> s.targetColor == None) &&
      (loader.ColourLoader? ==> s.targetColor == Some(PresetColor(loader.colour))) &&
      (loader.CustomColorLoader? ==> s.targetColor == Some(loader.target)) &&
      (loader.RGBColorLoader? ==> s.targetColor == Some(Color(loader.r, loader.g, loader.b))) &&
      (loader.HexColorLoader? ==> s.targetColor == HexTarget(loader.hexColor))
  {
    match loader
    case PseudoAlphaChannel(_) =>
    case FixedLoader(preset) => FixedPresetSettings(preset, parameters, parameters);
    case ColourLoader(colour, options) => ColourPresetSettings(colour, options, parameters);
    case CustomColorLoader(target, options) => CustomColorSettings(target, options, parameters);
    case RGBColorLoader(r, g, b, options) => CustomColorSettings(Color(r, g, b), options, parameters);
    case HexColorLoader(hexColor, options) =>
      if HexTarget(hexColor).Some? {
        CustomColorSettings(HexTarget(hexColor).value, options, parameters);
      }
  }
}
