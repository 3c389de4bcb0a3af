/** `loadJpegPseudoAlphaChannel` once the image is in memory: the options are
    read, the load path is prefixed, a zero-sized image is refused, and the
    pixels go through `processBackgroundToTransparent`. Fetching and decoding
    the image, the canvas and the resulting `Bitmap` are not modelled: the
    decoded RGBA buffer and its size are inputs. */
module Loading {
  import opened Wrappers
  import opened Colors
  import opened Background
  import opened Raster
  import opened Paths
  import opened LoaderOptions

  datatype LoadError = InvalidImageSize

  /** `loadJpegPseudoAlphaChannel` on a decoded image of `width` by `height`
      pixels held in `data`. Returns the `img.src` it loads from and either the
      settings the pixels were processed with or the error it rejects with. */
  method LoadJpegPseudoAlphaChannel(imagePath: string, options: Options, parameters: PluginParameters,
                                    data: array<Byte>, width: nat, height: nat, toLab: Color -> Lab,
                                    weightedMean: (seq<Byte>, nat, nat, nat, nat) -> Byte,
                                    featherMean: (seq<real>, nat, nat, nat, real) -> real)
    returns (src: string, outcome: Result<Settings, LoadError>)
    requires IsImage(data[..], width, height)
    modifies data
    ensures src == FullImagePath(imagePath)
    ensures outcome.Err? <==> width == 0 || height == 0
    ensures outcome.Err? ==> outcome.error == InvalidImageSize && data[..] == old(data[..])
    ensures outcome.Ok? ==> outcome.value == Resolve(options, parameters)
    ensures outcome.Ok? ==>
      data[..] == Composite(old(data[..]), width, height, outcome.value.threshold, outcome.value.smooth,
                            BackgroundFor(old(data[..]), width, height, outcome.value.targetColor), toLab, weightedMean)
  {
    var settings := Resolve(options, parameters);
    src := FullImagePath(imagePath);
    if width == 0 || height == 0 {
      outcome := Err(InvalidImageSize);
      return;
    }
    ProcessBackgroundToTransparent(data, width, height, settings.threshold, settings.smooth, settings.featherRadius,
                                   settings.targetColor, toLab, weightedMean, featherMean);
    outcome := Ok(settings);
  }
}
