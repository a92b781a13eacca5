/** The host's option store (`opts.data`) as far as the core reads it. An absent
    entry falls back to the default written at the reading site. */
module Settings {
  import opened Outcomes

  // Each getter is `opts.data.get(key, default)`: the stored value when the
  // key is present, the default otherwise.

  datatype Options = Options(
    detectionThreshold: Option<real>,  // faceswaplab_detection_threshold
    upscaledSwapper: Option<bool>,     // faceswaplab_upscaled_swapper
    upscaler: Option<string>,          // faceswaplab_upscaled_swapper_upscaler
    fthresh: Option<real>,             // faceswaplab_upscaled_swapper_fthresh
    erosion: Option<real>)             // faceswaplab_upscaled_swapper_erosion

  function DetectionThreshold(o: Options): (r: real)
    ensures o.detectionThreshold.None? ==> r == 0.5
    ensures o.detectionThreshold.Some? ==> r == o.detectionThreshold.value
  {
    o.detectionThreshold.GetOr(0.5)
  }

  function UpscaledSwapper(o: Options): (r: bool)
    ensures o.upscaledSwapper.None? ==> r == false
    ensures o.upscaledSwapper.Some? ==> r == o.upscaledSwapper.value
  {
    o.upscaledSwapper.GetOr(false)
  }

  function UpscalerName(o: Options): (r: string)
    ensures o.upscaler.None? ==> r == "LDSR"
    ensures o.upscaler.Some? ==> r == o.upscaler.value
  {
    o.upscaler.GetOr("LDSR")
  }

  function DiffThreshold(o: Options): (r: real)
    ensures o.fthresh.None? ==> r == 10.0
    ensures o.fthresh.Some? ==> r == o.fthresh.value
  {
    o.fthresh.GetOr(10.0)
  }

  function ErosionFactor(o: Options): (r: real)
    ensures o.erosion.None? ==> r == 1.0
    ensures o.erosion.Some? ==> r == o.erosion.value
  {
    o.erosion.GetOr(1.0)
  }
}
