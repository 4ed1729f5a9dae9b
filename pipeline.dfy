/** `process_image`: decode the upload, bring it within the dimension bound,
    remove its background. Any failing step makes the whole call yield
    `(None, None)`, so a caller gets both images or neither. */
module Pipeline {
  import opened Images
  import opened Resizer

  /** The bound on either side of the image given to the removal model. */
  const MaxImageSize: nat := 2000

  /** The background-removal step: the raster the model produced, at the
      size of the raster it was given. */
  function RemoveBackground(image: Raster, remove: Raster -> Option<Bytes>): (r: Option<Raster>)
    ensures r.Some? ==> r.value.width == image.width && r.value.height == image.height
    ensures r.Some? ==> remove(image) == Some(r.value.pixels)
    ensures r.None? <==> remove(image).None?
  {
    match remove(image)
    case None => None
    case Some(pixels) => Some(Raster(image.width, image.height, pixels))
  }

  /** The eight bytes every PNG file starts with (section 5.2 of the PNG
      specification, ISO/IEC 15948). */
  const PngSignature: Bytes := [0x89, 0x50, 0x4E, 0x47, 0x0D, 0x0A, 0x1A, 0x0A]

  predicate IsPng(data: Bytes) {
    |data| >= 8 && data[..8] == PngSignature
  }

  /** `convert_image`: the raster saved in PNG format, or `None` when the
      encoder fails. The PNG writer is assumed to put the signature before
      the chunks it encodes; the signature is added here, the chunks come
      from the foreign encoder. */
  function ConvertImage(image: Raster, steps: Steps): (png: Option<Bytes>)
    ensures png.Some? <==> steps.encode(image).Some?
    ensures png.Some? ==> IsPng(png.value) && png.value[8..] == steps.encode(image).value
  {
    match steps.encode(image)
    case None => None
    case Some(chunks) => Some(PngSignature + chunks)
  }

  /** The pair (original, background removed), or (None, None) when decoding,
      resampling or removal fails. The original is the decoded image before
      any resizing; the processed one fits within MaxImageSize and has the
      size `TargetSize` gives for the original, and is what the removal model
      made of the resized original. */
  function ProcessImage(imageBytes: Bytes, steps: Steps): (r: (Option<Raster>, Option<Raster>))
    ensures r.0.Some? <==> r.1.Some?
    ensures r.0.Some? ==> steps.decode(imageBytes) == r.0
    ensures steps.decode(imageBytes).None? ==> r == (None, None)
    ensures r.1.Some? ==> r.1.value.width <= MaxImageSize && r.1.value.height <= MaxImageSize
    ensures r.1.Some? ==> (r.1.value.width, r.1.value.height)
                          == TargetSize(r.0.value.width, r.0.value.height, MaxImageSize)
    ensures r.1.Some? ==>
              && ResizeImage(r.0.value, MaxImageSize, steps.resample).Some?
              && r.1 == RemoveBackground(ResizeImage(r.0.value, MaxImageSize, steps.resample).value, steps.remove)
  {
    match steps.decode(imageBytes)
    case None => (None, None)
    case Some(image) =>
      match ResizeImage(image, MaxImageSize, steps.resample)
      case None => (None, None)
      case Some(resized) =>
        match RemoveBackground(resized, steps.remove)
        case None => (None, None)
        case Some(result) => (Some(image), Some(result))
  }

  /** An image already within the bound is never resampled: its processed
      version has its own width and height, whatever the resampler does. */
  lemma SmallImageKeepsSize(imageBytes: Bytes, steps: Steps)
    requires steps.decode(imageBytes).Some?
    requires steps.decode(imageBytes).value.width <= MaxImageSize
    requires steps.decode(imageBytes).value.height <= MaxImageSize
    ensures var r := ProcessImage(imageBytes, steps);
            r.1.Some? ==> r.1.value.width == r.0.value.width && r.1.value.height == r.0.value.height
    ensures forall resample: (Raster, nat, nat) -> Option<Bytes> ::
              ProcessImage(imageBytes, steps.(resample := resample)) == ProcessImage(imageBytes, steps)
  {
  }

  /** Processing succeeds exactly when every step it reaches succeeds. */
  lemma ProcessImageSucceeds(imageBytes: Bytes, steps: Steps)
    ensures ProcessImage(imageBytes, steps).0.Some?
        <==> (steps.decode(imageBytes).Some?
              && ResizeImage(steps.decode(imageBytes).value, MaxImageSize, steps.resample).Some?
              && steps.remove(ResizeImage(steps.decode(imageBytes).value, MaxImageSize, steps.resample).value).Some?)
  {
  }
}
