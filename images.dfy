/** Values shared by the whole pipeline: the raster images it passes from
    step to step and the foreign steps (image decoding, Lanczos resampling,
    the background-removal model, PNG encoding) that it calls but does not
    define. Each foreign step may fail; a failure is `None`, standing for
    the exception the library would raise. */
module Images {

  datatype Option<+T> = None | Some(value: T)

  /** A byte buffer: an uploaded file or an encoded PNG. */
  type Bytes = seq<bv8>

  /** A decoded RGBA raster. Only its dimensions matter to the model; the
      pixel data is carried along unexamined. */
  datatype Raster = Raster(width: nat, height: nat, pixels: Bytes)

  /** The library calls the pipeline depends on, each an arbitrary, possibly
      failing, deterministic function.
      - decode: open the uploaded bytes and convert them to RGBA;
      - resample: the pixel data of the raster resized to the given width and
        height with the Lanczos filter;
      - remove: the pixel data of the raster with its alpha channel set to the
        predicted foreground mask, at the raster's own width and height;
      - encode: the chunks of the raster's PNG encoding, which follow the
        PNG signature in the saved file. */
  datatype Steps = Steps(
    decode: Bytes -> Option<Raster>,
    resample: (Raster, nat, nat) -> Option<Bytes>,
    remove: Raster -> Option<Bytes>,
    encode: Raster -> Option<Bytes>)
}
