# Image Background Remover — a Dafny model of its control logic

The system is a single-page Streamlit script: the user uploads a PNG or JPEG,
the script refuses files over 10 MiB, decodes the image to RGBA, shrinks it
so that neither side exceeds 2000 pixels, runs the rembg background-removal
model on it, and shows the original and the result side by side with a
download of the result as `removed_background.png`.

This project models the three pieces of that script that are logic rather
than library calls, and proves what they promise:

- `Resizer` — the dimension rule of `resize_image`. `TargetSize(w, h, m)` is
  `(w, h)` when both sides are at most `m`; otherwise the longer side becomes
  `m` (the height, for a square image) and the other side is scaled by the
  same ratio and truncated. The source computes that side in floating point
  as `int(side * (m / longer))`; the model uses the exact floor
  `side * m / longer`. Proved: no division by zero, both results at most `m`
  and at most the input sides, the longer result side exactly `m` outside the
  bound, orientation kept, the truncation bounds
  `n * longer <= side * m < (n + 1) * longer` (which determine `n`), and
  idempotence. A very thin image can be given a target side of 0 (a
  1 x 5000 image is given the target size 0 x 2000); the model does not rule
  that out, because the code does not. What the resampler then does with
  that size is up to the resampling step.
- `Pipeline` — `process_image`. Decoding, Lanczos resampling, the removal
  model and PNG encoding are foreign, possibly failing steps, passed in as a
  `Steps` value of functions returning `Option`. The result is
  `(original, processed)` or `(None, None)`: both or neither, the original
  being the decoded image before resizing, the processed one the size
  `TargetSize` gives, holding exactly the pixels the removal model produced
  from the resized original. An image already within the bound is never
  resampled. `convert_image` is modelled as the PNG signature followed by
  the encoder's chunks: that framing is assumed of the PNG writer, not
  derived from the code, and from it the download data starts with the
  signature.
- `App` — one run of the script. `CheckUploadSize` is the size gate
  (strictly more than 10 MiB is refused; exactly 10 MiB is accepted).
  `Page` records what the run puts on the page: main-area and sidebar
  messages, the progress bar (with a ghost history of its values, which
  strictly increase and end at most at 100), the status line, the two image
  columns and the download button. `FixImage` and `HandleUpload` update it as
  `fix_image` and the upload handling do: a refused upload never starts the
  pipeline; when `process_image` yields `(None, None)` nothing is displayed or
  offered; a download is offered only beside both images.

Two behaviours of the code worth noting:

- The other side is truncated with `int(...)` (`app.py:37`, `app.py:40`),
  not rounded.
- If `convert_image` fails, the two images drawn at `app.py:74-76` stay on
  the page, with no download, under the generic error messages
  (`app.py:89-90`). `App.Page.ShowResult` states exactly that.

## Model

| member | source | states |
|---|---|---|
| `Resizer.TargetSize` | app.py:30-40 | both target sides are at most `max_size` and at most the matching input side, so every division it makes has a positive divisor |
| `Resizer.ScaledSide` | app.py:37 | the truncated scaled side `side * bound / longer` is at most the bound and at most the side it scales |
| `Resizer.TargetSizeUnchanged` | app.py:33-34 | the size is returned unchanged exactly when both sides are within `max_size` |
| `Resizer.LongerSideExceedsBound` | app.py:33-40 | outside the bound the side used as divisor (width when wider, else height) is strictly above `max_size` |
| `Resizer.TargetSizeWide` | app.py:35-37 | a wide image out of bounds gets width `max_size` and height `trunc(height * max_size / width)`, as the truncation bounds state |
| `Resizer.TargetSizeTall` | app.py:38-40 | a tall or square image out of bounds gets height `max_size` and width `trunc(width * max_size / height)` |
| `Resizer.TruncatedScaleUnique` | app.py:37-40 | the truncation bounds `n * longer <= side * m < (n + 1) * longer` have a single solution, so they define the scaled side |
| `Resizer.TargetSizeLongerSide` | app.py:33-40 | out of bounds, the larger of the two new sides is exactly `max_size` and the image keeps its orientation |
| `Resizer.TargetSizeIdempotent` | app.py:30-40 | resizing the resulting size again changes nothing |
| `Resizer.ThinImageGetsZeroWidth` | app.py:38-40 | a 1 x 5000 image bounded by 2000 gets width 0 and height 2000 |
| `Resizer.ResizeImage` | app.py:30-41 | an image within the bound is returned as it is; otherwise the result is the resampler's output at the target size and fits the bound, and it fails exactly when the image is out of bounds and the resampler fails at that size |
| `Pipeline.RemoveBackground` | app.py:48 | the result holds exactly the pixels the removal model returned, at the size of its input; it fails exactly when the model fails |
| `Pipeline.ProcessImage` | app.py:44-52 | both images or neither; the first is the decoded image before resizing; the second is the removal output of the resized first image, fits within 2000 and has the size `TargetSize` gives for the first; a decode failure yields `(None, None)` |
| `Pipeline.SmallImageKeepsSize` | app.py:44-49 | an image within 2000 x 2000 keeps its size through processing, and the resampler plays no part in the result |
| `Pipeline.ProcessImageSucceeds` | app.py:45-52 | processing yields a pair exactly when decoding, resizing and removal all succeed |
| `Pipeline.ConvertImage` | app.py:24-28 | encoding succeeds exactly when the encoder does; its output is the encoder's chunks behind the eight-byte PNG signature, a framing assumed of the PNG writer |
| `App.CheckUploadSize` | app.py:105-109 | an upload is accepted exactly when its size is at most `MAX_FILE_SIZE` = 10 * 1024 * 1024 bytes |
| `App.UploadSizeBoundary` | app.py:20 | 10485760 bytes is accepted and 10485761 refused |
| `App.Page.ProgressNeverGoesBack` | app.py:57-85 | on a valid page every value the progress bar has shown is below every value it showed later |
| `App.Page.SetProgress` | app.py:61 | the bar shows the new value, appended to its strictly increasing history |
| `App.Page.ShowResult` | app.py:71-86 | both images shown; with a PNG encoding the download `removed_background.png` of type `image/png` is offered and the bar reaches 100, otherwise the two generic errors are shown, no download, bar at 90 |
| `App.Page.FixImage` | app.py:54-91 | bar 0, 10, 30; on `(None, None)` only the processing error is added and nothing is displayed or offered; otherwise as `ShowResult` with the pair from `ProcessImage` |
| `App.Page.HandleUpload` | app.py:105-111 | no upload: only the prompt; over 10 MiB: only the refusal, no progress bar, no status, no images; otherwise exactly the page `FixImage` leaves: the processing error alone on `(None, None)`, the two generic errors beside the images when encoding fails, else both images and a download whose data starts with the PNG signature (under the assumed PNG framing of `ConvertImage`); images shown exactly when `ProcessImage` yields a pair |

## Left out

- Streamlit page set-up, titles, the information panel and the rendering of
  elements (`app.py:9-17`, `app.py:94-103`): presentation in an external
  framework. The page is modelled only as the record of what a run adds to it.
- The rembg model, PIL decoding (`Image.open(...).convert("RGBA")`), Lanczos
  resampling and PNG encoding: foreign libraries. Each is an arbitrary,
  possibly failing function in `Images.Steps`. The removal step is assumed
  to return a raster of the same width and height as the one it was given:
  it only sets the alpha channel, so `RemoveBackground` gives its output the
  input's size.
- `Resizer.TargetSize`: computes the exact floor of `side * max_size / longer`,
  not Python's float expression `int(side * (max_size / longer))`, which can
  be one less. This happens notably when the exact quotient is a whole
  number, as for every square image: `int(w * (2000 / w))` is 1999 for many
  sides `w` above 2000 (2105, for one), where the model gives 2000. The
  same holds of `TargetSizeTall` and `TargetSizeLongerSide` for such sides.
- Pipeline.ConvertImage: the PNG writer behind `img.save(buf, format="PNG")`
  is assumed to write the eight-byte PNG signature before the chunks it
  encodes; the model adds the signature itself, so that the download is a
  PNG file is an assumption about the library, not a consequence of the code.
- Exception messages (`str(e)` in `app.py:51`) and the elapsed time in the
  completion status (`app.py:56`, `app.py:86`): I/O and the wall clock. The
  traceback printed to the console (`app.py:91`) is left out.
- `App.Page.FixImage`: of the exceptions the outer `try` of `fix_image` can
  catch, only a failing PNG encoding is modelled; failures inside the
  framework's own calls are not.
- The `@st.cache_data` memoisation of `process_image` (`app.py:43`): the
  model's `ProcessImage` is a function, so equal inputs give equal results,
  but cache storage, lookup and the replay of its messages are not modelled.
  The processing error that `process_image` itself shows is recorded by
  `FixImage` when it receives `(None, None)`.
- The upload's `size` attribute is taken to be the length of its bytes.
