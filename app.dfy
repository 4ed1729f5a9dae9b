/** One run of the page script: the upload gate and `fix_image`, which walks
    the progress bar forward, calls `process_image`, and shows the two images
    side by side with a download of the result. The page the framework draws
    is modelled by the `Page` object, whose fields record what has been put on
    it during the run. */
module App {
  import opened Images
  import opened Pipeline

  /** Uploads larger than this many bytes (10 MiB) are refused. */
  const MaxFileSize: nat := 10 * 1024 * 1024

  datatype UploadDecision = TooLarge | Accept

  /** The size gate: only a size strictly above MaxFileSize is refused. */
  function CheckUploadSize(size: nat): (d: UploadDecision)
    ensures d == Accept <==> size <= MaxFileSize
  {
    if size > MaxFileSize then TooLarge else Accept
  }

  /** A file of exactly 10 MiB is still accepted; one byte more is not. */
  lemma UploadSizeBoundary()
    ensures CheckUploadSize(10485760) == Accept
    ensures CheckUploadSize(10485761) == TooLarge
  {
  }

  /** Messages the run can put on the page. */
  datatype Notice =
    | UploadPrompt          // "Upload an image from the sidebar to begin."
    | FileTooLarge          // "File too large. Please upload an image smaller than 10MB."
    | ImageProcessingError  // "Image processing error: ..." raised inside process_image
    | UnexpectedError       // "An unexpected error occurred."
    | ProcessingFailed      // the sidebar's "Processing failed."

  /** The text under the progress bar; the elapsed time shown on completion
      is not modelled. */
  datatype Status = Reading | Processing | Displaying | Completed

  datatype Download = Download(data: Bytes, fileName: string, mime: string)

  /** Each value is above the one before it. */
  ghost predicate StrictlyIncreasing(s: seq<nat>) {
    forall k :: 0 < k < |s| ==> s[k - 1] < s[k]
  }

  lemma {:induction false} IncreasingEverywhere(s: seq<nat>, i: nat, j: nat)
    requires StrictlyIncreasing(s) && i < j < |s|
    ensures s[i] < s[j]
    decreases j - i
  {
    if i + 1 < j {
      IncreasingEverywhere(s, i + 1, j);
    }
  }

  class Page {
    var notices: seq<Notice>          // main area
    var sidebarNotices: seq<Notice>   // sidebar
    var progress: Option<nat>         // the sidebar progress bar, once created
    ghost var progressHistory: seq<nat>  // every value the bar has shown, in order
    var status: Option<Status>
    var columns: Option<(Raster, Raster)>  // original and background removed, side by side
    var download: Option<Download>

    /** The bar shows the last value it was set to, and those values only
        ever increase, up to at most 100. */
    ghost predicate Valid()
      reads this
    {
      && StrictlyIncreasing(progressHistory)
      && (progress.None? <==> progressHistory == [])
      && (progress.Some? ==> progress.value == progressHistory[|progressHistory| - 1] <= 100)
    }

    /** A value the bar has shown is below every value it shows later, not
        only the next one: the bar never goes back. */
    lemma ProgressNeverGoesBack(i: nat, j: nat)
      requires Valid() && i < j < |progressHistory|
      ensures progressHistory[i] < progressHistory[j]
    {
      IncreasingEverywhere(progressHistory, i, j);
    }

    /** Nothing has been drawn yet in this run. */
    ghost predicate Blank()
      reads this
    {
      notices == [] && sidebarNotices == [] && progress.None? && progressHistory == []
      && status.None? && columns.None? && download.None?
    }

    constructor ()
      ensures Valid() && Blank()
    {
      notices, sidebarNotices := [], [];
      progress, progressHistory := None, [];
      status, columns, download := None, None, None;
    }

    method SetProgress(value: nat)
      requires Valid()
      requires value <= 100
      requires progress.Some? ==> progress.value < value
      modifies this`progress, this`progressHistory
      ensures Valid()
      ensures progress == Some(value) && progressHistory == old(progressHistory) + [value]
    {
      progress := Some(value);
      progressHistory := progressHistory + [value];
    }

    /** What `fix_image` leaves on the page, given what was on it before:
        on `(None, None)` the bar stops at 30 and only the processing error
        is added; otherwise both images are shown and the download of the
        PNG is offered and the bar reaches 100, or, when encoding fails, the
        two generic errors are added and the bar stays at 90. */
    ghost predicate FixedImage(imageBytes: Bytes, steps: Steps, notices0: seq<Notice>,
                               sidebarNotices0: seq<Notice>, columns0: Option<(Raster, Raster)>,
                               download0: Option<Download>)
      reads this
    {
      var (original, removed) := ProcessImage(imageBytes, steps);
      if original.None? || removed.None? then
        && progressHistory == [0, 10, 30] && status == Some(Processing)
        && notices == notices0 + [ImageProcessingError] && sidebarNotices == sidebarNotices0
        && columns == columns0 && download == download0
      else if ConvertImage(removed.value, steps).None? then
        && progressHistory == [0, 10, 30, 90] && status == Some(Displaying)
        && notices == notices0 + [UnexpectedError]
        && sidebarNotices == sidebarNotices0 + [ProcessingFailed]
        && columns == Some((original.value, removed.value)) && download == download0
      else
        && progressHistory == [0, 10, 30, 90, 100] && status == Some(Completed)
        && notices == notices0 && sidebarNotices == sidebarNotices0
        && columns == Some((original.value, removed.value))
        && download == Some(Download(ConvertImage(removed.value, steps).value, "removed_background.png", "image/png"))
    }

    /** The part of `fix_image` after `process_image` has produced both
        images: the bar moves to 90, the two images are shown side by side,
        and the PNG download is offered if the result encodes, else the
        generic error messages are shown and the bar stays at 90. */
    method ShowResult(original: Raster, removed: Raster, steps: Steps)
      requires Valid() && progress == Some(30)
      modifies this
      ensures Valid()
      ensures columns == Some((original, removed))
      ensures ConvertImage(removed, steps).None? ==>
        && progressHistory == old(progressHistory) + [90] && status == Some(Displaying)
        && notices == old(notices) + [UnexpectedError]
        && sidebarNotices == old(sidebarNotices) + [ProcessingFailed]
        && download == old(download)
      ensures ConvertImage(removed, steps).Some? ==>
        && progressHistory == old(progressHistory) + [90, 100] && status == Some(Completed)
        && notices == old(notices) && sidebarNotices == old(sidebarNotices)
        && download == Some(Download(ConvertImage(removed, steps).value, "removed_background.png", "image/png"))
    {
      SetProgress(90);
      status := Some(Displaying);
      columns := Some((original, removed));

      var png := ConvertImage(removed, steps);
      if png.None? {
        notices := notices + [UnexpectedError];
        sidebarNotices := sidebarNotices + [ProcessingFailed];
        return;
      }
      download := Some(Download(png.value, "removed_background.png", "image/png"));
      SetProgress(100);
      status := Some(Completed);
    }

    /** `fix_image`: a new progress bar, then `process_image`. When that
        yields no pair, the processing error is shown and nothing else: no
        images, no download. Otherwise both images are shown; the download is
        offered only if the result encodes as PNG, and a failure there shows
        the generic error messages, leaving the images on the page. */
    method FixImage(imageBytes: Bytes, steps: Steps)
      requires Valid()
      modifies this
      ensures Valid()
      ensures FixedImage(imageBytes, steps, old(notices), old(sidebarNotices), old(columns), old(download))
    {
      progress, progressHistory := Some(0), [0];
      status := Some(Reading);
      SetProgress(10);
      status := Some(Processing);
      SetProgress(30);

      var (original, removed) := ProcessImage(imageBytes, steps);
      if original.None? || removed.None? {
        notices := notices + [ImageProcessingError];
        return;
      }
      ShowResult(original.value, removed.value, steps);
    }

    /** The script's handling of the uploader: a prompt when nothing is
        uploaded, a refusal when the file is over the limit (the pipeline
        does not start), `fix_image` otherwise. The two images are shown
        together or not at all, and a download only beside them. */
    method HandleUpload(uploaded: Option<Bytes>, steps: Steps)
      requires Valid() && Blank()
      modifies this
      ensures Valid()
      ensures uploaded.None? ==>
        notices == [UploadPrompt] && sidebarNotices == [] && progress.None? && progressHistory == []
        && status.None? && columns.None? && download.None?
      ensures uploaded.Some? && CheckUploadSize(|uploaded.value|) == TooLarge ==>
        notices == [FileTooLarge] && sidebarNotices == [] && progress.None? && progressHistory == []
        && status.None? && columns.None? && download.None?
      ensures uploaded.Some? && CheckUploadSize(|uploaded.value|) == Accept ==>
        FixedImage(uploaded.value, steps, [], [], None, None)
      ensures columns.Some? <==> uploaded.Some? && CheckUploadSize(|uploaded.value|) == Accept
                                 && ProcessImage(uploaded.value, steps).0.Some?
      ensures download.Some? ==> columns.Some? && progress == Some(100) && IsPng(download.value.data)
    {
      if uploaded.None? {
        notices := notices + [UploadPrompt];
      } else if CheckUploadSize(|uploaded.value|) == TooLarge {
        notices := notices + [FileTooLarge];
      } else {
        FixImage(uploaded.value, steps);
      }
    }
  }
}
