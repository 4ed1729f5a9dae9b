/** The dimension rule of `resize_image`: an image whose sides both fit
    within the bound is kept as it is; otherwise its longer side becomes the
    bound and its other side is scaled by the same ratio and truncated.

    The source computes the scaled side in floating point, as
    `int(side * (bound / longer))`; here it is the exact floor of the
    rational `side * bound / longer`, which is what that expression is meant
    to compute. */
module Resizer {
  import opened Images

  /** `n` is `side * bound / longer` truncated: the largest whole number of
      pixels that does not stretch the image past its aspect ratio. */
  ghost predicate IsTruncatedScale(n: int, side: nat, bound: nat, longer: nat) {
    n * longer <= side * bound < (n + 1) * longer
  }

  function Max(a: int, b: int): int {
    if a >= b then a else b
  }

  /** a / d is at most b when a is at most b * d. */
  lemma QuotientAtMost(a: nat, d: nat, b: nat)
    requires d > 0 && a <= b * d
    ensures a / d <= b
  {
    var q := a / d;
    assert q * d <= a;
    if q > b {
      MulMonotone(b + 1, q, d);
    }
  }

  lemma MulMonotone(a: int, b: int, c: nat)
    requires a <= b
    ensures a * c <= b * c
  {
    assert b * c - a * c == (b - a) * c;
  }

  /** `side * bound / longer`, the other side of a resized image, never
      exceeds the bound nor the side it was scaled from. */
  function ScaledSide(side: nat, bound: nat, longer: nat): (n: nat)
    requires side <= longer && bound < longer
    ensures n <= bound && n <= side
  {
    MulMonotone(side, longer, bound);
    MulMonotone(bound, longer, side);
    QuotientAtMost(side * bound, longer, bound);
    QuotientAtMost(side * bound, longer, side);
    side * bound / longer
  }

  /** The width and height `resize_image` hands to the resampler, or the
      unchanged size when the image already fits in a `maxSize` square. The
      divisions are safe: outside the square the divisor is the longer side,
      which then exceeds `maxSize`. */
  function TargetSize(width: nat, height: nat, maxSize: nat): (r: (nat, nat))
    ensures r.0 <= maxSize && r.1 <= maxSize
    ensures r.0 <= width && r.1 <= height
  {
    if width <= maxSize && height <= maxSize then
      (width, height)
    else if width > height then
      (maxSize, ScaledSide(height, maxSize, width))
    else
      (ScaledSide(width, maxSize, height), maxSize)
  }

  /** The size is kept exactly when the image fits within the bound. */
  lemma TargetSizeUnchanged(width: nat, height: nat, maxSize: nat)
    ensures TargetSize(width, height, maxSize) == (width, height)
        <==> width <= maxSize && height <= maxSize
  {
  }

  /** Outside the bound the longer side is strictly above it, so the side
      the code divides by is positive. */
  lemma LongerSideExceedsBound(width: nat, height: nat, maxSize: nat)
    requires !(width <= maxSize && height <= maxSize)
    ensures if width > height then width > maxSize else height > maxSize
  {
  }

  /** A wide image gets the bound as its width and its height scaled by
      `maxSize / width`, truncated. */
  lemma TargetSizeWide(width: nat, height: nat, maxSize: nat)
    requires !(width <= maxSize && height <= maxSize) && width > height
    ensures TargetSize(width, height, maxSize).0 == maxSize
    ensures IsTruncatedScale(TargetSize(width, height, maxSize).1, height, maxSize, width)
  {
    var n := height * maxSize / width;
    assert n * width + (height * maxSize) % width == height * maxSize;
  }

  /** A tall or square image gets the bound as its height and its width
      scaled by `maxSize / height`, truncated. */
  lemma TargetSizeTall(width: nat, height: nat, maxSize: nat)
    requires !(width <= maxSize && height <= maxSize) && width <= height
    ensures TargetSize(width, height, maxSize).1 == maxSize
    ensures IsTruncatedScale(TargetSize(width, height, maxSize).0, width, maxSize, height)
  {
    var n := width * maxSize / height;
    assert n * height + (width * maxSize) % height == width * maxSize;
  }

  /** The truncation bounds determine the scaled side: no other whole number
      satisfies them. */
  lemma TruncatedScaleUnique(n1: int, n2: int, side: nat, bound: nat, longer: nat)
    requires IsTruncatedScale(n1, side, bound, longer)
    requires IsTruncatedScale(n2, side, bound, longer)
    ensures n1 == n2
  {
    if n1 < n2 {
      MulMonotone(n1 + 1, n2, longer);
    } else if n2 < n1 {
      MulMonotone(n2 + 1, n1, longer);
    }
  }

  /** Outside the bound the longer side of the result is exactly the bound,
      and the result keeps the image's orientation. */
  lemma TargetSizeLongerSide(width: nat, height: nat, maxSize: nat)
    requires !(width <= maxSize && height <= maxSize)
    ensures Max(TargetSize(width, height, maxSize).0, TargetSize(width, height, maxSize).1) == maxSize
    ensures width > height ==> TargetSize(width, height, maxSize).0 >= TargetSize(width, height, maxSize).1
    ensures width < height ==> TargetSize(width, height, maxSize).0 <= TargetSize(width, height, maxSize).1
  {
  }

  /** Resizing a second time changes nothing: the first result already fits. */
  lemma TargetSizeIdempotent(width: nat, height: nat, maxSize: nat)
    ensures var r := TargetSize(width, height, maxSize);
            TargetSize(r.0, r.1, maxSize) == r
  {
  }

  /** A very thin image is scaled to a side of zero pixels: a 1 x 5000 image
      bounded by 2000 is given width 0. */
  lemma ThinImageGetsZeroWidth()
    ensures TargetSize(1, 5000, 2000) == (0, 2000)
  {
  }

  /** `resize_image`: the image itself when it fits within the bound, else
      the resampler's output at the target size; a resampler failure is
      passed on. */
  function ResizeImage(image: Raster, maxSize: nat, resample: (Raster, nat, nat) -> Option<Bytes>): (r: Option<Raster>)
    ensures image.width <= maxSize && image.height <= maxSize ==> r == Some(image)
    ensures r.Some? ==> (r.value.width, r.value.height) == TargetSize(image.width, image.height, maxSize)
    ensures r.Some? ==> r.value.width <= maxSize && r.value.height <= maxSize
    ensures r.None? <==> !(image.width <= maxSize && image.height <= maxSize)
                         && resample(image, TargetSize(image.width, image.height, maxSize).0,
                                            TargetSize(image.width, image.height, maxSize).1).None?
    ensures r.Some? && !(image.width <= maxSize && image.height <= maxSize) ==>
              resample(image, TargetSize(image.width, image.height, maxSize).0,
                              TargetSize(image.width, image.height, maxSize).1) == Some(r.value.pixels)
  {
    if image.width <= maxSize && image.height <= maxSize then
      Some(image)
    else
      var (w, h) := TargetSize(image.width, image.height, maxSize);
      match resample(image, w, h)
      case None => None
      case Some(pixels) => Some(Raster(w, h, pixels))
  }
}
