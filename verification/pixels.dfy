/**
 * Shared vocabulary of the tile-reconstruction engine: positions, RGBA pixel
 * buffers laid out as p5's `pixels` array, and mean colours.
 */
module Pixels {

  /** Side length, in pixels, of one square section (`SECTION_SIZE`). */
  const SECTION_SIZE: nat := 10

  /** A value that may be absent; `None` stands for a NaN colour. */
  datatype Option<T> = None | Some(value: T)

  function Min(a: int, b: int): int {
    if a < b then a else b
  }

  function Max(a: int, b: int): int {
    if a < b then b else a
  }

  /** A pixel coordinate or the top-left corner of a section. */
  datatype Pos = Pos(x: int, y: int)

  /**
   * An image as p5 exposes it after `loadPixels()`: `width * height` pixels,
   * row-major, four samples (R, G, B, A) per pixel.
   */
  datatype Image = Image(width: nat, height: nat, pixels: seq<int>)

  /** The buffer holds exactly four 8-bit samples per pixel. */
  predicate ValidImage(img: Image) {
    && |img.pixels| == 4 * img.width * img.height
    && forall k :: 0 <= k < |img.pixels| ==> 0 <= img.pixels[k] <= 255
  }

  predicate InBounds(img: Image, p: Pos) {
    0 <= p.x < img.width && 0 <= p.y < img.height
  }

  /** Mean of the red, green and blue channels over some pixels. */
  datatype Color = Color(r: real, g: real, b: real)

  /** The red sample of pixel (i, j) sits at `4 * (j * width + i)`; blue is two further on. */
  lemma PixelIndexInRange(w: nat, h: nat, i: nat, j: nat)
    requires i < w && j < h
    ensures 4 * (j * w + i) + 3 < 4 * w * h
  {
    assert j * w + i < (j + 1) * w;
    assert (j + 1) * w <= h * w by {
      assert j + 1 <= h;
    }
  }

  /** Index of the red sample of an in-bounds pixel. */
  function PixelIndex(img: Image, p: Pos): (idx: nat)
    requires ValidImage(img) && InBounds(img, p)
    ensures idx + 2 < |img.pixels|
  {
    PixelIndexInRange(img.width, img.height, p.x, p.y);
    4 * (p.y * img.width + p.x)
  }
}
