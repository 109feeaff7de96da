/** Decoded source images as the layout engine sees them: a name (the file
    stem), a width, a height and opaque pixels, plus the folds over an
    image list that size the canvas (src/sprite.rs:85-87, 117-122, 200-202). */
module Images {

  /** An RGBA pixel; the layout engine never looks inside it. */
  datatype Rgba = Rgba(r: bv8, g: bv8, b: bv8, a: bv8)

  /** The value a fresh image buffer is filled with. */
  const Transparent := Rgba(0, 0, 0, 0)

  /** pixels is row-major: pixels[y][x]. */
  datatype Image = Image(name: string, width: nat, height: nat, pixels: seq<seq<Rgba>>)

  /** A decoded image holds exactly height rows of width pixels each. */
  predicate WellFormed(img: Image) {
    |img.pixels| == img.height && forall y :: 0 <= y < |img.pixels| ==> |img.pixels[y]| == img.width
  }

  predicate AllWellFormed(images: seq<Image>) {
    forall i :: 0 <= i < |images| ==> WellFormed(images[i])
  }

  /** The pixel of img at column x, row y. For a well-formed image and a
      position inside it this is the stored pixel (PixelInside); the
      transparent fallback only makes the function total. */
  function PixelAt(img: Image, x: int, y: int): Rgba {
    if 0 <= y < |img.pixels| && 0 <= x < |img.pixels[y]| then img.pixels[y][x] else Transparent
  }

  lemma PixelInside(img: Image, x: nat, y: nat)
    requires WellFormed(img) && x < img.width && y < img.height
    ensures PixelAt(img, x, y) == img.pixels[y][x]
  {
  }

  /** The horizontal layout is the vertical one with the axes exchanged;
      Axis names the direction along which images are stacked or measured. */
  datatype Axis = X | Y

  function Extent(img: Image, along: Axis): nat {
    if along == X then img.width else img.height
  }

  function Other(along: Axis): Axis {
    if along == X then Y else X
  }

  /** Left fold of the extents, as `images.iter().fold(0, |s, i| s + ...)`. */
  function SumExtent(images: seq<Image>, along: Axis): nat {
    if images == [] then 0
    else SumExtent(images[..|images| - 1], along) + Extent(images[|images| - 1], along)
  }

  /** Left fold with `max`, starting from 0. */
  function MaxExtent(images: seq<Image>, along: Axis): (r: nat)
    ensures forall i :: 0 <= i < |images| ==> Extent(images[i], along) <= r
    ensures images == [] ==> r == 0
    ensures images != [] ==> exists i :: 0 <= i < |images| && Extent(images[i], along) == r
  {
    if images == [] then 0
    else
      var m := MaxExtent(images[..|images| - 1], along);
      var e := Extent(images[|images| - 1], along);
      if m < e then e else m
  }

  /** Left fold of width * height. */
  function TotalArea(images: seq<Image>): (r: nat)
    ensures forall i :: 0 <= i < |images| ==> images[i].width * images[i].height <= r
  {
    if images == [] then 0
    else
      var last := images[|images| - 1];
      TotalArea(images[..|images| - 1]) + last.width * last.height
  }

  /** The running total before image i plus image i is the running total
      through image i. */
  lemma SumExtentStep(images: seq<Image>, along: Axis, i: nat)
    requires i < |images|
    ensures SumExtent(images[..i + 1], along) == SumExtent(images[..i], along) + Extent(images[i], along)
  {
    assert images[..i + 1][..i] == images[..i];
  }

  /** Every image ends no later than the running total at any later index. */
  lemma {:induction false} SumExtentMonotone(images: seq<Image>, along: Axis, i: nat, j: nat)
    requires i < j <= |images|
    ensures SumExtent(images[..i], along) + Extent(images[i], along) <= SumExtent(images[..j], along)
    decreases j
  {
    SumExtentStep(images, along, j - 1);
    if i < j - 1 {
      SumExtentMonotone(images, along, i, j - 1);
    }
  }
}
