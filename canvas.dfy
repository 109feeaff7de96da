/** The sprite buffer: a width x height grid of pixels, created transparent,
    into which source images are copied at an offset with plain overwrite
    (`ImageBuffer::new` and `copy_from`, src/sprite.rs:95, 100, 180, 184,
    210, 215). The buffer is indexed [x, y]. */
module Canvas {
  import opened Geometry
  import opened Images

  /** The rectangle img covers when its top-left corner is at (x, y). */
  function Footprint(img: Image, x: nat, y: nat): Rect {
    Rect(x, y, img.width, img.height)
  }

  /** `ImageBuffer::new(width, height)`: every pixel transparent. */
  method NewCanvas(width: nat, height: nat) returns (c: array2<Rgba>)
    ensures fresh(c) && c.Length0 == width && c.Length1 == height
    ensures forall a, b :: 0 <= a < width && 0 <= b < height ==> c[a, b] == Transparent
  {
    c := new Rgba[width, height]((a, b) => Transparent);
  }

  /** `canvas.copy_from(img, x, y)`: fails, changing nothing, when img does not
      fit at (x, y); otherwise copies img row by row over the covered pixels
      and leaves every other pixel as it was. */
  method CopyFrom(canvas: array2<Rgba>, img: Image, x: nat, y: nat) returns (ok: bool)
    modifies canvas
    ensures ok <==> Within(Footprint(img, x, y), canvas.Length0, canvas.Length1)
    ensures forall a, b :: 0 <= a < canvas.Length0 && 0 <= b < canvas.Length1 ==>
      canvas[a, b] == if ok && Contains(Footprint(img, x, y), a, b) then PixelAt(img, a - x, b - y) else old(canvas[a, b])
  {
    if canvas.Length0 < img.width + x || canvas.Length1 < img.height + y {
      return false;
    }
    var j := 0;
    while j < img.height
      invariant 0 <= j <= img.height
      invariant forall a, b :: 0 <= a < canvas.Length0 && 0 <= b < canvas.Length1 ==>
        canvas[a, b] == if x <= a < x + img.width && y <= b < y + j then PixelAt(img, a - x, b - y) else old(canvas[a, b])
    {
      var i := 0;
      while i < img.width
        invariant 0 <= i <= img.width
        invariant forall a, b :: 0 <= a < canvas.Length0 && 0 <= b < canvas.Length1 ==>
          canvas[a, b] == if (x <= a < x + img.width && y <= b < y + j) || (x <= a < x + i && b == y + j)
                          then PixelAt(img, a - x, b - y) else old(canvas[a, b])
      {
        canvas[x + i, y + j] := PixelAt(img, i, j);
        i := i + 1;
      }
      j := j + 1;
    }
    return true;
  }

  /** Each placement is the footprint of its own image: same width, same height. */
  predicate Matches(images: seq<Image>, rects: seq<Rect>) {
    |images| == |rects| &&
    forall k :: 0 <= k < |rects| ==> rects[k] == Footprint(images[k], rects[k].x, rects[k].y)
  }

  /** The colour of pixel (a, b) after copying images[0] .. images[n - 1], in
      order, each at the corner of its rectangle, onto a transparent buffer:
      the last copy that covers the pixel decides it. */
  function Composite(images: seq<Image>, rects: seq<Rect>, n: nat, a: int, b: int): Rgba
    requires |images| == |rects| && n <= |images|
  {
    if n == 0 then Transparent
    else if Contains(Footprint(images[n - 1], rects[n - 1].x, rects[n - 1].y), a, b)
    then PixelAt(images[n - 1], a - rects[n - 1].x, b - rects[n - 1].y)
    else Composite(images, rects, n - 1, a, b)
  }

  /** With non-overlapping placements no copy clobbers another: once copies
      0 .. n - 1 are done, every pixel inside placement i < n shows image i. */
  lemma {:induction false} CompositeShowsEachImage(images: seq<Image>, rects: seq<Rect>, n: nat, i: nat, a: int, b: int)
    requires Matches(images, rects) && PairwiseDisjoint(rects)
    requires i < n <= |rects| && Contains(rects[i], a, b)
    ensures Composite(images, rects, n, a, b) == PixelAt(images[i], a - rects[i].x, b - rects[i].y)
    decreases n
  {
    if i < n - 1 {
      DisjointIffNoCommonPixel(rects[i], rects[n - 1]);
      assert !Contains(rects[n - 1], a, b);
      CompositeShowsEachImage(images, rects, n - 1, i, a, b);
    }
  }

  /** A pixel outside every placement stays transparent. */
  lemma {:induction false} CompositeOutsideIsTransparent(images: seq<Image>, rects: seq<Rect>, n: nat, a: int, b: int)
    requires Matches(images, rects) && n <= |rects|
    requires forall k :: 0 <= k < |rects| ==> !Contains(rects[k], a, b)
    ensures Composite(images, rects, n, a, b) == Transparent
    decreases n
  {
    if n > 0 {
      assert !Contains(rects[n - 1], a, b);
      CompositeOutsideIsTransparent(images, rects, n - 1, a, b);
    }
  }
}
