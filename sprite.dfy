/** The three layout builders and the dispatcher of src/sprite.rs. Each
    builder allocates a transparent buffer, copies every image into it at its
    placement, and appends one CSS rule per image, in input order. */
module Sprite {
  import opened Geometry
  import opened Images
  import opened Css
  import opened Canvas
  import opened RectPacker
  import opened Estimator
  import opened Stacking
  import opened Wrappers

  datatype Layout = Horizontal | Vertical | Packed

  /** The errors the builders return: "No images found in input directory",
      "Invalid sprite dimensions: {w}x{h}", "Failed to pack image '{name}'". */
  datatype SpriteError = NoImages | InvalidDimensions(width: nat, height: nat) | PackFailed(name: string)

  datatype Result<T> = Ok(value: T) | Err(error: SpriteError)

  /** The sprite buffer and the stylesheet text. */
  datatype Output = Output(sprite: array2<Rgba>, css: string)

  /** The first value a u32 cannot hold. */
  const U32Limit: nat := 0x1_0000_0000

  /** out is a width x height buffer holding the images copied in order at
      rects, and its stylesheet is rules. */
  ghost predicate Shows(out: Output, images: seq<Image>, rects: seq<Rect>, rules: seq<Rule>, width: nat, height: nat)
    reads out.sprite
  {
    |images| == |rects| &&
    out.sprite.Length0 == width && out.sprite.Length1 == height &&
    (forall a, b :: 0 <= a < width && 0 <= b < height ==> out.sprite[a, b] == Composite(images, rects, |images|, a, b)) &&
    out.css == Stylesheet(rules)
  }

  /** What `build_vertical` (along Y) and `build_horizontal` (along X)
      return: the dimension error when the canvas would be empty, otherwise
      the stacked sprite and its rules. */
  ghost predicate StackedOutcome(images: seq<Image>, along: Axis, r: Result<Output>)
    reads if r.Ok? then {r.value.sprite} else {}
  {
    var w, h := StackedWidth(images, along), StackedHeight(images, along);
    if w == 0 || h == 0 then r == Err(InvalidDimensions(w, h))
    else r.Ok? && Shows(r.value, images, Stacked(images, along), StackedRules(images, along), w, h)
  }

  /** The rule `build_packed` emits for an image placed at r. */
  function PackedRules(images: seq<Image>, rects: seq<Rect>): (rules: seq<Rule>)
    requires |images| == |rects|
    ensures |rules| == |images|
  {
    seq(|images|, i requires 0 <= i < |images| => Rule(images[i].name, Neg(rects[i].x), Neg(rects[i].y), images[i].width, images[i].height))
  }

  /** Line i of the packed stylesheet reads back as image i's name, both
      coordinates of its placement negated, and its size. */
  lemma PackedRuleReadsBack(images: seq<Image>, rects: seq<Rect>, i: nat)
    requires |images| == |rects| && i < |images|
    ensures ParseRule(RuleText(PackedRules(images, rects)[i])) ==
      Some(Rule(images[i].name, Neg(rects[i].x), Neg(rects[i].y), images[i].width, images[i].height))
  {
    RuleRoundTrip(PackedRules(images, rects)[i]);
  }

  /** What `build_packed` returns, given the placements the packer granted:
      on success one placement per image in input order, inside the
      estimator's canvas (which is the sprite's exact size) and pairwise
      disjoint; on failure the error names the first image the packer
      rejected, every earlier one having been placed. */
  ghost predicate PackedOutcome(images: seq<Image>, r: Result<Output>, placements: seq<Rect>)
    reads if r.Ok? then {r.value.sprite} else {}
  {
    (r.Ok? ==>
      var w, h := r.value.sprite.Length0, r.value.sprite.Length1;
      Matches(images, placements) && IsBinEstimate(images, w, h) &&
      AllWithin(placements, w, h) && PairwiseDisjoint(placements) &&
      Shows(r.value, images, placements, PackedRules(images, placements), w, h)) &&
    (r.Err? ==>
      |placements| < |images| && r.error == PackFailed(images[|placements|].name) &&
      Matches(images[..|placements|], placements) && PairwiseDisjoint(placements))
  }

  /** A single 100 x 100 image cannot be packed: whatever the packer does,
      the packed layout returns the pack error naming that image. */
  lemma SingleSquarePackFails(img: Image, r: Result<Output>, placements: seq<Rect>)
    requires img.width == 100 && img.height == 100
    requires PackedOutcome([img], r, placements)
    ensures r.Err? && r.error == PackFailed(img.name)
  {
    if r.Ok? {
      SingleSquareDoesNotFit(img, r.value.sprite.Length0, r.value.sprite.Length1);
      assert false;
    }
  }

  /** True when the buffer holds exactly the first n images copied at their
      rectangles. */
  ghost predicate HoldsFirst(sprite: array2<Rgba>, images: seq<Image>, rects: seq<Rect>, n: nat)
    reads sprite
  {
    |images| == |rects| && n <= |images| &&
    forall a, b :: 0 <= a < sprite.Length0 && 0 <= b < sprite.Length1 ==>
      sprite[a, b] == Composite(images, rects, n, a, b)
  }

  /** One `sprite.copy_from(img, x, y)` of a layout loop: image i is copied
      at the corner of rects[i]. The copy cannot fail, since rects[i] is the
      image's footprint and lies inside the buffer. */
  method CopyNext(sprite: array2<Rgba>, img: Image, x: nat, y: nat, ghost images: seq<Image>, ghost rects: seq<Rect>, ghost i: nat)
    requires HoldsFirst(sprite, images, rects, i) && i < |images|
    requires img == images[i] && rects[i] == Footprint(img, x, y)
    requires Within(rects[i], sprite.Length0, sprite.Length1)
    modifies sprite
    ensures HoldsFirst(sprite, images, rects, i + 1)
  {
    var ok := CopyFrom(sprite, img, x, y);
    assert ok;
  }

  /** Copies images[i] at rects[i] for each i in order and appends rules[i]
      to the stylesheet; the blits cannot fail because every rectangle is the
      footprint of its image and lies inside the buffer. */
  method Render(images: seq<Image>, rects: seq<Rect>, rules: seq<Rule>, width: nat, height: nat) returns (out: Output)
    requires Matches(images, rects) && AllWithin(rects, width, height) && |rules| == |images|
    ensures fresh(out.sprite) && Shows(out, images, rects, rules, width, height)
  {
    var sprite := NewCanvas(width, height);
    var css := "";
    for i := 0 to |images|
      invariant sprite.Length0 == width && sprite.Length1 == height
      invariant HoldsFirst(sprite, images, rects, i)
      invariant css == Stylesheet(rules[..i])
    {
      CopyNext(sprite, images[i], rects[i].x, rects[i].y, images, rects, i);
      StylesheetStep(rules, i);
      css := css + RuleText(rules[i]);
    }
    assert rules[..|rules|] == rules;
    out := Output(sprite, css);
  }

  /** A stack layout that copied every image and appended every rule has
      produced the stacked outcome. */
  lemma StackedDone(images: seq<Image>, along: Axis, sprite: array2<Rgba>, css: string)
    requires StackedWidth(images, along) > 0 && StackedHeight(images, along) > 0
    requires sprite.Length0 == StackedWidth(images, along) && sprite.Length1 == StackedHeight(images, along)
    requires HoldsFirst(sprite, images, Stacked(images, along), |images|)
    requires css == Stylesheet(StackedRules(images, along)[..|images|])
    ensures StackedOutcome(images, along, Ok(Output(sprite, css)))
  {
    assert StackedRules(images, along)[..|images|] == StackedRules(images, along);
  }

  /** `build_vertical` (src/sprite.rs:83-114). */
  method BuildVertical(images: seq<Image>) returns (r: Result<Output>)
    requires SumExtent(images, Y) < U32Limit
    requires AllWellFormed(images)
    ensures StackedOutcome(images, Y, r)
    ensures r.Ok? ==> fresh(r.value.sprite)
  {
    var maxWidth, totalHeight := MaxExtent(images, X), SumExtent(images, Y);
    if maxWidth == 0 || totalHeight == 0 {
      return Err(InvalidDimensions(maxWidth, totalHeight));
    }
    var sprite := NewCanvas(maxWidth, totalHeight);
    var css := "";
    ghost var rects, rules := Stacked(images, Y), StackedRules(images, Y);
    StackedWithin(images, Y);
    var yOffset := 0;
    for i := 0 to |images|
      invariant yOffset == SumExtent(images[..i], Y)
      invariant HoldsFirst(sprite, images, rects, i)
      invariant css == Stylesheet(rules[..i])
    {
      var img := images[i];
      StackedStep(images, Y, i);
      CopyNext(sprite, img, 0, yOffset, images, rects, i);
      css := css + RuleText(Rule(img.name, Zero, Neg(yOffset), img.width, img.height));
      yOffset := yOffset + img.height;
    }
    StackedDone(images, Y, sprite, css);
    r := Ok(Output(sprite, css));
  }

  /** `build_horizontal` (src/sprite.rs:199-229). */
  method BuildHorizontal(images: seq<Image>) returns (r: Result<Output>)
    requires SumExtent(images, X) < U32Limit
    requires AllWellFormed(images)
    ensures StackedOutcome(images, X, r)
    ensures r.Ok? ==> fresh(r.value.sprite)
  {
    var totalWidth, maxHeight := SumExtent(images, X), MaxExtent(images, Y);
    if totalWidth == 0 || maxHeight == 0 {
      return Err(InvalidDimensions(totalWidth, maxHeight));
    }
    var sprite := NewCanvas(totalWidth, maxHeight);
    var css := "";
    ghost var rects, rules := Stacked(images, X), StackedRules(images, X);
    StackedWithin(images, X);
    var xOffset := 0;
    for i := 0 to |images|
      invariant xOffset == SumExtent(images[..i], X)
      invariant HoldsFirst(sprite, images, rects, i)
      invariant css == Stylesheet(rules[..i])
    {
      var img := images[i];
      StackedStep(images, X, i);
      CopyNext(sprite, img, xOffset, 0, images, rects, i);
      css := css + RuleText(Rule(img.name, Neg(xOffset), Zero, img.width, img.height));
      xOffset := xOffset + img.width;
    }
    StackedDone(images, X, sprite, css);
    r := Ok(Output(sprite, css));
  }

  /** `build_packed` (src/sprite.rs:137-197): pack every image in input
      order into a packer of the estimated size, failing on the first
      rejection; then copy the images at their rectangles into a buffer of
      exactly the estimated size and emit the rules. */
  method BuildPacked(images: seq<Image>) returns (r: Result<Output>, ghost placements: seq<Rect>)
    requires PackedInRange(images)
    requires AllWellFormed(images)
    ensures PackedOutcome(images, r, placements)
    ensures r.Ok? ==> fresh(r.value.sprite)
  {
    var width, height := EstimateBinSize(images);
    var packer := new Packer(width, height);
    var rects: seq<Rect> := [];
    for i := 0 to |images|
      invariant packer.Valid() && packer.width == width && packer.height == height
      invariant packer.packed == rects
      invariant Matches(images[..i], rects) && AllWithin(rects, width, height) && PairwiseDisjoint(rects)
    {
      var img := images[i];
      var rect := packer.Pack(img.width, img.height);
      if rect.None? {
        r, placements := Err(PackFailed(img.name)), rects;
        return;
      }
      PairwiseDisjointAppend(rects, rect.value);
      rects := rects + [rect.value];
      assert images[..i + 1] == images[..i] + [img];
    }
    assert images[..|images|] == images;
    var out := Render(images, rects, PackedRules(images, rects), width, height);
    r, placements := Ok(out), rects;
  }

  /** `build_sprite` (src/sprite.rs:69-81): an empty image list is an error
      before any layout runs; otherwise the chosen builder decides. */
  method BuildSprite(images: seq<Image>, layout: Layout) returns (r: Result<Output>, ghost placements: seq<Rect>)
    requires layout == Vertical ==> SumExtent(images, Y) < U32Limit
    requires layout == Horizontal ==> SumExtent(images, X) < U32Limit
    requires layout == Packed ==> PackedInRange(images)
    requires AllWellFormed(images)
    ensures images == [] ==> r == Err(NoImages)
    ensures images != [] && layout == Vertical ==> StackedOutcome(images, Y, r) && placements == Stacked(images, Y)
    ensures images != [] && layout == Horizontal ==> StackedOutcome(images, X, r) && placements == Stacked(images, X)
    ensures images != [] && layout == Packed ==> PackedOutcome(images, r, placements)
    ensures r.Ok? ==> fresh(r.value.sprite)
  {
    if images == [] {
      return Err(NoImages), [];
    }
    match layout
    case Vertical =>
      r := BuildVertical(images);
      placements := Stacked(images, Y);
    case Horizontal =>
      r := BuildHorizontal(images);
      placements := Stacked(images, X);
    case Packed =>
      r, placements := BuildPacked(images);
  }
}
