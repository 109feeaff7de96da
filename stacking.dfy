/** Where the vertical and horizontal layouts put each image
    (src/sprite.rs:83-114, 199-229). Vertically, image i sits at x = 0 and
    y = the sum of the heights of the images before it, on a canvas as wide
    as the widest image and as tall as all heights together; horizontally the
    same with the axes exchanged. Both are "stack along an axis". */
module Stacking {
  import opened Geometry
  import opened Images
  import opened Css
  import opened Canvas
  import opened Wrappers

  /** The canvas of a stack: the sum of the extents along the stacking axis,
      the largest extent across it (the folds at src/sprite.rs:85-87, 200-202). */
  function StackedWidth(images: seq<Image>, along: Axis): nat {
    if along == Y then MaxExtent(images, X) else SumExtent(images, X)
  }

  function StackedHeight(images: seq<Image>, along: Axis): nat {
    if along == Y then SumExtent(images, Y) else MaxExtent(images, Y)
  }

  /** The coordinate of r along the axis. */
  function Start(r: Rect, along: Axis): nat {
    if along == Y then r.y else r.x
  }

  /** Image i at the running total (`y_offset` / `x_offset`) along the axis. */
  function Place(images: seq<Image>, along: Axis, i: nat): Rect
    requires i < |images|
  {
    var offset := SumExtent(images[..i], along);
    if along == Y then Footprint(images[i], 0, offset) else Footprint(images[i], offset, 0)
  }

  function Stacked(images: seq<Image>, along: Axis): (rs: seq<Rect>)
    ensures |rs| == |images|
  {
    seq(|images|, i requires 0 <= i < |images| => Place(images, along, i))
  }

  /** The CSS rule for an image placed at r: the running offset negated along
      the axis, the literal `0px` across it, and the image's own size. */
  function StackedRule(img: Image, r: Rect, along: Axis): Rule {
    if along == Y then Rule(img.name, Zero, Neg(r.y), img.width, img.height)
    else Rule(img.name, Neg(r.x), Zero, img.width, img.height)
  }

  function StackedRules(images: seq<Image>, along: Axis): (rules: seq<Rule>)
    ensures |rules| == |images|
  {
    var rects := Stacked(images, along);
    seq(|images|, i requires 0 <= i < |images| => StackedRule(images[i], rects[i], along))
  }

  /** One step of a stack layout loop: image i goes at the running total,
      its rule extends the stylesheet of the rules before it, and the running
      total grows by the image's extent. */
  lemma StackedStep(images: seq<Image>, along: Axis, i: nat)
    requires i < |images|
    ensures var offset := SumExtent(images[..i], along);
      var rule := if along == Y then Rule(images[i].name, Zero, Neg(offset), images[i].width, images[i].height)
                  else Rule(images[i].name, Neg(offset), Zero, images[i].width, images[i].height);
      Stacked(images, along)[i] == (if along == Y then Footprint(images[i], 0, offset) else Footprint(images[i], offset, 0)) &&
      Stylesheet(StackedRules(images, along)[..i + 1]) == Stylesheet(StackedRules(images, along)[..i]) + RuleText(rule) &&
      SumExtent(images[..i + 1], along) == offset + Extent(images[i], along)
  {
    StylesheetStep(StackedRules(images, along), i);
    SumExtentStep(images, along, i);
  }

  lemma StackedMatches(images: seq<Image>, along: Axis)
    ensures Matches(images, Stacked(images, along))
  {
  }

  /** Every placement lies inside the canvas. */
  lemma StackedWithin(images: seq<Image>, along: Axis)
    ensures AllWithin(Stacked(images, along), StackedWidth(images, along), StackedHeight(images, along))
  {
    var rs := Stacked(images, along);
    assert images[..|images|] == images;
    forall i | 0 <= i < |rs|
      ensures Within(rs[i], StackedWidth(images, along), StackedHeight(images, along))
    {
      SumExtentMonotone(images, along, i, |images|);
    }
  }

  /** No two placements overlap. */
  lemma StackedDisjoint(images: seq<Image>, along: Axis)
    ensures PairwiseDisjoint(Stacked(images, along))
  {
    var rs := Stacked(images, along);
    forall i, j | 0 <= i < j < |rs| ensures Disjoint(rs[i], rs[j]) {
      SumExtentMonotone(images, along, i, j);
    }
  }

  /** Image i starts along the axis where image i - 1 ends. */
  lemma PlaceFollows(images: seq<Image>, along: Axis, i: nat)
    requires 0 < i < |images|
    ensures Start(Place(images, along, i), along) == Start(Place(images, along, i - 1), along) + Extent(images[i - 1], along)
  {
    SumExtentStep(images, along, i - 1);
  }

  /** The last image ends at the canvas edge along the axis. */
  lemma PlaceLastEnds(images: seq<Image>, along: Axis)
    requires |images| > 0
    ensures Start(Place(images, along, |images| - 1), along) + Extent(images[|images| - 1], along) == SumExtent(images, along)
  {
    SumExtentStep(images, along, |images| - 1);
    assert images[..|images|] == images;
  }

  /** The placements tile the stacking axis without gaps: the first starts
      at 0, each starts where the one before it ends, the last ends at the
      canvas edge, and all start at 0 across the axis. */
  lemma StackedTiles(images: seq<Image>, along: Axis)
    ensures var rs := Stacked(images, along);
      (forall i :: 0 <= i < |rs| ==> Start(rs[i], Other(along)) == 0) &&
      (|rs| > 0 ==> Start(rs[0], along) == 0) &&
      (forall i, j :: 0 <= i && j == i + 1 && j < |rs| ==> Start(rs[j], along) == Start(rs[i], along) + Extent(images[i], along)) &&
      (|rs| > 0 ==> Start(rs[|rs| - 1], along) + Extent(images[|rs| - 1], along) == SumExtent(images, along))
  {
    var rs := Stacked(images, along);
    forall i, j | 0 <= i && j == i + 1 && j < |rs|
      ensures Start(rs[j], along) == Start(rs[i], along) + Extent(images[i], along)
    {
      PlaceFollows(images, along, j);
    }
    if |rs| > 0 {
      PlaceLastEnds(images, along);
    }
  }

  /** Line i of the stylesheet reads back as image i's name, the negated
      running offset along the axis, `0px` across it, and its size. */
  lemma StackedRuleReadsBack(images: seq<Image>, along: Axis, i: nat)
    requires i < |images|
    ensures var offset := Neg(SumExtent(images[..i], along));
      ParseRule(RuleText(StackedRules(images, along)[i])) ==
      Some(Rule(images[i].name, if along == Y then Zero else offset, if along == Y then offset else Zero,
                images[i].width, images[i].height))
  {
    RuleRoundTrip(StackedRules(images, along)[i]);
  }

  /** The two-image example: a 10 x 20 and a 30 x 5 image give a 30 x 25
      vertical sprite with b at (0, 20), and a 40 x 20 horizontal one with b
      at (10, 0). */
  lemma TwoImageExample(a: Image, b: Image)
    requires a.width == 10 && a.height == 20 && b.width == 30 && b.height == 5
    ensures StackedWidth([a, b], Y) == 30 && StackedHeight([a, b], Y) == 25
    ensures Stacked([a, b], Y) == [Rect(0, 0, 10, 20), Rect(0, 20, 30, 5)]
    ensures StackedWidth([a, b], X) == 40 && StackedHeight([a, b], X) == 20
    ensures Stacked([a, b], X) == [Rect(0, 0, 10, 20), Rect(10, 0, 30, 5)]
  {
    var s := [a, b];
    assert s[..0] == [] && s[..1] == [a] && s[..2] == s;
    assert [a][..0] == [];
    assert SumExtent([a], Y) == 20 && SumExtent([a], X) == 10;
    assert MaxExtent([a], X) == 10 && MaxExtent([a], Y) == 20;
  }
}
