/** Axis-aligned rectangles on the sprite canvas, in whole pixels.
    A rectangle covers the pixels [x, x + w) x [y, y + h). */
module Geometry {

  datatype Rect = Rect(x: nat, y: nat, w: nat, h: nat)

  /** The pixel (px, py) lies inside r. */
  predicate Contains(r: Rect, px: int, py: int) {
    r.x <= px < r.x + r.w && r.y <= py < r.y + r.h
  }

  /** r lies inside a width x height canvas. */
  predicate Within(r: Rect, width: nat, height: nat) {
    r.x + r.w <= width && r.y + r.h <= height
  }

  predicate IsEmpty(r: Rect) {
    r.w == 0 || r.h == 0
  }

  /** a and b do not overlap: one of them is empty, or they are separated
      along one of the two axes. */
  predicate Disjoint(a: Rect, b: Rect) {
    IsEmpty(a) || IsEmpty(b) ||
    a.x + a.w <= b.x || b.x + b.w <= a.x ||
    a.y + a.h <= b.y || b.y + b.h <= a.y
  }

  predicate AllWithin(rs: seq<Rect>, width: nat, height: nat) {
    forall i :: 0 <= i < |rs| ==> Within(rs[i], width, height)
  }

  predicate PairwiseDisjoint(rs: seq<Rect>) {
    forall i, j :: 0 <= i < j < |rs| ==> Disjoint(rs[i], rs[j])
  }

  /** Disjoint is exactly "no pixel is covered by both". */
  lemma DisjointIffNoCommonPixel(a: Rect, b: Rect)
    ensures Disjoint(a, b) <==> forall px, py :: !(Contains(a, px, py) && Contains(b, px, py))
  {
    if !Disjoint(a, b) {
      var px := if a.x < b.x then b.x else a.x;
      var py := if a.y < b.y then b.y else a.y;
      assert Contains(a, px, py) && Contains(b, px, py);
    }
  }

  /** Appending a rectangle disjoint from every earlier one keeps the
      sequence pairwise disjoint. */
  lemma PairwiseDisjointAppend(rs: seq<Rect>, r: Rect)
    requires PairwiseDisjoint(rs)
    requires forall k :: 0 <= k < |rs| ==> Disjoint(rs[k], r)
    ensures PairwiseDisjoint(rs + [r])
  {
    var t := rs + [r];
    forall i, j | 0 <= i < j < |t| ensures Disjoint(t[i], t[j]) {
      if j < |rs| {
        assert t[i] == rs[i] && t[j] == rs[j];
      } else {
        assert t[i] == rs[i] && t[j] == r;
      }
    }
  }
}
