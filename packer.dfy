/** The rectangle packer the packed layout drives (`rect_packer::Packer`,
    src/sprite.rs:161-167, 174-175). The layout relies only on the contract
    of Pack: a granted rectangle has the requested size, lies inside the
    packer's width x height, and overlaps nothing granted before; otherwise
    the answer is None. The body behind that contract is a simple shelf
    packer: rectangles go left to right along the current shelf, and a new
    shelf opens on top of the previous one when a request does not fit. */
module RectPacker {
  import opened Geometry
  import opened Wrappers

  class Packer {
    const width: nat
    const height: nat
    /** Every rectangle granted so far, in request order. */
    var packed: seq<Rect>
    /** The current shelf is the band [shelfTop, shelfTop + shelfHeight). */
    var shelfTop: nat
    var shelfHeight: nat
    /** The first free column of the current shelf. */
    var cursor: nat

    ghost predicate Valid()
      reads this
    {
      shelfTop + shelfHeight <= height && cursor <= width &&
      forall k :: 0 <= k < |packed| ==>
        Within(packed[k], width, height) &&
        (packed[k].y + packed[k].h <= shelfTop ||
         (packed[k].y == shelfTop && packed[k].x + packed[k].w <= cursor && packed[k].h <= shelfHeight))
    }

    /** `Packer::new(Config { width, height, .. })`: nothing packed yet. */
    constructor (width: nat, height: nat)
      ensures Valid()
      ensures this.width == width && this.height == height && packed == []
    {
      this.width := width;
      this.height := height;
      packed := [];
      shelfTop, shelfHeight, cursor := 0, 0, 0;
    }

    /** `pack(w, h, false)`: a w x h rectangle inside the packer that does not
        overlap any earlier one, or None. */
    method Pack(w: nat, h: nat) returns (r: Option<Rect>)
      requires Valid()
      modifies this
      ensures Valid()
      ensures r.Some? ==>
        r.value.w == w && r.value.h == h && Within(r.value, width, height) &&
        (forall k :: 0 <= k < |old(packed)| ==> Disjoint(old(packed)[k], r.value)) &&
        packed == old(packed) + [r.value]
      ensures r.None? ==> packed == old(packed)
    {
      if cursor + w <= width && shelfTop + h <= height {
        var rect := Rect(cursor, shelfTop, w, h);
        packed := packed + [rect];
        cursor := cursor + w;
        if shelfHeight < h {
          shelfHeight := h;
        }
        r := Some(rect);
      } else if w <= width && shelfTop + shelfHeight + h <= height {
        shelfTop := shelfTop + shelfHeight;
        var rect := Rect(0, shelfTop, w, h);
        packed := packed + [rect];
        cursor, shelfHeight := w, h;
        r := Some(rect);
      } else {
        r := None;
      }
    }
  }
}
