/** The canvas-size guess of the packed layout (`estimate_bin_size`,
    src/sprite.rs:116-135): the width is the smallest 256 * 2^k that is at
    least the widest image and whose square is at least the total image
    area; the height is the total area divided by that width, rounded up.
    The result is not square, and its height is only a lower bound for what
    the images need (see SingleSquareDoesNotFit). */
module Estimator {
  import opened Images
  import opened Geometry

  const MinBinWidth: nat := 256

  function Pow2(k: nat): (r: nat)
    ensures r >= 1
  {
    if k == 0 then 1 else 2 * Pow2(k - 1)
  }

  lemma {:induction false} Pow2StrictlyIncreasing(i: nat, j: nat)
    requires i < j
    ensures Pow2(i) < Pow2(j)
    decreases j
  {
    if i < j - 1 {
      Pow2StrictlyIncreasing(i, j - 1);
    }
  }

  /** w is 256 * 2^k for some k. */
  ghost predicate IsBinWidth(w: nat) {
    exists k: nat :: w == MinBinWidth * Pow2(k)
  }

  /** The loop's exit condition: w is at least the widest image and w * w at
      least the total area. */
  predicate Covers(w: nat, maxWidth: nat, area: nat) {
    maxWidth <= w && area <= w * w
  }

  /** q is a / d rounded up. */
  predicate IsCeilQuotient(q: int, a: nat, d: nat) {
    a <= q * d && (q - 1) * d < a
  }

  /** What `estimate_bin_size` returns for images: the least covering width of
      the form 256 * 2^k, and the rounded-up quotient of the area by it. */
  ghost predicate IsBinEstimate(images: seq<Image>, w: nat, h: nat) {
    var maxWidth, area := MaxExtent(images, X), TotalArea(images);
    IsBinWidth(w) && Covers(w, maxWidth, area) &&
    (forall k: nat :: MinBinWidth * Pow2(k) < w ==> !Covers(MinBinWidth * Pow2(k), maxWidth, area)) &&
    IsCeilQuotient(h, area, w)
  }

  /** The bounds under which the estimator's u32 arithmetic does not overflow
      (the area fold, `bin_width * bin_width`, `bin_width *= 2`) and the
      packer's i32 arguments are exact. */
  predicate PackedInRange(images: seq<Image>) {
    MaxExtent(images, X) <= 32768 && TotalArea(images) <= 0x4000_0000 && MaxExtent(images, Y) < 0x8000_0000
  }

  lemma MulMonotone(a: nat, b: nat, c: nat)
    requires a <= b
    ensures a * c <= b * c
  {
  }

  lemma CoversMonotone(v: nat, w: nat, maxWidth: nat, area: nat)
    requires Covers(v, maxWidth, area) && v <= w
    ensures Covers(w, maxWidth, area)
  {
    MulMonotone(v, w, v);
    MulMonotone(v, w, w);
  }

  /** One doubling keeps "no smaller width of the form 256 * 2^j covers". */
  lemma DoublingKeepsMinimality(w: nat, k: nat, maxWidth: nat, area: nat)
    requires w == MinBinWidth * Pow2(k) && !Covers(w, maxWidth, area)
    requires forall j: nat :: MinBinWidth * Pow2(j) < w ==> !Covers(MinBinWidth * Pow2(j), maxWidth, area)
    ensures forall j: nat :: MinBinWidth * Pow2(j) < 2 * w ==> !Covers(MinBinWidth * Pow2(j), maxWidth, area)
  {
    forall j: nat | MinBinWidth * Pow2(j) < 2 * w
      ensures !Covers(MinBinWidth * Pow2(j), maxWidth, area)
    {
      if j > k + 1 {
        Pow2StrictlyIncreasing(k + 1, j);
        assert false;
      } else if j == k + 1 {
        assert false;
      } else if j < k {
        Pow2StrictlyIncreasing(j, k);
      }
    }
  }

  /** `total_area / bin_width`, plus one when there is a remainder
      (src/sprite.rs:129-132): the quotient rounded up. */
  function CeilDiv(a: nat, d: nat): (q: nat)
    requires d > 0
    ensures IsCeilQuotient(q, a, d)
  {
    assert a == d * (a / d) + a % d;
    if a % d != 0 then a / d + 1 else a / d
  }

  /** A rounded-up quotient of at most d * d by d is at most d. */
  lemma CeilAtMostDivisor(q: int, a: nat, d: nat)
    requires IsCeilQuotient(q, a, d) && a <= d * d
    ensures q <= d
  {
    if q > d {
      MulMonotone(d, q - 1, d);
    }
  }

  method EstimateBinSize(images: seq<Image>) returns (width: nat, height: nat)
    requires PackedInRange(images)
    ensures IsBinEstimate(images, width, height)
    ensures Covers(width, MaxExtent(images, X), TotalArea(images))
    ensures forall k: nat :: MinBinWidth * Pow2(k) < width ==>
      !Covers(MinBinWidth * Pow2(k), MaxExtent(images, X), TotalArea(images))
    ensures IsCeilQuotient(height, TotalArea(images), width)
    ensures TotalArea(images) <= width * height && height <= width
    ensures width <= 32768
  {
    var area, maxWidth := TotalArea(images), MaxExtent(images, X);
    assert MinBinWidth * Pow2(7) == 32768;
    var w: int := MinBinWidth;
    ghost var k: nat := 0;
    while w < maxWidth || w * w < area
      invariant k <= 7 && w == MinBinWidth * Pow2(k)
      invariant forall j: nat :: MinBinWidth * Pow2(j) < w ==> !Covers(MinBinWidth * Pow2(j), maxWidth, area)
      decreases (maxWidth + area) as int - w
    {
      if k == 7 {
        assert false;
      }
      if maxWidth <= w {
        MulMonotone(1, w, w);
      }
      DoublingKeepsMinimality(w, k, maxWidth, area);
      w, k := 2 * w, k + 1;
    }
    if k < 7 {
      Pow2StrictlyIncreasing(k, 7);
    }
    width := w;
    height := CeilDiv(area, width);
    CeilAtMostDivisor(height, area, width);
  }

  /** The estimate is a function of the images: the canvas the packed layout
      allocates is exactly it. */
  lemma BinEstimateUnique(images: seq<Image>, w1: nat, h1: nat, w2: nat, h2: nat)
    requires IsBinEstimate(images, w1, h1) && IsBinEstimate(images, w2, h2)
    ensures w1 == w2 && h1 == h2
  {
    var k1: nat :| w1 == MinBinWidth * Pow2(k1);
    var k2: nat :| w2 == MinBinWidth * Pow2(k2);
    assert !(w1 < w2) && !(w2 < w1);
    if h1 < h2 {
      MulMonotone(h1, h2 - 1, w1);
    } else if h2 < h1 {
      MulMonotone(h2, h1 - 1, w1);
    }
  }

  /** A single 100 x 100 image gets a 256 x 40 canvas, into which no 100 x 100
      rectangle fits: the estimate's height is the area bound, not a packing
      bound. */
  lemma SingleSquareDoesNotFit(img: Image, w: nat, h: nat)
    requires img.width == 100 && img.height == 100
    requires IsBinEstimate([img], w, h)
    ensures w == 256 && h == 40
    ensures forall r: Rect :: r.h == img.height ==> !Within(r, w, h)
  {
    assert [img][..0] == [];
    assert MaxExtent([img], X) == 100 && TotalArea([img]) == 10000;
    assert Covers(MinBinWidth * Pow2(0), 100, 10000);
    var k: nat :| w == MinBinWidth * Pow2(k);
    assert w == 256;
  }
}
