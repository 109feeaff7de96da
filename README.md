# A verified model of the another-css-sprite layout engine

another-css-sprite packs a directory of images into one sprite sheet plus a
stylesheet: one CSS rule per image, giving its background position and size.
This project models the layout engine in `src/sprite.rs` in Dafny:

- the dispatcher `build_sprite`
- the vertical layout `build_vertical` and the horizontal layout `build_horizontal`
- the bin-size guess `estimate_bin_size` and the packed layout `build_packed`
- the pixel blit `copy_from`
- the text of the CSS rule each layout emits

The model proves what each of these computes.

Modules, in dependency order:

- `Wrappers`: the `Option` type shared by the parser and the packer.
- `Geometry`: integer rectangles, containment, "inside the canvas", disjointness.
- `Images`: an image is a name, a width, a height and opaque RGBA pixels,
  `height` rows of `width` each, as decoding produces (`WellFormed`). Also
  the folds over an image list: the sum and the maximum of an extent, and the
  total area.
- `Css`: a rule's text, the concatenated stylesheet, and a parser that reads a
  rule back. The parser exists only to prove the text carries the name, both
  offsets and both sizes. The sprite tool itself never parses CSS.
- `Canvas`: the sprite buffer as an `array2` indexed `[x, y]`.
  - `CopyFrom` is the bounds-checked overwrite of `copy_from`.
  - `Composite` specifies the buffer after a sequence of copies.
- `RectPacker`: the packer of the `rect_packer` crate, as a class. The crate's
  source is not part of this model, so the class has the contract
  `build_packed` relies on. Its body is a simple shelf policy that meets that
  contract.
- `Estimator`: `estimate_bin_size`.
- `Stacking`: where the vertical and horizontal layouts put each image. The
  horizontal layout is the vertical one with the axes exchanged, so both are
  "stack along an axis" (`Axis = X | Y`).
- `Sprite`: the three builders and the dispatcher, with their error results.

The packed layout follows the code, not the usual description of a packed sprite:

- The canvas is exactly the estimator's `(width, height)`, never cropped.
- The estimate is not square: it is `(w, ceil(area / w))`, where `w` is the
  least `256 * 2^k` that is at least the widest image and whose square is at
  least the total area.
- For one 100 x 100 image the canvas is 256 x 40, so no placement of it fits
  (`Estimator.SingleSquareDoesNotFit`). Hence the packed layout returns the
  pack error naming that image, whatever the packer does
  (`Sprite.SingleSquarePackFails`).

## Model

| member | source | states |
|---|---|---|
| Images.MaxExtent | src/sprite.rs:85-87 | The `max` fold is the maximum: every extent is at most it, some image attains it, and it is 0 for an empty list. |
| Images.SumExtent | src/sprite.rs:85-87 | The `h_sum + img.height()` fold (and `w_sum + img.width()` at src/sprite.rs:200-202): the left fold from 0 of the extents along one axis, in input order. |
| Images.TotalArea | src/sprite.rs:117-122 | The area fold bounds every single image's area. |
| Images.WellFormed | src/sprite.rs:36-42 | A decoded image holds exactly `height` rows of `width` pixels. Every builder requires it of its inputs. |
| Images.PixelInside | src/sprite.rs:100 | For a well-formed image, the pixel at a position inside it is the stored pixel. The transparent fallback of `PixelAt` is never read by a copy. |
| Images.SumExtentMonotone | src/sprite.rs:98-111 | Each image ends (running total before it plus its extent) no later than the running total at any later index. |
| Geometry.DisjointIffNoCommonPixel | src/sprite.rs:174-175 | Two rectangles are disjoint exactly when no pixel lies in both, in both directions. |
| Canvas.NewCanvas | src/sprite.rs:95 | `ImageBuffer::new(w, h)` (also at src/sprite.rs:180 and 210): a fresh w x h buffer with every pixel transparent. |
| Canvas.CopyFrom | src/sprite.rs:100 | The blit succeeds exactly when the image fits at (x, y). On success, pixels inside the footprint show the image and all others keep their old value. On failure nothing changes. |
| Canvas.Composite | src/sprite.rs:98-111 | The buffer after copying images 0 .. n-1 in order onto a transparent buffer, each at its placement's corner, with plain overwrite: the last copy covering a pixel decides it. |
| Canvas.CompositeShowsEachImage | src/sprite.rs:98-111 | With pairwise-disjoint placements, after the first n copies every pixel inside placement i < n shows image i: no later copy clobbers it. |
| Canvas.CompositeOutsideIsTransparent | src/sprite.rs:95 | A pixel outside every placement keeps the transparent value of the fresh buffer. |
| Css.Decimal | src/sprite.rs:101-107 | `{}` formatting of an unsigned integer: a non-empty run of decimal digits, with a leading `0` exactly when the number is 0, so no padding. |
| Css.DecimalRoundTrip | src/sprite.rs:101-107 | `{}` formatting of an unsigned integer reads back as the same number. |
| Css.ParseBodyRoundTrip | src/sprite.rs:101-107 | The text after a rule's name reads back as its two offsets, its width and its height. |
| Css.OffsetText | src/sprite.rs:102 | A background-position term: the literal `0px`, or `-` then the offset in decimal then `px`. An offset of 0 in a `-{}px` slot prints as `-0px`, as in the source. |
| Css.Fields | src/sprite.rs:186 | The text after `background-position: `: the x term, a space, the y term, `; width: `, the width, `px; height: `, the height, and `px; }` then a newline. |
| Css.RuleText | src/sprite.rs:101-107 | The whole `format!` string of a rule: `.`, the name, a space, `{ background-position: `, then the fields. The vertical rule (x term `0px`, src/sprite.rs:101-107), the packed rule (both terms negated, src/sprite.rs:185-192) and the horizontal rule (y term `0px`, src/sprite.rs:216-222) are this text for different offsets. |
| Css.Stylesheet | src/sprite.rs:108 | The `css.push_str(css_rule)` accumulation (also at src/sprite.rs:193 and 223): the rules' texts concatenated in order, starting from the empty string. |
| Css.RuleRoundTrip | src/sprite.rs:185-192 | A rule's full text `.NAME { background-position: X Y; width: Wpx; height: Hpx; }` reads back as the same rule, whatever characters the name holds. |
| RectPacker.Packer.constructor | src/sprite.rs:161-167 | `Packer::new(Config { width, height, 0, 0 })`: a packer of exactly that bin size with no rectangle granted. |
| RectPacker.Packer.Pack | src/sprite.rs:167-175 | A granted rectangle has the requested size, lies inside the packer's bin and is disjoint from every earlier grant, and is appended to the grants. A refusal changes no grant. Both keep the packer's invariant. |
| Estimator.CeilDiv | src/sprite.rs:129-132 | Integer quotient plus one when there is a remainder is the quotient rounded up: area <= q * w and (q - 1) * w < area. |
| Estimator.DoublingKeepsMinimality | src/sprite.rs:125-126 | Doubling a width that does not cover keeps "no smaller width of the form 256 * 2^j covers". |
| Estimator.EstimateBinSize | src/sprite.rs:116-135 | The width is 256 * 2^k, at least the widest image, with square at least the total area, and no smaller width of that form qualifies. The height is the area divided by the width, rounded up. Hence width * height >= area, height <= width, and width <= 32768. The loop terminates. |
| Estimator.BinEstimateUnique | src/sprite.rs:139 | The estimate is a function of the images: any two results that meet the specification are equal. |
| Estimator.SingleSquareDoesNotFit | src/sprite.rs:129-134 | One 100 x 100 image gives a 256 x 40 canvas, into which no rectangle 100 high fits. |
| Stacking.Place | src/sprite.rs:98-111 | Image i in a stack: vertically at (0, sum of the heights before i), horizontally at (sum of the widths before i, 0) (src/sprite.rs:213-226), with its own size. |
| Stacking.Stacked | src/sprite.rs:98-111 | The placements of a stack: exactly one per image, in input order, image i at `Place(i)`. |
| Stacking.StackedRule | src/sprite.rs:101-107 | The rule a stack emits for an image: vertically `0px` and the negated y offset, horizontally the negated x offset and `0px` (src/sprite.rs:216-222), then the image's own width and height. |
| Stacking.StackedRules | src/sprite.rs:98-111 | One rule per image of the stack, in input order, rule i for image i at its placement. |
| Stacking.StackedWithin | src/sprite.rs:85-111 | Every stacked placement lies inside the (sum along the axis) x (max across it) canvas. |
| Stacking.StackedDisjoint | src/sprite.rs:98-111 | No two stacked placements overlap. |
| Stacking.StackedTiles | src/sprite.rs:98-111 | The stack tiles its axis without gaps. Every image starts at 0 across the axis. The first starts at 0 along it. Each starts where the previous one ends. The last ends at the total. |
| Stacking.StackedStep | src/sprite.rs:99-110 | Step i of the loop: image i is placed at the running total, its rule extends the stylesheet, and the running total grows by its extent. |
| Stacking.StackedRuleReadsBack | src/sprite.rs:216-222 | Rule i of a stacked layout reads back as the image's name, the negated running offset along the axis, `0px` across it, and the image's width and height. |
| Stacking.TwoImageExample | src/sprite.rs:83-114 | A 10 x 20 and a 30 x 5 image: the vertical sprite is 30 x 25 with the second image at (0, 20). The horizontal sprite is 40 x 20 with it at (10, 0). |
| Sprite.PackedRules | src/sprite.rs:185-192 | One packed rule per placement, in order: the image's name, `-x` and `-y` of its rectangle, and the image's width and height. |
| Sprite.PackedRuleReadsBack | src/sprite.rs:185-192 | Rule i of the packed layout reads back as the image's name, both coordinates of its placement negated, and its width and height. |
| Sprite.CopyNext | src/sprite.rs:184 | One `sprite.copy_from(img, x, y)?` of a layout loop: given that the first i images are in and rectangle i is image i's footprint inside the buffer, the copy succeeds and the first i + 1 images are in. |
| Sprite.SingleSquarePackFails | src/sprite.rs:170-178 | Whatever the packer does, the packed layout of a single 100 x 100 image returns the pack error naming that image: the estimated canvas is only 40 high. |
| Sprite.Render | src/sprite.rs:180-194 | Copying each image at its own footprint, inside the canvas, never fails. The buffer ends up as the in-order composite and the CSS as the in-order stylesheet. |
| Sprite.BuildVertical | src/sprite.rs:83-114 | If the maximum width or the total height is 0, the result is the dimension error. Otherwise the sprite is max-width x total-height and holds image i at (0, heights before i), and the CSS is one rule per image, in order. |
| Sprite.BuildHorizontal | src/sprite.rs:199-229 | The same as BuildVertical with the axes exchanged: a total-width x max-height canvas, image i at (widths before i, 0). |
| Sprite.BuildPacked | src/sprite.rs:137-197 | Images are packed in input order. On success: one placement per image, all inside, pairwise disjoint, on a canvas of exactly the estimator's size, and the sprite and CSS are rendered from them. On failure: the error names the first image the packer refused, and every earlier image had been placed. |
| Sprite.BuildSprite | src/sprite.rs:69-81 | An empty image list is an error before any layout runs. Otherwise the chosen layout's outcome is the result. |

## Left out

- Directory scanning, image decoding, and skipping files that do not decode (`Sprite::new`, src/sprite.rs:22-55): filesystem and image-library I/O. An image enters the model already decoded.
- Saving the sprite and writing the CSS file (`generate_sprite_and_css`, src/sprite.rs:57-67): I/O.
- The internals of `rect_packer::Packer`. That crate is not part of this model. `RectPacker.Packer` has only the contract `build_packed` depends on, and a shelf policy as its body. So the model does not predict which rectangles the real crate returns, or when it refuses.
- Pixel encoding: pixels are opaque RGBA values, and the blit copies them.
- The commented-out floating-point estimator (src/sprite.rs:140-157): dead code.
- Logging (`debug!`, `info!`, `warn!`).
- Sprite.BuildVertical, Sprite.BuildHorizontal: u32 overflow of the running sums is not modelled. A precondition keeps the sum below 2^32.
- Estimator.EstimateBinSize: u32 overflow in the area fold and in `bin_width * bin_width` and `bin_width *= 2` is not modelled. The precondition `PackedInRange` bounds the widest image by 32768 and the total area by 2^30, so no value exceeds 2^32. Its third conjunct, tallest image below 2^31, keeps `img.height() as i32` (src/sprite.rs:172) exact, including for a zero-width image whose area is 0. The width bound keeps `img.width() as i32` exact.
- Sprite.BuildPacked, Sprite.Render, Sprite.BuildVertical, Sprite.BuildHorizontal: `copy_from`'s error path is never taken, because every placement lies inside the canvas. The model proves this rather than returning the error.
- The `utils` HTML preview generator, the file renamer in `src/utils.rs`, and the CLI wiring in `src/main.rs`, `src/cli_args.rs` and `src/lib.rs`: I/O and plumbing, outside the layout engine.
