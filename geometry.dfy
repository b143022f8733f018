/**
 * The cover-and-centre-crop geometry of `resize_and_crop` (main.py:99-123).
 *
 * The Python code compares the floating-point ratios `w / h` and `tw / th`
 * and truncates products of a side with a ratio.  Here the comparison is
 * cross-multiplied and the truncation of a positive quotient is integer
 * division, which is exact where the floats are not.
 */
module Geometry {

  /** A width and a height in pixels. */
  datatype Size = Size(width: int, height: int)

  /** The crop rectangle handed to PIL's `crop`: (left, top, right, bottom). */
  datatype Box = Box(left: int, top: int, right: int, bottom: int)

  /** The size the image is first resized to, and the box then cut out of it. */
  datatype CoverCrop = CoverCrop(cover: Size, box: Box)

  predicate Positive(s: Size)
  {
    s.width > 0 && s.height > 0
  }

  /** `img_ratio > target_ratio`: the source is strictly wider than the target. */
  predicate WiderThan(src: Size, target: Size)
  {
    src.width * target.height > target.width * src.height
  }

  /** The quotient `a / b` of a non-negative `a` is the largest `q` with `q * b <= a`. */
  lemma DivIsFloor(a: int, b: int)
    requires a >= 0 && b > 0
    ensures (a / b) * b <= a < (a / b + 1) * b
  {
    assert a == (a / b) * b + a % b;
  }

  /** A positive factor can be cancelled from a strict inequality. */
  lemma MulCancel(x: int, y: int, b: int)
    requires b > 0 && x * b < y * b
    ensures x < y
  {
  }

  /** A quotient is at least `q` once the dividend reaches `q * b`. */
  lemma DivAtLeast(a: int, b: int, q: int)
    requires a >= 0 && b > 0 && q * b <= a
    ensures a / b >= q
  {
    DivIsFloor(a, b);
    MulCancel(q, a / b + 1, b);
  }

  /** Division is determined by the quotient-remainder decomposition. */
  lemma DivUnique(a: int, b: int, q: int, r: int)
    requires a >= 0 && b > 0 && a == q * b + r && 0 <= r < b
    ensures a / b == q
  {
    DivIsFloor(a, b);
    assert q * b <= a;
    MulCancel(q, a / b + 1, b);
    assert (a / b) * b <= a < (q + 1) * b;
    MulCancel(a / b, q + 1, b);
  }

  /**
   * The size the source is resized to so that it covers the target (main.py:105-112):
   * the side the aspect ratios pin is exactly the target's, the other side is the
   * source's ratio applied to it and truncated, and both are at least the target's.
   */
  function CoverSize(src: Size, target: Size): (r: Size)
    requires Positive(src) && Positive(target)
    ensures WiderThan(src, target) ==> r.height == target.height && r.width >= target.width
    ensures WiderThan(src, target) ==>
      r.width * src.height <= r.height * src.width < (r.width + 1) * src.height
    ensures !WiderThan(src, target) ==> r.width == target.width && r.height >= target.height
    ensures !WiderThan(src, target) ==>
      r.height * src.width <= r.width * src.height < (r.height + 1) * src.width
  {
    if WiderThan(src, target) then
      var w := (target.height * src.width) / src.height;
      DivIsFloor(target.height * src.width, src.height);
      DivAtLeast(target.height * src.width, src.height, target.width);
      Size(w, target.height)
    else
      var h := (target.width * src.height) / src.width;
      DivIsFloor(target.width * src.height, src.width);
      DivAtLeast(target.width * src.height, src.width, target.height);
      Size(target.width, h)
  }

  /**
   * The centred crop box of main.py:117-122: exactly the target's size, inside the
   * cover, with the left (top) margin equal to or one less than the right (bottom) one.
   */
  function CenteredBox(cover: Size, target: Size): (b: Box)
    requires 0 <= target.width <= cover.width && 0 <= target.height <= cover.height
    ensures b.right - b.left == target.width && b.bottom - b.top == target.height
    ensures 0 <= b.left && b.right <= cover.width && 0 <= b.top && b.bottom <= cover.height
    ensures b.left <= cover.width - b.right <= b.left + 1
    ensures b.top <= cover.height - b.bottom <= b.top + 1
  {
    var left := (cover.width - target.width) / 2;
    var top := (cover.height - target.height) / 2;
    Box(left, top, left + target.width, top + target.height)
  }

  /** The two margin conditions pin the box down: no other box is centred that way. */
  lemma CenteredBoxUnique(cover: Size, target: Size, b: Box)
    requires 0 <= target.width <= cover.width && 0 <= target.height <= cover.height
    requires b.right - b.left == target.width && b.bottom - b.top == target.height
    requires b.left <= cover.width - b.right <= b.left + 1
    requires b.top <= cover.height - b.bottom <= b.top + 1
    ensures b == CenteredBox(cover, target)
  {
    var extraW := cover.width - target.width;
    var extraH := cover.height - target.height;
    assert 2 * b.left <= extraW <= 2 * b.left + 1;
    assert 2 * b.top <= extraH <= 2 * b.top + 1;
    assert extraW / 2 == b.left;
    assert extraH / 2 == b.top;
  }

  /**
   * `resize_and_crop` (main.py:99-123): resize to the cover size, then cut the
   * centred target-sized box out of it, so that the result is exactly the target.
   */
  function ResizeAndCrop(src: Size, target: Size): (r: CoverCrop)
    requires Positive(src) && Positive(target)
    ensures r.cover.width >= target.width && r.cover.height >= target.height
    ensures r.box.right - r.box.left == target.width && r.box.bottom - r.box.top == target.height
    ensures 0 <= r.box.left && r.box.right <= r.cover.width
    ensures 0 <= r.box.top && r.box.bottom <= r.cover.height
    ensures r.cover == CoverSize(src, target) && r.box == CenteredBox(r.cover, target)
    ensures WiderThan(src, target) ==>
      r.cover.height == target.height && r.box.top == 0 && r.box.bottom == target.height
    ensures !WiderThan(src, target) ==>
      r.cover.width == target.width && r.box.left == 0 && r.box.right == target.width
  {
    var cover := CoverSize(src, target);
    CoverCrop(cover, CenteredBox(cover, target))
  }

  /** The quotient of `k * a` by `k * b` is that of `a` by `b`. */
  lemma DivScale(a: int, b: int, k: int)
    requires a >= 0 && b > 0 && k > 0
    ensures (k * a) / (k * b) == a / b
  {
    var q, r := a / b, a % b;
    assert a == q * b + r && 0 <= r < b;
    assert k * a == q * (k * b) + k * r;
    assert 0 <= k * r < k * b;
    DivUnique(k * a, k * b, q, k * r);
  }

  /**
   * Only the source's aspect ratio matters: scaling both source sides by the
   * same factor gives the same cover size and the same crop box.
   */
  lemma {:induction false} ScaledSourceSameCrop(src: Size, target: Size, k: int)
    requires Positive(src) && Positive(target) && k > 0
    ensures ResizeAndCrop(Size(k * src.width, k * src.height), target) == ResizeAndCrop(src, target)
  {
    var big := Size(k * src.width, k * src.height);
    assert big.width * target.height == k * (src.width * target.height);
    assert target.width * big.height == k * (target.width * src.height);
    assert WiderThan(big, target) == WiderThan(src, target);
    if WiderThan(src, target) {
      assert target.height * big.width == k * (target.height * src.width);
      DivScale(target.height * src.width, src.height, k);
    } else {
      assert target.width * big.height == k * (target.width * src.height);
      DivScale(target.width * src.height, src.width, k);
    }
  }

  /**
   * A source with exactly the target's aspect ratio is resized straight to the
   * target and the crop box is the whole image ("taller (or equal ratio)" branch).
   */
  lemma EqualRatioNoCrop(src: Size, target: Size)
    requires Positive(src) && Positive(target)
    requires src.width * target.height == target.width * src.height
    ensures ResizeAndCrop(src, target) == CoverCrop(target, Box(0, 0, target.width, target.height))
  {
    assert !WiderThan(src, target);
    var h := CoverSize(src, target).height;
    assert h * src.width <= target.height * src.width;
    assert target.height * src.width < (h + 1) * src.width;
  }

  /** A 200x100 source cropped to 100x100 keeps the horizontal centre, 50 pixels in. */
  lemma WideSourceExample()
    ensures ResizeAndCrop(Size(200, 100), Size(100, 100))
         == CoverCrop(Size(200, 100), Box(50, 0, 150, 100))
  {
  }

  /** With an odd surplus the smaller half goes to the left: 301x100 to 100x100. */
  lemma OddSurplusExample()
    ensures ResizeAndCrop(Size(301, 100), Size(100, 100))
         == CoverCrop(Size(301, 100), Box(100, 0, 200, 100))
  {
  }
}
