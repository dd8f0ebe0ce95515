/** Image geometry used when a photo replaces a shape.

    "Cover" crops the photo to the aspect ratio of the shape, keeping the
    centre; "fit" (contain) scales the photo so that it fits inside the shape
    and centres it. The source computes with floats; this model uses exact
    rational arithmetic, so `int(x)` of a non-negative ratio becomes floor
    division. */
module Geometry {
  import opened Wrappers

  /** Position and size of a shape on a slide, in EMU. */
  datatype Bounds = Bounds(left: int, top: int, width: nat, height: nat)

  /** A crop rectangle `(left, upper, right, lower)` in image pixels. */
  datatype CropBox = CropBox(left: int, top: int, right: int, bottom: int)

  /** Python raises `ZeroDivisionError` where a ratio has a zero denominator. */
  datatype GeometryError = DivisionByZero

  /** `b * q <= a < b * (q + 1)`: `q` is `a / b` rounded down. */
  predicate IsFloorDiv(q: int, a: int, b: int) {
    q * b <= a < (q + 1) * b
  }

  lemma FloorDivFacts(a: nat, b: nat)
    requires b > 0
    ensures IsFloorDiv(a / b, a, b)
    ensures a / b >= 0
  {
  }

  lemma FloorDivAtMost(a: nat, b: nat, c: nat)
    requires b > 0 && a <= c * b
    ensures a / b <= c
  {
    FloorDivFacts(a, b);
    assert (a / b - c) * b <= 0;
  }

  /** Floor division of an exact multiple. */
  lemma FloorDivOfMultiple(q: int, c: int, b: int)
    requires b > 0 && IsFloorDiv(q, c * b, b)
    ensures q == c
  {
    assert (q - c) * b <= 0;
    assert (c - q) * b < b;
  }

  /** The image is strictly wider than the target box: `img_w / img_h >
      target_w / target_h`, cross-multiplied. */
  predicate WiderThanTarget(imgW: nat, imgH: nat, targetW: nat, targetH: nat) {
    imgW * targetH > targetW * imgH
  }

  /** `_crop_to_ratio`: the centred crop box that gives the image the aspect
      ratio of the target box. A wider image keeps its full height and loses
      columns left and right; otherwise it keeps its full width and loses
      rows at top and bottom. */
  function CoverCrop(imgW: nat, imgH: nat, targetW: nat, targetH: nat): (r: Result<CropBox, GeometryError>)
    ensures r.Success? <==>
      targetH > 0 && imgH > 0 && (WiderThanTarget(imgW, imgH, targetW, targetH) || targetW > 0)
    // the box lies inside the image
    ensures r.Success? ==>
      0 <= r.value.left <= r.value.right <= imgW && 0 <= r.value.top <= r.value.bottom <= imgH
    // a wider image keeps its full height; the width follows the target ratio
    ensures r.Success? && WiderThanTarget(imgW, imgH, targetW, targetH) ==>
      && r.value.top == 0 && r.value.bottom == imgH
      && IsFloorDiv(r.value.right - r.value.left, targetW * imgH, targetH)
    // otherwise the full width is kept; the height follows the target ratio
    ensures r.Success? && !WiderThanTarget(imgW, imgH, targetW, targetH) ==>
      && r.value.left == 0 && r.value.right == imgW
      && IsFloorDiv(r.value.bottom - r.value.top, imgW * targetH, targetW)
    // centred: the far margin is the near one, or one pixel more
    ensures r.Success? ==>
      && r.value.left <= imgW - r.value.right <= r.value.left + 1
      && r.value.top <= imgH - r.value.bottom <= r.value.top + 1
  {
    if targetH == 0 || imgH == 0 then Failure(DivisionByZero)
    else if WiderThanTarget(imgW, imgH, targetW, targetH) then
      var newW := targetW * imgH / targetH;
      FloorDivFacts(targetW * imgH, targetH);
      FloorDivAtMost(targetW * imgH, targetH, imgW);
      var x0 := (imgW - newW) / 2;
      Success(CropBox(x0, 0, x0 + newW, imgH))
    else if targetW == 0 then Failure(DivisionByZero)
    else
      var newH := imgW * targetH / targetW;
      FloorDivFacts(imgW * targetH, targetW);
      FloorDivAtMost(imgW * targetH, targetW, imgH);
      var y0 := (imgH - newH) / 2;
      Success(CropBox(0, y0, imgW, y0 + newH))
  }

  /** An image that already has the target's aspect ratio is not cropped. */
  lemma CoverCropOfMatchingRatio(imgW: nat, imgH: nat, targetW: nat, targetH: nat)
    requires imgW > 0 && imgH > 0 && targetW > 0 && targetH > 0
    requires imgW * targetH == targetW * imgH
    ensures CoverCrop(imgW, imgH, targetW, targetH) == Success(CropBox(0, 0, imgW, imgH))
  {
    var r := CoverCrop(imgW, imgH, targetW, targetH);
    var h := r.value.bottom - r.value.top;
    FloorDivOfMultiple(h, imgH, targetW);
  }

  function Max1(x: int): int {
    if x < 1 then 1 else x
  }

  /** The box is relatively narrower than the image, so the scale factor is
      `box_w / img_w` (Python's `min` keeps its first argument on a tie). */
  predicate WidthBound(imgW: nat, imgH: nat, boxW: nat, boxH: nat) {
    boxW * imgH <= boxH * imgW
  }

  /** `_compute_contain_size`: the largest size with the image's aspect ratio
      (rounded down) that fits the box, never below one pixel either way. */
  function ContainSize(imgW: nat, imgH: nat, boxW: nat, boxH: nat): (r: Result<(int, int), GeometryError>)
    ensures r.Success? <==> imgW > 0 && imgH > 0
    ensures r.Success? ==> r.value.0 >= 1 && r.value.1 >= 1
    // within a box of at least 1x1 neither side exceeds the box ...
    ensures r.Success? && boxW >= 1 && boxH >= 1 ==> r.value.0 <= boxW && r.value.1 <= boxH
    // ... and the bounding side touches it
    ensures r.Success? && WidthBound(imgW, imgH, boxW, boxH) ==>
      && r.value.0 == Max1(boxW)
      && (r.value.1 == 1 || IsFloorDiv(r.value.1, imgH * boxW, imgW))
      && (r.value.1 == 1 ==> imgH * boxW < 2 * imgW)
    ensures r.Success? && !WidthBound(imgW, imgH, boxW, boxH) ==>
      && r.value.1 == Max1(boxH)
      && (r.value.0 == 1 || IsFloorDiv(r.value.0, imgW * boxH, imgH))
      && (r.value.0 == 1 ==> imgW * boxH < 2 * imgH)
  {
    if imgW == 0 || imgH == 0 then Failure(DivisionByZero)
    else if WidthBound(imgW, imgH, boxW, boxH) then
      FloorDivFacts(imgH * boxW, imgW);
      FloorDivAtMost(imgH * boxW, imgW, boxH);
      Success((Max1(boxW), Max1(imgH * boxW / imgW)))
    else
      FloorDivFacts(imgW * boxH, imgH);
      FloorDivAtMost(imgW * boxH, imgH, boxW);
      Success((Max1(imgW * boxH / imgH), Max1(boxH)))
  }

  /** A box with the image's own aspect ratio is filled exactly. */
  lemma ContainOfMatchingRatio(imgW: nat, imgH: nat, boxW: nat, boxH: nat)
    requires imgW > 0 && imgH > 0 && boxW > 0 && boxH > 0
    requires boxW * imgH == boxH * imgW
    ensures ContainSize(imgW, imgH, boxW, boxH) == Success((boxW, boxH))
  {
    var r := ContainSize(imgW, imgH, boxW, boxH);
    assert WidthBound(imgW, imgH, boxW, boxH);
    assert imgH * boxW == boxH * imgW;
    if r.value.1 != 1 {
      assert IsFloorDiv(r.value.1, boxH * imgW, imgW);
      FloorDivOfMultiple(r.value.1, boxH, imgW);
    } else {
      assert (boxH - 2) * imgW < 0;
    }
  }

  /** Fit mode: the contain size centred in the shape's bounds, with the
      offsets `(width - new_w) // 2` and `(height - new_h) // 2` (for the
      divisor 2, Python's floor division and Dafny's `/` agree). */
  function FitPlacement(b: Bounds, imgW: nat, imgH: nat): (r: Result<Bounds, GeometryError>)
    ensures r.Success? <==> imgW > 0 && imgH > 0
    ensures r.Success? ==> r.value.width >= 1 && r.value.height >= 1
    // centred: the far margin equals the near one or exceeds it by one
    ensures r.Success? ==>
      && r.value.left - b.left <= (b.left + b.width) - (r.value.left + r.value.width) <= r.value.left - b.left + 1
      && r.value.top - b.top <= (b.top + b.height) - (r.value.top + r.value.height) <= r.value.top - b.top + 1
    // inside a shape of at least 1x1 the picture stays within the bounds
    ensures r.Success? && b.width >= 1 && b.height >= 1 ==>
      && b.left <= r.value.left && r.value.left + r.value.width <= b.left + b.width
      && b.top <= r.value.top && r.value.top + r.value.height <= b.top + b.height
  {
    match ContainSize(imgW, imgH, b.width, b.height)
    case Failure(e) => Failure(e)
    case Success((w, h)) =>
      Success(Bounds(b.left + (b.width - w) / 2, b.top + (b.height - h) / 2, w, h))
  }
}
