/** Mask building: get_segmentation_mask, object_detection/fingers2.py:33-55.
    The grayscale conversion (cv2.cvtColor) is OpenCV's; the model receives
    the grayscale array it produces together with the input's shape. */
module Mask {
  import opened Outcomes

  /** An 8-bit pixel value, the dtype of both the grayscale image and the mask. */
  type Byte = x: int | 0 <= x < 256

  const DefaultThreshold: int := 11
  const Foreground: Byte := 255
  const Background: Byte := 0

  /** A numpy shape that get_segmentation_mask accepts: three axes, three channels. */
  predicate IsRgbShape(shape: seq<nat>)
  {
    |shape| == 3 && shape[2] == 3
  }

  /** g has h rows of w pixels each. */
  predicate IsGrid(g: seq<seq<Byte>>, h: nat, w: nat)
  {
    |g| == h && forall i :: 0 <= i < h ==> |g[i]| == w
  }

  function ThresholdRow(row: seq<Byte>, threshold: int): seq<Byte>
  {
    seq(|row|, j requires 0 <= j < |row| => if row[j] > threshold then Foreground else Background)
  }

  /** np.where(gray > threshold, 255, 0).astype(np.uint8) */
  function Threshold(gray: seq<seq<Byte>>, threshold: int): seq<seq<Byte>>
  {
    seq(|gray|, i requires 0 <= i < |gray| => ThresholdRow(gray[i], threshold))
  }

  /** The mask of an image of the given shape whose grayscale conversion is gray. */
  function SegmentationMask(shape: seq<nat>, gray: seq<seq<Byte>>, threshold: int := DefaultThreshold): (r: Result<seq<seq<Byte>>>)
    requires IsRgbShape(shape) ==> IsGrid(gray, shape[0], shape[1])
    ensures r.Err? <==> !IsRgbShape(shape) || shape[0] == 0 || shape[1] == 0
    ensures !IsRgbShape(shape) ==> r == Err(NotRgbImage(shape))
    ensures IsRgbShape(shape) && (shape[0] == 0 || shape[1] == 0) ==> r == Err(EmptyImage)
    ensures r.Ok? ==> IsGrid(r.value, shape[0], shape[1])
  {
    if !IsRgbShape(shape) then Err(NotRgbImage(shape))
    else if shape[0] == 0 || shape[1] == 0 then Err(EmptyImage)
    else Ok(Threshold(gray, threshold))
  }

  /** With no threshold given, a pixel is foreground exactly when its
      grayscale value is above 11. */
  lemma DefaultThresholdPixel(shape: seq<nat>, gray: seq<seq<Byte>>, i: nat, j: nat)
    requires IsRgbShape(shape) && IsGrid(gray, shape[0], shape[1])
    requires i < shape[0] && j < shape[1]
    ensures SegmentationMask(shape, gray).Ok?
    ensures SegmentationMask(shape, gray).value[i][j] == Foreground <==> gray[i][j] >= 12
  {
    MaskPixel(shape, gray, DefaultThreshold, i, j);
  }

  /** Each mask pixel is 255 exactly when its grayscale value exceeds the
      threshold, and 0 exactly when it does not. */
  lemma MaskPixel(shape: seq<nat>, gray: seq<seq<Byte>>, threshold: int, i: nat, j: nat)
    requires IsRgbShape(shape) && IsGrid(gray, shape[0], shape[1])
    requires i < shape[0] && j < shape[1]
    ensures SegmentationMask(shape, gray, threshold).Ok?
    ensures SegmentationMask(shape, gray, threshold).value[i][j] == Foreground <==> gray[i][j] > threshold
    ensures SegmentationMask(shape, gray, threshold).value[i][j] == Background <==> gray[i][j] <= threshold
  {
  }

  /** The mask is binary: every pixel is 0 or 255. */
  lemma MaskIsBinary(shape: seq<nat>, gray: seq<seq<Byte>>, threshold: int)
    requires IsRgbShape(shape) && IsGrid(gray, shape[0], shape[1]) && shape[0] > 0 && shape[1] > 0
    ensures var m := SegmentationMask(shape, gray, threshold).value;
      forall i, j :: 0 <= i < shape[0] && 0 <= j < shape[1] ==> m[i][j] in {Background, Foreground}
  {
  }

  /** Raising the threshold can only turn foreground pixels into background. */
  lemma MaskShrinksWithThreshold(shape: seq<nat>, gray: seq<seq<Byte>>, t1: int, t2: int, i: nat, j: nat)
    requires IsRgbShape(shape) && IsGrid(gray, shape[0], shape[1])
    requires t1 <= t2 && i < shape[0] && j < shape[1]
    requires SegmentationMask(shape, gray, t2).Ok? && SegmentationMask(shape, gray, t2).value[i][j] == Foreground
    ensures SegmentationMask(shape, gray, t1).value[i][j] == Foreground
  {
    MaskPixel(shape, gray, t2, i, j);
    MaskPixel(shape, gray, t1, i, j);
  }
}
