# Finger ROI geometry of the nail-psoriasis pipeline, in Dafny

`object_detection/fingers2.py` turns a hand photograph into one cropped,
upright image per finger. Most of it calls OpenCV, mediapipe and a
background-removal service. This project models its own integer and
frame geometry and proves what that code promises:

- **Mask building** (`get_segmentation_mask`): the input must be H×W×3.
  Each mask pixel is 255 when its grayscale value exceeds the threshold
  (default 11), and 0 otherwise.
- **Largest-contour selection** (`extract_contour`): there is an error
  when no contour exists. Otherwise the contours are sorted by area,
  descending and stable, and the head is taken. That head is the earliest
  contour of largest area.
- **Nearest contour points** (`closest_contour_point`): a method with a
  loop, as in the source. For each landmark it splits the contour into a
  left set (`x <= lx`) and a right set (`x > lx`). Around the five
  fingertips both sets also require `y >= ly`. An empty set is replaced by
  the whole contour. In each set it takes the first point of least
  distance.
- **Portrait normalisation** (`get_bounding_box`): a landscape rotated
  rectangle has its sides swapped and its angle reduced by 90 degrees.
- **Crop-frame adjustment** (`adjust_for_roi_crop`) and the crop window
  cut out by `extract_roi`.
- **The point set of one finger's ROI**: `process_image`, lines 266-267.

Modules: `Outcomes` and `Geometry` hold the shared types. Then come
`Mask`, `ContourSelection`, `NearestContourPoint`, `BoundingBox`,
`RoiCrop` and `FingerPoints`, one per component. The source's two
`ValueError`s (fingers2.py:47 and :89), numpy's `ValueError` from
`np.argmin` on an empty array, and the `cv2.error` that `cvtColor` raises
on an empty image are each an `Err` of a `Result`.

Distances are squared integer distances. The square root is monotone, so
every comparison and every argmin comes out the same. Float centres and
sizes from `cv2.minAreaRect` are modelled as reals. Python's `//` on a
float is `Floor`, and `int()` is `RoiCrop.Trunc`.

The fingertip indices are a parameter `tips`, and so are a finger's
landmark indices. Both come from a constants module that is not part of
this model.

A landmark that is a contour point is its own left point
(`NearestContourPoint.LandmarkOnContour`). It is its own right point only
when no contour point passes the right-side filter and the whole contour
is searched (fingers2.py:131-132; `NearestContourPoint.LandmarkOnContourRight`).

## Model

| member | source | states |
|---|---|---|
| `Mask.SegmentationMask` | object_detection/fingers2.py:33-55 | for an 8-bit image: an error exactly when the shape does not have three axes with three channels (NotRgbImage) or the image is empty, which cv2.cvtColor rejects (EmptyImage); otherwise a mask of the input's H×W shape |
| `Mask.DefaultThresholdPixel` | object_detection/fingers2.py:33-55 | with the default threshold 11, a pixel is foreground exactly when its grayscale value is at least 12 |
| `Mask.MaskPixel` | object_detection/fingers2.py:53-55 | a mask pixel is 255 iff its grayscale value is greater than the threshold, and 0 iff it is not |
| `Mask.MaskIsBinary` | object_detection/fingers2.py:53-55 | every mask pixel is 0 or 255 |
| `Mask.MaskShrinksWithThreshold` | object_detection/fingers2.py:53 | a pixel that is foreground at a threshold is foreground at every lower threshold |
| `ContourSelection.TwiceArea` | object_detection/fingers2.py:92 | the sort key cv2.contourArea, as the absolute shoelace sum over the closed polygon (twice the area); a contour of fewer than three points encloses no area |
| `ContourSelection.Insert` | object_detection/fingers2.py:92 | stable insertion: one more element, the same multiset plus the new contour, and the new contour goes first unless the current head is strictly larger |
| `ContourSelection.InsertDescending` | object_detection/fingers2.py:92 | inserting into a descending list keeps it descending by area |
| `ContourSelection.SortByAreaDesc` | object_detection/fingers2.py:92 | the sorted list is a permutation of the contours, descending by area |
| `ContourSelection.FirstLargest` | object_detection/fingers2.py:91-95 | the index of a contour whose area no contour exceeds, with every earlier contour strictly smaller |
| `ContourSelection.SortHeadIsFirstLargest` | object_detection/fingers2.py:91-95 | the head of the stable descending sort is the earliest contour of largest area |
| `ContourSelection.ExtractContour` | object_detection/fingers2.py:83-95 | an error exactly when there is no contour; otherwise the earliest contour of largest area, whose area is at least every contour's |
| `NearestContourPoint.CandidatesMembers` | object_detection/fingers2.py:120-125 | a point is a candidate iff it is a contour point on the landmark's side (and, for a fingertip, not above it) |
| `NearestContourPoint.ArgMinIsFirstNearest` | object_detection/fingers2.py:135-142 | ArgMin gives a point of least distance, with every earlier point strictly farther (np.argmin's first occurrence) |
| `NearestContourPoint.ClosestContourPoint` | object_detection/fingers2.py:105-146 | an error exactly when the contour is empty and there is a landmark; otherwise one (left, right) pair per landmark, the k-th being that landmark's pair under the fingertip rule when k is a tip index |
| `NearestContourPoint.PickIsNearest` | object_detection/fingers2.py:128-142 | the chosen point is a contour point in the searched set, no point of that set is strictly closer, and every point before it in the set is strictly farther |
| `NearestContourPoint.PickInContour` | object_detection/fingers2.py:128-144 | both points of a pair are contour points |
| `NearestContourPoint.PickSide` | object_detection/fingers2.py:120-132 | the chosen point is on its side (and at or below a fingertip) whenever some contour point is; otherwise the whole contour is searched |
| `NearestContourPoint.SidesDisjoint` | object_detection/fingers2.py:121-125 | when neither side falls back, left.x <= lx < right.x, so the two points differ |
| `NearestContourPoint.LandmarkOnContour` | object_detection/fingers2.py:121-137 | a landmark that is a contour point is its own left point |
| `NearestContourPoint.LandmarkOnContourRight` | object_detection/fingers2.py:122-142 | a landmark that is a contour point is its own right point iff no contour point passes the right-side filter (the fallback to the whole contour) |
| `BoundingBox.GetBoundingBox` | object_detection/fingers2.py:182-186 | the result has width <= height, the same centre and the same pair of sides; the angle drops by 90 exactly when the input was landscape; a portrait input is unchanged |
| `BoundingBox.GetBoundingBoxIdempotent` | object_detection/fingers2.py:182-186 | normalising twice equals normalising once |
| `RoiCrop.Trunc` | object_detection/fingers2.py:241-242 | int() of a float: the integer next to it on the side of zero |
| `RoiCrop.CropOffsetOfIntegers` | object_detection/fingers2.py:241-242 | with an integer centre and size the crop offset is center - size // 2 |
| `RoiCrop.AdjustForRoiCrop` | object_detection/fingers2.py:229-246 | the point minus the crop offset int(center - size // 2), per axis; with an integer centre and size that is point − (center − size // 2) |
| `RoiCrop.AdjustRoundTrip` | object_detection/fingers2.py:241-246 | adding the crop offset back undoes the adjustment, and the other way round |
| `RoiCrop.AdjustLocatesWindow` | object_detection/fingers2.py:241-246 | a point is inside a crop window at the offset iff its adjusted coordinates are inside [0, w) × [0, h) |
| `RoiCrop.RoiLocal` | object_detection/fingers2.py:199-213 | corrected adjustment: a point is inside the region extract_roi crops iff its ROI coordinates are inside the ROI, and adding the crop origin back gives the point |
| `RoiCrop.AsWrittenShiftsUpLeft` | object_detection/fingers2.py:278-279 | adjusting with the unwidened rectangle size never yields coordinates larger than the ones inside the cropped ROI |
| `RoiCrop.AsWrittenMisplacesMarker` | object_detection/fingers2.py:278-279 | for a 40×40 box at (100, 100) the ROI's top-left pixel (77, 77) is adjusted to (-3, -3), outside the ROI |
| `FingerPoints.JointNeighbours` | object_detection/fingers2.py:266 | both contour neighbours of each joint, in joint order |
| `FingerPoints.FingerRoiPoints` | object_detection/fingers2.py:266-267 | the left and right points of each joint index in order, then the tip landmark: 2·n−1 points for n indices |
| `FingerPoints.NeighboursOnContour` | object_detection/fingers2.py:266 | the gathered neighbours are contour points whenever every pair they come from is |
| `FingerPoints.FingerPointsOnContour` | object_detection/fingers2.py:263-267 | with pairs from closest_contour_point, every ROI point except the last one (the tip landmark) is a contour point |

## Findings

| source | as written | input that shows it | evidently intended | confidence | as-written member | corrected member |
|---|---|---|---|---|---|---|
| object_detection/fingers2.py:278-279 | the joints are adjusted with `rect[1]`, the rectangle's own size, but `extract_roi` cropped with that size widened by 15% (lines 202-213) | a 40×40 rectangle at (100, 100) is cropped from (77, 77); the ROI's top-left pixel maps to (-3, -3), so markers are drawn 3 pixels up and left of the joint | adjust with the size that was cropped, so a joint is drawn where it appears in the ROI | medium, not executed | `RoiCrop.AsWrittenMisplacesMarker` | `RoiCrop.RoiLocal` |

## Left out

- OpenCV internals are foreign library calls whose code is not part of
  this model: the `cvtColor` weights, CLAHE in `increase_contrast`,
  `findContours`, `minAreaRect`, `getRotationMatrix2D`, `warpAffine`,
  `resize`, `copyMakeBorder`, `circle`, `line` and `imwrite`. The model
  takes their results as parameters. For `contourArea` it uses the
  shoelace formula (`ContourSelection.TwiceArea`).
- `transform_point` and the warp in `extract_roi` are floating-point
  matrix arithmetic. Only the crop window's offset and extent are
  modelled, with reals. Float rounding is not modelled. Clipping of the
  window at the image border is not modelled either, nor numpy's reading
  of a negative slice start.
- `resize_longest_edge_to_target` relies on a float aspect ratio and
  `cv2.resize`.
- `landmarks_to_pixel_coordinates` wraps `landmark_to_pixels`, which is
  not part of this model. Landmarks enter as integer points.
- `draw_landmarks_and_connections` only draws.
- Most of `process_image` is left out: mediapipe, `segmentation.bg.remove`,
  file writes, prints, the unused padded image and the empty-ROI check.
  They are I/O or foreign calls. Only the point gathering of lines
  266-267 is modelled.
- `Mask.SegmentationMask` models only 8-bit images: its grayscale input is
  typed as bytes. An image of another depth either makes `cv2.cvtColor`
  raise (float64, for one) or gives grayscale values outside 0..255
  (uint16, float32). Neither case is modelled.
- `ContourSelection.ExtractContour`: `np.squeeze` turns a one-point
  contour into a flat array, which `closest_contour_point` could not
  index. The model keeps such a contour as a one-point sequence.
- `ContourSelection.SortByAreaDesc` is proved a descending permutation
  whose head is the earliest largest contour. Full stability, for the
  positions after the head, is not stated.
- `NearestContourPoint.ClosestContourPoint` works on unbounded integers.
  numpy's int32 arithmetic would overflow only for coordinates far beyond
  any image size.
- `NearestContourPoint.PickIsNearest` states the first-occurrence
  tie-break in the order of the filtered candidate array, which is the
  contour's order.
- `FingerPoints.FingerRoiPoints` requires a finger's indices to be valid
  for the landmark and pair lists. They come from the fixed
  `landmarks_per_finger` table; an invalid table would raise
  `IndexError`.
