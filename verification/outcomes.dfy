/** Failures raised by the finger-ROI pipeline, and a Result type that carries them. */
module Outcomes {

  /** The failures of object_detection/fingers2.py: its two ValueErrors,
      numpy's ValueError from np.argmin on an empty array, and cv2.error
      from cvtColor on an empty image. */
  datatype Failure =
    | NotRgbImage(shape: seq<nat>)   // get_segmentation_mask: shape is not H x W x 3
    | EmptyImage                     // get_segmentation_mask: cv2.cvtColor rejects an empty image
    | NoContours                     // extract_contour: findContours found nothing
    | EmptyContour                   // closest_contour_point: np.argmin over an empty array

  datatype Result<T> = Ok(value: T) | Err(error: Failure)
}

/** Integer pixel coordinates shared by the contour and landmark code. */
module Geometry {

  /** An (x, y) pixel position; x grows to the right, y grows downwards. */
  datatype Point = Point(x: int, y: int)

  /** A landmark's (left, right) pair of nearest contour points. */
  type PointPair = (Point, Point)

  /** Squared Euclidean distance. The source takes the square root, which is
      monotone, so every comparison and every argmin is the same. */
  function SqDist(p: Point, q: Point): int
  {
    (p.x - q.x) * (p.x - q.x) + (p.y - q.y) * (p.y - q.y)
  }

  lemma SqDistZero(p: Point, q: Point)
    ensures SqDist(p, q) >= 0
    ensures SqDist(p, q) == 0 <==> p == q
  {
    var dx, dy := p.x - q.x, p.y - q.y;
    assert dx * dx >= 0 && dy * dy >= 0;
    if dx != 0 {
      assert dx * dx > 0;
    }
    if dy != 0 {
      assert dy * dy > 0;
    }
  }
}
