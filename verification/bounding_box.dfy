/** Portrait normalisation of the rotated bounding box: get_bounding_box,
    object_detection/fingers2.py:172-186. The rectangle itself comes from
    cv2.minAreaRect, which is OpenCV's; the model receives its result. */
module BoundingBox {

  /** cv2's RotatedRect: centre, (width, height) and angle in degrees. */
  datatype RotatedRect = RotatedRect(center: (real, real), width: real, height: real, angle: real)

  /** Turns the rectangle upright: a landscape rectangle has its sides
      swapped and its angle reduced by 90 degrees. */
  function GetBoundingBox(rect: RotatedRect): (r: RotatedRect)
    ensures r.width <= r.height
    ensures r.center == rect.center
    ensures multiset{r.width, r.height} == multiset{rect.width, rect.height}
    ensures r.angle == rect.angle - 90.0 <==> rect.width > rect.height
    ensures rect.width <= rect.height ==> r == rect
  {
    if rect.width > rect.height then
      RotatedRect(rect.center, rect.height, rect.width, rect.angle - 90.0)
    else rect
  }

  /** Normalising twice is normalising once. */
  lemma GetBoundingBoxIdempotent(rect: RotatedRect)
    ensures GetBoundingBox(GetBoundingBox(rect)) == GetBoundingBox(rect)
  {
  }
}
