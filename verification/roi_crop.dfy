/** Crop-frame arithmetic: adjust_for_roi_crop, object_detection/fingers2.py:229-246,
    and the crop window that extract_roi cuts out (fingers2.py:199-213).
    Centres and sizes are the floats of cv2.minAreaRect, modelled as reals. */
module RoiCrop {
  import opened Geometry
  import opened BoundingBox

  /** Python's int() on a float: truncation toward zero. */
  function Trunc(x: real): (r: int)
    ensures 0.0 <= x ==> r as real <= x < r as real + 1.0
    ensures x < 0.0 ==> r as real - 1.0 < x <= r as real
  {
    if x >= 0.0 then x.Floor else -((-x).Floor)
  }

  lemma TruncMonotone(a: real, b: real)
    requires a <= b
    ensures Trunc(a) <= Trunc(b)
  {
  }

  /** int(center - extent // 2): the first column (or row) of a crop of the
      given extent centred at center. */
  function CropOffset(center: real, extent: real): int
  {
    Trunc(center - (extent / 2.0).Floor as real)
  }

  /** x holds an integer value. */
  predicate IsIntegral(x: real)
  {
    x.Floor as real == x
  }

  /** With an integer centre and size the offset is center - size // 2. */
  lemma CropOffsetOfIntegers(center: int, size: int)
    ensures CropOffset(center as real, size as real) == center - size / 2
  {
    var h := size / 2;
    assert size == 2 * h + size % 2;
    assert (size as real / 2.0).Floor == h;
  }

  /** adjust_for_roi_crop: the point in the frame of a crop centred at center
      whose size is size. */
  function AdjustForRoiCrop(p: Point, center: (real, real), size: (real, real)): (q: Point)
    ensures p.x - q.x == CropOffset(center.0, size.0)
    ensures p.y - q.y == CropOffset(center.1, size.1)
    ensures IsIntegral(center.0) && IsIntegral(size.0) ==>
      q.x == p.x - (center.0.Floor - size.0.Floor / 2)
    ensures IsIntegral(center.1) && IsIntegral(size.1) ==>
      q.y == p.y - (center.1.Floor - size.1.Floor / 2)
  {
    CropOffsetOfIntegers(center.0.Floor, size.0.Floor);
    CropOffsetOfIntegers(center.1.Floor, size.1.Floor);
    Point(p.x - CropOffset(center.0, size.0), p.y - CropOffset(center.1, size.1))
  }

  /** The way back: from crop coordinates to the frame the crop was cut from. */
  function ToImageFrame(q: Point, center: (real, real), size: (real, real)): Point
  {
    Point(q.x + CropOffset(center.0, size.0), q.y + CropOffset(center.1, size.1))
  }

  lemma AdjustRoundTrip(p: Point, q: Point, center: (real, real), size: (real, real))
    ensures ToImageFrame(AdjustForRoiCrop(p, center, size), center, size) == p
    ensures AdjustForRoiCrop(ToImageFrame(q, center, size), center, size) == q
  {
  }

  /** A point lies in a crop window of the given extents exactly when its
      adjusted coordinates lie in [0, width) x [0, height). */
  lemma AdjustLocatesWindow(p: Point, center: (real, real), size: (real, real), w: int, h: int)
    ensures var q := AdjustForRoiCrop(p, center, size);
      (CropOffset(center.0, size.0) <= p.x < CropOffset(center.0, size.0) + w &&
       CropOffset(center.1, size.1) <= p.y < CropOffset(center.1, size.1) + h)
      <==> (0 <= q.x < w && 0 <= q.y < h)
  {
  }

  /** extract_roi widens both sides by 15% before cropping. */
  function Margin(s: real): real
  {
    s + s * 0.15
  }

  /** The top-left pixel of the region extract_roi cuts out of the warped image. */
  function CropOrigin(rect: RotatedRect): Point
  {
    Point(CropOffset(rect.center.0, Margin(rect.width)), CropOffset(rect.center.1, Margin(rect.height)))
  }

  /** Whether pixel p of the warped image is inside the region extract_roi cuts
      out: int(width) columns and int(height) rows from CropOrigin (clipping at
      the image border is not modelled). */
  predicate InRoi(p: Point, rect: RotatedRect)
  {
    var o := CropOrigin(rect);
    o.x <= p.x < o.x + Trunc(Margin(rect.width)) && o.y <= p.y < o.y + Trunc(Margin(rect.height))
  }

  /** Where a point of the warped image appears inside the ROI image: the
      crop-frame adjustment taken with the size extract_roi actually cropped. */
  function RoiLocal(p: Point, rect: RotatedRect): (q: Point)
    ensures InRoi(p, rect) <==>
      0 <= q.x < Trunc(Margin(rect.width)) && 0 <= q.y < Trunc(Margin(rect.height))
    ensures ToImageFrame(q, rect.center, (Margin(rect.width), Margin(rect.height))) == p
  {
    AdjustForRoiCrop(p, rect.center, (Margin(rect.width), Margin(rect.height)))
  }

  /** process_image (fingers2.py:278-279) adjusts with rect's own size, not the
      widened one extract_roi cropped with: for a rectangle of non-negative
      size the marker lands at or above and left of where the point is. */
  lemma AsWrittenShiftsUpLeft(p: Point, rect: RotatedRect)
    requires rect.width >= 0.0 && rect.height >= 0.0
    ensures AdjustForRoiCrop(p, rect.center, (rect.width, rect.height)).x <= RoiLocal(p, rect).x
    ensures AdjustForRoiCrop(p, rect.center, (rect.width, rect.height)).y <= RoiLocal(p, rect).y
  {
    var cx, cy := rect.center.0, rect.center.1;
    assert (rect.width / 2.0).Floor <= (Margin(rect.width) / 2.0).Floor;
    assert (rect.height / 2.0).Floor <= (Margin(rect.height) / 2.0).Floor;
    TruncMonotone(cx - (Margin(rect.width) / 2.0).Floor as real, cx - (rect.width / 2.0).Floor as real);
    TruncMonotone(cy - (Margin(rect.height) / 2.0).Floor as real, cy - (rect.height / 2.0).Floor as real);
  }

  /** A 40 x 40 box centred at (100, 100) is cropped as 46 x 46 from (77, 77).
      Pixel (77, 77) is the ROI's top-left pixel, yet the as-written
      adjustment puts it at (-3, -3), outside the ROI. */
  lemma AsWrittenMisplacesMarker()
    ensures var rect := RotatedRect((100.0, 100.0), 40.0, 40.0, 0.0);
      var p := Point(77, 77);
      InRoi(p, rect) && RoiLocal(p, rect) == Point(0, 0) &&
      AdjustForRoiCrop(p, rect.center, (rect.width, rect.height)) == Point(-3, -3)
  {
    var rect := RotatedRect((100.0, 100.0), 40.0, 40.0, 0.0);
    assert Margin(40.0) == 46.0;
    assert (46.0 / 2.0).Floor == 23 by {
      assert 46.0 / 2.0 == 23.0;
    }
    assert (40.0 / 2.0).Floor == 20 by {
      assert 40.0 / 2.0 == 20.0;
    }
    assert CropOffset(100.0, 46.0) == 77 by {
      assert 100.0 - 23.0 == 77.0;
      assert (77.0).Floor == 77;
    }
    assert CropOffset(100.0, 40.0) == 80 by {
      assert 100.0 - 20.0 == 80.0;
      assert (80.0).Floor == 80;
    }
    assert Trunc(46.0) == 46 by {
      assert (46.0).Floor == 46;
    }
    assert CropOrigin(rect) == Point(77, 77);
  }
}
