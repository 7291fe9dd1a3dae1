/** The point set of one finger's ROI: process_image, object_detection/fingers2.py:265-267.
    landmarks_per_finger maps a finger to [tip, joint, joint]; its values
    come from a constants module, so a finger's indices are a parameter. */
module FingerPoints {
  import opened Geometry
  import NearestContourPoint

  /** Both contour neighbours of each joint, in joint order. */
  function JointNeighbours(joints: seq<nat>, closest: seq<PointPair>): (pts: seq<Point>)
    requires forall j :: 0 <= j < |joints| ==> joints[j] < |closest|
    ensures |pts| == 2 * |joints|
    ensures forall j :: 0 <= j < |joints| ==>
      pts[2 * j] == closest[joints[j]].0 && pts[2 * j + 1] == closest[joints[j]].1
  {
    if joints == [] then []
    else
      var pair := closest[joints[0]];
      [pair.0, pair.1] + JointNeighbours(joints[1..], closest)
  }

  /** finger_roi_points: the neighbours of finger[1..], then the tip landmark
      finger[0]. */
  function FingerRoiPoints(finger: seq<nat>, closest: seq<PointPair>, landmarkPixels: seq<Point>): (pts: seq<Point>)
    requires |finger| >= 1 && finger[0] < |landmarkPixels|
    requires forall j :: 1 <= j < |finger| ==> finger[j] < |closest|
    ensures |pts| == 2 * |finger| - 1
    ensures forall j :: 1 <= j < |finger| ==>
      pts[2 * j - 2] == closest[finger[j]].0 && pts[2 * j - 1] == closest[finger[j]].1
    ensures pts[|pts| - 1] == landmarkPixels[finger[0]]
  {
    var ns := JointNeighbours(finger[1..], closest);
    assert forall j :: 1 <= j < |finger| ==> ns[2 * (j - 1)] == closest[finger[j]].0;
    ns + [landmarkPixels[finger[0]]]
  }

  /** Every gathered neighbour is a contour point when every pair used is. */
  lemma {:induction false} NeighboursOnContour(joints: seq<nat>, closest: seq<PointPair>, contour: seq<Point>)
    requires forall j :: 0 <= j < |joints| ==> joints[j] < |closest|
    requires forall j :: 0 <= j < |joints| ==> closest[joints[j]].0 in contour && closest[joints[j]].1 in contour
    ensures forall p :: p in JointNeighbours(joints, closest) ==> p in contour
  {
    if joints != [] {
      NeighboursOnContour(joints[1..], closest, contour);
      assert forall j :: 1 <= j < |joints| ==> joints[1..][j - 1] == joints[j];
    }
  }

  /** When closest is what closest_contour_point computed, every point of a
      finger's ROI set except the tip landmark is a contour point. */
  lemma FingerPointsOnContour(finger: seq<nat>, landmarks: seq<Point>, contour: seq<Point>,
                              tips: set<nat>, closest: seq<PointPair>)
    requires |contour| > 0 && |closest| == |landmarks|
    requires forall k :: 0 <= k < |landmarks| ==>
      closest[k] == NearestContourPoint.ClosestPair(contour, landmarks[k], k in tips)
    requires |finger| >= 1 && finger[0] < |landmarks|
    requires forall j :: 1 <= j < |finger| ==> finger[j] < |closest|
    ensures var pts := FingerRoiPoints(finger, closest, landmarks);
      forall i :: 0 <= i < |pts| - 1 ==> pts[i] in contour
  {
    var joints := finger[1..];
    forall j | 0 <= j < |joints|
      ensures closest[joints[j]].0 in contour && closest[joints[j]].1 in contour
    {
      var k := joints[j];
      NearestContourPoint.PickInContour(contour, landmarks[k], k in tips);
    }
    NeighboursOnContour(joints, closest, contour);
    var ns := JointNeighbours(joints, closest);
    var pts := FingerRoiPoints(finger, closest, landmarks);
    assert pts == ns + [landmarks[finger[0]]];
    assert forall i :: 0 <= i < |pts| - 1 ==> pts[i] == ns[i];
  }
}
