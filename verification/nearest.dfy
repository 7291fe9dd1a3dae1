/** Nearest contour points: closest_contour_point, object_detection/fingers2.py:105-146.
    For every landmark it picks the nearest contour point on its left and the
    nearest on its right. */
module NearestContourPoint {
  import opened Outcomes
  import opened Geometry

  datatype Side = Left | Right

  /** The filter of fingers2.py:121-125: left is x <= lx, right is x > lx, and
      around a fingertip only points at or below it (y >= ly) are kept. */
  predicate OnSide(p: Point, l: Point, side: Side, isTip: bool)
  {
    (if side == Left then p.x <= l.x else p.x > l.x) && (isTip ==> p.y >= l.y)
  }

  /** contour[mask]: the contour points that pass the filter, in contour order. */
  function Candidates(contour: seq<Point>, l: Point, side: Side, isTip: bool): (r: seq<Point>)
    ensures |r| <= |contour|
  {
    if contour == [] then []
    else
      var rest := Candidates(contour[1..], l, side, isTip);
      if OnSide(contour[0], l, side, isTip) then [contour[0]] + rest else rest
  }

  /** A point is a candidate exactly when it is a contour point that passes the filter. */
  lemma {:induction false} CandidatesMembers(contour: seq<Point>, l: Point, side: Side, isTip: bool)
    ensures forall p :: p in Candidates(contour, l, side, isTip) <==> p in contour && OnSide(p, l, side, isTip)
  {
    if contour != [] {
      CandidatesMembers(contour[1..], l, side, isTip);
      assert contour == [contour[0]] + contour[1..];
    }
  }

  /** The set searched on one side: the candidates, or the whole contour when
      there are none (fingers2.py:129-132). */
  function Pool(contour: seq<Point>, l: Point, side: Side, isTip: bool): seq<Point>
  {
    var cands := Candidates(contour, l, side, isTip);
    if |cands| == 0 then contour else cands
  }

  /** np.argmin of the distances to l: the first index of least distance. */
  function ArgMin(s: seq<Point>, l: Point): (k: nat)
    requires |s| > 0
    ensures k < |s|
  {
    if |s| == 1 then 0
    else
      var k := ArgMin(s[..|s| - 1], l);
      if SqDist(s[|s| - 1], l) < SqDist(s[k], l) then |s| - 1 else k
  }

  /** ArgMin finds a point of least distance, and every point before it is
      strictly farther. */
  lemma {:induction false} ArgMinIsFirstNearest(s: seq<Point>, l: Point)
    requires |s| > 0
    ensures forall j :: 0 <= j < |s| ==> SqDist(s[ArgMin(s, l)], l) <= SqDist(s[j], l)
    ensures forall j :: 0 <= j < ArgMin(s, l) ==> SqDist(s[j], l) > SqDist(s[ArgMin(s, l)], l)
  {
    if |s| > 1 {
      var init := s[..|s| - 1];
      ArgMinIsFirstNearest(init, l);
      assert forall j :: 0 <= j < |init| ==> s[j] == init[j];
    }
  }

  /** The point chosen on one side of landmark l. */
  function Pick(contour: seq<Point>, l: Point, side: Side, isTip: bool): Point
    requires |contour| > 0
  {
    var pool := Pool(contour, l, side, isTip);
    pool[ArgMin(pool, l)]
  }

  /** The (left, right) pair recorded for landmark l. */
  function ClosestPair(contour: seq<Point>, l: Point, isTip: bool): PointPair
    requires |contour| > 0
  {
    (Pick(contour, l, Left, isTip), Pick(contour, l, Right, isTip))
  }

  /** closest_contour_point: one (left, right) pair per landmark, in landmark
      order; the landmarks whose index is in tips use the fingertip filter.
      With no contour point at all, np.argmin fails on the first landmark. */
  method ClosestContourPoint(landmarks: seq<Point>, contour: seq<Point>, tips: set<nat>)
    returns (r: Result<seq<PointPair>>)
    ensures r.Err? <==> |contour| == 0 && |landmarks| > 0
    ensures r.Err? ==> r.error == EmptyContour
    ensures r.Ok? ==> |r.value| == |landmarks|
    ensures r.Ok? ==> forall k :: 0 <= k < |landmarks| ==>
      r.value[k] == ClosestPair(contour, landmarks[k], k in tips)
  {
    var closest: seq<PointPair> := [];
    for ctr := 0 to |landmarks|
      invariant |contour| == 0 ==> ctr == 0
      invariant |closest| == ctr
      invariant forall k :: 0 <= k < ctr ==> closest[k] == ClosestPair(contour, landmarks[k], k in tips)
    {
      var landmark := landmarks[ctr];
      var isTip := ctr in tips;
      var leftContour := Candidates(contour, landmark, Left, isTip);
      var rightContour := Candidates(contour, landmark, Right, isTip);
      if |leftContour| == 0 {
        leftContour := contour;
      }
      if |rightContour| == 0 {
        rightContour := contour;
      }
      if |leftContour| == 0 || |rightContour| == 0 {
        return Err(EmptyContour);
      }
      var leftClosest := leftContour[ArgMin(leftContour, landmark)];
      var rightClosest := rightContour[ArgMin(rightContour, landmark)];
      assert leftContour == Pool(contour, landmark, Left, isTip);
      assert rightContour == Pool(contour, landmark, Right, isTip);
      assert (leftClosest, rightClosest) == ClosestPair(contour, landmarks[ctr], ctr in tips);
      closest := closest + [(leftClosest, rightClosest)];
    }
    r := Ok(closest);
  }

  /** The chosen point is a contour point, a member of the searched set, no
      member of that set is strictly closer, and every member before its
      first occurrence is strictly farther (np.argmin's tie-break). */
  lemma PickIsNearest(contour: seq<Point>, l: Point, side: Side, isTip: bool)
    requires |contour| > 0
    ensures var p, pool := Pick(contour, l, side, isTip), Pool(contour, l, side, isTip);
      p in contour && p in pool &&
      (forall q :: q in pool ==> SqDist(p, l) <= SqDist(q, l)) &&
      exists k :: 0 <= k < |pool| && pool[k] == p &&
        forall j :: 0 <= j < k ==> SqDist(pool[j], l) > SqDist(p, l)
  {
    CandidatesMembers(contour, l, side, isTip);
    var pool := Pool(contour, l, side, isTip);
    var k := ArgMin(pool, l);
    ArgMinIsFirstNearest(pool, l);
    assert pool[k] in contour;
  }

  /** Both points of a pair are contour points. */
  lemma PickInContour(contour: seq<Point>, l: Point, isTip: bool)
    requires |contour| > 0
    ensures ClosestPair(contour, l, isTip).0 in contour
    ensures ClosestPair(contour, l, isTip).1 in contour
  {
    PickIsNearest(contour, l, Left, isTip);
    PickIsNearest(contour, l, Right, isTip);
  }

  /** The chosen point lies on its side of the landmark (and not above a
      fingertip) whenever some contour point does; otherwise the whole contour
      is searched. */
  lemma PickSide(contour: seq<Point>, l: Point, side: Side, isTip: bool)
    requires |contour| > 0
    ensures (exists q :: q in contour && OnSide(q, l, side, isTip)) ==>
      OnSide(Pick(contour, l, side, isTip), l, side, isTip)
    ensures (forall q :: q in contour ==> !OnSide(q, l, side, isTip)) ==>
      Pool(contour, l, side, isTip) == contour
  {
    var cands := Candidates(contour, l, side, isTip);
    CandidatesMembers(contour, l, side, isTip);
    assert |cands| > 0 ==> cands[0] in contour && OnSide(cands[0], l, side, isTip);
    if q :| q in contour && OnSide(q, l, side, isTip) {
      assert q in cands;
      PickIsNearest(contour, l, side, isTip);
    }
  }

  /** When neither side falls back, the two points are on opposite sides of
      the landmark's x and so are different points. */
  lemma SidesDisjoint(contour: seq<Point>, l: Point, isTip: bool)
    requires |contour| > 0
    requires exists q :: q in contour && OnSide(q, l, Left, isTip)
    requires exists q :: q in contour && OnSide(q, l, Right, isTip)
    ensures ClosestPair(contour, l, isTip).0.x <= l.x < ClosestPair(contour, l, isTip).1.x
    ensures ClosestPair(contour, l, isTip).0 != ClosestPair(contour, l, isTip).1
  {
    PickSide(contour, l, Left, isTip);
    PickSide(contour, l, Right, isTip);
  }

  /** A landmark that is itself a contour point is its own left point. */
  lemma LandmarkOnContour(contour: seq<Point>, l: Point, isTip: bool)
    requires l in contour
    ensures ClosestPair(contour, l, isTip).0 == l
  {
    assert OnSide(l, l, Left, isTip);
    PickSide(contour, l, Left, isTip);
    PickIsNearest(contour, l, Left, isTip);
    var p := Pick(contour, l, Left, isTip);
    CandidatesMembers(contour, l, Left, isTip);
    assert l in Pool(contour, l, Left, isTip);
    SqDistZero(l, l);
    SqDistZero(p, l);
  }

  /** A landmark that is a contour point is its own right point exactly when
      no contour point passes the right-side filter, so that the whole contour
      is searched. */
  lemma LandmarkOnContourRight(contour: seq<Point>, l: Point, isTip: bool)
    requires l in contour
    ensures ClosestPair(contour, l, isTip).1 == l <==>
      forall q :: q in contour ==> !OnSide(q, l, Right, isTip)
  {
    PickSide(contour, l, Right, isTip);
    PickIsNearest(contour, l, Right, isTip);
    var p := Pick(contour, l, Right, isTip);
    assert !OnSide(l, l, Right, isTip);
    if forall q :: q in contour ==> !OnSide(q, l, Right, isTip) {
      assert l in Pool(contour, l, Right, isTip);
      SqDistZero(l, l);
      SqDistZero(p, l);
    }
  }
}
