/** Largest-contour selection: extract_contour, object_detection/fingers2.py:83-95.
    cv2.findContours is OpenCV's; the model receives the list of contours it
    returns, in its order. */
module ContourSelection {
  import opened Outcomes
  import opened Geometry

  /** A contour: its boundary points in order. */
  type Contour = seq<Point>

  /** The shoelace sum over the closed polygon: each point with its successor,
      the last point with the first. */
  function ShoelaceSum(c: Contour, i: nat): int
    requires i <= |c|
    decreases |c| - i
  {
    if i == |c| then 0
    else
      var p, q := c[i], c[(i + 1) % |c|];
      p.x * q.y - q.x * p.y + ShoelaceSum(c, i + 1)
  }

  /** With fewer than three points every cross product cancels its partner. */
  lemma ShoelaceOfDegenerate(c: Contour)
    ensures |c| < 3 ==> ShoelaceSum(c, 0) == 0
  {
    if |c| == 1 {
      assert ShoelaceSum(c, 1) == 0;
    } else if |c| == 2 {
      assert ShoelaceSum(c, 2) == 0;
      assert ShoelaceSum(c, 1) == c[1].x * c[0].y - c[0].x * c[1].y;
    }
  }

  /** Twice the enclosed area, as cv2.contourArea computes it (its absolute
      value, halved). Twice the area orders contours exactly as the area does. */
  function TwiceArea(c: Contour): (a: nat)
    ensures |c| < 3 ==> a == 0
  {
    ShoelaceOfDegenerate(c);
    var s := ShoelaceSum(c, 0);
    if s < 0 then -s else s
  }

  /* The sort and the selection below are stated for any area function; the
     pipeline uses TwiceArea. */

  /** Descending by area; neighbours suffice for a transitive order. */
  predicate Descending(area: Contour -> nat, cs: seq<Contour>)
  {
    forall i :: 0 < i < |cs| ==> area(cs[i - 1]) >= area(cs[i])
  }

  /** k is the earliest position of a contour of largest area. */
  predicate IsFirstLargest(area: Contour -> nat, cs: seq<Contour>, k: nat)
  {
    k < |cs| &&
    (forall j :: 0 <= j < |cs| ==> area(cs[j]) <= area(cs[k])) &&
    (forall j :: 0 <= j < k ==> area(cs[j]) < area(cs[k]))
  }

  /** Inserts c, which came before every contour of s in the input, in front of
      the first contour whose area does not exceed its own: that keeps equal
      areas in input order, as Python's stable sort with reverse=True does. */
  function Insert(area: Contour -> nat, c: Contour, s: seq<Contour>): (r: seq<Contour>)
    ensures |r| == |s| + 1
    ensures multiset(r) == multiset(s) + multiset{c}
    ensures r[0] == (if s == [] || area(c) >= area(s[0]) then c else s[0])
  {
    if s == [] || area(c) >= area(s[0]) then [c] + s
    else
      assert s == [s[0]] + s[1..];
      [s[0]] + Insert(area, c, s[1..])
  }

  lemma {:induction false} InsertDescending(area: Contour -> nat, c: Contour, s: seq<Contour>)
    requires Descending(area, s)
    ensures Descending(area, Insert(area, c, s))
  {
    if s == [] || area(c) >= area(s[0]) {
    } else {
      InsertDescending(area, c, s[1..]);
      var r := Insert(area, c, s);
      var rest := Insert(area, c, s[1..]);
      assert r == [s[0]] + rest;
      forall i | 0 < i < |r|
        ensures area(r[i - 1]) >= area(r[i])
      {
        if i == 1 {
          assert r[1] == rest[0];
        } else {
          assert r[i - 1] == rest[i - 2] && r[i] == rest[i - 1];
        }
      }
    }
  }

  /** sorted(contours, key=cv2.contourArea, reverse=True) */
  function SortByAreaDesc(area: Contour -> nat, cs: seq<Contour>): (r: seq<Contour>)
    ensures |r| == |cs|
    ensures multiset(r) == multiset(cs)
    ensures Descending(area, r)
  {
    if cs == [] then []
    else
      assert cs == [cs[0]] + cs[1..];
      var rest := SortByAreaDesc(area, cs[1..]);
      InsertDescending(area, cs[0], rest);
      Insert(area, cs[0], rest)
  }

  /** An independent statement of which contour is returned: scan from the
      front and keep the earliest strictly larger one. */
  function FirstLargest(area: Contour -> nat, cs: seq<Contour>): (k: nat)
    requires |cs| > 0
    ensures IsFirstLargest(area, cs, k)
  {
    if |cs| == 1 then 0
    else
      var k := FirstLargest(area, cs[..|cs| - 1]);
      if area(cs[|cs| - 1]) > area(cs[k]) then |cs| - 1 else k
  }

  lemma FirstLargestUnique(area: Contour -> nat, cs: seq<Contour>, k1: nat, k2: nat)
    requires IsFirstLargest(area, cs, k1) && IsFirstLargest(area, cs, k2)
    ensures k1 == k2
  {
    assert area(cs[k1]) == area(cs[k2]);
  }

  /** The head of the stable descending sort is the earliest largest contour. */
  lemma {:induction false} SortHeadIsFirstLargest(area: Contour -> nat, cs: seq<Contour>)
    requires |cs| > 0
    ensures SortByAreaDesc(area, cs)[0] == cs[FirstLargest(area, cs)]
  {
    var k := FirstLargest(area, cs);
    if |cs| == 1 {
    } else {
      var rest := cs[1..];
      SortHeadIsFirstLargest(area, rest);
      var k' := FirstLargest(area, rest);
      assert forall j :: 1 <= j < |cs| ==> cs[j] == rest[j - 1];
      if area(cs[0]) >= area(rest[k']) {
        assert IsFirstLargest(area, cs, 0);
        FirstLargestUnique(area, cs, k, 0);
      } else {
        assert IsFirstLargest(area, cs, k' + 1);
        FirstLargestUnique(area, cs, k, k' + 1);
      }
    }
  }

  /** extract_contour: an error when there is no contour; otherwise the
      contour of largest area, the earliest one among equals. */
  function ExtractContour(contours: seq<Contour>): (r: Result<Contour>)
    ensures r.Err? <==> |contours| == 0
    ensures r.Err? ==> r.error == NoContours
    ensures r.Ok? ==> r.value == contours[FirstLargest(TwiceArea, contours)]
    ensures r.Ok? ==> forall c :: c in contours ==> TwiceArea(c) <= TwiceArea(r.value)
  {
    if |contours| == 0 then Err(NoContours)
    else
      SortHeadIsFirstLargest(TwiceArea, contours);
      Ok(SortByAreaDesc(TwiceArea, contours)[0])
  }
}
