/** `Shape`: the polyline a trip follows, each point carrying its cumulative distance along the line. */
module Shapes {
  import opened Util

  datatype ShapePoint = ShapePoint(lat: real, lon: real, sequence: int, post: real)

  datatype ShapeRec = ShapeRec(shapeId: string, pointList: seq<ShapePoint>)

  /** `Shape.__eq__`. */
  predicate SameShape(a: ShapeRec, b: ShapeRec) {
    a.shapeId == b.shapeId
  }

  /**
   * The posts `addPoint` computes: the first point is at 0, and every later
   * point is the previous post plus the great-circle distance from the new
   * point to the previous one.
   */
  ghost predicate CumulativePosts(env: Env, s: seq<ShapePoint>) {
    (|s| > 0 ==> s[0].post == 0.0) &&
    forall i :: 0 < i < |s| ==> s[i].post == s[i - 1].post + env.km(s[i].lat, s[i].lon, s[i - 1].lat, s[i - 1].lon)
  }

  predicate PostsNonDecreasing(s: seq<ShapePoint>) {
    forall i, j :: 0 <= i <= j < |s| ==> s[i].post <= s[j].post
  }

  /** Since distances are never negative, posts never decrease along the line and never go below 0. */
  lemma {:induction false} CumulativePostsNonDecreasing(env: Env, s: seq<ShapePoint>)
    requires CumulativePosts(env, s)
    ensures PostsNonDecreasing(s)
    ensures forall i :: 0 <= i < |s| ==> s[i].post >= 0.0
    decreases |s|
  {
    if |s| > 1 {
      var init := s[..|s| - 1];
      assert CumulativePosts(env, init) by {
        forall i | 0 < i < |init|
          ensures init[i].post == init[i - 1].post + env.km(init[i].lat, init[i].lon, init[i - 1].lat, init[i - 1].lon)
        {
          assert init[i] == s[i] && init[i - 1] == s[i - 1];
        }
      }
      CumulativePostsNonDecreasing(env, init);
      var n := |s| - 1;
      assert s[n].post >= s[n - 1].post;
      forall i, j | 0 <= i <= j < |s|
        ensures s[i].post <= s[j].post
      {
        if j == n && i < n {
          assert init[i] == s[i] && init[n - 1] == s[n - 1];
        } else if j < n {
          assert init[i] == s[i] && init[j] == s[j];
        }
      }
    }
  }

  /** A shape being built: `addPoint` appends to `pointList`. */
  class Shape {
    const shapeId: string
    var pointList: seq<ShapePoint>

    constructor (shapeId: string)
      ensures this.shapeId == shapeId && pointList == []
    {
      this.shapeId := shapeId;
      pointList := [];
    }

    function Value(): ShapeRec
      reads this
    {
      ShapeRec(shapeId, pointList)
    }

    /** `addPoint`: append one point, its post measured from the previous point; earlier points are untouched. */
    method AddPoint(env: Env, lat: real, lon: real, sequence: int)
      modifies this
      ensures |pointList| == |old(pointList)| + 1
      ensures pointList[..|old(pointList)|] == old(pointList)
      ensures var p := pointList[|pointList| - 1];
        p.lat == lat && p.lon == lon && p.sequence == sequence &&
        p.post == if |old(pointList)| == 0 then 0.0
                  else old(pointList)[|old(pointList)| - 1].post
                       + env.km(lat, lon, old(pointList)[|old(pointList)| - 1].lat, old(pointList)[|old(pointList)| - 1].lon)
      ensures CumulativePosts(env, old(pointList)) ==> CumulativePosts(env, pointList)
    {
      var post := 0.0;
      if |pointList| > 0 {
        var prev := pointList[|pointList| - 1];
        var dist := env.km(lat, lon, prev.lat, prev.lon);
        post := prev.post + dist;
      }
      pointList := pointList + [ShapePoint(lat, lon, sequence, post)];
    }
  }
}
