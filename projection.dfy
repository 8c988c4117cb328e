/**
 * The point-to-polyline projection of `GtfsData`: the clamped projection of
 * a point on a segment, and the scans over a shape's segments that keep the
 * earliest segment with the strictly smallest score.
 */
module Projections {
  import opened Wrappers
  import opened Util
  import opened Shapes
  import opened Locations
  import opened ProjectedLocations

  // ----- one segment -----

  /** A segment in the local plane, from `(x1, y1)` to `(x2, y2)`. */
  datatype Segment = Segment(x1: real, x2: real, y1: real, y2: real)

  /** The point at parameter `u` along segment `s`. */
  function PointAt(s: Segment, u: real): (real, real) {
    (s.x1 + u * (s.x2 - s.x1), s.y1 + u * (s.y2 - s.y1))
  }

  /** `segLen`, the Euclidean length of the segment. */
  function SegLen(env: Env, s: Segment): NonNegReal {
    env.norm(s.x2 - s.x1, s.y2 - s.y1)
  }

  /** The unclamped projection parameter `t` of `getClosestPointOnSegment`. */
  function Param(env: Env, xp: real, yp: real, s: Segment): real
    requires SegLen(env, s) != 0.0
  {
    var segLen := SegLen(env, s);
    ((xp - s.x1) * (s.x2 - s.x1) + (yp - s.y1) * (s.y2 - s.y1)) / (segLen * segLen)
  }

  /** The parameter of the point `getClosestPointOnSegment` returns: `t` clamped to `[0, 1]`, and 0 on a zero-length segment. */
  function ClosestParam(env: Env, xp: real, yp: real, s: Segment): (u: real)
    ensures 0.0 <= u <= 1.0
  {
    if SegLen(env, s) == 0.0 then 0.0
    else
      var t := Param(env, xp, yp, s);
      if t < 0.0 then 0.0 else if t > 1.0 then 1.0 else t
  }

  /**
   * `getClosestPointOnSegment`: the start point for a zero-length segment or
   * when the projection falls before it, the end point when it falls after,
   * and the projection itself otherwise.
   */
  function ClosestPointOnSegment(env: Env, xp: real, yp: real, s: Segment): (real, real) {
    if SegLen(env, s) == 0.0 then (s.x1, s.y1)
    else
      var t := Param(env, xp, yp, s);
      if t < 0.0 then (s.x1, s.y1)
      else if t > 1.0 then (s.x2, s.y2)
      else PointAt(s, t)
  }

  /**
   * The cases of `getClosestPointOnSegment`: the start point on a zero-length
   * segment or before it, the end point after it, and in between the
   * clamped parameter is the projection parameter itself.
   */
  lemma ClosestPointCases(env: Env, xp: real, yp: real, s: Segment)
    ensures SegLen(env, s) == 0.0 ==> ClosestPointOnSegment(env, xp, yp, s) == (s.x1, s.y1)
    ensures SegLen(env, s) != 0.0 && Param(env, xp, yp, s) < 0.0 ==> ClosestPointOnSegment(env, xp, yp, s) == (s.x1, s.y1)
    ensures SegLen(env, s) != 0.0 && Param(env, xp, yp, s) > 1.0 ==> ClosestPointOnSegment(env, xp, yp, s) == (s.x2, s.y2)
    ensures SegLen(env, s) != 0.0 && 0.0 <= Param(env, xp, yp, s) <= 1.0 ==>
      ClosestParam(env, xp, yp, s) == Param(env, xp, yp, s)
  {
  }

  /** Whatever the case, the point returned lies on the segment, at the clamped parameter. */
  lemma ClosestPointOnTheSegment(env: Env, xp: real, yp: real, s: Segment)
    ensures ClosestPointOnSegment(env, xp, yp, s) == PointAt(s, ClosestParam(env, xp, yp, s))
  {
    var u := ClosestParam(env, xp, yp, s);
    if SegLen(env, s) == 0.0 || Param(env, xp, yp, s) < 0.0 {
      assert u == 0.0;
      assert PointAt(s, 0.0) == (s.x1, s.y1);
    } else if Param(env, xp, yp, s) > 1.0 {
      assert u == 1.0;
      assert PointAt(s, 1.0) == (s.x2, s.y2);
    }
  }

  lemma MulNonNeg(p: real, q: real)
    requires p >= 0.0 && q >= 0.0
    ensures p * q >= 0.0
  {
  }

  /** A post interpolated at a parameter in `[0, 1]` lies between the two end posts. */
  lemma InterpolatedBetween(p1: real, p2: real, u: real)
    requires 0.0 <= u <= 1.0
    ensures p1 <= p2 ==> p1 <= p1 + u * (p2 - p1) <= p2
    ensures p2 <= p1 ==> p2 <= p1 + u * (p2 - p1) <= p1
  {
    if p1 <= p2 {
      MulNonNeg(u, p2 - p1);
      MulNonNeg(1.0 - u, p2 - p1);
    } else {
      MulNonNeg(u, p1 - p2);
      MulNonNeg(1.0 - u, p1 - p2);
    }
  }

  // ----- the scan over a shape's segments -----

  /** What one iteration of the scan computes for segment `i`, in the local plane around `(lat, lon)`. */
  datatype SegmentFit = SegmentFit(xproj: real, yproj: real, perpDist: real, postKm: real)

  /**
   * Segment `i` in local coordinates (latitude differences as y, longitude
   * differences scaled by `c = cos(lat)` as x), the closest point to the
   * origin, its Euclidean distance, and its post: the start post plus the
   * fraction of the segment covered times the segment's post increase, or
   * the start post on a zero-length segment. The covered fraction
   * `|proj - p1| / segLen` is written as the clamped projection parameter,
   * which it equals.
   */
  function FitSegment(env: Env, pts: seq<ShapePoint>, lat: real, lon: real, i: nat): (f: SegmentFit)
    requires i + 1 < |pts|
  {
    FitLocal(env, LocalSegment(env, pts, lat, lon, i), pts[i].post, pts[i + 1].post)
  }

  /** Segment `i` of `pts` in the local plane around `(lat, lon)`. */
  function LocalSegment(env: Env, pts: seq<ShapePoint>, lat: real, lon: real, i: nat): Segment
    requires i + 1 < |pts|
  {
    var c := env.cosDeg(lat);
    Segment((pts[i].lon - lon) * c, (pts[i + 1].lon - lon) * c, pts[i].lat - lat, pts[i + 1].lat - lat)
  }

  /** One segment already in local coordinates, with its end posts `p1` and `p2`. */
  function FitLocal(env: Env, s: Segment, p1: real, p2: real): SegmentFit {
    var pt := ClosestPointOnSegment(env, 0.0, 0.0, s);
    SegmentFit(pt.0, pt.1, env.norm(pt.0, pt.1), FitPost(env, s, p1, p2))
  }

  /** The post of the closest point: interpolated at the clamped parameter, or the start post on a zero-length segment. */
  function FitPost(env: Env, s: Segment, p1: real, p2: real): real {
    if SegLen(env, s) > 0.0
    then p1 + ClosestParam(env, 0.0, 0.0, s) * (p2 - p1)
    else p1
  }

  lemma FitLocalPostBetween(env: Env, s: Segment, p1: real, p2: real)
    ensures var p := FitLocal(env, s, p1, p2).postKm;
      (p1 <= p2 ==> p1 <= p <= p2) && (p2 <= p1 ==> p2 <= p <= p1)
  {
    assert FitLocal(env, s, p1, p2).postKm == FitPost(env, s, p1, p2);
    if SegLen(env, s) > 0.0 {
      InterpolatedBetween(p1, p2, ClosestParam(env, 0.0, 0.0, s));
    }
  }

  /** The fitted post of every segment lies between the posts of the segment's end points. */
  lemma FitPostBetween(env: Env, pts: seq<ShapePoint>, lat: real, lon: real, i: nat)
    requires i + 1 < |pts|
    ensures var p := FitSegment(env, pts, lat, lon, i).postKm;
      (pts[i].post <= pts[i + 1].post ==> pts[i].post <= p <= pts[i + 1].post) &&
      (pts[i + 1].post <= pts[i].post ==> pts[i + 1].post <= p <= pts[i].post)
  {
    FitLocalPostBetween(env, LocalSegment(env, pts, lat, lon, i), pts[i].post, pts[i + 1].post);
  }

  /** The score `projectToShape` minimises: the lateral distance. */
  function PerpScore(f: SegmentFit): real {
    f.perpDist
  }

  /** The score `projectToShapeWithTarget` minimises: lateral distance plus the post deviation in degrees. */
  function TargetScore(f: SegmentFit, postTarget: real): real {
    f.perpDist + Abs(f.postKm - postTarget) / KmPerDeg
  }

  function Abs(x: real): real {
    if x < 0.0 then -x else x
  }

  /**
   * The running minimum of the scans: index 0 first, then every strictly
   * smaller score. The result is the earliest index of a smallest score.
   */
  function EarliestMin(ds: seq<real>): (k: nat)
    requires |ds| > 0
    ensures k < |ds|
    ensures forall j :: 0 <= j < |ds| ==> ds[k] <= ds[j]
    ensures forall j :: 0 <= j < k ==> ds[k] < ds[j]
    decreases |ds|
  {
    if |ds| == 1 then 0
    else
      var k := EarliestMin(ds[..|ds| - 1]);
      if ds[|ds| - 1] < ds[k] then |ds| - 1 else k
  }

  function Fits(env: Env, pts: seq<ShapePoint>, lat: real, lon: real): (fs: seq<SegmentFit>)
    requires |pts| >= 2
    ensures |fs| == |pts| - 1
    ensures forall i :: 0 <= i < |fs| ==> fs[i] == FitSegment(env, pts, lat, lon, i)
  {
    seq(|pts| - 1, i requires 0 <= i < |pts| - 1 => FitSegment(env, pts, lat, lon, i))
  }

  function PerpScores(fs: seq<SegmentFit>): (ds: seq<real>)
    ensures |ds| == |fs| && forall i :: 0 <= i < |fs| ==> ds[i] == PerpScore(fs[i])
  {
    seq(|fs|, i requires 0 <= i < |fs| => PerpScore(fs[i]))
  }

  function TargetScores(fs: seq<SegmentFit>, postTarget: real): (ds: seq<real>)
    ensures |ds| == |fs| && forall i :: 0 <= i < |fs| ==> ds[i] == TargetScore(fs[i], postTarget)
  {
    seq(|fs|, i requires 0 <= i < |fs| => TargetScore(fs[i], postTarget))
  }

  /** The segment `projectToShape` settles on. */
  function ChosenSegment(env: Env, pts: seq<ShapePoint>, lat: real, lon: real): nat
    requires |pts| >= 2
  {
    EarliestMin(PerpScores(Fits(env, pts, lat, lon)))
  }

  /** The segment `projectToShapeWithTarget` settles on. */
  function ChosenSegmentWithTarget(env: Env, pts: seq<ShapePoint>, lat: real, lon: real, postTarget: real): nat
    requires |pts| >= 2
  {
    EarliestMin(TargetScores(Fits(env, pts, lat, lon), postTarget))
  }

  /** The location reported for the chosen fit: the projected point back in lat/lon, its post and its lateral distance. */
  function Place(env: Env, lat: real, lon: real, f: SegmentFit): ProjectedLocation {
    var lonProj := f.xproj / env.cosDeg(lat) + lon;
    var latProj := f.yproj + lat;
    ProjectedLocation(EmptyLocation.(lat := Some(latProj), lon := Some(lonProj)),
                      Some(f.postKm), Some(env.km(lat, lon, latProj, lonProj)), None, None)
  }

  /**
   * `projectToShape`. A shape with fewer than two points has no segment, the
   * minimum is never set and Python raises; that is `None` here.
   */
  function ProjectedToShape(env: Env, pts: seq<ShapePoint>, lat: real, lon: real): (r: Option<ProjectedLocation>)
    ensures r.Some? <==> |pts| >= 2
    ensures r.Some? ==> r.value.postKm.Some? && r.value.perpKm.Some? && HasLatAndLon(r.value.base)
  {
    if |pts| < 2 then None
    else Some(Place(env, lat, lon, Fits(env, pts, lat, lon)[ChosenSegment(env, pts, lat, lon)]))
  }

  /** `projectToShapeWithTarget`, with the same failure for a shape without segments. */
  function ProjectedToShapeWithTarget(env: Env, pts: seq<ShapePoint>, lat: real, lon: real, postTarget: real)
    : (r: Option<ProjectedLocation>)
    ensures r.Some? <==> |pts| >= 2
    ensures r.Some? ==> r.value.postKm.Some? && r.value.perpKm.Some? && HasLatAndLon(r.value.base)
  {
    if |pts| < 2 then None
    else Some(Place(env, lat, lon, Fits(env, pts, lat, lon)[ChosenSegmentWithTarget(env, pts, lat, lon, postTarget)]))
  }

  /**
   * What the projection promises: the chosen segment has the smallest lateral
   * distance, every earlier segment is strictly farther (ties go to the
   * earlier segment), and the reported post lies between the chosen
   * segment's end posts.
   */
  lemma ProjectionChoosesEarliestNearest(env: Env, pts: seq<ShapePoint>, lat: real, lon: real)
    requires |pts| >= 2
    ensures var k := ChosenSegment(env, pts, lat, lon);
      var p := ProjectedToShape(env, pts, lat, lon);
      k + 1 < |pts| && p.Some? && p.value.postKm.Some? &&
      (forall j :: 0 <= j < |pts| - 1 ==> FitSegment(env, pts, lat, lon, k).perpDist <= FitSegment(env, pts, lat, lon, j).perpDist) &&
      (forall j :: 0 <= j < k ==> FitSegment(env, pts, lat, lon, k).perpDist < FitSegment(env, pts, lat, lon, j).perpDist) &&
      (pts[k].post <= pts[k + 1].post ==> pts[k].post <= p.value.postKm.value <= pts[k + 1].post)
  {
    var k := ChosenSegment(env, pts, lat, lon);
    var ds := PerpScores(Fits(env, pts, lat, lon));
    forall j | 0 <= j < |pts| - 1
      ensures FitSegment(env, pts, lat, lon, k).perpDist <= FitSegment(env, pts, lat, lon, j).perpDist
    {
      assert ds[k] <= ds[j];
    }
    forall j | 0 <= j < k
      ensures FitSegment(env, pts, lat, lon, k).perpDist < FitSegment(env, pts, lat, lon, j).perpDist
    {
      assert ds[k] < ds[j];
    }
    FitPostBetween(env, pts, lat, lon, k);
  }

  /** The same for the targeted projection, whose score adds the post deviation from the target. */
  lemma TargetProjectionChoosesEarliestBest(env: Env, pts: seq<ShapePoint>, lat: real, lon: real, postTarget: real)
    requires |pts| >= 2
    ensures var k := ChosenSegmentWithTarget(env, pts, lat, lon, postTarget);
      var p := ProjectedToShapeWithTarget(env, pts, lat, lon, postTarget);
      k + 1 < |pts| && p.Some? && p.value.postKm == Some(FitSegment(env, pts, lat, lon, k).postKm) &&
      (forall j :: 0 <= j < |pts| - 1 ==>
         TargetScore(FitSegment(env, pts, lat, lon, k), postTarget) <= TargetScore(FitSegment(env, pts, lat, lon, j), postTarget)) &&
      (forall j :: 0 <= j < k ==>
         TargetScore(FitSegment(env, pts, lat, lon, k), postTarget) < TargetScore(FitSegment(env, pts, lat, lon, j), postTarget))
  {
    var k := ChosenSegmentWithTarget(env, pts, lat, lon, postTarget);
    var ds := TargetScores(Fits(env, pts, lat, lon), postTarget);
    forall j | 0 <= j < |pts| - 1
      ensures TargetScore(FitSegment(env, pts, lat, lon, k), postTarget) <= TargetScore(FitSegment(env, pts, lat, lon, j), postTarget)
    {
      assert ds[k] <= ds[j];
    }
    forall j | 0 <= j < k
      ensures TargetScore(FitSegment(env, pts, lat, lon, k), postTarget) < TargetScore(FitSegment(env, pts, lat, lon, j), postTarget)
    {
      assert ds[k] < ds[j];
    }
  }

  /**
   * The earliest index of a smallest score is the only index at which
   * the score is at most every score and strictly below every earlier one.
   */
  lemma {:induction false} EarliestMinUnique(ds: seq<real>, k: nat)
    requires k < |ds|
    requires forall j :: 0 <= j < |ds| ==> ds[k] <= ds[j]
    requires forall j :: 0 <= j < k ==> ds[k] < ds[j]
    ensures k == EarliestMin(ds)
  {
    var m := EarliestMin(ds);
    assert ds[m] <= ds[k] && ds[k] <= ds[m];
  }

  /**
   * The loop shared by `projectToShape` and `projectToShapeWithTarget`: fit
   * every segment and keep the first fit whose score is strictly below the
   * best so far.
   */
  method ScanSegments(env: Env, pts: seq<ShapePoint>, lat: real, lon: real, score: SegmentFit -> real)
    returns (best: SegmentFit, ghost k: nat)
    requires |pts| >= 2
    ensures k + 1 < |pts| && best == FitSegment(env, pts, lat, lon, k)
    ensures forall j :: 0 <= j < |pts| - 1 ==> score(best) <= score(FitSegment(env, pts, lat, lon, j))
    ensures forall j :: 0 <= j < k ==> score(best) < score(FitSegment(env, pts, lat, lon, j))
  {
    best := FitSegment(env, pts, lat, lon, 0);
    var scoreMin := score(best);
    k := 0;
    for i := 1 to |pts| - 1
      invariant k < i && best == FitSegment(env, pts, lat, lon, k) && scoreMin == score(best)
      invariant forall j :: 0 <= j < i ==> scoreMin <= score(FitSegment(env, pts, lat, lon, j))
      invariant forall j :: 0 <= j < k ==> scoreMin < score(FitSegment(env, pts, lat, lon, j))
    {
      var f := FitSegment(env, pts, lat, lon, i);
      if score(f) < scoreMin {
        best, scoreMin, k := f, score(f), i;
      }
    }
  }

  /** `projectToShape`: the scan over the lateral distance, then the chosen fit placed back in latitude and longitude. */
  method ProjectToShape(env: Env, pts: seq<ShapePoint>, lat: real, lon: real) returns (r: Option<ProjectedLocation>)
    ensures r == ProjectedToShape(env, pts, lat, lon)
  {
    if |pts| < 2 {
      return None;
    }
    var best, k := ScanSegments(env, pts, lat, lon, PerpScore);
    EarliestMinUnique(PerpScores(Fits(env, pts, lat, lon)), k);
    r := Some(Place(env, lat, lon, best));
  }

  /** `projectToShapeWithTarget`: the scan over the combined score, then the chosen fit placed back. */
  method ProjectToShapeWithTarget(env: Env, pts: seq<ShapePoint>, lat: real, lon: real, postTarget: real)
    returns (r: Option<ProjectedLocation>)
    ensures r == ProjectedToShapeWithTarget(env, pts, lat, lon, postTarget)
  {
    if |pts| < 2 {
      return None;
    }
    var best, k := ScanSegments(env, pts, lat, lon, f => TargetScore(f, postTarget));
    EarliestMinUnique(TargetScores(Fits(env, pts, lat, lon), postTarget), k);
    r := Some(Place(env, lat, lon, best));
  }
}
