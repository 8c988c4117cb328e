/**
 * `TripDistances`: the per-device fix buffers, and how well the recent
 * fixes of a device match each block running today. A block is scored
 * fix by fix against the trip the block runs at the fix's time: the
 * along-track gap to where the schedule puts the bus, the time outside the
 * trip, and the lateral distance to the shape. The numerical score of the
 * series (Simpson integrals, means, weights) and the per-fix distance are
 * collaborators taken from `Env`.
 */
module TripDistancesModel {
  import opened Wrappers
  import opened Util
  import opened StopTimes
  import opened Trips
  import opened Blocks
  import opened Shapes
  import opened Locations
  import opened ProjectedLocations
  import opened Projections
  import opened GtfsData
  import opened LocationBuckets

  /** Fixes from the last ten minutes are scored. */
  const AgeMillis: int := 1000 * 60 * 10

  /** The score of a block when fewer than two recent fixes are available: four hours, in ms. */
  const NoDataScore: real := 14400000.0

  /** Blocks scoring strictly below 40 minutes, in ms, are candidates. */
  const CandidateCutoff: real := 2400000.0

  // ----- getPostmileAtTime -----

  /** A time as ms after the day start. */
  function RelTime(timeMillis: int, daystart: int): int {
    timeMillis - daystart
  }

  /** The outcome of `getPostmileAtTime`: a post, falling off the end of the loop (None), or an exception. */
  datatype PostAt = Post(km: real) | NoPost | Raises

  /** `shape.pointList[-1]['post']` for the trip's shape; None when the shape is unknown or empty (the lookup raises). */
  function ShapeLength(g: Schedule, shapeId: string): Option<real> {
    if shapeId in g.shapeDict && |g.shapeDict[shapeId].pointList| > 0
    then Some(g.shapeDict[shapeId].pointList[|g.shapeDict[shapeId].pointList| - 1].post)
    else None
  }

  function Interpolated(a: real, b: real, pct: real): real {
    a + pct * (b - a)
  }

  /** `x` lies between `a` and `b`, in whichever order they come. */
  predicate Between(x: real, a: real, b: real) {
    (a <= b ==> a <= x <= b) && (b <= a ==> b <= x <= a)
  }

  lemma FractionInUnit(x: int, y: int)
    requires 0 < x < y
    ensures 0.0 < x as real / y as real < 1.0
  {
    var q := x as real / y as real;
    assert q * (y as real) == x as real;
  }

  /** Strictly between two stops the fraction of the gap covered is in (0, 1), so the post lies between theirs. */
  lemma InterpolationBetweenStops(a: real, b: real, tRel: int, dep: int, arr: int)
    requires dep < tRel < arr
    ensures Between(Interpolated(a, b, (tRel - dep) as real / (arr - dep) as real), a, b)
  {
    FractionInUnit(tRel - dep, arr - dep);
    InterpolatedBetween(a, b, (tRel - dep) as real / (arr - dep) as real);
  }

  /**
   * Why stop time `k` gives the post `km` at `tRel`: the bus waits there
   * and `km` is its post; or it is strictly between `k` and the next stop
   * and `km` lies between their posts; or `k` is the last stop and the
   * block goes on with a next trip.
   */
  predicate PostExplained(s: seq<StopTime>, k: nat, tRel: int, next: Option<ScheduledTrip>, km: real)
    requires k < |s|
  {
    (s[k].arrTimeMillis <= tRel <= s[k].depTimeMillis && km == s[k].postKm) ||
    (k + 1 < |s| && s[k].depTimeMillis < tRel < s[k + 1].arrTimeMillis &&
     Between(km, s[k].postKm, s[k + 1].postKm)) ||
    (k + 1 == |s| && next.Some?)
  }

  /**
   * The loop of `getPostmileAtTime` from stop time `i` on, at `tRel` ms
   * after the day start. At a stop's window `[arr, dep]` the stop's post;
   * strictly between a stop's departure and the next stop's arrival the
   * linear interpolation; at the last stop, when the block has a next trip,
   * the interpolation towards the next trip's first stop, counted on from the
   * end of this trip's shape; that division raises when the next trip
   * arrives at its first stop exactly when this one leaves its last, and
   * an unknown or empty shape raises too. With no next trip the loop ends
   * without a result.
   */
  function ScanPost(s: seq<StopTime>, i: nat, tRel: int, next: Option<ScheduledTrip>, shapeLen: Option<real>)
    : (r: PostAt)
    requires i < |s|
    ensures r.NoPost? ==> next.None?
    ensures r.Raises? ==> next.Some?
    decreases |s| - i
  {
    var st := s[i];
    if st.arrTimeMillis <= tRel <= st.depTimeMillis then
      Post(st.postKm)
    else if i + 1 < |s| then
      var nx := s[i + 1];
      if st.depTimeMillis < tRel < nx.arrTimeMillis then
        Post(Interpolated(st.postKm, nx.postKm, (tRel - st.depTimeMillis) as real / (nx.arrTimeMillis - st.depTimeMillis) as real))
      else ScanPost(s, i + 1, tRel, next, shapeLen)
    else
      match next
      case None => NoPost
      case Some(n) =>
        var first := n.stopTimeList[0];
        if first.arrTimeMillis - st.depTimeMillis == 0 || shapeLen.None? then Raises
        else
          var pct := (tRel - st.depTimeMillis) as real / (first.arrTimeMillis - st.depTimeMillis) as real;
          Post(Interpolated(st.postKm, first.postKm + shapeLen.value, pct))
  }

  /**
   * Every post the loop returns is explained by one stop time at or after
   * `i`: waiting there, strictly between it and the next stop, or past the
   * last stop with a next trip.
   */
  lemma {:induction false} ScanPostExplained(s: seq<StopTime>, i: nat, tRel: int, next: Option<ScheduledTrip>,
                                             shapeLen: Option<real>)
    requires i < |s|
    requires ScanPost(s, i, tRel, next, shapeLen).Post?
    ensures exists k :: i <= k < |s| && PostExplained(s, k, tRel, next, ScanPost(s, i, tRel, next, shapeLen).km)
    decreases |s| - i
  {
    var st := s[i];
    var km := ScanPost(s, i, tRel, next, shapeLen).km;
    if st.arrTimeMillis <= tRel <= st.depTimeMillis {
      assert PostExplained(s, i, tRel, next, km);
    } else if i + 1 < |s| {
      var nx := s[i + 1];
      if st.depTimeMillis < tRel < nx.arrTimeMillis {
        InterpolationBetweenStops(st.postKm, nx.postKm, tRel, st.depTimeMillis, nx.arrTimeMillis);
        assert PostExplained(s, i, tRel, next, km);
      } else {
        ScanPostExplained(s, i + 1, tRel, next, shapeLen);
      }
    } else {
      assert PostExplained(s, i, tRel, next, km);
    }
  }

  /**
   * `getPostmileAtTime`: the post the schedule puts the trip at, at
   * `timeMillis`. Waiting at a stop gives the stop's post; strictly between
   * two stops a post between theirs; past the last stop only with a next
   * trip in the block; no result only when there is no next trip.
   */
  function PostmileAtTime(g: Schedule, daystart: int, timeMillis: int, trip: ScheduledTrip): (r: PostAt)
    ensures r.NoPost? ==> NextTripInBlock(g.blocks, trip.tripId).None?
    ensures r.Raises? ==> NextTripInBlock(g.blocks, trip.tripId).Some?
  {
    ScanPost(trip.stopTimeList, 0, RelTime(timeMillis, daystart), NextTripInBlock(g.blocks, trip.tripId), ShapeLength(g, trip.shapeId))
  }

  /** A post at some time is explained by one stop time of the trip, as in `ScanPostExplained`. */
  lemma PostmileExplained(g: Schedule, daystart: int, timeMillis: int, trip: ScheduledTrip)
    requires PostmileAtTime(g, daystart, timeMillis, trip).Post?
    ensures exists k :: 0 <= k < |trip.stopTimeList| && PostExplained(trip.stopTimeList, k, RelTime(timeMillis, daystart),
      NextTripInBlock(g.blocks, trip.tripId), PostmileAtTime(g, daystart, timeMillis, trip).km)
  {
    ScanPostExplained(trip.stopTimeList, 0, RelTime(timeMillis, daystart), NextTripInBlock(g.blocks, trip.tripId),
                      ShapeLength(g, trip.shapeId));
  }

  /** Waiting at the first stop always gives the first stop's post. */
  lemma PostmileAtFirstStop(g: Schedule, daystart: int, timeMillis: int, trip: ScheduledTrip)
    requires trip.stopTimeList[0].arrTimeMillis <= timeMillis - daystart <= trip.stopTimeList[0].depTimeMillis
    ensures PostmileAtTime(g, daystart, timeMillis, trip) == Post(trip.stopTimeList[0].postKm)
  {
  }

  // ----- the per-fix case logic of avgMillisFromBlock -----

  /** Which time the schedule post is read at: the fix's own, the trip's first departure or its last arrival. */
  datatype PostQuery = AtFix | AtFirstDeparture | AtLastArrival

  /**
   * The time-penalty cases: inside the trip nothing; before its first
   * departure the wait until it; after its last arrival the time since it,
   * unless the block has a next trip, in which case nothing. The penalty is
   * never negative.
   */
  function TimeDeviation(ts: int, firstDep: int, lastArr: int, hasNext: bool): (r: (PostQuery, int))
    ensures r.1 >= 0
    ensures firstDep < ts < lastArr ==> r == (AtFix, 0)
    ensures ts <= firstDep ==> r == (AtFirstDeparture, firstDep - ts)
    ensures ts > firstDep && ts >= lastArr ==> r == if hasNext then (AtFix, 0) else (AtLastArrival, ts - lastArr)
  {
    if ts > firstDep && ts < lastArr then (AtFix, 0)
    else if ts <= firstDep then (AtFirstDeparture, firstDep - ts)
    else if hasNext then (AtFix, 0)
    else (AtLastArrival, ts - lastArr)
  }

  /** The schedule post for a query; `p0` is the post already read at the fix's time. */
  function QueriedPost(g: Schedule, daystart: int, trip: ScheduledTrip, q: PostQuery, p0: PostAt,
                       firstDep: int, lastArr: int): PostAt {
    match q
    case AtFix => p0
    case AtFirstDeparture => PostmileAtTime(g, daystart, firstDep, trip)
    case AtLastArrival => PostmileAtTime(g, daystart, lastArr, trip)
  }

  /**
   * The half-circle fix: an along-track gap of more than half the shape is
   * measured the other way round the loop.
   */
  function HalfCircle(postDist: real, totalPost: real): (r: real)
    ensures r == postDist || r == totalPost - postDist
    ensures 0.0 <= postDist <= totalPost ==> 0.0 <= r <= totalPost / 2.0
    ensures r <= totalPost / 2.0 || r == postDist
  {
    if postDist > totalPost / 2.0 then totalPost - postDist else postDist
  }

  /** A fix with a timestamp and a position, as every fix in a bucket is. */
  predicate IsPlacedFix(loc: Location) {
    loc.ts.Some? && HasLatAndLon(loc)
  }

  /** What one fix contributes: its distance and its time for the series, and its projected post. */
  datatype FixFit = FixFit(dist: real, postKm: real, time: real)

  /**
   * One iteration of the loop of `avgMillisFromBlock`, for the trip the
   * block runs at the fix's time. A schedule post that raises or is
   * missing, an unknown shape or one without a segment all raise in the
   * source; each is None here. The along-track gap is at most half the
   * shape's length, measured the short way round.
   */
  function FixForTrip(env: Env, g: Schedule, daystart: int, trip: ScheduledTrip, loc: Location): (r: Option<FixFit>)
    requires loc.ts.Some? && HasLatAndLon(loc)
    ensures r.Some? ==> trip.shapeId in g.shapeDict && |g.shapeDict[trip.shapeId].pointList| >= 2
  {
    var ts := loc.ts.value;
    var next := NextTripInBlock(g.blocks, trip.tripId);
    var firstDep := FirstDepartureMillis(trip) + daystart;
    var lastArr := LastArrivalMillis(trip) + daystart;
    var p0 := PostmileAtTime(g, daystart, ts, trip);
    var dev := TimeDeviation(ts, firstDep, lastArr, next.Some?);
    var postTrip := QueriedPost(g, daystart, trip, dev.0, p0, firstDep, lastArr);
    if p0.Raises? || postTrip.Raises? || trip.shapeId !in g.shapeDict then None
    else
      var pts := g.shapeDict[trip.shapeId].pointList;
      if |pts| < 2 || postTrip.NoPost? then None
      else
        var pl := ProjectedToShape(env, pts, loc.lat.value, loc.lon.value).value;
        var postKm := pl.postKm.value;
        var postDist := HalfCircle(Abs(postTrip.km - postKm), pts[|pts| - 1].post);
        Some(FixFit(env.fixDist(postDist, dev.1, pl.perpKm.value), postKm, ts as real))
  }

  /**
   * One iteration of the loop of `avgMillisFromBlock`; `getTripForTime` on
   * an empty block raises. A bucket only ever holds fixes with a timestamp
   * and a position; any other fix gives None.
   */
  function FixTerm(env: Env, g: Schedule, daystart: int, block: BlockRec, loc: Location): (r: Option<FixFit>)
    ensures r.Some? ==> |block.trips| > 0 && IsPlacedFix(loc)
  {
    if |block.trips| == 0 || !IsPlacedFix(loc) then None
    else
      match TripForTime(block, loc.ts.value - daystart)
      case None => None
      case Some(trip) => FixForTrip(env, g, daystart, trip, loc)
  }

  /** `FixTerm` for one block, as a function of the fix. */
  function FixTermOf(env: Env, g: Schedule, daystart: int, block: BlockRec): Location -> Option<FixFit> {
    loc => FixTerm(env, g, daystart, block, loc)
  }

  /** The loop over the recent fixes, in order; it stops at the first fix that raises. */
  function FixTerms(env: Env, g: Schedule, daystart: int, block: BlockRec, locs: seq<Location>)
    : (r: Option<seq<FixFit>>)
    ensures r.Some? ==> |r.value| == |locs|
  {
    Collect(FixTermOf(env, g, daystart, block), locs)
  }

  /** The loop yields a value for every fix, in order, or nothing at all when any one fix raises. */
  lemma FixTermsAllOrNothing(env: Env, g: Schedule, daystart: int, block: BlockRec, locs: seq<Location>)
    ensures FixTerms(env, g, daystart, block, locs).Some? <==>
      forall i :: 0 <= i < |locs| ==> FixTerm(env, g, daystart, block, locs[i]).Some?
    ensures FixTerms(env, g, daystart, block, locs).Some? ==> forall i :: 0 <= i < |locs| ==>
      FixTerm(env, g, daystart, block, locs[i]) == Some(FixTerms(env, g, daystart, block, locs).value[i])
  {
    CollectAllOrNothing(FixTermOf(env, g, daystart, block), locs);
  }

  function Dists(fs: seq<FixFit>): (ds: seq<real>)
    ensures |ds| == |fs| && forall i :: 0 <= i < |fs| ==> ds[i] == fs[i].dist
  {
    seq(|fs|, i requires 0 <= i < |fs| => fs[i].dist)
  }

  /** `float(loc.ts)` for every fix. */
  function Times(fs: seq<FixFit>): (ts: seq<real>)
    ensures |ts| == |fs| && forall i :: 0 <= i < |fs| ==> ts[i] == fs[i].time
  {
    seq(|fs|, i requires 0 <= i < |fs| => fs[i].time)
  }

  /** `(avgMillis, postKm)`: the score of a block and the projected post of the latest fix. */
  datatype Score = Score(avgMillis: real, postKm: real)

  /**
   * The score of a series of fixes, given what each fix contributes and
   * the score of a distance series over a time series: the no-data score
   * for fewer than two fixes; otherwise the series score, failing when any
   * fix fails, with the post of the last fix.
   */
  function SeriesScore(score: (seq<real>, seq<real>) -> real, fit: Location -> Option<FixFit>, locs: seq<Location>)
    : (r: Option<Score>)
    ensures |locs| <= 1 ==> r == Some(Score(NoDataScore, 0.0))
  {
    if |locs| <= 1 then Some(Score(NoDataScore, 0.0))
    else
      match Collect(fit, locs)
      case None => None
      case Some(fs) => Some(Score(score(Dists(fs), Times(fs)), fs[|fs| - 1].postKm))
  }

  /** `avgMillisFromBlock` over the recent fixes, each fix fitted against the block's trip at its time. */
  function BlockScore(env: Env, g: Schedule, daystart: int, block: BlockRec, locs: seq<Location>): (r: Option<Score>)
    ensures |locs| <= 1 ==> r == Some(Score(NoDataScore, 0.0))
  {
    SeriesScore(env.score, FixTermOf(env, g, daystart, block), locs)
  }

  /**
   * With two or more fixes a block is scored exactly when no fix raises,
   * and the post returned is the projection of the latest fix.
   */
  lemma BlockScoreCases(env: Env, g: Schedule, daystart: int, block: BlockRec, locs: seq<Location>)
    requires |locs| >= 2
    ensures BlockScore(env, g, daystart, block, locs).Some? <==>
      forall i :: 0 <= i < |locs| ==> FixTerm(env, g, daystart, block, locs[i]).Some?
    ensures BlockScore(env, g, daystart, block, locs).Some? ==>
      BlockScore(env, g, daystart, block, locs).value.postKm ==
      FixTerm(env, g, daystart, block, locs[|locs| - 1]).value.postKm
  {
    FixTermsAllOrNothing(env, g, daystart, block, locs);
  }

  // ----- the candidate filter of checkBucketAgainstAllBlocks -----

  /** One entry of `candidateBlocks[deviceId]`. */
  datatype Candidate = Candidate(avgMillis: real, block: BlockRec, postKm: real, prob: real)

  function CandidateOf(env: Env, b: BlockRec, sc: Score): Candidate {
    Candidate(sc.avgMillis, b, sc.postKm, env.prob(sc.avgMillis))
  }

  /** `BlockScore` for one set of fixes, as a function of the block. */
  function BlockScoreOf(env: Env, g: Schedule, daystart: int, locs: seq<Location>): BlockRec -> Option<Score>
  {
    block => BlockScore(env, g, daystart, block, locs)
  }

  /** Keep, in block order, the blocks whose score is strictly below the cutoff. */
  function BelowCutoff(env: Env, blocks: seq<BlockRec>, scores: seq<Score>): (r: seq<Candidate>)
    requires |scores| == |blocks|
    ensures |r| <= |blocks|
    decreases |blocks|
  {
    if |blocks| == 0 then []
    else
      var n := |blocks| - 1;
      var cs := BelowCutoff(env, blocks[..n], scores[..n]);
      if scores[n].avgMillis < CandidateCutoff then cs + [CandidateOf(env, blocks[n], scores[n])] else cs
  }

  /** The candidates of the filter are exactly the blocks scoring below the cutoff, with their scores. */
  lemma {:induction false} BelowCutoffExactly(env: Env, blocks: seq<BlockRec>, scores: seq<Score>)
    requires |scores| == |blocks|
    ensures forall c :: c in BelowCutoff(env, blocks, scores) ==>
      c.avgMillis < CandidateCutoff && c.prob == env.prob(c.avgMillis)
    ensures forall c :: c in BelowCutoff(env, blocks, scores) ==>
      exists i :: 0 <= i < |blocks| && blocks[i] == c.block && scores[i] == Score(c.avgMillis, c.postKm)
    ensures forall i :: 0 <= i < |blocks| && scores[i].avgMillis < CandidateCutoff ==>
      CandidateOf(env, blocks[i], scores[i]) in BelowCutoff(env, blocks, scores)
    decreases |blocks|
  {
    if |blocks| > 0 {
      var n := |blocks| - 1;
      BelowCutoffExactly(env, blocks[..n], scores[..n]);
      var cs := BelowCutoff(env, blocks[..n], scores[..n]);
      forall c | c in cs
        ensures exists i :: 0 <= i < |blocks| && blocks[i] == c.block && scores[i] == Score(c.avgMillis, c.postKm)
      {
        var i :| 0 <= i < n && blocks[..n][i] == c.block && scores[..n][i] == Score(c.avgMillis, c.postKm);
        assert blocks[i] == c.block && scores[i] == Score(c.avgMillis, c.postKm);
      }
      forall i | 0 <= i < n && scores[i].avgMillis < CandidateCutoff
        ensures CandidateOf(env, blocks[i], scores[i]) in cs
      {
        assert blocks[..n][i] == blocks[i] && scores[..n][i] == scores[i];
      }
    }
  }

  /** Keeping blocks whose every score is above the cutoff gives nothing. */
  lemma {:induction false} NothingBelowCutoff(env: Env, blocks: seq<BlockRec>, scores: seq<Score>)
    requires |scores| == |blocks|
    requires forall i :: 0 <= i < |scores| ==> scores[i].avgMillis >= CandidateCutoff
    ensures BelowCutoff(env, blocks, scores) == []
    decreases |blocks|
  {
    if |blocks| > 0 {
      NothingBelowCutoff(env, blocks[..|blocks| - 1], scores[..|blocks| - 1]);
    }
  }

  /** The loop over some blocks with the block score `score`: the candidates, or None as soon as a score fails. */
  function CandidatesWith(env: Env, score: BlockRec -> Option<Score>, blocks: seq<BlockRec>)
    : (r: Option<seq<Candidate>>)
    ensures r.Some? ==> |r.value| <= |blocks|
  {
    match Collect(score, blocks)
    case None => None
    case Some(scs) => Some(BelowCutoff(env, blocks, scs))
  }

  /** The loop over today's blocks: the candidates, or None as soon as scoring a block raises. */
  function Candidates(env: Env, g: Schedule, daystart: int, locs: seq<Location>, blocks: seq<BlockRec>)
    : (r: Option<seq<Candidate>>)
    ensures r.Some? ==> |r.value| <= |blocks|
  {
    CandidatesWith(env, BlockScoreOf(env, g, daystart, locs), blocks)
  }

  /** The blocks are filtered exactly when no block's score raises. */
  lemma CandidatesAllOrNothing(env: Env, g: Schedule, daystart: int, locs: seq<Location>, blocks: seq<BlockRec>)
    ensures Candidates(env, g, daystart, locs, blocks).Some? <==>
      forall i :: 0 <= i < |blocks| ==> BlockScore(env, g, daystart, blocks[i], locs).Some?
  {
    CollectAllOrNothing(BlockScoreOf(env, g, daystart, locs), blocks);
  }

  /**
   * The candidates are exactly the blocks scoring strictly below 40
   * minutes, each with its score, the latest projected post and the
   * confidence of that score.
   */
  lemma CandidatesExactly(env: Env, g: Schedule, daystart: int, locs: seq<Location>, blocks: seq<BlockRec>)
    requires Candidates(env, g, daystart, locs, blocks).Some?
    ensures forall c :: c in Candidates(env, g, daystart, locs, blocks).value ==>
      c.block in blocks && c.avgMillis < CandidateCutoff && c.prob == env.prob(c.avgMillis) &&
      BlockScore(env, g, daystart, c.block, locs) == Some(Score(c.avgMillis, c.postKm))
    ensures forall b :: b in blocks && BlockScore(env, g, daystart, b, locs).Some? &&
                        BlockScore(env, g, daystart, b, locs).value.avgMillis < CandidateCutoff ==>
      CandidateOf(env, b, BlockScore(env, g, daystart, b, locs).value) in Candidates(env, g, daystart, locs, blocks).value
  {
    var f := BlockScoreOf(env, g, daystart, locs);
    CollectAllOrNothing(f, blocks);
    var scs := Collect(f, blocks).value;
    BelowCutoffExactly(env, blocks, scs);
    forall c | c in Candidates(env, g, daystart, locs, blocks).value
      ensures c.block in blocks && BlockScore(env, g, daystart, c.block, locs) == Some(Score(c.avgMillis, c.postKm))
    {
      var i :| 0 <= i < |blocks| && blocks[i] == c.block && scs[i] == Score(c.avgMillis, c.postKm);
      assert f(blocks[i]) == Some(scs[i]);
    }
    forall b | b in blocks && BlockScore(env, g, daystart, b, locs).Some? &&
               BlockScore(env, g, daystart, b, locs).value.avgMillis < CandidateCutoff
      ensures CandidateOf(env, b, BlockScore(env, g, daystart, b, locs).value) in BelowCutoff(env, blocks, scs)
    {
      var i :| 0 <= i < |blocks| && blocks[i] == b;
      assert f(blocks[i]) == Some(scs[i]);
    }
  }

  /** A device with fewer than two recent fixes has no candidate at all: the no-data score is above the cutoff. */
  lemma FewFixesNoCandidates(env: Env, g: Schedule, daystart: int, locs: seq<Location>, blocks: seq<BlockRec>)
    requires |locs| <= 1
    ensures Candidates(env, g, daystart, locs, blocks) == Some([])
  {
    var f := BlockScoreOf(env, g, daystart, locs);
    CollectAllOrNothing(f, blocks);
    var scs := Collect(f, blocks).value;
    assert forall i :: 0 <= i < |blocks| ==> f(blocks[i]) == Some(scs[i]);
    NothingBelowCutoff(env, blocks, scs);
  }

  /** `checkBucketAgainstAllBlocks`: score the fixes against today's blocks; an unknown service raises. */
  function CandidatesAt(env: Env, g: Schedule, time: int, daystart: int, locs: seq<Location>)
    : (r: Option<seq<Candidate>>)
    ensures r.Some? ==> ServicesKnown(g)
  {
    match TodayBlocks(env, g, time)
    case None => None
    case Some(bs) => Candidates(env, g, daystart, locs, bs)
  }

  // ----- getBestTrip -----

  /**
   * The distance `getBestTrip` computes for a trip and the latest fix: the
   * same cases as `avgMillisFromBlock` without the next-trip exception and
   * without the half-circle fix. It is None where the source raises.
   */
  function BestTripDist(env: Env, g: Schedule, daystart: int, trip: ScheduledTrip, loc: Location): Option<real>
    requires loc.ts.Some? && HasLatAndLon(loc)
  {
    var ts := loc.ts.value;
    var firstDep := FirstDepartureMillis(trip) + daystart;
    var lastArr := LastArrivalMillis(trip) + daystart;
    var p0 := PostmileAtTime(g, daystart, ts, trip);
    var dev := TimeDeviation(ts, firstDep, lastArr, false);
    var postTrip := QueriedPost(g, daystart, trip, dev.0, p0, firstDep, lastArr);
    if p0.Raises? || postTrip.Raises? || trip.shapeId !in g.shapeDict then None
    else
      var pts := g.shapeDict[trip.shapeId].pointList;
      if |pts| < 2 || postTrip.NoPost? then None
      else
        var pl := ProjectedToShape(env, pts, loc.lat.value, loc.lon.value).value;
        Some(env.fixDist(postTrip.km - pl.postKm.value, dev.1, pl.perpKm.value))
  }

  /**
   * `getBestTrip`. The loop variable is overwritten by
   * `getTripForTime` on every pass, so every entry of the list holds the
   * same trip and the result is always the block's trip for the latest fix's
   * time. No recent fix, an empty block, or a distance that raises: None
   * (a bucket only holds fixes with a timestamp and a position; any other
   * latest fix gives None too).
   */
  function BestTrip(env: Env, g: Schedule, daystart: int, locs: seq<Location>, block: BlockRec)
    : (r: Option<ScheduledTrip>)
  {
    if |locs| == 0 || |block.trips| == 0 || !IsPlacedFix(locs[|locs| - 1]) then None
    else TripAtFix(env, g, daystart, block, locs[|locs| - 1])
  }

  /** The trip `getBestTrip` picks for a placed latest fix `last`: the block's trip at its time, when its distance is defined. */
  function TripAtFix(env: Env, g: Schedule, daystart: int, block: BlockRec, last: Location): Option<ScheduledTrip>
    requires |block.trips| > 0 && IsPlacedFix(last)
  {
    match TripForTime(block, last.ts.value - daystart)
    case None => None
    case Some(trip) => if BestTripDist(env, g, daystart, trip, last).None? then None else Some(trip)
  }

  /**
   * The best trip is a trip of the block, and there is one exactly when
   * the block has trips, a recent fix exists and the distance of the
   * block's trip at that fix's time can be computed.
   */
  lemma BestTripCases(env: Env, g: Schedule, daystart: int, locs: seq<Location>, block: BlockRec)
    ensures BestTrip(env, g, daystart, locs, block).Some? ==> BestTrip(env, g, daystart, locs, block).value in block.trips
    ensures BestTrip(env, g, daystart, locs, block).Some? ==>
      BestTrip(env, g, daystart, locs, block) == TripForTime(block, locs[|locs| - 1].ts.value - daystart)
    ensures BestTrip(env, g, daystart, locs, block).Some? <==>
      |locs| > 0 && |block.trips| > 0 && IsPlacedFix(locs[|locs| - 1]) &&
      var last := locs[|locs| - 1];
      TripForTime(block, last.ts.value - daystart).Some? &&
      BestTripDist(env, g, daystart, TripForTime(block, last.ts.value - daystart).value, last).Some?
  {
    if |locs| > 0 && |block.trips| > 0 && IsPlacedFix(locs[|locs| - 1]) {
      TripForTimeTotal(block, locs[|locs| - 1].ts.value - daystart);
    }
  }

  /**
   * The loop of `avgMillisFromBlock` over a device's recent fixes, with
   * the per-fix step `fit` and the series score `score`.
   */
  method ScoreSeries(score: (seq<real>, seq<real>) -> real, fit: Location -> Option<FixFit>, locList: seq<Location>)
    returns (r: Option<Score>)
    ensures r == SeriesScore(score, fit, locList)
  {
    if |locList| <= 1 {
      return Some(Score(NoDataScore, 0.0));
    }
    ghost var fits: seq<FixFit> := [];
    var distSeries: seq<real> := [];
    var timeSeries: seq<real> := [];
    var finalPost := 0.0;
    for i := 0 to |locList|
      invariant |fits| == i && |distSeries| == i && |timeSeries| == i
      invariant Collect(fit, locList[..i]) == Some(fits)
      invariant forall j :: 0 <= j < i ==> distSeries[j] == fits[j].dist
      invariant forall j :: 0 <= j < i ==> timeSeries[j] == fits[j].time
      invariant i > 0 ==> finalPost == fits[i - 1].postKm
    {
      var f := fit(locList[i]);
      CollectStep(fit, locList, i);
      if f.None? {
        CollectNoneStays(fit, locList, i + 1);
        return None;
      }
      fits := fits + [f.value];
      distSeries := distSeries + [f.value.dist];
      timeSeries := timeSeries + [f.value.time];
      finalPost := f.value.postKm;
    }
    assert locList[..|locList|] == locList;
    assert distSeries == Dists(fits);
    assert timeSeries == Times(fits);
    r := Some(Score(score(distSeries, timeSeries), finalPost));
  }

  // ----- the scorer's state -----

  /**
   * `TripDistances`: one `LocationBucket` per device, the candidate blocks
   * found for each device, the scorer's clock and the start of its
   * service day. `devices` is the order in which devices were first seen,
   * the order of iteration over the buckets.
   */
  class TripDistances {
    const g: Schedule
    const env: Env
    var devices: seq<string>
    var buckets: map<string, LocationBucket>
    var candidateBlocks: map<string, seq<Candidate>>
    var time: int
    var daystart: int

    ghost function Buckets(): set<LocationBucket>
      reads this`buckets
    {
      set d | d in buckets :: buckets[d]
    }

    /**
     * Every device seen has exactly one bucket, labelled with that device
     * (so no bucket is shared), holding its fixes in time order; candidates
     * are only ever computed for devices with a bucket.
     */
    ghost predicate Valid()
      reads this, Buckets()
    {
      (forall d :: d in buckets <==> d in devices) &&
      (forall i, j :: 0 <= i < j < |devices| ==> devices[i] != devices[j]) &&
      BucketsValid() &&
      candidateBlocks.Keys <= buckets.Keys
    }

    /** Each bucket is labelled with its own device and holds its fixes in time order. */
    ghost predicate BucketsValid()
      reads this`buckets, Buckets()
    {
      forall d :: d in buckets ==> buckets[d].Valid() && buckets[d].deviceId == Some(d)
    }

    /** The fixes of the last ten minutes, by the bucket's own clock, that every score is computed from. */
    function Recent(d: string): (r: seq<Location>)
      requires d in buckets && buckets[d].Valid()
      reads this`buckets, buckets[d]
    {
      KeepSince(buckets[d].locationList, buckets[d].time - AgeMillis)
    }

    constructor (g: Schedule, env: Env)
      ensures Valid()
      ensures this.g == g && this.env == env
      ensures devices == [] && buckets == map[] && candidateBlocks == map[] && time == 0 && daystart == 0
    {
      this.g, this.env := g, env;
      devices, buckets, candidateBlocks := [], map[], map[];
      time, daystart := 0, 0;
    }

    /**
     * `addLocation`: a device seen for the first time gets an empty bucket
     * whose clock is 0; the fix then goes into the device's bucket as
     * `LocationBucket.addLocation` places it. Nothing else changes.
     */
    method AddLocation(loc: Location)
      requires Valid() && IsFix(loc)
      modifies this, Buckets()
      ensures var d := loc.deviceId.value;
        devices == old(devices) + (if d in old(buckets) then [] else [d]) &&
        buckets.Keys == old(buckets.Keys) + {d}
      ensures forall e :: e in old(buckets) ==> buckets[e] == old(buckets[e])
      ensures Valid()
      ensures var d := loc.deviceId.value;
        buckets[d].locationList == AddedLocation(if d in old(buckets) then old(buckets[d].locationList) else [], loc) &&
        buckets[d].time == if d in old(buckets) then old(buckets[d].time) else 0
      ensures forall e :: e in old(buckets) && e != loc.deviceId.value ==>
        buckets[e].locationList == old(buckets[e].locationList) && buckets[e].time == old(buckets[e].time)
      ensures candidateBlocks == old(candidateBlocks) && time == old(time) && daystart == old(daystart)
      ensures fresh(Buckets() - old(Buckets()))
    {
      var d := loc.deviceId.value;
      var b := BucketFor(d);
      label Found:
      var _ := b.AddLocation(loc);
      OneBucketChanged@Found(this, d);
    }

    /** The device's bucket, made empty with clock 0 when the device is new. */
    method BucketFor(d: string) returns (b: LocationBucket)
      requires Valid()
      modifies this
      ensures Valid()
      ensures devices == old(devices) + (if d in old(buckets) then [] else [d])
      ensures buckets.Keys == old(buckets.Keys) + {d} && b == buckets[d]
      ensures forall e :: e in old(buckets) ==> buckets[e] == old(buckets[e])
      ensures d !in old(buckets) ==> fresh(b) && b.locationList == [] && b.time == 0
      ensures forall e :: e in buckets && e != d ==> buckets[e] != b
      ensures candidateBlocks == old(candidateBlocks) && time == old(time) && daystart == old(daystart)
      ensures fresh(Buckets() - old(Buckets()))
    {
      if d !in buckets {
        b := new LocationBucket(Some(d));
        buckets := buckets[d := b];
        devices := devices + [d];
      } else {
        b := buckets[d];
      }
    }

    /**
     * `updateTime`: the scorer's clock, the day start (which never moves
     * back) and the clock of every bucket are set; no fix changes.
     */
    method UpdateTime(t: int)
      requires Valid()
      modifies this, Buckets()
      ensures devices == old(devices) && buckets == old(buckets) && candidateBlocks == old(candidateBlocks)
      ensures Valid()
      ensures time == t && daystart == if env.dayStart(t) > old(daystart) then env.dayStart(t) else old(daystart)
      ensures daystart >= old(daystart)
      ensures forall d :: d in buckets ==> buckets[d].time == t && buckets[d].locationList == old(buckets[d].locationList)
    {
      time := t;
      var ds := env.dayStart(t);
      if ds > daystart {
        daystart := ds;
      }
      SetBucketClocks(t);
    }

    /** The loop of `updateTime`: every bucket's clock is set to `t`. */
    method SetBucketClocks(t: int)
      requires Valid()
      modifies Buckets()
      ensures BucketsValid()
      ensures forall d :: d in buckets ==> buckets[d].time == t && buckets[d].locationList == old(buckets[d].locationList)
    {
      for i := 0 to |devices|
        invariant forall d :: d in buckets ==> buckets[d].locationList == old(buckets[d].locationList)
        invariant forall j :: 0 <= j < i ==> buckets[devices[j]].time == t
      {
        var b := buckets[devices[i]];
        assert forall j :: 0 <= j < |devices| && j != i ==> buckets[devices[j]] != b;
        b.SetTime(t);
      }
      assert forall d :: d in buckets ==> exists j :: 0 <= j < |devices| && devices[j] == d;
    }

    /** `avgMillisFromBlock`: the fixes of the last ten minutes scored against a block. */
    method AvgMillisFromBlock(d: string, block: BlockRec) returns (r: Option<Score>)
      requires Valid() && d in buckets
      ensures r == BlockScore(env, g, daystart, block, Recent(d))
    {
      var locList := buckets[d].GetRecent(AgeMillis);
      assert locList == Recent(d);
      r := ScoreSeries(env.score, FixTermOf(env, g, daystart, block), locList);
    }

    /**
     * `checkBucketAgainstAllBlocks`: the candidates of one device among
     * today's blocks. When scoring raises (`ok` is false) the candidates are
     * not stored; otherwise they replace the device's previous ones.
     */
    method CheckBucketAgainstAllBlocks(d: string) returns (ok: bool)
      requires Valid() && d in buckets
      modifies this`candidateBlocks
      ensures Valid()
      ensures ok <==> CandidatesAt(env, g, time, daystart, Recent(d)).Some?
      ensures ok ==> candidateBlocks == old(candidateBlocks)[d := CandidatesAt(env, g, time, daystart, Recent(d)).value]
      ensures !ok ==> candidateBlocks == old(candidateBlocks)
    {
      var locList := buckets[d].GetRecent(AgeMillis);
      assert locList == Recent(d);
      var cands := CandidatesToday(env, g, time, daystart, locList);
      if cands.None? {
        return false;
      }
      candidateBlocks := candidateBlocks[d := cands.value];
      ok := true;
    }

    /** The fixes of the last ten minutes of each device of `ds`. */
    function RecentOf(ds: seq<string>): (r: seq<seq<Location>>)
      requires BucketsValid() && forall j :: 0 <= j < |ds| ==> ds[j] in buckets
      reads this`buckets, Buckets()
      ensures |r| == |ds| && forall j :: 0 <= j < |ds| ==> r[j] == Recent(ds[j])
      decreases |ds|
    {
      if |ds| == 0 then [] else RecentOf(ds[..|ds| - 1]) + [Recent(ds[|ds| - 1])]
    }

    /**
     * `checkAllBucketsBlind`: `checkBucketAgainstAllBlocks` for every
     * device, in the order the devices were first seen. When scoring raises
     * for one device the later ones are not scored, the earlier ones keep
     * their new candidates, and `ok` is false.
     */
    method CheckAllBucketsBlind() returns (ok: bool)
      requires Valid()
      modifies this`candidateBlocks
      ensures Valid()
      ensures RecentOf(devices) == old(RecentOf(devices))
      ensures (candidateBlocks, ok) ==
        StoreInOrder(CandidatesFn(env, g, time, daystart), old(candidateBlocks), devices, RecentOf(devices))
      ensures old(candidateBlocks.Keys) <= candidateBlocks.Keys
      ensures ok ==> forall j :: 0 <= j < |devices| ==> devices[j] in candidateBlocks
    {
      assert forall j :: 0 <= j < |devices| ==> devices[j] in buckets;
      var recents := RecentOf(devices);
      ghost var want := CandidatesFn(env, g, time, daystart);
      ghost var c0 := candidateBlocks;
      var stored;
      stored, ok := StoreCandidates(env, g, time, daystart, candidateBlocks, devices, recents);
      assert (stored, ok) == StoreInOrder(want, c0, devices, recents);
      candidateBlocks := stored;
      RecentsUntouched(this);
    }

    /** `getBestTrip` on the device's fixes of the last ten minutes. */
    method GetBestTrip(d: string, block: BlockRec) returns (r: Option<ScheduledTrip>)
      requires Valid() && d in buckets
      ensures r == BestTrip(env, g, daystart, Recent(d), block)
    {
      var locList := buckets[d].GetRecent(AgeMillis);
      assert locList == Recent(d);
      r := PickBestTrip(env, g, daystart, block, locList);
    }
  }

  /** `checkBucketAgainstAllBlocks` on a list of fixes, as a function of the fixes. */
  function CandidatesFn(env: Env, g: Schedule, time: int, daystart: int): seq<Location> -> Option<seq<Candidate>> {
    locs => CandidatesAt(env, g, time, daystart, locs)
  }

  /**
   * Storing, key by key in order, what each key's input gives, stopping
   * with `false` at the first input that gives None (the keys before it
   * stay stored).
   */
  function StoreInOrder<K, L, V>(want: L -> Option<V>, stored: map<K, V>, ks: seq<K>, ls: seq<L>): (r: (map<K, V>, bool))
    requires |ks| == |ls|
    decreases |ks|
  {
    if |ks| == 0 then (stored, true)
    else match want(ls[0])
      case None => (stored, false)
      case Some(v) => StoreInOrder(want, stored[ks[0] := v], ks[1..], ls[1..])
  }

  /**
   * Storing succeeds iff every input gives something; then exactly the
   * keys are added, each (the keys being distinct) holding what its input
   * gives, and the other entries stay.
   */
  lemma {:induction false} StoreInOrderCases<K, L, V>(want: L -> Option<V>, stored: map<K, V>, ks: seq<K>, ls: seq<L>)
    requires |ks| == |ls|
    requires forall i, j :: 0 <= i < j < |ks| ==> ks[i] != ks[j]
    ensures StoreInOrder(want, stored, ks, ls).1 <==> forall j :: 0 <= j < |ls| ==> want(ls[j]).Some?
    ensures StoreInOrder(want, stored, ks, ls).1 ==>
      StoreInOrder(want, stored, ks, ls).0.Keys == stored.Keys + (set j | 0 <= j < |ks| :: ks[j])
    ensures StoreInOrder(want, stored, ks, ls).1 ==>
      forall j :: 0 <= j < |ks| ==> Some(StoreInOrder(want, stored, ks, ls).0[ks[j]]) == want(ls[j])
    ensures StoreInOrder(want, stored, ks, ls).1 ==>
      forall k :: k in stored && k !in ks ==> StoreInOrder(want, stored, ks, ls).0[k] == stored[k]
    decreases |ks|
  {
    if |ks| > 0 {
      match want(ls[0])
      case None =>
      case Some(v) =>
        var rest, restL := ks[1..], ls[1..];
        StoreInOrderCases(want, stored[ks[0] := v], rest, restL);
        assert forall j :: 0 < j < |ks| ==> ks[j] == rest[j - 1] && ls[j] == restL[j - 1];
        assert (set j | 0 <= j < |ks| :: ks[j]) == {ks[0]} + (set j | 0 <= j < |rest| :: rest[j]);
    }
  }

  /** Storing adds no key but the given ones, and removes none. */
  lemma {:induction false} StoreInOrderKeys<K, L, V>(want: L -> Option<V>, stored: map<K, V>, ks: seq<K>, ls: seq<L>)
    requires |ks| == |ls|
    ensures StoreInOrder(want, stored, ks, ls).0.Keys <= stored.Keys + (set j | 0 <= j < |ks| :: ks[j])
    ensures stored.Keys <= StoreInOrder(want, stored, ks, ls).0.Keys
    decreases |ks|
  {
    if |ks| > 0 {
      match want(ls[0])
      case None =>
      case Some(v) =>
        var rest := ks[1..];
        StoreInOrderKeys(want, stored[ks[0] := v], rest, ls[1..]);
        assert forall j :: 0 < j < |ks| ==> ks[j] == rest[j - 1];
        assert (set j | 0 <= j < |ks| :: ks[j]) == {ks[0]} + (set j | 0 <= j < |rest| :: rest[j]);
    }
  }

  /**
   * The loop of `checkAllBucketsBlind`: the candidates of each device
   * `devices[i]` from its fixes `recents[i]`, stored in device order.
   */
  method StoreCandidates(env: Env, g: Schedule, time: int, daystart: int, stored0: map<string, seq<Candidate>>,
                         devices: seq<string>, recents: seq<seq<Location>>)
    returns (stored: map<string, seq<Candidate>>, ok: bool)
    requires |devices| == |recents|
    ensures (stored, ok) == StoreInOrder(CandidatesFn(env, g, time, daystart), stored0, devices, recents)
    ensures stored0.Keys <= stored.Keys
    ensures forall k :: k in stored ==> k in stored0 || k in devices
    ensures ok ==> forall j :: 0 <= j < |devices| ==> devices[j] in stored
  {
    ghost var want := CandidatesFn(env, g, time, daystart);
    stored, ok := stored0, true;
    for i := 0 to |devices|
      invariant StoreInOrder(want, stored0, devices, recents) == StoreInOrder(want, stored, devices[i..], recents[i..])
      invariant stored0.Keys <= stored.Keys
      invariant forall k :: k in stored ==> k in stored0 || k in devices[..i]
      invariant forall j :: 0 <= j < i ==> devices[j] in stored
    {
      var cands := CandidatesToday(env, g, time, daystart, recents[i]);
      assert devices[i..][1..] == devices[i + 1..];
      assert recents[i..][1..] == recents[i + 1..];
      if cands.None? {
        ok := false;
        return;
      }
      stored := stored[devices[i] := cands.value];
    }
  }

  /** `checkBucketAgainstAllBlocks` on one list of fixes: today's blocks, then the loop over them. */
  method CandidatesToday(env: Env, g: Schedule, time: int, daystart: int, locList: seq<Location>)
    returns (r: Option<seq<Candidate>>)
    ensures r == CandidatesAt(env, g, time, daystart, locList)
  {
    var today := GetTodayBlocks(env, g, time);
    if today.None? {
      return None;
    }
    r := FilterBlocks(env, BlockScoreOf(env, g, daystart, locList), today.value);
  }

  /**
   * The loop of `checkBucketAgainstAllBlocks` over `blocks`, each scored
   * by `score`: those scoring strictly below the cutoff are kept, in block
   * order; None as soon as a score fails.
   */
  method FilterBlocks(env: Env, score: BlockRec -> Option<Score>, blocks: seq<BlockRec>)
    returns (r: Option<seq<Candidate>>)
    ensures r == CandidatesWith(env, score, blocks)
  {
    ghost var scs: seq<Score> := [];
    var cands: seq<Candidate> := [];
    for i := 0 to |blocks|
      invariant Collect(score, blocks[..i]) == Some(scs)
      invariant cands == BelowCutoff(env, blocks[..i], scs)
    {
      var sc := score(blocks[i]);
      CollectStep(score, blocks, i);
      if sc.None? {
        CollectNoneStays(score, blocks, i + 1);
        return None;
      }
      assert blocks[..i + 1][..i] == blocks[..i];
      assert (scs + [sc.value])[..i] == scs;
      if sc.value.avgMillis < CandidateCutoff {
        cands := cands + [Candidate(sc.value.avgMillis, blocks[i], sc.value.postKm, env.prob(sc.value.avgMillis))];
      }
      scs := scs + [sc.value];
    }
    assert blocks[..|blocks|] == blocks;
    r := Some(cands);
  }

  /**
   * The loop of `getBestTrip`: one pass per trip of the block, in
   * departure order; each pass scores the block's trip at the latest fix's
   * time, and the first of the smallest distances is picked.
   */
  method PickBestTrip(env: Env, g: Schedule, daystart: int, block: BlockRec, locList: seq<Location>)
    returns (r: Option<ScheduledTrip>)
    ensures r == BestTrip(env, g, daystart, locList, block)
  {
    if |locList| == 0 || |block.trips| == 0 {
      return None;
    }
    var lastLoc := locList[|locList| - 1];
    if lastLoc.ts.None? || !HasLatAndLon(lastLoc) {
      return None;
    }
    var tripList := SortByDeparture(block.trips);
    var time := lastLoc.ts.value;
    assert BestTrip(env, g, daystart, locList, block) == TripAtFix(env, g, daystart, block, lastLoc);
    var scored := ScoreTrips(env, g, daystart, block, |tripList|, time, lastLoc);
    if scored.None? {
      return None;
    }
    var k := EarliestMin(scored.value.0);
    r := Some(scored.value.1[k]);
  }

  /**
   * The passes of `getBestTrip`'s loop, `n` of them: each finds the
   * block's trip at `time` and its distance from the fix; None as soon as
   * either fails.
   */
  method ScoreTrips(env: Env, g: Schedule, daystart: int, block: BlockRec, n: nat, time: int, lastLoc: Location)
    returns (r: Option<(seq<real>, seq<ScheduledTrip>)>)
    requires |block.trips| > 0 && IsPlacedFix(lastLoc)
    ensures var best := TripForTime(block, time - daystart);
      r.None? <==> n > 0 && (best.None? || BestTripDist(env, g, daystart, best.value, lastLoc).None?)
    ensures r.Some? ==> |r.value.0| == n && |r.value.1| == n
    ensures r.Some? ==> forall j :: 0 <= j < n ==> Some(r.value.1[j]) == TripForTime(block, time - daystart)
  {
    ghost var best := TripForTime(block, time - daystart);
    var dists: seq<real> := [];
    var trips: seq<ScheduledTrip> := [];
    for i := 0 to n
      invariant |dists| == i && |trips| == i
      invariant i > 0 ==> best.Some? && BestTripDist(env, g, daystart, best.value, lastLoc).Some?
      invariant forall j :: 0 <= j < i ==> Some(trips[j]) == best
    {
      var found := TripForTime(block, time - daystart);
      if found.None? {
        return None;
      }
      var trip := found.value;
      var dist := BestTripDist(env, g, daystart, trip, lastLoc);
      if dist.None? {
        return None;
      }
      dists := dists + [dist.value];
      trips := trips + [trip];
    }
    r := Some((dists, trips));
  }

  /** A step that changes only the bucket of `d`, and keeps it consistent, keeps the scorer's invariant and its other buckets. */
  twostate lemma OneBucketChanged(new td: TripDistances, d: string)
    requires old(allocated(td)) && old(td.Valid()) && unchanged(td) && d in td.buckets
    requires forall e :: e in td.buckets && e != d ==> unchanged(td.buckets[e])
    requires td.buckets[d].Valid()
    ensures td.Valid() && td.Buckets() == old(td.Buckets())
    ensures forall e :: e in td.buckets && e != d ==>
      td.buckets[e].locationList == old(td.buckets[e].locationList) && td.buckets[e].time == old(td.buckets[e].time)
  {
  }

  /** A step that leaves the scorer and every bucket alone leaves its invariant alone. */
  twostate lemma ScorerUntouched(new td: TripDistances)
    requires old(allocated(td)) && old(td.Valid()) && unchanged(td) && unchanged(td.Buckets())
    ensures td.Valid() && forall j :: 0 <= j < |td.devices| ==> td.devices[j] in td.buckets
    ensures old(forall j :: 0 <= j < |td.devices| ==> td.devices[j] in td.buckets)
    ensures td.RecentOf(td.devices) == old(td.RecentOf(td.devices))
  {
    assert forall j :: 0 <= j < |td.devices| ==> td.devices[j] in td.buckets;
  }

  /** A step that leaves the devices, their buckets and every fix alone leaves the recent fixes alone. */
  twostate lemma RecentsUntouched(new td: TripDistances)
    requires old(allocated(td)) && old(td.Valid())
    requires td.devices == old(td.devices) && td.buckets == old(td.buckets)
    requires forall d :: d in td.buckets ==> unchanged(td.buckets[d])
    ensures td.BucketsValid() && forall j :: 0 <= j < |td.devices| ==> td.devices[j] in td.buckets
    ensures old(forall j :: 0 <= j < |td.devices| ==> td.devices[j] in td.buckets)
    ensures td.RecentOf(td.devices) == old(td.RecentOf(td.devices))
  {
    assert forall j :: 0 <= j < |td.devices| ==> td.devices[j] in td.buckets;
  }
}
