/** `Trip`: one scheduled run, with its stop times kept sorted by stop sequence. */
module Trips {
  import opened Wrappers
  import opened StopTimes

  /** The value of a trip once it has been built (the schedule never changes it afterwards). */
  datatype TripRec = TripRec(
    tripId: string,
    blockId: string,
    routeId: string,
    shapeId: string,
    stopTimeList: seq<StopTime>)

  predicate SortedBySequence(s: seq<StopTime>) {
    forall i, j :: 0 <= i < j < |s| ==> s[i].stopSequence <= s[j].stopSequence
  }

  /** No two stop times of the list are `==` (same trip and stop). */
  predicate NoSame(s: seq<StopTime>) {
    forall i, j :: 0 <= i < j < |s| ==> !Same(s[i], s[j])
  }

  /** Python's `x in s`, which uses `StopTime.__eq__`. */
  predicate ContainsSame(s: seq<StopTime>, x: StopTime) {
    exists k :: 0 <= k < |s| && Same(s[k], x)
  }

  /** Where a stable sort puts `x` after appending it to sorted `s`: after every element whose sequence is at most x's. */
  function InsertionPoint(s: seq<StopTime>, x: StopTime): (k: nat)
    ensures k <= |s|
    ensures forall i :: 0 <= i < k ==> s[i].stopSequence <= x.stopSequence
    ensures k < |s| ==> s[k].stopSequence > x.stopSequence
    decreases |s|
  {
    if |s| == 0 || s[0].stopSequence > x.stopSequence then 0
    else 1 + InsertionPoint(s[1..], x)
  }

  /** `s.append(x); s.sort()` on an already sorted `s`. */
  function StableInsert(s: seq<StopTime>, x: StopTime): seq<StopTime> {
    var k := InsertionPoint(s, x);
    s[..k] + [x] + s[k..]
  }

  /** What `addStopTime` leaves in the list: unchanged when an equal stop time is present, else the stable insert. */
  function AddedStopTime(s: seq<StopTime>, x: StopTime): seq<StopTime> {
    if ContainsSame(s, x) then s else StableInsert(s, x)
  }

  /** Adding stop times one by one, as `createBlock` does for a trip's rows. */
  function AddAll(s: seq<StopTime>, xs: seq<StopTime>): seq<StopTime>
    decreases |xs|
  {
    if |xs| == 0 then s else AddAll(AddedStopTime(s, xs[0]), xs[1..])
  }

  /** The first stop time added to an empty trip is always kept, so a trip built from rows is never empty. */
  lemma {:induction false} AddAllNonEmpty(s: seq<StopTime>, xs: seq<StopTime>)
    requires |s| > 0 || |xs| > 0
    ensures |AddAll(s, xs)| > 0
    decreases |xs|
  {
    if |xs| > 0 {
      var s1 := AddedStopTime(s, xs[0]);
      if !ContainsSame(s, xs[0]) {
        assert StableInsert(s, xs[0])[InsertionPoint(s, xs[0])] == xs[0];
      }
      assert |s1| > 0;
      AddAllNonEmpty(s1, xs[1..]);
    }
  }

  /** Where each element of a stable insert comes from. */
  lemma StableInsertAt(s: seq<StopTime>, x: StopTime)
    ensures var k := InsertionPoint(s, x); var r := StableInsert(s, x);
      |r| == |s| + 1 && r[k] == x &&
      (forall i :: 0 <= i < k ==> r[i] == s[i]) &&
      (forall i :: k < i < |r| ==> r[i] == s[i - 1])
  {
  }

  lemma StableInsertSorted(s: seq<StopTime>, x: StopTime)
    requires SortedBySequence(s)
    ensures SortedBySequence(StableInsert(s, x))
    ensures multiset(StableInsert(s, x)) == multiset(s) + multiset{x}
  {
    StableInsertMultiset(s, x);
    StableInsertAt(s, x);
    InsertedSorted(s, x, InsertionPoint(s, x), StableInsert(s, x));
  }

  /** A stable insert adds `x` and nothing else. */
  lemma StableInsertMultiset(s: seq<StopTime>, x: StopTime)
    ensures multiset(StableInsert(s, x)) == multiset(s) + multiset{x}
  {
    var k := InsertionPoint(s, x);
    assert s == s[..k] + s[k..];
  }

  /** Sorted `s` with `x` placed between the elements at most it and those above it stays sorted. */
  lemma InsertedSorted(s: seq<StopTime>, x: StopTime, k: nat, r: seq<StopTime>)
    requires SortedBySequence(s) && k <= |s| && |r| == |s| + 1 && r[k] == x
    requires forall i :: 0 <= i < k ==> s[i].stopSequence <= x.stopSequence
    requires k < |s| ==> s[k].stopSequence > x.stopSequence
    requires forall i :: 0 <= i < k ==> r[i] == s[i]
    requires forall i :: k < i < |r| ==> r[i] == s[i - 1]
    ensures SortedBySequence(r)
  {
    forall i, j | 0 <= i < j < |r|
      ensures r[i].stopSequence <= r[j].stopSequence
    {
      if j == k {
      } else if i == k {
        assert s[k].stopSequence <= s[j - 1].stopSequence;
      }
    }
  }

  lemma StableInsertNoSame(s: seq<StopTime>, x: StopTime)
    requires NoSame(s) && !ContainsSame(s, x)
    ensures NoSame(StableInsert(s, x))
  {
    var k := InsertionPoint(s, x);
    var r := StableInsert(s, x);
    forall a, b | 0 <= a < b < |r|
      ensures !Same(r[a], r[b])
    {
      assert r[a] == (if a < k then s[a] else if a == k then x else s[a - 1]);
      assert r[b] == (if b < k then s[b] else if b == k then x else s[b - 1]);
    }
  }

  // ----- accessors (each raises IndexError in Python on an empty list) -----

  function FirstDepartureMillis(t: TripRec): int
    requires |t.stopTimeList| > 0
  {
    t.stopTimeList[0].depTimeMillis
  }

  function LastArrivalMillis(t: TripRec): int
    requires |t.stopTimeList| > 0
  {
    t.stopTimeList[|t.stopTimeList| - 1].arrTimeMillis
  }

  function LastStopId(t: TripRec): string
    requires |t.stopTimeList| > 0
  {
    t.stopTimeList[|t.stopTimeList| - 1].stopId
  }

  function LastStopSequence(t: TripRec): int
    requires |t.stopTimeList| > 0
  {
    t.stopTimeList[|t.stopTimeList| - 1].stopSequence
  }

  /** On a sorted trip the last stop sequence is the largest of the trip. */
  lemma LastStopSequenceIsMax(t: TripRec)
    requires |t.stopTimeList| > 0 && SortedBySequence(t.stopTimeList)
    ensures forall k :: 0 <= k < |t.stopTimeList| ==> t.stopTimeList[k].stopSequence <= LastStopSequence(t)
  {
  }

  /** `Trip.__eq__`: trips are the same when their ids are. */
  predicate SameTrip(a: TripRec, b: TripRec) {
    a.tripId == b.tripId
  }

  /** `Trip.__cmp__`: three-way comparison on the first departure. */
  function CompareTrips(a: TripRec, b: TripRec): (c: int)
    requires |a.stopTimeList| > 0 && |b.stopTimeList| > 0
    ensures c == -1 || c == 0 || c == 1
    ensures c < 0 <==> FirstDepartureMillis(a) < FirstDepartureMillis(b)
    ensures c > 0 <==> FirstDepartureMillis(a) > FirstDepartureMillis(b)
  {
    var da, db := FirstDepartureMillis(a), FirstDepartureMillis(b);
    if da < db then -1 else if da > db then 1 else 0
  }

  // ----- arrivals and departures for a postmile -----

  /** Index of the last stop time (in list order) with `postKm < bound`, or -1. */
  function LastIndexBelow(s: seq<StopTime>, bound: real): (k: int)
    ensures -1 <= k < |s|
    ensures k >= 0 ==> s[k].postKm < bound
    ensures forall j :: k < j < |s| ==> s[j].postKm >= bound
    decreases |s|
  {
    if |s| == 0 then -1
    else if s[|s| - 1].postKm < bound then |s| - 1
    else LastIndexBelow(s[..|s| - 1], bound)
  }

  /** The stop sequence found by `LastIndexBelow`, or -1. */
  function LastSequenceBelow(s: seq<StopTime>, bound: real): int {
    var k := LastIndexBelow(s, bound);
    if k == -1 then -1 else s[k].stopSequence
  }

  /** `getStopSequencesForPost`: (arrived stop, departed stop) for a postmile and threshold. */
  function StopSequencesForPost(s: seq<StopTime>, postKm: real, thresh: real): (int, int) {
    (LastSequenceBelow(s, postKm + thresh), LastSequenceBelow(s, postKm - thresh))
  }

  lemma {:induction false} LastIndexBelowMonotone(s: seq<StopTime>, b1: real, b2: real)
    requires b1 <= b2
    ensures LastIndexBelow(s, b1) <= LastIndexBelow(s, b2)
    decreases |s|
  {
    if |s| > 0 && s[|s| - 1].postKm >= b2 {
      LastIndexBelowMonotone(s[..|s| - 1], b1, b2);
    }
  }

  /**
   * With a non-negative threshold a departure is only ever reported for a
   * stop that has been arrived at: the departed index is at most the arrived
   * index, and on a sorted trip so is its stop sequence.
   */
  lemma DepartedNotAfterArrived(s: seq<StopTime>, postKm: real, thresh: real)
    requires thresh >= 0.0 && SortedBySequence(s)
    ensures var a, d := LastIndexBelow(s, postKm + thresh), LastIndexBelow(s, postKm - thresh);
            d <= a && (d != -1 ==> a != -1 && s[d].stopSequence <= s[a].stopSequence)
  {
    LastIndexBelowMonotone(s, postKm - thresh, postKm + thresh);
  }

  /** `getStopSequencesForPost`: the arrival scan, then the departure scan. */
  method GetStopSequencesForPost(stopTimeList: seq<StopTime>, postKm: real, thresh: real)
    returns (arrStop: int, depStop: int)
    ensures (arrStop, depStop) == StopSequencesForPost(stopTimeList, postKm, thresh)
  {
    arrStop := ScanBelow(stopTimeList, postKm + thresh);
    depStop := ScanBelow(stopTimeList, postKm - thresh);
  }

  /** One loop of `getStopSequencesForPost`: the sequence of the last stop time below `bound`, or -1. */
  method ScanBelow(stopTimeList: seq<StopTime>, bound: real) returns (stop: int)
    ensures stop == LastSequenceBelow(stopTimeList, bound)
  {
    stop := -1;
    for k := 0 to |stopTimeList|
      invariant stop == LastSequenceBelow(stopTimeList[..k], bound)
    {
      assert stopTimeList[..k + 1][..k] == stopTimeList[..k];
      if stopTimeList[k].postKm < bound {
        stop := stopTimeList[k].stopSequence;
      }
    }
    assert stopTimeList[..|stopTimeList|] == stopTimeList;
  }

  // ----- lookup by stop sequence -----

  /** Index of the first stop time with sequence `q`, or -1. */
  function IndexOfSequence(s: seq<StopTime>, q: int): (k: int)
    ensures -1 <= k < |s|
    ensures k >= 0 ==> s[k].stopSequence == q
    ensures forall j :: 0 <= j < |s| && (k == -1 || j < k) ==> s[j].stopSequence != q
    decreases |s|
  {
    if |s| == 0 then -1
    else if s[0].stopSequence == q then 0
    else
      var k := IndexOfSequence(s[1..], q);
      if k == -1 then -1 else k + 1
  }

  /** `getStopTimeForStopSequence`: the first stop time with that sequence, or None. */
  function StopTimeForStopSequence(t: TripRec, q: int): (r: Option<StopTime>)
    ensures r.Some? ==> r.value in t.stopTimeList && r.value.stopSequence == q
    ensures r.None? <==> forall j :: 0 <= j < |t.stopTimeList| ==> t.stopTimeList[j].stopSequence != q
  {
    var k := IndexOfSequence(t.stopTimeList, q);
    if k == -1 then None else Some(t.stopTimeList[k])
  }

  /** A trip under construction: `addStopTime` changes its list in place. */
  class Trip {
    const tripId: string
    const blockId: string
    const routeId: string
    const shapeId: string
    var stopTimeList: seq<StopTime>

    /** Sorted by stop sequence, and no two stop times for the same stop of the trip. */
    ghost predicate Valid()
      reads this
    {
      SortedBySequence(stopTimeList) && NoSame(stopTimeList)
    }

    constructor (tripId: string, blockId: string, routeId: string, shapeId: string)
      ensures Valid()
      ensures this.tripId == tripId && this.blockId == blockId
      ensures this.routeId == routeId && this.shapeId == shapeId
      ensures stopTimeList == []
    {
      this.tripId, this.blockId, this.routeId, this.shapeId := tripId, blockId, routeId, shapeId;
      stopTimeList := [];
    }

    function Value(): TripRec
      reads this
    {
      TripRec(tripId, blockId, routeId, shapeId, stopTimeList)
    }

    /**
     * `addStopTime`: nothing changes when an equal stop time (same trip and
     * stop) is present; otherwise the stop time is inserted where a stable
     * sort of the appended list puts it.
     */
    method AddStopTime(x: StopTime)
      requires Valid()
      modifies this
      ensures Valid()
      ensures stopTimeList == AddedStopTime(old(stopTimeList), x)
      ensures ContainsSame(old(stopTimeList), x) ==> stopTimeList == old(stopTimeList)
      ensures |stopTimeList| <= |old(stopTimeList)| + 1
      ensures multiset(stopTimeList) == multiset(old(stopTimeList))
                + (if ContainsSame(old(stopTimeList), x) then multiset{} else multiset{x})
    {
      var present := false;
      var i := 0;
      while i < |stopTimeList|
        invariant 0 <= i <= |stopTimeList|
        invariant present <==> exists k :: 0 <= k < i && Same(stopTimeList[k], x)
      {
        if Same(stopTimeList[i], x) {
          present := true;
        }
        i := i + 1;
      }
      assert present <==> ContainsSame(stopTimeList, x);
      if !present {
        var s := stopTimeList;
        var k := 0;
        while k < |s| && s[k].stopSequence <= x.stopSequence
          invariant 0 <= k <= |s|
          invariant forall j :: 0 <= j < k ==> s[j].stopSequence <= x.stopSequence
        {
          k := k + 1;
        }
        PrefixIsInsertionPoint(s, x, k);
        StableInsertSorted(s, x);
        StableInsertNoSame(s, x);
        stopTimeList := s[..k] + [x] + s[k..];
      }
    }
  }

  /** On a sorted list the scan that stops at the first larger sequence finds the insertion point. */
  lemma {:induction false} PrefixIsInsertionPoint(s: seq<StopTime>, x: StopTime, k: nat)
    requires SortedBySequence(s) && k <= |s|
    requires forall j :: 0 <= j < k ==> s[j].stopSequence <= x.stopSequence
    requires k < |s| ==> s[k].stopSequence > x.stopSequence
    ensures InsertionPoint(s, x) == k
    decreases |s|
  {
    if k > 0 {
      PrefixIsInsertionPoint(s[1..], x, k - 1);
    }
  }
}
