/** `Block`: the trips one vehicle runs in a service day, looked up by departure time. */
module Blocks {
  import opened Wrappers
  import opened StopTimes
  import opened Trips

  /** A trip as the schedule holds it: `createBlock` only builds trips from at least one stop-time row. */
  type ScheduledTrip = t: TripRec | |t.stopTimeList| > 0
    witness TripRec("", "", "", "", [StopTime("", "", 0, 0, 0, 0.0)])

  /** `block.tripDict` in insertion order: the ids are unique. */
  datatype BlockRec = BlockRec(blockId: string, serviceId: string, trips: seq<ScheduledTrip>)

  predicate UniqueTripIds(s: seq<ScheduledTrip>) {
    forall i, j :: 0 <= i < j < |s| ==> s[i].tripId != s[j].tripId
  }

  predicate HasTripId(s: seq<ScheduledTrip>, id: string) {
    exists k :: 0 <= k < |s| && s[k].tripId == id
  }

  /** `Block.__eq__`. */
  predicate SameBlock(a: BlockRec, b: BlockRec) {
    a.blockId == b.blockId
  }

  /** `block.tripDict[id]` when the key is present. */
  function TripWithId(s: seq<ScheduledTrip>, id: string): (r: Option<ScheduledTrip>)
    ensures r.Some? <==> HasTripId(s, id)
    ensures r.Some? ==> r.value in s && r.value.tripId == id
    decreases |s|
  {
    if |s| == 0 then None
    else if s[0].tripId == id then Some(s[0])
    else
      var r := TripWithId(s[1..], id);
      assert r.Some? ==> r.value == s[1..][IndexOf(s[1..], r.value)];
      r
  }

  /** The first position of `x` in `s`. */
  function IndexOf<T(==)>(s: seq<T>, x: T): (k: nat)
    requires x in s
    ensures k < |s| && s[k] == x
  {
    if s[0] == x then 0 else 1 + IndexOf(s[1..], x)
  }

  // ----- the stable sort `tripList.sort()` by first departure -----

  function Dep(t: ScheduledTrip): int {
    FirstDepartureMillis(t)
  }

  predicate SortedByDeparture(s: seq<ScheduledTrip>) {
    forall i, j :: 0 <= i < j < |s| ==> Dep(s[i]) <= Dep(s[j])
  }

  /** Number of leading elements departing no later than `x`: where a stable sort places an appended `x`. */
  function DepInsertionPoint(s: seq<ScheduledTrip>, x: ScheduledTrip): (k: nat)
    ensures k <= |s|
    ensures forall i :: 0 <= i < k ==> Dep(s[i]) <= Dep(x)
    ensures k < |s| ==> Dep(s[k]) > Dep(x)
    decreases |s|
  {
    if |s| == 0 || Dep(s[0]) > Dep(x) then 0 else 1 + DepInsertionPoint(s[1..], x)
  }

  function InsertByDeparture(s: seq<ScheduledTrip>, x: ScheduledTrip): seq<ScheduledTrip> {
    var k := DepInsertionPoint(s, x);
    s[..k] + [x] + s[k..]
  }

  /** Python's stable `list.sort()` with `Trip.__cmp__`, as an insertion sort over the list in order. */
  function SortByDeparture(s: seq<ScheduledTrip>): (r: seq<ScheduledTrip>)
    ensures |r| == |s|
    decreases |s|
  {
    if |s| == 0 then [] else InsertByDeparture(SortByDeparture(s[..|s| - 1]), s[|s| - 1])
  }

  lemma InsertByDepartureSorted(s: seq<ScheduledTrip>, x: ScheduledTrip)
    requires SortedByDeparture(s)
    ensures SortedByDeparture(InsertByDeparture(s, x))
    ensures multiset(InsertByDeparture(s, x)) == multiset(s) + multiset{x}
  {
    InsertByDepartureMultiset(s, x);
    InsertByDepartureAt(s, x);
    InsertedByDeparture(s, x, DepInsertionPoint(s, x), InsertByDeparture(s, x));
  }

  /** The insert adds `x` and nothing else. */
  lemma InsertByDepartureMultiset(s: seq<ScheduledTrip>, x: ScheduledTrip)
    ensures multiset(InsertByDeparture(s, x)) == multiset(s) + multiset{x}
  {
    var k := DepInsertionPoint(s, x);
    assert s == s[..k] + s[k..];
  }

  /** Where each element of the insert comes from. */
  lemma InsertByDepartureAt(s: seq<ScheduledTrip>, x: ScheduledTrip)
    ensures var k := DepInsertionPoint(s, x); var r := InsertByDeparture(s, x);
      |r| == |s| + 1 && r[k] == x &&
      (forall i :: 0 <= i < k ==> r[i] == s[i]) &&
      (forall i :: k < i < |r| ==> r[i] == s[i - 1])
  {
  }

  /** Sorted `s` with `x` placed between the trips leaving no later and those leaving later stays sorted. */
  lemma InsertedByDeparture(s: seq<ScheduledTrip>, x: ScheduledTrip, k: nat, r: seq<ScheduledTrip>)
    requires SortedByDeparture(s) && k <= |s| && |r| == |s| + 1 && r[k] == x
    requires forall i :: 0 <= i < k ==> Dep(s[i]) <= Dep(x)
    requires k < |s| ==> Dep(s[k]) > Dep(x)
    requires forall i :: 0 <= i < k ==> r[i] == s[i]
    requires forall i :: k < i < |r| ==> r[i] == s[i - 1]
    ensures SortedByDeparture(r)
  {
    forall i, j | 0 <= i < j < |r|
      ensures Dep(r[i]) <= Dep(r[j])
    {
      if j == k {
      } else if i == k {
        assert Dep(s[k]) <= Dep(s[j - 1]);
      }
    }
  }

  /** The sort orders the trips by first departure and keeps exactly the same trips. */
  lemma {:induction false} SortByDepartureCorrect(s: seq<ScheduledTrip>)
    ensures SortedByDeparture(SortByDeparture(s))
    ensures multiset(SortByDeparture(s)) == multiset(s)
    ensures |SortByDeparture(s)| == |s|
    decreases |s|
  {
    if |s| > 0 {
      var init, last := s[..|s| - 1], s[|s| - 1];
      SortByDepartureCorrect(init);
      var sorted := SortByDeparture(init);
      InsertByDepartureSorted(sorted, last);
      assert SortByDeparture(s) == InsertByDeparture(sorted, last);
      assert multiset(s) == multiset(init) + multiset{last} by {
        assert s[|s| - 1..] == [last];
        assert s == s[..|s| - 1] + s[|s| - 1..];
      }
    }
  }

  /** `getFirstTrip`: the head of the sorted list. IndexError on an empty block. */
  function FirstTrip(b: BlockRec): ScheduledTrip
    requires |b.trips| > 0
  {
    SortByDeparture(b.trips)[0]
  }

  /** `getLastTrip`: the last of the sorted list. IndexError on an empty block. */
  function LastTrip(b: BlockRec): ScheduledTrip
    requires |b.trips| > 0
  {
    var s := SortByDeparture(b.trips);
    s[|s| - 1]
  }

  /** The first trip is a trip of the block departing no later than any other. */
  lemma FirstTripEarliest(b: BlockRec)
    requires |b.trips| > 0
    ensures FirstTrip(b) in b.trips
    ensures forall t :: t in b.trips ==> Dep(FirstTrip(b)) <= Dep(t)
  {
    SortByDepartureCorrect(b.trips);
    SortedEnds(SortByDeparture(b.trips), b.trips);
  }

  /** The last trip is a trip of the block departing no earlier than any other. */
  lemma LastTripLatest(b: BlockRec)
    requires |b.trips| > 0
    ensures LastTrip(b) in b.trips
    ensures forall t :: t in b.trips ==> Dep(t) <= Dep(LastTrip(b))
  {
    SortByDepartureCorrect(b.trips);
    SortedEnds(SortByDeparture(b.trips), b.trips);
  }

  /** The ends of a sorted rearrangement of `orig` are trips of `orig` leaving first and last. */
  lemma SortedEnds(s: seq<ScheduledTrip>, orig: seq<ScheduledTrip>)
    requires |s| > 0 && SortedByDeparture(s) && multiset(s) == multiset(orig)
    ensures s[0] in orig && s[|s| - 1] in orig
    ensures forall t :: t in orig ==> Dep(s[0]) <= Dep(t) <= Dep(s[|s| - 1])
  {
    assert s[0] in multiset(orig) && s[|s| - 1] in multiset(orig);
    forall t | t in orig
      ensures Dep(s[0]) <= Dep(t) <= Dep(s[|s| - 1])
    {
      assert t in multiset(s);
      var k :| 0 <= k < |s| && s[k] == t;
    }
  }

  /** The loop of `getTripForTime` from index `i` on: the first trip whose window `[dep_i, dep_i+1)` holds `t`. */
  function ScanWindows(s: seq<ScheduledTrip>, t: int, i: nat): (r: Option<ScheduledTrip>)
    requires i <= |s|
    ensures r.Some? ==> exists k :: i <= k < |s| - 1 && r.value == s[k] && Dep(s[k]) <= t < Dep(s[k + 1])
    decreases |s| - i
  {
    if i + 1 >= |s| then None
    else if Dep(s[i]) <= t < Dep(s[i + 1]) then Some(s[i])
    else ScanWindows(s, t, i + 1)
  }

  /** On a sorted list, a time inside `[dep_i, dep_last)` always falls in some window. */
  lemma {:induction false} ScanWindowsFinds(s: seq<ScheduledTrip>, t: int, i: nat)
    requires SortedByDeparture(s) && i < |s|
    requires Dep(s[i]) <= t < Dep(s[|s| - 1])
    ensures ScanWindows(s, t, i).Some?
    decreases |s| - i
  {
    if !(Dep(s[i]) <= t < Dep(s[i + 1])) {
      ScanWindowsFinds(s, t, i + 1);
    }
  }

  /**
   * `getTripForTime`, milliseconds since the start of the service day:
   * the first trip before its departure, the last trip from its departure
   * on, and otherwise the trip whose window holds the time. None when no
   * window holds it.
   */
  function TripForTime(b: BlockRec, t: int): Option<ScheduledTrip>
    requires |b.trips| > 0
  {
    var first := FirstTrip(b);
    if t < Dep(first) then Some(first)
    else
      var last := LastTrip(b);
      if t >= Dep(last) then Some(last)
      else ScanWindows(SortByDeparture(b.trips), t, 0)
  }

  /**
   * The three cases of `getTripForTime`: before the first departure the
   * first trip, from the last trip's departure on the last trip, and in
   * between the trip of the sorted list whose window `[dep_k, dep_k+1)` holds
   * the time.
   */
  lemma TripForTimeCases(b: BlockRec, t: int)
    requires |b.trips| > 0
    ensures t < Dep(FirstTrip(b)) ==> TripForTime(b, t) == Some(FirstTrip(b))
    ensures Dep(FirstTrip(b)) <= t && Dep(LastTrip(b)) <= t ==> TripForTime(b, t) == Some(LastTrip(b))
    ensures Dep(FirstTrip(b)) <= t < Dep(LastTrip(b)) ==>
      var s := SortByDeparture(b.trips);
      TripForTime(b, t).Some? &&
      exists k :: 0 <= k < |s| - 1 && TripForTime(b, t).value == s[k] && Dep(s[k]) <= t < Dep(s[k + 1])
  {
    if Dep(FirstTrip(b)) <= t < Dep(LastTrip(b)) {
      TripForTimeBetween(b, t);
    }
  }

  /** Between the first and the last departure, the trip whose departure window holds the time. */
  lemma TripForTimeBetween(b: BlockRec, t: int)
    requires |b.trips| > 0 && Dep(FirstTrip(b)) <= t < Dep(LastTrip(b))
    ensures var s := SortByDeparture(b.trips);
      TripForTime(b, t).Some? &&
      exists k :: 0 <= k < |s| - 1 && TripForTime(b, t).value == s[k] && Dep(s[k]) <= t < Dep(s[k + 1])
  {
    SortByDepartureCorrect(b.trips);
    ScanWindowsFinds(SortByDeparture(b.trips), t, 0);
  }

  /** For a non-empty block `getTripForTime` never returns None, and what it returns is a trip of the block. */
  lemma TripForTimeTotal(b: BlockRec, t: int)
    requires |b.trips| > 0
    ensures TripForTime(b, t).Some?
    ensures TripForTime(b, t).value in b.trips
  {
    var s := SortByDeparture(b.trips);
    TripForTimeCases(b, t);
    FirstTripEarliest(b);
    LastTripLatest(b);
    if Dep(FirstTrip(b)) <= t < Dep(LastTrip(b)) {
      SortByDepartureCorrect(b.trips);
      var k :| 0 <= k < |s| - 1 && TripForTime(b, t).value == s[k];
      assert s[k] in multiset(b.trips);
    }
  }

  /** A block being built: `addTrip` changes `tripDict` in place. */
  class Block {
    const blockId: string
    const serviceId: string
    var trips: seq<ScheduledTrip>

    ghost predicate Valid()
      reads this
    {
      UniqueTripIds(trips)
    }

    constructor (blockId: string, serviceId: string)
      ensures Valid()
      ensures this.blockId == blockId && this.serviceId == serviceId && trips == []
    {
      this.blockId, this.serviceId := blockId, serviceId;
      trips := [];
    }

    function Value(): BlockRec
      reads this
    {
      BlockRec(blockId, serviceId, trips)
    }

    /** `addTrip`: insert when the trip id is new; a trip already stored under that id is kept. */
    method AddTrip(t: ScheduledTrip)
      requires Valid()
      modifies this
      ensures Valid()
      ensures HasTripId(old(trips), t.tripId) ==> trips == old(trips)
      ensures !HasTripId(old(trips), t.tripId) ==> trips == old(trips) + [t]
    {
      if TripWithId(trips, t.tripId).None? {
        trips := trips + [t];
      }
    }
  }
}
