/**
 * `GtfsData`: the schedule tables (blocks, stops, shapes, services), how a
 * block is built from the stop-time and trip tables, the lookups the
 * predictor uses, and the service-day test of `getTodayBlocks`.
 */
module GtfsData {
  import opened Wrappers
  import opened Util
  import opened StopTimes
  import opened Trips
  import opened Blocks
  import opened Shapes
  import opened Locations
  import opened ProjectedLocations
  import opened Projections

  /** `Stop`: a stop and its position. */
  datatype Stop = Stop(stopId: string, stopLat: real, stopLon: real)

  /** Seven flags, Monday first, as `datetime.weekday()` numbers the days. */
  type DayList = s: seq<bool> | |s| == 7 witness [false, false, false, false, false, false, false]

  /** `Service`: a `calendar` row, its dates as `YYYYMMDD` strings. */
  datatype Service = Service(serviceId: string, startDate: string, endDate: string, dayList: DayList)

  /** 04:00 local time is taken as the changeover between service days. */
  const ZeroHour: int := 4

  const MillisPerDay: int := 24 * 60 * 60 * 1000

  /** One entry of the list `getAllStopTimes` keeps per trip id. */
  datatype StopTimeRow = StopTimeRow(stopId: string, stopSequence: int, arrTimeMillis: int, depTimeMillis: int)

  /** One entry of `getTripsDict`. */
  datatype TripInfo = TripInfo(routeId: string, shapeId: string, serviceId: string)

  /**
   * The tables once loaded: `blockDict` in insertion order (its values are
   * iterated), and the dictionaries that are only looked up by key.
   */
  datatype Schedule = Schedule(
    blocks: seq<BlockRec>,
    stopDict: map<string, Stop>,
    shapeDict: map<string, ShapeRec>,
    serviceDict: map<string, Service>)

  predicate UniqueBlockIds(s: seq<BlockRec>) {
    forall i, j :: 0 <= i < j < |s| ==> s[i].blockId != s[j].blockId
  }

  predicate HasBlockId(s: seq<BlockRec>, id: string) {
    exists k :: 0 <= k < |s| && s[k].blockId == id
  }

  /** Every dictionary is keyed by the id of what it holds, and no block id repeats. */
  ghost predicate WellKeyed(g: Schedule) {
    UniqueBlockIds(g.blocks) &&
    (forall id :: id in g.stopDict ==> g.stopDict[id].stopId == id) &&
    (forall id :: id in g.shapeDict ==> g.shapeDict[id].shapeId == id) &&
    (forall id :: id in g.serviceDict ==> g.serviceDict[id].serviceId == id)
  }

  // ----- lookups -----

  /** `getBlockFromBlockId`: the first block with that id, or None. */
  function BlockFromBlockId(blocks: seq<BlockRec>, id: string): (r: Option<BlockRec>)
    ensures r.Some? <==> HasBlockId(blocks, id)
    ensures r.Some? ==> r.value in blocks && r.value.blockId == id
    decreases |blocks|
  {
    if |blocks| == 0 then None
    else if blocks[0].blockId == id then Some(blocks[0])
    else
      var r := BlockFromBlockId(blocks[1..], id);
      assert HasBlockId(blocks[1..], id) ==> HasBlockId(blocks, id) by {
        if HasBlockId(blocks[1..], id) {
          var k :| 0 <= k < |blocks[1..]| && blocks[1..][k].blockId == id;
          assert blocks[k + 1].blockId == id;
        }
      }
      r
  }

  /** Whether some block holds a trip with id `tripId`. */
  predicate InSomeBlock(blocks: seq<BlockRec>, tripId: string) {
    exists k :: 0 <= k < |blocks| && HasTripId(blocks[k].trips, tripId)
  }

  /** The first block, in dictionary order, holding the trip: where both trip lookups stop. */
  function BlockHoldingTrip(blocks: seq<BlockRec>, tripId: string): (r: Option<BlockRec>)
    ensures r.Some? <==> InSomeBlock(blocks, tripId)
    ensures r.Some? ==> r.value in blocks && HasTripId(r.value.trips, tripId)
    decreases |blocks|
  {
    if |blocks| == 0 then None
    else if TripWithId(blocks[0].trips, tripId).Some? then Some(blocks[0])
    else
      var r := BlockHoldingTrip(blocks[1..], tripId);
      assert InSomeBlock(blocks[1..], tripId) ==> InSomeBlock(blocks, tripId) by {
        if InSomeBlock(blocks[1..], tripId) {
          var k :| 0 <= k < |blocks[1..]| && HasTripId(blocks[1..][k].trips, tripId);
          assert HasTripId(blocks[k + 1].trips, tripId);
        }
      }
      assert InSomeBlock(blocks, tripId) ==> InSomeBlock(blocks[1..], tripId) by {
        if InSomeBlock(blocks, tripId) {
          var k :| 0 <= k < |blocks| && HasTripId(blocks[k].trips, tripId);
          assert k != 0;
          assert HasTripId(blocks[1..][k - 1].trips, tripId);
        }
      }
      r
  }

  /** `getTripFromTripId`: the trip with that id from the first block holding it, or None. */
  function TripFromTripId(blocks: seq<BlockRec>, tripId: string): (r: Option<ScheduledTrip>)
    ensures r.Some? <==> InSomeBlock(blocks, tripId)
    ensures r.Some? ==> r.value.tripId == tripId
    ensures r.Some? ==> exists k :: 0 <= k < |blocks| && r.value in blocks[k].trips
  {
    match BlockHoldingTrip(blocks, tripId)
    case None => None
    case Some(b) =>
      var k := IndexOf(blocks, b);
      TripWithId(b.trips, tripId)
  }

  /** Index of the first trip with that id in `s`, or -1 (`list.index` with `Trip.__eq__`). */
  function IndexOfTripId(s: seq<ScheduledTrip>, tripId: string): (k: int)
    ensures -1 <= k < |s|
    ensures k == -1 <==> !HasTripId(s, tripId)
    ensures k >= 0 ==> s[k].tripId == tripId && forall j :: 0 <= j < k ==> s[j].tripId != tripId
    decreases |s|
  {
    if |s| == 0 then -1
    else if s[0].tripId == tripId then 0
    else
      var k := IndexOfTripId(s[1..], tripId);
      assert HasTripId(s, tripId) ==> HasTripId(s[1..], tripId) by {
        if HasTripId(s, tripId) {
          var j :| 0 <= j < |s| && s[j].tripId == tripId;
          assert j != 0 && s[1..][j - 1].tripId == tripId;
        }
      }
      if k == -1 then -1 else k + 1
  }

  /**
   * `getNextTripInBlock`: sort the trips of the first block holding the trip
   * by first departure and return the one after it; None when it is the
   * last one, or when no block holds it.
   */
  function NextTripInBlock(blocks: seq<BlockRec>, tripId: string): Option<ScheduledTrip> {
    match BlockHoldingTrip(blocks, tripId)
    case None => None
    case Some(b) =>
      var s := SortByDeparture(b.trips);
      var k := IndexOfTripId(s, tripId);
      if 0 <= k < |s| - 1 then Some(s[k + 1]) else None
  }

  /** A trip id is found in the sorted list exactly when it is in the block. */
  lemma SortedHasTripId(s: seq<ScheduledTrip>, tripId: string)
    ensures HasTripId(SortByDeparture(s), tripId) <==> HasTripId(s, tripId)
  {
    SortByDepartureCorrect(s);
    var l := SortByDeparture(s);
    if HasTripId(s, tripId) {
      var j :| 0 <= j < |s| && s[j].tripId == tripId;
      assert s[j] in multiset(l);
      var i :| 0 <= i < |l| && l[i] == s[j];
    }
    if HasTripId(l, tripId) {
      var j :| 0 <= j < |l| && l[j].tripId == tripId;
      assert l[j] in multiset(s);
      var i :| 0 <= i < |s| && s[i] == l[j];
    }
  }

  /**
   * What `getNextTripInBlock` promises: None when no block holds the trip;
   * otherwise, in the first block holding it, a result departs no earlier
   * than the trip, is a different trip of that block when trip ids are
   * unique there, and None means the trip departs last in sorted order.
   */
  lemma NextTripInBlockFollows(blocks: seq<BlockRec>, tripId: string)
    ensures !InSomeBlock(blocks, tripId) ==> NextTripInBlock(blocks, tripId).None?
    ensures InSomeBlock(blocks, tripId) ==>
      var b := BlockHoldingTrip(blocks, tripId).value;
      var s := SortByDeparture(b.trips);
      var k := IndexOfTripId(s, tripId);
      var r := NextTripInBlock(blocks, tripId);
      0 <= k < |s| &&
      (r.None? <==> k == |s| - 1) &&
      (r.Some? ==> r.value in b.trips && Dep(s[k]) <= Dep(r.value) &&
                   (UniqueTripIds(b.trips) ==> r.value.tripId != tripId))
  {
    if InSomeBlock(blocks, tripId) {
      var b := BlockHoldingTrip(blocks, tripId).value;
      var s := SortByDeparture(b.trips);
      SortByDepartureCorrect(b.trips);
      SortedHasTripId(b.trips, tripId);
      var k := IndexOfTripId(s, tripId);
      if UniqueTripIds(b.trips) {
        UniqueIdsSorted(b.trips);
      }
      if k < |s| - 1 {
        assert s[k + 1] in multiset(b.trips);
      }
    }
  }

  /** The sort does not create a second trip with an id. */
  lemma {:induction false} UniqueIdsSorted(s: seq<ScheduledTrip>)
    requires UniqueTripIds(s)
    ensures UniqueTripIds(SortByDeparture(s))
    decreases |s|
  {
    if |s| > 0 {
      var init, x := s[..|s| - 1], s[|s| - 1];
      assert UniqueTripIds(init);
      UniqueIdsSorted(init);
      SortedHasTripId(init, x.tripId);
      InsertKeepsUniqueIds(SortByDeparture(init), x);
    }
  }

  lemma InsertKeepsUniqueIds(s: seq<ScheduledTrip>, x: ScheduledTrip)
    requires UniqueTripIds(s) && !HasTripId(s, x.tripId)
    ensures UniqueTripIds(InsertByDeparture(s, x))
  {
    var k := DepInsertionPoint(s, x);
    var r := s[..k] + [x] + s[k..];
    assert forall i :: 0 <= i < |r| ==> r[i] == if i < k then s[i] else if i == k then x else s[i - 1];
  }

  // ----- createBlock -----

  /** The inputs `createBlock` reads besides the schedule: the stop-time rows and trip table, by trip id. */
  datatype BlockSource = BlockSource(stopTimeDict: map<string, seq<StopTimeRow>>, tripDict: map<string, TripInfo>)

  /** `getAllStopTimes` only creates the list of a trip id together with its first row. */
  predicate RowsNonEmpty(src: BlockSource) {
    forall id :: id in src.stopTimeDict ==> |src.stopTimeDict[id]| > 0
  }

  /**
   * The stop time built from one row: the stop must be known and the shape
   * must have a segment to project on (`getStopFromStopId` returning None,
   * or a missing shape, raises on the next attribute read; a shape with
   * fewer than two points leaves the projection's result unbound).
   */
  function RowStopTime(env: Env, g: Schedule, shape: Option<ShapeRec>, tripId: string, row: StopTimeRow)
    : (r: Option<StopTime>)
    ensures r.Some? <==> row.stopId in g.stopDict && shape.Some? && |shape.value.pointList| >= 2
    ensures r.Some? ==> r.value.tripId == tripId && r.value.stopId == row.stopId
    ensures r.Some? ==> r.value.stopSequence == row.stopSequence
    ensures r.Some? ==> r.value.arrTimeMillis == row.arrTimeMillis && r.value.depTimeMillis == row.depTimeMillis
  {
    if row.stopId !in g.stopDict || shape.None? || |shape.value.pointList| < 2 then None
    else
      var stop := g.stopDict[row.stopId];
      var p := ProjectedToShape(env, shape.value.pointList, stop.stopLat, stop.stopLon);
      Some(StopTime(tripId, row.stopId, row.stopSequence, row.arrTimeMillis, row.depTimeMillis, p.value.postKm.value))
  }

  /** The rows of a trip added one by one with `addStopTime`; the first failing row abandons the trip. */
  function AddRows(env: Env, g: Schedule, shape: Option<ShapeRec>, tripId: string,
                   acc: seq<StopTime>, rows: seq<StopTimeRow>): (r: Option<seq<StopTime>>)
    ensures r.Some? <==> forall i :: 0 <= i < |rows| ==> RowStopTime(env, g, shape, tripId, rows[i]).Some?
    ensures r.Some? && (|acc| > 0 || |rows| > 0) ==> |r.value| > 0
    decreases |rows|
  {
    if |rows| == 0 then Some(acc)
    else
      match RowStopTime(env, g, shape, tripId, rows[0])
      case None => None
      case Some(st) =>
        var next := AddedStopTime(acc, st);
        assert |next| > 0 by {
          if ContainsSame(acc, st) {
            var k :| 0 <= k < |acc| && Same(acc[k], st);
          }
        }
        var r := AddRows(env, g, shape, tripId, next, rows[1..]);
        assert (forall i :: 0 <= i < |rows| ==> RowStopTime(env, g, shape, tripId, rows[i]).Some?)
          <==> (forall i :: 0 <= i < |rows[1..]| ==> RowStopTime(env, g, shape, tripId, rows[1..][i]).Some?) by {
          if forall i :: 0 <= i < |rows[1..]| ==> RowStopTime(env, g, shape, tripId, rows[1..][i]).Some? {
            forall i | 0 <= i < |rows|
              ensures RowStopTime(env, g, shape, tripId, rows[i]).Some?
            {
              if i > 0 {
                assert rows[i] == rows[1..][i - 1];
              }
            }
          }
        }
        r
  }

  /**
   * One iteration of `createBlock`'s trip loop: the trip when its id is in
   * both tables and every row builds, None when anything raises (the
   * exception is caught and the trip skipped).
   */
  function BuiltTrip(env: Env, g: Schedule, src: BlockSource, blockId: string, tripId: string)
    : (r: Option<ScheduledTrip>)
    requires RowsNonEmpty(src)
    ensures r.Some? ==> r.value.tripId == tripId
  {
    if tripId !in src.tripDict || tripId !in src.stopTimeDict then None
    else
      var info := src.tripDict[tripId];
      var shape := if info.shapeId in g.shapeDict then Some(g.shapeDict[info.shapeId]) else None;
      match AddRows(env, g, shape, tripId, [], src.stopTimeDict[tripId])
      case None => None
      case Some(sts) => Some(TripRec(tripId, blockId, info.routeId, info.shapeId, sts))
  }

  /** When a trip is built: both table entries exist, the shape is known with a segment, and every row's stop is known. */
  lemma BuiltTripSucceeds(env: Env, g: Schedule, src: BlockSource, blockId: string, tripId: string)
    requires RowsNonEmpty(src)
    ensures BuiltTrip(env, g, src, blockId, tripId).Some? <==>
      tripId in src.tripDict && tripId in src.stopTimeDict &&
      src.tripDict[tripId].shapeId in g.shapeDict &&
      |g.shapeDict[src.tripDict[tripId].shapeId].pointList| >= 2 &&
      forall row :: row in src.stopTimeDict[tripId] ==> row.stopId in g.stopDict
  {
    if tripId in src.tripDict && tripId in src.stopTimeDict {
      var info := src.tripDict[tripId];
      var rows := src.stopTimeDict[tripId];
      var shape := if info.shapeId in g.shapeDict then Some(g.shapeDict[info.shapeId]) else None;
      if forall row :: row in rows ==> row.stopId in g.stopDict {
        if shape.Some? && |shape.value.pointList| >= 2 {
          forall i | 0 <= i < |rows|
            ensures RowStopTime(env, g, shape, tripId, rows[i]).Some?
          {
            assert rows[i] in rows;
          }
        }
      }
      if AddRows(env, g, shape, tripId, [], rows).Some? {
        assert RowStopTime(env, g, shape, tripId, rows[0]).Some?;
        forall row | row in rows
          ensures row.stopId in g.stopDict
        {
          var i :| 0 <= i < |rows| && rows[i] == row;
          assert RowStopTime(env, g, shape, tripId, rows[i]).Some?;
        }
      }
    }
  }

  /** `block.addTrip` on the value of the trip list. */
  function AddedTrip(trips: seq<ScheduledTrip>, t: ScheduledTrip): seq<ScheduledTrip> {
    if HasTripId(trips, t.tripId) then trips else trips + [t]
  }

  /** The trip loop of `createBlock` from `acc` on: every trip that builds is offered to `addTrip`. */
  function AddTrips(env: Env, g: Schedule, src: BlockSource, blockId: string,
                    acc: seq<ScheduledTrip>, ids: seq<string>): seq<ScheduledTrip>
    requires RowsNonEmpty(src)
    decreases |ids|
  {
    if |ids| == 0 then acc
    else
      var t := BuiltTrip(env, g, src, blockId, ids[0]);
      AddTrips(env, g, src, blockId, if t.Some? then AddedTrip(acc, t.value) else acc, ids[1..])
  }

  /** `createBlock`, as a value. */
  function CreatedBlock(env: Env, g: Schedule, src: BlockSource, blockId: string, serviceId: string,
                        tripsInBlock: seq<string>): BlockRec
    requires RowsNonEmpty(src)
  {
    BlockRec(blockId, serviceId, AddTrips(env, g, src, blockId, [], tripsInBlock))
  }

  /**
   * Failure isolation in `createBlock`: a trip id ends up in the block
   * exactly when it is listed and its trip builds; a failing trip costs no
   * other trip its place. Trip ids stay unique.
   */
  lemma {:induction false} AddTripsMembers(env: Env, g: Schedule, src: BlockSource, blockId: string,
                                           acc: seq<ScheduledTrip>, ids: seq<string>, id: string)
    requires RowsNonEmpty(src) && UniqueTripIds(acc)
    ensures UniqueTripIds(AddTrips(env, g, src, blockId, acc, ids))
    ensures HasTripId(AddTrips(env, g, src, blockId, acc, ids), id) <==>
      HasTripId(acc, id) || (id in ids && BuiltTrip(env, g, src, blockId, id).Some?)
    decreases |ids|
  {
    if |ids| > 0 {
      var t := BuiltTrip(env, g, src, blockId, ids[0]);
      var next := if t.Some? then AddedTrip(acc, t.value) else acc;
      assert UniqueTripIds(next) by {
        if t.Some? && !HasTripId(acc, t.value.tripId) {
          assert forall i :: 0 <= i < |acc| ==> acc[i].tripId != t.value.tripId;
        }
      }
      assert HasTripId(next, id) <==> HasTripId(acc, id) || (id == ids[0] && t.Some?) by {
        if t.Some? && !HasTripId(acc, t.value.tripId) {
          assert next[|acc|] == t.value;
          if HasTripId(next, id) {
            var k :| 0 <= k < |next| && next[k].tripId == id;
            if k < |acc| {
              assert acc[k].tripId == id;
            }
          }
          if HasTripId(acc, id) {
            var k :| 0 <= k < |acc| && acc[k].tripId == id;
            assert next[k].tripId == id;
          }
        }
      }
      AddTripsMembers(env, g, src, blockId, next, ids[1..], id);
      assert id in ids <==> id == ids[0] || id in ids[1..] by {
        assert ids == [ids[0]] + ids[1..];
      }
    }
  }

  /** The built block holds exactly the listed trips that build, each once. */
  lemma CreatedBlockTrips(env: Env, g: Schedule, src: BlockSource, blockId: string, serviceId: string,
                          tripsInBlock: seq<string>, id: string)
    requires RowsNonEmpty(src)
    ensures UniqueTripIds(CreatedBlock(env, g, src, blockId, serviceId, tripsInBlock).trips)
    ensures HasTripId(CreatedBlock(env, g, src, blockId, serviceId, tripsInBlock).trips, id) <==>
      id in tripsInBlock && BuiltTrip(env, g, src, blockId, id).Some?
  {
    AddTripsMembers(env, g, src, blockId, [], tripsInBlock, id);
  }

  /** One trip of `createBlock`: a fresh `Trip`, then one `addStopTime` per row until a lookup fails. */
  method BuildTrip(env: Env, g: Schedule, src: BlockSource, blockId: string, tripId: string)
    returns (r: Option<ScheduledTrip>)
    requires RowsNonEmpty(src)
    ensures r == BuiltTrip(env, g, src, blockId, tripId)
  {
    if tripId !in src.tripDict || tripId !in src.stopTimeDict {
      return None;
    }
    var info := src.tripDict[tripId];
    var rows := src.stopTimeDict[tripId];
    var trip := new Trip(tripId, blockId, info.routeId, info.shapeId);
    var shape := if info.shapeId in g.shapeDict then Some(g.shapeDict[info.shapeId]) else None;
    for i := 0 to |rows|
      invariant trip.Valid() && trip.tripId == tripId && trip.blockId == blockId
      invariant trip.routeId == info.routeId && trip.shapeId == info.shapeId
      invariant AddRows(env, g, shape, tripId, trip.stopTimeList, rows[i..])
             == AddRows(env, g, shape, tripId, [], rows)
    {
      assert rows[i..][0] == rows[i] && rows[i..][1..] == rows[i + 1..];
      if rows[i].stopId !in g.stopDict || shape.None? {
        return None;
      }
      var stop := g.stopDict[rows[i].stopId];
      var p := ProjectToShape(env, shape.value.pointList, stop.stopLat, stop.stopLon);
      if p.None? {
        return None;
      }
      trip.AddStopTime(StopTime(tripId, rows[i].stopId, rows[i].stopSequence,
                                rows[i].arrTimeMillis, rows[i].depTimeMillis, p.value.postKm.value));
    }
    assert rows[|rows|..] == [];
    r := Some(trip.Value());
  }

  /** `createBlock`: a fresh `Block`, and one `addTrip` per listed trip that builds. */
  method CreateBlock(env: Env, g: Schedule, src: BlockSource, blockId: string, serviceId: string,
                     tripsInBlock: seq<string>) returns (b: BlockRec)
    requires RowsNonEmpty(src)
    ensures b == CreatedBlock(env, g, src, blockId, serviceId, tripsInBlock)
  {
    var block := new Block(blockId, serviceId);
    for i := 0 to |tripsInBlock|
      invariant block.Valid() && block.blockId == blockId && block.serviceId == serviceId
      invariant AddTrips(env, g, src, blockId, block.trips, tripsInBlock[i..])
             == AddTrips(env, g, src, blockId, [], tripsInBlock)
    {
      assert tripsInBlock[i..][0] == tripsInBlock[i] && tripsInBlock[i..][1..] == tripsInBlock[i + 1..];
      var t := BuildTrip(env, g, src, blockId, tripsInBlock[i]);
      if t.Some? {
        block.AddTrip(t.value);
      }
    }
    assert tripsInBlock[|tripsInBlock|..] == [];
    b := block.Value();
  }

  // ----- the service day -----

  /** The hour that remains after the roll-over loop of `getTimestampForDateString`. */
  function RolledHour(hour: int): (h: int)
    ensures hour >= 0 ==> 0 <= h <= 23
    ensures hour <= 23 ==> h == hour
  {
    if hour > 23 then hour % 24 else hour
  }

  /** The whole days the roll-over loop moves into `addDays`. */
  function AddedDays(hour: int): (d: nat)
    ensures 24 * d + RolledHour(hour) == hour
  {
    if hour > 23 then hour / 24 else 0
  }

  /** `getTimestampForDateString`: the local time stamp of the date at the rolled-over hour, plus the added days. */
  function DateStamp(env: Env, dateString: string, hour: int, minute: int, sec: int): int {
    env.localStamp(dateString, RolledHour(hour), minute, sec) + AddedDays(hour) * MillisPerDay
  }

  /** The roll-over loop itself: subtract 24 hours a day at a time. */
  method TimestampForDateString(env: Env, dateString: string, hour: int, minute: int, sec: int)
    returns (stamp: int)
    ensures stamp == DateStamp(env, dateString, hour, minute, sec)
  {
    var addDays := 0;
    var h := hour;
    while h > 23
      invariant 24 * addDays + h == hour && addDays >= 0
      invariant hour > 23 ==> h >= 0
      invariant hour <= 23 ==> h == hour && addDays == 0
      decreases h
    {
      addDays := addDays + 1;
      h := h - 24;
    }
    assert h == RolledHour(hour) && addDays == AddedDays(hour) by {
      if hour > 23 {
        DivModUnique(hour, addDays, h);
      }
    }
    stamp := env.localStamp(dateString, h, minute, sec);
    stamp := stamp + addDays * 24 * 60 * 60 * 1000;
  }

  lemma DivModUnique(n: int, q: int, r: int)
    requires n >= 0 && 0 <= r < 24 && n == 24 * q + r
    ensures q == n / 24 && r == n % 24
  {
  }

  /** A service runs on `time`: its day flag for that weekday, and strictly inside its dates at 04:00. */
  predicate RunsAt(env: Env, s: Service, time: int) {
    s.dayList[env.weekday(time)] &&
    DateStamp(env, s.startDate, ZeroHour, 0, 0) < time &&
    DateStamp(env, s.endDate, ZeroHour, 0, 0) > time
  }

  /** At 04:00 no day rolls over: the bounds are the local 04:00 stamps of the two dates. */
  lemma ServiceBoundsAtZeroHour(env: Env, s: Service, time: int)
    ensures RunsAt(env, s, time) <==>
      s.dayList[env.weekday(time)] &&
      env.localStamp(s.startDate, 4, 0, 0) < time && time < env.localStamp(s.endDate, 4, 0, 0)
  {
  }

  predicate ServicesKnown(g: Schedule) {
    forall i :: 0 <= i < |g.blocks| ==> g.blocks[i].serviceId in g.serviceDict
  }

  /** `getTodayBlocks`, in block order; a block whose service is unknown raises KeyError, here None. */
  function TodayBlocks(env: Env, g: Schedule, time: int): (r: Option<seq<BlockRec>>)
    ensures r.Some? <==> ServicesKnown(g)
  {
    if !ServicesKnown(g) then None
    else Some(TodayBlocksFrom(env, g, time, g.blocks))
  }

  function TodayBlocksFrom(env: Env, g: Schedule, time: int, blocks: seq<BlockRec>): seq<BlockRec>
    requires forall i :: 0 <= i < |blocks| ==> blocks[i].serviceId in g.serviceDict
    decreases |blocks|
  {
    if |blocks| == 0 then []
    else
      var rest := TodayBlocksFrom(env, g, time, blocks[..|blocks| - 1]);
      var b := blocks[|blocks| - 1];
      if RunsAt(env, g.serviceDict[b.serviceId], time) then rest + [b] else rest
  }

  /** A block is one of today's blocks iff it is in the schedule and its service runs at `time`. */
  lemma {:induction false} TodayBlocksMembers(env: Env, g: Schedule, time: int, blocks: seq<BlockRec>, b: BlockRec)
    requires forall i :: 0 <= i < |blocks| ==> blocks[i].serviceId in g.serviceDict
    ensures b in TodayBlocksFrom(env, g, time, blocks) <==>
      b in blocks && RunsAt(env, g.serviceDict[b.serviceId], time)
    decreases |blocks|
  {
    if |blocks| > 0 {
      var init := blocks[..|blocks| - 1];
      TodayBlocksMembers(env, g, time, init, b);
      assert blocks == init + [blocks[|blocks| - 1]];
    }
  }

  /** The loop of `getTodayBlocks`. */
  method GetTodayBlocks(env: Env, g: Schedule, time: int) returns (r: Option<seq<BlockRec>>)
    ensures r == TodayBlocks(env, g, time)
  {
    var blockList := [];
    for i := 0 to |g.blocks|
      invariant forall j :: 0 <= j < i ==> g.blocks[j].serviceId in g.serviceDict
      invariant blockList == TodayBlocksFrom(env, g, time, g.blocks[..i])
    {
      var b := g.blocks[i];
      if b.serviceId !in g.serviceDict {
        return None;
      }
      assert g.blocks[..i + 1][..i] == g.blocks[..i];
      var service := g.serviceDict[b.serviceId];
      var startTime := TimestampForDateString(env, service.startDate, ZeroHour, 0, 0);
      var endTime := TimestampForDateString(env, service.endDate, ZeroHour, 0, 0);
      if service.dayList[env.weekday(time)] && startTime < time && endTime > time {
        blockList := blockList + [b];
      }
    }
    assert g.blocks[..|g.blocks|] == g.blocks;
    r := Some(blockList);
  }

  // ----- the tables -----

  /** The tables of `GtfsData`, filled through the insert-if-absent `add*` methods. */
  class GtfsTables {
    var blocks: seq<BlockRec>
    var stopDict: map<string, Stop>
    var shapeDict: map<string, ShapeRec>
    var serviceDict: map<string, Service>

    ghost predicate Valid()
      reads this
    {
      WellKeyed(Value())
    }

    constructor ()
      ensures Valid()
      ensures blocks == [] && stopDict == map[] && shapeDict == map[] && serviceDict == map[]
    {
      blocks, stopDict, shapeDict, serviceDict := [], map[], map[], map[];
    }

    function Value(): Schedule
      reads this
    {
      Schedule(blocks, stopDict, shapeDict, serviceDict)
    }

    /** `addBlock`: a block whose id is already present is ignored. */
    method AddBlock(b: BlockRec)
      requires Valid()
      modifies this
      ensures Valid()
      ensures HasBlockId(old(blocks), b.blockId) ==> blocks == old(blocks)
      ensures !HasBlockId(old(blocks), b.blockId) ==> blocks == old(blocks) + [b]
      ensures stopDict == old(stopDict) && shapeDict == old(shapeDict) && serviceDict == old(serviceDict)
    {
      if BlockFromBlockId(blocks, b.blockId).None? {
        blocks := blocks + [b];
      }
    }

    /** `addStop`: the first stop stored under an id is kept. */
    method AddStop(s: Stop)
      requires Valid()
      modifies this
      ensures Valid()
      ensures stopDict == if s.stopId in old(stopDict) then old(stopDict) else old(stopDict)[s.stopId := s]
      ensures blocks == old(blocks) && shapeDict == old(shapeDict) && serviceDict == old(serviceDict)
    {
      if s.stopId !in stopDict {
        stopDict := stopDict[s.stopId := s];
      }
    }

    /** `addShape`: the first shape stored under an id is kept. */
    method AddShape(s: ShapeRec)
      requires Valid()
      modifies this
      ensures Valid()
      ensures shapeDict == if s.shapeId in old(shapeDict) then old(shapeDict) else old(shapeDict)[s.shapeId := s]
      ensures blocks == old(blocks) && stopDict == old(stopDict) && serviceDict == old(serviceDict)
    {
      if s.shapeId !in shapeDict {
        shapeDict := shapeDict[s.shapeId := s];
      }
    }

    /** `addService`: the first service stored under an id is kept. */
    method AddService(s: Service)
      requires Valid()
      modifies this
      ensures Valid()
      ensures serviceDict == if s.serviceId in old(serviceDict) then old(serviceDict) else old(serviceDict)[s.serviceId := s]
      ensures blocks == old(blocks) && stopDict == old(stopDict) && shapeDict == old(shapeDict)
    {
      if s.serviceId !in serviceDict {
        serviceDict := serviceDict[s.serviceId := s];
      }
    }
  }
}
