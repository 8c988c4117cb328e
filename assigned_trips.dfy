/**
 * `AssignedTrips`: the table saying which device runs which trip. Each fix
 * of an assigned device is placed on its trip's shape, moves the device's
 * post and its arrived/departed stops forward, and, past the last stop,
 * moves the device on to the next trip of its block. After every fix the
 * devices that are stale, off their candidate blocks or going backwards
 * lose their assignment.
 */
module AssignedTripsModel {
  import opened Wrappers
  import opened Util
  import opened StopTimes
  import opened Trips
  import opened Blocks
  import opened Shapes
  import opened Locations
  import opened ProjectedLocations
  import opened Projections
  import opened GtfsData
  import opened TripDistancesModel
  import opened AssignedTripModel

  /** The assignment table as a value: device id to assignment. */
  type AssignmentTable = map<string, Assignment>

  // ----- the table as a value -----

  /** `trip in self.getAssignedTrips()`, with `Trip.__eq__` comparing trip ids. */
  predicate TripTaken(t: AssignmentTable, tripId: string) {
    exists d :: d in t && t[d].trip.tripId == tripId
  }

  /** `block in self.getAssignedBlocks()`, with `Block.__eq__` comparing block ids. */
  predicate BlockTaken(t: AssignmentTable, blockId: string) {
    exists d :: d in t && t[d].block.blockId == blockId
  }

  /** No trip is run by two devices. */
  predicate Exclusive(t: AssignmentTable) {
    forall d, e :: d in t && e in t && d != e ==> t[d].trip.tripId != t[e].trip.tripId
  }

  /** Every assignment keeps its post at or below its recorded maximum. */
  predicate AllBelowMax(t: AssignmentTable) {
    forall d :: d in t ==> PostBelowMax(t[d])
  }

  /** `assignTrip`: the device's entry is replaced by a fresh assignment whose stops are those passed at `post`. */
  function Assigned(t: AssignmentTable, d: string, startTime: int, trip: ScheduledTrip, block: BlockRec, post: real)
    : (r: AssignmentTable)
    ensures r.Keys == t.Keys + {d}
    ensures forall e :: e in t && e != d ==> r[e] == t[e]
    ensures r[d].trip == trip && r[d].block == block && r[d].time == startTime
    ensures r[d].post == r[d].postMax == post
    ensures (r[d].arrivedStop, r[d].departedStop) == StopSequencesForPost(trip.stopTimeList, post, Thresh)
    ensures AllBelowMax(t) ==> AllBelowMax(r)
  {
    var (arr, dep) := StopSequencesForPost(trip.stopTimeList, post, Thresh);
    t[d := NewAssignment(trip, block, startTime, post, arr, dep)]
  }

  /**
   * `assignUnassignedTripToDevice`: nothing happens when some device (this
   * one included) already runs a trip with that id; otherwise the trip is
   * assigned. Either way no trip ends up with two devices.
   */
  function AssignedIfFree(t: AssignmentTable, d: string, startTime: int, trip: ScheduledTrip, block: BlockRec, post: real)
    : (r: AssignmentTable)
    ensures TripTaken(t, trip.tripId) ==> r == t
    ensures !TripTaken(t, trip.tripId) ==> r == Assigned(t, d, startTime, trip, block, post)
    ensures Exclusive(t) ==> Exclusive(r)
    ensures TripTaken(r, trip.tripId)
  {
    if TripTaken(t, trip.tripId) then t else Assigned(t, d, startTime, trip, block, post)
  }

  /**
   * `sequenceNextTrip`: the device moves on to the next trip of its block at
   * its last time, starting at `initPost` (unless another device holds that
   * trip, when the device stays on its old trip); at the end of the block
   * its entry is removed.
   */
  function Sequenced(g: Schedule, t: AssignmentTable, d: string, initPost: real): (r: AssignmentTable)
    requires d in t
    ensures NextTripInBlock(g.blocks, t[d].trip.tripId).None? ==> r == t - {d}
    ensures NextTripInBlock(g.blocks, t[d].trip.tripId).Some? ==>
      var n := NextTripInBlock(g.blocks, t[d].trip.tripId).value;
      if TripTaken(t, n.tripId) then r == t
      else r == Assigned(t, d, t[d].time, n, t[d].block, initPost)
    ensures r.Keys <= t.Keys
    ensures forall e :: e in t && e != d ==> e in r && r[e] == t[e]
  {
    match NextTripInBlock(g.blocks, t[d].trip.tripId)
    case Some(n) => AssignedIfFree(t, d, t[d].time, n, t[d].block, initPost)
    case None => t - {d}
  }

  /** Moving on to the next trip never gives a trip to two devices. */
  lemma SequencedKeepsExclusive(g: Schedule, t: AssignmentTable, d: string, initPost: real)
    requires d in t && Exclusive(t)
    ensures Exclusive(Sequenced(g, t, d, initPost))
  {
    var r := Sequenced(g, t, d, initPost);
    if NextTripInBlock(g.blocks, t[d].trip.tripId).None? {
      assert forall e :: e in r ==> e in t && r[e] == t[e];
    }
  }

  /** Moving on to the next trip keeps every post at or below its maximum. */
  lemma SequencedKeepsBelowMax(g: Schedule, t: AssignmentTable, d: string, initPost: real)
    requires d in t && AllBelowMax(t)
    ensures AllBelowMax(Sequenced(g, t, d, initPost))
  {
    var r := Sequenced(g, t, d, initPost);
    if NextTripInBlock(g.blocks, t[d].trip.tripId).None? {
      assert forall e :: e in r ==> e in t && r[e] == t[e];
    }
  }

  // ----- events -----

  /** The dictionary `sendEvent` builds. */
  datatype Event = Event(
    deviceId: string,
    stopId: string,
    stopLatitude: real,
    stopLongitude: real,
    stopSequence: int,
    stopPostmile: real,
    tripId: string,
    routeId: string,
    time: int,
    delay: int,
    eventType: int)

  /** `type` of an arrival event and of a departure event. */
  const ArrivalType: int := 0
  const DepartureType: int := 1

  /**
   * What a call of `sendEvent` does: it raises when the trip has no stop time
   * with the sequence or, once past the null check, when the stop is not in
   * the schedule; it returns without an event when a field is null; or it
   * builds the event.
   */
  datatype EventResult = Raised | Skipped | Sent(event: Event)

  /** One call of `sendEvent`: for which stop sequence, arrival or departure, and its result. */
  datatype Attempt = Attempt(stopSeq: int, arrival: bool, result: EventResult)

  /** `sendEvent`. */
  function SendEvent(env: Env, g: Schedule, trip: TripRec, stopSeq: int, p: ProjectedLocation, arrival: bool)
    : (r: EventResult)
    ensures r.Raised? <==> (StopTimeForStopSequence(trip, stopSeq).None? ||
      (p.routeId.Some? && p.tripId.Some? && p.base.deviceId.Some? && p.base.ts.Some? &&
       StopTimeForStopSequence(trip, stopSeq).value.stopId !in g.stopDict))
    ensures r.Skipped? <==> (StopTimeForStopSequence(trip, stopSeq).Some? &&
      (p.routeId.None? || p.tripId.None? || p.base.deviceId.None? || p.base.ts.None?))
    ensures r.Sent? ==>
      var st := StopTimeForStopSequence(trip, stopSeq).value;
      var e := r.event;
      st.stopSequence == stopSeq && e.stopSequence == stopSeq && e.stopId == st.stopId &&
      e.stopLatitude == g.stopDict[st.stopId].stopLat && e.stopLongitude == g.stopDict[st.stopId].stopLon &&
      e.stopPostmile == st.postKm * 1000.0 &&
      Some(e.deviceId) == p.base.deviceId && Some(e.tripId) == p.tripId && Some(e.routeId) == p.routeId &&
      Some(e.time) == p.base.ts &&
      (arrival ==> e.eventType == ArrivalType && e.time == env.dayStart(e.time) + st.arrTimeMillis + e.delay) &&
      (!arrival ==> e.eventType == DepartureType && e.time == env.dayStart(e.time) + st.depTimeMillis + e.delay)
  {
    match StopTimeForStopSequence(trip, stopSeq)
    case None => Raised
    case Some(st) =>
      if p.routeId.None? || p.tripId.None? || p.base.deviceId.None? || p.base.ts.None? then Skipped
      else if st.stopId !in g.stopDict then Raised
      else
        var ts := p.base.ts.value;
        var scheduled := env.dayStart(ts) + (if arrival then st.arrTimeMillis else st.depTimeMillis);
        var stop := g.stopDict[st.stopId];
        Sent(Event(p.base.deviceId.value, st.stopId, stop.stopLat, stop.stopLon, stopSeq, st.postKm * 1000.0,
                   p.tripId.value, p.routeId.value, ts, ts - scheduled,
                   if arrival then ArrivalType else DepartureType))
  }

  // ----- one fix of an assigned device -----

  /** The placed fix stamped with the trip, the route and the fix's own device, time, speed, bearing and accuracy. */
  function Stamped(p: ProjectedLocation, trip: TripRec, rawLoc: Location): ProjectedLocation {
    p.(tripId := Some(trip.tripId), routeId := Some(trip.routeId),
       base := p.base.(deviceId := rawLoc.deviceId, ts := rawLoc.ts, speed := rawLoc.speed,
                       bearing := rawLoc.bearing, accuracy := rawLoc.accuracy))
  }

  /**
   * The post the projection aims for: the one given, or else the current
   * post advanced at the fiducial 12 km/h for the time since the last fix.
   */
  function PostTarget(a: Assignment, rawTime: int, postTarget: Option<real>): (r: real)
    ensures postTarget.Some? ==> r == postTarget.value
    ensures postTarget.None? && rawTime > a.time ==> r > a.post
  {
    if postTarget.Some? then postTarget.value else a.post + (rawTime - a.time) as real * Vfid
  }

  /** What a newer fix does to its device's assignment, before any next trip is sequenced. */
  datatype Advance = Advance(a: Assignment, proj: ProjectedLocation, events: seq<Attempt>, raised: bool, ended: bool)

  /** Some attempt of `evs` is an arrival (`arr`) or a departure (`!arr`). */
  predicate AttemptedKind(evs: seq<Attempt>, arr: bool) {
    exists i :: 0 <= i < |evs| && evs[i].arrival == arr
  }

  /**
   * The rest of the body of `projectLocation` once the fix is placed at `p`:
   * post and time are set, and each of the arrived and departed stops moves
   * to the stop passed at the new post when that is further on, with an
   * event attempted; an event that raises stops the rest. The trip has
   * ended when the departed stop reaches the trip's last stop.
   */
  function Stepped(env: Env, g: Schedule, a: Assignment, rawTime: int, p: ProjectedLocation): (r: Advance)
    requires p.postKm.Some?
    ensures r.proj == p && r.a.trip == a.trip
  {
    var post := p.postKm.value;
    var (arr, dep) := StopSequencesForPost(a.trip.stopTimeList, post, Thresh);
    var moved := WithPost(a, post).(time := rawTime);
    var arrEvents := if arr > a.arrivedStop then [Attempt(arr, true, SendEvent(env, g, a.trip, arr, p, true))] else [];
    var arrived := if arr > a.arrivedStop then moved.(arrivedStop := arr) else moved;
    if arr > a.arrivedStop && arrEvents[0].result.Raised? then Advance(arrived, p, arrEvents, true, false)
    else if dep > a.departedStop then
      var sent := SendEvent(env, g, a.trip, dep, p, false);
      Advance(arrived.(departedStop := dep), p, arrEvents + [Attempt(dep, false, sent)], sent.Raised?,
              !sent.Raised? && dep == LastStopSequence(a.trip))
    else Advance(arrived, p, arrEvents, false, false)
  }

  /**
   * What a placed fix promises: the trip and block stay; time and post become
   * the fix's time and its post; the arrived and departed stops never move
   * back, and an arrival (a departure) is attempted exactly when the arrived
   * (departed) stop grows, for the new stop; the arrived stop becomes the
   * stop passed at the post plus the threshold when that is further on, and
   * the departed stop the one passed at the post minus the threshold when
   * that is further on and the arrival did not raise; the trip ends only on
   * a departure from its last stop.
   */
  lemma SteppedProperties(env: Env, g: Schedule, a: Assignment, rawTime: int, p: ProjectedLocation)
    requires p.postKm.Some?
    ensures var adv := Stepped(env, g, a, rawTime, p);
      adv.proj == p &&
      adv.a.trip == a.trip && adv.a.block == a.block && adv.a.time == rawTime && adv.a.post == p.postKm.value &&
      (PostBelowMax(a) ==> PostBelowMax(adv.a)) &&
      adv.a.arrivedStop >= a.arrivedStop && adv.a.departedStop >= a.departedStop &&
      (AttemptedKind(adv.events, true) <==> adv.a.arrivedStop > a.arrivedStop) &&
      (AttemptedKind(adv.events, false) <==> adv.a.departedStop > a.departedStop) &&
      (forall i :: 0 <= i < |adv.events| ==>
         adv.events[i].stopSeq == if adv.events[i].arrival then adv.a.arrivedStop else adv.a.departedStop) &&
      (adv.raised <==> exists i :: 0 <= i < |adv.events| && adv.events[i].result.Raised?) &&
      (adv.ended <==> !adv.raised && adv.a.departedStop > a.departedStop &&
                      adv.a.departedStop == LastStopSequence(a.trip))
    ensures var adv := Stepped(env, g, a, rawTime, p);
      var (arr, dep) := StopSequencesForPost(a.trip.stopTimeList, p.postKm.value, Thresh);
      var arrivalRaised := exists i :: 0 <= i < |adv.events| && adv.events[i].arrival && adv.events[i].result.Raised?;
      adv.a.arrivedStop == (if arr > a.arrivedStop then arr else a.arrivedStop) &&
      adv.a.departedStop == (if dep > a.departedStop && !arrivalRaised then dep else a.departedStop)
  {
    var adv := Stepped(env, g, a, rawTime, p);
    var (arr, dep) := StopSequencesForPost(a.trip.stopTimeList, p.postKm.value, Thresh);
    if PostBelowMax(a) {
      WithPostKeepsInvariant(a, p.postKm.value);
    }
    if arr > a.arrivedStop {
      assert adv.events[0].arrival;
    }
    if adv.a.departedStop > a.departedStop {
      assert !adv.events[|adv.events| - 1].arrival;
    }
  }

  /**
   * The body of `projectLocation` for an assigned device and a newer fix. It
   * raises without any change (None) when the fix has no position, or when
   * the trip's shape is missing or has no segment; otherwise the fix is
   * placed on the shape aiming at `PostTarget`, stamped, and stepped.
   */
  function Advanced(env: Env, g: Schedule, a: Assignment, rawLoc: Location, rawTime: int, postTarget: Option<real>)
    : (r: Option<Advance>)
    ensures r.None? <==> !HasLatAndLon(rawLoc) || a.trip.shapeId !in g.shapeDict ||
                         |g.shapeDict[a.trip.shapeId].pointList| < 2
    ensures r.Some? ==> r.value.proj.postKm.Some?
  {
    if !HasLatAndLon(rawLoc) || a.trip.shapeId !in g.shapeDict then None
    else
      var pts := g.shapeDict[a.trip.shapeId].pointList;
      match ProjectedToShapeWithTarget(env, pts, rawLoc.lat.value, rawLoc.lon.value, PostTarget(a, rawTime, postTarget))
      case None => None
      case Some(p0) =>
        Some(Stepped(env, g, a, rawTime, Stamped(p0, a.trip, rawLoc)))
  }

  /** The outcome of `projectLocation`: the new table, the returned location, the events attempted, and false when it raised. */
  datatype Outcome = Outcome(t: AssignmentTable, proj: Option<ProjectedLocation>, events: seq<Attempt>, ok: bool)

  /** The fix concerns an assigned device and is newer than the device's last one. */
  predicate Acts(t: AssignmentTable, rawLoc: Location) {
    rawLoc.deviceId.Some? && rawLoc.ts.Some? && rawLoc.deviceId.value in t &&
    rawLoc.ts.value > t[rawLoc.deviceId.value].time
  }

  /**
   * `projectLocation`: nothing happens, and None is returned, unless the
   * device is assigned and the fix is newer than its stored time. A
   * departure from the last stop sequences the next trip, starting at the
   * (negative) distance still left to the end of the shape.
   */
  function Projection(env: Env, g: Schedule, t: AssignmentTable, rawLoc: Location, postTarget: Option<real>)
    : (r: Outcome)
    ensures !Acts(t, rawLoc) ==> r == Outcome(t, None, [], true)
    ensures r.t.Keys <= t.Keys
    ensures forall e :: e in t && Some(e) != rawLoc.deviceId ==> e in r.t && r.t[e] == t[e]
    ensures r.proj.Some? ==> r.ok && Acts(t, rawLoc)
  {
    if !Acts(t, rawLoc) then Outcome(t, None, [], true)
    else
      var d := rawLoc.deviceId.value;
      match Advanced(env, g, t[d], rawLoc, rawLoc.ts.value, postTarget)
      case None => Outcome(t, None, [], false)
      case Some(adv) => Finish(g, t[d := adv.a], d, adv, g.shapeDict[t[d].trip.shapeId].pointList)
  }

  /** Where the next trip starts: minus the distance from `post` still left to the end of the shape `pts`. */
  function NextTripStart(pts: seq<ShapePoint>, post: real): (r: real)
    requires |pts| > 0
    ensures post <= pts[|pts| - 1].post ==> r <= 0.0
  {
    -(pts[|pts| - 1].post - post)
  }

  /**
   * How `projectLocation` ends once the fix is placed and the device's entry
   * of `t` stepped: an event that raised leaves no location; a departure
   * from the last stop sequences the next trip, starting at minus the
   * distance still left to the end of the shape `pts`; otherwise the table
   * stays.
   */
  function Finish(g: Schedule, t: AssignmentTable, d: string, adv: Advance, pts: seq<ShapePoint>): (r: Outcome)
    requires d in t && |pts| > 0 && adv.proj.postKm.Some?
    ensures r.t.Keys <= t.Keys
    ensures forall e :: e in t && e != d ==> e in r.t && r.t[e] == t[e]
    ensures r.ok <==> !adv.raised
    ensures r.proj.Some? <==> !adv.raised
    ensures r.events == adv.events
    ensures !adv.ended ==> r.t == t
  {
    if adv.raised then Outcome(t, None, adv.events, false)
    else if adv.ended then
      Outcome(Sequenced(g, t, d, NextTripStart(pts, adv.proj.postKm.value)), Some(adv.proj), adv.events, true)
    else Outcome(t, Some(adv.proj), adv.events, true)
  }

  /** A fix never gives a trip to two devices: the placed device keeps its trip, and moving on checks the table. */
  lemma ProjectionKeepsExclusive(env: Env, g: Schedule, t: AssignmentTable, rawLoc: Location, postTarget: Option<real>)
    requires Exclusive(t)
    ensures Exclusive(Projection(env, g, t, rawLoc, postTarget).t)
  {
    if Acts(t, rawLoc) {
      var d, a := rawLoc.deviceId.value, t[rawLoc.deviceId.value];
      var adv := Advanced(env, g, a, rawLoc, rawLoc.ts.value, postTarget);
      if adv.Some? {
        AdvancedKeepsTrip(env, g, a, rawLoc, rawLoc.ts.value, postTarget);
        var t1 := t[d := adv.value.a];
        assert Exclusive(t1);
        FinishKeeps(g, t1, d, adv.value, g.shapeDict[a.trip.shapeId].pointList);
      }
    }
  }

  /** Placing a fix keeps the assignment's trip, and its post at or below its maximum. */
  lemma AdvancedKeepsTrip(env: Env, g: Schedule, a: Assignment, rawLoc: Location, rawTime: int, postTarget: Option<real>)
    requires Advanced(env, g, a, rawLoc, rawTime, postTarget).Some?
    ensures Advanced(env, g, a, rawLoc, rawTime, postTarget).value.a.trip == a.trip
    ensures PostBelowMax(a) ==> PostBelowMax(Advanced(env, g, a, rawLoc, rawTime, postTarget).value.a)
  {
    var pts := g.shapeDict[a.trip.shapeId].pointList;
    var p0 := ProjectedToShapeWithTarget(env, pts, rawLoc.lat.value, rawLoc.lon.value, PostTarget(a, rawTime, postTarget));
    SteppedProperties(env, g, a, rawTime, Stamped(p0.value, a.trip, rawLoc));
  }

  /** Ending a fix, with or without moving on to the next trip, keeps trips exclusive and posts below their maxima. */
  lemma FinishKeeps(g: Schedule, t: AssignmentTable, d: string, adv: Advance, pts: seq<ShapePoint>)
    requires d in t && |pts| > 0 && adv.proj.postKm.Some?
    ensures Exclusive(t) ==> Exclusive(Finish(g, t, d, adv, pts).t)
    ensures AllBelowMax(t) ==> AllBelowMax(Finish(g, t, d, adv, pts).t)
  {
    if !adv.raised && adv.ended {
      var initPost := NextTripStart(pts, adv.proj.postKm.value);
      if Exclusive(t) {
        SequencedKeepsExclusive(g, t, d, initPost);
      }
      if AllBelowMax(t) {
        SequencedKeepsBelowMax(g, t, d, initPost);
      }
    }
  }

  /** A fix keeps every post at or below its maximum. */
  lemma ProjectionKeepsBelowMax(env: Env, g: Schedule, t: AssignmentTable, rawLoc: Location, postTarget: Option<real>)
    requires AllBelowMax(t)
    ensures AllBelowMax(Projection(env, g, t, rawLoc, postTarget).t)
  {
    if Acts(t, rawLoc) {
      var d, a := rawLoc.deviceId.value, t[rawLoc.deviceId.value];
      var adv := Advanced(env, g, a, rawLoc, rawLoc.ts.value, postTarget);
      if adv.Some? {
        AdvancedKeepsTrip(env, g, a, rawLoc, rawLoc.ts.value, postTarget);
        var t1 := t[d := adv.value.a];
        assert AllBelowMax(t1);
        FinishKeeps(g, t1, d, adv.value, g.shapeDict[a.trip.shapeId].pointList);
      }
    }
  }

  /**
   * The part of `projectLocation` that changes the device's assignment
   * object in place: post and time are set, then each stop that moved on
   * is recorded and its event attempted, an event that raises ending the
   * rest.
   */
  method StepAssignment(env: Env, g: Schedule, a: AssignedTrip, rawTime: int, p: ProjectedLocation)
    returns (events: seq<Attempt>, raised: bool, ended: bool)
    requires a.Valid() && p.postKm.Some?
    modifies a
    ensures a.Valid()
    ensures Advance(a.Value(), p, events, raised, ended) == Stepped(env, g, old(a.Value()), rawTime, p)
  {
    var trip := a.trip;
    var post := p.postKm.value;
    a.SetPost(post);
    a.time := rawTime;
    var arr, dep := GetStopSequencesForPost(trip.stopTimeList, post, Thresh);
    events, raised, ended := [], false, false;
    if arr > a.arrivedStop {
      a.arrivedStop := arr;
      var sent := SendEvent(env, g, trip, arr, p, true);
      events := [Attempt(arr, true, sent)];
      raised := sent.Raised?;
    }
    if !raised && dep > a.departedStop {
      a.departedStop := dep;
      var sent := SendEvent(env, g, trip, dep, p, false);
      events := events + [Attempt(dep, false, sent)];
      raised := sent.Raised?;
      ended := !raised && dep == LastStopSequence(trip);
    }
  }

  /**
   * The part of `projectLocation` on the device's assignment object: the fix
   * is placed on the trip's shape aiming at `PostTarget`, stamped, and
   * stepped; None, with the object unchanged, where the source raises
   * before changing anything.
   */
  method PlaceAndStep(env: Env, g: Schedule, a: AssignedTrip, rawLoc: Location, rawTime: int, postTarget: Option<real>)
    returns (res: Option<Advance>)
    requires a.Valid()
    modifies a
    ensures a.Valid()
    ensures res == Advanced(env, g, old(a.Value()), rawLoc, rawTime, postTarget)
    ensures a.Value() == if res.Some? then res.value.a else old(a.Value())
  {
    ghost var a0 := a.Value();
    var trip := a.trip;
    if !HasLatAndLon(rawLoc) || trip.shapeId !in g.shapeDict {
      return None;
    }
    var shape := g.shapeDict[trip.shapeId];
    var target := if postTarget.Some? then postTarget.value else a.post + (rawTime - a.time) as real * Vfid;
    assert target == PostTarget(a0, rawTime, postTarget);
    var p0 := ProjectToShapeWithTarget(env, shape.pointList, rawLoc.lat.value, rawLoc.lon.value, target);
    if p0.None? {
      return None;
    }
    var p := Stamped(p0.value, trip, rawLoc);
    var events, raised, ended := StepAssignment(env, g, a, rawTime, p);
    res := Some(Advance(a.Value(), p, events, raised, ended));
  }

  // ----- the lists the sweep removes -----

  /** `getOldAssignedDeviceList`: no fix in the last ten minutes. */
  predicate Stale(recent: seq<Location>) {
    |recent| == 0
  }

  /** `block in candidateBlocks`: some candidate has a block with this id. */
  predicate BlockAmong(cands: seq<Candidate>, blockId: string) {
    exists i :: 0 <= i < |cands| && cands[i].block.blockId == blockId
  }

  /** A device `clearBadAssignedTrips` drops: stale, off its candidate blocks, or backtracked. */
  predicate Bad(a: Assignment, recent: seq<Location>, cands: seq<Candidate>) {
    Stale(recent) || !BlockAmong(cands, a.block.blockId) || Backtracked(a)
  }

  /** The sweep keeps exactly the devices that are not bad, unchanged. */
  function Cleared(t: AssignmentTable, recents: map<string, seq<Location>>, cands: map<string, seq<Candidate>>)
    : (r: AssignmentTable)
    requires t.Keys <= recents.Keys && t.Keys <= cands.Keys
    ensures forall d :: d in r ==> d in t && r[d] == t[d]
    ensures forall d :: d in r ==> |recents[d]| > 0 && BlockAmong(cands[d], r[d].block.blockId) && !Backtracked(r[d])
    ensures Exclusive(t) ==> Exclusive(r)
    ensures AllBelowMax(t) ==> AllBelowMax(r)
  {
    map d | d in t && !Bad(t[d], recents[d], cands[d]) :: t[d]
  }

  /** Dropping exactly the bad devices from the table is the sweep. */
  lemma RemovingBadIsCleared(t: AssignmentTable, recents: map<string, seq<Location>>,
                             cands: map<string, seq<Candidate>>, bad: set<string>)
    requires t.Keys <= recents.Keys && t.Keys <= cands.Keys
    requires forall x :: x in bad <==> x in t && Bad(t[x], recents[x], cands[x])
    ensures t - bad == Cleared(t, recents, cands)
  {
    var c := Cleared(t, recents, cands);
    assert forall x :: x in t && x !in bad ==> x in c;
  }

  /**
   * `getOldAssignedDeviceList`: the assigned devices without a fix in the
   * last ten minutes; `recents` holds what each device's bucket returns for
   * `getRecent(tenMinutes)` (see `RecentMap`).
   */
  method GetOldAssignedDeviceList(recents: map<string, seq<Location>>, t: AssignmentTable) returns (r: seq<string>)
    requires t.Keys <= recents.Keys
    ensures forall x :: x in r <==> x in t && Stale(recents[x])
  {
    r := [];
    ghost var seen: set<string> := {};
    var left := t.Keys;
    while left != {}
      invariant left <= t.Keys && seen == t.Keys - left
      invariant forall x :: x in r <==> x in seen && Stale(recents[x])
      decreases |left|
    {
      var d :| d in left;
      var recentLocs := recents[d];
      if |recentLocs| == 0 {
        r := r + [d];
      }
      left, seen := left - {d}, seen + {d};
    }
  }

  /** `getInaccurateAssignedDeviceList`: the assigned devices whose block is not among their candidates. */
  method GetInaccurateAssignedDeviceList(cands: map<string, seq<Candidate>>, t: AssignmentTable) returns (r: seq<string>)
    requires t.Keys <= cands.Keys
    ensures forall x :: x in r <==> x in t && !BlockAmong(cands[x], t[x].block.blockId)
  {
    r := [];
    ghost var seen: set<string> := {};
    var left := t.Keys;
    while left != {}
      invariant left <= t.Keys && seen == t.Keys - left
      invariant forall x :: x in r <==> x in seen && !BlockAmong(cands[x], t[x].block.blockId)
      decreases |left|
    {
      var d :| d in left;
      var assignedBlock := t[d].block;
      if !BlockAmong(cands[d], assignedBlock.blockId) {
        r := r + [d];
      }
      left, seen := left - {d}, seen + {d};
    }
  }

  /** `getBacktrackingDeviceList`: the assigned devices more than 0.25 km behind their maximum. */
  method GetBacktrackingDeviceList(t: AssignmentTable) returns (r: seq<string>)
    ensures forall x :: x in r <==> x in t && Backtracked(t[x])
  {
    r := [];
    ghost var seen: set<string> := {};
    var left := t.Keys;
    while left != {}
      invariant left <= t.Keys && seen == t.Keys - left
      invariant forall x :: x in r <==> x in seen && Backtracked(t[x])
      decreases |left|
    {
      var d :| d in left;
      if Backtracked(t[d]) {
        r := r + [d];
      }
      left, seen := left - {d}, seen + {d};
    }
  }

  /** The recent fixes, as `getRecent(10 min)` returns them, of each device of `ks`. */
  function RecentMap(td: TripDistances, ks: set<string>): (r: map<string, seq<Location>>)
    requires td.BucketsValid() && ks <= td.buckets.Keys
    reads td`buckets, td.Buckets()
    ensures r.Keys == ks
    ensures forall d :: d in ks ==> r[d] == td.Recent(d)
  {
    map d | d in ks :: td.Recent(d)
  }

  /** The recent fixes and the candidates depend only on the trip distances' own fields and buckets. */
  /** A step that leaves the table and every assignment object alone leaves the snapshot and its invariant alone. */
  twostate lemma TableUntouched(new at: AssignedTrips)
    requires old(allocated(at)) && old(at.Valid()) && at.table == old(at.table)
    requires forall d :: d in at.table ==> unchanged(at.table[d])
    ensures at.Valid() && at.Snapshot() == old(at.Snapshot())
  {
  }

  twostate lemma RecentMapUnchanged(new td: TripDistances, ks: set<string>)
    requires old(allocated(td)) && old(td.BucketsValid()) && ks <= old(td.buckets.Keys)
    requires td.buckets == old(td.buckets) && td.candidateBlocks == old(td.candidateBlocks)
    requires forall d :: d in td.buckets ==>
      td.buckets[d].locationList == old(td.buckets[d].locationList) && td.buckets[d].time == old(td.buckets[d].time)
    ensures td.BucketsValid() && RecentMap(td, ks) == old(RecentMap(td, ks))
    ensures old(td.candidateBlocks.Keys <= td.buckets.Keys) ==> td.candidateBlocks.Keys <= td.buckets.Keys
  {
  }

  /** `for deviceId in ks: m.pop(deviceId, None)`. */
  method PopAll<K, V>(m: map<K, V>, ks: set<K>) returns (r: map<K, V>)
    ensures r == m - ks
  {
    r := m;
    var left := ks;
    while left != {}
      invariant left <= ks && r == m - (ks - left)
      decreases |left|
    {
      var k :| k in left;
      r := r - {k};
      left := left - {k};
    }
  }

  /** The devices `clearBadAssignedTrips` drops: the three lists, made into one set. */
  method BadDevices(recents: map<string, seq<Location>>, cands: map<string, seq<Candidate>>, t: AssignmentTable)
    returns (bad: set<string>)
    requires t.Keys <= recents.Keys && t.Keys <= cands.Keys
    ensures t - bad == Cleared(t, recents, cands)
  {
    var stale := GetOldAssignedDeviceList(recents, t);
    var off := GetInaccurateAssignedDeviceList(cands, t);
    var back := GetBacktrackingDeviceList(t);
    bad := set x | x in stale + off + back;
    RemovingBadIsCleared(t, recents, cands, bad);
  }

  // ----- the trips and blocks in use -----

  lemma HasTripIdAppend(s: seq<ScheduledTrip>, x: ScheduledTrip, id: string)
    ensures HasTripId(s + [x], id) <==> HasTripId(s, id) || x.tripId == id
  {
    if HasTripId(s, id) {
      var k :| 0 <= k < |s| && s[k].tripId == id;
      assert (s + [x])[k] == s[k];
    }
    if x.tripId == id {
      assert (s + [x])[|s|] == x;
    }
  }

  lemma HasBlockIdAppend(s: seq<BlockRec>, x: BlockRec, id: string)
    ensures HasBlockId(s + [x], id) <==> HasBlockId(s, id) || x.blockId == id
  {
    if HasBlockId(s, id) {
      var k :| 0 <= k < |s| && s[k].blockId == id;
      assert (s + [x])[k] == s[k];
    }
    if x.blockId == id {
      assert (s + [x])[|s|] == x;
    }
  }

  /** `getAssignedTrips`: one trip per device; a trip id is listed exactly when some device runs it. */
  method GetAssignedTrips(t: AssignmentTable) returns (trips: seq<ScheduledTrip>)
    ensures |trips| == |t|
    ensures forall id :: HasTripId(trips, id) <==> TripTaken(t, id)
  {
    trips := [];
    ghost var seen: set<string> := {};
    var left := t.Keys;
    while left != {}
      invariant left <= t.Keys && seen == t.Keys - left
      invariant |trips| == |seen|
      invariant forall i :: 0 <= i < |trips| ==> TripTaken(t, trips[i].tripId)
      invariant forall e :: e in seen ==> HasTripId(trips, t[e].trip.tripId)
      decreases |left|
    {
      var d :| d in left;
      forall e | e in seen + {d} {
        HasTripIdAppend(trips, t[d].trip, t[e].trip.tripId);
      }
      forall i | 0 <= i <= |trips| ensures TripTaken(t, (trips + [t[d].trip])[i].tripId) {
        if i < |trips| {
          assert (trips + [t[d].trip])[i] == trips[i];
        } else {
          assert (trips + [t[d].trip])[i] == t[d].trip;
        }
      }
      trips := trips + [t[d].trip];
      left, seen := left - {d}, seen + {d};
    }
    assert |t.Keys| == |t|;
  }

  /** `getAssignedBlocks`: one block per device; a block id is listed exactly when some device runs it. */
  method GetAssignedBlocks(t: AssignmentTable) returns (blocks: seq<BlockRec>)
    ensures |blocks| == |t|
    ensures forall id :: HasBlockId(blocks, id) <==> BlockTaken(t, id)
  {
    blocks := [];
    ghost var seen: set<string> := {};
    var left := t.Keys;
    while left != {}
      invariant left <= t.Keys && seen == t.Keys - left
      invariant |blocks| == |seen|
      invariant forall i :: 0 <= i < |blocks| ==> BlockTaken(t, blocks[i].blockId)
      invariant forall e :: e in seen ==> HasBlockId(blocks, t[e].block.blockId)
      decreases |left|
    {
      var d :| d in left;
      forall e | e in seen + {d} {
        HasBlockIdAppend(blocks, t[d].block, t[e].block.blockId);
      }
      forall i | 0 <= i <= |blocks| ensures BlockTaken(t, (blocks + [t[d].block])[i].blockId) {
        if i < |blocks| {
          assert (blocks + [t[d].block])[i] == blocks[i];
        } else {
          assert (blocks + [t[d].block])[i] == t[d].block;
        }
      }
      blocks := blocks + [t[d].block];
      left, seen := left - {d}, seen + {d};
    }
    assert |t.Keys| == |t|;
  }

  // ----- the table -----

  /** `AssignedTrips`: `assignedTripDict`, device id to the device's `AssignedTrip` object. */
  class AssignedTrips {
    const g: Schedule
    const env: Env
    var table: map<string, AssignedTrip>

    ghost function Objects(): set<AssignedTrip>
      reads this`table
    {
      set d | d in table :: table[d]
    }

    /** Every assignment keeps its invariant, and no two devices share an assignment object. */
    ghost predicate Valid()
      reads this`table, Objects()
    {
      (forall d :: d in table ==> table[d].Valid()) &&
      (forall d, e :: d in table && e in table && d != e ==> table[d] != table[e])
    }

    /** The table as a value. */
    function Snapshot(): (s: AssignmentTable)
      reads this`table, Objects()
      ensures s.Keys == table.Keys
    {
      map d | d in table :: table[d].Value()
    }

    /** Changing one device's object in place changes its entry of the snapshot and nothing else. */
    twostate lemma SnapshotAfterStep(d: string)
      requires old(Valid()) && table == old(table) && d in table && table[d].Valid()
      requires forall e :: e in table && e != d ==> table[e].Value() == old(table[e].Value())
      ensures Valid()
      ensures Snapshot() == old(Snapshot())[d := table[d].Value()]
      ensures table[d].Value() == old(table[d].Value()) ==> Snapshot() == old(Snapshot())
    {
    }

    /** Filing a new object under a device sets that device's entry of the snapshot to its value and nothing else. */
    twostate lemma SnapshotAfterInsert(d: string, new a: AssignedTrip)
      requires old(Valid()) && old(allocated(this)) && !old(allocated(a)) && a.Valid()
      requires table == old(table)[d := a]
      requires forall e :: e in old(table) ==> unchanged(old(table)[e])
      ensures Valid()
      ensures Snapshot() == old(Snapshot())[d := a.Value()]
    {
    }

    /** Dropping devices from the table drops them from the snapshot. */
    twostate lemma SnapshotAfterRemoval(ks: set<string>)
      requires old(Valid()) && table == old(table) - ks
      requires forall e :: e in table ==> table[e].Value() == old(table[e].Value())
      ensures Valid()
      ensures Snapshot() == old(Snapshot()) - ks
    {
    }

    constructor (g: Schedule, env: Env)
      ensures Valid() && this.g == g && this.env == env && table == map[]
    {
      this.g, this.env := g, env;
      table := map[];
    }

    /** `isDeviceAssigned`. */
    predicate IsDeviceAssigned(d: string)
      reads this`table
    {
      d in table
    }

    /** `assignTrip`. */
    method AssignTrip(d: string, startTime: int, trip: ScheduledTrip, block: BlockRec, post: real)
      requires Valid()
      modifies this`table
      ensures Valid()
      ensures Snapshot() == Assigned(old(Snapshot()), d, startTime, trip, block, post)
    {
      label Before:
      var arr, dep := GetStopSequencesForPost(trip.stopTimeList, post, Thresh);
      var a := new AssignedTrip(trip, block, startTime, post, arr, dep);
      table := table[d := a];
      SnapshotAfterInsert@Before(d, a);
    }

    /** `assignUnassignedTripToDevice`. */
    method AssignUnassignedTripToDevice(d: string, startTime: int, newTrip: ScheduledTrip, newBlock: BlockRec, post: real)
      requires Valid()
      modifies this`table
      ensures Valid()
      ensures Snapshot() == AssignedIfFree(old(Snapshot()), d, startTime, newTrip, newBlock, post)
    {
      var t := Snapshot();
      var trips := GetAssignedTrips(t);
      assert Snapshot() == t;
      if !HasTripId(trips, newTrip.tripId) {
        AssignTrip(d, startTime, newTrip, newBlock, post);
        assert !TripTaken(t, newTrip.tripId);
        assert Snapshot() == AssignedIfFree(t, d, startTime, newTrip, newBlock, post);
      }
    }

    /** `sequenceNextTrip`. */
    method SequenceNextTrip(d: string, initPost: real) returns (sequenced: bool)
      requires Valid() && d in table
      modifies this`table
      ensures Valid()
      ensures sequenced <==> NextTripInBlock(g.blocks, old(Snapshot())[d].trip.tripId).Some?
      ensures Snapshot() == Sequenced(g, old(Snapshot()), d, initPost)
    {
      var current := table[d];
      var nextTrip := NextTripInBlock(g.blocks, current.trip.tripId);
      if nextTrip.Some? {
        AssignUnassignedTripToDevice(d, current.time, nextTrip.value, current.block, initPost);
        return true;
      }
      table := table - {d};
      SnapshotAfterRemoval({d});
      return false;
    }

    /** `projectLocation`: the device's assignment object is updated in place. */
    method ProjectLocation(rawLoc: Location, postTarget: Option<real>)
      returns (r: Option<ProjectedLocation>, events: seq<Attempt>, ok: bool)
      requires Valid()
      modifies this`table, Objects()
      ensures Valid()
      ensures Outcome(Snapshot(), r, events, ok) == Projection(env, g, old(Snapshot()), rawLoc, postTarget)
    {
      ghost var t := Snapshot();
      if rawLoc.deviceId.None? || rawLoc.ts.None? || rawLoc.deviceId.value !in table ||
         rawLoc.ts.value <= table[rawLoc.deviceId.value].time {
        return None, [], true;
      }
      var d := rawLoc.deviceId.value;
      var a := table[d];
      var adv := PlaceAndStep(env, g, a, rawLoc, rawLoc.ts.value, postTarget);
      SnapshotAfterStep(d);
      if adv.None? {
        return None, [], false;
      }
      var pts := g.shapeDict[a.trip.shapeId].pointList;
      assert Projection(env, g, t, rawLoc, postTarget) == Finish(g, Snapshot(), d, adv.value, pts);
      r, events, ok := FinishProjection(d, adv.value, pts);
    }

    /** The end of `projectLocation`, once the device's object is stepped. */
    method FinishProjection(d: string, adv: Advance, pts: seq<ShapePoint>)
      returns (r: Option<ProjectedLocation>, events: seq<Attempt>, ok: bool)
      requires Valid() && d in table && |pts| > 0 && adv.proj.postKm.Some?
      modifies this`table
      ensures Valid()
      ensures Outcome(Snapshot(), r, events, ok) == Finish(g, old(Snapshot()), d, adv, pts)
    {
      events := adv.events;
      if adv.raised {
        return None, events, false;
      }
      if adv.ended {
        var _ := SequenceNextTrip(d, NextTripStart(pts, adv.proj.postKm.value));
      }
      r, ok := Some(adv.proj), true;
    }

    /** `clearBadAssignedTrips`: the three lists, made unique, are dropped from the table. */
    method ClearBadAssignedTrips(td: TripDistances)
      requires Valid() && td.BucketsValid() && table.Keys <= td.candidateBlocks.Keys <= td.buckets.Keys
      modifies this`table
      ensures Valid()
      ensures Snapshot() == Cleared(old(Snapshot()), RecentMap(td, old(table.Keys)), td.candidateBlocks)
    {
      var t := Snapshot();
      var recents := RecentMap(td, t.Keys);
      var bad := BadDevices(recents, td.candidateBlocks, t);
      assert Snapshot() == t;
      RemoveDevices(bad);
      RecentMapUnchanged(td, t.Keys);
    }

    /** `for deviceId in bad: pop(deviceId, None)` on the table. */
    method RemoveDevices(bad: set<string>)
      requires Valid()
      modifies this`table
      ensures Valid() && Snapshot() == old(Snapshot()) - bad
    {
      var kept := PopAll(table, bad);
      label BeforeRemoval:
      table := kept;
      SnapshotAfterRemoval@BeforeRemoval(bad);
    }

    /** `newRawLocation`: place the fix (its dictionary form is discarded), then sweep out the bad devices. */
    method NewRawLocation(td: TripDistances, rawLoc: Location) returns (events: seq<Attempt>, ok: bool)
      requires Valid() && td.BucketsValid() && table.Keys <= td.candidateBlocks.Keys <= td.buckets.Keys
      modifies this`table, Objects()
      ensures Valid() && table.Keys <= td.candidateBlocks.Keys
      ensures var o := Projection(env, g, old(Snapshot()), rawLoc, None);
        events == o.events && ok == o.ok &&
        Snapshot() == if o.ok then Cleared(o.t, RecentMap(td, o.t.Keys), td.candidateBlocks) else o.t
    {
      ghost var placed := Projection(env, g, Snapshot(), rawLoc, None);
      var r;
      r, events, ok := ProjectLocation(rawLoc, None);
      assert Snapshot() == placed.t;
      if ok {
        ClearBadAssignedTrips(td);
      }
    }
  }
}
