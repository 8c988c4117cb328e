/** `ProjectedLocation`: a fix placed on a trip's shape, and the dictionary `createJsonFromProjLoc` builds from it. */
module ProjectedLocations {
  import opened Wrappers
  import opened Locations

  /** The `Location` part is the inherited fields. */
  datatype ProjectedLocation = ProjectedLocation(
    base: Location,
    postKm: Option<real>,
    perpKm: Option<real>,
    tripId: Option<string>,
    routeId: Option<string>)

  /** `ProjectedLocation()`: every own and inherited field None. */
  const EmptyProjectedLocation: ProjectedLocation := ProjectedLocation(EmptyLocation, None, None, None, None)

  lemma EmptyProjectedLocationIsBlank()
    ensures EmptyProjectedLocation.postKm.None? && EmptyProjectedLocation.perpKm.None?
    ensures EmptyProjectedLocation.tripId.None? && EmptyProjectedLocation.routeId.None?
    ensures !HasLatAndLon(EmptyProjectedLocation.base) && !IsFix(EmptyProjectedLocation.base)
  {
  }

  function StringOrNull(o: Option<string>): Json {
    if o.Some? then JString(o.value) else JNull
  }

  function IntOrNull(o: Option<int>): Json {
    if o.Some? then JInt(o.value) else JNull
  }

  /** Which keys `createJsonFromProjLoc` writes for `p`. */
  predicate Written(p: ProjectedLocation, k: Key) {
    match k
    case DeviceIdKey => true
    case TimeKey => true
    case LatitudeKey => p.base.lat.Some?
    case LongitudeKey => p.base.lon.Some?
    case SpeedKey => p.base.speed.Some?
    case BearingKey => p.base.bearing.Some?
    case AccuracyKey => p.base.accuracy.Some?
    case PostmileKey => p.postKm.Some?
    case RouteIdKey => p.routeId.Some?
    case TripIdKey => p.tripId.Some?
  }

  /** The value written under a key; the post is converted from km to metres. */
  function WrittenValue(p: ProjectedLocation, k: Key): Json
    requires Written(p, k)
  {
    match k
    case DeviceIdKey => StringOrNull(p.base.deviceId)
    case TimeKey => IntOrNull(p.base.ts)
    case LatitudeKey => JReal(p.base.lat.value)
    case LongitudeKey => JReal(p.base.lon.value)
    case SpeedKey => JReal(p.base.speed.value)
    case BearingKey => JReal(p.base.bearing.value)
    case AccuracyKey => JReal(p.base.accuracy.value)
    case PostmileKey => JReal(p.postKm.value * 1000.0)
    case RouteIdKey => JString(p.routeId.value)
    case TripIdKey => JString(p.tripId.value)
  }

  const AllKeys: set<Key> := {DeviceIdKey, TimeKey, LatitudeKey, LongitudeKey, SpeedKey, BearingKey,
                              AccuracyKey, PostmileKey, RouteIdKey, TripIdKey}

  /**
   * `createJsonFromProjLoc`, before `json.dumps`: `device_id` and `time` are
   * always written (null when unset); each other field only when set, with
   * the post converted from km to metres. The map is written with one entry
   * per key; `json.dumps` is not modelled.
   */
  function JsonFromProjLoc(p: ProjectedLocation): (d: map<Key, Json>)
    ensures DeviceIdKey in d && TimeKey in d
    ensures LatitudeKey in d <==> p.base.lat.Some?
    ensures LongitudeKey in d <==> p.base.lon.Some?
    ensures SpeedKey in d <==> p.base.speed.Some?
    ensures BearingKey in d <==> p.base.bearing.Some?
    ensures AccuracyKey in d <==> p.base.accuracy.Some?
    ensures PostmileKey in d <==> p.postKm.Some?
    ensures RouteIdKey in d <==> p.routeId.Some?
    ensures TripIdKey in d <==> p.tripId.Some?
    ensures p.postKm.Some? ==> d[PostmileKey] == JReal(p.postKm.value * 1000.0)
  {
    map k | k in AllKeys && Written(p, k) :: WrittenValue(p, k)
  }

  /** `perpKm` is never written: the dictionary does not depend on it. */
  lemma JsonIgnoresPerpKm(p: ProjectedLocation, perp: Option<real>)
    ensures JsonFromProjLoc(p.(perpKm := perp)) == JsonFromProjLoc(p)
  {
  }

  /** Reading back the dictionary written for a projected location recovers its `Location` fields. */
  lemma {:induction false} JsonRoundTrip(p: ProjectedLocation)
    ensures LocationFromJson(JsonFromProjLoc(p)) == Some(p.base)
  {
    var d := JsonFromProjLoc(p);
    var l := p.base;
    assert d[DeviceIdKey] == StringOrNull(l.deviceId);
    assert d[TimeKey] == IntOrNull(l.ts);
    assert l.lat.Some? ==> d[LatitudeKey] == JReal(l.lat.value);
    assert l.lon.Some? ==> d[LongitudeKey] == JReal(l.lon.value);
    assert l.speed.Some? ==> d[SpeedKey] == JReal(l.speed.value);
    assert l.bearing.Some? ==> d[BearingKey] == JReal(l.bearing.value);
    assert l.accuracy.Some? ==> d[AccuracyKey] == JReal(l.accuracy.value);
  }
}
