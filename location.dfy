/** `Location`: one position fix, every field optional; and the reader of a parsed JSON fix message. */
module Locations {
  import opened Wrappers

  /** A decoded JSON value, as `json.loads` hands it back. */
  datatype Json = JNull | JBool(b: bool) | JInt(i: int) | JReal(r: real) | JString(s: string)

  /**
   * The keys of a fix message that the core reads or writes. Other keys of a
   * message are never looked at, so a message is a map over these.
   */
  datatype Key = DeviceIdKey | TimeKey | LatitudeKey | LongitudeKey | SpeedKey | BearingKey
               | AccuracyKey | PostmileKey | RouteIdKey | TripIdKey

  /** The JSON spelling of each key. */
  function KeyName(k: Key): string {
    match k
    case DeviceIdKey => "device_id"
    case TimeKey => "time"
    case LatitudeKey => "latitude"
    case LongitudeKey => "longitude"
    case SpeedKey => "speed"
    case BearingKey => "bearing"
    case AccuracyKey => "accuracy"
    case PostmileKey => "postmile"
    case RouteIdKey => "route_id"
    case TripIdKey => "trip_id"
  }

  datatype Location = Location(
    deviceId: Option<string>,
    ts: Option<int>,
    lat: Option<real>,
    lon: Option<real>,
    speed: Option<real>,
    bearing: Option<real>,
    accuracy: Option<real>)

  /** `Location()`: every field None. */
  const EmptyLocation: Location := Location(None, None, None, None, None, None, None)

  /** `hasLatAndLon`. */
  predicate HasLatAndLon(l: Location) {
    l.lat.Some? && l.lon.Some?
  }

  /** A fix the predictor can file: it names its device and carries a timestamp. */
  predicate IsFix(l: Location) {
    l.deviceId.Some? && l.ts.Some?
  }

  // ----- reading JSON values into the typed fields; a value of another kind is not read -----

  function StringField(v: Json): (r: Option<Option<string>>)
    ensures r == Some(None) <==> v.JNull?
    ensures v.JString? ==> r == Some(Some(v.s))
  {
    match v
    case JNull => Some(None)
    case JString(s) => Some(Some(s))
    case _ => None
  }

  function IntField(v: Json): (r: Option<Option<int>>)
    ensures r == Some(None) <==> v.JNull?
    ensures v.JInt? ==> r == Some(Some(v.i))
  {
    match v
    case JNull => Some(None)
    case JInt(i) => Some(Some(i))
    case _ => None
  }

  /** A JSON number read into a real-valued field: integers are widened. */
  function NumberField(v: Json): (r: Option<Option<real>>)
    ensures r == Some(None) <==> v.JNull?
    ensures v.JReal? ==> r == Some(Some(v.r))
    ensures v.JInt? ==> r == Some(Some(v.i as real))
  {
    match v
    case JNull => Some(None)
    case JInt(i) => Some(Some(i as real))
    case JReal(x) => Some(Some(x))
    case _ => None
  }

  /** An optional key: absent means None. */
  function OptionalNumber(d: map<Key, Json>, key: Key): Option<Option<real>> {
    if key in d then NumberField(d[key]) else Some(None)
  }

  /** The five keys a fix message may leave out. */
  const OptionalKeys: set<Key> := {LatitudeKey, LongitudeKey, SpeedKey, BearingKey, AccuracyKey}

  /**
   * `createLocationFromJson` over the already-decoded message: `device_id`
   * and `time` are required (KeyError otherwise); the five optional fields are
   * copied when their key is present. A message reads exactly when both
   * required keys are there and every value present is of its field's kind.
   */
  function LocationFromJson(d: map<Key, Json>): (r: Option<Location>)
    ensures r.Some? <==>
      DeviceIdKey in d && TimeKey in d && StringField(d[DeviceIdKey]).Some? && IntField(d[TimeKey]).Some? &&
      forall k :: k in OptionalKeys && k in d ==> NumberField(d[k]).Some?
    ensures r.Some? ==> StringField(d[DeviceIdKey]) == Some(r.value.deviceId) && IntField(d[TimeKey]) == Some(r.value.ts)
    ensures r.Some? ==> (LatitudeKey !in d ==> r.value.lat.None?) && (LongitudeKey !in d ==> r.value.lon.None?)
    ensures r.Some? ==> (SpeedKey !in d ==> r.value.speed.None?) && (BearingKey !in d ==> r.value.bearing.None?)
    ensures r.Some? ==> (AccuracyKey !in d ==> r.value.accuracy.None?)
    ensures r.Some? && LatitudeKey in d ==> NumberField(d[LatitudeKey]) == Some(r.value.lat)
    ensures r.Some? && LongitudeKey in d ==> NumberField(d[LongitudeKey]) == Some(r.value.lon)
    ensures r.Some? && SpeedKey in d ==> NumberField(d[SpeedKey]) == Some(r.value.speed)
    ensures r.Some? && BearingKey in d ==> NumberField(d[BearingKey]) == Some(r.value.bearing)
    ensures r.Some? && AccuracyKey in d ==> NumberField(d[AccuracyKey]) == Some(r.value.accuracy)
  {
    if DeviceIdKey !in d || TimeKey !in d then None
    else
      var dev := StringField(d[DeviceIdKey]);
      var ts := IntField(d[TimeKey]);
      var lat := OptionalNumber(d, LatitudeKey);
      var lon := OptionalNumber(d, LongitudeKey);
      var speed := OptionalNumber(d, SpeedKey);
      var bearing := OptionalNumber(d, BearingKey);
      var accuracy := OptionalNumber(d, AccuracyKey);
      if dev.None? || ts.None? || lat.None? || lon.None? || speed.None? || bearing.None? || accuracy.None? then None
      else Some(Location(dev.value, ts.value, lat.value, lon.value, speed.value, bearing.value, accuracy.value))
  }

  /** A message with only the two required keys reads as a fix with no position, so it has no lat/lon. */
  lemma BareMessageHasNoPosition(dev: string, ts: int)
    ensures var r := LocationFromJson(map[DeviceIdKey := JString(dev), TimeKey := JInt(ts)]);
      r.Some? && IsFix(r.value) && !HasLatAndLon(r.value)
  {
  }
}
