/**
 * Constants of the two `util` modules, and the numerical and calendar
 * collaborators the core calls but that are not modelled: great-circle
 * distance, `math.cos`, Euclidean length, the per-fix deviation and the
 * Simpson-integral score, the Student-t confidence, and the pytz time-zone
 * conversions. Each is a field of `Env`; the result types carry the only
 * facts the model uses about them.
 */
module Util {

  type NonNegReal = r: real | r >= 0.0

  type PosReal = r: real | r > 0.0 witness 1.0

  /** `datetime.weekday()`: Monday is 0, Sunday is 6. */
  type Weekday = d: int | 0 <= d < 7

  /** Radius-free constant: kilometres per degree of latitude. */
  const KmPerDeg: real := 111.0

  /** Arrival/departure distance threshold, in km. */
  const Thresh: real := 0.025

  /** Fiducial bus speed, 12 km/h, in km per millisecond. */
  const Vfid: real := 12.0 / 60.0 / 60.0 / 1000.0

  datatype Env = Env(
    /** `kmBetweenLatLonPair(lat1, lon1, lat2, lon2)`, a haversine `R * c` with `c >= 0`. */
    km: (real, real, real, real) -> NonNegReal,
    /** `math.cos(lat * pi / 180)` for a latitude in (-90, 90). */
    cosDeg: real -> PosReal,
    /** `(x**2.0 + y**2.0)**0.5`. */
    norm: (real, real) -> NonNegReal,
    /** `math.sqrt((postDist/vfid)**2 + timeDist**2 + (perpKm/vfid_perp)**2)`. */
    fixDist: (real, int, real) -> NonNegReal,
    /** The Simpson integrals, mean and weights that turn a distance and a time series into `avgMillis`. */
    score: (seq<real>, seq<real>) -> real,
    /** `probGivenDeviation`: two-tailed Student-t confidence of a deviation. */
    prob: real -> real,
    /** `getDaystartFromTimestampMillis`: local midnight of the day holding a timestamp. */
    dayStart: int -> int,
    /** `getDatetimeForTimestampMillis(t).weekday()`. */
    weekday: int -> Weekday,
    /** pytz localisation of a `YYYYMMDD` date at `H:M:S` (hour in 0..23), in ms. */
    localStamp: (string, int, int, int) -> int
  )
}
