/** `StopTime`: one scheduled visit of a trip to a stop. */
module StopTimes {

  /** The six stored fields; times are milliseconds since local 00:00 of the service day. */
  datatype StopTime = StopTime(
    tripId: string,
    stopId: string,
    stopSequence: int,
    arrTimeMillis: int,
    depTimeMillis: int,
    postKm: real)

  /** `__eq__`: same trip and same stop; sequence, times and postmile are ignored. */
  predicate Same(a: StopTime, b: StopTime) {
    a.tripId == b.tripId && a.stopId == b.stopId
  }

  /** `__cmp__`: three-way comparison on the stop sequence only. */
  function Compare(a: StopTime, b: StopTime): (c: int)
    ensures c == -1 || c == 0 || c == 1
    ensures c < 0 <==> a.stopSequence < b.stopSequence
    ensures c > 0 <==> a.stopSequence > b.stopSequence
  {
    if a.stopSequence < b.stopSequence then -1
    else if a.stopSequence > b.stopSequence then 1
    else 0
  }

  /** The comparison is antisymmetric, and only the stop sequence matters. */
  lemma CompareAntisymmetric(a: StopTime, b: StopTime)
    ensures Compare(a, b) == -Compare(b, a)
    ensures Compare(a, b) == 0 <==> a.stopSequence == b.stopSequence
  {
  }

  /**
   * A loop route visiting one stop twice: the two visits are `==` for
   * Python (same trip, same stop) yet compare as different.
   */
  lemma EqualButOrderedApart(tripId: string, stopId: string, s1: int, s2: int,
                             a1: int, d1: int, a2: int, d2: int, p1: real, p2: real)
    requires s1 < s2
    ensures var v1 := StopTime(tripId, stopId, s1, a1, d1, p1);
            var v2 := StopTime(tripId, stopId, s2, a2, d2, p2);
            Same(v1, v2) && Compare(v1, v2) == -1
  {
  }
}
