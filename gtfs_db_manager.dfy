/**
 * The two pieces of `GtfsDbManager` that are plain computation: reading a
 * GTFS `H:M:S` time, and the loop of `getSchList` that turns the
 * arrival-ordered stop-time rows of a block into alternating departure and
 * arrival entries.
 */
module GtfsDbManager {
  import opened Wrappers
  import opened Strings

  // ----- getMillisFromTimeString -----

  /**
   * `getMillisFromTimeString`: exactly three `:`-separated fields, each an
   * integer literal, read as hours, minutes and seconds. Hours past 23 are
   * accepted (GTFS writes times after midnight of the service day that way).
   */
  function MillisFromTimeString(timeString: string): (r: Option<int>)
    ensures r.Some? ==> |Split(timeString, ':')| == 3
  {
    var fields := Split(timeString, ':');
    if |fields| != 3 then None
    else MillisFromFields(fields[0], fields[1], fields[2])
  }

  /** The unpacked fields read as integers, or the `ValueError` case. */
  function MillisFromFields(hourField: string, minuteField: string, secondField: string): (r: Option<int>)
    ensures r.Some? <==> ParseInt(hourField).Some? && ParseInt(minuteField).Some? && ParseInt(secondField).Some?
    ensures r.Some? ==>
      r.value == 1000 * (3600 * ParseInt(hourField).value + 60 * ParseInt(minuteField).value + ParseInt(secondField).value)
  {
    var hour, minute, second := ParseInt(hourField), ParseInt(minuteField), ParseInt(secondField);
    if hour.None? || minute.None? || second.None? then None
    else Some((second.value + 60 * minute.value + 3600 * hour.value) * 1000)
  }

  /** A time written as `H:M:S`, the fields formatted as `str` does. */
  function TimeString(hour: int, minute: int, second: int): string {
    Join([IntToString(hour), IntToString(minute), IntToString(second)], ':')
  }

  lemma IntToStringNoColon(n: int)
    ensures ':' !in IntToString(n)
  {
  }

  /** Reading a formatted time gives `1000 * (3600 H + 60 M + S)`, for any hour, including 24 and later. */
  lemma MillisOfTimeString(hour: int, minute: int, second: int)
    ensures MillisFromTimeString(TimeString(hour, minute, second)) == Some(1000 * (3600 * hour + 60 * minute + second))
  {
    var parts := [IntToString(hour), IntToString(minute), IntToString(second)];
    IntToStringNoColon(hour);
    IntToStringNoColon(minute);
    IntToStringNoColon(second);
    SplitJoin(parts, ':');
    ParseIntToString(hour);
    ParseIntToString(minute);
    ParseIntToString(second);
    var fields := Split(TimeString(hour, minute, second), ':');
    assert fields == parts;
    MillisOfFields(TimeString(hour, minute, second), hour, minute, second);
  }

  /** Three fields that read as integers give the time in milliseconds. */
  lemma MillisOfFields(timeString: string, hour: int, minute: int, second: int)
    requires var f := Split(timeString, ':');
      |f| == 3 && ParseInt(f[0]) == Some(hour) && ParseInt(f[1]) == Some(minute) && ParseInt(f[2]) == Some(second)
    ensures MillisFromTimeString(timeString) == Some(1000 * (3600 * hour + 60 * minute + second))
  {
    var f := Split(timeString, ':');
    var r := MillisFromFields(f[0], f[1], f[2]);
    assert r.Some? && r.value == 1000 * (3600 * hour + 60 * minute + second);
    assert MillisFromTimeString(timeString) == r;
  }

  /** A string that does not have exactly three fields is refused (the unpacking raises). */
  lemma MillisNeedsThreeFields(timeString: string)
    requires |Split(timeString, ':')| != 3
    ensures MillisFromTimeString(timeString).None?
  {
  }

  // ----- getSchList -----

  /** One row of the `getSchList` query, already ordered by arrival. */
  datatype SchRow = SchRow(
    stopSequence: int,
    arrSec: int,
    depSec: int,
    stopId: string,
    tripId: string,
    blockId: string,
    routeId: string,
    direction: int)

  datatype EntryKind = Arrival | Departure

  /** An entry of `schList`: the dictionary with either an `arrival` or a `departure` key. */
  datatype SchEntry = SchEntry(
    kind: EntryKind,
    stopSeq: int,
    time: int,
    stopId: string,
    tripId: string,
    blockId: string,
    routeId: string,
    direction: int)

  function ArrivalOf(row: SchRow): SchEntry {
    SchEntry(Arrival, row.stopSequence, row.arrSec, row.stopId, row.tripId, row.blockId, row.routeId, row.direction)
  }

  function DepartureOf(row: SchRow): SchEntry {
    SchEntry(Departure, row.stopSequence, row.depSec, row.stopId, row.tripId, row.blockId, row.routeId, row.direction)
  }

  /** A row continuing a block at the stop where the previous trip ended: same stop, another trip. */
  predicate Continues(last: SchEntry, row: SchRow) {
    row.tripId != last.tripId && row.stopId == last.stopId
  }

  /**
   * The last departure entry taken over by the next trip: its sequence,
   * departure, trip, route and direction come from the row; its stop and
   * block stay.
   */
  function TakenOver(last: SchEntry, row: SchRow): SchEntry {
    last.(stopSeq := row.stopSequence, time := row.depSec, tripId := row.tripId,
          routeId := row.routeId, direction := row.direction)
  }

  /** Entries at even positions are departures, at odd positions arrivals. */
  predicate Alternates(s: seq<SchEntry>) {
    forall k :: 0 <= k < |s| ==> s[k].kind == (if k % 2 == 0 then Departure else Arrival)
  }

  /** Every arrival entry is followed by a departure entry at the same stop. */
  predicate PairedAtStop(s: seq<SchEntry>) {
    forall k :: 0 <= k < |s| - 1 && k % 2 == 1 ==> s[k + 1].stopId == s[k].stopId
  }

  /**
   * The loop body over the first `|rows|` rows: the first row adds only its
   * departure; a continuing row takes over the last departure; every other
   * row adds its arrival and its departure.
   */
  function Merged(rows: seq<SchRow>): (r: seq<SchEntry>)
    ensures |rows| > 0 ==> |r| % 2 == 1 && r[|r| - 1].kind == Departure
    ensures |rows| == 0 ==> r == []
    decreases |rows|
  {
    if |rows| == 0 then []
    else
      var prev := Merged(rows[..|rows| - 1]);
      var row := rows[|rows| - 1];
      if |prev| == 0 then [DepartureOf(row)]
      else if Continues(prev[|prev| - 1], row) then prev[..|prev| - 1] + [TakenOver(prev[|prev| - 1], row)]
      else prev + [ArrivalOf(row), DepartureOf(row)]
  }

  /** The shape of the list the loop builds: odd length, departures and arrivals in turn, each arrival paired with a departure at its stop. */
  lemma MergedShape(rows: seq<SchRow>)
    ensures Alternates(Merged(rows)) && PairedAtStop(Merged(rows))
  {
    MergedAlternates(rows);
    MergedPaired(rows);
  }

  lemma {:induction false} MergedAlternates(rows: seq<SchRow>)
    ensures Alternates(Merged(rows))
    decreases |rows|
  {
    if |rows| > 0 {
      var init := rows[..|rows| - 1];
      MergedAlternates(init);
      var prev := Merged(init);
      var n := |prev|;
      var r := Merged(rows);
      if n > 0 {
        assert n % 2 == 1 && (n - 1) % 2 == 0 && (n + 1) % 2 == 0;
        if Continues(prev[n - 1], rows[|rows| - 1]) {
          assert forall k :: 0 <= k < n - 1 ==> r[k] == prev[k];
          assert r[n - 1].kind == prev[n - 1].kind;
        } else {
          assert forall k :: 0 <= k < n ==> r[k] == prev[k];
          assert r[n].kind == Arrival && r[n + 1].kind == Departure;
        }
      }
    }
  }

  lemma {:induction false} MergedPaired(rows: seq<SchRow>)
    ensures PairedAtStop(Merged(rows))
    decreases |rows|
  {
    if |rows| > 0 {
      var init := rows[..|rows| - 1];
      MergedPaired(init);
      var prev := Merged(init);
      var n := |prev|;
      var r := Merged(rows);
      if n > 0 {
        assert n % 2 == 1;
        if Continues(prev[n - 1], rows[|rows| - 1]) {
          assert forall k :: 0 <= k < n - 1 ==> r[k] == prev[k];
          assert r[n - 1].stopId == prev[n - 1].stopId;
        } else {
          assert forall k :: 0 <= k < n ==> r[k] == prev[k];
          assert r[n].stopId == r[n + 1].stopId;
        }
      }
    }
  }

  /** The first row yields only a departure entry. */
  lemma FirstRowDepartureOnly(row: SchRow)
    ensures Merged([row]) == [DepartureOf(row)]
  {
    assert [row][..0] == [];
  }

  /** `getSchList`: the merged list without its trailing departure. With no row at all, `schList[-1]` raises. */
  function SchList(rows: seq<SchRow>): (r: Option<seq<SchEntry>>)
    ensures r.Some? <==> |rows| > 0
    ensures r.Some? ==> |r.value| % 2 == 0
  {
    if |rows| == 0 then None
    else
      var m := Merged(rows);
      Some(m[..|m| - 1])
  }

  /** The returned list alternates departure, arrival, pairs each arrival with a departure at its stop, and ends with an arrival. */
  lemma SchListShape(rows: seq<SchRow>)
    requires |rows| > 0
    ensures var s := SchList(rows).value;
      Alternates(s) && PairedAtStop(s) && (|s| > 0 ==> s[|s| - 1].kind == Arrival)
  {
    MergedShape(rows);
    var m := Merged(rows);
    var s := m[..|m| - 1];
    assert forall k :: 0 <= k < |s| ==> s[k] == m[k];
  }

  /** The loop of `getSchList`: `schList[-1]` is updated in place, entries are appended. */
  method GetSchList(rows: seq<SchRow>) returns (r: Option<seq<SchEntry>>)
    ensures r == SchList(rows)
  {
    var schList: seq<SchEntry> := [];
    for i := 0 to |rows|
      invariant schList == Merged(rows[..i])
    {
      assert rows[..i + 1][..i] == rows[..i];
      var row := rows[i];
      var firstStopOfTrip := false;
      if i > 0 {
        var last := schList[|schList| - 1];
        if row.tripId != last.tripId && row.stopId == last.stopId {
          schList := schList[..|schList| - 1] + [TakenOver(last, row)];
          firstStopOfTrip := true;
        }
      }
      if !firstStopOfTrip {
        var arrEntry := ArrivalOf(row);
        if i > 0 {
          schList := schList + [arrEntry];
        }
        var depEntry := arrEntry.(kind := Departure, time := row.depSec);
        schList := schList + [depEntry];
      }
    }
    assert rows[..|rows|] == rows;
    if |schList| == 0 {
      return None;
    }
    var endDep := schList[|schList| - 1].kind == Departure;
    if endDep {
      schList := schList[..|schList| - 1];
    }
    r := Some(schList);
  }
}
