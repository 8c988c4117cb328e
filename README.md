# BusTripper trip assigner, modelled in Dafny

BusTripper assigns buses to scheduled GTFS trips in real time. Each bus reports position fixes
(device id, timestamp, latitude, longitude). The assigner keeps, per device, a bucket of recent fixes.
It scores those fixes against every block (a day's chain of trips) running today. A block qualifies as
a candidate when its score is under 40 minutes of deviation. A device is then assigned to a block when
its best candidate is clearly more likely than the runner-up and than the same block for any other
unassigned device. After that, each new fix is projected onto the trip's shape. It advances the
arrived and departed stop and moves the device on to the next trip of the block. A sweep after every
fix drops assignments that are stale, off-candidate or backtracking. The predictor drives all of
this with a clock that never moves back, and it re-evaluates the unassigned devices at most once a minute.

The model follows the repository's structure, one module per source file:

- **Schedule values:** `StopTimes`, `Trips`, `Blocks`, `Shapes`.
- **Fixes:** `Locations`, `LocationBuckets`, `ProjectedLocations`.
- **Schedule store and its shape projection:** `GtfsData`, `Projections`.
- **GTFS database reading:** `GtfsDbManager`, covering the time-string parser and the
  arrival/departure merge.
- **Assignment state:** `AssignedTripModel`, `AssignedTripsModel`.
- **Scoring, deciding and the clock:** `TripDistancesModel`, `TripClassifierModel`,
  `PredictorModel`.
- **Smaller pieces:** the DTW dynamic programme (`Dtw`) and the `key=value` readers (`KeysIo`,
  `ExampleLogin`). Also the SQL strings of the remote copy (`CopyRemoteDb`).
- **Helpers:** `Wrappers` holds `Option` and an all-or-nothing map over a sequence. `Strings` holds
  Python's `split`, `rstrip`, `join` and integer formatting. `Util` holds the constants and the
  numerical collaborators.

How Python constructs are modelled:

- **Classes.** Objects that the source changes in place are classes with `modifies` clauses: a trip,
  block or shape being built, a location bucket, the GTFS tables, an assignment, the assignment
  table, the scorer, the classifier and the predictor. Each state-changing method states its whole
  new state. Each is proved against a function on values, and the properties are lemmas about that
  function.
- **Schedule values.** The finished schedule is a value. Blocks and their trips are immutable once
  built.
- **Dictionaries.** A dictionary that is iterated (one of blocks, or the trips of a block) is an
  insertion-ordered sequence with unique ids. A dictionary that is only looked up is a `map`.
- **Raising.** Code that raises (an `IndexError`, a `KeyError`, a `None` attribute, a division by zero
  that the case analysis allows) is a `None` or `ok == false` result. Each such case is stated in
  the contracts, and a raise ends the caller's step where Python's would: when the classifier
  raises on a fix, the predictor does not move its clock.
- **Loops.** Loops are `while`/`for` loops with invariants, and the DTW table is a 2-D `array`.
- **Numbers.** Timestamps are `int` milliseconds. Kilometres and probabilities are `real`.
- **Numerical library.** Great-circle distance, `cos`, square roots, the Simpson-integral score, the
  Student-t confidence and the pytz conversions are fields of `Util.Env`. Their result types carry the
  only facts used: distances are not negative, the cosine is positive, and a weekday is in 0..6.

Some quirks of the code are modelled as written and stated as lemmas:

- `setPost` raises the maximum post only when the new post exceeds the *current* post.
- `prob1` in `chooseObviousBlock` is the prob of the *last* free runner-up, not the largest
  (`TripClassifierModel.LastUntakenProbIsNotTheBest`).
- `getBestTrip` overwrites its loop variable, so every pass scores the same trip.
- Stop times are equal by trip and stop, yet are ordered by stop sequence
  (`StopTimes.EqualButOrderedApart`).
- Exclusivity is kept on trips, not blocks.
- `readLogin` does not skip `#` lines (`KeysIo.CommentLine`).

The source comment at assigner/predictor/predictor.py:56 says "30 seconds". The constant on line 58
is 60 000 ms, and the model follows the constant.

## Model

| member | source | states |
|---|---|---|
| StopTimes.Compare | assigner/pygtfs/stopTime.py:29-35 | the three-way result is -1, 0 or 1, negative exactly when the first stop sequence is smaller and positive exactly when it is larger |
| StopTimes.CompareAntisymmetric | assigner/pygtfs/stopTime.py:29-35 | swapping the operands negates the comparison, and it is 0 exactly when the stop sequences agree |
| StopTimes.EqualButOrderedApart | assigner/pygtfs/stopTime.py:25-35 | two visits of one trip to one stop are `==` (equality ignores the sequence) yet compare as ordered apart when their sequences differ |
| Trips.InsertionPoint | assigner/pygtfs/trip.py:36-39 | the index where a stable sort places an appended stop time: every element before it has a sequence at most x's, the one at it (if any) a larger sequence |
| Trips.AddAllNonEmpty | assigner/pygtfs/trip.py:36-39 | adding stop times one by one to a trip that has one, or adding at least one, always leaves a non-empty list |
| Trips.StableInsertAt | assigner/pygtfs/trip.py:36-39 | the list after append-and-sort is one longer, holds the new stop time at the insertion point, and the old elements before and after it in their order |
| Trips.StableInsertSorted | assigner/pygtfs/trip.py:36-39 | append-and-sort of a sorted list stays sorted by stop sequence and is a permutation of the old list plus the new stop time |
| Trips.StableInsertMultiset | assigner/pygtfs/trip.py:36-39 | append-and-sort adds exactly the new stop time to the multiset of the list |
| Trips.InsertedSorted | assigner/pygtfs/trip.py:36-39 | a sorted list with an element placed between those not above it and those above it is sorted |
| Trips.StableInsertNoSame | assigner/pygtfs/trip.py:36-39 | inserting a stop time with no `==` partner keeps the list free of two `==` stop times |
| Trips.LastStopSequenceIsMax | assigner/pygtfs/trip.py:54-55 | on a sorted trip, `getLastStopSequence` is the largest stop sequence of the trip |
| Trips.CompareTrips | assigner/pygtfs/trip.py:21-29 | the trip comparison is -1, 0 or 1 and follows the order of the first departures in both directions |
| Trips.LastIndexBelow | assigner/pygtfs/trip.py:58-69 | the last index whose postmile is below the bound: that element is below it and every later element is not; -1 when none is |
| Trips.LastIndexBelowMonotone | assigner/pygtfs/trip.py:58-69 | a larger bound never finds an earlier last index |
| Trips.DepartedNotAfterArrived | assigner/pygtfs/trip.py:58-69 | with a non-negative threshold the departed stop is never past the arrived stop: its index is no larger, and on a sorted trip neither is its stop sequence; a departure implies an arrival |
| Trips.GetStopSequencesForPost | assigner/pygtfs/trip.py:58-69 | the two loops return the stop sequence of the last stop time below postmile plus threshold and below postmile minus threshold, -1 when there is none |
| Trips.ScanBelow | assigner/pygtfs/trip.py:61-63 | one loop returns the sequence of the last stop time (in list order) below the bound, or -1 |
| Trips.IndexOfSequence | assigner/pygtfs/trip.py:72-75 | the first index with the given stop sequence: no earlier element has it; -1 exactly when no element has it |
| Trips.StopTimeForStopSequence | assigner/pygtfs/trip.py:72-75 | the result is a stop time of the trip with that sequence, and it is None (Python's implicit return) exactly when no stop time has that sequence |
| Trips.Trip.constructor | assigner/pygtfs/trip.py:9-14 | stores the four ids and an empty stop-time list, which is valid |
| Trips.Trip.AddStopTime | assigner/pygtfs/trip.py:36-39 | the list is unchanged when an `==` stop time is present and otherwise gains exactly the new stop time at its stable-sort place; it stays sorted and free of duplicates |
| Trips.PrefixIsInsertionPoint | assigner/pygtfs/trip.py:36-39 | on a sorted list, the scan that stops at the first larger sequence ends at the insertion point |
| Blocks.TripWithId | assigner/pygtfs/block.py:30-32 | the dictionary lookup finds a trip exactly when some trip has that id, and what it finds is a stored trip with that id |
| Blocks.DepInsertionPoint | assigner/pygtfs/block.py:50-51 | where a stable sort by first departure places an appended trip: after every trip leaving no later, before one leaving later |
| Blocks.InsertByDepartureSorted | assigner/pygtfs/block.py:50-51 | inserting a trip into a list sorted by first departure keeps it sorted and adds exactly that trip |
| Blocks.InsertByDepartureMultiset | assigner/pygtfs/block.py:50-51 | the insert adds exactly the new trip to the multiset of trips |
| Blocks.InsertByDepartureAt | assigner/pygtfs/block.py:50-51 | the insert holds the new trip at the insertion point and the old trips before and after it in order |
| Blocks.InsertedByDeparture | assigner/pygtfs/block.py:50-51 | a sorted list with a trip placed between those leaving no later and those leaving later is sorted |
| Blocks.SortByDepartureCorrect | assigner/pygtfs/block.py:50-51 | `tripList.sort()` orders the trips by first departure and is a permutation of the block's trips |
| Blocks.FirstTripEarliest | assigner/pygtfs/block.py:63-67 | `getFirstTrip` of a non-empty block is one of its trips and departs no later than any trip of the block |
| Blocks.LastTripLatest | assigner/pygtfs/block.py:70-74 | `getLastTrip` of a non-empty block is one of its trips and departs no earlier than any trip of the block |
| Blocks.SortedEnds | assigner/pygtfs/block.py:63-74 | the ends of a sorted rearrangement of the trips are trips of the block that leave first and last |
| Blocks.ScanWindows | assigner/pygtfs/block.py:53-60 | the loop returns only a trip `k` of the sorted list (not the last) whose window from its departure up to the next trip's holds the time |
| Blocks.ScanWindowsFinds | assigner/pygtfs/block.py:53-60 | on a sorted list, a time from some trip's departure up to the last departure always falls in a window, so the loop finds a trip |
| Blocks.TripForTimeCases | assigner/pygtfs/block.py:35-60 | before the first departure the first trip, from the last trip's departure on the last trip, and in between a trip whose departure window holds the time |
| Blocks.TripForTimeBetween | assigner/pygtfs/block.py:49-60 | between the first and the last departure the result is a trip of the sorted list whose window holds the time |
| Blocks.TripForTimeTotal | assigner/pygtfs/block.py:35-60 | for a non-empty block the final `return None` is never reached, and the answer is a trip of the block |
| Blocks.Block.constructor | assigner/pygtfs/block.py:9-15 | stores the block and service ids with an empty trip dictionary |
| Blocks.Block.AddTrip | assigner/pygtfs/block.py:30-32 | a trip whose id is already present leaves the dictionary unchanged; otherwise it is added after the others; ids stay unique |
| Blocks.SortByDeparture | assigner/pygtfs/block.py:50-51 | the sort keeps the number of trips (order and contents are stated by `Blocks.SortByDepartureCorrect`) |
| Shapes.CumulativePostsNonDecreasing | assigner/pygtfs/shape.py:26-36 | posts built the way `addPoint` builds them start at 0 and never decrease along the line, because distances are never negative |
| Shapes.Shape.constructor | assigner/pygtfs/shape.py:14-19 | stores the shape id and an empty point list |
| Shapes.Shape.AddPoint | assigner/pygtfs/shape.py:26-36 | appends exactly one point with the given lat, lon and sequence, posted at 0 for the first point and otherwise at the previous post plus the distance to the previous point; earlier points are unchanged and cumulative posts stay cumulative |
| Locations.StringField | assigner/pygtfs/location.py:34 | a JSON null reads as None and a JSON string as that string; any other kind is not read (see "## Left out") |
| Locations.IntField | assigner/pygtfs/location.py:35 | a JSON null reads as None and a JSON integer as that integer; any other kind is not read (see "## Left out") |
| Locations.NumberField | assigner/pygtfs/location.py:37-46 | a JSON null reads as None, a real as itself and an integer widened to a real; any other kind is not read (see "## Left out") |
| Locations.LocationFromJson | assigner/pygtfs/location.py:29-48 | reads a message exactly when `device_id` and `time` are present (KeyError otherwise) and every value present is of its field's kind; it copies the two required values, leaves the field of an absent optional key None, and copies each of latitude, longitude, speed, bearing and accuracy when its key is present |
| Locations.BareMessageHasNoPosition | assigner/pygtfs/location.py:29-48 | a message with only `device_id` and `time` reads as a fix without lat and lon |
| LocationBuckets.OrderedIncreasing | assigner/pygtfs/locationBucket.py:23-30 | in a bucket list every fix is strictly later than every fix before it |
| LocationBuckets.KeepSince | assigner/pygtfs/locationBucket.py:46-57 | the comprehension keeps at most the fixes it is given, all of them timestamped |
| LocationBuckets.KeepSinceMembers | assigner/pygtfs/locationBucket.py:46-57 | a fix is kept exactly when it is stored and its timestamp is at or after the cut-off (no upper bound) |
| LocationBuckets.KeepSinceOrdered | assigner/pygtfs/locationBucket.py:46-58 | the kept fixes are still strictly ordered by time, so the re-sort changes nothing, and all are at or after the cut-off |
| LocationBuckets.KeepSinceIdempotent | assigner/pygtfs/locationBucket.py:42-47 | clearing twice with the same cut-off keeps what clearing once keeps |
| LocationBuckets.SpanPositive | assigner/pygtfs/locationBucket.py:23-30 | two or more fixes of a bucket span a positive time |
| LocationBuckets.InsertByTsAdds | assigner/pygtfs/locationBucket.py:29-30 | the append-and-sort adds exactly the new fix to the bucket's multiset |
| LocationBuckets.InsertByTsOrdered | assigner/pygtfs/locationBucket.py:29-30 | placing a fix with a new timestamp after every earlier fix and before every later one keeps the list strictly ordered |
| LocationBuckets.TsInsertionPoint | assigner/pygtfs/locationBucket.py:29-30 | the place of an appended fix after the re-sort lies within the list |
| LocationBuckets.ScanIsTsInsertionPoint | assigner/pygtfs/locationBucket.py:29-30 | on an ordered list, the scan to the first fix not earlier than the new one ends at the re-sort's insertion point |
| LocationBuckets.LocationBucket.constructor | assigner/pygtfs/locationBucket.py:14-20 | stores the device id, an empty list and time 0 |
| LocationBuckets.LocationBucket.AddLocation | assigner/pygtfs/locationBucket.py:23-39 | returns False, with the list unchanged, exactly when the fix lacks a coordinate or its timestamp is already stored; otherwise returns None with the fix inserted at its time-order place, adding exactly that fix and keeping the list strictly ordered |
| LocationBuckets.LocationBucket.SetTime | assigner/predictor/tripDistances.py:279-280 | sets the bucket's clock and leaves its fixes alone |
| LocationBuckets.LocationBucket.GetRecent | assigner/pygtfs/locationBucket.py:50-59 | returns exactly the stored fixes at or after `time - ageMillis`, in strict time order, without changing the bucket |
| LocationBuckets.LocationBucket.ClearOld | assigner/pygtfs/locationBucket.py:42-47 | leaves exactly the fixes at or after `time - ageMillis`, still ordered, and keeps the clock |
| ProjectedLocations.EmptyProjectedLocationIsBlank | assigner/pygtfs/projectedLocation.py:39-48 | a fresh projected location has no post, perpendicular distance, trip or route, no device or timestamp and no position |
| ProjectedLocations.JsonFromProjLoc | assigner/pygtfs/projectedLocation.py:8-31 | `device_id` and `time` are always written; every other key is written exactly when its field is set; the post is written in metres |
| ProjectedLocations.JsonIgnoresPerpKm | assigner/pygtfs/projectedLocation.py:8-31 | the perpendicular distance never reaches the dictionary |
| ProjectedLocations.JsonRoundTrip | assigner/pygtfs/projectedLocation.py:8-31 | reading the written dictionary back with `createLocationFromJson` recovers exactly the inherited `Location` fields |
| GtfsData.BlockFromBlockId | assigner/pygtfs/gtfsData.py:180-185 | finds a block exactly when some block has that id, and what it finds is a stored block with that id |
| GtfsData.BlockHoldingTrip | assigner/pygtfs/gtfsData.py:189-202 | finds a block exactly when some block's dictionary holds the trip id, and that block holds it |
| GtfsData.TripFromTripId | assigner/pygtfs/gtfsData.py:188-193 | finds a trip exactly when some block holds the id; the trip found has that id and belongs to a block of the schedule |
| GtfsData.IndexOfTripId | assigner/pygtfs/gtfsData.py:206 | `list.index` under `Trip.__eq__`: -1 exactly when no trip has the id, else the first index with it |
| GtfsData.SortedHasTripId | assigner/pygtfs/gtfsData.py:204-206 | a trip id is in the sorted list exactly when it is in the block, so `index` finds it |
| GtfsData.NextTripInBlockFollows | assigner/pygtfs/gtfsData.py:196-213 | None when no block holds the trip; otherwise the trip is found in the sorted list of the first block holding it, None means it is last there, and a result is a trip of that block departing no earlier, different from the trip when ids are unique |
| GtfsData.UniqueIdsSorted | assigner/pygtfs/gtfsData.py:205 | sorting a block's trips does not repeat a trip id |
| GtfsData.InsertKeepsUniqueIds | assigner/pygtfs/gtfsData.py:205 | inserting a trip with a new id into the sort keeps ids unique |
| GtfsData.RowStopTime | assigner/pygtfs/gtfsData.py:133-145 | a row builds a stop time exactly when its stop is known and the trip's shape exists with at least two points; it then carries the trip id and the row's stop, sequence and times |
| GtfsData.AddRows | assigner/pygtfs/gtfsData.py:133-146 | adding the rows one by one succeeds exactly when every row builds, and a success from a non-empty start or with rows is non-empty |
| GtfsData.BuiltTrip | assigner/pygtfs/gtfsData.py:127-149 | a trip built for an id carries that id |
| GtfsData.BuiltTripSucceeds | assigner/pygtfs/gtfsData.py:127-149 | a trip builds exactly when the id is in both tables, its shape is known with at least two points, and every row's stop is known; otherwise the exception skips it |
| GtfsData.AddTripsMembers | assigner/pygtfs/gtfsData.py:125-149 | a trip id ends up in the block exactly when it was there before or is listed and builds, so one failing trip costs no other its place; ids stay unique |
| GtfsData.CreatedBlockTrips | assigner/pygtfs/gtfsData.py:113-153 | the created block holds exactly the listed trip ids whose trips build, each once |
| GtfsData.BuildTrip | assigner/pygtfs/gtfsData.py:127-148 | the loop over the rows with `Trip.addStopTime` yields exactly the trip `BuiltTrip` describes, or None when a lookup fails |
| GtfsData.CreateBlock | assigner/pygtfs/gtfsData.py:113-153 | the loop with `Block.addTrip` yields exactly the block `CreatedBlock` describes |
| GtfsData.RolledHour | assigner/pygtfs/gtfsData.py:414-417 | after the roll-over loop a non-negative hour lies in 0..23, and an hour of at most 23 is untouched |
| GtfsData.AddedDays | assigner/pygtfs/gtfsData.py:414-417 | the days moved into `addDays` and the remaining hour add back up to the hour given |
| GtfsData.TimestampForDateString | assigner/pygtfs/gtfsData.py:410-431 | the loop returns the local stamp of the date at the rolled hour plus the whole added days in milliseconds |
| GtfsData.DivModUnique | assigner/pygtfs/gtfsData.py:414-417 | the loop's day count and hour are the quotient and remainder of the hour by 24 |
| GtfsData.ServiceBoundsAtZeroHour | assigner/pygtfs/gtfsData.py:446-451 | at the 04:00 changeover no day rolls over, so a service runs exactly on its weekday flag strictly between the 04:00 stamps of its start and end dates |
| GtfsData.TodayBlocks | assigner/pygtfs/gtfsData.py:434-455 | succeeds exactly when every block's service is known (a KeyError otherwise) |
| GtfsData.TodayBlocksMembers | assigner/pygtfs/gtfsData.py:441-453 | a block is listed exactly when it is in the schedule and its service runs at the time |
| GtfsData.GetTodayBlocks | assigner/pygtfs/gtfsData.py:434-455 | the loop returns exactly `TodayBlocks`: the running blocks in block order, or the KeyError |
| GtfsData.GtfsTables.constructor | assigner/pygtfs/gtfsData.py:47-50 | all four tables start empty and well keyed |
| GtfsData.GtfsTables.AddBlock | assigner/pygtfs/gtfsData.py:156-158 | a block whose id is already present is ignored, otherwise appended; the other tables are untouched and ids stay unique |
| GtfsData.GtfsTables.AddStop | assigner/pygtfs/gtfsData.py:161-163 | the first stop stored under an id is kept; otherwise the stop is added; nothing else changes |
| GtfsData.GtfsTables.AddShape | assigner/pygtfs/gtfsData.py:166-168 | the first shape stored under an id is kept; otherwise the shape is added; nothing else changes |
| GtfsData.GtfsTables.AddService | assigner/pygtfs/gtfsData.py:171-173 | the first service stored under an id is kept; otherwise the service is added; nothing else changes |
| GtfsDbManager.MillisFromTimeString | assigner/pygtfs/gtfsDbManager.py:554-556 | a time is read only when it has exactly three `:`-separated fields |
| GtfsDbManager.MillisFromFields | assigner/pygtfs/gtfsDbManager.py:556 | the three fields give a time exactly when each reads as an integer, and then it is `1000 * (3600 H + 60 M + S)` |
| GtfsDbManager.MillisOfFields | assigner/pygtfs/gtfsDbManager.py:554-556 | a string whose three fields read as `H`, `M` and `S` gives `1000 * (3600 H + 60 M + S)` |
| Strings.ParseIntIgnoresSpace | assigner/pygtfs/gtfsDbManager.py:556 | `int()` reads a field the same with or without white space around it |
| Strings.ParseIntToString | assigner/pygtfs/gtfsDbManager.py:556 | `int()` reads a formatted integer back as that integer |
| GtfsDbManager.IntToStringNoColon | assigner/pygtfs/gtfsDbManager.py:554-556 | a formatted integer holds no `:`, so the fields of a formatted time split apart cleanly |
| GtfsDbManager.MillisOfTimeString | assigner/pygtfs/gtfsDbManager.py:554-556 | reading `H:M:S` gives `(S + 60 M + 3600 H) * 1000` for every hour, 24 and later included |
| GtfsDbManager.MillisNeedsThreeFields | assigner/pygtfs/gtfsDbManager.py:555 | a string with other than three fields is refused (the tuple unpacking raises) |
| GtfsDbManager.Merged | assigner/pygtfs/gtfsDbManager.py:252-282 | after the loop over at least one row the list has odd length and ends with a departure; with no row it is empty |
| GtfsDbManager.MergedShape | assigner/pygtfs/gtfsDbManager.py:252-282 | the list the loop builds alternates departure and arrival entries, and every arrival is followed by a departure at its stop |
| GtfsDbManager.MergedAlternates | assigner/pygtfs/gtfsDbManager.py:252-282 | entries at even positions are departures and at odd positions arrivals |
| GtfsDbManager.MergedPaired | assigner/pygtfs/gtfsDbManager.py:255-282 | every arrival entry is followed by a departure entry at the same stop, also when a continuing trip takes the departure over |
| GtfsDbManager.FirstRowDepartureOnly | assigner/pygtfs/gtfsDbManager.py:275-282 | the first row adds only its departure entry |
| GtfsDbManager.SchList | assigner/pygtfs/gtfsDbManager.py:228-288 | a list exactly when there is a row (with none, `schList[-1]` raises), of even length |
| GtfsDbManager.SchListShape | assigner/pygtfs/gtfsDbManager.py:228-288 | the returned list alternates departure and arrival, pairs each arrival with a departure at its stop, and ends with an arrival |
| GtfsDbManager.GetSchList | assigner/pygtfs/gtfsDbManager.py:236-288 | the loop that updates `schList[-1]` in place and appends entries returns exactly `SchList` |
| Projections.ClosestParam | assigner/pygtfs/gtfsData.py:364-378 | the parameter of the returned point always lies in [0, 1] |
| Projections.ClosestPointCases | assigner/pygtfs/gtfsData.py:364-378 | the start point on a zero-length segment or when the projection falls before it, the end point when it falls after, and otherwise the projection at its own parameter |
| Projections.ClosestPointOnTheSegment | assigner/pygtfs/gtfsData.py:364-378 | in every case the returned point lies on the segment, at the clamped parameter |
| Projections.InterpolatedBetween | assigner/pygtfs/gtfsData.py:281-283 | a post interpolated at a parameter in [0, 1] lies between the two end posts |
| Projections.FitLocalPostBetween | assigner/pygtfs/gtfsData.py:280-285 | the post fitted on a segment in local coordinates lies between its end posts, also on a zero-length segment |
| Projections.FitPostBetween | assigner/pygtfs/gtfsData.py:269-285 | the post fitted on any segment of a shape lies between the posts of the segment's end points |
| Projections.EarliestMin | assigner/pygtfs/gtfsData.py:277-279 | the index the running minimum keeps: its score is at most every score and strictly below every earlier one |
| Projections.EarliestMinUnique | assigner/pygtfs/gtfsData.py:277-279 | that index is the only one with both properties, so the loop and the function agree |
| Projections.Fits | assigner/pygtfs/gtfsData.py:269-276 | one fit per segment, fit `i` computed from points `i` and `i+1` |
| Projections.PerpScores | assigner/pygtfs/gtfsData.py:276-277 | the lateral distance of each fit, in segment order |
| Projections.TargetScores | assigner/pygtfs/gtfsData.py:327-338 | lateral distance plus post deviation divided by the kilometres per degree, for each fit in order |
| Projections.ProjectedToShape | assigner/pygtfs/gtfsData.py:251-298 | defined exactly for shapes with at least two points (no segment leaves `xmin` unbound and Python raises); the result carries a position, a post and a lateral distance |
| Projections.ProjectedToShapeWithTarget | assigner/pygtfs/gtfsData.py:301-361 | the same for the targeted projection |
| Projections.ProjectionChoosesEarliestNearest | assigner/pygtfs/gtfsData.py:269-298 | the chosen segment is a segment of the shape with the smallest lateral distance, every earlier segment is strictly farther (ties go to the earlier one), and the reported post lies between the chosen segment's end posts |
| Projections.TargetProjectionChoosesEarliestBest | assigner/pygtfs/gtfsData.py:318-361 | the targeted projection reports the post of a segment with the smallest combined score, every earlier segment scoring strictly more |
| Projections.ScanSegments | assigner/pygtfs/gtfsData.py:269-344 | the loop keeps the fit of a segment whose score is at most every segment's and strictly below every earlier segment's |
| Projections.ProjectToShape | assigner/pygtfs/gtfsData.py:251-298 | the method returns exactly `ProjectedToShape` |
| Projections.ProjectToShapeWithTarget | assigner/pygtfs/gtfsData.py:301-361 | the method returns exactly `ProjectedToShapeWithTarget` |
| AssignedTripModel.NewAssignment | assigner/predictor/assignedTrip.py:13-26 | a fresh assignment stores the trip, block, time and both stops given, with post and maximum both at the initial post |
| AssignedTripModel.WithPostKeepsInvariant | assigner/predictor/assignedTrip.py:32-35 | setting the post stores it, changes nothing but post and maximum, and keeps the post at or below the maximum |
| AssignedTripModel.WithPostCases | assigner/predictor/assignedTrip.py:32-43 | a post above the current one becomes the maximum and leaves no backtrack; any other post leaves the maximum alone |
| AssignedTripModel.MaximumFollowsCurrentPost | assigner/predictor/assignedTrip.py:32-35 | the maximum tracks rises over the current post, not the largest post ever set: setting 1, 0.5, 0.7 from 0 leaves maximum 0.7 and no backtrack |
| AssignedTripModel.BacktrackIsStrict | assigner/predictor/assignedTrip.py:42-43 | a fall of exactly 0.25 km below the maximum is not a backtrack, anything more is |
| AssignedTripModel.AssignedTrip.constructor | assigner/predictor/assignedTrip.py:13-26 | the new object holds exactly `NewAssignment` of its arguments and its post is at or below its maximum |
| AssignedTripModel.AssignedTrip.SetPost | assigner/predictor/assignedTrip.py:32-35 | the object's new state is the old one with the post set as `WithPost` describes, keeping the post at or below the maximum |
| AssignedTripsModel.Assigned | assigner/predictor/assignedTrips.py:282-289 | the device's entry becomes a fresh assignment of the trip and block at the start time and post, with the stops passed at that post; every other entry stays, and posts stay below their maxima |
| AssignedTripsModel.AssignedIfFree | assigner/predictor/assignedTrips.py:292-303 | the table is unchanged when some device, this one included, already runs a trip with that id, and the trip is assigned otherwise; either way the trip is then taken and no trip has two devices |
| AssignedTripsModel.Sequenced | assigner/predictor/assignedTrips.py:306-320 | at the end of the block the device's entry is removed; otherwise the next trip is offered at the device's last time and `initPost`, unchanged when another device holds it; no other entry changes and no device is added |
| AssignedTripsModel.SequencedKeepsExclusive | assigner/predictor/assignedTrips.py:306-320 | moving on to the next trip never gives a trip to two devices |
| AssignedTripsModel.SequencedKeepsBelowMax | assigner/predictor/assignedTrips.py:306-320 | moving on to the next trip keeps every post at or below its maximum |
| AssignedTripsModel.SendEvent | assigner/predictor/assignedTrips.py:118-159 | raises exactly when the trip has no stop time for the sequence, or when the fields are set but the stop is unknown; returns without an event exactly when a field is null; otherwise builds the event for that stop with the stop's position, the post in metres, and a delay that makes the fix's time the day start plus the scheduled arrival (type 0) or departure (type 1) plus the delay |
| AssignedTripsModel.PostTarget | assigner/predictor/assignedTrips.py:192-195 | the target given is used as is; without one, a newer fix aims strictly past the current post |
| AssignedTripsModel.Stepped | assigner/predictor/assignedTrips.py:213-250 | placing a fix keeps the trip and the placed location |
| AssignedTripsModel.SteppedProperties | assigner/predictor/assignedTrips.py:213-250 | the trip and block stay, time and post become the fix's; the arrived and departed stops never move back; the arrived stop becomes the larger of itself and the stop passed at the post plus the threshold, and the departed stop the larger of itself and the stop passed at the post minus the threshold unless the arrival raised; an arrival (departure) event is attempted exactly when the arrived (departed) stop grows, for the new stop; the step raised exactly when an attempt raised; the trip ends exactly on an unraised departure from its last stop |
| AssignedTripsModel.Advanced | assigner/predictor/assignedTrips.py:187-250 | nothing happens exactly when the fix has no position or the trip's shape is missing or has fewer than two points; otherwise the placed location has a post |
| AssignedTripsModel.Projection | assigner/predictor/assignedTrips.py:182-262 | without an assigned device and a newer fix nothing changes and None is returned; no device is added and every other device's entry is unchanged; a location is returned only when the device acted and nothing raised |
| AssignedTripsModel.NextTripStart | assigner/predictor/assignedTrips.py:250-251 | the next trip starts at minus the distance left to the end of the shape, so at or below 0 while the post is within the shape |
| AssignedTripsModel.Finish | assigner/predictor/assignedTrips.py:222-262 | a raised event returns no location and reports failure; otherwise the location is returned; only a departure from the last stop changes the table, and then only the device's own entry |
| AssignedTripsModel.ProjectionKeepsExclusive | assigner/predictor/assignedTrips.py:182-262 | a fix never gives a trip to two devices |
| AssignedTripsModel.AdvancedKeepsTrip | assigner/predictor/assignedTrips.py:187-250 | placing a fix keeps the assignment's trip and its post at or below its maximum |
| AssignedTripsModel.FinishKeeps | assigner/predictor/assignedTrips.py:245-262 | ending a fix, with or without moving on, keeps trips exclusive and posts below their maxima |
| AssignedTripsModel.ProjectionKeepsBelowMax | assigner/predictor/assignedTrips.py:182-262 | a fix keeps every post at or below its maximum |
| AssignedTripsModel.StepAssignment | assigner/predictor/assignedTrips.py:210-243 | the object's new state, the events attempted, and whether one raised or the trip ended are exactly `Stepped` of its old state |
| AssignedTripsModel.PlaceAndStep | assigner/predictor/assignedTrips.py:187-243 | the result is exactly `Advanced` of the object's old state, and the object holds the stepped assignment, or is unchanged when nothing happens |
| AssignedTripsModel.Cleared | assigner/predictor/assignedTrips.py:92-101 | the sweep keeps only unchanged entries of devices with a recent fix, their block among their candidates and no backtrack, and keeps trips exclusive and posts below maxima |
| AssignedTripsModel.RemovingBadIsCleared | assigner/predictor/assignedTrips.py:92-101 | removing exactly the bad devices gives the sweep |
| AssignedTripsModel.GetOldAssignedDeviceList | assigner/predictor/assignedTrips.py:38-47 | a device is listed exactly when it is assigned and has no fix in the last ten minutes |
| AssignedTripsModel.GetInaccurateAssignedDeviceList | assigner/predictor/assignedTrips.py:50-62 | a device is listed exactly when it is assigned and no candidate has its block |
| AssignedTripsModel.GetBacktrackingDeviceList | assigner/predictor/assignedTrips.py:82-89 | a device is listed exactly when it is assigned and has backtracked |
| AssignedTripsModel.RecentMap | assigner/predictor/assignedTrips.py:40-42 | for each device asked about, what its bucket returns for the last ten minutes |
| AssignedTripsModel.TableUntouched | assigner/predictor/assignedTrips.py:92-115 | a step that leaves the table and every assignment object alone leaves the table's value and invariant alone |
| AssignedTripsModel.RecentMapUnchanged | assigner/predictor/assignedTrips.py:40-56 | the recent fixes and candidate keys read by the sweep depend only on the buckets and candidates |
| AssignedTripsModel.PopAll | assigner/predictor/assignedTrips.py:100-101 | popping every key of a set, absent ones included, removes exactly those keys |
| AssignedTripsModel.BadDevices | assigner/predictor/assignedTrips.py:92-98 | removing the union of the three lists from the table is exactly the sweep |
| AssignedTripsModel.HasTripIdAppend | assigner/predictor/assignedTrips.py:166-171 | appending a trip adds exactly its id to the ids listed |
| AssignedTripsModel.HasBlockIdAppend | assigner/predictor/assignedTrips.py:174-179 | appending a block adds exactly its id to the ids listed |
| AssignedTripsModel.GetAssignedTrips | assigner/predictor/assignedTrips.py:166-171 | one trip per device, and a trip id is listed exactly when some device runs it |
| AssignedTripsModel.GetAssignedBlocks | assigner/predictor/assignedTrips.py:174-179 | one block per device, and a block id is listed exactly when some device runs it |
| AssignedTripsModel.AssignedTrips.Snapshot | assigner/predictor/assignedTrips.py:31 | the table's value has exactly the assigned devices as keys |
| AssignedTripsModel.AssignedTrips.SnapshotAfterStep | assigner/predictor/assignedTrips.py:210-243 | changing one device's object in place changes only that device's entry of the table's value |
| AssignedTripsModel.AssignedTrips.SnapshotAfterInsert | assigner/predictor/assignedTrips.py:285-289 | filing a new object under a device sets only that device's entry |
| AssignedTripsModel.AssignedTrips.SnapshotAfterRemoval | assigner/predictor/assignedTrips.py:100-101 | dropping devices from the table drops exactly their entries |
| AssignedTripsModel.AssignedTrips.constructor | assigner/predictor/assignedTrips.py:22-31 | the table starts empty |
| AssignedTripsModel.AssignedTrips.AssignTrip | assigner/predictor/assignedTrips.py:282-289 | the table's new value is exactly `Assigned` of the old one |
| AssignedTripsModel.AssignedTrips.AssignUnassignedTripToDevice | assigner/predictor/assignedTrips.py:292-303 | the table's new value is exactly `AssignedIfFree` of the old one |
| AssignedTripsModel.AssignedTrips.SequenceNextTrip | assigner/predictor/assignedTrips.py:306-320 | returns True exactly when the block has a next trip, and the table's new value is exactly `Sequenced` of the old one |
| AssignedTripsModel.AssignedTrips.ProjectLocation | assigner/predictor/assignedTrips.py:182-262 | the table's new value, the returned location, the events and the success flag are exactly `Projection` of the old table |
| AssignedTripsModel.AssignedTrips.FinishProjection | assigner/predictor/assignedTrips.py:222-262 | the table's new value and the results are exactly `Finish` of the old table |
| AssignedTripsModel.AssignedTrips.ClearBadAssignedTrips | assigner/predictor/assignedTrips.py:92-101 | the table's new value is exactly `Cleared` of the old one, with each device's last ten minutes of fixes and its candidates |
| AssignedTripsModel.AssignedTrips.RemoveDevices | assigner/predictor/assignedTrips.py:100-101 | the table loses exactly the given devices |
| AssignedTripsModel.AssignedTrips.NewRawLocation | assigner/predictor/assignedTrips.py:104-115 | the events and the success flag are those of `Projection`; when it did not raise, the table's new value is the sweep of the projected table; when it raised the sweep does not run |
| TripDistancesModel.InterpolationBetweenStops | assigner/predictor/tripDistances.py:241-248 | strictly between a stop's departure and the next stop's arrival, the interpolated post lies between the two stops' posts |
| TripDistancesModel.ScanPost | assigner/predictor/tripDistances.py:232-260 | the scan over the stop times ends without a post only when the block has no next trip, and it raises (zero-length gap or unknown shape past the last stop) only when there is one |
| TripDistancesModel.ScanPostExplained | assigner/predictor/tripDistances.py:232-260 | every post the scan returns comes from one stop time at or after the start: waiting at it, strictly between it and the next, or past the last stop towards the next trip |
| TripDistancesModel.PostmileAtTime | assigner/predictor/tripDistances.py:223-260 | `getPostmileAtTime` gives no post only when the trip has no next trip in its block, and raises only when it has one |
| TripDistancesModel.PostmileExplained | assigner/predictor/tripDistances.py:227-260 | every post `getPostmileAtTime` returns is explained by one stop time of the trip at the time relative to the day start |
| TripDistancesModel.PostmileAtFirstStop | assigner/predictor/tripDistances.py:232-237 | at a time inside the first stop's arrival/departure window the post is the first stop's post |
| TripDistancesModel.TimeDeviation | assigner/predictor/tripDistances.py:106-127 | inside the trip: post at the fix, no time penalty; at or before the first departure: post at the first departure, penalty the wait; at or after the last arrival: no penalty with a next trip, else post at the last arrival and penalty the time since; never negative |
| TripDistancesModel.HalfCircle | assigner/predictor/tripDistances.py:136-142 | the gap is kept or replaced by the shape length minus it; a gap within the shape's length ends up at most half of it |
| TripDistancesModel.FixForTrip | assigner/predictor/tripDistances.py:101-149 | a fix is fitted only when the trip's shape is known and has a segment |
| TripDistancesModel.FixTerm | assigner/predictor/tripDistances.py:101-104 | a fix is fitted only against a block with trips and only when it has a timestamp and a position |
| TripDistancesModel.FixTerms | assigner/predictor/tripDistances.py:101-149 | the loop over the fixes yields one fit per fix |
| TripDistancesModel.FixTermsAllOrNothing | assigner/predictor/tripDistances.py:101-149 | the loop yields fits exactly when every fix can be fitted, and then the i-th fit is that of the i-th fix |
| TripDistancesModel.Dists | assigner/predictor/tripDistances.py:147-148 | the distance series holds each fit's distance, in fix order |
| TripDistancesModel.Times | assigner/predictor/tripDistances.py:149 | the time series holds each fit's time, in fix order |
| TripDistancesModel.SeriesScore | assigner/predictor/tripDistances.py:90-93 | one fix or none gives the four-hour no-data score with post 0 |
| TripDistancesModel.BlockScore | assigner/predictor/tripDistances.py:84-93 | `avgMillisFromBlock`: one fix or none gives the four-hour no-data score with post 0 |
| TripDistancesModel.BlockScoreCases | assigner/predictor/tripDistances.py:101-178 | with two fixes or more a block is scored exactly when every fix can be fitted, and the post returned is the projected post of the last fix |
| TripDistancesModel.BelowCutoff | assigner/predictor/tripDistances.py:70-77 | the filter keeps no more blocks than it is given |
| TripDistancesModel.BelowCutoffExactly | assigner/predictor/tripDistances.py:70-77 | every candidate is a given block with its score, strictly below 40 minutes, and every block scoring below 40 minutes is a candidate |
| TripDistancesModel.NothingBelowCutoff | assigner/predictor/tripDistances.py:70 | when every score is at least 40 minutes there is no candidate |
| TripDistancesModel.CandidatesWith | assigner/predictor/tripDistances.py:62-77 | the loop over the blocks keeps no more candidates than blocks |
| TripDistancesModel.Candidates | assigner/predictor/tripDistances.py:62-77 | the loop over today's blocks keeps no more candidates than blocks |
| TripDistancesModel.CandidatesAllOrNothing | assigner/predictor/tripDistances.py:62-63 | the candidates are computed exactly when every block can be scored |
| TripDistancesModel.CandidatesExactly | assigner/predictor/tripDistances.py:62-77 | the candidates are exactly today's blocks scoring strictly below 40 minutes, each with its score, the last fix's post and the confidence of its score |
| TripDistancesModel.FewFixesNoCandidates | assigner/predictor/tripDistances.py:90-93 | a device with fewer than two recent fixes has no candidate block |
| TripDistancesModel.CandidatesAt | assigner/predictor/tripDistances.py:58-79 | candidates are found only when every service of the schedule is known |
| TripDistancesModel.BestTripCases | assigner/predictor/tripDistances.py:284-329 | the best trip is a trip of the block, the one the block runs at the last fix's time; there is one exactly when the block has trips, a recent fix exists and that trip's distance can be computed |
| TripDistancesModel.ScoreSeries | assigner/predictor/tripDistances.py:95-178 | the loop over the fixes computes the series score of the fixes |
| TripDistancesModel.TripDistances.constructor | assigner/predictor/tripDistances.py:21-43 | no buckets, no candidates, clock and day start 0, and the invariant holds |
| TripDistancesModel.TripDistances.AddLocation | assigner/predictor/tripDistances.py:46-50 | a new device gets an empty bucket with clock 0 appended to the device order; the fix goes into the device's bucket as the bucket places it; every other bucket, the candidates and the clocks stay; the invariant is kept |
| TripDistancesModel.TripDistances.BucketFor | assigner/predictor/tripDistances.py:47-48 | the device's bucket, a fresh empty one with clock 0 when the device is new, not shared with any other device; nothing else changes |
| TripDistancesModel.TripDistances.UpdateTime | assigner/predictor/tripDistances.py:274-281 | the clock is set, the day start becomes the larger of the old one and the time's day start, every bucket's clock is set and no fix changes |
| TripDistancesModel.TripDistances.SetBucketClocks | assigner/predictor/tripDistances.py:280-281 | every bucket's clock is set to the time and no fix changes |
| TripDistancesModel.TripDistances.AvgMillisFromBlock | assigner/predictor/tripDistances.py:84-178 | the score is the block score of the device's fixes of the last ten minutes |
| TripDistancesModel.TripDistances.CheckBucketAgainstAllBlocks | assigner/predictor/tripDistances.py:58-79 | it succeeds exactly when the candidates can be computed; then they replace the device's entry, and otherwise nothing is stored |
| TripDistancesModel.TripDistances.RecentOf | assigner/predictor/tripDistances.py:85 | for each device, its fixes of the last ten minutes |
| TripDistancesModel.TripDistances.CheckAllBucketsBlind | assigner/predictor/tripDistances.py:53-55 | the devices are scored in order and their candidates stored, stopping at the first that raises; no entry is removed; on success every device has candidates; no fix changes |
| TripDistancesModel.TripDistances.GetBestTrip | assigner/predictor/tripDistances.py:284-329 | the best trip of the block for the device's fixes of the last ten minutes |
| TripDistancesModel.StoreInOrderCases | assigner/predictor/tripDistances.py:53-55 | storing succeeds exactly when every device's candidates can be computed; then exactly those devices are added, each with its own candidates, and other entries stay |
| TripDistancesModel.StoreInOrderKeys | assigner/predictor/tripDistances.py:53-55 | storing removes no entry and adds none but the given devices |
| TripDistancesModel.StoreCandidates | assigner/predictor/tripDistances.py:54-55 | the loop stores the candidates in device order as the in-order store does; no entry is removed, none but the devices is added, and on success every device is stored |
| TripDistancesModel.CandidatesToday | assigner/predictor/tripDistances.py:58-79 | the loop gives the candidates of the fixes among today's blocks |
| TripDistancesModel.FilterBlocks | assigner/predictor/tripDistances.py:62-77 | the loop keeps, in block order, the blocks scoring below the cutoff, or fails when a score fails |
| TripDistancesModel.PickBestTrip | assigner/predictor/tripDistances.py:288-329 | the loop picks the best trip of the block |
| TripDistancesModel.ScoreTrips | assigner/predictor/tripDistances.py:299-324 | each pass scores the same trip, the one the block runs at the last fix's time, with one distance per pass; it fails exactly when there is a pass and that trip or its distance cannot be had |
| TripDistancesModel.OneBucketChanged | assigner/predictor/tripDistances.py:46-50 | a step that changes only one device's bucket, keeping it consistent, keeps the scorer's invariant and every other bucket |
| TripDistancesModel.ScorerUntouched | assigner/predictor/tripDistances.py:58-79 | a step that leaves the scorer and its buckets alone keeps the invariant and every device's recent fixes |
| TripDistancesModel.RecentsUntouched | assigner/predictor/tripDistances.py:53-55 | storing candidates leaves every device's recent fixes as they were |
| TripClassifierModel.ProbsForFirst | assigner/predictor/tripClassifier.py:51-53 | the probs a device has for a block are non-empty exactly when one of its candidates has the block, and start with the first such candidate's prob |
| TripClassifierModel.MaxOtherProbIsMax | assigner/predictor/tripClassifier.py:43-57 | the result is never negative, at least the first prob for the block of every other unassigned device, and either 0 or one of those probs |
| TripClassifierModel.GetMaxOtherProb | assigner/predictor/tripClassifier.py:43-57 | the loop over the devices computes the largest other prob for the block |
| TripClassifierModel.InsertByScoreElements | assigner/predictor/tripClassifier.py:61-62 | inserting a candidate adds exactly that candidate |
| TripClassifierModel.InsertByScoreSorted | assigner/predictor/tripClassifier.py:61-62 | inserting a candidate into a list sorted by score keeps it sorted |
| TripClassifierModel.HeadBeforeInserted | assigner/predictor/tripClassifier.py:61-62 | a head scoring below the inserted candidate stays first in sorted order |
| TripClassifierModel.SortByScoreProperties | assigner/predictor/tripClassifier.py:61-62 | the possibilities are the device's candidates, reordered and sorted by score |
| TripClassifierModel.SortByScoreFirst | assigner/predictor/tripClassifier.py:61-62 | the sort is stable: the first possibility is the earliest candidate with the smallest score |
| TripClassifierModel.EarliestLeastCons | assigner/predictor/tripClassifier.py:61-62 | putting a candidate in front makes it the earliest least when it scores no more, else the old one moves up by one |
| TripClassifierModel.LastUntakenProbIsLast | assigner/predictor/tripClassifier.py:84-89 | `prob1` is 0 when every runner-up's block is held, else the prob of the last runner-up whose block is free |
| TripClassifierModel.LastUntakenProbIsNotTheBest | assigner/predictor/tripClassifier.py:85-89 | free runner-ups with probs 0.6 then 0.1 give `prob1` = 0.1, the later and not the larger |
| TripClassifierModel.ObviousBlockIsBest | assigner/predictor/tripClassifier.py:60-101 | no candidate means no choice; a chosen block is that of the earliest candidate with the smallest score, with its own post |
| TripClassifierModel.ObviousBlockBeatsOthers | assigner/predictor/tripClassifier.py:67-95 | a chosen block's prob exceeds by more than 0.25 every other unassigned device's prob for it and, with several candidates, the last free runner-up's prob |
| TripClassifierModel.ChooseObviousBlock | assigner/predictor/tripClassifier.py:60-101 | the method gives the obvious block of the device |
| TripClassifierModel.PassUnfold | assigner/predictor/tripClassifier.py:132-159 | the pass from one device on is that device's step, then the pass from the next |
| TripClassifierModel.PassStepEffect | assigner/predictor/tripClassifier.py:133-159 | one step keeps every assignment and adds at most the device itself, with its best-scoring candidate's block and post, at the classifier's time |
| TripClassifierModel.PassKeepsAssigned | assigner/predictor/tripClassifier.py:132-141 | the pass keeps every earlier assignment and assigns only devices it goes over |
| TripClassifierModel.PassKeepsExclusive | assigner/predictor/tripClassifier.py:150-159 | no trip ends up assigned to two devices |
| TripClassifierModel.PassAssignsObvious | assigner/predictor/tripClassifier.py:150-159 | each device the pass assigns gets its best-scoring candidate's block and post, at the classifier's time |
| TripClassifierModel.AssignStep | assigner/predictor/tripClassifier.py:133-159 | the table becomes the step's result, or stays when the step raises |
| TripClassifierModel.AssignPass | assigner/predictor/tripClassifier.py:132-159 | the loop over the devices gives the pass's table and outcome, and assigns only scored devices |
| TripClassifierModel.TripClassifier.constructor | assigner/predictor/tripClassifier.py:17-31 | a fresh scorer and assignment table, both empty, and time 0 |
| TripClassifierModel.TripClassifier.NewRawLocation | assigner/predictor/tripClassifier.py:34-37 | the fix goes to the scorer (its device gains a bucket), then the table places it and, unless placing raised, clears bad devices against the new buckets; `ok` tells whether placing raised; the candidates and the clocks stay |
| TripClassifierModel.TripClassifier.UpdateTime | assigner/predictor/tripClassifier.py:162-164 | the classifier's time and the scorer's clock and day start are set; devices, candidates and assignments stay |
| TripClassifierModel.TripClassifier.ScoreBuckets | assigner/predictor/tripClassifier.py:129 | every device is scored in order as the in-order store says; on success every device has candidates; no fix or assignment changes |
| TripClassifierModel.TripClassifier.RunPass | assigner/predictor/tripClassifier.py:132-159 | the table becomes the pass over the devices with the stored candidates and the recent fixes |
| TripClassifierModel.TripClassifier.CheckAllUnassignedForObviousBlocks | assigner/predictor/tripClassifier.py:127-159 | scoring first, then, when it did not raise, the pass over every device; a raise leaves the table alone |
| TripClassifierModel.ClassifierUntouched | assigner/predictor/tripClassifier.py:127-159 | a step touching none of the classifier's objects leaves its invariant and table alone |
| PredictorModel.Ticked | assigner/predictor/predictor.py:73-80 | the clock becomes the larger of the old time and the new one; the pass is due exactly when the clock is more than a minute past the last pass, which then moves to the clock |
| PredictorModel.TickedKeepsOrder | assigner/predictor/predictor.py:73-80 | a tick keeps the last pass at or before the clock, and leaves it at most a minute behind |
| PredictorModel.RunClockIsLatest | assigner/predictor/predictor.py:74 | over any run of times the clock never moves back: it ends at least at the start and at every time fed, and is one of them |
| PredictorModel.RunPassesAreSpaced | assigner/predictor/predictor.py:77-81 | passes come more than a minute apart, the first more than a minute after the last one before the run, and the clock's last pass is the last of them |
| PredictorModel.RunKeepsPassRecent | assigner/predictor/predictor.py:77-80 | after at least one time the last pass is at most a minute behind the clock |
| PredictorModel.Predictor.constructor | assigner/predictor/predictor.py:50-58 | a fresh, empty classifier over the schedule; clock, last pass and counter at 0 |
| PredictorModel.Predictor.AdvanceClock | assigner/predictor/predictor.py:74-75 | the clock moves as a tick says and the classifier follows it; devices, candidates and assignments stay |
| PredictorModel.Predictor.PassNow | assigner/predictor/predictor.py:80-81 | the last pass moves to the clock and the classifier's pass runs |
| PredictorModel.Predictor.MarkPass | assigner/predictor/predictor.py:80 | the last pass moves to the clock and no assignment changes |
| PredictorModel.Predictor.RunIfDue | assigner/predictor/predictor.py:77-81 | the pass runs exactly when the clock is more than a minute past the last one; otherwise candidates and assignments stay |
| PredictorModel.Predictor.UpdateTime | assigner/predictor/predictor.py:73-81 | clock and last pass move as a tick says, the classifier's pass runs exactly when the tick makes it due, and otherwise candidates and assignments stay |
| PredictorModel.Predictor.CountFix | assigner/predictor/predictor.py:62 | the counter goes up by one |
| PredictorModel.Predictor.Forward | assigner/predictor/predictor.py:66 | the fix goes to the classifier: its device gains a bucket, and the table is placed and swept as the classifier's `newRawLocation` says, `ok` telling whether it raised; counter, clock and candidates stay |
| PredictorModel.Predictor.NewRawLocation | assigner/predictor/predictor.py:61-70 | the fix is counted and its device gains a bucket; when the classifier raised, the call ends there with the clock unmoved, no pass and the table as placing left it; otherwise the clock moves as a tick to the fix's timestamp says, and without a pass the candidates stay |
| PredictorModel.Predictor.Receive | assigner/predictor/predictor.py:62-66 | the fix is counted and handed to the classifier, with the table placed and swept as `Forward` says; the clock and the candidates stay |
| PredictorModel.PredictorFieldsKept | assigner/predictor/predictor.py:61-81 | a step that leaves the predictor object alone leaves its clock and counter alone |
| Dtw.Cost | BusTripper/dtw.py:10-13 | the cost of a pair is never negative and is 0 exactly when the two values are equal |
| Dtw.CostSymmetric | BusTripper/dtw.py:10-13 | the cost does not depend on the order of the two values |
| Dtw.Cells | BusTripper/dtw.py:26-30 | filling a row up to column `j` gives `j + 1` entries |
| Dtw.Row | BusTripper/dtw.py:19-30 | every row of the table has one entry more than the second series |
| Dtw.CellsPrefix | BusTripper/dtw.py:26-30 | filling further to the right leaves the entries already filled alone |
| Dtw.TableBorders | BusTripper/dtw.py:21-23 | the corner is 0 and the rest of the first row and the first column is `inf` |
| Dtw.MinIsLeast | BusTripper/dtw.py:28-30 | the smaller of two entries is one of them, is `inf` only when both are, and is at most each finite one |
| Dtw.MinCommutes | BusTripper/dtw.py:28-30 | the smaller of two entries does not depend on their order |
| Dtw.TableStep | BusTripper/dtw.py:27-30 | each entry inside the borders is its pair's cost plus the cheapest of the entries above, to the left and above-left |
| Dtw.TableNotNegative | BusTripper/dtw.py:19-30 | no finite entry is negative |
| Dtw.TableFiniteInside | BusTripper/dtw.py:19-30 | the corner and every entry off the borders are finite |
| Dtw.TableSymmetric | BusTripper/dtw.py:19-30 | swapping the two series transposes the table |
| Dtw.DistanceProperties | BusTripper/dtw.py:15-31 | the distance is 0 for two empty series, `inf` when exactly one is empty, finite and not negative otherwise, and the same in either order |
| Dtw.TableSelfDiagonal | BusTripper/dtw.py:19-30 | along the diagonal of a series against itself every entry is 0 |
| Dtw.DistanceToSelf | BusTripper/dtw.py:15-31 | a series is at distance 0 from itself |
| Dtw.DTWDistance | BusTripper/dtw.py:15-31 | the array-filling loops return the last table entry, the distance of the two series |
| Dtw.FillRow | BusTripper/dtw.py:26-30 | the inner loop sets row `ii` to its table row, leaving the rows above and the first column below as they were |
| KeysIo.ParseLineMeaning | BusTripper/io.py:13-14 | a line gives an entry exactly when its right-stripped text has an `=`; key and value are then free of `=`, and the text is `key=value` or starts with `key=value=` |
| KeysIo.InsertCases | BusTripper/io.py:12-14 | whether a line raises does not depend on the lines before it; otherwise the line adds its entry, or nothing when it is a skipped comment |
| KeysIo.KeysFailIff | BusTripper/io.py:8-16 | reading fails exactly when some line raises |
| KeysIo.Entries | BusTripper/io.py:11-14 | one entry per line, in order, each the entry of its line |
| KeysIo.KeysContents | BusTripper/io.py:8-16 | when reading succeeds the keys are exactly those of the entry lines, each holding the value of the last line that carries it |
| KeysIo.HoldsStep | BusTripper/io.py:14 | storing one more entry keeps the dictionary holding exactly the entries' keys with their last values |
| KeysIo.ExtraPiecesDropped | BusTripper/io.py:13-14 | `k=v=w` reads as key `k` with value `v` |
| KeysIo.LaterLineWins | BusTripper/io.py:14 | two lines with the same key leave the later line's value |
| KeysIo.OneEntry | BusTripper/io.py:13 | a line `k=v` with its line break gives key `k` and value `v` |
| KeysIo.BlankLineRaises | BusTripper/io.py:13-14 | a blank line raises, with or without comment skipping |
| KeysIo.CommentLine | BusTripper/io.py:12 | a `#` line is skipped when comments are skipped, and read as an ordinary entry whose key starts with `#` when they are not |
| KeysIo.ReadKeys | BusTripper/io.py:1-16 | the loop gives the dictionary read from the lines with comments skipped, or nothing when a line raises |
| KeysIo.KeysFailStays | BusTripper/copyRemoteDB.py:13-21 | once a prefix of the lines raises, reading the whole file raises |
| ExampleLogin.ReadLogin | example.py:4-16 | the loop gives the dictionary read from the lines with no comment skipping, or nothing when a line raises |
| ExampleLogin.SameWithoutComments | example.py:10-14 | a file with no comment lines and no empty lines reads the same with `readLogin` as with `readKeys` |
| CopyRemoteDb.LimStrReadsBack | BusTripper/copyRemoteDB.py:32-35 | no limit gives the empty clause; a limit gives ` LIMIT ` followed by digits that parse back to the limit |
| CopyRemoteDb.ColStrReadsBack | BusTripper/copyRemoteDB.py:41 | the column list is parenthesised around the comma-joined names, and comma-free names split back out of it |
| CopyRemoteDb.Repeat | BusTripper/copyRemoteDB.py:42 | `s * n` is `n` times as long as `s` |
| CopyRemoteDb.DropLast | BusTripper/copyRemoteDB.py:42 | `s[:-1]` of the empty string is empty, and otherwise `s` is it plus its last character |
| CopyRemoteDb.Placeholders | BusTripper/copyRemoteDB.py:42 | one `?` per column |
| CopyRemoteDb.ValStrIsPlaceholders | BusTripper/copyRemoteDB.py:41-42 | the value list is the column list of one `?` per column |
| CopyRemoteDb.PlaceholdersJoined | BusTripper/copyRemoteDB.py:42 | `('?,' * n)[:-1]` is `n` question marks joined by commas |
| CopyRemoteDb.ValStrReadsBack | BusTripper/copyRemoteDB.py:42 | with no column the value list is `()`; otherwise it splits back into exactly one `?` per column |
| CopyRemoteDb.InsertStatementShape | BusTripper/copyRemoteDB.py:43-44 | the insert is `INSERT INTO `, the table, its column list, ` VALUES ` and one placeholder per column, in that order |
| CopyRemoteDb.CopyRemoteRows | BusTripper/copyRemoteDB.py:23-44 | for `event_subset` then `raw_loc_subset`, the select with the limit clause and the insert built from the columns the remote cursor reports |

## Left out

- **Data sources.** All SQL and sqlite reading is left out. The modelled parts take the rows or
  columns the source reads as parameters: `getSchList` gets its cursor as a sequence of rows, and
  `copyRemoteRows` gets the remote column names. The psycopg2 and sqlite connections, pickling and
  the command-line scripts are left out, because they are I/O.
- **File reading.** The readers take a file's lines as a sequence. Each line keeps its line break, as
  Python's file iterator yields it. Opening the file is I/O.
- **Numerics.** Floating-point geodesy, `math.sqrt`/`cos`, numpy, scipy's Simpson integration and
  pytz are uninterpreted. The facts used about them are stated in `Util.Env`. Real arithmetic is exact
  here, so rounding is not modelled.
- **DTW.** `DTWCost` is `sqrt(d*d)`, which for exact reals is `|d|`; that is what the model uses.
  `RDTW` calls R and is left out.
- **External libraries and side effects.** The shapely projection (an external library) is left out.
  So are logging, debug `print`s, `pprint`, the `json.dumps` strings that are discarded, and the
  message counter's `count % 1000` log line. None of them affect state.
- **Code that cannot run as written.**
  - `getAccuracy` is left out: it calls an undefined name.
  - The manual-block path of `checkAllUnassignedForObviousBlocks` and `chooseObviousTripManualBlock`
    are left out. They read `candidateTrips`, which is never filled, and pass too few arguments.
    The model never has manual blocks.
- **Unused code.** `getLocAtTime` and `getLastLocation` are unused, and are not part of this model.
- **Shape and stop lookups.** `getShapeFromShapeId` and `getStopFromStopId` are map lookups. A missing
  key is the `None` (raising) case.
- **Fields.** The raw fix's `spd` field is modelled as the `Location` field `speed`, which
  `projectLocation` reads.
- **Dictionary order.** Python's iteration order over a dictionary is modelled as insertion order,
  for blocks, the trips of a block, location buckets and the assignment table. The assignment
  table's set-valued list builders iterate over its keys as a set.
- **Collaborators passed in.** The scorer that `AssignedTrips` shares with `TripClassifier` is passed
  to the methods that read it. The sweep's recent fixes are passed as a map taken from it
  (`AssignedTripsModel.RecentMap`).
- **`getStopSequencesForPost`.** Its two loops, one per threshold, are the two calls of
  `Trips.ScanBelow`.
- **Projection fraction.** The projected fraction of a segment is the clamped parameter `t`.
- **Split methods.** Class methods whose source body is long are split into sub-methods, each with
  its own contract. Examples are `TripDistances.CheckAllBucketsBlind` and `AssignedTrips.ProjectLocation`.
- **Fixes without a device or timestamp.**
  - `TripDistancesModel.TripDistances.AddLocation` requires a fix with a device id and a timestamp.
  - So do `TripClassifierModel.TripClassifier.NewRawLocation` and
    `PredictorModel.Predictor.NewRawLocation`.
  - Python would key a bucket under `None` for such a fix. The assigner is only ever fed fixes that
    have both.
- `PredictorModel.Predictor.NewRawLocation`: states the counter, the clock, the pass decision, the
  device's new bucket and the raise of the classifier step. When that step did not raise, it does
  not restate the assignment table after the step and the pass. The table after the step is stated
  by `PredictorModel.Predictor.Receive`, and the pass from there by `PredictorModel.Predictor.UpdateTime`.
- `Locations.StringField`, `Locations.IntField` and `Locations.NumberField`: Python copies whatever
  value the decoded message holds, while the model's `Location` fields are typed. A value of another
  kind (a numeric `device_id`, a string `time`, a boolean latitude) makes the message unreadable
  (`None`) instead of being copied; code that later uses such a value is not modelled.
- `GtfsDbManager.MillisFromTimeString`: `Strings.ParseInt` skips white space around a field, as
  `int()` does, and then reads an optional sign and ASCII digits only. The non-ASCII decimal digits
  that `int()` accepts in a unicode string are read as the `ValueError` case.
