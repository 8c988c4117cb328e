/**
 * `Predictor`: the front door of the assigner. It counts the fixes it
 * receives, hands each to the trip classifier, keeps a clock that never
 * moves back, and runs the classifier's assignment pass when the clock has
 * moved more than a minute past the last pass.
 */
module PredictorModel {
  import opened Wrappers
  import opened Util
  import opened Locations
  import opened GtfsData
  import opened TripDistancesModel
  import opened AssignedTripsModel
  import opened TripClassifierModel

  /** `assignDt`: the least gap between two assignment passes, in milliseconds (60 s). */
  const AssignDt: int := 60 * 1000

  /** The predictor's clock: the latest time heard and the time of the last assignment pass. */
  datatype Clock = Clock(time: int, prevAssignment: int)

  /**
   * `updateTime` on the clock: the time becomes the larger of the old time
   * and the new one; the pass is due when the time is strictly more than
   * `AssignDt` past the last pass, and a pass that runs moves the last
   * pass to the time. The flag says whether the pass ran.
   */
  function Ticked(c: Clock, newTime: int): (r: (Clock, bool))
    ensures r.0.time >= c.time && r.0.time >= newTime && (r.0.time == c.time || r.0.time == newTime)
    ensures r.1 <==> r.0.time - c.prevAssignment > AssignDt
    ensures r.0.prevAssignment == if r.1 then r.0.time else c.prevAssignment
  {
    var t := if newTime > c.time then newTime else c.time;
    if t - c.prevAssignment > AssignDt then (Clock(t, t), true) else (Clock(t, c.prevAssignment), false)
  }

  /** A tick keeps the last pass at or before the time, and after it the last pass is at most a minute old. */
  lemma TickedKeepsOrder(c: Clock, newTime: int)
    requires c.prevAssignment <= c.time
    ensures Ticked(c, newTime).0.prevAssignment <= Ticked(c, newTime).0.time
    ensures 0 <= Ticked(c, newTime).0.time - Ticked(c, newTime).0.prevAssignment <= AssignDt
  {
  }

  /** Feeding the times `ts` one after the other: the final clock and the times at which a pass ran. */
  function Run(c: Clock, ts: seq<int>): (Clock, seq<int>)
    decreases |ts|
  {
    if |ts| == 0 then (c, [])
    else
      var step := Ticked(c, ts[0]);
      var rest := Run(step.0, ts[1..]);
      (rest.0, (if step.1 then [step.0.time] else []) + rest.1)
  }

  /**
   * The clock never moves back: after a run it is at least the starting
   * time and every time fed, and it is one of them.
   */
  lemma {:induction false} RunClockIsLatest(c: Clock, ts: seq<int>)
    ensures Run(c, ts).0.time >= c.time
    ensures forall i :: 0 <= i < |ts| ==> Run(c, ts).0.time >= ts[i]
    ensures Run(c, ts).0.time == c.time || exists i :: 0 <= i < |ts| && Run(c, ts).0.time == ts[i]
    decreases |ts|
  {
    if |ts| > 0 {
      var step := Ticked(c, ts[0]);
      RunClockIsLatest(step.0, ts[1..]);
      assert forall i :: 1 <= i < |ts| ==> ts[i] == ts[1..][i - 1];
      if Run(c, ts).0.time != c.time && Run(c, ts).0.time != ts[0] {
        var i :| 0 <= i < |ts[1..]| && Run(step.0, ts[1..]).0.time == ts[1..][i];
        assert Run(c, ts).0.time == ts[i + 1];
      }
    }
  }

  /**
   * Passes are spaced: the first comes more than a minute after the last
   * pass before the run, each later one more than a minute after the one
   * before it, and the clock's last pass is the last of them.
   */
  lemma {:induction false} RunPassesAreSpaced(c: Clock, ts: seq<int>)
    requires c.prevAssignment <= c.time
    ensures var runs := Run(c, ts).1;
      (forall i :: 0 <= i < |runs| - 1 ==> runs[i + 1] - runs[i] > AssignDt) &&
      (|runs| > 0 ==> runs[0] - c.prevAssignment > AssignDt && Run(c, ts).0.prevAssignment == runs[|runs| - 1]) &&
      (|runs| == 0 ==> Run(c, ts).0.prevAssignment == c.prevAssignment)
    decreases |ts|
  {
    if |ts| > 0 {
      var step := Ticked(c, ts[0]);
      TickedKeepsOrder(c, ts[0]);
      RunPassesAreSpaced(step.0, ts[1..]);
      var rest := Run(step.0, ts[1..]).1;
      var runs := Run(c, ts).1;
      if step.1 {
        assert runs == [step.0.time] + rest;
        forall i | 0 <= i < |runs| - 1
          ensures runs[i + 1] - runs[i] > AssignDt
        {
          if i > 0 {
            assert runs[i + 1] == rest[i] && runs[i] == rest[i - 1];
          }
        }
      } else {
        assert runs == rest;
      }
    }
  }

  /** After at least one time, the last pass is at most a minute behind the clock. */
  lemma {:induction false} RunKeepsPassRecent(c: Clock, ts: seq<int>)
    requires c.prevAssignment <= c.time
    ensures Run(c, ts).0.prevAssignment <= Run(c, ts).0.time
    ensures |ts| > 0 ==> Run(c, ts).0.time - Run(c, ts).0.prevAssignment <= AssignDt
    decreases |ts|
  {
    if |ts| > 0 {
      TickedKeepsOrder(c, ts[0]);
      RunKeepsPassRecent(Ticked(c, ts[0]).0, ts[1..]);
    }
  }

  class Predictor {
    const tc: TripClassifier
    var time: int
    var count: nat
    var prevAssignment: int

    /** The clock, as a value. */
    function ClockState(): Clock
      reads this`time, this`prevAssignment
    {
      Clock(time, prevAssignment)
    }

    /** The classifier is consistent and runs on the predictor's clock; the last pass is not in the future. */
    ghost predicate Valid()
      reads this, tc, tc.td, tc.td.Buckets(), tc.at, tc.at.Objects()
    {
      tc.Valid() && tc.time == time && tc.td.time == time && prevAssignment <= time
    }

    /** A predictor over the schedule `g`: empty classifier, clock and counter at 0. */
    constructor (g: Schedule, env: Env)
      ensures Valid() && ClockState() == Clock(0, 0) && count == 0
      ensures fresh(tc) && fresh(tc.td) && fresh(tc.at) && tc.g == g && tc.env == env
      ensures tc.td.devices == [] && tc.td.candidateBlocks == map[] && tc.at.table == map[]
    {
      tc := new TripClassifier(g, env);
      time, count, prevAssignment := 0, 0, 0;
    }

    /** The first half of `updateTime`: the clock moves to the larger time, and the classifier follows it. */
    method AdvanceClock(newTime: int)
      requires Valid()
      modifies this`time, tc`time, tc.td, tc.td.Buckets()
      ensures Valid() && time == Ticked(old(ClockState()), newTime).0.time
      ensures tc.td.devices == old(tc.td.devices) && tc.td.buckets == old(tc.td.buckets)
      ensures tc.td.candidateBlocks == old(tc.td.candidateBlocks) && tc.at.Snapshot() == old(tc.at.Snapshot())
    {
      var t := if newTime > time then newTime else time;
      tc.UpdateTime(t);
      label Synced:
      time := t;
      ClassifierUntouched@Synced(tc);
    }

    /** The pass itself: the last pass moves to the clock, and the classifier assigns what it can; `ok` is false when it raised. */
    method PassNow() returns (ok: bool)
      requires Valid()
      modifies this`prevAssignment, tc.td`candidateBlocks, tc.at`table
      ensures Valid() && prevAssignment == time
      ensures tc.PassedFrom(old(tc.td.candidateBlocks), old(tc.at.Snapshot()), ok)
    {
      MarkPass();
      label Moved:
      ok := tc.CheckAllUnassignedForObviousBlocks();
      PredictorFieldsKept@Moved(this);
    }

    /** `prevAssignment = time`. */
    method MarkPass()
      requires Valid()
      modifies this`prevAssignment
      ensures Valid() && prevAssignment == time && tc.at.Snapshot() == old(tc.at.Snapshot())
    {
      prevAssignment := time;
      ClassifierUntouched(tc);
    }

    /** The second half of `updateTime`: the pass runs when the clock is more than a minute past the last one. */
    method RunIfDue() returns (ran: bool, ok: bool)
      requires Valid()
      modifies this`prevAssignment, tc.td`candidateBlocks, tc.at`table
      ensures Valid()
      ensures ran <==> old(time - prevAssignment) > AssignDt
      ensures prevAssignment == if ran then time else old(prevAssignment)
      ensures !ran ==> ok && tc.td.candidateBlocks == old(tc.td.candidateBlocks) && tc.at.Snapshot() == old(tc.at.Snapshot())
      ensures ran ==> tc.PassedFrom(old(tc.td.candidateBlocks), old(tc.at.Snapshot()), ok)
    {
      ran := time - prevAssignment > AssignDt;
      ok := true;
      if ran {
        ok := PassNow();
      }
    }

    /**
     * `updateTime`: the clock moves as `Ticked` says, the classifier gets
     * the new clock, and when the pass is due it runs over the devices
     * with the classifier's fixes as they stand; `ok` is false when the
     * pass raised.
     */
    method UpdateTime(newTime: int) returns (ran: bool, ok: bool)
      requires Valid()
      modifies this`time, this`prevAssignment, tc`time, tc.td, tc.td.Buckets(), tc.at`table
      ensures Valid()
      ensures (ClockState(), ran) == Ticked(old(ClockState()), newTime)
      ensures tc.td.devices == old(tc.td.devices) && tc.td.buckets == old(tc.td.buckets)
      ensures !ran ==> ok && tc.td.candidateBlocks == old(tc.td.candidateBlocks) && tc.at.Snapshot() == old(tc.at.Snapshot())
      ensures ran ==> tc.PassedFrom(old(tc.td.candidateBlocks), old(tc.at.Snapshot()), ok)
    {
      AdvanceClock(newTime);
      ran, ok := RunIfDue();
    }

    /** The fix is counted. */
    method CountFix()
      requires Valid()
      modifies this`count
      ensures Valid() && count == old(count) + 1 && ClockState() == old(ClockState())
      ensures unchanged(tc, tc.td, tc.at) && unchanged(tc.td.Buckets()) && unchanged(tc.at.Objects())
    {
      count := count + 1;
      ClassifierUntouched(tc);
    }

    /**
     * The fix goes to the classifier, which places and sweeps as
     * `TripClassifier.NewRawLocation` says; the predictor's own fields stay.
     * `ok` is false when the classifier raised.
     */
    method Forward(loc: Location) returns (ok: bool)
      requires Valid() && IsFix(loc)
      modifies tc.td, tc.td.Buckets(), tc.at`table, tc.at.Objects()
      ensures Valid() && count == old(count) && ClockState() == old(ClockState())
      ensures tc.td.buckets.Keys == old(tc.td.buckets.Keys) + {loc.deviceId.value}
      ensures tc.td.candidateBlocks == old(tc.td.candidateBlocks)
      ensures fresh(tc.td.Buckets() - old(tc.td.Buckets()))
      ensures tc.Placed(old(tc.at.Snapshot()), loc, ok)
    {
      ok := tc.NewRawLocation(loc);
      PredictorFieldsKept(this);
    }

    /**
     * `newRawLocation`: count the fix and hand it to the classifier; when
     * that raised, the raise ends the call and the clock stays. Otherwise
     * the clock moves to the fix's timestamp as `UpdateTime` says, and the
     * pass runs when it is due. `ok` is false when either step raised.
     */
    method NewRawLocation(loc: Location) returns (ran: bool, ok: bool)
      requires Valid() && IsFix(loc)
      modifies this`count, this`time, this`prevAssignment, tc`time, tc.td, tc.td.Buckets(), tc.at`table, tc.at.Objects()
      ensures Valid() && count == old(count) + 1
      ensures tc.td.buckets.Keys == old(tc.td.buckets.Keys) + {loc.deviceId.value}
      ensures var o := Projection(tc.env, tc.g, old(tc.at.Snapshot()), loc, None);
        (o.ok ==> (ClockState(), ran) == Ticked(old(ClockState()), loc.ts.value)) &&
        (!o.ok ==> !ran && !ok && ClockState() == old(ClockState()) && tc.at.Snapshot() == o.t) &&
        (!ran ==> ok == o.ok && tc.td.candidateBlocks == old(tc.td.candidateBlocks))
    {
      ok := Receive(loc);
      ran := false;
      if ok {
        ran, ok := UpdateTime(loc.ts.value);
      }
    }

    /**
     * The first half of `newRawLocation`: the fix is counted and handed to
     * the classifier as `Forward` says; the clock stays. The classifier
     * never reads the counter, so the count is taken after the hand-off.
     */
    method Receive(loc: Location) returns (ok: bool)
      requires Valid() && IsFix(loc)
      modifies this`count, tc.td, tc.td.Buckets(), tc.at`table, tc.at.Objects()
      ensures Valid() && count == old(count) + 1 && ClockState() == old(ClockState())
      ensures tc.td.buckets.Keys == old(tc.td.buckets.Keys) + {loc.deviceId.value}
      ensures tc.td.candidateBlocks == old(tc.td.candidateBlocks)
      ensures fresh(tc.td.Buckets() - old(tc.td.Buckets()))
      ensures tc.Placed(old(tc.at.Snapshot()), loc, ok)
    {
      ok := Forward(loc);
      CountFix();
    }
  }

  /** A step that leaves the predictor object alone leaves its clock and counter alone. */
  twostate lemma PredictorFieldsKept(new p: Predictor)
    requires old(allocated(p)) && unchanged(p, p.tc) && unchanged(p.tc.td`time)
    ensures p.ClockState() == old(p.ClockState()) && p.count == old(p.count)
    ensures p.tc.time == old(p.tc.time) && p.tc.td.time == old(p.tc.td.time)
  {
  }
}
