/**
 * `TripClassifier`: the decision rule that assigns an unassigned device to
 * a block when that block is obviously the best match, checked against the
 * other unassigned devices, and the pass that applies it to every device.
 */
module TripClassifierModel {
  import opened Wrappers
  import opened Util
  import opened Blocks
  import opened Locations
  import opened GtfsData
  import opened TripDistancesModel
  import opened AssignedTripModel
  import opened AssignedTripsModel

  /** How much more likely the best block must be than each alternative, strictly. */
  const ObviousMargin: real := 0.25

  // ----- getMaxOtherProb -----

  /** `[x['prob'] for x in cands if x['block'] == block]`, blocks being equal by id. */
  function ProbsFor(cs: seq<Candidate>, blockId: string): seq<real>
    decreases |cs|
  {
    if |cs| == 0 then []
    else (if cs[0].block.blockId == blockId then [cs[0].prob] else []) + ProbsFor(cs[1..], blockId)
  }

  /** The list is non-empty iff some candidate has the block, and it starts with the first such candidate's prob. */
  lemma {:induction false} ProbsForFirst(cs: seq<Candidate>, blockId: string)
    ensures |ProbsFor(cs, blockId)| > 0 <==> exists k :: 0 <= k < |cs| && cs[k].block.blockId == blockId
    ensures |ProbsFor(cs, blockId)| > 0 ==>
      exists k :: 0 <= k < |cs| && cs[k].block.blockId == blockId && ProbsFor(cs, blockId)[0] == cs[k].prob &&
        forall j :: 0 <= j < k ==> cs[j].block.blockId != blockId
    decreases |cs|
  {
    if |cs| > 0 {
      ProbsForFirst(cs[1..], blockId);
      if cs[0].block.blockId != blockId {
        assert forall k :: 0 < k < |cs| ==> cs[k] == cs[1..][k - 1];
        if |ProbsFor(cs[1..], blockId)| > 0 {
          var k :| 0 <= k < |cs[1..]| && cs[1..][k].block.blockId == blockId && ProbsFor(cs[1..], blockId)[0] == cs[1..][k].prob &&
            forall j :: 0 <= j < k ==> cs[1..][j].block.blockId != blockId;
          assert cs[k + 1] == cs[1..][k];
        }
      }
    }
  }

  /** What another device `e` contributes: the first prob it has for the block, if it is not `d` and is unassigned. */
  function OtherProb(cands: map<string, seq<Candidate>>, taken: set<string>, d: string, blockId: string, e: string)
    : Option<real>
    requires e in cands
  {
    if e != d && e !in taken && |ProbsFor(cands[e], blockId)| > 0 then Some(ProbsFor(cands[e], blockId)[0]) else None
  }

  /** The running maximum the loop of `getMaxOtherProb` keeps over the devices `ds`, starting from 0. */
  function MaxOtherProb(cands: map<string, seq<Candidate>>, ds: seq<string>, taken: set<string>, d: string, blockId: string)
    : real
    requires forall j :: 0 <= j < |ds| ==> ds[j] in cands
    decreases |ds|
  {
    if |ds| == 0 then 0.0
    else
      var m := MaxOtherProb(cands, ds[..|ds| - 1], taken, d, blockId);
      var o := OtherProb(cands, taken, d, blockId, ds[|ds| - 1]);
      if o.Some? && o.value > m then o.value else m
  }

  /**
   * The result is the largest first prob for the block among the other
   * unassigned devices, or 0.0 when none is larger (or there is none).
   */
  lemma {:induction false} MaxOtherProbIsMax(cands: map<string, seq<Candidate>>, ds: seq<string>, taken: set<string>,
                                             d: string, blockId: string)
    requires forall j :: 0 <= j < |ds| ==> ds[j] in cands
    ensures MaxOtherProb(cands, ds, taken, d, blockId) >= 0.0
    ensures forall j :: 0 <= j < |ds| && OtherProb(cands, taken, d, blockId, ds[j]).Some? ==>
      OtherProb(cands, taken, d, blockId, ds[j]).value <= MaxOtherProb(cands, ds, taken, d, blockId)
    ensures MaxOtherProb(cands, ds, taken, d, blockId) == 0.0 ||
      exists j :: 0 <= j < |ds| && OtherProb(cands, taken, d, blockId, ds[j]) == Some(MaxOtherProb(cands, ds, taken, d, blockId))
    decreases |ds|
  {
    if |ds| > 0 {
      var init := ds[..|ds| - 1];
      MaxOtherProbIsMax(cands, init, taken, d, blockId);
      assert forall j :: 0 <= j < |init| ==> ds[j] == init[j];
    }
  }

  /** `getMaxOtherProb`: the loop over the devices with buckets, in the order they were first seen. */
  method GetMaxOtherProb(cands: map<string, seq<Candidate>>, devices: seq<string>, taken: set<string>,
                         block: BlockRec, d: string) returns (probMaxOther: real)
    requires forall j :: 0 <= j < |devices| ==> devices[j] in cands
    ensures probMaxOther == MaxOtherProb(cands, devices, taken, d, block.blockId)
  {
    probMaxOther := 0.0;
    for i := 0 to |devices|
      invariant probMaxOther == MaxOtherProb(cands, devices[..i], taken, d, block.blockId)
    {
      assert devices[..i + 1][..i] == devices[..i];
      var otherId := devices[i];
      if otherId != d && otherId !in taken {
        var otherProb := ProbsFor(cands[otherId], block.blockId);
        if |otherProb| > 0 && otherProb[0] > probMaxOther {
          probMaxOther := otherProb[0];
        }
      }
    }
    assert devices[..|devices|] == devices;
  }

  // ----- sorting the candidates by score -----

  /** Sorted by ascending score. */
  predicate SortedByScore(s: seq<Candidate>) {
    forall i, j :: 0 <= i < j < |s| ==> s[i].avgMillis <= s[j].avgMillis
  }

  /** Inserting before the first element whose score is not smaller, so that ties keep their order. */
  function InsertByScore(c: Candidate, s: seq<Candidate>): seq<Candidate>
    decreases |s|
  {
    if |s| == 0 || c.avgMillis <= s[0].avgMillis then [c] + s else [s[0]] + InsertByScore(c, s[1..])
  }

  /** `sorted(cands, key = avgMillis)`: a stable sort, by insertion from the back. */
  function SortByScore(cs: seq<Candidate>): seq<Candidate>
    decreases |cs|
  {
    if |cs| == 0 then [] else InsertByScore(cs[0], SortByScore(cs[1..]))
  }

  lemma {:induction false} InsertByScoreElements(c: Candidate, s: seq<Candidate>)
    ensures multiset(InsertByScore(c, s)) == multiset(s) + multiset{c}
    decreases |s|
  {
    if |s| > 0 && c.avgMillis > s[0].avgMillis {
      InsertByScoreElements(c, s[1..]);
      assert s == [s[0]] + s[1..];
    }
  }

  lemma {:induction false} InsertByScoreSorted(c: Candidate, s: seq<Candidate>)
    requires SortedByScore(s)
    ensures SortedByScore(InsertByScore(c, s))
    decreases |s|
  {
    if |s| > 0 && c.avgMillis > s[0].avgMillis {
      var rest := s[1..];
      assert SortedByScore(rest) by {
        assert forall i :: 0 <= i < |rest| ==> rest[i] == s[i + 1];
      }
      InsertByScoreSorted(c, rest);
      InsertByScoreElements(c, rest);
      HeadBeforeInserted(c, s, InsertByScore(c, rest));
    }
  }

  /** The head of sorted `s`, scoring below `c`, stays in front of any sorted rearrangement of the rest with `c`. */
  lemma HeadBeforeInserted(c: Candidate, s: seq<Candidate>, ins: seq<Candidate>)
    requires SortedByScore(s) && |s| > 0 && c.avgMillis > s[0].avgMillis
    requires SortedByScore(ins) && multiset(ins) == multiset(s[1..]) + multiset{c}
    ensures SortedByScore([s[0]] + ins)
  {
    forall i | 0 <= i < |ins| ensures s[0].avgMillis <= ins[i].avgMillis {
      assert ins[i] in multiset(ins);
      if ins[i] != c {
        assert ins[i] in multiset(s[1..]);
        var k :| 0 <= k < |s[1..]| && s[1..][k] == ins[i];
        assert s[k + 1] == ins[i];
      }
    }
    var r := [s[0]] + ins;
    forall i, j | 0 <= i < j < |r| ensures r[i].avgMillis <= r[j].avgMillis {
      assert r[j] == ins[j - 1];
      if i > 0 {
        assert r[i] == ins[i - 1];
      }
    }
  }

  /** The possibilities are sorted by score and are the candidates, reordered. */
  lemma {:induction false} SortByScoreProperties(cs: seq<Candidate>)
    ensures SortedByScore(SortByScore(cs))
    ensures multiset(SortByScore(cs)) == multiset(cs)
    ensures |SortByScore(cs)| == |cs|
    decreases |cs|
  {
    if |cs| > 0 {
      SortByScoreProperties(cs[1..]);
      InsertByScoreSorted(cs[0], SortByScore(cs[1..]));
      InsertByScoreElements(cs[0], SortByScore(cs[1..]));
      assert cs == [cs[0]] + cs[1..];
    }
  }

  /** `cs[k]` scores least of `cs`, and every element before it scores strictly more. */
  predicate EarliestLeast(cs: seq<Candidate>, k: int) {
    0 <= k < |cs| &&
    (forall j :: 0 <= j < |cs| ==> cs[k].avgMillis <= cs[j].avgMillis) &&
    (forall j :: 0 <= j < k ==> cs[j].avgMillis > cs[k].avgMillis)
  }

  /**
   * The best possibility is the earliest candidate with the smallest
   * score: the sort is stable.
   */
  lemma {:induction false} SortByScoreFirst(cs: seq<Candidate>)
    requires |cs| > 0
    ensures |SortByScore(cs)| > 0
    ensures exists k :: EarliestLeast(cs, k) && SortByScore(cs)[0] == cs[k]
    decreases |cs|
  {
    var rest := cs[1..];
    assert cs == [cs[0]] + rest;
    if |rest| == 0 {
      assert SortByScore(cs) == [cs[0]];
      assert EarliestLeast(cs, 0);
    } else {
      SortByScoreFirst(rest);
      var s := SortByScore(rest);
      var k' :| EarliestLeast(rest, k') && s[0] == rest[k'];
      EarliestLeastCons(cs[0], rest, k');
      if cs[0].avgMillis <= s[0].avgMillis {
        assert SortByScore(cs)[0] == cs[0];
      } else {
        assert SortByScore(cs)[0] == s[0] == cs[k' + 1];
      }
    }
  }

  /** Putting `c` in front: it is the new earliest least when it scores no more, else the old one moves up by one. */
  lemma EarliestLeastCons(c: Candidate, rest: seq<Candidate>, k: int)
    requires EarliestLeast(rest, k)
    ensures c.avgMillis <= rest[k].avgMillis ==> EarliestLeast([c] + rest, 0)
    ensures c.avgMillis > rest[k].avgMillis ==> EarliestLeast([c] + rest, k + 1)
  {
    var cs := [c] + rest;
    assert forall j :: 0 < j < |cs| ==> cs[j] == rest[j - 1];
    if c.avgMillis <= rest[k].avgMillis {
      forall j | 0 < j < |cs| ensures cs[0].avgMillis <= cs[j].avgMillis {
        assert rest[k].avgMillis <= rest[j - 1].avgMillis;
      }
    } else {
      forall j | 0 < j < k + 1 ensures cs[j].avgMillis > cs[k + 1].avgMillis {
        assert cs[j] == rest[j - 1];
      }
      forall j | 0 < j < |cs| ensures cs[k + 1].avgMillis <= cs[j].avgMillis {
        assert cs[j] == rest[j - 1];
      }
    }
  }

  // ----- chooseObviousBlock -----

  /**
   * The loop for `prob1` over the runner-ups `rest`: each one whose block
   * no device holds overwrites it, so it ends as the prob of the last such
   * runner-up (0.0 when there is none).
   */
  function LastUntakenProb(rest: seq<Candidate>, t: AssignmentTable): real
    decreases |rest|
  {
    if |rest| == 0 then 0.0
    else if !BlockTaken(t, rest[|rest| - 1].block.blockId) then rest[|rest| - 1].prob
    else LastUntakenProb(rest[..|rest| - 1], t)
  }

  /** `prob1` is the prob of the last runner-up whose block is free, and 0.0 when every block is held. */
  lemma {:induction false} LastUntakenProbIsLast(rest: seq<Candidate>, t: AssignmentTable)
    ensures (forall k :: 0 <= k < |rest| ==> BlockTaken(t, rest[k].block.blockId)) ==> LastUntakenProb(rest, t) == 0.0
    ensures (exists k :: 0 <= k < |rest| && !BlockTaken(t, rest[k].block.blockId)) ==>
      exists k :: 0 <= k < |rest| && !BlockTaken(t, rest[k].block.blockId) && LastUntakenProb(rest, t) == rest[k].prob &&
        forall j :: k < j < |rest| ==> BlockTaken(t, rest[j].block.blockId)
    decreases |rest|
  {
    if |rest| > 0 {
      var n := |rest| - 1;
      var init := rest[..n];
      if !BlockTaken(t, rest[n].block.blockId) {
        assert LastUntakenProb(rest, t) == rest[n].prob;
      } else {
        LastUntakenProbIsLast(init, t);
        assert LastUntakenProb(rest, t) == LastUntakenProb(init, t);
        assert forall j :: 0 <= j < n ==> init[j] == rest[j];
        if exists k :: 0 <= k < |rest| && !BlockTaken(t, rest[k].block.blockId) {
          var k0 :| 0 <= k0 < |rest| && !BlockTaken(t, rest[k0].block.blockId);
          assert k0 < n && !BlockTaken(t, init[k0].block.blockId);
          var k :| 0 <= k < n && !BlockTaken(t, init[k].block.blockId) && LastUntakenProb(init, t) == init[k].prob &&
            forall j :: k < j < n ==> BlockTaken(t, init[j].block.blockId);
          assert forall j :: k < j < |rest| ==> BlockTaken(t, rest[j].block.blockId);
        }
      }
    }
  }

  /** Two free runner-ups with probs 0.6 then 0.1 give `prob1` = 0.1, not the larger 0.6. */
  lemma LastUntakenProbIsNotTheBest(b1: BlockRec, b2: BlockRec)
    ensures LastUntakenProb([Candidate(1.0, b1, 0.0, 0.6), Candidate(2.0, b2, 0.0, 0.1)], map[]) == 0.1
  {
    var rest := [Candidate(1.0, b1, 0.0, 0.6), Candidate(2.0, b2, 0.0, 0.1)];
    assert !BlockTaken(map[], rest[1].block.blockId);
  }

  /** The block chosen and the post to start it at. */
  datatype Choice = Choice(block: BlockRec, postKm: real)

  /**
   * The rule of `chooseObviousBlock` on the sorted possibilities: a single
   * one is chosen iff it beats the other devices by more than the margin;
   * of several, the best is chosen iff it beats both `prob1` and the other
   * devices by more than the margin.
   */
  function ObviousChoice(poss: seq<Candidate>, prob1: real, maxOther: real): Option<Choice> {
    if |poss| == 1 then
      if poss[0].prob - maxOther > ObviousMargin then Some(Choice(poss[0].block, poss[0].postKm)) else None
    else if |poss| > 1 then
      if poss[0].prob - prob1 > ObviousMargin && poss[0].prob - maxOther > ObviousMargin
      then Some(Choice(poss[0].block, poss[0].postKm)) else None
    else None
  }

  /** All devices with a bucket have candidates. */
  predicate Scored(cands: map<string, seq<Candidate>>, devices: seq<string>) {
    forall j :: 0 <= j < |devices| ==> devices[j] in cands
  }

  /** `chooseObviousBlock(d)` on the candidates, the devices with buckets and the assignment table. */
  function ObviousBlock(cands: map<string, seq<Candidate>>, devices: seq<string>, t: AssignmentTable, d: string)
    : Option<Choice>
    requires d in cands && Scored(cands, devices)
  {
    var poss := SortByScore(cands[d]);
    if |poss| == 0 then None
    else ObviousChoice(poss, LastUntakenProb(poss[1..], t), MaxOtherProb(cands, devices, t.Keys, d, poss[0].block.blockId))
  }

  /**
   * Whatever is chosen is the best-scoring candidate (the earliest of the
   * smallest scores) with its own `postKm`; with no candidate nothing is.
   */
  lemma ObviousBlockIsBest(cands: map<string, seq<Candidate>>, devices: seq<string>, t: AssignmentTable, d: string)
    requires d in cands && Scored(cands, devices)
    ensures |cands[d]| == 0 ==> ObviousBlock(cands, devices, t, d).None?
    ensures ObviousBlock(cands, devices, t, d).Some? ==> (|cands[d]| > 0 &&
      ObviousBlock(cands, devices, t, d).value == Choice(SortByScore(cands[d])[0].block, SortByScore(cands[d])[0].postKm))
    ensures ObviousBlock(cands, devices, t, d).Some? ==>
      exists k :: 0 <= k < |cands[d]| &&
        ObviousBlock(cands, devices, t, d).value == Choice(cands[d][k].block, cands[d][k].postKm) &&
        (forall j :: 0 <= j < |cands[d]| ==> cands[d][k].avgMillis <= cands[d][j].avgMillis) &&
        (forall j :: 0 <= j < k ==> cands[d][j].avgMillis > cands[d][k].avgMillis)
  {
    SortByScoreProperties(cands[d]);
    if |cands[d]| > 0 {
      SortByScoreFirst(cands[d]);
    }
  }

  /**
   * A chosen block beats, by more than the margin, the first prob every
   * other unassigned device has for it; with several candidates it also
   * beats the last free runner-up by more than the margin.
   */
  lemma ObviousBlockBeatsOthers(cands: map<string, seq<Candidate>>, devices: seq<string>, t: AssignmentTable, d: string)
    requires d in cands && Scored(cands, devices)
    requires ObviousBlock(cands, devices, t, d).Some?
    ensures var best := SortByScore(cands[d])[0];
      forall j :: 0 <= j < |devices| && OtherProb(cands, t.Keys, d, best.block.blockId, devices[j]).Some? ==>
        best.prob - OtherProb(cands, t.Keys, d, best.block.blockId, devices[j]).value > ObviousMargin
    ensures var poss := SortByScore(cands[d]);
      |poss| > 1 ==> poss[0].prob - LastUntakenProb(poss[1..], t) > ObviousMargin
  {
    var poss := SortByScore(cands[d]);
    MaxOtherProbIsMax(cands, devices, t.Keys, d, poss[0].block.blockId);
  }

  /**
   * `chooseObviousBlock`: sort the device's candidates by score, then
   * decide on a single candidate, or on several with `prob1` from the loop
   * over the runner-ups.
   */
  method ChooseObviousBlock(cands: map<string, seq<Candidate>>, devices: seq<string>, t: AssignmentTable, d: string)
    returns (r: Option<Choice>)
    requires d in cands && Scored(cands, devices)
    ensures r == ObviousBlock(cands, devices, t, d)
  {
    var possibilities := SortByScore(cands[d]);
    if |possibilities| == 1 {
      var probThis := possibilities[0].prob;
      var probMaxOther := GetMaxOtherProb(cands, devices, t.Keys, possibilities[0].block, d);
      if probThis - probMaxOther > ObviousMargin {
        return Some(Choice(possibilities[0].block, possibilities[0].postKm));
      }
    } else if |possibilities| > 1 {
      var prob0 := possibilities[0].prob;
      var prob1 := 0.0;
      var rest := possibilities[1..];
      for i := 0 to |rest|
        invariant prob1 == LastUntakenProb(rest[..i], t)
      {
        assert rest[..i + 1][..i] == rest[..i];
        var block := rest[i].block;
        var assignedBlocks := GetAssignedBlocks(t);
        if !HasBlockId(assignedBlocks, block.blockId) {
          prob1 := rest[i].prob;
        }
      }
      assert rest[..|rest|] == rest;
      var probMaxOther := GetMaxOtherProb(cands, devices, t.Keys, possibilities[0].block, d);
      if prob0 - prob1 > ObviousMargin && prob0 - probMaxOther > ObviousMargin {
        return Some(Choice(possibilities[0].block, possibilities[0].postKm));
      }
    }
    return None;
  }

  // ----- checkAllUnassignedForObviousBlocks -----

  /**
   * One device of the pass: an assigned device is left alone; otherwise an
   * obvious block, if there is one, gets the block's best trip for the
   * device's recent fixes, which is then assigned unless another device
   * holds it. A best trip of None raises (it has no `tripId`): None.
   */
  function PassStep(env: Env, g: Schedule, daystart: int, time: int, cands: map<string, seq<Candidate>>,
                    devices: seq<string>, t: AssignmentTable, d: string, recent: seq<Location>): Option<AssignmentTable>
    requires d in cands && Scored(cands, devices)
  {
    if d in t then Some(t)
    else match ObviousBlock(cands, devices, t, d)
      case None => Some(t)
      case Some(ch) => match BestTrip(env, g, daystart, recent, ch.block)
        case None => None
        case Some(trip) => Some(AssignedIfFree(t, d, time, trip, ch.block, ch.postKm))
  }

  /** The table the pass leaves, and whether it went through without raising. */
  datatype PassOutcome = PassOutcome(t: AssignmentTable, ok: bool)

  /**
   * The pass over the devices `ds` (with recent fixes `recents`) in order,
   * each step seeing the table the earlier ones left; it stops at the first
   * step that raises, keeping what the earlier steps did.
   */
  function Pass(env: Env, g: Schedule, daystart: int, time: int, cands: map<string, seq<Candidate>>,
                devices: seq<string>, t: AssignmentTable, ds: seq<string>, recents: seq<seq<Location>>): PassOutcome
    requires Scored(cands, devices) && Scored(cands, ds) && |ds| == |recents|
    decreases |ds|
  {
    if |ds| == 0 then PassOutcome(t, true)
    else match PassStep(env, g, daystart, time, cands, devices, t, ds[0], recents[0])
      case None => PassOutcome(t, false)
      case Some(t') => Pass(env, g, daystart, time, cands, devices, t', ds[1..], recents[1..])
  }

  /** The pass from position `i` of `ds` is the step at `ds[i]`, then the pass from `i + 1`. */
  lemma PassUnfold(env: Env, g: Schedule, daystart: int, time: int, cands: map<string, seq<Candidate>>,
                   devices: seq<string>, t: AssignmentTable, ds: seq<string>, recents: seq<seq<Location>>, i: nat)
    requires i < |ds| == |recents| && Scored(cands, devices) && Scored(cands, ds[i..])
    ensures ds[i] in cands && Scored(cands, ds[i + 1..])
    ensures Pass(env, g, daystart, time, cands, devices, t, ds[i..], recents[i..]) ==
      match PassStep(env, g, daystart, time, cands, devices, t, ds[i], recents[i])
      case None => PassOutcome(t, false)
      case Some(t') => Pass(env, g, daystart, time, cands, devices, t', ds[i + 1..], recents[i + 1..])
  {
    assert ds[i..][0] == ds[i] && ds[i..][1..] == ds[i + 1..];
    assert recents[i..][0] == recents[i] && recents[i..][1..] == recents[i + 1..];
  }

  /**
   * One step keeps every entry of the table and adds at most the device
   * `d`, with the best-scoring candidate's block and post, at `time`.
   */
  lemma PassStepEffect(env: Env, g: Schedule, daystart: int, time: int, cands: map<string, seq<Candidate>>,
                       devices: seq<string>, t: AssignmentTable, d: string, recent: seq<Location>)
    requires d in cands && Scored(cands, devices)
    ensures var step := PassStep(env, g, daystart, time, cands, devices, t, d, recent);
      step.Some? ==>
        (forall e :: e in t ==> e in step.value && step.value[e] == t[e]) &&
        (forall e :: e in step.value ==> e in t || e == d) &&
        (d in step.value && d !in t ==>
          |cands[d]| > 0 && step.value[d].block == SortByScore(cands[d])[0].block &&
          step.value[d].post == SortByScore(cands[d])[0].postKm && step.value[d].time == time)
  {
    if d !in t {
      ObviousBlockIsBest(cands, devices, t, d);
    }
  }

  /** The pass leaves every device assigned before it untouched and assigns only devices of `ds`. */
  lemma {:induction false} PassKeepsAssigned(env: Env, g: Schedule, daystart: int, time: int,
                                             cands: map<string, seq<Candidate>>, devices: seq<string>,
                                             t: AssignmentTable, ds: seq<string>, recents: seq<seq<Location>>)
    requires Scored(cands, devices) && Scored(cands, ds) && |ds| == |recents|
    ensures var r := Pass(env, g, daystart, time, cands, devices, t, ds, recents).t;
      (forall e :: e in t ==> e in r && r[e] == t[e]) &&
      (forall e :: e in r ==> e in t || exists j :: 0 <= j < |ds| && ds[j] == e)
    decreases |ds|
  {
    if |ds| > 0 {
      PassUnfold(env, g, daystart, time, cands, devices, t, ds, recents, 0);
      assert ds[0..] == ds && recents[0..] == recents;
      var step := PassStep(env, g, daystart, time, cands, devices, t, ds[0], recents[0]);
      PassStepEffect(env, g, daystart, time, cands, devices, t, ds[0], recents[0]);
      if step.Some? {
        var t' := step.value;
        PassKeepsAssigned(env, g, daystart, time, cands, devices, t', ds[1..], recents[1..]);
        assert forall j :: 0 <= j < |ds[1..]| ==> ds[1..][j] == ds[j + 1];
      }
    }
  }

  /** No trip ends up held by two devices. */
  lemma {:induction false} PassKeepsExclusive(env: Env, g: Schedule, daystart: int, time: int,
                                              cands: map<string, seq<Candidate>>, devices: seq<string>,
                                              t: AssignmentTable, ds: seq<string>, recents: seq<seq<Location>>)
    requires Scored(cands, devices) && Scored(cands, ds) && |ds| == |recents|
    requires Exclusive(t)
    ensures Exclusive(Pass(env, g, daystart, time, cands, devices, t, ds, recents).t)
    decreases |ds|
  {
    if |ds| > 0 {
      PassUnfold(env, g, daystart, time, cands, devices, t, ds, recents, 0);
      assert ds[0..] == ds && recents[0..] == recents;
      var step := PassStep(env, g, daystart, time, cands, devices, t, ds[0], recents[0]);
      if step.Some? {
        PassKeepsExclusive(env, g, daystart, time, cands, devices, step.value, ds[1..], recents[1..]);
      }
    }
  }

  /** Each device the pass assigns gets the best-scoring candidate's block and post, at `time`. */
  lemma {:induction false} PassAssignsObvious(env: Env, g: Schedule, daystart: int, time: int,
                                              cands: map<string, seq<Candidate>>, devices: seq<string>,
                                              t: AssignmentTable, ds: seq<string>, recents: seq<seq<Location>>)
    requires Scored(cands, devices) && Scored(cands, ds) && |ds| == |recents|
    ensures var r := Pass(env, g, daystart, time, cands, devices, t, ds, recents).t;
      forall e :: e in r && e !in t ==> (e in cands && |cands[e]| > 0 &&
        r[e].block == SortByScore(cands[e])[0].block && r[e].post == SortByScore(cands[e])[0].postKm && r[e].time == time)
    decreases |ds|
  {
    if |ds| > 0 {
      var d := ds[0];
      PassUnfold(env, g, daystart, time, cands, devices, t, ds, recents, 0);
      assert ds[0..] == ds && recents[0..] == recents;
      var step := PassStep(env, g, daystart, time, cands, devices, t, d, recents[0]);
      PassStepEffect(env, g, daystart, time, cands, devices, t, d, recents[0]);
      if step.Some? {
        var t' := step.value;
        PassAssignsObvious(env, g, daystart, time, cands, devices, t', ds[1..], recents[1..]);
        PassKeepsAssigned(env, g, daystart, time, cands, devices, t', ds[1..], recents[1..]);
      }
    }
  }

  /**
   * The body of the loop of `checkAllUnassignedForObviousBlocks` for one
   * device `d` with recent fixes `recent`; `ok` is false where it raises.
   */
  method AssignStep(env: Env, g: Schedule, daystart: int, time: int, cands: map<string, seq<Candidate>>,
                    devices: seq<string>, d: string, recent: seq<Location>, at: AssignedTrips) returns (ok: bool)
    requires at.Valid() && d in cands && Scored(cands, devices)
    modifies at`table
    ensures at.Valid()
    ensures var next := PassStep(env, g, daystart, time, cands, devices, old(at.Snapshot()), d, recent);
      if ok then next == Some(at.Snapshot()) else next.None? && at.Snapshot() == old(at.Snapshot())
  {
    var t := at.Snapshot();
    if at.IsDeviceAssigned(d) {
      return true;
    }
    var choice := ChooseObviousBlock(cands, devices, t, d);
    if choice.None? {
      assert at.Snapshot() == t;
      return true;
    }
    var trip := PickBestTrip(env, g, daystart, choice.value.block, recent);
    if trip.None? {
      assert at.Snapshot() == t;
      return false;
    }
    assert at.Snapshot() == t;
    at.AssignUnassignedTripToDevice(d, time, trip.value, choice.value.block, choice.value.postKm);
    ok := true;
  }

  /**
   * The loop of `checkAllUnassignedForObviousBlocks` over the devices with
   * buckets, in the order they were first seen; `recents` holds each
   * device's recent fixes, which the pass does not change.
   */
  method AssignPass(env: Env, g: Schedule, daystart: int, time: int, cands: map<string, seq<Candidate>>,
                    devices: seq<string>, recents: seq<seq<Location>>, at: AssignedTrips) returns (ok: bool)
    requires at.Valid() && Scored(cands, devices) && |devices| == |recents|
    modifies at`table
    ensures at.Valid()
    ensures PassOutcome(at.Snapshot(), ok) == Pass(env, g, daystart, time, cands, devices, old(at.Snapshot()), devices, recents)
    ensures old(at.table.Keys) <= cands.Keys ==> at.table.Keys <= cands.Keys
  {
    PassKeepsAssigned(env, g, daystart, time, cands, devices, at.Snapshot(), devices, recents);
    ghost var whole := Pass(env, g, daystart, time, cands, devices, at.Snapshot(), devices, recents);
    assert devices[0..] == devices && recents[0..] == recents;
    for i := 0 to |devices|
      invariant at.Valid()
      invariant Scored(cands, devices[i..])
      invariant Pass(env, g, daystart, time, cands, devices, at.Snapshot(), devices[i..], recents[i..]) == whole
    {
      PassUnfold(env, g, daystart, time, cands, devices, at.Snapshot(), devices, recents, i);
      var stepped := AssignStep(env, g, daystart, time, cands, devices, devices[i], recents[i], at);
      if !stepped {
        return false;
      }
    }
    assert devices[|devices|..] == [] && recents[|recents|..] == [];
    ok := true;
  }

  // ----- the classifier -----

  /** The scorer, the assignment table and the time the classifier last heard. */
  class TripClassifier {
    const g: Schedule
    const env: Env
    const td: TripDistances
    const at: AssignedTrips
    var time: int

    /** Both parts are consistent and share the schedule; every assigned device has candidates. */
    ghost predicate Valid()
      reads this, td, td.Buckets(), at, at.Objects()
    {
      td.Valid() && at.Valid() && td.g == g && td.env == env && at.g == g && at.env == env &&
      at.table.Keys <= td.candidateBlocks.Keys
    }

    constructor (g: Schedule, env: Env)
      ensures Valid() && this.g == g && this.env == env && time == 0
      ensures fresh(td) && fresh(at) && td.devices == [] && td.candidateBlocks == map[] && at.table == map[]
      ensures td.time == 0 && td.daystart == 0
    {
      this.g, this.env := g, env;
      td := new TripDistances(g, env);
      at := new AssignedTrips(g, env);
      time := 0;
    }

    /**
     * What placing `loc` leaves, from the table `t0` it started with: `ok`
     * tells whether placing it ran without raising; when it did, the devices
     * the sweep finds bad are gone, read against the buckets as they stand
     * now. Otherwise the table is as the projection left it.
     */
    ghost predicate Placed(t0: AssignmentTable, loc: Location, ok: bool)
      requires td.Valid() && at.Valid() && at.g == g && at.env == env && at.table.Keys <= td.candidateBlocks.Keys
      reads this, td, td.Buckets(), at, at.Objects()
    {
      var o := Projection(env, g, t0, loc, None);
      ok == o.ok &&
      (o.ok ==> o.t.Keys <= td.buckets.Keys && o.t.Keys <= td.candidateBlocks.Keys) &&
      at.Snapshot() == if o.ok then Cleared(o.t, RecentMap(td, o.t.Keys), td.candidateBlocks) else o.t
    }

    /**
     * `newRawLocation`: the fix goes into the device's bucket, then the
     * assignment table places it and sweeps out the bad devices, reading
     * the buckets as they are after the fix was added. `ok` is false when
     * placing the fix raised: the sweep is then skipped, and the raise
     * reaches the caller.
     */
    method NewRawLocation(loc: Location) returns (ok: bool)
      requires Valid() && IsFix(loc)
      modifies td, td.Buckets(), at`table, at.Objects()
      ensures Valid()
      ensures td.buckets.Keys == old(td.buckets.Keys) + {loc.deviceId.value}
      ensures td.candidateBlocks == old(td.candidateBlocks) && td.time == old(td.time) && td.daystart == old(td.daystart)
      ensures fresh(td.Buckets() - old(td.Buckets()))
      ensures Placed(old(at.Snapshot()), loc, ok)
    {
      td.AddLocation(loc);
      TableUntouched(at);
      label Added:
      var events;
      events, ok := at.NewRawLocation(td, loc);
      ScorerUntouched@Added(td);
    }

    /** `updateTime`: the classifier's time, then the scorer's. */
    method UpdateTime(t: int)
      requires Valid()
      modifies this`time, td, td.Buckets()
      ensures Valid() && time == t
      ensures td.time == t && td.daystart == if env.dayStart(t) > old(td.daystart) then env.dayStart(t) else old(td.daystart)
      ensures td.devices == old(td.devices) && td.buckets == old(td.buckets) && td.candidateBlocks == old(td.candidateBlocks)
      ensures at.table == old(at.table) && at.Snapshot() == old(at.Snapshot())
    {
      time := t;
      td.UpdateTime(t);
      TableUntouched(at);
    }

    /**
     * The first half of `checkAllUnassignedForObviousBlocks`: every bucket
     * is scored, in the order the devices were first seen; the table and
     * the fixes are not touched.
     */
    method ScoreBuckets() returns (scored: bool)
      requires Valid()
      modifies td`candidateBlocks
      ensures Valid()
      ensures td.RecentOf(td.devices) == old(td.RecentOf(td.devices))
      ensures (td.candidateBlocks, scored) ==
        StoreInOrder(CandidatesFn(env, g, td.time, td.daystart), old(td.candidateBlocks), td.devices, td.RecentOf(td.devices))
      ensures scored ==> Scored(td.candidateBlocks, td.devices)
      ensures at.Snapshot() == old(at.Snapshot())
    {
      scored := td.CheckAllBucketsBlind();
      TableUntouched(at);
    }

    /** The second half: the pass over the devices with the candidates just stored. */
    method RunPass() returns (ok: bool)
      requires Valid() && Scored(td.candidateBlocks, td.devices)
      modifies at`table
      ensures Valid()
      ensures td.RecentOf(td.devices) == old(td.RecentOf(td.devices))
      ensures PassOutcome(at.Snapshot(), ok) ==
        Pass(env, g, td.daystart, time, td.candidateBlocks, td.devices, old(at.Snapshot()), td.devices, td.RecentOf(td.devices))
    {
      assert forall j :: 0 <= j < |td.devices| ==> td.devices[j] in td.buckets;
      var recents := td.RecentOf(td.devices);
      ghost var snap0 := at.Snapshot();
      ok := AssignPass(env, g, td.daystart, time, td.candidateBlocks, td.devices, recents, at);
      ghost var outcome := PassOutcome(at.Snapshot(), ok);
      assert outcome == Pass(env, g, td.daystart, time, td.candidateBlocks, td.devices, snap0, td.devices, recents);
      ScorerUntouched(td);
    }

    /**
     * What a pass leaves, from the candidates `cands0` and the table `snap0`
     * it started with: the candidates of every device stored in order, and
     * when all of them scored, the table after the pass over all devices,
     * `ok` telling whether it ran to the end; otherwise the table as it
     * was, and not `ok`.
     */
    ghost predicate PassedFrom(cands0: map<string, seq<Candidate>>, snap0: AssignmentTable, ok: bool)
      requires td.Valid()
      reads this, td, td.Buckets(), at, at.Objects()
    {
      assert forall j :: 0 <= j < |td.devices| ==> td.devices[j] in td.buckets;
      var s := StoreInOrder(CandidatesFn(env, g, td.time, td.daystart), cands0, td.devices, td.RecentOf(td.devices));
      td.candidateBlocks == s.0 &&
      if s.1 then
        Scored(s.0, td.devices) &&
        PassOutcome(at.Snapshot(), ok) == Pass(env, g, td.daystart, time, s.0, td.devices, snap0, td.devices, td.RecentOf(td.devices))
      else !ok && at.Snapshot() == snap0
    }

    /**
     * `checkAllUnassignedForObviousBlocks`: every bucket is scored first;
     * when that raises, nothing is assigned. Otherwise the pass runs over
     * the devices in the order they were first seen, with the new
     * candidates, at the classifier's time.
     */
    method CheckAllUnassignedForObviousBlocks() returns (ok: bool)
      requires Valid()
      modifies td`candidateBlocks, at`table
      ensures Valid()
      ensures PassedFrom(old(td.candidateBlocks), old(at.Snapshot()), ok)
    {
      var scored := ScoreBuckets();
      if !scored {
        return false;
      }
      ok := RunPass();
    }
  }

  /** A step that touches none of the classifier's objects leaves its invariant and its table alone. */
  twostate lemma ClassifierUntouched(new tc: TripClassifier)
    requires old(allocated(tc)) && old(tc.Valid())
    requires unchanged(tc, tc.td, tc.at) && unchanged(tc.td.Buckets()) && unchanged(tc.at.Objects())
    ensures tc.Valid() && tc.at.Snapshot() == old(tc.at.Snapshot()) && tc.td.Buckets() == old(tc.td.Buckets())
  {
    ScorerUntouched(tc.td);
    TableUntouched(tc.at);
  }
}
