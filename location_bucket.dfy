/** `LocationBucket`: the recent fixes of one device, kept in timestamp order. */
module LocationBuckets {
  import opened Wrappers
  import opened Locations

  function Ts(l: Location): int
    requires l.ts.Some?
  {
    l.ts.value
  }

  /** Every fix has a timestamp and a position, and each timestamp is strictly later than the one before. */
  predicate Ordered(s: seq<Location>) {
    (forall i :: 0 <= i < |s| ==> s[i].ts.Some? && HasLatAndLon(s[i])) &&
    (forall i :: 0 < i < |s| ==> Ts(s[i - 1]) < Ts(s[i]))
  }

  /** In an ordered list every fix is strictly later than every fix before it, not only the previous one. */
  lemma {:induction false} OrderedIncreasing(s: seq<Location>)
    requires Ordered(s)
    ensures forall i, j :: 0 <= i < j < |s| ==> Ts(s[i]) < Ts(s[j])
    decreases |s|
  {
    if |s| > 1 {
      var init := s[..|s| - 1];
      assert Ordered(init);
      OrderedIncreasing(init);
      forall i, j | 0 <= i < j < |s|
        ensures Ts(s[i]) < Ts(s[j])
      {
        if j < |s| - 1 {
          assert Ts(init[i]) < Ts(init[j]);
        } else if i < |s| - 2 {
          assert Ts(init[i]) < Ts(init[|s| - 2]);
        }
      }
    }
  }

  predicate HasTs(s: seq<Location>, t: int) {
    exists k :: 0 <= k < |s| && s[k].ts == Some(t)
  }

  /** The comprehension `[loc for loc in s if loc.ts >= tOld]`. */
  function KeepSince(s: seq<Location>, tOld: int): (r: seq<Location>)
    requires forall i :: 0 <= i < |s| ==> s[i].ts.Some?
    ensures |r| <= |s|
    ensures forall i :: 0 <= i < |r| ==> r[i].ts.Some?
    decreases |s|
  {
    if |s| == 0 then []
    else
      var init := KeepSince(s[..|s| - 1], tOld);
      if Ts(s[|s| - 1]) >= tOld then init + [s[|s| - 1]] else init
  }

  /** Exactly the stored fixes at or after `tOld` are kept (there is no upper bound). */
  lemma {:induction false} KeepSinceMembers(s: seq<Location>, tOld: int)
    requires forall i :: 0 <= i < |s| ==> s[i].ts.Some?
    ensures forall l :: l in KeepSince(s, tOld) <==> l in s && Ts(l) >= tOld
    decreases |s|
  {
    if |s| > 0 {
      KeepSinceMembers(s[..|s| - 1], tOld);
      assert s == s[..|s| - 1] + [s[|s| - 1]];
    }
  }

  /** The kept fixes are a subsequence, so order and the bucket invariant carry over. */
  lemma {:induction false} KeepSinceOrdered(s: seq<Location>, tOld: int)
    requires Ordered(s)
    ensures Ordered(KeepSince(s, tOld))
    ensures forall i :: 0 <= i < |KeepSince(s, tOld)| ==> Ts(KeepSince(s, tOld)[i]) >= tOld
    decreases |s|
  {
    if |s| > 0 {
      var init := s[..|s| - 1];
      assert Ordered(init);
      KeepSinceOrdered(init, tOld);
      KeepSinceMembers(init, tOld);
      OrderedIncreasing(s);
      var r := KeepSince(init, tOld);
      forall i | 0 <= i < |r|
        ensures Ts(r[i]) < Ts(s[|s| - 1])
      {
        assert r[i] in init;
      }
    }
  }

  /** Filtering twice with the same bound keeps what filtering once keeps. */
  lemma {:induction false} KeepSinceIdempotent(s: seq<Location>, tOld: int)
    requires forall i :: 0 <= i < |s| ==> s[i].ts.Some?
    ensures KeepSince(KeepSince(s, tOld), tOld) == KeepSince(s, tOld)
    decreases |s|
  {
    if |s| > 0 {
      var init := s[..|s| - 1];
      KeepSinceIdempotent(init, tOld);
      var r := KeepSince(init, tOld);
      if Ts(s[|s| - 1]) >= tOld {
        assert (r + [s[|s| - 1]])[..|r|] == r;
      }
    }
  }

  /** Two or more fixes of an ordered list span a positive time, which the scorer divides by. */
  lemma SpanPositive(s: seq<Location>)
    requires Ordered(s) && |s| >= 2
    ensures Ts(s[|s| - 1]) - Ts(s[0]) > 0
  {
    OrderedIncreasing(s);
  }

  /** `s.append(loc); s.sort(key=ts)` when `loc`'s timestamp is new: it goes after every earlier fix. */
  function InsertByTs(s: seq<Location>, loc: Location, k: nat): seq<Location>
    requires k <= |s|
  {
    s[..k] + [loc] + s[k..]
  }

  /** Inserting anywhere adds exactly that fix. */
  lemma InsertByTsAdds(s: seq<Location>, loc: Location, k: nat)
    requires k <= |s|
    ensures multiset(InsertByTs(s, loc, k)) == multiset(s) + multiset{loc}
  {
    assert s == s[..k] + s[k..];
  }

  /** Inserting a fix with a new timestamp at the first later fix keeps the list ordered. */
  lemma InsertByTsOrdered(s: seq<Location>, loc: Location, k: nat)
    requires Ordered(s) && HasLatAndLon(loc) && loc.ts.Some? && k <= |s|
    requires forall j :: 0 <= j < k ==> Ts(s[j]) < Ts(loc)
    requires k < |s| ==> Ts(s[k]) > Ts(loc)
    ensures Ordered(InsertByTs(s, loc, k))
  {
    var r := InsertByTs(s, loc, k);
    assert |r| == |s| + 1;
    assert forall a :: 0 <= a < |r| ==> r[a] == (if a < k then s[a] else if a == k then loc else s[a - 1]);
    assert forall a :: 0 <= a < |r| ==> r[a].ts.Some? && HasLatAndLon(r[a]);
    forall b | 0 < b < |r|
      ensures Ts(r[b - 1]) < Ts(r[b])
    {
      if b < k {
        assert Ts(s[b - 1]) < Ts(s[b]);
      } else if b == k {
        assert Ts(s[b - 1]) < Ts(loc);
      } else if b == k + 1 {
        assert Ts(loc) < Ts(s[k]);
      } else {
        assert Ts(s[b - 2]) < Ts(s[b - 1]);
      }
    }
  }

  /** Number of leading fixes strictly earlier than `loc`: where the re-sort puts an appended `loc`. */
  function TsInsertionPoint(s: seq<Location>, loc: Location): (k: nat)
    requires forall i :: 0 <= i < |s| ==> s[i].ts.Some?
    requires loc.ts.Some?
    ensures k <= |s|
    decreases |s|
  {
    if |s| == 0 || Ts(s[0]) >= Ts(loc) then 0 else 1 + TsInsertionPoint(s[1..], loc)
  }

  /** On an ordered list a scan that stops at the first fix not earlier than `loc` finds the insertion point. */
  lemma {:induction false} ScanIsTsInsertionPoint(s: seq<Location>, loc: Location, k: nat)
    requires Ordered(s) && loc.ts.Some? && k <= |s|
    requires forall j :: 0 <= j < k ==> Ts(s[j]) < Ts(loc)
    requires k < |s| ==> Ts(s[k]) >= Ts(loc)
    ensures TsInsertionPoint(s, loc) == k
    decreases |s|
  {
    if k > 0 {
      assert Ordered(s[1..]);
      ScanIsTsInsertionPoint(s[1..], loc, k - 1);
    }
  }

  /** The list `addLocation` leaves: unchanged for a fix it turns away, else the fix inserted in time order. */
  function AddedLocation(s: seq<Location>, loc: Location): seq<Location>
    requires forall i :: 0 <= i < |s| ==> s[i].ts.Some?
    requires loc.ts.Some?
  {
    if !HasLatAndLon(loc) || HasTs(s, Ts(loc)) then s else InsertByTs(s, loc, TsInsertionPoint(s, loc))
  }

  class LocationBucket {
    const deviceId: Option<string>
    var locationList: seq<Location>
    var time: int

    ghost predicate Valid()
      reads this
    {
      Ordered(locationList)
    }

    constructor (deviceId: Option<string>)
      ensures Valid()
      ensures this.deviceId == deviceId && locationList == [] && time == 0
    {
      this.deviceId := deviceId;
      locationList := [];
      time := 0;
    }

    /**
     * `addLocation`: a fix without both coordinates, or with a timestamp
     * already stored, is turned away (the method returns False and the list
     * is unchanged; the stored fix wins even if its coordinates differ).
     * Otherwise the fix is inserted at its place in time order and the
     * method falls off its end, returning None.
     */
    method AddLocation(loc: Location) returns (r: Option<bool>)
      requires Valid() && loc.ts.Some?
      modifies this
      ensures Valid()
      ensures time == old(time)
      ensures r == Some(false) <==> !HasLatAndLon(loc) || HasTs(old(locationList), Ts(loc))
      ensures r == Some(false) ==> locationList == old(locationList)
      ensures r != Some(false) ==>
        r.None? && exists k :: 0 <= k <= |old(locationList)| && locationList == InsertByTs(old(locationList), loc, k)
      ensures r.None? ==> multiset(locationList) == multiset(old(locationList)) + multiset{loc}
      ensures locationList == AddedLocation(old(locationList), loc)
    {
      if !HasLatAndLon(loc) {
        return Some(false);
      }
      var i := 0;
      while i < |locationList|
        invariant 0 <= i <= |locationList|
        invariant forall j :: 0 <= j < i ==> locationList[j].ts != loc.ts
      {
        if locationList[i].ts == loc.ts {
          return Some(false);
        }
        i := i + 1;
      }
      var s := locationList;
      var k := 0;
      while k < |s| && Ts(s[k]) < Ts(loc)
        invariant 0 <= k <= |s|
        invariant forall j :: 0 <= j < k ==> Ts(s[j]) < Ts(loc)
      {
        k := k + 1;
      }
      assert !HasTs(s, Ts(loc));
      ScanIsTsInsertionPoint(s, loc, k);
      InsertByTsOrdered(s, loc, k);
      InsertByTsAdds(s, loc, k);
      locationList := InsertByTs(s, loc, k);
      return None;
    }

    /** The bucket's clock is set from outside, by the scorer's `updateTime`. */
    method SetTime(t: int)
      modifies this
      ensures time == t && locationList == old(locationList)
    {
      time := t;
    }

    /** `getRecent`: the stored fixes at or after `time - ageMillis`, in time order; the bucket is not changed. */
    method GetRecent(ageMillis: int) returns (locList: seq<Location>)
      requires Valid()
      ensures locList == KeepSince(locationList, time - ageMillis)
      ensures Ordered(locList)
    {
      var tOld := time - ageMillis;
      locList := [];
      for i := 0 to |locationList|
        invariant locList == KeepSince(locationList[..i], tOld)
      {
        assert locationList[..i + 1][..i] == locationList[..i];
        if Ts(locationList[i]) >= tOld {
          locList := locList + [locationList[i]];
        }
      }
      assert locationList[..|locationList|] == locationList;
      KeepSinceOrdered(locationList, tOld);
    }

    /** `clearOld`: keep exactly the fixes `getRecent` would return; the re-sort is a no-op on an ordered list. */
    method ClearOld(ageMillis: int)
      requires Valid()
      modifies this
      ensures Valid()
      ensures time == old(time)
      ensures locationList == KeepSince(old(locationList), time - ageMillis)
    {
      var kept := GetRecent(ageMillis);
      locationList := kept;
    }
  }
}
