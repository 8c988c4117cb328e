/** `AssignedTrip`: the trip a device is running, how far along it the device is, and the stops passed so far. */
module AssignedTripModel {
  import opened Blocks

  /** The fields of an assignment, as a value. */
  datatype Assignment = Assignment(
    trip: ScheduledTrip,
    block: BlockRec,
    time: int,
    post: real,
    postMax: real,
    arrivedStop: int,
    departedStop: int)

  /** How far the post may fall below the recorded maximum before the device counts as having gone back, in km. */
  const BacktrackKm: real := 0.25

  /** What the constructor stores: both the post and its maximum start at `initPost`. */
  function NewAssignment(trip: ScheduledTrip, block: BlockRec, initTime: int, initPost: real,
                         stopSeqArr: int, stopSeqDep: int): (a: Assignment)
    ensures a.post == a.postMax == initPost
    ensures a.trip == trip && a.block == block && a.time == initTime
    ensures a.arrivedStop == stopSeqArr && a.departedStop == stopSeqDep
  {
    Assignment(trip, block, initTime, initPost, initPost, stopSeqArr, stopSeqDep)
  }

  /**
   * The `post` setter: the new post is always stored, and the maximum is
   * raised to it only when it exceeds the current post (not the maximum).
   */
  function WithPost(a: Assignment, newPost: real): Assignment {
    a.(post := newPost, postMax := if newPost > a.post then newPost else a.postMax)
  }

  /** `hasBacktracked`: strictly more than 0.25 km below the recorded maximum. */
  predicate Backtracked(a: Assignment) {
    a.postMax - a.post > BacktrackKm
  }

  /** The invariant the setter keeps: the post never exceeds the recorded maximum. */
  predicate PostBelowMax(a: Assignment) {
    a.post <= a.postMax
  }

  /** A fresh assignment and every set keep the post at or below the maximum; only post and maximum change. */
  lemma WithPostKeepsInvariant(a: Assignment, newPost: real)
    requires PostBelowMax(a)
    ensures PostBelowMax(WithPost(a, newPost))
    ensures WithPost(a, newPost).post == newPost
    ensures WithPost(a, newPost) == a.(post := newPost, postMax := WithPost(a, newPost).postMax)
  {
  }

  /** Setting a post above the current one leaves nothing to backtrack from; not above it leaves the maximum alone. */
  lemma WithPostCases(a: Assignment, newPost: real)
    ensures newPost > a.post ==> WithPost(a, newPost).postMax == newPost && !Backtracked(WithPost(a, newPost))
    ensures newPost <= a.post ==> WithPost(a, newPost).postMax == a.postMax
  {
  }

  /** Setting each post of `ps` in turn. */
  function SetAll(a: Assignment, ps: seq<real>): Assignment
    decreases |ps|
  {
    if |ps| == 0 then a else SetAll(WithPost(a, ps[0]), ps[1..])
  }

  /**
   * The maximum is not the largest post ever set: from 0, setting 1, then
   * 0.5, then 0.7 leaves a maximum of 0.7, because 0.7 exceeds the current
   * post 0.5. The device then does not count as having gone back.
   */
  lemma MaximumFollowsCurrentPost(a: Assignment)
    requires a.post == 0.0 && a.postMax == 0.0
    ensures SetAll(a, [1.0, 0.5, 0.7]).postMax == 0.7
    ensures SetAll(a, [1.0, 0.5, 0.7]).post == 0.7
    ensures !Backtracked(SetAll(a, [1.0, 0.5, 0.7]))
  {
    assert [1.0, 0.5, 0.7][1..] == [0.5, 0.7];
    assert [0.5, 0.7][1..] == [0.7];
    assert [0.7][1..] == [];
  }

  /** A drop of exactly 0.25 km is not a backtrack; anything more is. */
  lemma BacktrackIsStrict(a: Assignment)
    ensures a.postMax - a.post == 0.25 ==> !Backtracked(a)
    ensures a.postMax - a.post > 0.25 ==> Backtracked(a)
  {
  }

  /** One assignment: the table of assigned trips changes its time, post and stops in place. */
  class AssignedTrip {
    const trip: ScheduledTrip
    const block: BlockRec
    var time: int
    var post: real
    var postMax: real
    var arrivedStop: int
    var departedStop: int

    function Value(): Assignment
      reads this
    {
      Assignment(trip, block, time, post, postMax, arrivedStop, departedStop)
    }

    ghost predicate Valid()
      reads this
    {
      PostBelowMax(Value())
    }

    constructor (trip: ScheduledTrip, block: BlockRec, initTime: int, initPost: real, stopSeqArr: int, stopSeqDep: int)
      ensures Valid()
      ensures Value() == NewAssignment(trip, block, initTime, initPost, stopSeqArr, stopSeqDep)
    {
      this.trip, this.block := trip, block;
      time := initTime;
      post, postMax := initPost, initPost;
      arrivedStop, departedStop := stopSeqArr, stopSeqDep;
    }

    /** The `post` setter. */
    method SetPost(newPost: real)
      requires Valid()
      modifies this
      ensures Valid()
      ensures Value() == WithPost(old(Value()), newPost)
    {
      if newPost > post {
        postMax := newPost;
      }
      post := newPost;
    }

    /** `hasBacktracked`. */
    predicate HasBacktracked()
      reads this
    {
      Backtracked(Value())
    }
  }
}
