/** Optional values: the model's stand-in for Python's `None`. */
module Wrappers {

  datatype Option<+T> = None | Some(value: T) {

    /** The wrapped value, or `default` when there is none. */
    function GetOr(default: T): T {
      match this
      case Some(v) => v
      case None => default
    }
  }

  /**
   * `f` applied to every element of `xs`, in order, when no application
   * fails: a loop that stops at the first failure.
   */
  function Collect<A, B>(f: A -> Option<B>, xs: seq<A>): (r: Option<seq<B>>)
    ensures r.Some? ==> |r.value| == |xs|
    decreases |xs|
  {
    if |xs| == 0 then Some([])
    else
      match Collect(f, xs[..|xs| - 1])
      case None => None
      case Some(ys) =>
        match f(xs[|xs| - 1])
        case None => None
        case Some(y) => Some(ys + [y])
  }

  /** The loop succeeds exactly when every application does, and then holds every result, in order. */
  lemma {:induction false} CollectAllOrNothing<A, B>(f: A -> Option<B>, xs: seq<A>)
    ensures Collect(f, xs).Some? <==> forall i :: 0 <= i < |xs| ==> f(xs[i]).Some?
    ensures Collect(f, xs).Some? ==> forall i :: 0 <= i < |xs| ==> f(xs[i]) == Some(Collect(f, xs).value[i])
    decreases |xs|
  {
    if |xs| > 0 {
      var n := |xs| - 1;
      CollectAllOrNothing(f, xs[..n]);
      assert forall i :: 0 <= i < n ==> xs[..n][i] == xs[i];
    }
  }

  /** Extending the input by one element extends a successful result by that element's value. */
  lemma CollectStep<A, B>(f: A -> Option<B>, xs: seq<A>, k: nat)
    requires k < |xs|
    ensures Collect(f, xs[..k + 1]) ==
      match Collect(f, xs[..k])
      case None => None
      case Some(ys) => match f(xs[k]) case None => None case Some(y) => Some(ys + [y])
  {
    assert xs[..k + 1][..k] == xs[..k];
  }

  /** Once a prefix fails, the whole loop fails. */
  lemma {:induction false} CollectNoneStays<A, B>(f: A -> Option<B>, xs: seq<A>, k: nat)
    requires k <= |xs|
    requires Collect(f, xs[..k]).None?
    ensures Collect(f, xs).None?
    decreases |xs| - k
  {
    if k < |xs| {
      CollectStep(f, xs, k);
      CollectNoneStays(f, xs, k + 1);
    } else {
      assert xs[..k] == xs;
    }
  }
}
