/** The places of the elements of a sequence that have a property. */
module Places {

  /** All places of such elements, in order. */
  ghost predicate PlacesOf<T>(xs: seq<T>, has: T -> bool, at: seq<nat>) {
    Rising(at) && Only(xs, has, at) && All(xs, has, at)
  }

  predicate Rising(at: seq<nat>) { forall i, j :: 0 <= i < j < |at| ==> at[i] < at[j] }

  predicate Only<T>(xs: seq<T>, has: T -> bool, at: seq<nat>) {
    forall k :: 0 <= k < |at| ==> at[k] < |xs| && has(xs[at[k]])
  }

  predicate All<T>(xs: seq<T>, has: T -> bool, at: seq<nat>) {
    forall i :: 0 <= i < |xs| && has(xs[i]) ==> i in at
  }

  function Longer(at: seq<nat>, here: bool, n: nat): seq<nat> { if here then at + [n] else at }

  lemma OnlySnoc<T>(pre: seq<T>, x: T, has: T -> bool, at: seq<nat>)
    requires Rising(at) && Only(pre, has, at)
    ensures Rising(Longer(at, has(x), |pre|)) && Only(pre + [x], has, Longer(at, has(x), |pre|))
  {
  }

  lemma AllSnoc<T>(pre: seq<T>, x: T, has: T -> bool, at: seq<nat>)
    requires All(pre, has, at)
    ensures All(pre + [x], has, Longer(at, has(x), |pre|))
  {
    var xs, more := pre + [x], Longer(at, has(x), |pre|);
    forall i | 0 <= i < |xs| && has(xs[i]) ensures i in more {
      if i < |pre| {
        assert has(pre[i]) && i in at;
      } else {
        assert xs[i] == x && more[|at|] == i;
      }
    }
  }

  lemma PlacesSnoc<T>(pre: seq<T>, x: T, has: T -> bool, at: seq<nat>)
    requires PlacesOf(pre, has, at)
    ensures PlacesOf(pre + [x], has, Longer(at, has(x), |pre|))
  {
    OnlySnoc(pre, x, has, at);
    AllSnoc(pre, x, has, at);
  }
}
