/** Selections from a sequence, told apart by position rather than by value. */
module Subsequences {

  ghost predicate Increasing(ps: seq<nat>) {
    forall i, j :: 0 <= i < j < |ps| ==> ps[i] < ps[j]
  }

  /** `kept` holds what stands in `all` at the positions ps, in order and once each. */
  ghost predicate Selects<T>(all: seq<T>, ps: seq<nat>, kept: seq<T>) {
    && Increasing(ps)
    && |kept| == |ps|
    && forall i :: 0 <= i < |ps| ==> ps[i] < |all| && kept[i] == all[ps[i]]
  }

  lemma SelectOneMore<T>(all: seq<T>, ps: seq<nat>, kept: seq<T>, x: T)
    requires Selects(all, ps, kept)
    ensures Selects(all + [x], ps, kept)
    ensures Selects(all + [x], ps + [|all|], kept + [x])
  {
  }
}
