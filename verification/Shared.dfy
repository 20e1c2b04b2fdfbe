// What several models use.

module Shared {

  datatype Option<+T> = None | Some(value: T)

  // kept are just the elements of s for which p holds, in order: at lists their places.
  ghost predicate Selects<T>(p: T -> bool, s: seq<T>, kept: seq<T>, at: seq<nat>) {
    && (forall i, j :: 0 <= i < j < |at| ==> at[i] < at[j])
    && |kept| == |at| && (forall i :: 0 <= i < |at| ==> at[i] < |s| && p(s[at[i]]) && kept[i] == s[at[i]])
    && (forall k {:trigger s[k]} :: 0 <= k < |s| && p(s[k]) ==> k in at)
  }

  lemma SelectsMore<T>(p: T -> bool, init: seq<T>, x: T, kept: seq<T>, at: seq<nat>)
    requires Selects(p, init, kept, at)
    ensures Selects(p, init + [x], if p(x) then kept + [x] else kept, if p(x) then at + [|init|] else at)
  {
    var s := init + [x];
    var all := if p(x) then at + [|init|] else at;
    forall k {:trigger s[k]} | 0 <= k < |s| && p(s[k]) ensures k in all {
      if k < |init| { assert init[k] == s[k] && k in at; } else { assert all[|at|] == k; }
    }
  }

  // One round less leaves room for all the steps of a round.
  lemma RoundLess(a: nat, b: nat, n: nat)
    requires a < b
    ensures a * n + n <= b * n
  {
    assert (b - a - 1) * n >= 0;
    assert b * n == a * n + n + (b - a - 1) * n;
  }
}
