/**
 * Picking out the items of a list that pass a test: lists kept in increasing
 * order, and sets filled by a loop of `result.add(x)`.
 */
module Selection {

  /** Items in strictly increasing rank. */
  predicate Increasing<T>(xs: seq<T>, rank: T -> int) {
    forall i, j :: 0 <= i < j < |xs| ==> rank(xs[i]) < rank(xs[j])
  }

  /** The items of `xs` that pass `p`, as a set. */
  function Chosen<T>(xs: seq<T>, p: T -> bool): set<T> {
    set x | x in xs && p(x)
  }

  /** Going one item further adds that item exactly when it passes. */
  lemma ChosenPrefixStep<T>(xs: seq<T>, i: nat, p: T -> bool)
    requires i < |xs|
    ensures Chosen(xs[..i + 1], p) == Chosen(xs[..i], p) + (if p(xs[i]) then {xs[i]} else {})
  {
    assert xs[..i + 1] == xs[..i] + [xs[i]];
  }

  /** The whole list is its longest prefix. */
  lemma ChosenAll<T>(xs: seq<T>, p: T -> bool)
    ensures Chosen(xs[..|xs|], p) == Chosen(xs, p)
  {
    assert xs[..|xs|] == xs;
  }
}
