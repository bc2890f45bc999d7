/**
 * Linear search, the shape of every `for x in xs: if p(x): return …` in the
 * modelled code.
 */
module Lists {
  import opened Wrappers

  /** The index of the first element satisfying `p`, or `None` when there is none. */
  function FirstIndex<T>(xs: seq<T>, p: T -> bool): (r: Option<nat>)
    ensures r.Some? ==> r.value < |xs| && p(xs[r.value])
    ensures r.Some? ==> forall j :: 0 <= j < r.value ==> !p(xs[j])
    ensures r.None? ==> forall j :: 0 <= j < |xs| ==> !p(xs[j])
  {
    if |xs| == 0 then None
    else if p(xs[0]) then Some(0)
    else
      match FirstIndex(xs[1..], p)
      case None => None
      case Some(k) =>
        assert forall j :: 1 <= j < k + 1 ==> xs[j] == xs[1..][j - 1];
        Some(k + 1)
  }

  /** The first element satisfying `p` is found at its own index. */
  lemma FirstIndexAt<T>(xs: seq<T>, p: T -> bool, k: nat)
    requires k < |xs| && p(xs[k])
    requires forall j :: 0 <= j < k ==> !p(xs[j])
    ensures FirstIndex(xs, p) == Some(k)
  {
  }
}
