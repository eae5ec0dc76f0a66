/** The two-pointer scan shared by the win test and the heuristic's row score: on a
    sorted list, walk a left and a right index towards each other looking for two
    entries whose sum is a target. */
module PairSearch {
  import opened Wrappers
  import opened Sorting

  /** Some pair of positions p < q inside [left, right] sums to target. */
  predicate HasPair(s: seq<int>, target: int, left: int, right: int)
    requires 0 <= left && right < |s|
  {
    exists p, q :: left <= p < q <= right && s[p] + s[q] == target
  }

  /** Move `left` up while the sum is too small, `right` down while it is too big, and
      stop at the first exact match or when the indices meet. */
  function FindPair(s: seq<int>, target: int, left: nat, right: nat): (r: Option<(nat, nat)>)
    requires left <= right < |s|
    ensures r.Some? ==> left <= r.value.0 < r.value.1 <= right && s[r.value.0] + s[r.value.1] == target
    ensures Sorted(s) ==> (r.Some? <==> HasPair(s, target, left, right))
    decreases right - left
  {
    if left == right then None
    else if s[left] + s[right] < target then
      assert Sorted(s) ==> forall q :: left < q <= right ==> s[left] + s[q] < target;
      FindPair(s, target, left + 1, right)
    else if s[left] + s[right] > target then
      assert Sorted(s) ==> forall p :: left <= p < right ==> s[p] + s[right] > target;
      FindPair(s, target, left, right - 1)
    else Some((left, right))
  }
}
