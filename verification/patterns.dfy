/** The pattern scoring shared by both heuristic evaluators: the greedy pair matching
    of get_row_score and the per-board sum of square bonuses, blocks, two-in-a-rows and
    the fork bonus. The two evaluators differ only in the weights they plug in. */
module Patterns {
  import opened Sorting
  import opened PairSearch

  function RemoveAt(s: seq<int>, i: int): (r: seq<int>)
    requires 0 <= i < |s|
    ensures |r| == |s| - 1
    ensures multiset(r) == multiset(s) - multiset{s[i]}
    ensures Sorted(s) ==> Sorted(r)
  {
    var r := s[..i] + s[i + 1..];
    assert multiset(s) == multiset(s[..i]) + multiset{s[i]} + multiset(s[i + 1..]) by {
      assert s == s[..i] + [s[i]] + s[i + 1..];
    }
    assert forall k :: 0 <= k < |r| ==> r[k] == s[if k < i then k else k + 1];
    r
  }

  /** The values taken by a list of matched pairs. */
  function PairValues(m: seq<(int, int)>): (r: multiset<int>)
  {
    if m == [] then multiset{} else multiset{m[0].0, m[0].1} + PairValues(m[1..])
  }

  /** get_row_score's matching: on a copy of `sp`, repeatedly find with the two-pointer
      scan a pair completing a line with `ms` (values summing to 15 - ms), remove both
      entries, and stop at the first scan that finds nothing. */
  function GreedyMatches(ms: int, sp: seq<int>): (m: seq<(int, int)>)
    ensures forall k :: 0 <= k < |m| ==> ms + m[k].0 + m[k].1 == 15
    ensures |sp| < 2 ==> m == []
    ensures |sp| >= 2 && Sorted(sp) ==> (m != [] <==> HasPair(sp, 15 - ms, 0, |sp| - 1))
    decreases |sp|
  {
    if |sp| < 2 then []
    else
      var found := FindPair(sp, 15 - ms, 0, |sp| - 1);
      if found.None? then []
      else
        var (l, r) := found.value;
        var rest := RemoveTwo(sp, l, r);
        [(sp[l], sp[r])] + GreedyMatches(ms, rest)
  }

  /** The matching never uses an entry twice: the matched values form a sub-multiset of
      the list. */
  lemma {:induction false} MatchesConsume(ms: int, sp: seq<int>)
    ensures PairValues(GreedyMatches(ms, sp)) <= multiset(sp)
    decreases |sp|
  {
    if |sp| >= 2 {
      var found := FindPair(sp, 15 - ms, 0, |sp| - 1);
      if found.Some? {
        var (l, r) := found.value;
        var rest := RemoveTwo(sp, l, r);
        MatchesConsume(ms, rest);
        PrependPair(sp[l], sp[r], GreedyMatches(ms, rest));
      }
    }
  }

  lemma PrependPair(x: int, y: int, m: seq<(int, int)>)
    ensures PairValues([(x, y)] + m) == multiset{x, y} + PairValues(m)
  {
    assert ([(x, y)] + m)[1..] == m;
  }

  /** Both matched entries removed, the right one first so the left index stays put. */
  function RemoveTwo(s: seq<int>, l: int, r: int): (t: seq<int>)
    requires 0 <= l < r < |s|
    ensures |t| == |s| - 2
    ensures multiset(t) + multiset{s[l], s[r]} == multiset(s)
  {
    var s1 := RemoveAt(s, r);
    assert s1[l] == s[l];
    RemoveAt(s1, l)
  }

  lemma {:induction false} PairValuesSize(m: seq<(int, int)>)
    ensures |PairValues(m)| == 2 * |m|
  {
    if m != [] {
      PairValuesSize(m[1..]);
    }
  }

  /** Each match consumes two entries, so there are at most half as many matches as
      entries. */
  lemma PairsBound(ms: int, sp: seq<int>)
    ensures 2 * |GreedyMatches(ms, sp)| <= |sp|
  {
    var m := GreedyMatches(ms, sp);
    MatchesConsume(ms, sp);
    PairValuesSize(m);
    SubMultisetSize(PairValues(m), multiset(sp));
  }

  lemma SubMultisetSize(a: multiset<int>, b: multiset<int>)
    requires a <= b
    ensures |a| <= |b|
  {
    assert b == a + (b - a);
  }

  /** Square weights for own values, pair units for blocks and two-in-a-rows, and the
      fork bonus. */
  datatype Weights = Weights(corner: nat, center: nat, block: nat, twoRow: nat, fork: nat)

  /** MS_CORNERS: the magic values of the four corner cells. */
  predicate IsCornerValue(v: int) { v == 2 || v == 4 || v == 6 || v == 8 }

  /** MS_FORKS: the corner values and the centre value 5. */
  const ForkValues: set<int> := {2, 4, 5, 6, 8}

  predicate IsForkValue(v: int) { v in ForkValues }

  /** The bonus for holding a square: corner first, then centre. */
  function SquareBonus(w: Weights, v: int): (r: nat)
  {
    if IsCornerValue(v) then w.corner else if v == 5 then w.center else 0
  }

  /** The number of pairs get_row_score matches: none below two entries, at most one
      per two entries. */
  function Units(ms: int, sp: seq<int>): (n: nat)
    ensures |sp| < 2 ==> n == 0
    ensures 2 * n <= |sp|
  {
    PairsBound(ms, sp);
    |GreedyMatches(ms, sp)|
  }

  /** get_row_score: a whole number of `unit`s, one per matched pair. */
  function RowScore(unit: nat, ms: int, sp: seq<int>): (r: nat)
    ensures |sp| < 2 ==> r == 0
    ensures r == unit * Units(ms, sp)
  {
    unit * Units(ms, sp)
  }

  /** Own squares: each earns its square bonus plus the blocks it makes against the
      opponent's values. */
  function OwnScore(w: Weights, given: seq<int>, other: seq<int>): (r: nat)
  {
    if given == [] then 0
    else SquareBonus(w, given[0]) + RowScore(w.block, given[0], other) + OwnScore(w, given[1..], other)
  }

  /** Empty squares: each earns the two-in-a-rows it would complete for the own side. */
  function EmptyScore(w: Weights, empty: seq<int>, given: seq<int>): (r: nat)
  {
    if empty == [] then 0 else RowScore(w.twoRow, empty[0], given) + EmptyScore(w, empty[1..], given)
  }

  /** How many entries of s lie in f. */
  function CountIn(s: seq<int>, f: set<int>): (n: nat)
    ensures n <= |s|
  {
    if s == [] then 0 else (if s[0] in f then 1 else 0) + CountIn(s[1..], f)
  }

  /** The values 1..9 that neither side holds, ascending from `from`. */
  function EmptyValues(given: seq<int>, other: seq<int>, from: nat): (r: seq<int>)
    requires 1 <= from <= 10
    ensures forall v :: v in r <==> from <= v <= 9 && v !in given && v !in other
    ensures forall k :: 0 <= k < |r| ==> from <= r[k]
    ensures Sorted(r)
    decreases 10 - from
  {
    if from == 10 then []
    else if from in given || from in other then EmptyValues(given, other, from + 1)
    else [from] + EmptyValues(given, other, from + 1)
  }

  /** The undecided-board score for the side holding `given` against `other`: square
      bonuses and blocks, two-in-a-rows through empty squares, and the fork bonus when
      at least three own values are corners or the centre. */
  function PatternScore(w: Weights, given: seq<int>, other: seq<int>): (r: nat)
  {
    OwnScore(w, given, other) + EmptyScore(w, EmptyValues(given, other, 1), given)
      + (if CountIn(given, ForkValues) >= 3 then w.fork else 0)
  }

  /** The fork bonus is earned exactly when three distinct own values are corners or the
      centre. */
  lemma ForkBonus(w: Weights, given: seq<int>, other: seq<int>)
    requires NoDup(given)
    ensures PatternScore(w, given, other) ==
      OwnScore(w, given, other) + EmptyScore(w, EmptyValues(given, other, 1), given)
      + (if |Elems(given) * ForkValues| >= 3 then w.fork else 0)
  {
    CountInIsCard(given, ForkValues);
  }

  /** Counting the entries of a duplicate-free list that lie in f counts the distinct
      values in f. */
  lemma {:induction false} CountInIsCard(s: seq<int>, f: set<int>)
    requires NoDup(s)
    ensures CountIn(s, f) == |Elems(s) * f|
  {
    if s != [] {
      var t := s[1..];
      assert NoDup(t) by {
        forall i, j | 0 <= i < j < |t| ensures t[i] != t[j] {
          assert t[i] == s[i + 1] && t[j] == s[j + 1];
        }
      }
      CountInIsCard(t, f);
      ElemsCons(s);
      CardCons(s[0], Elems(t), f);
    }
  }

  /** Adding a new element to a set adds one to its count in f exactly when it is in f. */
  lemma CardCons(a: int, e: set<int>, f: set<int>)
    requires a !in e
    ensures |({a} + e) * f| == (if a in f then 1 else 0) + |e * f|
  {
    if a in f {
      assert ({a} + e) * f == {a} + e * f;
    } else {
      assert ({a} + e) * f == e * f;
    }
  }

  lemma ElemsCons(s: seq<int>)
    requires s != [] && NoDup(s)
    ensures Elems(s) == {s[0]} + Elems(s[1..]) && s[0] !in Elems(s[1..])
  {
    assert forall x :: x in s <==> x == s[0] || x in s[1..];
  }
}
