/** ExpectiMaxPlayer: a search in which every move of the player is followed by an
    averaging ply over the opponent's replies, and make_move on top of it. */
module Expectimax {
  import opened Wrappers
  import opened Floats
  import opened Assets
  import opened GameState
  import opened StateChecker
  import opened StateUpdater
  import opened BasePlayer
  import opened SearchPolicy
  import opened Minimax

  const DivisionByZero: string := "division by zero"

  /** expectimax.  An averaging ply places the mark of the side given by `maximizing`
      and hands over to the other side; a maximizing ply places X and a minimizing ply
      places O, each handing over to an averaging ply.  An averaging ply with no moves
      divides by zero. */
  function Expecti(s: Search, st: State, prev: int, depth: int, maximizing: bool, averaging: bool): (r: Result<Float>)
    requires ValidTracker(s.tracker) && WellFormed(st) && IsCell(prev) && depth <= s.targetDepth
    ensures r.Err? ==> r.msg == DivisionByZero
    ensures r.Err? ==> !Cutoff(s, st, depth)
    decreases s.targetDepth - depth, 1
  {
    if Cutoff(s, st, depth) then Ok(Leaf(st, prev, maximizing))
    else
      var moves := Moves(s, st, prev);
      if averaging then
        var vals := ExpectiChildren(s, st, moves, 0, depth, SignFor(maximizing), !maximizing, false);
        if vals.Err? then Err(vals.msg) else Mean(vals.value)
      else if maximizing then
        var vals := ExpectiChildren(s, st, moves, 0, depth, X, false, true);
        if vals.Err? then Err(vals.msg) else Ok(FoldMax(vals.value, NegInf))
      else
        var vals := ExpectiChildren(s, st, moves, 0, depth, O, true, true);
        if vals.Err? then Err(vals.msg) else Ok(FoldMin(vals.value, PosInf))
  }

  /** The values of the children reached by moves[i..], or the first failure. */
  function ExpectiChildren(s: Search, st: State, moves: seq<Move>, i: nat, depth: int, sign: Sign,
                           maximizing: bool, averaging: bool): (r: Result<seq<Float>>)
    requires ValidTracker(s.tracker) && WellFormed(st) && CellMoves(moves) && i <= |moves| && depth < s.targetDepth
    ensures r.Ok? ==> |r.value| == |moves| - i
    ensures r.Err? ==> r.msg == DivisionByZero
    decreases s.targetDepth - depth, 0, |moves| - i
  {
    if i == |moves| then Ok([])
    else
      var m := moves[i];
      assert m in moves;
      var v := Expecti(s, Child(st, m, sign), m.1, depth + 1, maximizing, averaging);
      if v.Err? then Err(v.msg)
      else
        var rest := ExpectiChildren(s, st, moves, i + 1, depth, sign, maximizing, averaging);
        if rest.Err? then Err(rest.msg) else Ok([v.value] + rest.value)
  }

  /** An averaging ply fails exactly when it has no move to average over or one of its
      replies fails; otherwise its value is the mean of its replies' values, which lies
      within any bounds the replies' finite values respect. */
  lemma AveragingPly(s: Search, st: State, prev: int, depth: int, maximizing: bool, lo: real, hi: real)
    requires ValidTracker(s.tracker) && WellFormed(st) && IsCell(prev) && depth <= s.targetDepth && !Cutoff(s, st, depth)
    ensures var moves := Moves(s, st, prev);
      var vals := ExpectiChildren(s, st, moves, 0, depth, SignFor(maximizing), !maximizing, false);
      var r := Expecti(s, st, prev, depth, maximizing, true);
      && (moves == [] ==> r == Err(DivisionByZero))
      && (r.Err? <==> moves == [] || vals.Err?)
      && (vals.Ok? && r.Ok? ==> r.value == DivCount(Sum(vals.value), |vals.value|))
      && (vals.Ok? && vals.value != [] && AllFin(vals.value)
          && (forall i :: 0 <= i < |vals.value| ==> lo <= vals.value[i].v <= hi)
          ==> r.Ok? && r.value.Fin? && lo <= r.value.v <= hi)
  {
    var moves := Moves(s, st, prev);
    var vals := ExpectiChildren(s, st, moves, 0, depth, SignFor(maximizing), !maximizing, false);
    AveragingUnfold(s, st, prev, depth, maximizing);
    if moves == [] {
      assert vals == Ok([]);
    } else if vals.Ok? {
      assert vals.value != [];
    }
    if vals.Ok? && vals.value != [] && AllFin(vals.value)
       && (forall i :: 0 <= i < |vals.value| ==> lo <= vals.value[i].v <= hi) {
      MeanWithinBounds(vals.value, lo, hi);
    }
  }

  lemma AveragingUnfold(s: Search, st: State, prev: int, depth: int, maximizing: bool)
    requires ValidTracker(s.tracker) && WellFormed(st) && IsCell(prev) && depth <= s.targetDepth && !Cutoff(s, st, depth)
    ensures var vals := ExpectiChildren(s, st, Moves(s, st, prev), 0, depth, SignFor(maximizing), !maximizing, false);
      Expecti(s, st, prev, depth, maximizing, true) == (if vals.Err? then Err(vals.msg) else Mean(vals.value))
  {
  }

  /** A maximizing ply is at least every reply's value and equals one of them (or -inf
      when there is none); a minimizing ply dually. */
  lemma ChoosingPly(s: Search, st: State, prev: int, depth: int, maximizing: bool)
    requires ValidTracker(s.tracker) && WellFormed(st) && IsCell(prev) && depth <= s.targetDepth && !Cutoff(s, st, depth)
    ensures var moves := Moves(s, st, prev);
      var vals := ExpectiChildren(s, st, moves, 0, depth, SignFor(maximizing), !maximizing, true);
      var r := Expecti(s, st, prev, depth, maximizing, false);
      vals.Ok? && NoNaN(vals.value) ==>
        && r.Ok? && !r.value.NaN?
        && (forall i :: 0 <= i < |vals.value| ==>
              if maximizing then Le(vals.value[i], r.value) else Le(r.value, vals.value[i]))
        && (r.value == Worst(maximizing) || exists i :: 0 <= i < |vals.value| && r.value == vals.value[i])
  {
  }

  /** The opponent's averaging ply after the mover takes option m, searched from depth 1. */
  function OptionValue(s: Search, st: State, m: Move, sign: Sign): (r: Result<Float>)
    requires ValidTracker(s.tracker) && WellFormed(st) && IsCell(m.0) && IsCell(m.1) && 1 <= s.targetDepth
  {
    Expecti(s, UpdateState(map[], st, m.0, m.1, sign).state, m.1, 1, sign != X, true)
  }

  /** The root search of make_move: each of the mover's options followed by an averaging
      ply of the opponent. */
  function RootExpecti(s: Search, st: State, moves: seq<Move>, i: nat, sign: Sign): (r: Result<seq<Float>>)
    requires ValidTracker(s.tracker) && WellFormed(st) && CellMoves(moves) && i <= |moves| && 1 <= s.targetDepth
    ensures r.Ok? ==> |r.value| == |moves| - i
    ensures r.Err? ==> r.msg == DivisionByZero
    decreases |moves| - i
  {
    if i == |moves| then Ok([])
    else
      var m := moves[i];
      assert m in moves;
      var v := OptionValue(s, st, m, sign);
      if v.Err? then Err(v.msg)
      else
        var rest := RootExpecti(s, st, moves, i + 1, sign);
        if rest.Err? then Err(rest.msg) else Ok([v.value] + rest.value)
  }

  /** The root search fails exactly when some option's search fails, and otherwise lists
      every option's value, in order. */
  lemma {:induction false} RootExpectiValues(s: Search, st: State, moves: seq<Move>, i: nat, sign: Sign)
    requires ValidTracker(s.tracker) && WellFormed(st) && CellMoves(moves) && i <= |moves| && 1 <= s.targetDepth
    ensures var r := RootExpecti(s, st, moves, i, sign);
      && (r.Ok? ==> forall k :: i <= k < |moves| ==>
            (assert moves[k] in moves; OptionValue(s, st, moves[k], sign) == Ok(r.value[k - i])))
      && (r.Err? <==> exists k :: i <= k < |moves| && (assert moves[k] in moves; OptionValue(s, st, moves[k], sign).Err?))
    decreases |moves| - i
  {
    hide Expecti, OptionValue;
    if i < |moves| {
      assert moves[i] in moves;
      RootExpectiValues(s, st, moves, i + 1, sign);
      var r := RootExpecti(s, st, moves, i, sign);
      var rest := RootExpecti(s, st, moves, i + 1, sign);
      if OptionValue(s, st, moves[i], sign).Ok? && rest.Ok? {
        forall k | i <= k < |moves|
          ensures (assert moves[k] in moves; OptionValue(s, st, moves[k], sign) == Ok(r.value[k - i]))
        {
          assert moves[k] in moves;
          if k > i {
            assert r.value[k - i] == rest.value[k - (i + 1)];
          }
        }
      }
    }
  }

  /** make_move: the premove, or the first strictly best option by expectimax value; a
      failing search fails the move. */
  function MakeMove(p: Searcher, t: Tracker, st: State, prev: Option<int>, sign: Sign, random: Move)
    : (r: Result<(Searcher, Option<Move>)>)
    requires ValidTracker(t) && WellFormed(st) && (prev.Some? ==> IsCell(prev.value)) && 1 <= p.targetDepth
    requires IsCell(random.0) && IsCell(random.1)
    ensures var pre := Premove(CountMove(p), st, prev, sign == X, random);
      && (pre.Some? ==> r == Ok((CountMove(p), pre)))
      && (pre.None? && r.Ok? ==>
            r.value.0 == UpdateTargetDepth(CountMove(p))
            && (r.value.1.Some? ==> r.value.1.value in CurrentLegalMoves(t, prev)))
      && (pre.None? && CurrentLegalMoves(t, prev) == [] ==> r == Ok((UpdateTargetDepth(CountMove(p)), None)))
      && (r.Err? ==> r.msg == DivisionByZero)
  {
    var p1 := CountMove(p);
    var pre := Premove(p1, st, prev, sign == X, random);
    if pre.Some? then Ok((p1, pre))
    else
      var p2 := UpdateTargetDepth(p1);
      var moves := CurrentLegalMoves(t, prev);
      CurrentMovesAreCells(t, prev);
      var scores := RootExpecti(Search(t, p2.targetDepth, Tracked), st, moves, 0, sign);
      if scores.Err? then Err(scores.msg)
      else Ok((p2, Pick(moves, BestIndex(scores.value, sign == X))))
  }

  /** Without a premove, make_move fails exactly when the root search fails, and
      otherwise returns the first strictly best option by the root values (FirstBest), so
      None when there is no legal move; RootExpectiValues says which option each root
      value belongs to. */
  lemma MakeMoveFollowsExpectimax(p: Searcher, t: Tracker, st: State, prev: Option<int>, sign: Sign, random: Move)
    requires ValidTracker(t) && WellFormed(st) && (prev.Some? ==> IsCell(prev.value)) && 1 <= p.targetDepth
    requires IsCell(random.0) && IsCell(random.1)
    requires Premove(CountMove(p), st, prev, sign == X, random).None?
    ensures var p2 := UpdateTargetDepth(CountMove(p));
      var moves := CurrentLegalMoves(t, prev);
      var r := MakeMove(p, t, st, prev, sign, random);
      CellMoves(moves) &&
      var scores := RootExpecti(Search(t, p2.targetDepth, Tracked), st, moves, 0, sign);
      && (r.Err? <==> scores.Err?)
      && (r.Ok? ==> r.value.0 == p2 && |scores.value| == |moves| && FirstBest(moves, scores.value, sign == X, r.value.1))
  {
    hide Expecti, ExpectiChildren, OptionValue, RootExpecti, FirstBest, BestIndex, Pick;
    hide UpdateState, Premove, UpdateTargetDepth, CurrentLegalMoves, Moves, Child, Leaf;
    var p2 := UpdateTargetDepth(CountMove(p));
    var s := Search(t, p2.targetDepth, Tracked);
    var moves := CurrentLegalMoves(t, prev);
    CurrentMovesAreCells(t, prev);
    var scores := RootExpecti(s, st, moves, 0, sign);
    if scores.Ok? {
      PickIsFirstBest(moves, scores.value, sign == X);
    }
  }
}
