/** MiniMaxPlayer: depth-limited minimax with alpha-beta pruning, a plain minimax that
    serves as its reference, make_move, and the game evaluator built on the same search. */
module Minimax {
  import opened Wrappers
  import opened Floats
  import opened Assets
  import opened GameState
  import opened StateChecker
  import opened StateUpdater
  import opened BasePlayer
  import opened StateEvaluator
  import opened SearchPolicy

  /** The move generator a search uses: the program's get_legal_moves_for_state, whose
      unrestricted branch reads the game's tracker (`Tracked`), or the corrected one that
      offers only the blank cells of the searched position (`BlankCells`). */
  datatype Generator = Tracked | BlankCells

  /** What a search holds fixed: the move tracker (the game's, not updated while
      searching), the depth at which positions are scored, and the move generator. */
  datatype Search = Search(tracker: Tracker, targetDepth: int, gen: Generator)

  /** A searched position is scored by the heuristic from the side to move. */
  function Leaf(st: State, prev: int, maximizing: bool): (r: Float)
    requires WellFormed(st) && IsCell(prev)
    ensures r.Fin?
  {
    Fin(Heuristic(map[], map[], st, Some(prev), SignFor(maximizing)).0)
  }

  /** The search stops when the meta-board is decided or the target depth is reached. */
  predicate Cutoff(s: Search, st: State, depth: int)
    requires WellFormed(st)
  {
    CheckWin(map[], st, 0).0.Decided? || depth == s.targetDepth
  }

  predicate OnBlanks(st: State, moves: seq<Move>)
    requires WellFormed(st)
  {
    forall m :: m in moves ==> IsCell(m.0) && IsCell(m.1) && st[m.0].display[m.1] == '-'
  }

  /** The moves searched from a position.  Every move names a cell of a sub-board; the
      corrected generator, and the program's on a restricted query, offer blank cells only. */
  function Moves(s: Search, st: State, prev: int): (r: seq<Move>)
    requires ValidTracker(s.tracker) && WellFormed(st) && IsCell(prev)
    ensures CellMoves(r)
    ensures s.gen.BlankCells? || !Unrestricted(st, Some(prev)) ==> OnBlanks(st, r)
  {
    match s.gen
    case Tracked =>
      LegalMovesAreCells(s.tracker, st, Some(prev));
      LegalMovesForState(s.tracker, st, Some(prev))
    case BlankCells => SearchMoves(s.tracker, st, Some(prev))
  }

  /** The position after a searched move: update_state places the mark whether or not
      the cell is blank; a move onto a blank cell uses up one blank cell. */
  function Child(st: State, m: Move, sign: Sign): (r: State)
    requires WellFormed(st) && IsCell(m.0) && IsCell(m.1)
    ensures WellFormed(r)
    ensures st[m.0].display[m.1] == '-' ==> Blanks(r) == Blanks(st) - 1
  {
    var r := UpdateState(map[], st, m.0, m.1, sign).state;
    if st[m.0].display[m.1] == '-' then
      UpdateStateUsesBlank(map[], st, m.0, m.1, sign);
      r
    else r
  }

  /** minimax_ab. */
  function AlphaBeta(s: Search, st: State, prev: int, depth: int, alpha: Float, beta: Float, maximizing: bool): (r: Float)
    requires ValidTracker(s.tracker) && WellFormed(st) && IsCell(prev) && depth <= s.targetDepth
    ensures !r.NaN?
    decreases s.targetDepth - depth, 1
  {
    if Cutoff(s, st, depth) then Leaf(st, prev, maximizing)
    else if maximizing then MaxLoop(s, st, Moves(s, st, prev), 0, depth, alpha, beta, NegInf)
    else MinLoop(s, st, Moves(s, st, prev), 0, depth, alpha, beta, PosInf)
  }

  /** The maximizing loop from move i on: best so far, alpha raised by each score, and a
      cut once alpha reaches beta. */
  function MaxLoop(s: Search, st: State, moves: seq<Move>, i: nat, depth: int,
                   alpha: Float, beta: Float, best: Float): (r: Float)
    requires ValidTracker(s.tracker) && WellFormed(st) && CellMoves(moves) && i <= |moves| && depth < s.targetDepth
    requires !best.NaN?
    ensures !r.NaN?
    decreases s.targetDepth - depth, 0, |moves| - i
  {
    if i == |moves| then best
    else
      var m := moves[i];
      assert m in moves;
      var score := AlphaBeta(s, Child(st, m, X), m.1, depth + 1, alpha, beta, false);
      var best' := Max(best, score);
      var alpha' := Max(alpha, score);
      if Le(beta, alpha') then best'
      else MaxLoop(s, st, moves, i + 1, depth, alpha', beta, best')
  }

  /** The minimizing loop: beta lowered by each score, the same cut. */
  function MinLoop(s: Search, st: State, moves: seq<Move>, i: nat, depth: int,
                   alpha: Float, beta: Float, best: Float): (r: Float)
    requires ValidTracker(s.tracker) && WellFormed(st) && CellMoves(moves) && i <= |moves| && depth < s.targetDepth
    requires !best.NaN?
    ensures !r.NaN?
    decreases s.targetDepth - depth, 0, |moves| - i
  {
    if i == |moves| then best
    else
      var m := moves[i];
      assert m in moves;
      var score := AlphaBeta(s, Child(st, m, O), m.1, depth + 1, alpha, beta, true);
      var best' := Min(best, score);
      var beta' := Min(beta, score);
      if Le(beta', alpha) then best'
      else MinLoop(s, st, moves, i + 1, depth, alpha, beta', best')
  }

  /** Plain minimax over the same tree: every child is searched. */
  function Value(s: Search, st: State, prev: int, depth: int, maximizing: bool): (r: Float)
    requires ValidTracker(s.tracker) && WellFormed(st) && IsCell(prev) && depth <= s.targetDepth
    ensures !r.NaN?
    decreases s.targetDepth - depth, 1
  {
    if Cutoff(s, st, depth) then Leaf(st, prev, maximizing)
    else
      var vals := Children(s, st, Moves(s, st, prev), 0, depth, maximizing);
      if maximizing then FoldMax(vals, NegInf) else FoldMin(vals, PosInf)
  }

  /** The minimax values of the children reached by moves[i..]. */
  function Children(s: Search, st: State, moves: seq<Move>, i: nat, depth: int, maximizing: bool): (r: seq<Float>)
    requires ValidTracker(s.tracker) && WellFormed(st) && CellMoves(moves) && i <= |moves| && depth < s.targetDepth
    ensures |r| == |moves| - i && NoNaN(r)
    decreases s.targetDepth - depth, 0, |moves| - i
  {
    if i == |moves| then []
    else
      var m := moves[i];
      assert m in moves;
      var v := Value(s, Child(st, m, SignFor(maximizing)), m.1, depth + 1, !maximizing);
      var rest := Children(s, st, moves, i + 1, depth, maximizing);
      ConsNoNaN(v, rest);
      [v] + rest
  }

  /** The fail-soft alpha-beta guarantee relating a search result r in the window
      (alpha, beta) to the true value v: a result at or below alpha is an upper bound
      of v, one at or above beta a lower bound, and one strictly inside is exact. */
  predicate Bracket(v: Float, r: Float, alpha: Float, beta: Float)
  {
    && (Le(r, alpha) ==> Le(v, r))
    && (Le(beta, r) ==> Le(r, v))
    && (Lt(alpha, r) && Lt(r, beta) ==> r == v)
  }

  /** Alpha-beta pruning keeps the fail-soft guarantee for every non-empty window. */
  lemma {:induction false} AlphaBetaBrackets(s: Search, st: State, prev: int, depth: int,
                                             alpha: Float, beta: Float, maximizing: bool)
    requires ValidTracker(s.tracker) && WellFormed(st) && IsCell(prev) && depth <= s.targetDepth && Lt(alpha, beta)
    ensures Bracket(Value(s, st, prev, depth, maximizing), AlphaBeta(s, st, prev, depth, alpha, beta, maximizing), alpha, beta)
    decreases s.targetDepth - depth, 1
  {
    hide Child, Leaf;
    if !Cutoff(s, st, depth) {
      var moves := Moves(s, st, prev);
      if maximizing {
        MaxLoopBrackets(s, st, moves, 0, depth, alpha, alpha, beta, NegInf, NegInf);
      } else {
        MinLoopBrackets(s, st, moves, 0, depth, alpha, beta, beta, PosInf, PosInf);
      }
    }
  }

  /** With the full window (-inf, inf), as every caller uses, pruning changes nothing. */
  lemma AlphaBetaIsMinimax(s: Search, st: State, prev: int, depth: int, maximizing: bool)
    requires ValidTracker(s.tracker) && WellFormed(st) && IsCell(prev) && depth <= s.targetDepth
    ensures AlphaBeta(s, st, prev, depth, NegInf, PosInf, maximizing) == Value(s, st, prev, depth, maximizing)
  {
    hide AlphaBeta, Value;
    AlphaBetaBrackets(s, st, prev, depth, NegInf, PosInf, maximizing);
  }

  /** What the maximizing loop keeps, entered with window (alpha0, beta): alpha is
      alpha0 raised by the best score, still below beta, and the prefix value of the
      children seen so far is at most the best score, equal to it once above alpha0. */
  predicate MaxInv(alpha0: Float, alpha: Float, beta: Float, best: Float, prefix: Float)
  {
    && !best.NaN? && !prefix.NaN? && Lt(alpha0, beta)
    && alpha == Max(alpha0, best) && Lt(alpha, beta)
    && Le(prefix, best) && (Lt(alpha0, best) ==> prefix == best)
  }

  /** The minimizing loop's counterpart, with window (alpha, beta0). */
  predicate MinInv(alpha: Float, beta0: Float, beta: Float, best: Float, prefix: Float)
  {
    && !best.NaN? && !prefix.NaN? && Lt(alpha, beta0)
    && beta == Min(beta0, best) && Lt(alpha, beta)
    && Le(best, prefix) && (Lt(best, beta0) ==> prefix == best)
  }

  /** The maximizing loop keeps the guarantee against the prefix value `prefix`. */
  lemma {:induction false} MaxLoopBrackets(s: Search, st: State, moves: seq<Move>, i: nat, depth: int,
                                           alpha0: Float, alpha: Float, beta: Float, best: Float, prefix: Float)
    requires ValidTracker(s.tracker) && WellFormed(st) && CellMoves(moves) && i <= |moves| && depth < s.targetDepth
    requires MaxInv(alpha0, alpha, beta, best, prefix)
    ensures Bracket(FoldMax(Children(s, st, moves, i, depth, true), prefix),
                    MaxLoop(s, st, moves, i, depth, alpha, beta, best), alpha0, beta)
    decreases s.targetDepth - depth, 0, |moves| - i
  {
    hide Child, AlphaBeta, Value;  // their postconditions and AlphaBetaBrackets suffice
    if i == |moves| {
      MaxDone(alpha0, alpha, beta, best, prefix);
    } else {
      var m := moves[i];
      assert m in moves;
      var child := Child(st, m, X);
      var c := AlphaBeta(s, child, m.1, depth + 1, alpha, beta, false);
      var vc := Value(s, child, m.1, depth + 1, false);
      AlphaBetaBrackets(s, child, m.1, depth + 1, alpha, beta, false);
      var rest := Children(s, st, moves, i + 1, depth, true);
      assert Children(s, st, moves, i, depth, true) == [vc] + rest;
      assert FoldMax([vc] + rest, prefix) == FoldMax(rest, Max(prefix, vc));
      if Le(beta, Max(alpha, c)) {
        MaxCut(alpha0, alpha, beta, best, prefix, c, vc, FoldMax(rest, Max(prefix, vc)));
      } else {
        MaxStep(alpha0, alpha, beta, best, prefix, c, vc);
        MaxLoopBrackets(s, st, moves, i + 1, depth, alpha0, Max(alpha, c), beta, Max(best, c), Max(prefix, vc));
      }
    }
  }

  lemma {:induction false} MinLoopBrackets(s: Search, st: State, moves: seq<Move>, i: nat, depth: int,
                                           alpha: Float, beta0: Float, beta: Float, best: Float, prefix: Float)
    requires ValidTracker(s.tracker) && WellFormed(st) && CellMoves(moves) && i <= |moves| && depth < s.targetDepth
    requires MinInv(alpha, beta0, beta, best, prefix)
    ensures Bracket(FoldMin(Children(s, st, moves, i, depth, false), prefix),
                    MinLoop(s, st, moves, i, depth, alpha, beta, best), alpha, beta0)
    decreases s.targetDepth - depth, 0, |moves| - i
  {
    hide Child, AlphaBeta, Value;  // their postconditions and AlphaBetaBrackets suffice
    if i == |moves| {
      MinDone(alpha, beta0, beta, best, prefix);
    } else {
      var m := moves[i];
      assert m in moves;
      var child := Child(st, m, O);
      var c := AlphaBeta(s, child, m.1, depth + 1, alpha, beta, true);
      var vc := Value(s, child, m.1, depth + 1, true);
      AlphaBetaBrackets(s, child, m.1, depth + 1, alpha, beta, true);
      var rest := Children(s, st, moves, i + 1, depth, false);
      assert Children(s, st, moves, i, depth, false) == [vc] + rest;
      assert FoldMin([vc] + rest, prefix) == FoldMin(rest, Min(prefix, vc));
      if Le(Min(beta, c), alpha) {
        MinCut(alpha, beta0, beta, best, prefix, c, vc, FoldMin(rest, Min(prefix, vc)));
      } else {
        MinStep(alpha, beta0, beta, best, prefix, c, vc);
        MinLoopBrackets(s, st, moves, i + 1, depth, alpha, beta0, Min(beta, c), Min(best, c), Min(prefix, vc));
      }
    }
  }

  /** The loop ran out of moves: the best score against the prefix value. */
  lemma MaxDone(alpha0: Float, alpha: Float, beta: Float, best: Float, prefix: Float)
    requires MaxInv(alpha0, alpha, beta, best, prefix)
    ensures Bracket(prefix, best, alpha0, beta)
  {
  }

  /** One more child that does not cut: the invariant moves on. */
  lemma MaxStep(alpha0: Float, alpha: Float, beta: Float, best: Float, prefix: Float, c: Float, vc: Float)
    requires MaxInv(alpha0, alpha, beta, best, prefix) && !c.NaN? && !vc.NaN?
    requires Bracket(vc, c, alpha, beta) && !Le(beta, Max(alpha, c))
    ensures MaxInv(alpha0, Max(alpha, c), beta, Max(best, c), Max(prefix, vc))
  {
    MaxAssoc(alpha0, best, c);
    LeTotal(beta, Max(alpha, c));
  }

  /** A child whose score reaches beta cuts, and that score is a lower bound. */
  lemma MaxCut(alpha0: Float, alpha: Float, beta: Float, best: Float, prefix: Float, c: Float, vc: Float, v: Float)
    requires MaxInv(alpha0, alpha, beta, best, prefix) && !c.NaN? && !vc.NaN?
    requires Bracket(vc, c, alpha, beta) && Le(beta, Max(alpha, c))
    requires Le(Max(prefix, vc), v)
    ensures Bracket(v, Max(best, c), alpha0, beta)
  {
  }

  lemma MinDone(alpha: Float, beta0: Float, beta: Float, best: Float, prefix: Float)
    requires MinInv(alpha, beta0, beta, best, prefix)
    ensures Bracket(prefix, best, alpha, beta0)
  {
  }

  lemma MinStep(alpha: Float, beta0: Float, beta: Float, best: Float, prefix: Float, c: Float, vc: Float)
    requires MinInv(alpha, beta0, beta, best, prefix) && !c.NaN? && !vc.NaN?
    requires Bracket(vc, c, alpha, beta) && !Le(Min(beta, c), alpha)
    ensures MinInv(alpha, beta0, Min(beta, c), Min(best, c), Min(prefix, vc))
  {
    MinAssoc(beta0, best, c);
    LeTotal(alpha, Min(beta, c));
  }

  lemma MinCut(alpha: Float, beta0: Float, beta: Float, best: Float, prefix: Float, c: Float, vc: Float, v: Float)
    requires MinInv(alpha, beta0, beta, best, prefix) && !c.NaN? && !vc.NaN?
    requires Bracket(vc, c, alpha, beta) && Le(Min(beta, c), alpha)
    requires Le(v, Min(prefix, vc))
    ensures Bracket(v, Min(best, c), alpha, beta0)
  {
  }

  lemma ConsNoNaN(v: Float, rest: seq<Float>)
    requires !v.NaN? && NoNaN(rest)
    ensures NoNaN([v] + rest)
  {
    assert forall k :: 1 <= k <= |rest| ==> ([v] + rest)[k] == rest[k - 1];
  }

  predicate CellMoves(moves: seq<Move>)
  {
    forall m :: m in moves ==> IsCell(m.0) && IsCell(m.1)
  }

  /** get_current_legal_moves only offers cells of sub-boards. */
  lemma CurrentMovesAreCells(t: Tracker, prev: Option<int>)
    requires ValidTracker(t) && (prev.Some? ==> IsCell(prev.value))
    ensures CellMoves(CurrentLegalMoves(t, prev))
  {
    var r := CurrentLegalMoves(t, prev);
    forall m | m in r
      ensures IsCell(m.0) && IsCell(m.1)
    {
      if prev.Some? {
        var k :| 0 <= k < |r| && r[k] == m;
      }
    }
  }

  /** The score make_move gives a root move: the opponent's reply searched from depth 1
      with the full window. */
  function RootScore(s: Search, st: State, m: Move, sign: Sign): (r: Float)
    requires ValidTracker(s.tracker) && WellFormed(st) && IsCell(m.0) && IsCell(m.1) && 1 <= s.targetDepth
  {
    AlphaBeta(s, UpdateState(map[], st, m.0, m.1, sign).state, m.1, 1, NegInf, PosInf, sign != X)
  }

  function RootScores(s: Search, st: State, moves: seq<Move>, sign: Sign): (r: seq<Float>)
    requires ValidTracker(s.tracker) && WellFormed(st) && CellMoves(moves) && 1 <= s.targetDepth
    ensures |r| == |moves|
  {
    seq(|moves|, k requires 0 <= k < |moves| => assert moves[k] in moves; RootScore(s, st, moves[k], sign))
  }

  /** The same root scores by plain minimax. */
  function RootValues(s: Search, st: State, moves: seq<Move>, sign: Sign): (r: seq<Float>)
    requires ValidTracker(s.tracker) && WellFormed(st) && CellMoves(moves) && 1 <= s.targetDepth
    ensures |r| == |moves| && NoNaN(r)
  {
    seq(|moves|, k requires 0 <= k < |moves| =>
      assert moves[k] in moves;
      Value(s, UpdateState(map[], st, moves[k].0, moves[k].1, sign).state, moves[k].1, 1, sign != X))
  }

  lemma RootScoresAreMinimax(s: Search, st: State, moves: seq<Move>, sign: Sign)
    requires ValidTracker(s.tracker) && WellFormed(st) && CellMoves(moves) && 1 <= s.targetDepth
    ensures RootScores(s, st, moves, sign) == RootValues(s, st, moves, sign)
  {
    forall k | 0 <= k < |moves|
      ensures RootScores(s, st, moves, sign)[k] == RootValues(s, st, moves, sign)[k]
    {
      assert moves[k] in moves;
      AlphaBetaIsMinimax(s, UpdateState(map[], st, moves[k].0, moves[k].1, sign).state, moves[k].1, 1, sign != X);
    }
  }

  /** The move at the chosen index, if any. */
  function Pick(moves: seq<Move>, k: Option<nat>): (r: Option<Move>)
  {
    if k.Some? && k.value < |moves| then Some(moves[k.value]) else None
  }

  /** `choice` is the move make_move's scan keeps over the options' values: None exactly
      when no value is strictly better than the starting bound, otherwise the first
      option whose value is a number strictly better than the bound and than every
      earlier number, with no later value strictly better. */
  predicate FirstBest(moves: seq<Move>, vals: seq<Float>, maximizing: bool, choice: Option<Move>)
    requires |vals| == |moves|
  {
    && (choice.None? <==> forall j :: 0 <= j < |vals| ==> !Better(vals[j], Worst(maximizing), maximizing))
    && (choice.Some? ==>
          exists k :: 0 <= k < |moves| && choice.value == moves[k]
            && !vals[k].NaN?
            && Better(vals[k], Worst(maximizing), maximizing)
            && (forall j :: 0 <= j < k && !vals[j].NaN? ==> Better(vals[k], vals[j], maximizing))
            && (forall j :: k < j < |vals| ==> !Better(vals[j], vals[k], maximizing)))
  }

  /** The scan's pick is the first strictly best option, NaN values included. */
  lemma PickIsFirstBest(moves: seq<Move>, vals: seq<Float>, maximizing: bool)
    requires |vals| == |moves|
    ensures FirstBest(moves, vals, maximizing, Pick(moves, BestIndex(vals, maximizing)))
  {
    BestIndexSkipsNaN(vals, maximizing);
    var b := BestIndex(vals, maximizing);
    if b.Some? {
      assert Pick(moves, b) == Some(moves[b.value]);
    }
  }

  /** make_move: count the move, answer with a premove when there is one, otherwise
      update the depth and return the first strictly best root move. */
  function MakeMove(p: Searcher, t: Tracker, st: State, prev: Option<int>, sign: Sign, random: Move)
    : (r: (Searcher, Option<Move>))
    requires ValidTracker(t) && WellFormed(st) && (prev.Some? ==> IsCell(prev.value)) && 1 <= p.targetDepth
    requires IsCell(random.0) && IsCell(random.1)
    ensures r.0.halfMoves == p.halfMoves + 2
    ensures var pre := Premove(CountMove(p), st, prev, sign == X, random);
      && (pre.Some? ==> r == (CountMove(p), pre))
      && (pre.None? ==> r.0 == UpdateTargetDepth(CountMove(p)) && (r.1.Some? ==> r.1.value in CurrentLegalMoves(t, prev)))
  {
    var p1 := CountMove(p);
    var pre := Premove(p1, st, prev, sign == X, random);
    if pre.Some? then (p1, pre)
    else
      var p2 := UpdateTargetDepth(p1);
      var moves := CurrentLegalMoves(t, prev);
      CurrentMovesAreCells(t, prev);
      (p2, Pick(moves, BestIndex(RootScores(Search(t, p2.targetDepth, Tracked), st, moves, sign), sign == X)))
  }

  /** Pruning never changes the move: make_move returns the first root move whose plain
      minimax value is strictly best. */
  lemma MakeMoveFollowsMinimax(p: Searcher, t: Tracker, st: State, prev: Option<int>, sign: Sign, random: Move)
    requires ValidTracker(t) && WellFormed(st) && (prev.Some? ==> IsCell(prev.value)) && 1 <= p.targetDepth
    requires IsCell(random.0) && IsCell(random.1)
    requires Premove(CountMove(p), st, prev, sign == X, random).None?
    ensures var p2 := UpdateTargetDepth(CountMove(p));
      var moves := CurrentLegalMoves(t, prev);
      CellMoves(moves) &&
      MakeMove(p, t, st, prev, sign, random).1 == Pick(moves, BestIndex(RootValues(Search(t, p2.targetDepth, Tracked), st, moves, sign), sign == X))
  {
    var p2 := UpdateTargetDepth(CountMove(p));
    CurrentMovesAreCells(t, prev);
    RootScoresAreMinimax(Search(t, p2.targetDepth, Tracked), st, CurrentLegalMoves(t, prev), sign);
  }
}
