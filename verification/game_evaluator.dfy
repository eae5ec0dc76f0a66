/** GameEvaluator: the evaluation bar's score of a position (the mean of the minimax
    scores of the mover's options) and the suggested best move, both driven by a
    MiniMaxPlayer whose move counter advances by half a move per query. */
module GameEvaluator {
  import opened Wrappers
  import opened Floats
  import opened Assets
  import opened GameState
  import opened BasePlayer
  import opened SearchPolicy
  import opened Minimax

  /** The singleton's state: whether no evaluation has happened yet, and the
      MiniMaxPlayer it borrows. */
  datatype Evaluator = Evaluator(firstMove: bool, algorithm: Searcher)

  /** The algorithm's counters after a query: half a move counted, then the depth update. */
  function Advance(a: Searcher): (r: Searcher)
  {
    UpdateTargetDepth(CountEvaluation(a))
  }

  /** game_evaluation.  `searchTracker` is the algorithm's tracker used inside the search,
      `playerTracker` the mover's, which supplies the root moves. */
  function Evaluation(ev: Evaluator, searchTracker: Tracker, playerTracker: Tracker, st: State,
                      prev: Option<int>, sign: Sign): (r: (Evaluator, Float))
    requires ValidTracker(searchTracker) && ValidTracker(playerTracker) && WellFormed(st)
    requires (prev.Some? ==> IsCell(prev.value)) && (ev.firstMove || 1 <= ev.algorithm.targetDepth)
    ensures !r.0.firstMove
    ensures ev.firstMove ==> r == (Evaluator(false, ev.algorithm), Fin(0.0))
    ensures !ev.firstMove ==> r.0.algorithm == Advance(ev.algorithm)
    ensures !ev.firstMove && CurrentLegalMoves(playerTracker, prev) == [] ==> r.1 == Fin(0.0)
  {
    if ev.firstMove then (ev.(firstMove := false), Fin(0.0))
    else
      var a := Advance(ev.algorithm);
      var moves := CurrentLegalMoves(playerTracker, prev);
      CurrentMovesAreCells(playerTracker, prev);
      if moves == [] then (Evaluator(false, a), Fin(0.0))
      else (Evaluator(false, a), Mean(RootScores(Search(searchTracker, a.targetDepth, Tracked), st, moves, sign)).value)
  }

  /** Past the first query, the score is the mean of the plain minimax values of the
      mover's options; with finite values it lies between the worst and the best of them. */
  lemma EvaluationIsMeanOfMinimax(ev: Evaluator, searchTracker: Tracker, playerTracker: Tracker,
                                  st: State, prev: Option<int>, sign: Sign, lo: real, hi: real)
    requires ValidTracker(searchTracker) && ValidTracker(playerTracker) && WellFormed(st)
    requires (prev.Some? ==> IsCell(prev.value)) && 1 <= ev.algorithm.targetDepth
    requires !ev.firstMove && CurrentLegalMoves(playerTracker, prev) != []
    ensures var moves := CurrentLegalMoves(playerTracker, prev);
      var vals := (CurrentMovesAreCells(playerTracker, prev);
                   RootValues(Search(searchTracker, Advance(ev.algorithm).targetDepth, Tracked), st, moves, sign));
      && Mean(vals).Ok?
      && Evaluation(ev, searchTracker, playerTracker, st, prev, sign).1 == Mean(vals).value
      && (AllFin(vals) && (forall i :: 0 <= i < |vals| ==> lo <= vals[i].v <= hi) ==>
            var e := Evaluation(ev, searchTracker, playerTracker, st, prev, sign).1;
            e.Fin? && lo <= e.v <= hi)
  {
    hide Child, AlphaBeta, Value, RootScores, RootValues;  // only RootScoresAreMinimax is needed
    var moves := CurrentLegalMoves(playerTracker, prev);
    CurrentMovesAreCells(playerTracker, prev);
    var s := Search(searchTracker, Advance(ev.algorithm).targetDepth, Tracked);
    RootScoresAreMinimax(s, st, moves, sign);
    var vals := RootValues(s, st, moves, sign);
    if AllFin(vals) && (forall i :: 0 <= i < |vals| ==> lo <= vals[i].v <= hi) {
      MeanWithinBounds(vals, lo, hi);
    }
  }

  /** get_best_move: the first root move with a strictly best minimax score for the
      mover, or None. */
  function BestMove(ev: Evaluator, searchTracker: Tracker, playerTracker: Tracker, st: State,
                    prev: Option<int>, sign: Sign): (r: (Evaluator, Option<Move>))
    requires ValidTracker(searchTracker) && ValidTracker(playerTracker) && WellFormed(st)
    requires (prev.Some? ==> IsCell(prev.value)) && 1 <= ev.algorithm.targetDepth
    ensures r.0 == ev.(algorithm := Advance(ev.algorithm))
    ensures r.1.Some? ==> r.1.value in CurrentLegalMoves(playerTracker, prev)
  {
    var a := Advance(ev.algorithm);
    var moves := CurrentLegalMoves(playerTracker, prev);
    CurrentMovesAreCells(playerTracker, prev);
    (ev.(algorithm := a), Pick(moves, BestIndex(RootScores(Search(searchTracker, a.targetDepth, Tracked), st, moves, sign), sign == X)))
  }

  /** The suggested move is the one make_move's search would pick with the same depth:
      the first strictly best by plain minimax, and None only when no option beats the
      starting bound. */
  lemma BestMoveFollowsMinimax(ev: Evaluator, searchTracker: Tracker, playerTracker: Tracker,
                               st: State, prev: Option<int>, sign: Sign)
    requires ValidTracker(searchTracker) && ValidTracker(playerTracker) && WellFormed(st)
    requires (prev.Some? ==> IsCell(prev.value)) && 1 <= ev.algorithm.targetDepth
    ensures var moves := CurrentLegalMoves(playerTracker, prev);
      var vals := (CurrentMovesAreCells(playerTracker, prev);
                   RootValues(Search(searchTracker, Advance(ev.algorithm).targetDepth, Tracked), st, moves, sign));
      var r := BestMove(ev, searchTracker, playerTracker, st, prev, sign).1;
      && r == Pick(moves, BestIndex(vals, sign == X))
      && (r.None? <==> forall j :: 0 <= j < |vals| ==> !Better(vals[j], Worst(sign == X), sign == X))
  {
    hide Child, AlphaBeta, Value, RootScores, RootValues;  // only RootScoresAreMinimax is needed
    var moves := CurrentLegalMoves(playerTracker, prev);
    CurrentMovesAreCells(playerTracker, prev);
    var s := Search(searchTracker, Advance(ev.algorithm).targetDepth, Tracked);
    RootScoresAreMinimax(s, st, moves, sign);
    BestIndexIsFirstOptimum(RootValues(s, st, moves, sign), sign == X);
  }
}
