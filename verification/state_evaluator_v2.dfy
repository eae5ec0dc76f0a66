/** StateEvaluatorV2 (the all-integer heuristic): per-sign board scores cached by display
    (with the negation under the inverted display), won boards weighted by their place on
    the meta-board, and a depth bonus once an evaluation passes a threshold. */
module StateEvaluatorV2 {
  import opened Wrappers
  import opened Assets
  import opened GameState
  import opened Sorting
  import opened StateChecker
  import opened Patterns

  const ScoreGameWin: int := 100
  const ScoreGameTie: int := 0
  const ScoreBoardTie: int := 0
  const ScoreBoardWin: int := 5
  const ModifierCenterWin: int := 10
  const ModifierCornerWin: int := 3
  const ModifierMiddleWin: int := 0
  const ScoreCenterSquare: nat := 3
  const ScoreCornerSquare: nat := 2
  const ScorePerCenterBoardSquare: nat := 3
  const ScoreTwoRowSquares: nat := 2
  const ScoreTwoRowBoards: nat := 4
  const ScoreForkSquares: nat := 2
  const ScoreForkBoards: nat := 4
  const ScoreBlockSquares: nat := 2
  const ScoreBlockBoards: nat := 4
  const PenaltyFreeMove: int := -2
  const ThresholdTroll: int := 50
  const ModifierTroll: int := 5

  /** The pattern weights: the meta-board (index 0) uses the _BOARDS units, sub-boards
      the _SQUARES units. */
  function V2Weights(big: int): (r: Weights)
  {
    if big == 0 then Weights(ScoreCornerSquare, ScoreCenterSquare, ScoreBlockBoards, ScoreTwoRowBoards, ScoreForkBoards)
    else Weights(ScoreCornerSquare, ScoreCenterSquare, ScoreBlockSquares, ScoreTwoRowSquares, ScoreForkSquares)
  }

  /** The value of a won board: SCORE_BOARD_WIN plus 10 for the centre board, 3 for a
      corner board and nothing for an edge board. */
  function WinValue(big: int): (r: int)
    ensures big == 5 ==> r == 15
    ensures big in {1, 3, 7, 9} ==> r == 8
    ensures big != 5 && big !in {1, 3, 7, 9} ==> r == 5
  {
    if big == 5 then ScoreBoardWin + ModifierCenterWin
    else if big in {1, 3, 7, 9} then ScoreBoardWin + ModifierCornerWin
    else ScoreBoardWin + ModifierMiddleWin
  }

  /** The undecided-board score from X's side or O's side before the sign is applied:
      three per own square on the centre board, the X-minus-O move advantage on
      sub-boards, and the pattern score. */
  function OpenScore(b: Board, big: int, sign: Sign): (r: int)
  {
    var given := Sort(Marks(b, sign));
    var other := Sort(Marks(b, Opponent(sign)));
    (if big == 5 then ScorePerCenterBoardSquare * |given| else 0)
      + (if big != 0 then |b.xs| - |b.os| else 0)
      + PatternScore(V2Weights(big), given, other)
  }

  /** evaluated_boards: per-sign scores by display. */
  type EvalCache = map<string, int>

  function Store(ec: EvalCache, d: string, t: int): (r: EvalCache)
    ensures r.Keys == ec.Keys + {d, InvertDisplay(d)}
    ensures r[InvertDisplay(d)] == -t
    ensures d != InvertDisplay(d) ==> r[d] == t
  {
    ec[d := t][InvertDisplay(d) := -t]
  }

  /** evaluate_board: a cached score under the display is returned as is for either
      sign, one under the inverted display negated; otherwise ties and wins are scored
      without caching, and an open board's signed score is stored with its negation. */
  function EvaluateBoard(cc: Cache, ec: EvalCache, st: State, big: int, sign: Sign): (r: (int, Cache, EvalCache))
    requires WellFormed(st) && 0 <= big <= 9
    ensures var d := st[big].display;
      && (d in ec ==> r == (ec[d], cc, ec))
      && (d !in ec && InvertDisplay(d) in ec ==> r == (-ec[InvertDisplay(d)], cc, ec))
    ensures var d := st[big].display;
      d !in ec && InvertDisplay(d) !in ec ==>
      var (w, c) := CheckWin(cc, st, big);
      && r.1 == c
      && (w == Decided('T') ==> r.0 == ScoreBoardTie && r.2 == ec)
      && (w.Decided? && w.mark != 'T' ==> r.0 == (if sign == X then WinValue(big) else -WinValue(big)) && r.2 == ec)
      && (w.Undecided? ==> r.0 == (if sign == X then OpenScore(st[big], big, X) else -OpenScore(st[big], big, O))
                           && r.2 == Store(ec, d, r.0))
  {
    var d := st[big].display;
    if d in ec then (ec[d], cc, ec)
    else if InvertDisplay(d) in ec then (-ec[InvertDisplay(d)], cc, ec)
    else
      var (w, c) := CheckWin(cc, st, big);
      if w == Decided('T') then (ScoreBoardTie, c, ec)
      else if w.Decided? then (if sign == X then WinValue(big) else -WinValue(big), c, ec)
      else
        var score := if sign == X then OpenScore(st[big], big, X) else -OpenScore(st[big], big, O);
        (score, c, Store(ec, d, score))
  }

  /** The displays of boards i..9 and their inverses: the keys the sum may add. */
  function DisplayKeys(st: State, i: int): (r: set<string>)
    requires WellFormed(st) && 0 <= i <= 10
    decreases 10 - i
  {
    if i == 10 then {} else {st[i].display, InvertDisplay(st[i].display)} + DisplayKeys(st, i + 1)
  }

  /** The X evaluation plus the O evaluation of boards i..9, threading both caches: board
      i adds its X value, computed first, and its O value, computed with the caches the X
      call left; the evaluator cache only grows, and only by the boards' display keys. */
  function BoardsFrom(cc: Cache, ec: EvalCache, st: State, i: int): (r: (int, Cache, EvalCache))
    requires WellFormed(st) && 0 <= i <= 10
    ensures i == 10 ==> r == (0, cc, ec)
    ensures i < 10 ==>
      var ex := EvaluateBoard(cc, ec, st, i, X);
      var eo := EvaluateBoard(ex.1, ex.2, st, i, O);
      r.0 == ex.0 + eo.0 + BoardsFrom(eo.1, eo.2, st, i + 1).0
    ensures ec.Keys <= r.2.Keys <= ec.Keys + DisplayKeys(st, i)
    decreases 10 - i
  {
    if i == 10 then (0, cc, ec)
    else
      var (vx, c1, e1) := EvaluateBoard(cc, ec, st, i, X);
      var (vo, c2, e2) := EvaluateBoard(c1, e1, st, i, O);
      var (rest, c3, e3) := BoardsFrom(c2, e2, st, i + 1);
      EvaluateBoardKeys(cc, ec, st, i, X);
      EvaluateBoardKeys(c1, e1, st, i, O);
      (vx + vo + rest, c3, e3)
  }

  /** One evaluation adds at most the board's display and its inverse to the cache. */
  lemma EvaluateBoardKeys(cc: Cache, ec: EvalCache, st: State, big: int, sign: Sign)
    requires WellFormed(st) && 0 <= big <= 9
    ensures var e := EvaluateBoard(cc, ec, st, big, sign).2;
      ec.Keys <= e.Keys <= ec.Keys + {st[big].display, InvertDisplay(st[big].display)}
  {
  }

  /** Python truthiness of the optional next board and of the optional depth. */
  predicate Truthy(n: Option<int>) { n.Some? && n.value != 0 }

  /** heuristic: a meta tie is 0, an X win SCORE_GAME_WIN and any other win
      -SCORE_BOARD_WIN; otherwise the board sum, the free-move penalty when the next
      board is named and already complete, the sign, and the depth bonus. */
  function Heuristic(cc: Cache, ec: EvalCache, st: State, next: Option<int>, sign: Sign, depth: Option<int>)
    : (r: (int, Cache, EvalCache))
    requires WellFormed(st) && (next.Some? ==> 0 <= next.value < 10)
    ensures var (w, c) := CheckWin(cc, st, 0);
      && (w == Decided('T') ==> r == (ScoreGameTie, c, ec))
      && (w == Decided('X') ==> r == (ScoreGameWin, c, ec))
      && (w.Decided? && w.mark != 'X' && w.mark != 'T' ==> r == (-ScoreBoardWin, c, ec))
      && (w.Undecided? ==> var b := BoardsFrom(c, ec, st, 0);
            r == (Finish(b.0, st, next, sign, depth), b.1, b.2))
  {
    var (w, c) := CheckWin(cc, st, 0);
    if w == Decided('T') then (ScoreGameTie, c, ec)
    else if w.Decided? then (if w.mark == 'X' then ScoreGameWin else -ScoreBoardWin, c, ec)
    else
      var (sum, c1, e1) := BoardsFrom(c, ec, st, 0);
      (Finish(sum, st, next, sign, depth), c1, e1)
  }

  /** The tail of heuristic: free-move penalty, sign, then the depth bonus. */
  function Finish(sum: int, st: State, next: Option<int>, sign: Sign, depth: Option<int>): (r: int)
    requires WellFormed(st) && (next.Some? ==> 0 <= next.value < 10)
    ensures var free := Truthy(next) && st[0].display[next.value] != '-';
      var base := if sign == X then sum + (if free then PenaltyFreeMove else 0)
                  else -(sum - (if free then PenaltyFreeMove else 0));
      && (!Truthy(depth) ==> r == base)
      && (Truthy(depth) && sign == X && base >= ThresholdTroll ==> r == base + depth.value * ModifierTroll)
      && (Truthy(depth) && sign == O && base <= -ThresholdTroll ==> r == base - depth.value * ModifierTroll)
      && (Truthy(depth) && (sign == X ==> base < ThresholdTroll) && (sign == O ==> base > -ThresholdTroll) ==> r == base)
  {
    var withPenalty := if Truthy(next) && st[0].display[next.value] != '-' then
                         sum + (if sign == X then PenaltyFreeMove else -PenaltyFreeMove)
                       else sum;
    var score := if sign == X then withPenalty else -withPenalty;
    if Truthy(depth) then
      if sign == X && score >= ThresholdTroll then score + depth.value * ModifierTroll
      else if sign == O && score <= -ThresholdTroll then score - depth.value * ModifierTroll
      else score
    else score
  }

  /** Without a depth bonus, both sides see the same board sum with opposite signs, and a
      free move for the opponent costs each side 2. */
  lemma FinishSides(sum: int, st: State, next: Option<int>)
    requires WellFormed(st) && (next.Some? ==> 0 <= next.value < 10)
    ensures var free := Truthy(next) && st[0].display[next.value] != '-';
      && Finish(sum, st, next, X, None) == sum - (if free then 2 else 0)
      && Finish(sum, st, next, O, None) == -sum - (if free then 2 else 0)
  {
  }

  /** The cache makes the two evaluations of one board in the heuristic's sum unequal
      partners: a won or tied board contributes nothing, since its X and O values cancel,
      while an open board that carries a mark contributes twice its X score, because the O
      call finds the X score already stored under the display. */
  lemma BoardPairCancelsOrDoubles(cc: Cache, ec: EvalCache, st: State, i: int)
    requires WellFormed(st) && 0 <= i <= 9 && Matches(st[i])
    requires st[i].display !in ec && InvertDisplay(st[i].display) !in ec
    ensures var ex := EvaluateBoard(cc, ec, st, i, X);
      var eo := EvaluateBoard(ex.1, ex.2, st, i, O);
      && (CheckWin(cc, st, i).0.Decided? ==> ex.0 + eo.0 == 0)
      && (CheckWin(cc, st, i).0.Undecided? && st[i].display != InvertDisplay(st[i].display) ==> eo.0 == ex.0)
  {
    var d := st[i].display;
    var ex := EvaluateBoard(cc, ec, st, i, X);
    if CheckWin(cc, st, i).0.Decided? {
      CheckWinIdempotent(cc, st, i);
      assert ex.2 == ec;
    }
  }
}
