/** StateEvaluator (the first heuristic): integer pattern scores per board, combined X
    plus O per sub-board, cached by display with the negation under the inverted display,
    and weighted by the board's place on the meta-board. */
module StateEvaluator {
  import opened Wrappers
  import opened Assets
  import opened GameState
  import opened Sorting
  import opened StateChecker
  import opened Patterns

  /** The pattern weights are multiples of WEIGHT_FACTOR = 8. */
  const ScoreCenter: nat := 40
  const ScoreCorner: nat := 16
  const ScoreTwoInRow: nat := 56
  const ScoreFork: nat := 80
  const ScoreBlocking: nat := 40
  const ScoreWin: int := 1000
  const ScoreTie: int := 0
  const ScoreFreeMovePenalty: int := 0

  const ScaleCorner: real := 0.15
  const ScaleMiddle: real := 0.05
  const ScaleCenter: real := 0.2

  const V1Weights: Weights := Weights(ScoreCorner, ScoreCenter, ScoreBlocking, ScoreTwoInRow, ScoreFork)

  /** The pattern score of one side of an open board, on the sorted value lists. */
  function SideScore(b: Board, sign: Sign): (r: nat)
  {
    PatternScore(V1Weights, Sort(Marks(b, sign)), Sort(Marks(b, Opponent(sign))))
  }

  /** evaluate_board once check_win has answered: a tie is worth nothing, a win half of
      SCORE_WIN to the winner whatever side is evaluated, and an open board the pattern
      score of the evaluated side, negated for O. */
  function BoardValue(w: Verdict, b: Board, sign: Sign): (r: int)
    ensures w == Decided('T') ==> r == ScoreTie
    ensures w == Decided('X') ==> r == ScoreWin / 2
    ensures w.Decided? && w.mark != 'X' && w.mark != 'T' ==> r == -ScoreWin / 2
    ensures w.Undecided? && sign == X ==> r >= 0
    ensures w.Undecided? && sign == O ==> r <= 0
  {
    if w == Decided('T') then ScoreTie
    else if w.Decided? then (if w.mark == 'X' then ScoreWin / 2 else -ScoreWin / 2)
    else if sign == X then SideScore(b, X) as int
    else -(SideScore(b, O) as int)
  }

  /** Evaluating X on a board equals minus evaluating O on the same board seen from the
      other side. */
  lemma BoardValueAntisymmetric(w: Verdict, b: Board)
    requires ValidVerdict(w)
    ensures BoardValue(w, b, X) == -BoardValue(InvertVerdict(w), SwapSides(b), O)
    ensures BoardValue(w, b, O) == -BoardValue(InvertVerdict(w), SwapSides(b), X)
  {
  }

  /** evaluate_board: consult check_win (which may fill its cache), then score. */
  function EvaluateBoard(cc: Cache, st: State, big: int, sign: Sign): (r: (int, Cache))
    requires WellFormed(st) && 0 <= big <= 9
    ensures var (w, c) := CheckWin(cc, st, big);
      && r.1 == c
      && (w == Decided('T') ==> r.0 == ScoreTie)
      && (w == Decided('X') ==> r.0 == ScoreWin / 2)
      && (w.Decided? && w.mark != 'X' && w.mark != 'T' ==> r.0 == -ScoreWin / 2)
      && (w.Undecided? ==> r.0 == if sign == X then SideScore(st[big], X) as int else -(SideScore(st[big], O) as int))
  {
    var (w, c) := CheckWin(cc, st, big);
    (BoardValue(w, st[big], sign), c)
  }

  /** The X evaluation plus the O evaluation of one board, given its verdict. */
  function Combined(w: Verdict, b: Board): (r: int)
  {
    BoardValue(w, b, X) + BoardValue(w, b, O)
  }

  /** The combined score of the board seen from the other side, under the inverted
      verdict, is the negation. */
  lemma CombinedInverts(w: Verdict, b: Board)
    requires ValidVerdict(w)
    ensures Combined(InvertVerdict(w), SwapSides(b)) == -Combined(w, b)
  {
    BoardValueAntisymmetric(w, b);
  }

  /** On a board whose lists agree with its display and which does not show lines for
      both sides, the negated score stored under the inverted display is what a fresh
      evaluation (check_win's verdict, then X plus O) gives the side-swapped board. */
  lemma InvertedEntryIsFresh(b: Board)
    requires |b.display| == 10 && Matches(b) && !DoubleWin(b.display)
    ensures Combined(ComputeVerdict(SwapSides(b)), SwapSides(b)) == -Combined(ComputeVerdict(b), b)
  {
    SwapSidesKeepsMatch(b);
    DisplayVerdictInverts(b.display);
    CombinedInverts(ComputeVerdict(b), b);
  }

  /** evaluated_boards: combined scores by display. */
  type EvalCache = map<string, int>

  /** A combined score stored under the display and, negated, under its inversion; when
      the two keys coincide the second write wins. */
  function Store(ec: EvalCache, d: string, t: int): (r: EvalCache)
    ensures r.Keys == ec.Keys + {d, InvertDisplay(d)}
    ensures r[InvertDisplay(d)] == -t
    ensures d != InvertDisplay(d) ==> r[d] == t
    ensures forall k :: k in ec && k != d && k != InvertDisplay(d) ==> r[k] == ec[k]
  {
    ec[d := t][InvertDisplay(d) := -t]
  }

  /** One sub-board's combined score: reused from the cache, or computed with two
      evaluate_board calls and stored under the display and, negated, under the inverted
      display. */
  function BoardTerm(cc: Cache, ec: EvalCache, st: State, i: int): (r: (int, Cache, EvalCache))
    requires WellFormed(st) && IsCell(i)
    ensures st[i].display in ec ==> r == (ec[st[i].display], cc, ec)
    ensures st[i].display !in ec ==>
      && r.0 == EvaluateBoard(cc, st, i, X).0 + EvaluateBoard(EvaluateBoard(cc, st, i, X).1, st, i, O).0
      && r.1 == EvaluateBoard(EvaluateBoard(cc, st, i, X).1, st, i, O).1
      && r.2 == Store(ec, st[i].display, r.0)
  {
    var d := st[i].display;
    if d in ec then (ec[d], cc, ec)
    else
      var ex := EvaluateBoard(cc, st, i, X);
      var eo := EvaluateBoard(ex.1, st, i, O);
      var t := ex.0 + eo.0;
      (t, eo.1, Store(ec, d, t))
  }

  /** The weight of sub-board i: corners 0.15, edges 0.05, the centre 0.2. */
  function Scale(i: int): (r: real)
    ensures i in {1, 3, 7, 9} ==> r == ScaleCorner
    ensures i in {2, 4, 6, 8} ==> r == ScaleMiddle
    ensures i !in {1, 3, 7, 9} && i !in {2, 4, 6, 8} ==> r == ScaleCenter
  {
    if i in {1, 3, 7, 9} then ScaleCorner
    else if i in {2, 4, 6, 8} then ScaleMiddle
    else ScaleCenter
  }

  /** The weighted sum of the sub-boards i..9, threading both caches. */
  function BoardsFrom(cc: Cache, ec: EvalCache, st: State, i: int): (r: (real, Cache, EvalCache))
    requires WellFormed(st) && 1 <= i <= 10
    decreases 10 - i
  {
    if i == 10 then (0.0, cc, ec)
    else
      var (t, c1, e1) := BoardTerm(cc, ec, st, i);
      var (rest, c2, e2) := BoardsFrom(c1, e1, st, i + 1);
      ((t as real) * Scale(i) + rest, c2, e2)
  }

  /** heuristic: a decided game scores SCORE_TIE or plus/minus SCORE_WIN; otherwise the
      weighted board sum, less the free-move penalty (zero) when the next player may
      choose any board. */
  function Heuristic(cc: Cache, ec: EvalCache, st: State, next: Option<int>, sign: Sign)
    : (r: (real, Cache, EvalCache))
    requires WellFormed(st) && (next.Some? ==> 0 <= next.value < 10)
    ensures var (w, c) := CheckWin(cc, st, 0);
      && (w == Decided('T') ==> r == (ScoreTie as real, c, ec))
      && (w == Decided('X') ==> r == (ScoreWin as real, c, ec))
      && (w.Decided? && w.mark != 'X' && w.mark != 'T' ==> r == (-ScoreWin as real, c, ec))
      && (w.Undecided? ==> r == BoardsFrom(c, ec, st, 1))
  {
    var (w, c) := CheckWin(cc, st, 0);
    if w == Decided('T') then (ScoreTie as real, c, ec)
    else if w.Decided? then (if w.mark == 'X' then ScoreWin as real else -ScoreWin as real, c, ec)
    else
      var (score, c1, e1) := BoardsFrom(c, ec, st, 1);
      var free := next.None? || st[0].display[next.value] != '-';
      var adjusted := if free then score - (if sign == X then ScoreFreeMovePenalty else -ScoreFreeMovePenalty) as real
                      else score;
      (adjusted, c1, e1)
  }

  /** Because the free-move penalty is zero, neither the side to move nor the next board
      changes the value. */
  lemma HeuristicIgnoresSignAndNext(cc: Cache, ec: EvalCache, st: State, n1: Option<int>, n2: Option<int>)
    requires WellFormed(st) && (n1.Some? ==> 0 <= n1.value < 10) && (n2.Some? ==> 0 <= n2.value < 10)
    ensures Heuristic(cc, ec, st, n1, X) == Heuristic(cc, ec, st, n2, O)
  {
  }
}
