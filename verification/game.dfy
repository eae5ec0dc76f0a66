/** Game: the position, the shared legal-move tracker and the board the next move is
    sent to, advanced one move at a time and played until the meta-board is decided. */
module Game {
  import opened Wrappers
  import opened Assets
  import opened GameState
  import opened StateChecker
  import opened StateUpdater
  import opened BasePlayer

  /** The game's fields: the state, the tracker every player shares, the board the next
      move must be on (None for a free choice), the last move, and the win-check cache. */
  datatype Game = Game(state: State, tracker: Tracker, prev: Option<int>, lastMove: Option<Move>, cache: Cache)

  const EmptyBoard: Board := Board([], [], EmptyDisplay)

  /** reset_state: ten empty boards. */
  function InitialState(): (st: State)
    ensures Consistent(st)
  {
    assert Matches(EmptyBoard) by {
      assert CellValues(EmptyDisplay, 'X') == {} && CellValues(EmptyDisplay, 'O') == {};
    }
    seq(10, _ => EmptyBoard)
  }

  /** A fresh game with a freshly reset tracker. */
  function NewGame(): (g: Game)
  {
    Game(InitialState(), ResetLegalMoves(), None, None, map[])
  }

  /** make_move after the player has chosen (big, small): update the state, send the
      next move to board `small` unless that board is complete, record the move, and
      shrink the tracker (which fails when the cell is no longer listed). */
  function MakeMove(g: Game, m: Move, sign: Sign): (r: Result<Game>)
    requires WellFormed(g.state) && ValidCache(g.cache) && |g.tracker| == 10
    requires IsCell(m.0) && IsCell(m.1)
    ensures var a := UpdateState(g.cache, g.state, m.0, m.1, sign);
      && (r.Err? <==> !a.complete && m.1 !in g.tracker[m.0])
      && (r.Ok? ==>
            && r.value.state == a.state && r.value.cache == a.cache
            && r.value.lastMove == Some(m)
            && (r.value.prev.None? <==> a.state[0].display[m.1] != '-')
            && (r.value.prev.Some? ==> r.value.prev.value == m.1))
  {
    var a := UpdateState(g.cache, g.state, m.0, m.1, sign);
    var next := if a.state[0].display[m.1] != '-' then None else Some(m.1);
    match UpdateLegalMoves(g.tracker, m.0, m.1, a.complete)
    case Err(e) => Err(e)
    case Ok(t) => Ok(Game(a.state, t, next, Some(m), a.cache))
  }

  /** What holds between moves of a game: the tracker describes the position, every
      board's lists agree with its display, and the next move is sent to an open board. */
  ghost predicate Invariant(g: Game)
  {
    && TrackerAgrees(g.tracker, g.state) && Consistent(g.state) && ValidCache(g.cache)
    && (g.prev.Some? ==> IsCell(g.prev.value) && g.state[0].display[g.prev.value] == '-')
  }

  lemma NewGameInvariant()
    ensures Invariant(NewGame())
  {
    var g := NewGame();
    DistinctNoDup(AllCells);
    forall b | IsCell(b)
      ensures g.tracker[b] == AllCells && g.state[b].display == EmptyDisplay
    {
    }
  }

  /** A move the tracker offers is onto a blank cell of an open board. */
  lemma OfferedMoveIsOpen(g: Game, m: Move)
    requires Invariant(g) && m in CurrentLegalMoves(g.tracker, g.prev)
    ensures IsCell(m.0) && IsCell(m.1)
    ensures g.state[0].display[m.0] == '-' && g.state[m.0].display[m.1] == '-'
  {
    GeneratorsAgree(g.tracker, g.state, g.prev);
  }

  /** Playing an offered move never fails, uses up one blank cell, and keeps the
      invariant: the tracker goes on describing the new position. */
  lemma OfferedMoveKeepsInvariant(g: Game, m: Move, sign: Sign)
    requires Invariant(g) && m in CurrentLegalMoves(g.tracker, g.prev)
    ensures IsCell(m.0) && IsCell(m.1)
    ensures MakeMove(g, m, sign).Ok?
    ensures Invariant(MakeMove(g, m, sign).value)
    ensures Blanks(MakeMove(g, m, sign).value.state) == Blanks(g.state) - 1
  {
    OfferedMoveIsOpen(g, m);
    var (big, small) := m;
    var st := g.state;
    var a := UpdateState(g.cache, st, big, small, sign);
    UpdateStateKeepsConsistency(g.cache, st, big, small, sign);
    UpdateStateUsesBlank(g.cache, st, big, small, sign);
    assert small in g.tracker[big];
    var t := UpdateLegalMoves(g.tracker, big, small, a.complete).value;
    UpdateLegalMovesShrinks(g.tracker, big, small, a.complete);
    forall b | IsCell(b)
      ensures BoardAgrees(t[b], a.state[b].display, a.state[0].display[b] == '-')
    {
      MoveKeepsBoardAgreement(g, big, small, sign, a, t, b);
    }
  }

  /** One sub-board's entry in the updated tracker still describes that sub-board. */
  lemma MoveKeepsBoardAgreement(g: Game, big: int, small: int, sign: Sign, a: Applied, t: Tracker, b: int)
    requires Invariant(g) && IsCell(big) && IsCell(small) && IsCell(b)
    requires g.state[0].display[big] == '-' && g.state[big].display[small] == '-'
    requires small in g.tracker[big]
    requires a == UpdateState(g.cache, g.state, big, small, sign)
    requires UpdateLegalMoves(g.tracker, big, small, a.complete) == Ok(t)
    ensures |t| == 10 && |a.state| == 10 && |a.state[b].display| == 10 && |a.state[0].display| == 10
    ensures BoardAgrees(t[b], a.state[b].display, a.state[0].display[b] == '-')
  {
    var st := g.state;
    UpdateLegalMovesShrinks(g.tracker, big, small, a.complete);
    if b == big && !a.complete {
      assert a.state[0] == st[0];
      assert a.state[b].display == st[b].display[small := SignChar(sign)];
      RemovalKeepsAgreement(g.tracker[b], t[b], st[b].display, small, SignChar(sign));
    } else if b == big {
      assert a.state[0].display[b] != '-';
    } else if a.complete {
      assert a.state[0].display[b] == st[0].display[b];
    } else {
      assert a.state[0] == st[0];
    }
  }

  /** play: while the meta-board is undecided, the side to move plays its next move;
      the players' choices are given as a sequence, and play also stops when it runs out. */
  function Play(g: Game, moves: seq<Move>, sign: Sign): (r: Result<Game>)
    requires WellFormed(g.state) && ValidCache(g.cache) && |g.tracker| == 10
    requires forall m :: m in moves ==> IsCell(m.0) && IsCell(m.1)
    ensures r.Ok? ==> WellFormed(r.value.state) && ValidCache(r.value.cache)
    decreases |moves|
  {
    var (w, c) := CheckWin(g.cache, g.state, 0);
    var g1 := g.(cache := c);
    if w.Decided? || moves == [] then Ok(g1)
    else
      assert moves[0] in moves;
      match MakeMove(g1, moves[0], sign)
      case Err(e) => Err(e)
      case Ok(g2) =>
        assert forall m :: m in moves[1..] ==> m in moves;
        Play(g2, moves[1..], Opponent(sign))
  }

  /** The moves form a game from `g` in which each move is one the tracker offers when
      its turn comes, the sides alternating, until the meta-board is decided or the moves
      run out. */
  ghost predicate OfferedPlay(g: Game, moves: seq<Move>, sign: Sign)
    requires Invariant(g)
    decreases |moves|
  {
    var (w, c) := CheckWin(g.cache, g.state, 0);
    var g1 := g.(cache := c);
    || w.Decided? || moves == []
    || (&& moves[0] in CurrentLegalMoves(g1.tracker, g1.prev)
        && (OfferedMoveKeepsInvariant(g1, moves[0], sign);
            OfferedPlay(MakeMove(g1, moves[0], sign).value, moves[1..], Opponent(sign))))
  }

  /** Playing offered moves never fails and keeps the invariant; play stops on a decided
      meta-board, and otherwise every move has used up one blank cell. */
  lemma {:induction false} OfferedPlayKeepsInvariant(g: Game, moves: seq<Move>, sign: Sign)
    requires Invariant(g) && OfferedPlay(g, moves, sign)
    requires forall m :: m in moves ==> IsCell(m.0) && IsCell(m.1)
    ensures Play(g, moves, sign).Ok?
    ensures var r := Play(g, moves, sign).value;
      && Invariant(r)
      && (CheckWin(r.cache, r.state, 0).0.Decided? || Blanks(r.state) == Blanks(g.state) - |moves|)
    decreases |moves|
  {
    var (w, c) := CheckWin(g.cache, g.state, 0);
    var g1 := g.(cache := c);
    CheckWinIdempotent(g.cache, g.state, 0);
    if w.Decided? || moves == [] {
    } else {
      OfferedMoveKeepsInvariant(g1, moves[0], sign);
      var g2 := MakeMove(g1, moves[0], sign).value;
      assert forall m :: m in moves[1..] ==> m in moves;
      OfferedPlayKeepsInvariant(g2, moves[1..], Opponent(sign));
    }
  }
}
