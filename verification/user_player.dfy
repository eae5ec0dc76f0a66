/** UserPlayer: reading "big small" lines until one names a legal move.  A line that is
    not two integers is rejected; an out-of-range board number while the choice is free
    indexes the meta display Python-style and may raise IndexError. */
module UserPlayer {
  import opened Wrappers
  import opened Assets
  import opened GameState
  import opened BasePlayer

  /** One input line: two integers, or anything else (a ValueError). */
  datatype Entry = Pair(big: int, small: int) | Malformed

  /** How make_move ends: a move, an uncaught IndexError, or still waiting for input
      when the given lines run out. */
  datatype Outcome = Chosen(move: Move) | Crashed | Waiting

  /** The acceptance test for a line, given the restriction in force for it. */
  predicate Accepts(st: State, prev: Option<int>, big: int, small: int)
    requires WellFormed(st)
  {
    && IsCell(big) && IsCell(small)
    && st[big].display[small] == '-' && st[0].display[big] == '-'
    && prev == Some(big)
  }

  /** The restriction a line is judged under: a free choice takes the typed board when
      its meta cell reads '-'. */
  function Rebind(st: State, prev: Option<int>, big: int): (r: Result<Option<int>>)
    requires WellFormed(st)
    ensures r.Err? <==> prev.None? && !(-10 <= big < 10)
    ensures prev.Some? ==> r == Ok(prev)
  {
    if prev.Some? then Ok(prev)
    else match PyAt(st[0].display, big)
      case None => Err("IndexError")
      case Some(c) => Ok(if c == '-' then Some(big) else None)
  }

  /** make_move as written: the rebinding of prev_small_idx outlives the line that
      caused it. */
  function MakeMoveAsWritten(st: State, prev: Option<int>, lines: seq<Entry>): (r: Outcome)
    requires WellFormed(st)
    ensures r.Chosen? ==> IsCell(r.move.0) && IsCell(r.move.1)
    ensures r.Chosen? ==> st[0].display[r.move.0] == '-' && st[r.move.0].display[r.move.1] == '-'
    decreases |lines|
  {
    if lines == [] then Waiting
    else match lines[0]
      case Malformed => MakeMoveAsWritten(st, prev, lines[1..])
      case Pair(b, s) =>
        match Rebind(st, prev, b)
        case Err(_) => Crashed
        case Ok(p) =>
          if Accepts(st, p, b, s) then Chosen((b, s)) else MakeMoveAsWritten(st, p, lines[1..])
  }

  /** A rejected line on an open board rebinds a free choice to that board for the rest
      of the turn: a legal move on another open board typed next is refused. */
  lemma StickyRestriction(st: State, b1: int, s1: int, b2: int, s2: int)
    requires WellFormed(st) && IsCell(b1) && IsCell(s1) && IsCell(b2) && IsCell(s2) && b1 != b2
    requires st[0].display[b1] == '-' && st[b1].display[s1] != '-'
    requires st[0].display[b2] == '-' && st[b2].display[s2] == '-'
    ensures MakeMoveAsWritten(st, None, [Pair(b1, s1), Pair(b2, s2)]) == Waiting
    ensures MakeMove(st, None, [Pair(b1, s1), Pair(b2, s2)]) == Chosen((b2, s2))
  {
    var lines := [Pair(b1, s1), Pair(b2, s2)];
    assert lines[1..] == [Pair(b2, s2)];
    assert lines[1..][1..] == [];
    assert Rebind(st, None, b1) == Ok(Some(b1));
    assert !Accepts(st, Some(b1), b1, s1);
    assert MakeMoveAsWritten(st, Some(b1), [Pair(b2, s2)]) == Waiting;
    assert Rebind(st, None, b2) == Ok(Some(b2));
    assert MakeMove(st, None, [Pair(b2, s2)]) == Chosen((b2, s2));
  }

  /** Once bound to a number that is not a board (a negative index such as -1 passes the
      meta lookup), no later line is accepted and none crashes. */
  lemma {:induction false} BoundOffBoardWaitsForever(st: State, p: int, lines: seq<Entry>)
    requires WellFormed(st) && !IsCell(p)
    ensures MakeMoveAsWritten(st, Some(p), lines) == Waiting
    decreases |lines|
  {
    if lines != [] {
      BoundOffBoardWaitsForever(st, p, lines[1..]);
    }
  }

  /** With a free choice and board 9 open, the line "-1 s" reads the meta cell of board 9,
      binds the turn to -1 and leaves the user unable to move. */
  lemma NegativeBoardLocksOut(st: State, s: int, lines: seq<Entry>)
    requires WellFormed(st) && st[0].display[9] == '-'
    ensures MakeMoveAsWritten(st, None, [Pair(-1, s)] + lines) == Waiting
  {
    var all := [Pair(-1, s)] + lines;
    assert all[0] == Pair(-1, s) && all[1..] == lines;
    assert Rebind(st, None, -1) == Ok(Some(-1));
    BoundOffBoardWaitsForever(st, -1, lines);
  }

  /** While the choice is restricted to a board nothing is rebound, so both loops agree. */
  lemma {:induction false} RestrictedLoopsAgree(st: State, p: int, lines: seq<Entry>)
    requires WellFormed(st) && IsCell(p)
    ensures MakeMoveAsWritten(st, Some(p), lines) == MakeMove(st, Some(p), lines)
    decreases |lines|
  {
    if lines != [] {
      RestrictedLoopsAgree(st, p, lines[1..]);
    }
  }

  /** The restriction the corrected loop honours: a previous move that names no board
      leaves the choice free. */
  function Restriction(prev: Option<int>): (r: Option<int>)
    ensures r.None? <==> prev.None? || !IsCell(prev.value)
    ensures r.Some? ==> r == prev
  {
    if prev.Some? && IsCell(prev.value) then prev else None
  }

  /** make_move with the rebinding confined to the line being checked, and with a
      restriction that names no board treated as a free choice. */
  function MakeMove(st: State, prev: Option<int>, lines: seq<Entry>): (r: Outcome)
    requires WellFormed(st)
    decreases |lines|
  {
    if lines == [] then Waiting
    else match lines[0]
      case Malformed => MakeMove(st, prev, lines[1..])
      case Pair(b, s) =>
        match Rebind(st, Restriction(prev), b)
        case Err(_) => Crashed
        case Ok(p) => if Accepts(st, p, b, s) then Chosen((b, s)) else MakeMove(st, prev, lines[1..])
  }

  /** A restriction that names no board binds nothing in the corrected loop: it behaves
      as a free choice. */
  lemma {:induction false} OffBoardRestrictionIsFree(st: State, p: int, lines: seq<Entry>)
    requires WellFormed(st) && !IsCell(p)
    ensures MakeMove(st, Some(p), lines) == MakeMove(st, None, lines)
    decreases |lines|
  {
    if lines != [] {
      OffBoardRestrictionIsFree(st, p, lines[1..]);
    }
  }

  /** A restriction outside 1..9, such as 45, with an open board 1 whose cell 1 is blank:
      the loop as written waits on "1 1" while the corrected loop accepts it. */
  lemma OffBoardRestrictionExample(st: State)
    requires WellFormed(st) && st[0].display[1] == '-' && st[1].display[1] == '-'
    ensures MakeMoveAsWritten(st, Some(45), [Pair(1, 1)]) == Waiting
    ensures MakeMove(st, Some(45), [Pair(1, 1)]) == Chosen((1, 1))
  {
    BoundOffBoardWaitsForever(st, 45, [Pair(1, 1)]);
    assert Rebind(st, None, 1) == Ok(Some(1));
  }

  /** A line names a legal move: a blank cell of an open board, on the board the previous
      move points at unless the choice is free (no previous board, or one outside 1..9). */
  predicate Legal(st: State, prev: Option<int>, e: Entry)
    requires WellFormed(st)
  {
    && e.Pair? && IsCell(e.big) && IsCell(e.small)
    && st[0].display[e.big] == '-' && st[e.big].display[e.small] == '-'
    && (Restriction(prev).None? || prev == Some(e.big))
  }

  /** A line that would raise IndexError. */
  predicate Crashes(prev: Option<int>, e: Entry)
  {
    e.Pair? && Restriction(prev).None? && !(-10 <= e.big < 10)
  }

  /** The corrected loop returns the first legal line, unless a line before it crashes,
      and waits when there is none. */
  lemma {:induction false} MakeMoveTakesFirstLegal(st: State, prev: Option<int>, lines: seq<Entry>)
    requires WellFormed(st)
    ensures var r := MakeMove(st, prev, lines);
      && (r.Chosen? <==> exists k :: 0 <= k < |lines| && Legal(st, prev, lines[k])
                           && forall j :: 0 <= j < k ==> !Crashes(prev, lines[j]))
      && (r.Chosen? ==> exists k :: 0 <= k < |lines| && Legal(st, prev, lines[k])
                           && r.move == (lines[k].big, lines[k].small)
                           && forall j :: 0 <= j < k ==> !Legal(st, prev, lines[j]) && !Crashes(prev, lines[j]))
    decreases |lines|
  {
    if lines != [] {
      MakeMoveTakesFirstLegal(st, prev, lines[1..]);
      var r := MakeMove(st, prev, lines);
      var e := lines[0];
      assert e.Pair? ==> (Legal(st, prev, e) <==> !Crashes(prev, e) && Accepts(st, Rebind(st, Restriction(prev), e.big).value, e.big, e.small));
      if !Legal(st, prev, e) && !Crashes(prev, e) {
        assert r == MakeMove(st, prev, lines[1..]);
        forall k | 1 <= k < |lines|
          ensures lines[k] == lines[1..][k - 1]
        {
        }
        if r.Chosen? {
          var k :| 0 <= k < |lines[1..]| && Legal(st, prev, lines[1..][k])
                   && r.move == (lines[1..][k].big, lines[1..][k].small)
                   && forall j :: 0 <= j < k ==> !Legal(st, prev, lines[1..][j]) && !Crashes(prev, lines[1..][j]);
          assert Legal(st, prev, lines[k + 1]);
        } else {
          forall k | 0 <= k < |lines| && Legal(st, prev, lines[k])
            ensures exists j :: 0 <= j < k && Crashes(prev, lines[j])
          {
            assert k >= 1 && Legal(st, prev, lines[1..][k - 1]);
            var j :| 0 <= j < k - 1 && Crashes(prev, lines[1..][j]);
            assert Crashes(prev, lines[j + 1]);
          }
        }
      }
    }
  }

  /** At a game position the lines the corrected loop accepts are exactly the moves the
      tracker offers. */
  lemma LegalIsOffered(t: Tracker, st: State, prev: Option<int>, b: int, s: int)
    requires TrackerAgrees(t, st)
    requires prev.Some? ==> IsCell(prev.value) && st[0].display[prev.value] == '-'
    ensures Legal(st, prev, Pair(b, s)) <==> (b, s) in CurrentLegalMoves(t, prev)
  {
    GeneratorsAgree(t, st, prev);
  }
}
