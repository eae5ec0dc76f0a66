/** CodinGame: the single-file bot that talks to the referee.  The referee may send the
    list of legal moves, which then overrides the shared tracker; the opponent's moves
    arrive as "row col" text. */
module CodinGame {
  import opened Wrappers
  import opened Assets
  import opened GameState
  import opened BasePlayer
  import opened SearchPolicy
  import opened Convert

  /** The bot's dynamic search starts three plies deep rather than five. */
  const BotInitDynamicDepth: int := 3

  /** The depth the bot's engine is built with. */
  const BotDepth: int := 3

  /** MiniMaxPlayer.__init__ in the bot. */
  function NewBotSearcher(option: DepthOption, randomness: bool): (p: Searcher)
    ensures OnSchedule(p, BotInitDynamicDepth)
    ensures option.Dynamic? ==> p.targetDepth == BotInitDynamicDepth && p.dynamic
    ensures option == Static(BotDepth) ==> p.targetDepth == BotDepth && !p.dynamic && !p.timed
  {
    NewSearcher(option, randomness, BotInitDynamicDepth)
  }

  /** get_current_legal_moves with the referee's list: a nonempty list from the referee
      wins, otherwise the tracker rules apply. */
  function OfferedMoves(referee: seq<Move>, t: Tracker, prev: Option<int>): (r: seq<Move>)
    requires |t| == 10 && (prev.Some? ==> 0 <= prev.value < 10)
    ensures referee != [] ==> r == referee
    ensures referee == [] && prev.None? ==> forall m :: m in r <==> IsCell(m.0) && m.1 in t[m.0]
    ensures referee == [] && prev.Some? ==> forall m :: m in r <==> m.0 == prev.value && m.1 in t[prev.value]
    ensures referee == [] && prev.None? ==> InBoardOrder(r, t)
    ensures referee == [] && prev.Some? ==>
      |r| == |t[prev.value]| && forall k :: 0 <= k < |r| ==> r[k] == (prev.value, t[prev.value][k])
  {
    if referee != [] then referee
    else
      var r := CurrentLegalMoves(t, prev);
      if prev.None? then CurrentLegalMovesOrder(t); r else
      assert prev.Some? ==> forall m :: m in r ==> m.0 == prev.value && m.1 in t[prev.value];
      assert prev.Some? ==> forall k :: 0 <= k < |t[prev.value]| ==> r[k] == (prev.value, t[prev.value][k]);
      r
  }

  /** A move is legal at a position: a blank cell of an open board, on the board the
      previous move points at when that board is open. */
  predicate LegalAt(st: State, prev: Option<int>, m: Move)
    requires WellFormed(st) && (prev.Some? ==> 0 <= prev.value < 10)
  {
    && IsCell(m.0) && IsCell(m.1) && st[0].display[m.0] == '-' && st[m.0].display[m.1] == '-'
    && (Unrestricted(st, prev) || m.0 == prev.value)
  }

  /** Whether or not the referee sends its list, the bot is offered exactly the legal
      moves, as long as that list is itself exact and the tracker agrees with the board. */
  lemma OfferedMovesAreLegal(referee: seq<Move>, t: Tracker, st: State, prev: Option<int>)
    requires TrackerAgrees(t, st)
    requires prev.Some? ==> IsCell(prev.value) && st[0].display[prev.value] == '-'
    requires forall m :: m in referee ==> LegalAt(st, prev, m)
    requires forall m :: LegalAt(st, prev, m) && referee != [] ==> m in referee
    ensures forall m :: m in OfferedMoves(referee, t, prev) <==> LegalAt(st, prev, m)
  {
    if referee == [] {
      GeneratorsAgree(t, st, prev);
      assert !Unrestricted(st, prev) <==> prev.Some?;
    }
  }

  /** UserPlayer.make_move in the bot: the referee's first line when there is one, else
      the next line, read through to_idx; the first line is used up either way. */
  function ReadOpponentMove(first: Option<string>, line: string): (r: (Option<string>, Result<Move>))
    ensures r.0 == None
    ensures r.1.Ok? ==> IsCell(r.1.value.0) && IsCell(r.1.value.1)
  {
    var text := if first.Some? && first.value != "" then first.value else line;
    (None, ToIdx(text))
  }

  /** The referee's text for a cell is read back as that cell. */
  lemma OpponentMoveRoundTrip(b: int, s: int)
    requires IsCell(b) && IsCell(s)
    ensures ToRc(b, s).Ok?
    ensures ReadOpponentMove(None, ToRc(b, s).value).1 == Ok((b, s))
    ensures ReadOpponentMove(Some(ToRc(b, s).value), "").1 == Ok((b, s))
  {
    ToRcThenToIdx(b, s);
  }
}
