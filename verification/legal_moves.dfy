/** BasePlayer: the legal-move tracker shared by all players (a per-board list of cells
    still open, which only shrinks between resets) and the two move generators. */
module BasePlayer {
  import opened Wrappers
  import opened Assets
  import opened GameState
  import opened StateChecker
  import opened StateUpdater

  /** legal_moves: index 0 is unused, index b lists the open cells of board b. */
  type Tracker = seq<seq<int>>

  /** A move (big, small): the board and the cell on it. */
  type Move = (int, int)

  const AllCells: seq<int> := [1, 2, 3, 4, 5, 6, 7, 8, 9]

  predicate ValidTracker(t: Tracker)
  {
    |t| == 10 && forall b :: 0 <= b < 10 ==> forall s :: s in t[b] ==> IsCell(s)
  }

  function ResetLegalMoves(): (t: Tracker)
    ensures ValidTracker(t)
    ensures t[0] == []
    ensures forall b :: IsCell(b) ==> t[b] == AllCells
  {
    [[]] + seq(9, _ => AllCells)
  }

  /** `s` is obtained from `t` by deleting some of its entries. */
  ghost predicate IsSubsequence(s: seq<int>, t: seq<int>)
  {
    exists keep: seq<bool> :: |keep| == |t| && s == Kept(t, keep)
  }

  function Kept(t: seq<int>, keep: seq<bool>): (r: seq<int>)
    requires |keep| == |t|
  {
    if t == [] then [] else (if keep[0] then [t[0]] else []) + Kept(t[1..], keep[1..])
  }

  /** list.index: the position of the first occurrence of x. */
  function FirstIndex(s: seq<int>, x: int): (i: nat)
    requires x in s
    ensures i < |s| && s[i] == x && x !in s[..i]
  {
    if s[0] == x then 0
    else
      var j := FirstIndex(s[1..], x);
      assert s[..j + 1] == [s[0]] + s[1..][..j];
      j + 1
  }

  /** list.remove: drop the first occurrence of x, or report that there is none. */
  function RemoveFirst(s: seq<int>, x: int): (r: Option<seq<int>>)
    ensures r.Some? <==> x in s
    ensures r.Some? ==> exists i :: 0 <= i < |s| && s[i] == x && x !in s[..i] && r.value == s[..i] + s[i + 1..]
  {
    if x in s then
      var i := FirstIndex(s, x);
      Some(s[..i] + s[i + 1..])
    else None
  }

  lemma DeleteIsSubsequence(s: seq<int>, i: int)
    requires 0 <= i < |s|
    ensures IsSubsequence(s[..i] + s[i + 1..], s)
  {
    var keep := seq(|s|, k => k != i);
    KeptDelete(s, keep, i);
  }

  lemma {:induction false} KeptDelete(s: seq<int>, keep: seq<bool>, i: int)
    requires 0 <= i < |s| && |keep| == |s|
    requires forall k :: 0 <= k < |s| ==> keep[k] == (k != i)
    ensures Kept(s, keep) == s[..i] + s[i + 1..]
    decreases |s|
  {
    if i == 0 {
      KeptAll(s[1..], keep[1..]);
    } else {
      KeptDelete(s[1..], keep[1..], i - 1);
      assert s[..i] == [s[0]] + s[1..][..i - 1];
      assert s[i + 1..] == s[1..][i..];
    }
  }

  lemma {:induction false} KeptAll(s: seq<int>, keep: seq<bool>)
    requires |keep| == |s| && forall k :: 0 <= k < |s| ==> keep[k]
    ensures Kept(s, keep) == s
    decreases |s|
  {
    if s != [] {
      KeptAll(s[1..], keep[1..]);
    }
  }

  lemma EmptyIsSubsequence(s: seq<int>)
    ensures IsSubsequence([], s)
  {
    var keep := seq(|s|, k => false);
    KeptNone(s, keep);
  }

  lemma {:induction false} KeptNone(s: seq<int>, keep: seq<bool>)
    requires |keep| == |s| && forall k :: 0 <= k < |s| ==> !keep[k]
    ensures Kept(s, keep) == []
    decreases |s|
  {
    if s != [] {
      KeptNone(s[1..], keep[1..]);
    }
  }

  lemma SelfIsSubsequence(s: seq<int>)
    ensures IsSubsequence(s, s)
  {
    KeptAll(s, seq(|s|, k => true));
  }

  /** update_legal_moves: a completed board loses all its moves; otherwise exactly the
      played cell is removed, and removing a cell the list does not hold is an error. */
  function UpdateLegalMoves(t: Tracker, big: int, small: int, complete: bool): (r: Result<Tracker>)
    requires |t| == 10 && 0 <= big < 10
    ensures r.Ok? ==> |r.value| == 10 && forall b :: 0 <= b < 10 && b != big ==> r.value[b] == t[b]
    ensures complete ==> r.Ok? && r.value[big] == []
    ensures !complete ==> (r.Ok? <==> small in t[big])
    ensures !complete && r.Ok? ==>
      && |r.value[big]| == |t[big]| - 1
      && multiset(r.value[big]) == multiset(t[big]) - multiset{small}
  {
    if complete then Ok(t[big := []])
    else
      match RemoveFirst(t[big], small)
      case None => Err("list.remove(x): x not in list")
      case Some(rest) =>
        RemoveFirstCounts(t[big], small);
        Ok(t[big := rest])
  }

  /** list.remove takes away exactly one occurrence. */
  lemma RemoveFirstCounts(s: seq<int>, x: int)
    requires x in s
    ensures RemoveFirst(s, x).Some?
    ensures var rest := RemoveFirst(s, x).value;
      |rest| == |s| - 1 && multiset(rest) == multiset(s) - multiset{x}
  {
    var i := FirstIndex(s, x);
    var before, after := s[..i], s[i + 1..];
    assert RemoveFirst(s, x).value == before + after;
    assert s == before + [x] + after;
    assert multiset(s) == multiset(before) + multiset{x} + multiset(after);
    assert multiset(before + after) == multiset(before) + multiset(after);
  }

  /** Between resets the tracker only shrinks: every list after an update is a
      subsequence of the list before it, and validity is kept. */
  lemma UpdateLegalMovesShrinks(t: Tracker, big: int, small: int, complete: bool)
    requires ValidTracker(t) && 0 <= big < 10
    ensures var r := UpdateLegalMoves(t, big, small, complete);
      r.Ok? ==> ValidTracker(r.value) && forall b :: 0 <= b < 10 ==> IsSubsequence(r.value[b], t[b])
  {
    var r := UpdateLegalMoves(t, big, small, complete);
    if r.Ok? {
      forall b | 0 <= b < 10 ensures IsSubsequence(r.value[b], t[b]) {
        if b != big {
          SelfIsSubsequence(t[b]);
        } else if complete {
          EmptyIsSubsequence(t[b]);
        } else {
          var rest := RemoveFirst(t[big], small).value;
          var i :| 0 <= i < |t[big]| && t[big][i] == small && small !in t[big][..i] && rest == t[big][..i] + t[big][i + 1..];
          DeleteIsSubsequence(t[big], i);
        }
      }
      forall b, s | 0 <= b < 10 && s in r.value[b] ensures IsCell(s) {
        if b == big && !complete {
          assert s in multiset(t[big]);
        }
      }
    }
  }

  /** The moves (b, s) for s in `cells`, in order. */
  function OnBoard(b: int, cells: seq<int>): (r: seq<Move>)
    ensures |r| == |cells|
    ensures forall k :: 0 <= k < |r| ==> r[k] == (b, cells[k])
  {
    seq(|cells|, k requires 0 <= k < |cells| => (b, cells[k]))
  }

  /** The tracker's moves on each board of `boards`, board by board. */
  function MovesFrom(t: Tracker, boards: seq<int>): (r: seq<Move>)
    requires |t| == 10 && forall k :: 0 <= k < |boards| ==> 0 <= boards[k] < 10
    ensures forall m :: m in r <==> m.0 in boards && m.1 in t[m.0]
    ensures |r| == TotalSize(t, boards)
  {
    if boards == [] then []
    else
      var head := OnBoard(boards[0], t[boards[0]]);
      var rest := MovesFrom(t, boards[1..]);
      assert forall m :: m in head <==> m.0 == boards[0] && m.1 in t[boards[0]] by {
        forall m | m in head ensures m.0 == boards[0] && m.1 in t[boards[0]] {
          var k :| 0 <= k < |head| && head[k] == m;
        }
        forall m: Move | m.0 == boards[0] && m.1 in t[boards[0]] ensures m in head {
          var k :| 0 <= k < |t[boards[0]]| && t[boards[0]][k] == m.1;
          assert head[k] == m;
        }
      }
      assert forall b :: b in boards <==> b == boards[0] || b in boards[1..];
      head + rest
  }

  /** The moves of r on board b, in order. */
  function MovesOn(r: seq<Move>, b: int): (res: seq<Move>)
  {
    if r == [] then [] else (if r[0].0 == b then [r[0]] else []) + MovesOn(r[1..], b)
  }

  lemma {:induction false} MovesOnAppend(a: seq<Move>, c: seq<Move>, b: int)
    ensures MovesOn(a + c, b) == MovesOn(a, b) + MovesOn(c, b)
  {
    if a == [] {
      assert a + c == c;
    } else {
      var h := if a[0].0 == b then [a[0]] else [];
      assert (a + c)[0] == a[0] && (a + c)[1..] == a[1..] + c;
      assert MovesOn(a + c, b) == h + MovesOn(a[1..] + c, b);
      MovesOnAppend(a[1..], c, b);
      assert MovesOn(a, b) == h + MovesOn(a[1..], b);
    }
  }

  lemma {:induction false} MovesOnBoard(b0: int, cells: seq<int>, b: int)
    ensures MovesOn(OnBoard(b0, cells), b) == if b == b0 then OnBoard(b0, cells) else []
  {
    if cells != [] {
      assert OnBoard(b0, cells)[1..] == OnBoard(b0, cells[1..]);
      MovesOnBoard(b0, cells[1..], b);
    }
  }

  predicate Increasing(boards: seq<int>)
  {
    forall i, j :: 0 <= i < j < |boards| ==> boards[i] < boards[j]
  }

  /** The moves are grouped by board, in ascending board order. */
  predicate ByBoard(r: seq<Move>)
  {
    forall i, j :: 0 <= i < j < |r| ==> r[i].0 <= r[j].0
  }

  /** Over ascending boards, MovesFrom lists the boards one after the other, and each
      board's moves are its tracked cells in tracker order. */
  lemma {:induction false} MovesFromOrder(t: Tracker, boards: seq<int>)
    requires |t| == 10 && (forall k :: 0 <= k < |boards| ==> 0 <= boards[k] < 10) && Increasing(boards)
    ensures ByBoard(MovesFrom(t, boards))
    ensures forall k :: 0 <= k < |boards| ==> MovesOn(MovesFrom(t, boards), boards[k]) == OnBoard(boards[k], t[boards[k]])
    ensures forall b :: b !in boards ==> MovesOn(MovesFrom(t, boards), b) == []
  {
    if boards != [] {
      var head := OnBoard(boards[0], t[boards[0]]);
      var rest := MovesFrom(t, boards[1..]);
      var r := MovesFrom(t, boards);
      assert r == head + rest;
      assert Increasing(boards[1..]);
      MovesFromOrder(t, boards[1..]);
      hide MovesFrom;
      ConcatByBoard(head, rest, boards[0]);
      forall b ensures MovesOn(r, b) == MovesOn(head, b) + MovesOn(rest, b) {
        MovesOnAppend(head, rest, b);
      }
      hide MovesOn;
      forall k | 0 <= k < |boards| ensures MovesOn(r, boards[k]) == OnBoard(boards[k], t[boards[k]]) {
        MovesOnBoard(boards[0], t[boards[0]], boards[k]);
        if k > 0 {
          assert boards[k] == boards[1..][k - 1];
        } else {
          assert boards[0] !in boards[1..];
        }
      }
      forall b | b !in boards ensures MovesOn(r, b) == [] {
        MovesOnBoard(boards[0], t[boards[0]], b);
        assert b !in boards[1..];
      }
    }
  }

  /** A run of moves on board b followed by moves in board order on later boards is in
      board order. */
  lemma ConcatByBoard(head: seq<Move>, rest: seq<Move>, b: int)
    requires forall k :: 0 <= k < |head| ==> head[k].0 == b
    requires forall m :: m in rest ==> m.0 > b
    requires ByBoard(rest)
    ensures ByBoard(head + rest)
  {
    var r := head + rest;
    forall i, j | 0 <= i < j < |r| ensures r[i].0 <= r[j].0 {
      if j >= |head| {
        assert r[j] == rest[j - |head|] && rest[j - |head|] in rest;
        if i >= |head| {
          assert r[i] == rest[i - |head|];
        }
      }
    }
  }

  function TotalSize(t: Tracker, boards: seq<int>): (r: nat)
    requires |t| == 10 && forall k :: 0 <= k < |boards| ==> 0 <= boards[k] < 10
  {
    if boards == [] then 0 else |t[boards[0]]| + TotalSize(t, boards[1..])
  }

  /** The sub-board indices 1..9 in ascending order. */
  const SubBoards: seq<int> := [1, 2, 3, 4, 5, 6, 7, 8, 9]

  /** get_current_legal_moves' unrestricted order: boards 1..9 one after the other, each
      board's moves being its tracked cells in tracker order. */
  predicate InBoardOrder(r: seq<Move>, t: Tracker)
    requires |t| == 10
  {
    ByBoard(r) && forall b :: 1 <= b <= 9 ==> MovesOn(r, b) == OnBoard(b, t[b])
  }

  lemma SubBoardsOrder(t: Tracker)
    requires |t| == 10
    ensures InBoardOrder(MovesFrom(t, SubBoards), t)
  {
    SubBoardsIncreasing();
    MovesFromOrder(t, SubBoards);
    var r := MovesFrom(t, SubBoards);
    hide MovesFrom, MovesOn, OnBoard;
    forall b | 1 <= b <= 9 ensures MovesOn(r, b) == OnBoard(b, t[b]) {
      assert b == SubBoards[b - 1];
    }
  }

  lemma SubBoardsIncreasing()
    ensures Increasing(SubBoards) && |SubBoards| == 9
    ensures forall i :: 0 <= i < 9 ==> SubBoards[i] == i + 1
  {
    assert forall i :: 0 <= i < 9 ==> SubBoards[i] == i + 1;
  }

  /** get_current_legal_moves: unrestricted, every tracked move of boards 1..9 in board
      order; restricted to p, the tracked cells of board p. */
  function CurrentLegalMoves(t: Tracker, prev: Option<int>): (r: seq<Move>)
    requires |t| == 10 && (prev.Some? ==> 0 <= prev.value < 10)
    ensures prev.None? ==> forall m :: m in r <==> IsCell(m.0) && m.1 in t[m.0]
    ensures prev.None? ==> |r| == TotalSize(t, SubBoards)
    ensures prev.Some? ==> |r| == |t[prev.value]|
    ensures prev.Some? ==> forall k :: 0 <= k < |r| ==> r[k] == (prev.value, t[prev.value][k])
  {
    match prev
    case None =>
      assert forall b :: b in SubBoards <==> IsCell(b);
      MovesFrom(t, SubBoards)
    case Some(p) => OnBoard(p, t[p])
  }

  /** The unrestricted query lists boards 1..9 one after the other, each board's moves
      being its tracked cells in tracker order. */
  lemma CurrentLegalMovesOrder(t: Tracker)
    requires |t| == 10
    ensures InBoardOrder(CurrentLegalMoves(t, None), t)
  {
    SubBoardsOrder(t);
  }

  /** After a reset, an unrestricted query offers all 81 moves. */
  lemma ResetOffersAll()
    ensures |CurrentLegalMoves(ResetLegalMoves(), None)| == 81
    ensures forall b, s :: IsCell(b) && IsCell(s) ==> (b, s) in CurrentLegalMoves(ResetLegalMoves(), None)
  {
    var t := ResetLegalMoves();
    ResetCount(t);
    var r := CurrentLegalMoves(t, None);
    forall b, s | IsCell(b) && IsCell(s) ensures (b, s) in r {
      AllCellsHolds(s);
      assert s in t[b];
    }
  }

  lemma AllCellsHolds(s: int)
    requires IsCell(s)
    ensures s in AllCells
  {
    assert AllCells[s - 1] == s;
  }

  lemma ResetCount(t: Tracker)
    requires |t| == 10 && forall b :: IsCell(b) ==> t[b] == AllCells
    ensures TotalSize(t, SubBoards) == 81
  {
    assert |AllCells| == 9;
    forall k | 0 <= k < |SubBoards| ensures 0 <= SubBoards[k] < 10 && |t[SubBoards[k]]| == 9 {
      assert SubBoards[k] == k + 1;
    }
    TotalSizeUniform(t, SubBoards, 9);
  }

  lemma {:induction false} TotalSizeUniform(t: Tracker, boards: seq<int>, n: nat)
    requires |t| == 10 && forall k :: 0 <= k < |boards| ==> 0 <= boards[k] < 10 && |t[boards[k]]| == n
    ensures TotalSize(t, boards) == n * |boards|
  {
    if boards != [] {
      TotalSizeUniform(t, boards[1..], n);
    }
  }

  /** The indices k of display d, in ascending order, whose character is '-'. */
  function BlankIndices(d: string, from: nat): (r: seq<int>)
    requires from <= |d|
    ensures forall k :: k in r <==> from <= k < |d| && d[k] == '-'
    ensures forall k :: 0 <= k < |r| ==> from <= r[k] < |d|
    decreases |d| - from
  {
    if from == |d| then []
    else if d[from] == '-' then [from] + BlankIndices(d, from + 1)
    else BlankIndices(d, from + 1)
  }

  /** The restriction is lifted when there is none or when it points at a board that is
      already complete on the meta-board. */
  predicate Unrestricted(st: State, prev: Option<int>)
    requires WellFormed(st) && (prev.Some? ==> 0 <= prev.value < 10)
  {
    prev.None? || st[0].display[prev.value] != '-'
  }

  /** get_legal_moves_for_state: unrestricted, the tracked moves of every board still
      open on the meta-board; restricted to p, the blank cells of board p's display,
      whatever the tracker holds. */
  function LegalMovesForState(t: Tracker, st: State, prev: Option<int>): (r: seq<Move>)
    requires |t| == 10 && WellFormed(st) && (prev.Some? ==> 0 <= prev.value < 10)
    ensures Unrestricted(st, prev) ==>
      forall m :: m in r <==> IsCell(m.0) && st[0].display[m.0] == '-' && m.1 in t[m.0]
    ensures !Unrestricted(st, prev) ==>
      forall m :: m in r <==> m.0 == prev.value && IsCell(m.1) && st[prev.value].display[m.1] == '-'
  {
    if Unrestricted(st, prev) then
      MovesFrom(t, BlankIndices(st[0].display, 0))
    else
      var p := prev.value;
      var cells := BlankIndices(st[p].display, 0);
      var r := OnBoard(p, cells);
      assert forall m :: m in r <==> m.0 == p && m.1 in cells by {
        forall m | m in r ensures m.0 == p && m.1 in cells {
          var k :| 0 <= k < |r| && r[k] == m;
        }
        forall m: Move | m.0 == p && m.1 in cells ensures m in r {
          var k :| 0 <= k < |cells| && cells[k] == m.1;
          assert r[k] == m;
        }
      }
      r
  }

  /** With a valid tracker, every generated move names a sub-board and a cell. */
  lemma LegalMovesAreCells(t: Tracker, st: State, prev: Option<int>)
    requires ValidTracker(t) && WellFormed(st) && (prev.Some? ==> 0 <= prev.value < 10)
    ensures forall m :: m in LegalMovesForState(t, st, prev) ==> IsCell(m.0) && IsCell(m.1)
    ensures forall m :: m in CurrentLegalMoves(t, prev) ==> IsCell(m.1)
  {
    StateMovesAreCells(t, st, prev);
    var r := CurrentLegalMoves(t, prev);
    forall m | m in r ensures IsCell(m.1) {
      TrackedMoveIsCell(t, prev, m);
    }
  }

  lemma StateMovesAreCells(t: Tracker, st: State, prev: Option<int>)
    requires ValidTracker(t) && WellFormed(st) && (prev.Some? ==> 0 <= prev.value < 10)
    ensures forall m :: m in LegalMovesForState(t, st, prev) ==> IsCell(m.0) && IsCell(m.1)
  {
    var r := LegalMovesForState(t, st, prev);
    forall m | m in r ensures IsCell(m.0) && IsCell(m.1) {
      if Unrestricted(st, prev) {
        assert m.1 in t[m.0];
      }
    }
  }

  lemma TrackedMoveIsCell(t: Tracker, prev: Option<int>, m: Move)
    requires ValidTracker(t) && (prev.Some? ==> 0 <= prev.value < 10)
    requires m in CurrentLegalMoves(t, prev)
    ensures IsCell(m.1)
  {
    var r := CurrentLegalMoves(t, prev);
    if prev.Some? {
      var k :| 0 <= k < |r| && r[k] == m;
      assert t[prev.value][k] in t[prev.value];
    }
  }

  /** get_legal_moves_for_state with the unrestricted branch limited to cells still blank
      in the searched state: the tracker is not updated during a search, so as written
      that branch also offers cells taken earlier on the line being searched. */
  function SearchMoves(t: Tracker, st: State, prev: Option<int>): (r: seq<Move>)
    requires ValidTracker(t) && WellFormed(st) && (prev.Some? ==> 0 <= prev.value < 10)
    ensures forall m :: m in r ==>
              && IsCell(m.0) && IsCell(m.1) && st[m.0].display[m.1] == '-'
              && (Unrestricted(st, prev) ==> st[0].display[m.0] == '-')
    ensures Unrestricted(st, prev) ==>
      forall m :: m in r <==> m in LegalMovesForState(t, st, prev) && IsCell(m.0) && IsCell(m.1) && st[m.0].display[m.1] == '-'
    ensures !Unrestricted(st, prev) ==> r == LegalMovesForState(t, st, prev)
  {
    var all := LegalMovesForState(t, st, prev);
    LegalMovesAreCells(t, st, prev);
    if Unrestricted(st, prev) then BlankOnly(st, all) else all
  }

  /** The moves of `ms` whose cell is blank, in order. */
  function BlankOnly(st: State, ms: seq<Move>): (r: seq<Move>)
    requires WellFormed(st) && forall m :: m in ms ==> IsCell(m.0) && IsCell(m.1)
    ensures forall m :: m in r <==> m in ms && IsCell(m.0) && IsCell(m.1) && st[m.0].display[m.1] == '-'
  {
    if ms == [] then []
    else
      var rest := BlankOnly(st, ms[1..]);
      assert forall m :: m in ms <==> m == ms[0] || m in ms[1..];
      var (b, c) := ms[0];
      assert IsCell(b) && IsCell(c) by { assert ms[0] in ms; }
      if st[b].display[c] == '-' then [ms[0]] + rest else rest
  }

  /** The tracker's view of a game position: every open board lists, without repeats,
      exactly its blank cells, and every completed board lists nothing. */
  ghost predicate TrackerAgrees(t: Tracker, st: State)
  {
    && ValidTracker(t) && WellFormed(st) && t[0] == []
    && forall b :: IsCell(b) ==> BoardAgrees(t[b], st[b].display, st[0].display[b] == '-')
  }

  ghost predicate BoardAgrees(cells: seq<int>, d: string, open: bool)
    requires |d| == 10
  {
    if open then NoDupCells(cells) && forall s :: s in cells <==> IsCell(s) && d[s] == '-'
    else cells == []
  }

  /** No cell listed twice. */
  ghost predicate NoDupCells(s: seq<int>)
  {
    forall x :: multiset(s)[x] <= 1
  }

  /** Pairwise distinct entries occur once each. */
  lemma {:induction false} DistinctNoDup(s: seq<int>)
    requires forall i, j :: 0 <= i < j < |s| ==> s[i] != s[j]
    ensures NoDupCells(s)
  {
    if s != [] {
      DistinctNoDup(s[1..]);
      assert s == [s[0]] + s[1..];
      assert s[0] !in s[1..];
    }
  }

  /** Taking one listed cell off a board keeps its list exactly its blank cells. */
  lemma RemovalKeepsAgreement(before: seq<int>, after: seq<int>, d: string, small: int, c: char)
    requires |d| == 10 && IsCell(small) && c != '-'
    requires BoardAgrees(before, d, true)
    requires multiset(after) == multiset(before) - multiset{small}
    ensures BoardAgrees(after, d[small := c], true)
  {
    forall s
      ensures s in after <==> IsCell(s) && d[small := c][s] == '-'
    {
      assert s in after <==> multiset(after)[s] > 0;
      assert s in before <==> multiset(before)[s] > 0;
    }
  }

  /** At a game position the tracker-driven generator and the corrected state-driven one
      offer the same moves: the blank cells of the open boards, restricted to the board
      the previous move points at when that board is open. */
  lemma GeneratorsAgree(t: Tracker, st: State, prev: Option<int>)
    requires TrackerAgrees(t, st) && (prev.Some? ==> IsCell(prev.value))
    ensures forall m :: m in SearchMoves(t, st, prev) <==> m in CurrentLegalMoves(t, if Unrestricted(st, prev) then None else prev)
    ensures forall m :: m in SearchMoves(t, st, prev) <==>
      && IsCell(m.0) && IsCell(m.1) && st[0].display[m.0] == '-' && st[m.0].display[m.1] == '-'
      && (Unrestricted(st, prev) || m.0 == prev.value)
  {
    var q := if Unrestricted(st, prev) then None else prev;
    var c := CurrentLegalMoves(t, q);
    if q.Some? {
      var p := q.value;
      forall m: Move ensures m in c <==> m.0 == p && m.1 in t[p] {
        if m in c {
          var k :| 0 <= k < |c| && c[k] == m;
        }
        if m.0 == p && m.1 in t[p] {
          var k :| 0 <= k < |t[p]| && t[p][k] == m.1;
          assert c[k] == m;
        }
      }
    }
  }

  /** During a search the tracker keeps describing the game position, where a blank cell
      is listed, while the searched state moves on.  After one searched move onto a cell
      whose number names a completed board, the unrestricted branch of the as-written
      generator offers that same cell again, although it now holds a mark. */
  lemma StaleTrackerOffersTakenCell(cache: Cache, t: Tracker, st: State, big: int, small: int, sign: Sign, a: Applied)
    requires ValidTracker(t) && WellFormed(st) && ValidCache(cache) && IsCell(big) && IsCell(small)
    requires st[0].display[big] == '-' && st[big].display[small] == '-' && st[0].display[small] != '-'
    requires small in t[big]
    requires a == UpdateState(cache, st, big, small, sign) && !a.complete
    ensures (big, small) in LegalMovesForState(t, a.state, Some(small))
    ensures a.state[big].display[small] == SignChar(sign)
  {
    assert a.state[0] == st[0];
  }

  /** A concrete position: board 3 is won by X, X plays cell 3 of the empty board 1, and
      the reply generator offers (1, 3) again. */
  lemma StaleTrackerExample()
    ensures TrackerAgrees(ExampleTracker(), ExampleState())
    ensures var a := UpdateState(map[], ExampleState(), 1, 3, X);
      (1, 3) in LegalMovesForState(ExampleTracker(), a.state, Some(3)) && a.state[1].display[3] == SignChar(X)
  {
    ExampleAgrees();
    assert 3 in ExampleTracker()[1];
    FirstMoveOnEmptyBoard(ExampleTracker(), ExampleState(), 1, 3);
  }

  /** The general shape of the example: a first mark on an empty open board, onto a
      cell whose board is complete. */
  lemma FirstMoveOnEmptyBoard(t: Tracker, st: State, big: int, small: int)
    requires ValidTracker(t) && WellFormed(st) && IsCell(big) && IsCell(small) && small in t[big]
    requires st[0].display[big] == '-' && st[0].display[small] != '-'
    requires st[big] == Board([], [], EmptyDisplay)
    ensures (big, small) in LegalMovesForState(t, UpdateState(map[], st, big, small, X).state, Some(small))
  {
    var a := UpdateState(map[], st, big, small, X);
    FirstMarkLeavesOpen(st, big, small);
    EmptyCellIsBlank(small);
    StaleTrackerOffersTakenCell(map[], t, st, big, small, X, a);
  }

  lemma EmptyCellIsBlank(i: int)
    requires IsCell(i)
    ensures EmptyDisplay[i] == '-'
  {
  }

  /** One mark on an empty open board completes nothing. */
  lemma FirstMarkLeavesOpen(st: State, big: int, small: int)
    requires WellFormed(st) && IsCell(big) && IsCell(small)
    requires st[0].display[big] == '-' && st[big] == Board([], [], EmptyDisplay)
    ensures !UpdateState(map[], st, big, small, X).complete
  {
    var p := Placed(st, big, small, X);
    assert p[big] == PlaceMark(st[big], small, X);
    assert p[big].xs == [Magic(small)] && p[big].os == [];
    var other := if small == 1 then 2 else 1;
    EmptyCellIsBlank(other);
    assert p[big].display[other] == '-';
    FewMarksUndecided(p[big]);
    assert p[0] == st[0];
    assert CheckWin(map[], p, big).0 == ComputeVerdict(p[big]);
  }

  lemma FewMarksUndecided(b: Board)
    requires |b.display| == 10 && |b.xs| < 3 && |b.os| < 3 && '-' in b.display
    ensures ComputeVerdict(b) == Undecided
  {
  }

  /** Board 3 won by X along its top row, every other board empty. */
  function ExampleState(): (st: State)
    ensures WellFormed(st) && st[3].display == "/XXX------" && st[0].display[3] == 'X'
  {
    seq(10, b =>
      if b == 0 then Board([Magic(3)], [], "/--X------")
      else if b == 3 then Board([Magic(1), Magic(2), Magic(3)], [], "/XXX------")
      else Board([], [], EmptyDisplay))
  }

  function ExampleTracker(): (r: Tracker)
  {
    seq(10, b => if b == 0 || b == 3 then [] else AllCells)
  }

  lemma ExampleAgrees()
    ensures TrackerAgrees(ExampleTracker(), ExampleState())
  {
    var st, t := ExampleState(), ExampleTracker();
    EmptyBoardAgrees();
    forall b | IsCell(b)
      ensures BoardAgrees(t[b], st[b].display, st[0].display[b] == '-')
    {
      if b == 3 {
        assert t[b] == [] && st[0].display[b] == 'X';
      } else {
        assert t[b] == AllCells && st[b] == Board([], [], EmptyDisplay) && st[0].display[b] == '-';
      }
    }
  }

  /** A reset board list describes an empty open board. */
  lemma EmptyBoardAgrees()
    ensures BoardAgrees(AllCells, EmptyDisplay, true)
  {
    DistinctNoDup(AllCells);
  }
}
