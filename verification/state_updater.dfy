/** StateUpdater: the copying transition that places one mark, re-checks the board and
    carries a completed board's result into the meta-board. No legality check is made. */
module StateUpdater {
  import opened Assets
  import opened GameState
  import opened StateChecker
  import opened Sorting

  /** The board after `sign` takes cell `small`: its value is appended to the sign's list
      and the display shows the mark. */
  function PlaceMark(b: Board, small: int, sign: Sign): (r: Board)
    requires |b.display| == 10 && IsCell(small)
    ensures Marks(r, sign) == Marks(b, sign) + [Magic(small)]
    ensures Marks(r, Opponent(sign)) == Marks(b, Opponent(sign))
    ensures |r.display| == 10 && r.display[small] == SignChar(sign)
    ensures forall i :: 0 <= i < 10 && i != small ==> r.display[i] == b.display[i]
  {
    WithMarks(b, sign, Marks(b, sign) + [Magic(small)]).(display := b.display[small := SignChar(sign)])
  }

  function SignOf(c: char): (r: Sign)
    requires c == 'X' || c == 'O'
  {
    if c == 'X' then X else O
  }

  /** update_state's result: the new state, whether board `big` is complete, and the
      win-check cache after the re-check. */
  datatype Applied = Applied(state: State, complete: bool, cache: Cache)

  /** The state after the mark is placed, before board `big` is re-checked. */
  function Placed(st: State, big: int, small: int, sign: Sign): (r: State)
    requires WellFormed(st) && IsCell(big) && IsCell(small)
    ensures WellFormed(r)
    ensures r[big] == PlaceMark(st[big], small, sign)
    ensures forall i :: 0 <= i < 10 && i != big ==> r[i] == st[i]
  {
    st[big := PlaceMark(st[big], small, sign)]
  }

  /** A completed board's result written into the meta-board: the meta display shows
      `mark`, and a winner's list gains the board's magic value; a tie adds to neither. */
  function RecordResult(st: State, big: int, mark: char): (r: State)
    requires WellFormed(st) && IsCell(big) && mark in "XOT"
    ensures WellFormed(r)
    ensures r[0].display == st[0].display[big := mark]
    ensures forall i :: 1 <= i <= 9 ==> r[i] == st[i]
    ensures mark == 'T' ==> r[0].xs == st[0].xs && r[0].os == st[0].os
    ensures mark != 'T' ==>
      && Marks(r[0], SignOf(mark)) == Marks(st[0], SignOf(mark)) + [Magic(big)]
      && Marks(r[0], Opponent(SignOf(mark))) == Marks(st[0], Opponent(SignOf(mark)))
  {
    var meta := st[0];
    var meta1 := if mark != 'T' then WithMarks(meta, SignOf(mark), Marks(meta, SignOf(mark)) + [Magic(big)])
                 else meta;
    st[0 := meta1.(display := meta.display[big := mark])]
  }

  /** update_state: the mark lands on (big, small), no other sub-board changes, and the
      meta-board changes only when check_win reports board `big` complete, in which case
      its cell shows the result and a winner's meta list gains Magic(big). */
  function UpdateState(cache: Cache, st: State, big: int, small: int, sign: Sign): (r: Applied)
    requires WellFormed(st) && IsCell(big) && IsCell(small) && ValidCache(cache)
    ensures WellFormed(r.state) && ValidCache(r.cache)
    ensures r.state[big].display[small] == SignChar(sign)
    ensures Marks(r.state[big], sign) == Marks(st[big], sign) + [Magic(small)]
    ensures Marks(r.state[big], Opponent(sign)) == Marks(st[big], Opponent(sign))
    ensures forall i :: 0 <= i < 10 && i != small ==> r.state[big].display[i] == st[big].display[i]
    ensures forall i :: 1 <= i <= 9 && i != big ==> r.state[i] == st[i]
    ensures !r.complete ==> r.state[0] == st[0]
    ensures var (w, c) := CheckWin(cache, Placed(st, big, small, sign), big);
      && r.cache == c
      && (r.complete <==> w.Decided?)
      && (r.complete ==> r.state[0].display == st[0].display[big := w.mark])
      && (w == Decided('T') ==> r.state[0].xs == st[0].xs && r.state[0].os == st[0].os)
      && (w.Decided? && w.mark != 'T' ==>
            && Marks(r.state[0], SignOf(w.mark)) == Marks(st[0], SignOf(w.mark)) + [Magic(big)]
            && Marks(r.state[0], Opponent(SignOf(w.mark))) == Marks(st[0], Opponent(SignOf(w.mark))))
  {
    var st1 := Placed(st, big, small, sign);
    var (w, c1) := CheckWin(cache, st1, big);
    if w.Decided? then Applied(RecordResult(st1, big, w.mark), true, c1)
    else Applied(st1, false, c1)
  }

  /** The completion flag agrees with a fresh check_win on the new state and cache. */
  lemma UpdateStateRechecks(cache: Cache, st: State, big: int, small: int, sign: Sign)
    requires WellFormed(st) && IsCell(big) && IsCell(small) && ValidCache(cache)
    ensures var r := UpdateState(cache, st, big, small, sign);
      r.complete <==> CheckWin(r.cache, r.state, big).0.Decided?
  {
  }

  /** Every board's value lists agree with its display. */
  predicate Consistent(st: State)
  {
    WellFormed(st) && forall i :: 0 <= i < 10 ==> Matches(st[i])
  }

  lemma AppendKeepsNoDup(s: seq<int>, v: int)
    requires NoDup(s) && v !in Elems(s)
    ensures NoDup(s + [v]) && Elems(s + [v]) == Elems(s) + {v}
  {
    assert forall x :: x in s + [v] <==> x in s || x == v;
  }

  lemma PlaceMarkKeepsMatch(b: Board, small: int, sign: Sign)
    requires |b.display| == 10 && IsCell(small) && b.display[small] == '-' && Matches(b)
    ensures Matches(PlaceMark(b, small, sign))
  {
    var r := PlaceMark(b, small, sign);
    assert r.display == b.display[small := SignChar(sign)];
    CellValuesWrite(b.display, small, SignChar(sign), SignChar(sign));
    CellValuesWrite(b.display, small, SignChar(sign), SignChar(Opponent(sign)));
    AppendKeepsNoDup(Marks(b, sign), Magic(small));
    match sign
    case X =>
    case O =>
  }

  lemma RecordResultKeepsMatch(st: State, big: int, mark: char)
    requires WellFormed(st) && IsCell(big) && mark in "XOT" && st[0].display[big] == '-' && Matches(st[0])
    ensures Matches(RecordResult(st, big, mark)[0])
  {
    var r := RecordResult(st, big, mark)[0];
    CellValuesWrite(st[0].display, big, mark, 'X');
    CellValuesWrite(st[0].display, big, mark, 'O');
    if mark == 'X' {
      AppendKeepsNoDup(st[0].xs, Magic(big));
    } else if mark == 'O' {
      AppendKeepsNoDup(st[0].os, Magic(big));
    }
  }

  /** A move onto a blank cell of an open board keeps every board's value lists in step
      with its display, whatever the cache holds. */
  lemma UpdateStateKeepsConsistency(cache: Cache, st: State, big: int, small: int, sign: Sign)
    requires Consistent(st) && IsCell(big) && IsCell(small) && ValidCache(cache)
    requires st[0].display[big] == '-' && st[big].display[small] == '-'
    ensures Consistent(UpdateState(cache, st, big, small, sign).state)
  {
    var st1 := Placed(st, big, small, sign);
    PlaceMarkKeepsMatch(st[big], small, sign);
    assert forall i :: 0 <= i < 10 ==> Matches(st1[i]);
    var (w, c1) := CheckWin(cache, st1, big);
    if w.Decided? {
      RecordResultKeepsMatch(st1, big, w.mark);
      var st2 := RecordResult(st1, big, w.mark);
      assert forall i :: 0 <= i < 10 ==> Matches(st2[i]) by {
        forall i | 0 <= i < 10 ensures Matches(st2[i]) {
          if i != 0 { assert st2[i] == st1[i]; }
        }
      }
    }
  }

  /** No board of the position shows a line for both sides. */
  predicate SingleWins(st: State)
    requires WellFormed(st)
  {
    forall i :: 0 <= i < 10 ==> !DoubleWin(st[i].display)
  }

  /** A mark placed on a board without a line, while the meta-board has no line either,
      never leaves a board showing lines for both sides, so the boards check_win sees
      in play are those on which its cache stays coherent. */
  lemma UpdateStateKeepsSingleWins(cache: Cache, st: State, big: int, small: int, sign: Sign)
    requires WellFormed(st) && IsCell(big) && IsCell(small) && ValidCache(cache)
    requires SingleWins(st) && NoLine(st[big].display) && NoLine(st[0].display)
    ensures SingleWins(UpdateState(cache, st, big, small, sign).state)
  {
    var r := UpdateState(cache, st, big, small, sign);
    WriteKeepsSingleWin(st[big].display, small, SignChar(sign));
    assert r.state[big].display == st[big].display[small := SignChar(sign)];
    if r.complete {
      var w := CheckWin(cache, Placed(st, big, small, sign), big).0;
      WriteKeepsSingleWin(st[0].display, big, w.mark);
      assert r.state[0].display == st[0].display[big := w.mark];
    }
    forall i | 0 <= i < 10 ensures !DoubleWin(r.state[i].display) {
      if i != big && i != 0 {
        assert r.state[i] == st[i];
      }
    }
  }

  /** A move onto a blank cell uses up exactly one blank cell of the sub-boards, which
      bounds every line of play. */
  lemma UpdateStateUsesBlank(cache: Cache, st: State, big: int, small: int, sign: Sign)
    requires WellFormed(st) && IsCell(big) && IsCell(small) && ValidCache(cache)
    requires st[big].display[small] == '-'
    ensures Blanks(UpdateState(cache, st, big, small, sign).state) == Blanks(st) - 1
  {
    var r := UpdateState(cache, st, big, small, sign).state;
    assert r[big].display == st[big].display[small := SignChar(sign)];
    CountCharOverwrite(st[big].display, small, '-', SignChar(sign));
    BlanksFromStep(st, r, big, 1);
  }
}
