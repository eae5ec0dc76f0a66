/** The board codec: the Lo Shu magic square that turns "three in a line" into
    "three values summing to 15", and the X/O swap used for symmetric cache keys. */
module Assets {
  import opened Wrappers

  /** Cell 1..9 of a board, read row by row, to its magic-square value; index 0 is unused. */
  const MagicSquare: seq<Option<int>> :=
    [None, Some(2), Some(7), Some(6), Some(9), Some(5), Some(1), Some(4), Some(3), Some(8)]

  predicate IsCell(i: int) { 1 <= i <= 9 }

  function Magic(cell: int): (v: int)
    requires IsCell(cell)
    ensures 1 <= v <= 9
  {
    MagicSquare[cell].value
  }

  /** The eight winning lines of a 3x3 board, each as increasing cell indices. */
  const Lines: set<(int, int, int)> :=
    {(1, 2, 3), (4, 5, 6), (7, 8, 9), (1, 4, 7), (2, 5, 8), (3, 6, 9), (1, 5, 9), (3, 5, 7)}

  /** The table is a permutation of 1..9 with nothing at index 0. */
  lemma MagicSquareIsPermutation()
    ensures |MagicSquare| == 10 && MagicSquare[0] == None
    ensures forall i :: IsCell(i) ==> MagicSquare[i].Some?
    ensures forall i, j :: IsCell(i) && IsCell(j) && i != j ==> Magic(i) != Magic(j)
    ensures (set i | 1 <= i <= 9 :: Magic(i)) == {1, 2, 3, 4, 5, 6, 7, 8, 9}
  {
    var vs := set i | 1 <= i <= 9 :: Magic(i);
    assert Magic(6) == 1 && Magic(1) == 2 && Magic(8) == 3 && Magic(7) == 4 && Magic(5) == 5;
    assert Magic(3) == 6 && Magic(2) == 7 && Magic(9) == 8 && Magic(4) == 9;
    assert forall v :: v in vs ==> 1 <= v <= 9;
  }

  /** Three distinct cells sum to 15 exactly when they form a row, column or diagonal. */
  lemma MagicSumIsLine(i: int, j: int, k: int)
    requires IsCell(i) && IsCell(j) && IsCell(k) && i < j < k
    ensures Magic(i) + Magic(j) + Magic(k) == 15 <==> (i, j, k) in Lines
  {
    if i == 1 {
      if j == 2 {} else if j == 3 {} else if j == 4 {} else if j == 5 {} else if j == 6 {} else {}
    } else if i == 2 {
      if j == 3 {} else if j == 4 {} else if j == 5 {} else if j == 6 {} else {}
    } else if i == 3 {
      if j == 4 {} else if j == 5 {} else if j == 6 {} else {}
    } else if i == 4 {
      if j == 5 {} else if j == 6 {} else {}
    } else {
    }
  }

  function InvertChar(c: char): (r: char)
  {
    if c == 'X' then 'O' else if c == 'O' then 'X' else c
  }

  /** inverse_board_display: swap every X with O and keep every other character. */
  function InvertDisplay(d: string): (r: string)
    ensures |r| == |d|
    ensures forall i :: 0 <= i < |d| ==>
      (r[i] == 'O' <==> d[i] == 'X') && (r[i] == 'X' <==> d[i] == 'O') &&
      (d[i] != 'X' && d[i] != 'O' ==> r[i] == d[i])
  {
    seq(|d|, i requires 0 <= i < |d| => InvertChar(d[i]))
  }

  /** Inverting twice gives the original display back. */
  lemma InvertInvolution(d: string)
    ensures InvertDisplay(InvertDisplay(d)) == d
  {
  }

  /** A display with neither X nor O (empty, only blanks/ties/markers) is its own inverse. */
  lemma InvertFixedPoint(d: string)
    requires 'X' !in d && 'O' !in d
    ensures InvertDisplay(d) == d
  {
  }

  /** Inversion moves X's to O's, so a display holding an X or an O is never its own inverse. */
  lemma InvertMovesMarks(d: string)
    requires 'X' in d || 'O' in d
    ensures InvertDisplay(d) != d
  {
    var i :| 0 <= i < |d| && (d[i] == 'X' || d[i] == 'O');
    assert InvertDisplay(d)[i] != d[i];
  }

  /** Blanks are kept, so inversion keeps whether a board still has an empty cell. */
  lemma InvertKeepsBlanks(d: string)
    ensures '-' in InvertDisplay(d) <==> '-' in d
  {
    var r := InvertDisplay(d);
    if '-' in d {
      var i :| 0 <= i < |d| && d[i] == '-';
      assert r[i] == '-';
    }
    if '-' in r {
      var i :| 0 <= i < |r| && r[i] == '-';
      assert d[i] == '-';
    }
  }
}
