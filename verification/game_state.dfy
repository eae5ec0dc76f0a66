/** The game state: ten boards (index 0 is the meta-board, 1..9 the sub-boards), each
    holding the magic-square values taken by X and by O, in play order, and a
    ten-character display whose index 0 is the marker '/'. */
module GameState {
  import opened Assets
  import opened Sorting

  datatype Sign = X | O

  function SignChar(s: Sign): (c: char)
  {
    match s
    case X => 'X'
    case O => 'O'
  }

  function Opponent(s: Sign): (r: Sign)
  {
    match s
    case X => O
    case O => X
  }

  datatype Board = Board(xs: seq<int>, os: seq<int>, display: string)

  /** board[sign]: the values taken by one side. */
  function Marks(b: Board, s: Sign): (r: seq<int>)
  {
    match s
    case X => b.xs
    case O => b.os
  }

  function WithMarks(b: Board, s: Sign, m: seq<int>): (r: Board)
    ensures Marks(r, s) == m && Marks(r, Opponent(s)) == Marks(b, Opponent(s))
    ensures r.display == b.display
  {
    match s
    case X => b.(xs := m)
    case O => b.(os := m)
  }

  type State = seq<Board>

  const EmptyDisplay: string := "/---------"

  /** Ten boards of ten display characters, the '/' marker at index 0 of every display,
      and meta-board cells that are blank, a winner or a tie. */
  predicate WellFormed(st: State)
  {
    && |st| == 10
    && (forall i :: 0 <= i < 10 ==> |st[i].display| == 10 && st[i].display[0] == '/')
    && (forall c :: 1 <= c <= 9 ==> st[0].display[c] in "-XOT")
  }

  /** The magic-square values of the cells of display d that show c. */
  function CellValues(d: string, c: char): (r: set<int>)
    requires |d| == 10
  {
    set i | 1 <= i <= 9 && d[i] == c :: Magic(i)
  }

  /** The value lists agree with the display: each side's list holds, without repeats,
      exactly the values of the cells showing its mark. */
  predicate Matches(b: Board)
    requires |b.display| == 10
  {
    && NoDup(b.xs) && Elems(b.xs) == CellValues(b.display, 'X')
    && NoDup(b.os) && Elems(b.os) == CellValues(b.display, 'O')
  }

  lemma CellValuesMarked(d: string, c: char, v: int)
    requires |d| == 10 && v in CellValues(d, c)
    ensures c in d
  {
    var i :| 1 <= i <= 9 && d[i] == c && Magic(i) == v;
  }

  /** Writing c into a blank cell adds that cell's value to c's set and to no other. */
  lemma CellValuesWrite(d: string, cell: int, c: char, e: char)
    requires |d| == 10 && IsCell(cell) && d[cell] == '-' && c != '-' && e != '-'
    ensures CellValues(d[cell := c], e) ==
      if e == c then CellValues(d, e) + {Magic(cell)} else CellValues(d, e)
    ensures Magic(cell) !in CellValues(d, e)
  {
    var d1 := d[cell := c];
    var want := if e == c then CellValues(d, e) + {Magic(cell)} else CellValues(d, e);
    forall v | v in CellValues(d1, e) ensures v in want {
      var i :| 1 <= i <= 9 && d1[i] == e && Magic(i) == v;
      if i != cell { assert v in CellValues(d, e); }
    }
    forall v | v in want ensures v in CellValues(d1, e) {
      if v in CellValues(d, e) {
        var i :| 1 <= i <= 9 && d[i] == e && Magic(i) == v;
        assert i != cell && d1[i] == e;
      } else {
        assert d1[cell] == e;
      }
    }
    assert CellValues(d1, e) == want;
    if Magic(cell) in CellValues(d, e) {
      var i :| 1 <= i <= 9 && d[i] == e && Magic(i) == Magic(cell);
      MagicInjective(i, cell);
    }
  }

  lemma MagicInjective(i: int, j: int)
    requires IsCell(i) && IsCell(j) && i != j
    ensures Magic(i) != Magic(j)
  {
    MagicSquareIsPermutation();
  }

  /** The board seen from the other side: lists exchanged and display inverted. */
  function SwapSides(b: Board): (r: Board)
    ensures Marks(r, X) == Marks(b, O) && Marks(r, O) == Marks(b, X)
    ensures r.display == InvertDisplay(b.display)
  {
    Board(b.os, b.xs, InvertDisplay(b.display))
  }

  /** Inverting a display exchanges the X values with the O values. */
  lemma CellValuesInverted(d: string)
    requires |d| == 10
    ensures CellValues(InvertDisplay(d), 'X') == CellValues(d, 'O')
    ensures CellValues(InvertDisplay(d), 'O') == CellValues(d, 'X')
  {
  }

  lemma SwapSidesKeepsMatch(b: Board)
    requires |b.display| == 10 && Matches(b)
    ensures Matches(SwapSides(b))
  {
    CellValuesInverted(b.display);
  }

  /** How many characters of d equal c (str.count / tuple.count). */
  function CountChar(d: string, c: char): (n: nat)
    ensures n <= |d|
  {
    if d == [] then 0 else (if d[0] == c then 1 else 0) + CountChar(d[1..], c)
  }

  /** Overwriting one occurrence of c with another character removes one from the count. */
  lemma {:induction false} CountCharOverwrite(d: string, i: int, c: char, x: char)
    requires 0 <= i < |d| && d[i] == c && x != c
    ensures CountChar(d[i := x], c) == CountChar(d, c) - 1
  {
    if i == 0 {
      assert d[i := x][1..] == d[1..];
    } else {
      CountCharOverwrite(d[1..], i - 1, c, x);
      assert d[i := x][1..] == d[1..][i - 1 := x];
    }
  }

  /** The blank cells left on the sub-boards j..9; a move onto a blank cell lowers it. */
  function BlanksFrom(st: State, j: int): (r: nat)
    requires |st| == 10 && 1 <= j <= 10
    decreases 10 - j
  {
    if j == 10 then 0 else CountChar(st[j].display, '-') + BlanksFrom(st, j + 1)
  }

  function Blanks(st: State): (r: nat)
    requires |st| == 10
  {
    BlanksFrom(st, 1)
  }

  /** If the sub-boards agree except board `big`, whose count drops by one, the total
      drops by one. */
  lemma {:induction false} BlanksFromStep(a: State, b: State, big: int, j: int)
    requires |a| == 10 && |b| == 10 && IsCell(big) && 1 <= j <= 10
    requires forall k :: 1 <= k <= 9 && k != big ==> a[k].display == b[k].display
    requires CountChar(b[big].display, '-') + 1 == CountChar(a[big].display, '-')
    ensures BlanksFrom(b, j) == BlanksFrom(a, j) - (if j <= big then 1 else 0)
    decreases 10 - j
  {
    if j < 10 {
      BlanksFromStep(a, b, big, j + 1);
    }
  }
}
