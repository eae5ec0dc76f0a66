/** ConvertTables: the referee's coordinate tables, checked row by row against the grid
    layout. */
module ConvertTables {
  import opened Assets
  import opened GridLayout

  /** A row of idx_to_rc: an entry for index 0 and for each cell 1..9. */
  type IdxRow = r: seq<(int, int)> | |r| == 10 witness IdxRow0

  /** A row of rc_to_idx: an entry for each column 0..8. */
  type RcRow = r: seq<(int, int)> | |r| == 9 witness RcRow0

  /** idx_to_rc: (board, cell) to (row, col), one row per board; row 0 and column 0 hold
      the (-1, -1) sentinel. */
  const IdxToRc: seq<IdxRow> :=
    [IdxRow0, IdxRow1, IdxRow2, IdxRow3, IdxRow4, IdxRow5, IdxRow6, IdxRow7, IdxRow8, IdxRow9]
  const IdxRow0: seq<(int, int)> := [(-1, -1), (-1, -1), (-1, -1), (-1, -1), (-1, -1), (-1, -1), (-1, -1), (-1, -1), (-1, -1), (-1, -1)]
  const IdxRow1: seq<(int, int)> := [(-1, -1), (0, 0), (0, 1), (0, 2), (1, 0), (1, 1), (1, 2), (2, 0), (2, 1), (2, 2)]
  const IdxRow2: seq<(int, int)> := [(-1, -1), (0, 3), (0, 4), (0, 5), (1, 3), (1, 4), (1, 5), (2, 3), (2, 4), (2, 5)]
  const IdxRow3: seq<(int, int)> := [(-1, -1), (0, 6), (0, 7), (0, 8), (1, 6), (1, 7), (1, 8), (2, 6), (2, 7), (2, 8)]
  const IdxRow4: seq<(int, int)> := [(-1, -1), (3, 0), (3, 1), (3, 2), (4, 0), (4, 1), (4, 2), (5, 0), (5, 1), (5, 2)]
  const IdxRow5: seq<(int, int)> := [(-1, -1), (3, 3), (3, 4), (3, 5), (4, 3), (4, 4), (4, 5), (5, 3), (5, 4), (5, 5)]
  const IdxRow6: seq<(int, int)> := [(-1, -1), (3, 6), (3, 7), (3, 8), (4, 6), (4, 7), (4, 8), (5, 6), (5, 7), (5, 8)]
  const IdxRow7: seq<(int, int)> := [(-1, -1), (6, 0), (6, 1), (6, 2), (7, 0), (7, 1), (7, 2), (8, 0), (8, 1), (8, 2)]
  const IdxRow8: seq<(int, int)> := [(-1, -1), (6, 3), (6, 4), (6, 5), (7, 3), (7, 4), (7, 5), (8, 3), (8, 4), (8, 5)]
  const IdxRow9: seq<(int, int)> := [(-1, -1), (6, 6), (6, 7), (6, 8), (7, 6), (7, 7), (7, 8), (8, 6), (8, 7), (8, 8)]

  /** rc_to_idx: (row, col) to (board, cell), one row per grid row. */
  const RcToIdx: seq<RcRow> :=
    [RcRow0, RcRow1, RcRow2, RcRow3, RcRow4, RcRow5, RcRow6, RcRow7, RcRow8]
  const RcRow0: seq<(int, int)> := [(1, 1), (1, 2), (1, 3), (2, 1), (2, 2), (2, 3), (3, 1), (3, 2), (3, 3)]
  const RcRow1: seq<(int, int)> := [(1, 4), (1, 5), (1, 6), (2, 4), (2, 5), (2, 6), (3, 4), (3, 5), (3, 6)]
  const RcRow2: seq<(int, int)> := [(1, 7), (1, 8), (1, 9), (2, 7), (2, 8), (2, 9), (3, 7), (3, 8), (3, 9)]
  const RcRow3: seq<(int, int)> := [(4, 1), (4, 2), (4, 3), (5, 1), (5, 2), (5, 3), (6, 1), (6, 2), (6, 3)]
  const RcRow4: seq<(int, int)> := [(4, 4), (4, 5), (4, 6), (5, 4), (5, 5), (5, 6), (6, 4), (6, 5), (6, 6)]
  const RcRow5: seq<(int, int)> := [(4, 7), (4, 8), (4, 9), (5, 7), (5, 8), (5, 9), (6, 7), (6, 8), (6, 9)]
  const RcRow6: seq<(int, int)> := [(7, 1), (7, 2), (7, 3), (8, 1), (8, 2), (8, 3), (9, 1), (9, 2), (9, 3)]
  const RcRow7: seq<(int, int)> := [(7, 4), (7, 5), (7, 6), (8, 4), (8, 5), (8, 6), (9, 4), (9, 5), (9, 6)]
  const RcRow8: seq<(int, int)> := [(7, 7), (7, 8), (7, 9), (8, 7), (8, 8), (8, 9), (9, 7), (9, 8), (9, 9)]

  /** Row b of idx_to_rc follows the layout. */
  lemma GridRow(b: int)
    requires 0 <= b < 10
    ensures forall x :: 0 <= x < 10 ==> IdxToRc[b][x] == GridOf(b, x)
  {
    forall x | 0 <= x < 10 ensures IdxToRc[b][x] == GridOf(b, x) {
      if b == 0 {
        GridRow0(x);
      } else if b == 1 {
        GridRow1(x);
      } else if b == 2 {
        GridRow2(x);
      } else if b == 3 {
        GridRow3(x);
      } else if b == 4 {
        GridRow4(x);
      } else if b == 5 {
        GridRow5(x);
      } else if b == 6 {
        GridRow6(x);
      } else if b == 7 {
        GridRow7(x);
      } else if b == 8 {
        GridRow8(x);
      } else {
        GridRow9(x);
      }
    }
  }

  /** Row r of rc_to_idx follows the layout. */
  lemma CellRow(r: int)
    requires 0 <= r < 9
    ensures forall x :: 0 <= x < 9 ==> RcToIdx[r][x] == CellAt(r, x)
  {
    forall x | 0 <= x < 9 ensures RcToIdx[r][x] == CellAt(r, x) {
      if r == 0 {
        CellRow0(x);
      } else if r == 1 {
        CellRow1(x);
      } else if r == 2 {
        CellRow2(x);
      } else if r == 3 {
        CellRow3(x);
      } else if r == 4 {
        CellRow4(x);
      } else if r == 5 {
        CellRow5(x);
      } else if r == 6 {
        CellRow6(x);
      } else if r == 7 {
        CellRow7(x);
      } else {
        CellRow8(x);
      }
    }
  }

  lemma GridRow0(s: int)
    requires 0 <= s < 10
    ensures IdxRow0[s] == GridOf(0, s)
  {
    if s == 0 { } else if s == 1 { } else if s == 2 { } else if s == 3 { } else if s == 4 { } else if s == 5 { } else if s == 6 { } else if s == 7 { } else if s == 8 { } else { }
  }

  lemma GridRow1(s: int)
    requires 0 <= s < 10
    ensures IdxRow1[s] == GridOf(1, s)
  {
    if s == 0 { } else if s == 1 { } else if s == 2 { } else if s == 3 { } else if s == 4 { } else if s == 5 { } else if s == 6 { } else if s == 7 { } else if s == 8 { } else { }
  }

  lemma GridRow2(s: int)
    requires 0 <= s < 10
    ensures IdxRow2[s] == GridOf(2, s)
  {
    if s == 0 { } else if s == 1 { } else if s == 2 { } else if s == 3 { } else if s == 4 { } else if s == 5 { } else if s == 6 { } else if s == 7 { } else if s == 8 { } else { }
  }

  lemma GridRow3(s: int)
    requires 0 <= s < 10
    ensures IdxRow3[s] == GridOf(3, s)
  {
    if s == 0 { } else if s == 1 { } else if s == 2 { } else if s == 3 { } else if s == 4 { } else if s == 5 { } else if s == 6 { } else if s == 7 { } else if s == 8 { } else { }
  }

  lemma GridRow4(s: int)
    requires 0 <= s < 10
    ensures IdxRow4[s] == GridOf(4, s)
  {
    if s == 0 { } else if s == 1 { } else if s == 2 { } else if s == 3 { } else if s == 4 { } else if s == 5 { } else if s == 6 { } else if s == 7 { } else if s == 8 { } else { }
  }

  lemma GridRow5(s: int)
    requires 0 <= s < 10
    ensures IdxRow5[s] == GridOf(5, s)
  {
    if s == 0 { } else if s == 1 { } else if s == 2 { } else if s == 3 { } else if s == 4 { } else if s == 5 { } else if s == 6 { } else if s == 7 { } else if s == 8 { } else { }
  }

  lemma GridRow6(s: int)
    requires 0 <= s < 10
    ensures IdxRow6[s] == GridOf(6, s)
  {
    if s == 0 { } else if s == 1 { } else if s == 2 { } else if s == 3 { } else if s == 4 { } else if s == 5 { } else if s == 6 { } else if s == 7 { } else if s == 8 { } else { }
  }

  lemma GridRow7(s: int)
    requires 0 <= s < 10
    ensures IdxRow7[s] == GridOf(7, s)
  {
    if s == 0 { } else if s == 1 { } else if s == 2 { } else if s == 3 { } else if s == 4 { } else if s == 5 { } else if s == 6 { } else if s == 7 { } else if s == 8 { } else { }
  }

  lemma GridRow8(s: int)
    requires 0 <= s < 10
    ensures IdxRow8[s] == GridOf(8, s)
  {
    if s == 0 { } else if s == 1 { } else if s == 2 { } else if s == 3 { } else if s == 4 { } else if s == 5 { } else if s == 6 { } else if s == 7 { } else if s == 8 { } else { }
  }

  lemma GridRow9(s: int)
    requires 0 <= s < 10
    ensures IdxRow9[s] == GridOf(9, s)
  {
    if s == 0 { } else if s == 1 { } else if s == 2 { } else if s == 3 { } else if s == 4 { } else if s == 5 { } else if s == 6 { } else if s == 7 { } else if s == 8 { } else { }
  }

  lemma CellRow0(c: int)
    requires 0 <= c < 9
    ensures RcRow0[c] == CellAt(0, c)
  {
    if c == 0 { } else if c == 1 { } else if c == 2 { } else if c == 3 { } else if c == 4 { } else if c == 5 { } else if c == 6 { } else if c == 7 { } else { }
  }

  lemma CellRow1(c: int)
    requires 0 <= c < 9
    ensures RcRow1[c] == CellAt(1, c)
  {
    if c == 0 { } else if c == 1 { } else if c == 2 { } else if c == 3 { } else if c == 4 { } else if c == 5 { } else if c == 6 { } else if c == 7 { } else { }
  }

  lemma CellRow2(c: int)
    requires 0 <= c < 9
    ensures RcRow2[c] == CellAt(2, c)
  {
    if c == 0 { } else if c == 1 { } else if c == 2 { } else if c == 3 { } else if c == 4 { } else if c == 5 { } else if c == 6 { } else if c == 7 { } else { }
  }

  lemma CellRow3(c: int)
    requires 0 <= c < 9
    ensures RcRow3[c] == CellAt(3, c)
  {
    if c == 0 { } else if c == 1 { } else if c == 2 { } else if c == 3 { } else if c == 4 { } else if c == 5 { } else if c == 6 { } else if c == 7 { } else { }
  }

  lemma CellRow4(c: int)
    requires 0 <= c < 9
    ensures RcRow4[c] == CellAt(4, c)
  {
    if c == 0 { } else if c == 1 { } else if c == 2 { } else if c == 3 { } else if c == 4 { } else if c == 5 { } else if c == 6 { } else if c == 7 { } else { }
  }

  lemma CellRow5(c: int)
    requires 0 <= c < 9
    ensures RcRow5[c] == CellAt(5, c)
  {
    if c == 0 { } else if c == 1 { } else if c == 2 { } else if c == 3 { } else if c == 4 { } else if c == 5 { } else if c == 6 { } else if c == 7 { } else { }
  }

  lemma CellRow6(c: int)
    requires 0 <= c < 9
    ensures RcRow6[c] == CellAt(6, c)
  {
    if c == 0 { } else if c == 1 { } else if c == 2 { } else if c == 3 { } else if c == 4 { } else if c == 5 { } else if c == 6 { } else if c == 7 { } else { }
  }

  lemma CellRow7(c: int)
    requires 0 <= c < 9
    ensures RcRow7[c] == CellAt(7, c)
  {
    if c == 0 { } else if c == 1 { } else if c == 2 { } else if c == 3 { } else if c == 4 { } else if c == 5 { } else if c == 6 { } else if c == 7 { } else { }
  }

  lemma CellRow8(c: int)
    requires 0 <= c < 9
    ensures RcRow8[c] == CellAt(8, c)
  {
    if c == 0 { } else if c == 1 { } else if c == 2 { } else if c == 3 { } else if c == 4 { } else if c == 5 { } else if c == 6 { } else if c == 7 { } else { }
  }

  /** Both tables are the block layout written out. */
  lemma TablesFollowLayout()
    ensures |IdxToRc| == 10 && forall b :: 0 <= b < 10 ==> |IdxToRc[b]| == 10
    ensures |RcToIdx| == 9 && forall r :: 0 <= r < 9 ==> |RcToIdx[r]| == 9
    ensures forall b, s :: 0 <= b < 10 && 0 <= s < 10 ==> IdxToRc[b][s] == GridOf(b, s)
    ensures forall r, c :: 0 <= r < 9 && 0 <= c < 9 ==> RcToIdx[r][c] == CellAt(r, c)
  {
    forall b | 0 <= b < 10 { GridRow(b); }
    forall r | 0 <= r < 9 { CellRow(r); }
  }

  /** Cell s of sub-board b has a grid position, and rc_to_idx maps it back. */
  predicate IdxRoundTrip(b: int, s: int)
    requires 0 <= b < 10 && 0 <= s < 10
  {
    && 0 <= IdxToRc[b][s].0 < 9 && 0 <= IdxToRc[b][s].1 < 9
    && RcToIdx[IdxToRc[b][s].0][IdxToRc[b][s].1] == (b, s)
  }

  /** rc_to_idx undoes idx_to_rc on a cell. */
  lemma IdxThenRc(b: int, s: int)
    requires IsCell(b) && IsCell(s)
    ensures IdxRoundTrip(b, s)
  {
    GridRow(b);
    GridThenCell(b, s);
    var g := GridOf(b, s);
    CellRow(g.0);
  }

  /** idx_to_rc undoes rc_to_idx on a grid position. */
  lemma RcThenIdx(r: int, c: int)
    requires 0 <= r < 9 && 0 <= c < 9
    ensures IsCell(RcToIdx[r][c].0) && IsCell(RcToIdx[r][c].1)
    ensures IdxToRc[RcToIdx[r][c].0][RcToIdx[r][c].1] == (r, c)
  {
    CellRow(r);
    CellThenGrid(r, c);
    var m := CellAt(r, c);
    GridRow(m.0);
  }
}
