/** GridLayout: the 9x9 grid the referee speaks in.  Boards run left to right, top to
    bottom, in 3x3 blocks, and so do the cells inside each board. */
module GridLayout {
  import opened Assets

  /** The band (0, 1 or 2) of a number 1..9 read as a 3x3 position, row-major. */
  function Band(i: int): (r: int)
  {
    if i <= 3 then 0 else if i <= 6 then 1 else 2
  }

  /** The band (0, 1 or 2) of a grid coordinate 0..8. */
  function Block(x: int): (r: int)
  {
    if x < 3 then 0 else if x < 6 then 1 else 2
  }

  /** The grid position of a cell: boards run left to right, top to bottom, in 3x3 blocks,
      and so do the cells inside each board. */
  function GridOf(b: int, s: int): (int, int)
  {
    if IsCell(b) && IsCell(s) then
      (3 * Band(b) + Band(s), 3 * (b - 1 - 3 * Band(b)) + (s - 1 - 3 * Band(s)))
    else (-1, -1)
  }

  /** The cell at a grid position. */
  function CellAt(r: int, c: int): (int, int)
  {
    (3 * Block(r) + Block(c) + 1, 3 * (r - 3 * Block(r)) + (c - 3 * Block(c)) + 1)
  }

  lemma BlockOfBand(k: int, j: int)
    requires 0 <= k < 3 && 0 <= j < 3
    ensures Block(3 * k + j) == k
  {
  }

  lemma BandOfBlock(k: int, j: int)
    requires 0 <= k < 3 && 0 <= j < 3
    ensures Band(3 * k + j + 1) == k
  {
  }

  /** The layout functions undo each other on the playing area. */
  lemma GridThenCell(b: int, s: int)
    requires IsCell(b) && IsCell(s)
    ensures 0 <= GridOf(b, s).0 < 9 && 0 <= GridOf(b, s).1 < 9
    ensures CellAt(GridOf(b, s).0, GridOf(b, s).1) == (b, s)
  {
    var kb, ks := Band(b), Band(s);
    var jb, js := b - 1 - 3 * kb, s - 1 - 3 * ks;
    assert 0 <= kb < 3 && 0 <= ks < 3 && 0 <= jb < 3 && 0 <= js < 3;
    var r, c := 3 * kb + ks, 3 * jb + js;
    assert GridOf(b, s) == (r, c);
    assert CellAt(r, c) == (3 * kb + jb + 1, 3 * ks + js + 1) by {
      BlockOfBand(kb, ks);
      BlockOfBand(jb, js);
    }
  }

  lemma CellThenGrid(r: int, c: int)
    requires 0 <= r < 9 && 0 <= c < 9
    ensures IsCell(CellAt(r, c).0) && IsCell(CellAt(r, c).1)
    ensures GridOf(CellAt(r, c).0, CellAt(r, c).1) == (r, c)
  {
    var kr, kc := Block(r), Block(c);
    var jr, jc := r - 3 * kr, c - 3 * kc;
    assert 0 <= kr < 3 && 0 <= kc < 3 && 0 <= jr < 3 && 0 <= jc < 3;
    var b, s := 3 * kr + kc + 1, 3 * jr + jc + 1;
    assert CellAt(r, c) == (b, s);
    assert GridOf(b, s) == (3 * kr + jr, 3 * kc + jc) by {
      BandOfBlock(kr, kc);
      BandOfBlock(jr, jc);
    }
  }
}
