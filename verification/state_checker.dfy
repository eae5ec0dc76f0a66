/** StateChecker: the sorted two-pointer 3-sum win test and check_win with its
    symmetric memo cache, keyed by board display. */
module StateChecker {
  import opened Wrappers
  import opened Assets
  import opened Sorting
  import opened PairSearch
  import opened GameState

  /** check_win's answer: a mark ('X', 'O', 'T', or the meta-board's cell) or False. */
  datatype Verdict = Decided(mark: char) | Undecided

  type Cache = map<string, Verdict>

  /** A verdict a well-formed state can produce: open, or one of 'X', 'O', 'T'. */
  predicate ValidVerdict(v: Verdict)
  {
    v.Undecided? || v.mark in "XOT"
  }

  predicate ValidCache(cache: Cache)
  {
    forall k :: k in cache ==> ValidVerdict(cache[k])
  }

  /** The entry stored under the inverted display: a win changes hands, a tie or an
      open board is stored unchanged. */
  function InvertVerdict(v: Verdict): (r: Verdict)
    ensures ValidVerdict(v) ==> ValidVerdict(r)
    ensures r.Decided? <==> v.Decided?
  {
    match v
    case Decided(c) => Decided(InvertChar(c))
    case Undecided => Undecided
  }

  /** Three entries at distinct positions sum to 15. */
  predicate HasTriple(s: seq<int>)
  {
    exists i, j, k :: 0 <= i < j < k < |s| && s[i] + s[j] + s[k] == 15
  }

  /** Three distinct values of the set sum to 15. */
  predicate WinningSet(vals: set<int>)
  {
    exists a, b, c :: a in vals && b in vals && c in vals && a < b < c && a + b + c == 15
  }

  /** The outer loop of check_win_helper: anchors i, i+1, ..., |s|-3, each followed by a
      two-pointer scan of the suffix for the remaining 15 - s[i]. */
  function TripleScan(s: seq<int>, i: nat): (r: bool)
    requires Sorted(s)
    ensures r <==> exists a, b, c :: i <= a < b < c < |s| && s[a] + s[b] + s[c] == 15
    decreases |s| - i
  {
    if i + 2 >= |s| then false
    else
      var here := FindPair(s, 15 - s[i], i + 1, |s| - 1).Some?;
      assert here <==> exists b, c :: i + 1 <= b < c <= |s| - 1 && s[b] + s[c] == 15 - s[i];
      here || TripleScan(s, i + 1)
  }

  /** check_win_helper: the sign when some three of the positions sum to 15, else False. */
  function CheckWinHelper(sign: Sign, positions: seq<int>): (r: Verdict)
    ensures r == Decided(SignChar(sign)) || r == Undecided
    ensures r.Decided? <==> HasTriple(Sort(positions))
    ensures |positions| < 3 ==> r == Undecided
    ensures NoDup(positions) ==> (r.Decided? <==> WinningSet(Elems(positions)))
  {
    var s := Sort(positions);
    assert NoDup(positions) ==> (HasTriple(s) <==> WinningSet(Elems(positions))) by {
      if NoDup(positions) {
        SortKeepsElems(positions);
        TripleIffWinningSet(s);
      }
    }
    if TripleScan(s, 0) then Decided(SignChar(sign)) else Undecided
  }

  /** The order of the positions is irrelevant: the helper sorts first. */
  lemma CheckWinHelperOrderFree(sign: Sign, p: seq<int>, q: seq<int>)
    requires multiset(p) == multiset(q)
    ensures CheckWinHelper(sign, p) == CheckWinHelper(sign, q)
  {
    SortInvariant(p, q);
  }

  lemma Order3(x: int, y: int, z: int) returns (p: int, q: int, r: int)
    requires x != y && y != z && x != z
    ensures p < q < r
    ensures (p, q, r) == (x, y, z) || (p, q, r) == (x, z, y) || (p, q, r) == (y, x, z) ||
            (p, q, r) == (y, z, x) || (p, q, r) == (z, x, y) || (p, q, r) == (z, y, x)
  {
    if x < y {
      if y < z { p, q, r := x, y, z; }
      else if x < z { p, q, r := x, z, y; }
      else { p, q, r := z, x, y; }
    } else {
      if x < z { p, q, r := y, x, z; }
      else if y < z { p, q, r := y, z, x; }
      else { p, q, r := z, y, x; }
    }
  }

  /** On a sorted list without repeats, a triple of positions is a triple of distinct values. */
  lemma TripleIffWinningSet(s: seq<int>)
    requires Sorted(s) && NoDup(s)
    ensures HasTriple(s) <==> WinningSet(Elems(s))
  {
    if HasTriple(s) {
      TripleGivesSet(s);
    }
    if WinningSet(Elems(s)) {
      SetGivesTriple(s);
    }
  }

  lemma TripleGivesSet(s: seq<int>)
    requires Sorted(s) && NoDup(s) && HasTriple(s)
    ensures WinningSet(Elems(s))
  {
    var i, j, k :| 0 <= i < j < k < |s| && s[i] + s[j] + s[k] == 15;
    assert s[i] != s[j] && s[j] != s[k];
    assert s[i] < s[j] < s[k];
    assert s[i] in Elems(s) && s[j] in Elems(s) && s[k] in Elems(s);
  }

  lemma SetGivesTriple(s: seq<int>)
    requires Sorted(s) && WinningSet(Elems(s))
    ensures HasTriple(s)
  {
    var a, b, c :| a in Elems(s) && b in Elems(s) && c in Elems(s) && a < b < c && a + b + c == 15;
    var i :| 0 <= i < |s| && s[i] == a;
    var j :| 0 <= j < |s| && s[j] == b;
    var k :| 0 <= k < |s| && s[k] == c;
    SortedOrder(s, i, j);
    SortedOrder(s, j, k);
    assert 0 <= i < j < k < |s| && s[i] + s[j] + s[k] == 15;
  }

  /** In a sorted list a smaller value sits at a smaller index. */
  lemma SortedOrder(s: seq<int>, i: int, j: int)
    requires Sorted(s) && 0 <= i < |s| && 0 <= j < |s| && s[i] < s[j]
    ensures i < j
  {
  }

  /** The verdict a board's display alone determines: X is looked at before O, and a
      board without a blank and without a line is a tie. */
  function DisplayVerdict(d: string): (r: Verdict)
    requires |d| == 10
  {
    if WinningSet(CellValues(d, 'X')) then Decided('X')
    else if WinningSet(CellValues(d, 'O')) then Decided('O')
    else if '-' !in d then Decided('T')
    else Undecided
  }

  /** A display that shows a line for both sides.  Marks only go onto boards without a
      line, which then show at most one (StateUpdater.UpdateStateKeepsSingleWins). */
  predicate DoubleWin(d: string)
    requires |d| == 10
  {
    WinningSet(CellValues(d, 'X')) && WinningSet(CellValues(d, 'O'))
  }

  /** A display that shows no line for either side. */
  predicate NoLine(d: string)
    requires |d| == 10
  {
    !WinningSet(CellValues(d, 'X')) && !WinningSet(CellValues(d, 'O'))
  }

  lemma WinningSetMonotone(a: set<int>, b: set<int>)
    requires a <= b && WinningSet(a)
    ensures WinningSet(b)
  {
    var x, y, z :| x in a && y in a && z in a && x < y < z && x + y + z == 15;
    assert x in b && y in b && z in b;
  }

  /** Writing any character into one cell of a display without a line leaves at most one
      side with a line: the side not written keeps a subset of its cells. */
  lemma WriteKeepsSingleWin(d: string, cell: int, c: char)
    requires |d| == 10 && IsCell(cell) && NoLine(d)
    ensures !DoubleWin(d[cell := c])
  {
    var e := if c == 'X' then 'O' else 'X';
    var d1 := d[cell := c];
    assert CellValues(d1, e) <= CellValues(d, e) by {
      forall v | v in CellValues(d1, e) ensures v in CellValues(d, e) {
        var i :| 1 <= i <= 9 && d1[i] == e && Magic(i) == v;
      }
    }
    if WinningSet(CellValues(d1, e)) {
      WinningSetMonotone(CellValues(d1, e), CellValues(d, e));
    }
  }

  /** The excluded case is real: for a board showing a line for both sides, a miss on the
      empty (so coherent) cache stores the O verdict under the inverted display, whose own
      verdict is X, since X is looked at first; the cache is no longer coherent. */
  lemma DoubleWinBreaksCoherence()
    ensures var st := DoubleWinState();
      var d := st[1].display;
      var c := CheckWin(map[], st, 1).1;
      && Matches(st[1]) && DoubleWin(d)
      && InvertDisplay(d) in c && c[InvertDisplay(d)] != DisplayVerdict(InvertDisplay(d))
      && !Coherent(c)
  {
    DoubleWinExample();
    ExampleMiss();
    hide ComputeVerdict, DisplayVerdict, CellValues, InvertDisplay, Matches, WinningSet, DoubleWinState, CheckWin;
    assert ComputeVerdict(DoubleWinState()[1]) == Decided('X');
  }

  /** check_win misses on the empty cache and stores the computed verdict both ways. */
  lemma ExampleMiss()
    ensures var st := DoubleWinState();
      var d := st[1].display;
      var r := CheckWin(map[], st, 1);
      r.0 == ComputeVerdict(st[1]) && r.1 == map[][d := r.0][InvertDisplay(d) := InvertVerdict(r.0)]
  {
    hide ComputeVerdict, DisplayVerdict, CellValues, InvertDisplay, Matches, WinningSet, DoubleWinState, CheckWin;
  }

  /** Sub-board 1 shows X on cells 1-3 and O on cells 4-6; every other board is empty. */
  function DoubleWinState(): (st: State)
    ensures WellFormed(st) && st[1] == Board([2, 7, 6], [9, 5, 1], "/XXXOOO---") && st[0].display[1] == '-'
  {
    [Board([], [], "/---------"), Board([2, 7, 6], [9, 5, 1], "/XXXOOO---")]
      + seq(8, _ => Board([], [], "/---------"))
  }

  /** The board of the example: rows 1-3 for X and 4-6 for O; both it and its inverse
      are X wins by the display. */
  lemma DoubleWinExample()
    ensures var d := "/XXXOOO---";
      && InvertDisplay(d) == "/OOOXXX---"
      && Matches(Board([2, 7, 6], [9, 5, 1], d)) && DoubleWin(d)
      && DisplayVerdict(d) == Decided('X') && DisplayVerdict("/OOOXXX---") == Decided('X')
  {
    ExampleInverse();
    ExampleWins();
    ExampleMatches();
    hide CellValues, WinningSet, InvertDisplay;
  }

  lemma ExampleInverse()
    ensures InvertDisplay("/XXXOOO---") == "/OOOXXX---"
  {
    var d := "/XXXOOO---";
    assert forall i :: 0 <= i < 10 ==> InvertDisplay(d)[i] == "/OOOXXX---"[i];
  }

  lemma ExampleWins()
    ensures WinningSet(CellValues("/XXXOOO---", 'X')) && WinningSet(CellValues("/XXXOOO---", 'O'))
    ensures WinningSet(CellValues("/OOOXXX---", 'X'))
  {
    LineGivesWinningSet("/XXXOOO---", 'X', 1, 2, 3);
    LineGivesWinningSet("/XXXOOO---", 'O', 4, 5, 6);
    LineGivesWinningSet("/OOOXXX---", 'X', 4, 5, 6);
  }

  lemma ExampleMatches()
    ensures Matches(Board([2, 7, 6], [9, 5, 1], "/XXXOOO---"))
  {
    var d := "/XXXOOO---";
    ExampleCells(d, 'X', 1, {2, 7, 6});
    ExampleCells(d, 'O', 4, {9, 5, 1});
    assert Elems([2, 7, 6]) == {2, 7, 6};
    assert Elems([9, 5, 1]) == {9, 5, 1};
  }

  /** The cells of d showing c are exactly first..first+2. */
  lemma ExampleCells(d: string, c: char, first: int, vals: set<int>)
    requires |d| == 10 && 1 <= first <= 7
    requires forall i :: 1 <= i <= 9 ==> (d[i] == c <==> first <= i < first + 3)
    requires vals == {Magic(first), Magic(first + 1), Magic(first + 2)}
    ensures CellValues(d, c) == vals
  {
    forall v | v in CellValues(d, c) ensures v in vals {
      var i :| 1 <= i <= 9 && d[i] == c && Magic(i) == v;
    }
    assert d[first] == c && d[first + 1] == c && d[first + 2] == c;
  }

  /** Win detection through magic values is the same as three marks in a line. */
  lemma WinningSetIsLine(d: string, c: char)
    requires |d| == 10
    ensures WinningSet(CellValues(d, c)) <==>
      exists i, j, k :: (i, j, k) in Lines && d[i] == c && d[j] == c && d[k] == c
  {
    if WinningSet(CellValues(d, c)) {
      WinningSetGivesLine(d, c);
    }
    if exists i, j, k :: (i, j, k) in Lines && d[i] == c && d[j] == c && d[k] == c {
      var i, j, k :| (i, j, k) in Lines && d[i] == c && d[j] == c && d[k] == c;
      LineGivesWinningSet(d, c, i, j, k);
    }
  }

  lemma WinningSetGivesLine(d: string, c: char)
    requires |d| == 10 && WinningSet(CellValues(d, c))
    ensures exists i, j, k :: (i, j, k) in Lines && d[i] == c && d[j] == c && d[k] == c
  {
    var vals := CellValues(d, c);
    var a, b, e :| a in vals && b in vals && e in vals && a < b < e && a + b + e == 15;
    var ia :| 1 <= ia <= 9 && d[ia] == c && Magic(ia) == a;
    var ib :| 1 <= ib <= 9 && d[ib] == c && Magic(ib) == b;
    var ie :| 1 <= ie <= 9 && d[ie] == c && Magic(ie) == e;
    var p, q, r := Order3(ia, ib, ie);
    assert Magic(p) + Magic(q) + Magic(r) == 15;
    MagicSumIsLine(p, q, r);
    assert (p, q, r) in Lines && d[p] == c && d[q] == c && d[r] == c;
  }

  lemma LineGivesWinningSet(d: string, c: char, i: int, j: int, k: int)
    requires |d| == 10 && (i, j, k) in Lines && d[i] == c && d[j] == c && d[k] == c
    ensures WinningSet(CellValues(d, c))
  {
    var vals := CellValues(d, c);
    assert IsCell(i) && IsCell(j) && IsCell(k) && i < j < k;
    MagicSumIsLine(i, j, k);
    assert Magic(i) != Magic(j) && Magic(j) != Magic(k) && Magic(i) != Magic(k);
    assert Magic(i) in vals && Magic(j) in vals && Magic(k) in vals;
    var p, q, r := Order3(Magic(i), Magic(j), Magic(k));
    assert p in vals && q in vals && r in vals && p + q + r == 15;
  }

  /** The verdict of the inverted display is the inverted verdict, provided the display
      does not show a line for both sides. */
  lemma DisplayVerdictInverts(d: string)
    requires |d| == 10 && !DoubleWin(d)
    ensures DisplayVerdict(InvertDisplay(d)) == InvertVerdict(DisplayVerdict(d))
  {
    CellValuesInverted(d);
    InvertKeepsBlanks(d);
  }

  /** The miss path of check_win: X is tested (with at least three values) before O;
      with no win, a display without a blank is a tie. */
  function ComputeVerdict(b: Board): (r: Verdict)
    requires |b.display| == 10
    ensures r == Decided('X') <==> CheckWinHelper(X, b.xs).Decided?
    ensures r == Decided('O') <==> !CheckWinHelper(X, b.xs).Decided? && CheckWinHelper(O, b.os).Decided?
    ensures r == Decided('T') <==>
      !CheckWinHelper(X, b.xs).Decided? && !CheckWinHelper(O, b.os).Decided? && '-' !in b.display
    ensures Matches(b) ==> r == DisplayVerdict(b.display)
    ensures ValidVerdict(r)
  {
    var rx := if |b.xs| >= 3 then CheckWinHelper(X, b.xs) else Undecided;
    var ro := if rx.Undecided? && |b.os| >= 3 then CheckWinHelper(O, b.os) else rx;
    if ro.Decided? then ro
    else if '-' !in b.display then Decided('T')
    else Undecided
  }

  /** check_win: the meta-board short-circuit, then the cache, then the computed verdict
      stored under the display and its opposite under the inverted display. */
  function CheckWin(cache: Cache, st: State, big: int): (r: (Verdict, Cache))
    requires WellFormed(st) && 0 <= big <= 9
    ensures big != 0 && st[0].display[big] != '-' ==> r == (Decided(st[0].display[big]), cache)
    ensures (big == 0 || st[0].display[big] == '-') && st[big].display in cache ==>
      r == (cache[st[big].display], cache)
    ensures (big == 0 || st[0].display[big] == '-') && st[big].display !in cache ==>
      && r.0 == ComputeVerdict(st[big])
      && r.1 == cache[st[big].display := r.0][InvertDisplay(st[big].display) := InvertVerdict(r.0)]
    ensures cache.Keys <= r.1.Keys
    ensures r.1.Keys <= cache.Keys + {st[big].display, InvertDisplay(st[big].display)}
    ensures ValidCache(cache) ==> ValidVerdict(r.0) && ValidCache(r.1)
  {
    if big != 0 && st[0].display[big] != '-' then (Decided(st[0].display[big]), cache)
    else
      var d := st[big].display;
      if d in cache then (cache[d], cache)
      else
        var v := ComputeVerdict(st[big]);
        var c := cache[d := v][InvertDisplay(d) := InvertVerdict(v)];
        CacheStore(cache, d, v);
        (v, c)
  }

  /** Storing a verdict and its inversion adds the two keys and keeps the cache valid. */
  lemma CacheStore(cache: Cache, d: string, v: Verdict)
    ensures var c := cache[d := v][InvertDisplay(d) := InvertVerdict(v)];
      && cache.Keys <= c.Keys <= cache.Keys + {d, InvertDisplay(d)}
      && (ValidCache(cache) && ValidVerdict(v) ==> ValidCache(c))
  {
    var c := cache[d := v][InvertDisplay(d) := InvertVerdict(v)];
    if ValidCache(cache) && ValidVerdict(v) {
      forall k | k in c ensures ValidVerdict(c[k]) {
        if k == InvertDisplay(d) {
        } else if k == d {
        } else {
          assert c[k] == cache[k];
        }
      }
    }
  }

  /** Every entry holds the verdict its key's display determines. */
  predicate Coherent(cache: Cache)
  {
    forall k :: k in cache ==> |k| == 10 && cache[k] == DisplayVerdict(k)
  }

  /** The cache invariant: from a coherent cache, check_win on a board whose value lists
      agree with its display (and which does not show two lines) returns the display's
      verdict, unless the meta-board short-circuits, and leaves the cache coherent. */
  lemma CheckWinKeepsCoherence(cache: Cache, st: State, big: int)
    requires WellFormed(st) && 0 <= big <= 9
    requires Coherent(cache) && Matches(st[big]) && !DoubleWin(st[big].display)
    ensures Coherent(CheckWin(cache, st, big).1)
    ensures big == 0 || st[0].display[big] == '-' ==>
      CheckWin(cache, st, big).0 == DisplayVerdict(st[big].display)
  {
    var d := st[big].display;
    if (big == 0 || st[0].display[big] == '-') && d !in cache {
      DisplayVerdictInverts(d);
      var c1 := CheckWin(cache, st, big).1;
      forall k | k in c1 ensures |k| == 10 && c1[k] == DisplayVerdict(k) {
        if k == InvertDisplay(d) {
        } else if k == d {
        } else {
          assert k in cache;
        }
      }
    }
  }

  lemma WinShowsMark(d: string, c: char)
    requires |d| == 10 && WinningSet(CellValues(d, c))
    ensures c in d
  {
    var a, b, e :| a in CellValues(d, c) && b in CellValues(d, c) && e in CellValues(d, c) && a < b < e && a + b + e == 15;
    CellValuesMarked(d, c, a);
  }

  /** Asking again about an unchanged board gives the same verdict and adds nothing to
      the cache. */
  lemma CheckWinIdempotent(cache: Cache, st: State, big: int)
    requires WellFormed(st) && 0 <= big <= 9 && Matches(st[big])
    ensures CheckWin(CheckWin(cache, st, big).1, st, big) == CheckWin(cache, st, big)
  {
    var d := st[big].display;
    if (big == 0 || st[0].display[big] == '-') && d !in cache {
      var v := ComputeVerdict(st[big]);
      var c1 := cache[d := v][InvertDisplay(d) := InvertVerdict(v)];
      assert CheckWin(cache, st, big) == (v, c1);
      assert c1[d] == v by {
        if InvertDisplay(d) == d {
          assert v != Decided('X') by {
            if v == Decided('X') {
              WinShowsMark(d, 'X');
              InvertMovesMarks(d);
            }
          }
          assert v != Decided('O') by {
            if v == Decided('O') {
              WinShowsMark(d, 'O');
              InvertMovesMarks(d);
            }
          }
        }
      }
      assert CheckWin(c1, st, big) == (c1[d], c1);
    }
  }
}
