/** Convert: the referee's coordinate conversions and the "row col" strings built from
    them. */
module Convert {
  import opened Wrappers
  import opened Assets
  import opened ConvertTables

  /** rc_to_idx undoes idx_to_rc on every cell: idx_to_rc is one-to-one on 1..9 x 1..9
      and lands in 0..8 x 0..8. */
  lemma IdxToRcInvertible()
    ensures forall b, s :: IsCell(b) && IsCell(s) ==> IdxRoundTrip(b, s)
  {
    forall b, s | IsCell(b) && IsCell(s)
      ensures IdxRoundTrip(b, s)
    {
      IdxThenRc(b, s);
    }
  }

  /** idx_to_rc undoes rc_to_idx on every grid position: rc_to_idx is one-to-one on
      0..8 x 0..8 and lands on cells. */
  lemma RcToIdxInvertible()
    ensures forall r, c :: 0 <= r < 9 && 0 <= c < 9 ==>
      && IsCell(RcToIdx[r][c].0) && IsCell(RcToIdx[r][c].1)
      && IdxToRc[RcToIdx[r][c].0][RcToIdx[r][c].1] == (r, c)
  {
    forall r, c | 0 <= r < 9 && 0 <= c < 9
      ensures && IsCell(RcToIdx[r][c].0) && IsCell(RcToIdx[r][c].1)
              && IdxToRc[RcToIdx[r][c].0][RcToIdx[r][c].1] == (r, c)
    {
      RcThenIdx(r, c);
    }
  }

  /** Row 0 and column 0 of idx_to_rc hold the (-1, -1) sentinel. */
  lemma SentinelRowAndColumn()
    ensures forall i :: 0 <= i < 10 ==> IdxToRc[0][i] == (-1, -1) && IdxToRc[i][0] == (-1, -1)
  {
    forall i | 0 <= i < 10 ensures IdxToRc[0][i] == (-1, -1) && IdxToRc[i][0] == (-1, -1) {
      GridRow(0);
      GridRow(i);
    }
  }

  predicate IsDigit(c: char) { '0' <= c <= '9' }

  function DigitChar(d: int): (c: char)
    requires 0 <= d < 10
    ensures IsDigit(c)
  {
    ('0' as int + d) as char
  }

  /** str(n) for a natural number: its decimal digits, most significant first. */
  function NatStr(n: nat): (r: string)
    ensures |r| >= 1 && forall i :: 0 <= i < |r| ==> IsDigit(r[i])
  {
    if n < 10 then [DigitChar(n)] else NatStr(n / 10) + [DigitChar(n % 10)]
  }

  /** str(n) for an integer. */
  function IntStr(n: int): (r: string)
    ensures ' ' !in r
  {
    if n < 0 then "-" + NatStr(-n) else NatStr(n)
  }

  function DigitValue(c: char): (d: nat)
    requires IsDigit(c)
    ensures d < 10 && DigitChar(d) == c
  {
    c as int - '0' as int
  }

  /** The number a nonempty string of decimal digits denotes. */
  function DigitsValue(s: string): (n: nat)
    requires |s| >= 1 && forall i :: 0 <= i < |s| ==> IsDigit(s[i])
  {
    var d := DigitValue(s[|s| - 1]);
    if |s| == 1 then d else DigitsValue(s[..|s| - 1]) * 10 + d
  }

  /** int(s) on an optional minus sign followed by decimal digits; anything else is a
      ValueError (None). */
  function ParseInt(s: string): (r: Option<int>)
    ensures r.Some? ==> |s| >= 1
  {
    var neg := |s| >= 1 && s[0] == '-';
    var digits := if neg then s[1..] else s;
    if |digits| >= 1 && forall i :: 0 <= i < |digits| ==> IsDigit(digits[i]) then
      var v: int := DigitsValue(digits); Some(if neg then -v else v)
    else None
  }

  lemma {:induction false} NatStrValue(n: nat)
    ensures DigitsValue(NatStr(n)) == n
  {
    if n >= 10 {
      var r := NatStr(n);
      assert r[..|r| - 1] == NatStr(n / 10);
      NatStrValue(n / 10);
    }
  }

  /** A digit string parses to its value, and to minus its value behind a '-'. */
  lemma ParseDigits(s: string)
    requires |s| >= 1 && forall i :: 0 <= i < |s| ==> IsDigit(s[i])
    ensures ParseInt(s) == Some(DigitsValue(s))
    ensures ParseInt("-" + s) == Some(-(DigitsValue(s) as int))
  {
    assert s[0] != '-';
    var m := "-" + s;
    assert m[0] == '-' && m[1..] == s;
  }

  lemma ParseNatStr(n: nat)
    ensures ParseInt(NatStr(n)) == Some(n)
  {
    ParseDigits(NatStr(n));
    NatStrValue(n);
  }

  /** int(str(n)) == n. */
  lemma {:induction false} ParseIntStr(n: int)
    ensures ParseInt(IntStr(n)) == Some(n)
  {
    if n < 0 {
      ParseNegStr(-n);
    } else {
      ParseNatStr(n);
    }
  }

  lemma ParseNegStr(m: nat)
    requires m > 0
    ensures ParseInt(IntStr(-(m as int))) == Some(-(m as int))
  {
    var digits := NatStr(m);
    assert IntStr(-(m as int)) == "-" + digits;
    ParseDigits(digits);
    NatStrValue(m);
  }

  /** s.split(' '): the pieces between single spaces, empty pieces included. */
  function Split(s: string): (r: seq<string>)
    ensures |r| >= 1 && forall i :: 0 <= i < |r| ==> ' ' !in r[i]
    decreases |s|
  {
    if s == [] then [""]
    else if s[0] == ' ' then [""] + Split(s[1..])
    else var t := Split(s[1..]); [[s[0]] + t[0]] + t[1..]
  }

  /** ' '.join(parts). */
  function Join(parts: seq<string>): (r: string)
    requires |parts| >= 1
  {
    if |parts| == 1 then parts[0] else parts[0] + " " + Join(parts[1..])
  }

  /** Splitting at the spaces and joining back with single spaces restores the string. */
  lemma {:induction false} JoinSplit(s: string)
    ensures Join(Split(s)) == s
    decreases |s|
  {
    if s != [] {
      JoinSplit(s[1..]);
      var t := Split(s[1..]);
      if s[0] == ' ' {
        assert ([""] + t)[1..] == t;
      } else {
        var u := [[s[0]] + t[0]] + t[1..];
        assert u[1..] == t[1..];
        if |t| > 1 {
          assert Join(t) == t[0] + " " + Join(t[1..]);
        }
      }
    }
  }

  /** A string with no space is one piece. */
  lemma {:induction false} SplitNoSpace(a: string)
    requires ' ' !in a
    ensures Split(a) == [a]
    decreases |a|
  {
    if a != [] {
      assert a[0] in a;
      assert forall x :: x in a[1..] ==> x in a;
      SplitNoSpace(a[1..]);
      assert [a[0]] + a[1..] == a;
    }
  }

  /** A space-free piece followed by a space splits off as the first piece. */
  lemma {:induction false} SplitAtSpace(a: string, rest: string)
    requires ' ' !in a
    ensures Split(a + " " + rest) == [a] + Split(rest)
    decreases |a|
  {
    if a == [] {
      assert a + " " + rest == [' '] + rest;
    } else {
      assert a[0] in a;
      assert forall x :: x in a[1..] ==> x in a;
      var w := a + " " + rest;
      assert w[0] == a[0] && w[1..] == a[1..] + " " + rest;
      SplitAtSpace(a[1..], rest);
      assert [a[0]] + a[1..] == a;
    }
  }

  /** to_rc: the grid position of (big, small) rendered as "row col"; an index outside
      the table raises IndexError. */
  function ToRc(big: int, small: int): (r: Result<string>)
    ensures r.Err? <==> !(-10 <= big < 10 && -10 <= small < 10)
  {
    match PyAt(IdxToRc, big)
    case None => Err("IndexError")
    case Some(row) =>
      match PyAt(row, small)
      case None => Err("IndexError")
      case Some(rc) => Ok(IntStr(rc.0) + " " + IntStr(rc.1))
  }

  /** to_idx: "row col" parsed and looked up in rc_to_idx.  Anything but two integers
      separated by one space is a ValueError; a position outside the table raises
      IndexError. */
  function ToIdx(text: string): (r: Result<(int, int)>)
    ensures r.Ok? ==> IsCell(r.value.0) && IsCell(r.value.1)
    ensures var parts := Split(text);
      r == Err("ValueError") <==> |parts| != 2 || ParseInt(parts[0]).None? || ParseInt(parts[1]).None?
    ensures var parts := Split(text);
      r == Err("IndexError") <==>
        && |parts| == 2 && ParseInt(parts[0]).Some? && ParseInt(parts[1]).Some?
        && !(-9 <= ParseInt(parts[0]).value < 9 && -9 <= ParseInt(parts[1]).value < 9)
  {
    RcTableShape();
    var parts := Split(text);
    if |parts| != 2 then Err("ValueError")
    else match (ParseInt(parts[0]), ParseInt(parts[1]))
      case (Some(row), Some(col)) =>
        (match PyAt(RcToIdx, row)
         case None => Err("IndexError")
         case Some(cells) =>
           match PyAt(cells, col)
           case None => Err("IndexError")
           case Some(m) => (RcToIdxInvertible(); Ok(m)))
      case _ => Err("ValueError")
  }

  /** rc_to_idx has nine rows of nine entries. */
  lemma RcTableShape()
    ensures |RcToIdx| == 9 && forall r :: 0 <= r < 9 ==> |RcToIdx[r]| == 9
  {
    TablesFollowLayout();
  }

  /** The text of a grid position: "row col" with one space. */
  function RcText(r: int, c: int): (t: string)
  {
    IntStr(r) + " " + IntStr(c)
  }

  /** Reading back "row col" for a grid position. */
  lemma ReadRcText(r: int, c: int)
    ensures Split(RcText(r, c)) == [IntStr(r), IntStr(c)]
    ensures ParseInt(IntStr(r)) == Some(r) && ParseInt(IntStr(c)) == Some(c)
  {
    SplitAtSpace(IntStr(r), IntStr(c));
    SplitNoSpace(IntStr(c));
    ParseIntStr(r);
    ParseIntStr(c);
  }

  /** to_rc of a cell is three characters, row digit, space, column digit, and to_idx
      reads the cell back. */
  lemma ToRcThenToIdx(b: int, s: int)
    requires IsCell(b) && IsCell(s)
    ensures ToRc(b, s).Ok?
    ensures var t := ToRc(b, s).value; |t| == 3 && IsDigit(t[0]) && t[1] == ' ' && IsDigit(t[2])
    ensures ToIdx(ToRc(b, s).value) == Ok((b, s))
  {
    IdxThenRc(b, s);
    var rc := IdxToRc[b][s];
    assert ToRc(b, s) == Ok(RcText(rc.0, rc.1));
    assert IntStr(rc.0) == [DigitChar(rc.0)] && IntStr(rc.1) == [DigitChar(rc.1)];
    ReadRcText(rc.0, rc.1);
  }

  /** to_idx of "row col" for a grid position is the cell there, and to_rc writes the same
      text back. */
  lemma ToIdxThenToRc(r: int, c: int)
    requires 0 <= r < 9 && 0 <= c < 9
    ensures ToIdx(RcText(r, c)) == Ok(RcToIdx[r][c])
    ensures ToRc(RcToIdx[r][c].0, RcToIdx[r][c].1) == Ok(RcText(r, c))
  {
    RcThenIdx(r, c);
    ReadRcText(r, c);
  }
}
