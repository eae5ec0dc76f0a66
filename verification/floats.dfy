/** The part of IEEE double arithmetic the search relies on: the two infinities used
    as initial alpha/beta bounds, NaN (what `inf + -inf` yields in an average), and
    Python's two-argument `max`/`min`, which keep the first argument unless the second
    compares strictly better. Finite values are exact reals (no rounding). */
module Floats {
  import opened Wrappers

  datatype Float = NegInf | Fin(v: real) | PosInf | NaN

  /** Python's `a < b`; every comparison involving NaN is false. */
  predicate Lt(a: Float, b: Float)
  {
    match (a, b)
    case (NaN, _) => false
    case (_, NaN) => false
    case (NegInf, NegInf) => false
    case (NegInf, _) => true
    case (Fin(x), Fin(y)) => x < y
    case (Fin(_), PosInf) => true
    case (Fin(_), _) => false
    case (PosInf, _) => false
  }

  /** Python's `a <= b`. */
  predicate Le(a: Float, b: Float)
  {
    Lt(a, b) || (a == b && !a.NaN?)
  }

  /** Python's `max(a, b)`. */
  function Max(a: Float, b: Float): (r: Float)
    ensures !a.NaN? && !b.NaN? ==> Le(a, r) && Le(b, r) && (r == a || r == b)
    ensures a.NaN? || b.NaN? ==> r == a
    ensures Le(b, a) ==> r == a
    ensures Lt(a, b) ==> r == b
  {
    if Lt(a, b) then b else a
  }

  /** Python's `min(a, b)`. */
  function Min(a: Float, b: Float): (r: Float)
    ensures !a.NaN? && !b.NaN? ==> Le(r, a) && Le(r, b) && (r == a || r == b)
    ensures a.NaN? || b.NaN? ==> r == a
    ensures Le(a, b) ==> r == a
    ensures Lt(b, a) ==> r == b
  {
    if Lt(b, a) then b else a
  }

  /** Python's `a + b`: opposite infinities give NaN. */
  function Add(a: Float, b: Float): (r: Float)
    ensures a.Fin? && b.Fin? ==> r == Fin(a.v + b.v)
    ensures r.NaN? <==> a.NaN? || b.NaN? || (a.NegInf? && b.PosInf?) || (a.PosInf? && b.NegInf?)
    ensures !r.NaN? && (a.PosInf? || b.PosInf?) ==> r == PosInf
    ensures !r.NaN? && (a.NegInf? || b.NegInf?) ==> r == NegInf
  {
    match (a, b)
    case (NaN, _) => NaN
    case (_, NaN) => NaN
    case (NegInf, PosInf) => NaN
    case (PosInf, NegInf) => NaN
    case (NegInf, _) => NegInf
    case (PosInf, _) => PosInf
    case (_, NegInf) => NegInf
    case (_, PosInf) => PosInf
    case (Fin(x), Fin(y)) => Fin(x + y)
  }

  /** Python's `a / n` for a positive integer count `n`. */
  function DivCount(a: Float, n: int): (r: Float)
    requires n > 0
    ensures a.Fin? ==> r.Fin? && r.v * (n as real) == a.v
    ensures !a.Fin? ==> r == a
  {
    match a
    case Fin(x) => Fin(x / (n as real))
    case _ => a
  }

  lemma {:induction false} LeTotal(a: Float, b: Float)
    requires !a.NaN? && !b.NaN?
    ensures Le(a, b) || Le(b, a)
    ensures Lt(a, b) <==> !Le(b, a)
  {
  }

  lemma LeTransitive(a: Float, b: Float, c: Float)
    requires Le(a, b) && Le(b, c)
    ensures Le(a, c)
  {
  }

  lemma LtLe(a: Float, b: Float, c: Float)
    ensures Lt(a, b) && Le(b, c) ==> Lt(a, c)
    ensures Le(a, b) && Lt(b, c) ==> Lt(a, c)
  {
  }

  /** Python's `max` over non-NaN values is associative and monotone. */
  lemma MaxAssoc(a: Float, b: Float, c: Float)
    requires !a.NaN? && !b.NaN? && !c.NaN?
    ensures Max(Max(a, b), c) == Max(a, Max(b, c))
  {
  }

  lemma MaxMono(a: Float, b: Float, c: Float, d: Float)
    requires !a.NaN? && !b.NaN? && !c.NaN? && !d.NaN?
    requires Le(a, c) && Le(b, d)
    ensures Le(Max(a, b), Max(c, d))
  {
  }

  lemma MinAssoc(a: Float, b: Float, c: Float)
    requires !a.NaN? && !b.NaN? && !c.NaN?
    ensures Min(Min(a, b), c) == Min(a, Min(b, c))
  {
  }

  lemma MinMono(a: Float, b: Float, c: Float, d: Float)
    requires !a.NaN? && !b.NaN? && !c.NaN? && !d.NaN?
    requires Le(a, c) && Le(b, d)
    ensures Le(Min(a, b), Min(c, d))
  {
  }

  predicate NoNaN(vals: seq<Float>)
  {
    forall i :: 0 <= i < |vals| ==> !vals[i].NaN?
  }

  /** `acc = max(acc, v)` over vals, left to right, as the search loops do. */
  function FoldMax(vals: seq<Float>, acc: Float): (r: Float)
    ensures NoNaN(vals) && !acc.NaN? ==>
      && !r.NaN? && Le(acc, r)
      && (forall i :: 0 <= i < |vals| ==> Le(vals[i], r))
      && (r == acc || exists i :: 0 <= i < |vals| && r == vals[i])
  {
    if vals == [] then acc
    else
      var r := FoldMax(vals[1..], Max(acc, vals[0]));
      assert forall i :: 1 <= i < |vals| ==> vals[i] == vals[1..][i - 1];
      if NoNaN(vals) && !acc.NaN? then
        LeTransitive(acc, Max(acc, vals[0]), r);
        LeTransitive(vals[0], Max(acc, vals[0]), r);
        r
      else r
  }

  /** `acc = min(acc, v)` over vals, left to right. */
  function FoldMin(vals: seq<Float>, acc: Float): (r: Float)
    ensures NoNaN(vals) && !acc.NaN? ==>
      && !r.NaN? && Le(r, acc)
      && (forall i :: 0 <= i < |vals| ==> Le(r, vals[i]))
      && (r == acc || exists i :: 0 <= i < |vals| && r == vals[i])
  {
    if vals == [] then acc
    else
      var r := FoldMin(vals[1..], Min(acc, vals[0]));
      assert forall i :: 1 <= i < |vals| ==> vals[i] == vals[1..][i - 1];
      if NoNaN(vals) && !acc.NaN? then
        LeTransitive(r, Min(acc, vals[0]), acc);
        LeTransitive(r, Min(acc, vals[0]), vals[0]);
        r
      else r
  }

  /** `total += v` over vals, starting from Python's integer 0. */
  function Sum(vals: seq<Float>): (r: Float)
  {
    if vals == [] then Fin(0.0) else Add(Sum(vals[..|vals| - 1]), vals[|vals| - 1])
  }

  predicate AllFin(vals: seq<Float>)
  {
    forall i :: 0 <= i < |vals| ==> vals[i].Fin?
  }

  /** x added to itself n times. */
  function Times(n: nat, x: real): (r: real)
  {
    if n == 0 then 0.0 else Times(n - 1, x) + x
  }

  lemma {:induction false} TimesIsProduct(n: nat, x: real)
    ensures Times(n, x) == (n as real) * x
  {
    if n > 0 {
      TimesIsProduct(n - 1, x);
      assert (n as real) * x == ((n - 1) as real) * x + x;
    }
  }

  /** A sum of finite values stays between count * lower and count * upper bound. */
  lemma {:induction false} SumBounds(vals: seq<Float>, lo: real, hi: real)
    requires AllFin(vals) && forall i :: 0 <= i < |vals| ==> lo <= vals[i].v <= hi
    ensures Sum(vals).Fin?
    ensures Times(|vals|, lo) <= Sum(vals).v <= Times(|vals|, hi)
  {
    if vals != [] {
      var n := |vals| - 1;
      var init := vals[..n];
      assert forall i :: 0 <= i < n ==> init[i] == vals[i];
      assert AllFin(init) && forall i :: 0 <= i < |init| ==> lo <= init[i].v <= hi;
      SumBounds(init, lo, hi);
      assert lo <= vals[n].v <= hi;
      assert Sum(vals) == Add(Sum(init), vals[n]);
    }
  }

  /** `total / count`, which raises ZeroDivisionError for no values. */
  function Mean(vals: seq<Float>): (r: Result<Float>)
    ensures r.Err? <==> vals == []
    ensures r.Ok? ==> r.value == DivCount(Sum(vals), |vals|)
  {
    if vals == [] then Err("division by zero") else Ok(DivCount(Sum(vals), |vals|))
  }

  /** The mean of finite values lies within any bounds that hold for all of them. */
  lemma MeanWithinBounds(vals: seq<Float>, lo: real, hi: real)
    requires vals != [] && AllFin(vals) && forall i :: 0 <= i < |vals| ==> lo <= vals[i].v <= hi
    ensures Mean(vals).Ok? && Mean(vals).value.Fin?
    ensures lo <= Mean(vals).value.v <= hi
  {
    SumBounds(vals, lo, hi);
    TimesIsProduct(|vals|, lo);
    TimesIsProduct(|vals|, hi);
    var n := |vals| as real;
    var t := Sum(vals).v;
    var m := Mean(vals).value.v;
    assert m == t / n;
    DivideBounds(t, n, lo, hi);
  }

  lemma DivideBounds(t: real, n: real, lo: real, hi: real)
    requires n >= 1.0 && n * lo <= t <= n * hi
    ensures lo <= t / n <= hi
  {
    assert t / n * n == t;
  }
}
