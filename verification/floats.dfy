/** float64 results over exact reals: a finite value, or one of the special values
    numpy produces, with a warning, where Python would raise. Rounding is not
    modelled; only where a division, logarithm or product leaves the finite reals. */
module Floats {
  import opened Seqs

  datatype Float = Fin(v: real) | PosInf | NegInf | NaN

  /** numpy true division: a nonzero numerator over zero gives a signed infinity,
      zero over zero gives NaN. */
  function Div(a: real, b: real): Float
  {
    if b != 0.0 then Fin(a / b)
    else if a > 0.0 then PosInf
    else if a < 0.0 then NegInf
    else NaN
  }

  /** IEEE addition. */
  function Add(a: Float, b: Float): Float
  {
    match (a, b)
    case (Fin(x), Fin(y)) => Fin(x + y)
    case (NaN, _) => NaN
    case (_, NaN) => NaN
    case (PosInf, NegInf) => NaN
    case (NegInf, PosInf) => NaN
    case (PosInf, _) => PosInf
    case (_, PosInf) => PosInf
    case (NegInf, _) => NegInf
    case (_, NegInf) => NegInf
  }

  /** The sign of an infinite or finite value, for products. */
  function Sign(a: Float): int
    requires !a.NaN?
  {
    match a
    case Fin(x) => if x > 0.0 then 1 else if x < 0.0 then -1 else 0
    case PosInf => 1
    case NegInf => -1
  }

  /** IEEE multiplication: an infinity times zero is NaN. */
  function Mul(a: Float, b: Float): Float
  {
    if a.NaN? || b.NaN? then NaN
    else if a.Fin? && b.Fin? then Fin(a.v * b.v)
    else if Sign(a) * Sign(b) > 0 then PosInf
    else if Sign(a) * Sign(b) < 0 then NegInf
    else NaN
  }

  /** `np.log` with `ln` standing for the natural logarithm on positive reals:
      log 0 is -inf, a negative argument gives NaN. */
  function Log(ln: real -> real, a: Float): Float
  {
    match a
    case Fin(x) => if x > 0.0 then Fin(ln(x)) else if x == 0.0 then NegInf else NaN
    case PosInf => PosInf
    case NegInf => NaN
    case NaN => NaN
  }

  /** IEEE negation. */
  function Neg(a: Float): Float
  {
    match a
    case Fin(x) => Fin(-x)
    case PosInf => NegInf
    case NegInf => PosInf
    case NaN => NaN
  }

  /** IEEE subtraction. */
  function Sub(a: Float, b: Float): Float
  {
    Add(a, Neg(b))
  }

  /** IEEE division of float64 values (a zero divisor taken as +0): a finite
      value over an infinity is 0, an infinity over an infinity is NaN. */
  function Quot(a: Float, b: Float): Float
  {
    match (a, b)
    case (NaN, _) => NaN
    case (_, NaN) => NaN
    case (Fin(x), Fin(y)) => Div(x, y)
    case (Fin(_), _) => Fin(0.0)
    case (_, Fin(y)) => if y >= 0.0 then a else Neg(a)
    case (_, _) => NaN
  }

  /** `abs` on a float64. */
  function Abs(a: Float): Float
  {
    match a
    case Fin(x) => Fin(if x < 0.0 then -x else x)
    case PosInf => PosInf
    case NegInf => PosInf
    case NaN => NaN
  }

  /** What the models need of the natural logarithm: ln 1 = 0 and strictly
      increasing on the positive reals. */
  ghost predicate IsLog(ln: real -> real)
  {
    && ln(1.0) == 0.0
    && forall x, y :: 0.0 < x < y ==> ln(x) < ln(y)
  }

  /** The divergence term (a - b)·ln(a/b) of two positive shares is never
      negative, and zero exactly when the shares agree. */
  lemma LogTerm(ln: real -> real, a: real, b: real)
    requires IsLog(ln) && a > 0.0 && b > 0.0
    ensures (a - b) * ln(a / b) >= 0.0
    ensures (a - b) * ln(a / b) == 0.0 <==> a == b
  {
    var q := a / b;
    assert q * b == a;
    if a > b {
      assert q > 1.0;
      assert ln(q) > ln(1.0);
      MulPositive(a - b, ln(q));
    } else if a < b {
      var r := 1.0 - q;
      assert r * b == b - a;
      assert r * b > 0.0;
      FactorSign(r, b);
      assert ln(q) < ln(1.0);
      MulPositive(b - a, -ln(q));
      assert (a - b) * ln(q) == (b - a) * -ln(q);
    } else {
      assert q == b / b;
    }
  }

  lemma FactorSign(x: real, y: real)
    requires y > 0.0 && x * y > 0.0
    ensures x > 0.0
  {
  }

  /** The float64 divergence term `(a - b)*np.log(a/b)` for shares a >= 0 and
      b > 0: +inf when `a` is 0, since log 0 is -inf, and finite otherwise. */
  function DivergenceTerm(ln: real -> real, a: real, b: real): (r: Float)
    requires b > 0.0 && a >= 0.0
    ensures r == PosInf <==> a == 0.0
    ensures r.Fin? <==> a > 0.0
  {
    if a > 0.0 then
      assert a / b > 0.0;
      Mul(Fin(a - b), Log(ln, Fin(a / b)))
    else
      assert a / b == 0.0;
      Mul(Fin(a - b), Log(ln, Fin(a / b)))
  }

  /** With a logarithm, the divergence term is never negative and is zero
      exactly when the two shares agree. */
  lemma DivergenceTermSign(ln: real -> real, a: real, b: real)
    requires IsLog(ln) && b > 0.0 && a >= 0.0
    ensures NonNegative(DivergenceTerm(ln, a, b))
    ensures DivergenceTerm(ln, a, b) == Fin(0.0) <==> a == b
  {
    if a > 0.0 {
      assert a / b > 0.0;
      LogTerm(ln, a, b);
    }
  }

  /** +inf, or a finite value that is not negative. */
  predicate NonNegative(x: Float)
  {
    x == PosInf || (x.Fin? && x.v >= 0.0)
  }

  /** The finite part of a value, 0 for the special values. */
  function ValueOf(x: Float): real
  {
    if x.Fin? then x.v else 0.0
  }

  /** `acc += x` for each `x` of `s` in turn. */
  function Accumulate(acc: Float, s: seq<Float>): Float
    decreases |s|
  {
    if |s| == 0 then acc else Accumulate(Add(acc, s[0]), s[1..])
  }

  /** Python's `sum` of float64 values: an accumulation from 0. */
  function SumFloats(s: seq<Float>): Float
  {
    Accumulate(Fin(0.0), s)
  }

  /** Without -inf among the terms, an accumulation is NaN exactly when a term
      is, +inf exactly when otherwise a term is +inf, and otherwise the exact
      sum, whatever the order of the terms. */
  lemma {:induction false} AccumulateSpecial(acc: Float, s: seq<Float>)
    requires acc != NegInf && NegInf !in s
    ensures Accumulate(acc, s) != NegInf
    ensures Accumulate(acc, s) == NaN <==> acc == NaN || NaN in s
    ensures Accumulate(acc, s) == PosInf <==> !(acc == NaN || NaN in s) && (acc == PosInf || PosInf in s)
    ensures Accumulate(acc, s).Fin? ==> Accumulate(acc, s).v == ValueOf(acc) + Sum(s, ValueOf)
    decreases |s|
  {
    if |s| > 0 {
      assert s == [s[0]] + s[1..];
      AccumulateSpecial(Add(acc, s[0]), s[1..]);
    }
  }

  /** A sum of non-negative values is +inf exactly when one of them is, and
      otherwise the finite sum of their values. */
  lemma SumNonNegativeFloats(s: seq<Float>)
    requires forall i :: 0 <= i < |s| ==> NonNegative(s[i])
    ensures NonNegative(SumFloats(s))
    ensures SumFloats(s) == PosInf <==> exists i :: 0 <= i < |s| && s[i] == PosInf
    ensures SumFloats(s).Fin? ==> SumFloats(s).v == Sum(s, ValueOf)
  {
    AccumulateSpecial(Fin(0.0), s);
    forall i | 0 <= i < |s| ensures ValueOf(s[i]) >= 0.0 {
    }
    SumNonNegative(s, ValueOf);
  }

  /** Once a NaN is met, the accumulation stays NaN. */
  lemma {:induction false} AccumulateNaN(acc: Float, s: seq<Float>)
    requires acc == NaN || NaN in s
    ensures Accumulate(acc, s) == NaN
    decreases |s|
  {
    if |s| > 0 {
      assert NaN in s ==> s[0] == NaN || NaN in s[1..];
      AccumulateNaN(Add(acc, s[0]), s[1..]);
    }
  }
}
