/** Population stability index (risktests/Population_Stability_Index.py): the
    percentage distribution of an initial and of a final rating column, compared
    rating by rating through the divergence term (p - q)·ln(p/q). pandas aligns
    the two distributions on the union of their ratings; a rating present in
    one column only gets a NaN term, which `Series.sum` skips. */
module StabilityIndex {
  import opened Seqs
  import opened Frame
  import opened Outcomes
  import opened Floats
  import opened Buckets

  /** `pd.crosstab(a, a).sum()`: how many entries of `col` carry each rating. */
  function Totals(col: seq<real>): real -> real
  {
    GroupSum(col, Id, One)
  }

  /** The total of a rating is its multiplicity in the column. */
  lemma TotalsCount(col: seq<real>, r: real)
    ensures Totals(col)(r) == multiset(col)[r] as real
    ensures Totals(col)(r) > 0.0 <==> r in col
  {
    SumOne(Select(col, Id, r));
    SelectMultiplicity(col, r);
  }

  lemma {:induction false} SelectMultiplicity(col: seq<real>, r: real)
    ensures |Select(col, Id, r)| == multiset(col)[r]
    decreases |col|
  {
    if |col| > 0 {
      SelectMultiplicity(col[1..], r);
      assert col == [col[0]] + col[1..];
      assert multiset(col) == multiset{col[0]} + multiset(col[1..]);
    }
  }

  /** The totals over the crosstab's index add up to the number of rows. */
  lemma TotalsSum(col: seq<real>)
    ensures Sum(Levels(col), Totals(col)) == |col| as real
  {
    IncreasingDistinct(Levels(col));
    SumByKeyOverKeys(col, Id, Levels(col), One);
    SumByKeyPartition(col, Id, Levels(col), One);
    SumOne(col);
  }

  /** `(a_totals / a_totals.sum()) * 100`: the percentage of the rows that
      carry each rating (`a_totals.sum()` is the row count, by `TotalsSum`). */
  function Percent(col: seq<real>): real -> real
    requires |col| > 0
  {
    r => Totals(col)(r) / |col| as real * 100.0
  }

  /** A rating has a positive percentage exactly when it occurs. */
  lemma PercentPositive(col: seq<real>, r: real)
    requires |col| > 0
    ensures Percent(col)(r) >= 0.0
    ensures Percent(col)(r) > 0.0 <==> r in col
  {
    TotalsCount(col, r);
    PositiveShare(Totals(col)(r), |col| as real);
  }

  lemma PositiveShare(x: real, n: real)
    requires x >= 0.0 && n > 0.0
    ensures x / n * 100.0 >= 0.0
    ensures x / n * 100.0 > 0.0 <==> x > 0.0
  {
  }

  /** The percentages over the crosstab's index add up to 100. */
  lemma PercentSum(col: seq<real>)
    requires |col| > 0
    ensures Sum(Levels(col), Percent(col)) == 100.0
  {
    TotalsSum(col);
    var n := |col| as real;
    PercentOfSum(Levels(col), Totals(col), Percent(col), n);
    WholeShare(n);
  }

  lemma WholeShare(n: real)
    requires n > 0.0
    ensures n / n * 100.0 == 100.0
  {
  }

  /** Rescaling every term to a percentage of `n` rescales the sum. */
  lemma {:induction false} PercentOfSum(s: seq<real>, f: real -> real, g: real -> real, n: real)
    requires n > 0.0
    requires forall i :: 0 <= i < |s| ==> g(s[i]) == f(s[i]) / n * 100.0
    ensures Sum(s, g) == Sum(s, f) / n * 100.0
    decreases |s|
  {
    if |s| > 0 {
      PercentOfSum(s[1..], f, g, n);
      DivideAdd(f(s[0]), Sum(s[1..], f), n);
    }
  }

  /** The union of the two ratings, ascending: the index the aligned
      `pi - qi` carries. */
  function Index(a: seq<real>, b: seq<real>): (ix: seq<real>)
    ensures Distinct(ix)
    ensures forall r :: r in ix <==> r in a || r in b
  {
    IncreasingDistinct(Levels(a + b));
    Levels(a + b)
  }

  /** The term `(pi - qi) * np.log(pi / qi)` at rating `r`: NaN where the
      rating is missing from either column, finite where both hold it. */
  function Term(ln: real -> real, a: seq<real>, b: seq<real>, r: real): (t: Float)
    requires |a| > 0 && |b| > 0
    ensures t.Fin? <==> r in a && r in b
    ensures t == NaN <==> !(r in a && r in b)
  {
    if r in a && r in b then
      PercentPositive(a, r);
      PercentPositive(b, r);
      assert Percent(a)(r) / Percent(b)(r) > 0.0;
      Mul(Fin(Percent(a)(r) - Percent(b)(r)), Log(ln, Div(Percent(a)(r), Percent(b)(r))))
    else
      NaN
  }

  /** The aligned terms, one per rating of the index. */
  function Terms(ln: real -> real, a: seq<real>, b: seq<real>): (ts: seq<Float>)
    requires |a| > 0 && |b| > 0
    ensures |ts| == |Index(a, b)|
    ensures forall i :: 0 <= i < |ts| ==> ts[i] == Term(ln, a, b, Index(a, b)[i])
  {
    Map(Index(a, b), r => Term(ln, a, b, r))
  }

  /** The finite part of a term; `Series.sum` skips the NaN terms. */
  function TermValue(ln: real -> real, a: seq<real>, b: seq<real>): real -> real
    requires |a| > 0 && |b| > 0
  {
    r => ValueOf(Term(ln, a, b, r))
  }

  /** `((pi - qi) * np.log(pi / qi)).sum()`. */
  function Psi(ln: real -> real, a: seq<real>, b: seq<real>): real
    requires |a| > 0 && |b| > 0
  {
    Sum(Terms(ln, a, b), ValueOf)
  }

  /** A NaN term is exactly a rating one column lacks, and it adds nothing:
      the index is the union, the sum runs over the shared ratings. */
  lemma OneSidedSkipped(ln: real -> real, a: seq<real>, b: seq<real>)
    requires |a| > 0 && |b| > 0
    ensures forall i :: 0 <= i < |Terms(ln, a, b)| ==>
              (Terms(ln, a, b)[i] == NaN <==> Index(a, b)[i] !in a || Index(a, b)[i] !in b)
    ensures NegInf !in Terms(ln, a, b) && PosInf !in Terms(ln, a, b)
    ensures Psi(ln, a, b) == Sum(Index(a, b), TermValue(ln, a, b))
  {
    var ts := Terms(ln, a, b);
    SumAligned(ts, Index(a, b), ValueOf, TermValue(ln, a, b));
  }

  /** The divergence term of two positive percentages, as a real. */
  lemma TermShape(ln: real -> real, a: seq<real>, b: seq<real>, r: real)
    requires |a| > 0 && |b| > 0 && r in a && r in b
    ensures Percent(a)(r) > 0.0 && Percent(b)(r) > 0.0
    ensures TermValue(ln, a, b)(r)
            == (Percent(a)(r) - Percent(b)(r)) * ln(Percent(a)(r) / Percent(b)(r))
  {
    PercentPositive(a, r);
    PercentPositive(b, r);
  }

  /** A rating both columns hold has the same percentage in each. */
  predicate Agree(a: seq<real>, b: seq<real>, r: real)
    requires |a| > 0 && |b| > 0
  {
    r in a && r in b ==> Percent(a)(r) == Percent(b)(r)
  }

  /** With a logarithm, the index is never negative, and it is zero exactly
      when every rating held by both columns has the same percentage in each. */
  lemma PsiSign(ln: real -> real, a: seq<real>, b: seq<real>)
    requires IsLog(ln) && |a| > 0 && |b| > 0
    ensures Psi(ln, a, b) >= 0.0
    ensures Psi(ln, a, b) == 0.0 <==> forall r :: Agree(a, b, r)
  {
    OneSidedSkipped(ln, a, b);
    ContributionsSign(ln, a, b);
    AgreeOnIndex(a, b);
  }

  lemma ContributionsSign(ln: real -> real, a: seq<real>, b: seq<real>)
    requires IsLog(ln) && |a| > 0 && |b| > 0
    ensures Sum(Index(a, b), TermValue(ln, a, b)) >= 0.0
    ensures Sum(Index(a, b), TermValue(ln, a, b)) == 0.0
            <==> forall i :: 0 <= i < |Index(a, b)| ==> Agree(a, b, Index(a, b)[i])
  {
    var ix, f := Index(a, b), TermValue(ln, a, b);
    forall i | 0 <= i < |ix|
      ensures f(ix[i]) >= 0.0
      ensures f(ix[i]) == 0.0 <==> Agree(a, b, ix[i])
    {
      if ix[i] in a && ix[i] in b {
        TermShape(ln, a, b, ix[i]);
        LogTerm(ln, Percent(a)(ix[i]), Percent(b)(ix[i]));
      }
    }
    SumNonNegative(ix, f);
  }

  lemma AgreeOnIndex(a: seq<real>, b: seq<real>)
    requires |a| > 0 && |b| > 0
    ensures (forall i :: 0 <= i < |Index(a, b)| ==> Agree(a, b, Index(a, b)[i])) <==> forall r :: Agree(a, b, r)
  {
    var ix := Index(a, b);
    if forall i :: 0 <= i < |ix| ==> Agree(a, b, ix[i]) {
      forall r ensures Agree(a, b, r) {
        if r in a && r in b {
          assert r in ix;
          var i :| 0 <= i < |ix| && ix[i] == r;
        }
      }
    }
  }

  lemma LogSign(ln: real -> real, a: seq<real>, b: seq<real>)
    requires |a| > 0 && |b| > 0
    ensures IsLog(ln) ==> Psi(ln, a, b) >= 0.0
  {
    if IsLog(ln) {
      PsiSign(ln, a, b);
    }
  }

  /** The same column as initial and final gives 0, whatever the logarithm. */
  lemma {:induction false} PsiSame(ln: real -> real, a: seq<real>)
    requires |a| > 0
    ensures Psi(ln, a, a) == 0.0
  {
    var ix := Index(a, a);
    forall i | 0 <= i < |ix| ensures TermValue(ln, a, a)(ix[i]) == 0.0 {
      SameTermZero(ln, a, ix[i]);
    }
    ZeroTerms(ln, a, a);
  }

  /** When every term of the index vanishes, so does the index. */
  lemma ZeroTerms(ln: real -> real, a: seq<real>, b: seq<real>)
    requires |a| > 0 && |b| > 0
    requires forall i :: 0 <= i < |Index(a, b)| ==> TermValue(ln, a, b)(Index(a, b)[i]) == 0.0
    ensures Psi(ln, a, b) == 0.0
  {
    var ix, f := Index(a, b), TermValue(ln, a, b);
    SumZero(ix, f);
    PsiIsIndexSum(ln, a, b);
  }

  lemma PsiIsIndexSum(ln: real -> real, a: seq<real>, b: seq<real>)
    requires |a| > 0 && |b| > 0
    ensures Psi(ln, a, b) == Sum(Index(a, b), TermValue(ln, a, b))
  {
    OneSidedSkipped(ln, a, b);
  }

  lemma SameTermZero(ln: real -> real, a: seq<real>, r: real)
    requires |a| > 0
    ensures TermValue(ln, a, a)(r) == 0.0
  {
    if r in a {
      TermShape(ln, a, a, r);
    }
  }

  /** Ratings the two columns never share contribute nothing: two columns with
      no rating in common have index 0. */
  lemma DisjointRatings(ln: real -> real, a: seq<real>, b: seq<real>)
    requires |a| > 0 && |b| > 0
    requires forall r :: r in a ==> r !in b
    ensures Psi(ln, a, b) == 0.0
  {
    var ix := Index(a, b);
    forall i | 0 <= i < |ix| ensures TermValue(ln, a, b)(ix[i]) == 0.0 {
      OneSidedTerm(ln, a, b, ix[i]);
    }
    ZeroTerms(ln, a, b);
  }

  /** A rating only one column holds has a NaN term, which counts as 0. */
  lemma OneSidedTerm(ln: real -> real, a: seq<real>, b: seq<real>, r: real)
    requires |a| > 0 && |b| > 0 && !(r in a && r in b)
    ensures Term(ln, a, b, r) == NaN
    ensures TermValue(ln, a, b)(r) == 0.0
  {
  }

  /** The share of the rows that carry each rating, as a fraction. */
  function Fraction(col: seq<real>): real -> real
    requires |col| > 0
  {
    r => Totals(col)(r) / |col| as real
  }

  /** The divergence term of two fractions, 0 where a rating is not shared. */
  function FractionTerm(ln: real -> real, a: seq<real>, b: seq<real>): real -> real
    requires |a| > 0 && |b| > 0
  {
    r => if r in a && r in b && Fraction(b)(r) != 0.0 then Divergence(ln, Fraction(a)(r), Fraction(b)(r)) else 0.0
  }

  /** (p - q)·ln(p/q) over the reals. */
  function Divergence(ln: real -> real, p: real, q: real): real
    requires q != 0.0
  {
    (p - q) * ln(p / q)
  }

  /** The `* 100` scaling multiplies the index by 100: it is 100 times the
      same sum taken over fractions. */
  lemma PsiScaling(ln: real -> real, a: seq<real>, b: seq<real>)
    requires |a| > 0 && |b| > 0
    ensures Psi(ln, a, b) == 100.0 * Sum(Index(a, b), FractionTerm(ln, a, b))
  {
    OneSidedSkipped(ln, a, b);
    ScaledSum(ln, a, b, Index(a, b));
  }

  lemma ScaledSum(ln: real -> real, a: seq<real>, b: seq<real>, ix: seq<real>)
    requires |a| > 0 && |b| > 0
    ensures Sum(ix, TermValue(ln, a, b)) == 100.0 * Sum(ix, FractionTerm(ln, a, b))
  {
    var f, g := TermValue(ln, a, b), FractionTerm(ln, a, b);
    forall i | 0 <= i < |ix| ensures f(ix[i]) == 100.0 * g(ix[i]) {
      ScaledContribution(ln, a, b, ix[i]);
    }
    SumScale(ix, f, g, 100.0);
  }

  lemma {:induction false} SumScale(s: seq<real>, f: real -> real, g: real -> real, c: real)
    requires forall i :: 0 <= i < |s| ==> f(s[i]) == c * g(s[i])
    ensures Sum(s, f) == c * Sum(s, g)
    decreases |s|
  {
    if |s| > 0 {
      SumScale(s[1..], f, g, c);
    }
  }

  lemma ScaledContribution(ln: real -> real, a: seq<real>, b: seq<real>, r: real)
    requires |a| > 0 && |b| > 0
    ensures TermValue(ln, a, b)(r) == 100.0 * FractionTerm(ln, a, b)(r)
  {
    if r in a && r in b {
      TermShape(ln, a, b, r);
      ScaledTerm(a, b, r);
      var p, q := Fraction(a)(r), Fraction(b)(r);
      assert FractionTerm(ln, a, b)(r) == Divergence(ln, p, q);
      var l := ln(p / q);
      assert TermValue(ln, a, b)(r) == (Percent(a)(r) - Percent(b)(r)) * l;
      ScaleFactor(Percent(a)(r), Percent(b)(r), p, q, l);
    } else {
      assert Term(ln, a, b, r) == NaN;
    }
  }

  lemma ScaledTerm(a: seq<real>, b: seq<real>, r: real)
    requires |a| > 0 && |b| > 0 && r in b
    ensures Percent(a)(r) == 100.0 * Fraction(a)(r) && Percent(b)(r) == 100.0 * Fraction(b)(r)
    ensures Fraction(b)(r) > 0.0
    ensures Percent(a)(r) / Percent(b)(r) == Fraction(a)(r) / Fraction(b)(r)
  {
    TotalsCount(b, r);
    var p, q := Fraction(a)(r), Fraction(b)(r);
    assert q > 0.0;
    CancelScale(p, q, 100.0);
  }

  lemma ScaleFactor(pa: real, pb: real, p: real, q: real, l: real)
    requires pa == 100.0 * p && pb == 100.0 * q
    ensures (pa - pb) * l == 100.0 * ((p - q) * l)
  {
  }

  lemma CancelScale(p: real, q: real, c: real)
    requires q > 0.0 && c > 0.0
    ensures (p * c) / (q * c) == p / q
    ensures (c * p) / (c * q) == p / q
  {
    assert (p / q) * (q * c) == p * c;
  }

  /** The index depends on the columns only through how often each rating
      occurs: reordering the rows changes nothing. */
  lemma PsiRowOrder(ln: real -> real, a: seq<real>, b: seq<real>, a': seq<real>, b': seq<real>)
    requires |a| > 0 && |b| > 0
    requires multiset(a') == multiset(a) && multiset(b') == multiset(b)
    ensures |a'| > 0 && |b'| > 0
    ensures Psi(ln, a', b') == Psi(ln, a, b)
  {
    SameValues(a, a');
    SameValues(b, b');
    SameLevels(a + b, a' + b');
    OneSidedSkipped(ln, a, b);
    OneSidedSkipped(ln, a', b');
    var ix := Index(a, b);
    forall i | 0 <= i < |ix| ensures TermValue(ln, a, b)(ix[i]) == TermValue(ln, a', b')(ix[i]) {
      SameContribution(ln, a, b, a', b', ix[i]);
    }
    SumCongruent(ix, TermValue(ln, a, b), TermValue(ln, a', b'));
  }

  lemma SameValues(a: seq<real>, a': seq<real>)
    requires multiset(a') == multiset(a)
    ensures |a'| == |a|
    ensures forall r :: r in a' <==> r in a
  {
    assert |a'| == |multiset(a')| == |a|;
    forall r ensures r in a' <==> r in a {
      assert r in a' <==> r in multiset(a');
      assert r in a <==> r in multiset(a);
    }
  }

  lemma SameContribution(ln: real -> real, a: seq<real>, b: seq<real>, a': seq<real>, b': seq<real>, r: real)
    requires |a| > 0 && |b| > 0
    requires multiset(a') == multiset(a) && multiset(b') == multiset(b)
    ensures |a'| > 0 && |b'| > 0
    ensures Percent(a')(r) == Percent(a)(r) && Percent(b')(r) == Percent(b)(r)
    ensures TermValue(ln, a, b)(r) == TermValue(ln, a', b')(r)
  {
    SamePercent(a, a', r);
    SamePercent(b, b', r);
    SameValues(a, a');
    SameValues(b, b');
    assert Term(ln, a, b, r) == Term(ln, a', b', r);
  }

  /** Reordering a column keeps every rating's percentage. */
  lemma SamePercent(a: seq<real>, a': seq<real>, r: real)
    requires |a| > 0 && multiset(a') == multiset(a)
    ensures |a'| == |a|
    ensures Percent(a')(r) == Percent(a)(r)
  {
    SameValues(a, a');
    TotalsCount(a, r);
    TotalsCount(a', r);
  }

  /** Two columns holding the same values have the same index. */
  lemma SameLevels(s: seq<real>, t: seq<real>)
    requires forall r :: r in s <==> r in t
    ensures Levels(s) == Levels(t)
  {
    IncreasingUnique(Levels(s), Levels(t));
  }

  lemma {:induction false} IncreasingUnique(u: seq<real>, v: seq<real>)
    requires Increasing(u) && Increasing(v)
    requires forall r :: r in u <==> r in v
    ensures u == v
    decreases |u|
  {
    forall i | 0 <= i < |u| ensures u[i] in v {
      assert u[i] in u;
    }
    forall i | 0 <= i < |v| ensures v[i] in u {
      assert v[i] in v;
    }
    assert |u| > 0 ==> u[0] in v;
    assert |v| > 0 ==> v[0] in u;
    if |u| > 0 && |v| > 0 {
      assert u[0] == v[0] by {
        assert u[0] in u && v[0] in v;
      }
      assert forall r :: r in u[1..] <==> r in v[1..] by {
        forall r ensures r in u[1..] <==> r in v[1..] {
          assert r in u <==> r == u[0] || r in u[1..];
          assert r in v <==> r == v[0] || r in v[1..];
        }
      }
      IncreasingUnique(u[1..], v[1..]);
      assert u == [u[0]] + u[1..];
      assert v == [v[0]] + v[1..];
    }
  }
  /** `PSI(df, initial_ratings_col, final_ratings_col)`: the input ladder over
      the two rating columns, then the index. */
  function PsiTest(ln: real -> real, t: Table, initialCol: Arg, finalCol: Arg): (r: Result<real>)
    requires Rectangular(t)
    ensures r.Err? <==> Validate(t, [initialCol, finalCol], [0, 1]).Err?
    ensures r.Err? ==> r.failure == Validate(t, [initialCol, finalCol], [0, 1]).failure
    ensures r.Ok? && IsLog(ln) ==> r.value >= 0.0
    ensures r.Ok? && initialCol == finalCol ==> r.value == 0.0
  {
    var cols :- Validate(t, [initialCol, finalCol], [0, 1]);
    ValidatedColumnsComplete(t, [initialCol, finalCol], [0, 1], 0);
    ValidatedColumnsComplete(t, [initialCol, finalCol], [0, 1], 1);
    var a, b := Values(t, cols[0]), Values(t, cols[1]);
    PsiSame(ln, a);
    LogSign(ln, a, b);
    Ok(Psi(ln, a, b))
  }
}
