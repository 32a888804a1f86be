/** Information value per rating grade from the shares of good and bad
    obligors (risktests/InformationValue.py): for each grade the share of all
    non-defaulted obligors it holds is compared with the share of all
    defaulted obligors it holds, through the divergence term
    (g - b)·ln(g/b); an "Overall" row adds the terms up. */
module InformationShares {
  import opened Seqs
  import opened Frame
  import opened Outcomes
  import opened Floats
  import opened Buckets

  /** A row with default flag 0. */
  predicate IsGood(o: Obligor) { o.flag == 0.0 }

  /** A row with default flag 1. Flags other than 0 and 1 count as neither. */
  predicate IsBad(o: Obligor) { o.flag == 1.0 }

  /** `len(bucket rows satisfying p) / len(all rows satisfying p)`; 0 when no
      row satisfies `p`, a case the test never reaches. */
  function Share(rows: seq<Obligor>, p: Obligor -> bool, a: real): (r: real)
    ensures 0.0 <= r <= 1.0
    ensures r == 0.0 <==> Count(rows, p) == 0 || Count(Members(rows, a), p) == 0
  {
    var n := Count(rows, p);
    if n == 0 then 0.0
    else
      var m := Count(Members(rows, a), p);
      CountSelectBound(rows, RatingOf, a, p);
      RatioInUnit(m as real, n as real);
      RatioZero(m as real, n as real);
      m as real / n as real
  }

  lemma RatioZero(m: real, n: real)
    requires n > 0.0
    ensures m / n == 0.0 <==> m == 0.0
  {
    assert m / n * n == m;
  }

  /** The share held by each grade, as a function of the grade. */
  function SharesOf(rows: seq<Obligor>, p: Obligor -> bool): real -> real
  {
    a => Share(rows, p, a)
  }

  /** The IV of grade `a`. The goods total is divided by first, then the bads
      total, then the bads share; each is a Python division, which raises on
      zero. A grade without goods gives log 0 = -inf and so +inf. */
  function BucketIV(ln: real -> real, rows: seq<Obligor>, a: real): (r: Result<Float>)
    ensures r.Err? <==> Count(rows, IsGood) == 0 || Count(Members(rows, a), IsBad) == 0
    ensures r.Err? ==> r.failure == ZeroDivision
    ensures r.Ok? ==> (r.value == PosInf <==> Count(Members(rows, a), IsGood) == 0)
    ensures r.Ok? ==> (r.value.Fin? <==> Count(Members(rows, a), IsGood) > 0)
  {
    CountSelectBound(rows, RatingOf, a, IsBad);
    if Count(rows, IsGood) == 0 then Err(ZeroDivision)
    else if Count(rows, IsBad) == 0 then Err(ZeroDivision)
    else
      var num := Share(rows, IsGood, a);
      var denom := Share(rows, IsBad, a);
      if denom == 0.0 then Err(ZeroDivision)
      else Ok(DivergenceTerm(ln, num, denom))
  }

  /** A grade's IV is never negative, and it is zero exactly when the grade
      holds the same share of goods as of bads, that is, when it does not
      separate them at all. */
  lemma BucketIVSign(ln: real -> real, rows: seq<Obligor>, a: real)
    requires IsLog(ln) && BucketIV(ln, rows, a).Ok?
    ensures NonNegative(BucketIV(ln, rows, a).value)
    ensures BucketIV(ln, rows, a).value == Fin(0.0)
            <==> Share(rows, IsGood, a) == Share(rows, IsBad, a)
  {
    DivergenceTermSign(ln, Share(rows, IsGood, a), Share(rows, IsBad, a));
  }

  /** Over all grades, the shares of a class add up to one. */
  lemma SharesSumToOne(rows: seq<Obligor>, order: seq<real>, p: Obligor -> bool)
    requires Enumerates(order, Ratings(rows)) && Count(rows, p) > 0
    ensures Sum(order, SharesOf(rows, p)) == 1.0
  {
    var n := Count(rows, p) as real;
    var g := GroupSum(rows, RatingOf, Indicator(p));
    forall i | 0 <= i < |order| ensures SharesOf(rows, p)(order[i]) == g(order[i]) / n {
      ShareOfGroup(rows, p, order[i]);
    }
    SumDivide(order, g, SharesOf(rows, p), n);
    GroupsCount(rows, order, p);
    WholeRatio(Sum(order, g), n);
  }

  lemma WholeRatio(x: real, n: real)
    requires n != 0.0 && x == n
    ensures x / n == 1.0
  {
  }

  lemma ShareOfGroup(rows: seq<Obligor>, p: Obligor -> bool, a: real)
    requires Count(rows, p) > 0
    ensures SharesOf(rows, p)(a) == GroupSum(rows, RatingOf, Indicator(p))(a) / Count(rows, p) as real
  {
    ShareUnfold(rows, p, a);
    GroupCount(rows, p, a);
  }

  lemma ShareUnfold(rows: seq<Obligor>, p: Obligor -> bool, a: real)
    requires Count(rows, p) > 0
    ensures SharesOf(rows, p)(a) == Count(Members(rows, a), p) as real / Count(rows, p) as real
  {
  }

  lemma GroupCount(rows: seq<Obligor>, p: Obligor -> bool, a: real)
    ensures GroupSum(rows, RatingOf, Indicator(p))(a) == Count(Members(rows, a), p) as real
  {
    SumIndicator(Members(rows, a), p);
  }

  lemma GroupsCount(rows: seq<Obligor>, order: seq<real>, p: Obligor -> bool)
    requires Enumerates(order, Ratings(rows))
    ensures Sum(order, GroupSum(rows, RatingOf, Indicator(p))) == Count(rows, p) as real
  {
    SumByKeyOverKeys(rows, RatingOf, order, Indicator(p));
    EnumerationCovers(rows, RatingOf, order);
    SumByKeyPartition(rows, RatingOf, order, Indicator(p));
    SumIndicator(rows, p);
  }

  /** The row label of the result: a rating grade, or "Overall". */
  datatype Label = Grade(rating: real) | Overall

  datatype Entry = Entry(name: Label, iv: Float)

  function IvOf(e: Entry): Float { e.iv }

  /** The loop over the grades in `order`: one row per grade, stopping at the
      first grade whose IV raises. */
  function GradeRows(ln: real -> real, rows: seq<Obligor>, order: seq<real>): (r: Result<seq<Entry>>)
    ensures r.Err? <==> exists k :: 0 <= k < |order| && BucketIV(ln, rows, order[k]).Err?
    ensures r.Err? ==> r.failure == ZeroDivision
    ensures r.Ok? ==> |r.value| == |order|
    ensures r.Ok? ==> forall k :: 0 <= k < |order| ==>
              r.value[k].name == Grade(order[k]) && Ok(r.value[k].iv) == BucketIV(ln, rows, order[k])
  {
    if |order| == 0 then Ok([])
    else
      var e :- BucketIV(ln, rows, order[0]);
      var rest :- GradeRows(ln, rows, order[1..]);
      assert forall k :: 1 <= k < |order| ==> order[1..][k - 1] == order[k];
      Ok([Entry(Grade(order[0]), e)] + rest)
  }

  /** The grade rows followed by the "Overall" row, Python's `sum` of the
      grade IVs. */
  function Report(ln: real -> real, rows: seq<Obligor>, order: seq<real>): (r: Result<seq<Entry>>)
    ensures r.Err? <==> GradeRows(ln, rows, order).Err?
    ensures r.Err? ==> r.failure == ZeroDivision
    ensures r.Ok? ==> |r.value| == |order| + 1 && r.value[|order|].name == Overall
    ensures r.Ok? ==> r.value[..|order|] == GradeRows(ln, rows, order).value
    ensures r.Ok? ==> r.value[|order|].iv == SumFloats(Map(r.value[..|order|], IvOf))
  {
    var es :- GradeRows(ln, rows, order);
    var total := SumFloats(Map(es, IvOf));
    assert (es + [Entry(Overall, total)])[..|order|] == es;
    Ok(es + [Entry(Overall, total)])
  }

  /** A grade has a row with no bads: the test divides by zero. */
  predicate SomeGradeWithoutBads(rows: seq<Obligor>)
  {
    exists a :: a in Ratings(rows) && Count(Members(rows, a), IsBad) == 0
  }

  /** The report fails exactly when there are no goods at all or some grade
      holds no bads; this does not depend on the iteration order. */
  lemma ReportFails(ln: real -> real, rows: seq<Obligor>, order: seq<real>)
    requires Enumerates(order, Ratings(rows)) && |rows| > 0
    ensures Report(ln, rows, order).Err?
            <==> Count(rows, IsGood) == 0 || SomeGradeWithoutBads(rows)
  {
    var r := Report(ln, rows, order);
    if Count(rows, IsGood) == 0 {
      assert rows[0].rating in Ratings(rows);
      assert rows[0].rating in order;
      var k :| 0 <= k < |order| && order[k] == rows[0].rating;
      assert BucketIV(ln, rows, order[k]).Err?;
    }
    if SomeGradeWithoutBads(rows) {
      var a :| a in Ratings(rows) && Count(Members(rows, a), IsBad) == 0;
      assert a in order;
      var k :| 0 <= k < |order| && order[k] == a;
      assert BucketIV(ln, rows, order[k]).Err?;
    }
    if r.Err? {
      var k :| 0 <= k < |order| && BucketIV(ln, rows, order[k]).Err?;
      assert order[k] in Ratings(rows);
    }
  }

  /** The finite value of each grade's IV, 0 where it raises or is infinite. */
  function IvValue(ln: real -> real, rows: seq<Obligor>): real -> real
  {
    a => var r := BucketIV(ln, rows, a); if r.Ok? then ValueOf(r.value) else 0.0
  }

  /** The "Overall" IV is never negative; it is +inf exactly when some grade
      holds no goods, and otherwise the sum of the grades' IVs. */
  lemma {:induction false} OverallValue(ln: real -> real, rows: seq<Obligor>, order: seq<real>)
    requires IsLog(ln) && Enumerates(order, Ratings(rows))
    requires Report(ln, rows, order).Ok?
    ensures var total := Report(ln, rows, order).value[|order|].iv;
            && NonNegative(total)
            && (total == PosInf <==> exists a :: a in Ratings(rows) && Count(Members(rows, a), IsGood) == 0)
            && (total.Fin? ==> total.v == Sum(order, IvValue(ln, rows)))
  {
    var ivs := Map(GradeRows(ln, rows, order).value, IvOf);
    var total := Report(ln, rows, order).value[|order|].iv;
    assert total == SumFloats(ivs);
    GradeIvs(ln, rows, order);
    SumNonNegativeFloats(ivs);
    if total == PosInf {
      var i :| 0 <= i < |ivs| && ivs[i] == PosInf;
      assert order[i] in Ratings(rows);
    }
    if exists a :: a in Ratings(rows) && Count(Members(rows, a), IsGood) == 0 {
      var a :| a in Ratings(rows) && Count(Members(rows, a), IsGood) == 0;
      assert a in order;
      var i :| 0 <= i < |order| && order[i] == a;
      assert ivs[i] == PosInf;
    }
    if total.Fin? {
      SumAligned(ivs, order, ValueOf, IvValue(ln, rows));
    }
  }

  /** The grade IVs of a successful loop: each is that grade's IV, never
      negative, and +inf exactly when the grade holds no goods. */
  lemma GradeIvs(ln: real -> real, rows: seq<Obligor>, order: seq<real>)
    requires IsLog(ln) && GradeRows(ln, rows, order).Ok?
    ensures var ivs := Map(GradeRows(ln, rows, order).value, IvOf);
            && |ivs| == |order|
            && forall i :: 0 <= i < |ivs| ==>
                 && IvValue(ln, rows)(order[i]) == ValueOf(ivs[i])
                 && NonNegative(ivs[i])
                 && (ivs[i] == PosInf <==> Count(Members(rows, order[i]), IsGood) == 0)
  {
    var es := GradeRows(ln, rows, order).value;
    var ivs := Map(es, IvOf);
    forall i | 0 <= i < |ivs|
      ensures IvValue(ln, rows)(order[i]) == ValueOf(ivs[i])
      ensures NonNegative(ivs[i])
      ensures ivs[i] == PosInf <==> Count(Members(rows, order[i]), IsGood) == 0
    {
      assert Ok(ivs[i]) == BucketIV(ln, rows, order[i]);
      BucketIVSign(ln, rows, order[i]);
    }
  }

  /** When every grade holds goods, the "Overall" IV is finite and zero
      exactly when each grade holds equal shares of goods and bads. */
  lemma OverallZero(ln: real -> real, rows: seq<Obligor>, order: seq<real>)
    requires IsLog(ln) && Enumerates(order, Ratings(rows))
    requires Report(ln, rows, order).Ok?
    requires forall a :: a in Ratings(rows) ==> Count(Members(rows, a), IsGood) > 0
    ensures Report(ln, rows, order).value[|order|].iv.Fin?
    ensures Report(ln, rows, order).value[|order|].iv == Fin(0.0)
            <==> forall a :: a in Ratings(rows) ==> Share(rows, IsGood, a) == Share(rows, IsBad, a)
  {
    OverallValue(ln, rows, order);
    var f := IvValue(ln, rows);
    forall i | 0 <= i < |order| ensures f(order[i]) >= 0.0
      && (f(order[i]) == 0.0 <==> Share(rows, IsGood, order[i]) == Share(rows, IsBad, order[i]))
    {
      assert order[i] in Ratings(rows);
      BucketIVSign(ln, rows, order[i]);
    }
    SumNonNegative(order, f);
    if forall a :: a in Ratings(rows) ==> Share(rows, IsGood, a) == Share(rows, IsBad, a) {
      assert forall i :: 0 <= i < |order| ==> order[i] in Ratings(rows);
    } else {
      var a :| a in Ratings(rows) && Share(rows, IsGood, a) != Share(rows, IsBad, a);
      assert a in order;
      var i :| 0 <= i < |order| && order[i] == a;
      assert f(order[i]) != 0.0;
    }
  }

  /** The "Overall" IV does not depend on the iteration order of the rating set. */
  lemma OverallOrderFree(ln: real -> real, rows: seq<Obligor>, o1: seq<real>, o2: seq<real>)
    requires IsLog(ln) && Enumerates(o1, Ratings(rows)) && Enumerates(o2, Ratings(rows))
    requires Report(ln, rows, o1).Ok?
    ensures Report(ln, rows, o2).Ok?
    ensures Report(ln, rows, o1).value[|o1|].iv == Report(ln, rows, o2).value[|o2|].iv
  {
    ReportOkOrderFree(ln, rows, o1, o2);
    OverallValue(ln, rows, o1);
    OverallValue(ln, rows, o2);
    EnumerationsPermute(o1, o2, Ratings(rows));
    SumPermutation(o1, o2, IvValue(ln, rows));
  }

  lemma ReportOkOrderFree(ln: real -> real, rows: seq<Obligor>, o1: seq<real>, o2: seq<real>)
    requires Enumerates(o1, Ratings(rows)) && Enumerates(o2, Ratings(rows))
    requires Report(ln, rows, o1).Ok?
    ensures Report(ln, rows, o2).Ok?
  {
    if |rows| > 0 {
      ReportFails(ln, rows, o1);
      ReportFails(ln, rows, o2);
    } else {
      EnumerationSize(o2, Ratings(rows));
      assert Ratings(rows) == {};
    }
  }

  /** `Information_value(df, defaults_col, PDs_col, ratings_col)`: the common
      argument ladder, then the report over the rating grades in the iteration
      order `setOrder` gives the rating set. */
  function InformationValueTest(ln: real -> real, t: Table, defaultsCol: Arg, pdsCol: Arg, ratingsCol: Arg,
                                setOrder: set<real> -> seq<real>): (r: Result<seq<Entry>>)
    requires Rectangular(t) && IsSetOrder(setOrder)
    ensures ValidateObligors(t, defaultsCol, pdsCol, ratingsCol).Err? ==>
              r == Err(ValidateObligors(t, defaultsCol, pdsCol, ratingsCol).failure)
    ensures ValidateObligors(t, defaultsCol, pdsCol, ratingsCol).Ok? ==>
              var rows := ValidateObligors(t, defaultsCol, pdsCol, ratingsCol).value;
              && (r.Err? <==> Count(rows, IsGood) == 0 || SomeGradeWithoutBads(rows))
              && (r.Err? ==> r.failure == ZeroDivision)
              && (r.Ok? ==> |r.value| == |Ratings(rows)| + 1 && r.value[|Ratings(rows)|].name == Overall)
              && (r.Ok? ==> forall a :: a in Ratings(rows) <==>
                              exists k :: 0 <= k < |Ratings(rows)| && r.value[k].name == Grade(a))
  {
    var rows :- ValidateObligors(t, defaultsCol, pdsCol, ratingsCol);
    var order := setOrder(Ratings(rows));
    EnumerationSize(order, Ratings(rows));
    ReportFails(ln, rows, order);
    Report(ln, rows, order)
  }
}
