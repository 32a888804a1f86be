/** Spiegelhalter's normal test of PD calibration
    (risktests/Speigelhalter_Normal_test.py): per rating bucket and over the
    whole portfolio, the mean squared error of the PDs against the default
    flags is compared with its expectation under the PDs, standardised, and
    turned into a one-sided normal p-value. */
module Spiegelhalter {
  import opened Seqs
  import opened Frame
  import opened Outcomes
  import opened Floats
  import opened Buckets

  /** (flag - PD)^2: one obligor's squared error. */
  function SqErr(o: Obligor): real { (o.flag - o.pd) * (o.flag - o.pd) }

  /** PD (1 - PD): one obligor's expected squared error. */
  function PdVar(o: Obligor): real { o.pd * (1.0 - o.pd) }

  /** PD (1 - PD) (1 - 2 PD)^2: one obligor's contribution to the variance. */
  function VarTerm(o: Obligor): real { o.pd * (1.0 - o.pd) * ((1.0 - 2.0 * o.pd) * (1.0 - 2.0 * o.pd)) }

  /** MSE, its expectation EMSE, and the variance of EMSE for one group. */
  datatype Stats = Stats(mse: real, emse: real, variance: real)

  lemma TermsNonNegative(g: seq<Obligor>)
    requires PdsInUnit(g)
    ensures forall i :: 0 <= i < |g| ==> SqErr(g[i]) >= 0.0 && PdVar(g[i]) >= 0.0 && VarTerm(g[i]) >= 0.0
  {
    SqErrNonNegative(g);
    forall i | 0 <= i < |g|
      ensures SqErr(g[i]) >= 0.0 && PdVar(g[i]) >= 0.0 && VarTerm(g[i]) >= 0.0
    {
      var p := g[i].pd;
      MulNonNegative(p, 1.0 - p);
      var a := p * (1.0 - p);
      var c := 1.0 - 2.0 * p;
      MulNonNegative(a, c * c);
      assert PdVar(g[i]) == a;
      assert VarTerm(g[i]) == a * (c * c);
    }
  }

  lemma ProductZero(a: real, b: real)
    requires a * b == 0.0
    ensures a == 0.0 || b == 0.0
  {
    if a != 0.0 {
      assert b == (a * b) / a;
    }
  }

  lemma SqErrNonNegative(g: seq<Obligor>)
    ensures forall i :: 0 <= i < |g| ==> SqErr(g[i]) >= 0.0
  {
    forall i | 0 <= i < |g| ensures SqErr(g[i]) >= 0.0 {
      var e := g[i].flag - g[i].pd;
      var m := if e >= 0.0 then e else -e;
      MulNonNegative(m, m);
      assert SqErr(g[i]) == m * m;
    }
  }

  /** The three statistics of a nonempty group: the sums divided by n, n and n^2. */
  function StatsOf(g: seq<Obligor>): (s: Stats)
    requires |g| > 0
    ensures s.mse >= 0.0
    ensures PdsInUnit(g) ==> s.emse >= 0.0 && s.variance >= 0.0
    ensures s.variance == 0.0 <==> Sum(g, VarTerm) == 0.0
  {
    var n := |g| as real;
    SqErrNonNegative(g);
    SumNonNegative(g, SqErr);
    assert n * n > 0.0;
    var s := Stats(Sum(g, SqErr) / n, Sum(g, PdVar) / n, Sum(g, VarTerm) / (n * n));
    if PdsInUnit(g) then
      TermsNonNegative(g);
      SumNonNegative(g, PdVar);
      SumNonNegative(g, VarTerm);
      s
    else s
  }

  /** A PD contributes no variance exactly when it is 0, 1/2 or 1. */
  lemma VarTermZero(o: Obligor)
    ensures VarTerm(o) == 0.0 <==> o.pd == 0.0 || o.pd == 0.5 || o.pd == 1.0
  {
    var p := o.pd;
    var a := p * (1.0 - p);
    var c := 1.0 - 2.0 * p;
    if VarTerm(o) == 0.0 {
      ProductZero(a, c * c);
      if a == 0.0 {
        ProductZero(p, 1.0 - p);
      } else {
        ProductZero(c, c);
      }
    }
  }

  /** With PDs in [0, 1], the variance of a group vanishes exactly when every PD
      is 0, 1/2 or 1; then the z-score divides by zero. */
  lemma VarianceZeroIff(g: seq<Obligor>)
    requires |g| > 0 && PdsInUnit(g)
    ensures StatsOf(g).variance == 0.0 <==>
              forall i :: 0 <= i < |g| ==> g[i].pd == 0.0 || g[i].pd == 0.5 || g[i].pd == 1.0
  {
    TermsNonNegative(g);
    SumNonNegative(g, VarTerm);
    forall i | 0 <= i < |g|
      ensures VarTerm(g[i]) == 0.0 <==> g[i].pd == 0.0 || g[i].pd == 0.5 || g[i].pd == 1.0
    {
      VarTermZero(g[i]);
    }
  }

  /** `np.sqrt` is passed in; on a positive argument it is positive. */
  ghost predicate IsSqrt(sqrt: real -> real)
  {
    forall x :: x > 0.0 ==> sqrt(x) > 0.0
  }

  /** `norm.sf` is passed in: a probability, one half at zero, non-increasing. */
  ghost predicate IsSurvival(sf: real -> real)
  {
    && sf(0.0) == 0.5
    && (forall x :: 0.0 <= sf(x) <= 1.0)
    && (forall x, y :: x <= y ==> sf(y) <= sf(x))
  }

  /** `(MSE - EMSE) / np.sqrt(Var)`: a negative variance gives NaN from the
      square root, a zero one a division by zero. */
  function ZScore(s: Stats, sqrt: real -> real): Float
  {
    if s.variance < 0.0 then NaN
    else if s.variance == 0.0 then Div(s.mse - s.emse, 0.0)
    else Div(s.mse - s.emse, sqrt(s.variance))
  }

  /** `norm.sf(abs(z))`. */
  function PValue(z: Float, sf: real -> real): Float
  {
    match Abs(z)
    case Fin(a) => Fin(sf(a))
    case PosInf => Fin(0.0)
    case _ => NaN
  }

  /** Finite z-scores exist exactly when the variance is positive, and their sign
      is the sign of MSE - EMSE. */
  lemma ZScoreSign(s: Stats, sqrt: real -> real)
    requires IsSqrt(sqrt)
    ensures ZScore(s, sqrt).Fin? <==> s.variance > 0.0
    ensures s.variance > 0.0 ==> (ZScore(s, sqrt).v > 0.0 <==> s.mse > s.emse)
    ensures s.variance > 0.0 ==> (ZScore(s, sqrt).v < 0.0 <==> s.mse < s.emse)
    ensures s.variance == 0.0 && s.mse != s.emse ==> ZScore(s, sqrt).PosInf? || ZScore(s, sqrt).NegInf?
  {
    if s.variance > 0.0 {
      var r := sqrt(s.variance);
      assert r > 0.0;
      var d := s.mse - s.emse;
      assert d / r > 0.0 <==> d > 0.0;
      assert d / r < 0.0 <==> d < 0.0;
    }
  }

  /** The p-value looks only at |z|: the test is blind to the sign of the
      miscalibration. */
  lemma PValueSymmetric(z: Float, sf: real -> real)
    ensures PValue(Neg(z), sf) == PValue(z, sf)
  {
  }

  /** Pass or Fail, as the source labels the outcome. */
  datatype Verdict = Pass | Fail

  /** Bucket rows pass when p < 0.05 (NaN compares false and fails). */
  function BucketVerdict(p: Float): (v: Verdict)
    ensures v == Pass <==> p.Fin? && p.v < 0.05
  {
    if p.Fin? && p.v < 0.05 then Pass else Fail
  }

  /** The overall row passes when p <= 0.05. */
  function OverallVerdict(p: Float): (v: Verdict)
    ensures v == Pass <==> p.Fin? && p.v <= 0.05
  {
    if p.Fin? && p.v <= 0.05 then Pass else Fail
  }

  /** The two thresholds disagree only at p = 0.05 exactly. */
  lemma VerdictsDisagreeOnlyAtLevel(p: Float)
    ensures BucketVerdict(p) != OverallVerdict(p) <==> p == Fin(0.05)
  {
  }

  /** A group whose MSE equals its expectation never passes: z is 0 (p = 1/2)
      or 0/0 (NaN). */
  lemma CalibratedGroupFails(s: Stats, sqrt: real -> real, sf: real -> real)
    requires IsSqrt(sqrt) && IsSurvival(sf)
    requires s.mse == s.emse
    ensures BucketVerdict(PValue(ZScore(s, sqrt), sf)) == Fail
    ensures OverallVerdict(PValue(ZScore(s, sqrt), sf)) == Fail
  {
    if s.variance > 0.0 {
      var r := sqrt(s.variance);
      assert r > 0.0;
      assert (s.mse - s.emse) / r == 0.0;
    }
  }

  /** A group of PDs in {0, 1/2, 1} that is miscalibrated has an infinite z and
      p = 0, so it passes. */
  lemma DegenerateVariancePasses(s: Stats, sqrt: real -> real, sf: real -> real)
    requires s.variance == 0.0 && s.mse != s.emse
    ensures PValue(ZScore(s, sqrt), sf) == Fin(0.0)
    ensures BucketVerdict(PValue(ZScore(s, sqrt), sf)) == Pass
  {
  }

  /** Every p-value is a probability or NaN. */
  lemma PValueInUnit(z: Float, sf: real -> real)
    requires IsSurvival(sf)
    ensures PValue(z, sf).Fin? ==> 0.0 <= PValue(z, sf).v <= 0.5
    ensures PValue(z, sf).NaN? <==> z.NaN?
  {
    match Abs(z)
    case Fin(a) => assert a >= 0.0; assert sf(a) <= sf(0.0);
    case PosInf =>
    case _ =>
  }

  /** A row of the result: a rating or the overall line. */
  datatype Group = Rating(r: real) | Overall

  datatype Row = Row(group: Group, z: Float, pValue: Float, verdict: Verdict)

  /** The row of one group: z is the Spiegelhalter statistic of the group's
      own MSE, expected MSE and variance, p its one-sided normal tail, and the
      group passes below the level (the overall row also at the level). */
  function GroupRow(group: Group, g: seq<Obligor>, sqrt: real -> real, sf: real -> real): (row: Row)
    requires |g| > 0
    ensures row.group == group
    ensures row.z == ZScore(StatsOf(g), sqrt)
    ensures row.pValue == PValue(row.z, sf)
    ensures row.verdict == Pass <==>
              row.pValue.Fin? && (if group.Overall? then row.pValue.v <= 0.05 else row.pValue.v < 0.05)
  {
    var z := ZScore(StatsOf(g), sqrt);
    var p := PValue(z, sf);
    Row(group, z, p, if group.Overall? then OverallVerdict(p) else BucketVerdict(p))
  }

  /** The rating rows in the iteration order `order`. */
  function RatingRows(rows: seq<Obligor>, order: seq<real>, sqrt: real -> real, sf: real -> real): (res: seq<Row>)
    requires AllOccur(rows, order)
    ensures |res| == |order|
    ensures forall k :: 0 <= k < |res| ==> res[k].group == Rating(order[k])
  {
    if |order| == 0 then []
    else
      OccursMember(rows, order[0]);
      [GroupRow(Rating(order[0]), Members(rows, order[0]), sqrt, sf)] + RatingRows(rows, order[1..], sqrt, sf)
  }

  /** The whole result: one row per rating, then the overall row. */
  function SpiegelhalterTable(rows: seq<Obligor>, order: seq<real>, sqrt: real -> real, sf: real -> real): (res: seq<Row>)
    requires |rows| > 0
    requires Enumerates(order, Ratings(rows))
    ensures |res| == |order| + 1
    ensures forall k :: 0 <= k < |order| ==> res[k].group == Rating(order[k])
    ensures res[|order|] == GroupRow(Overall, rows, sqrt, sf)
  {
    EnumeratedRatingsOccur(rows, order);
    RatingRows(rows, order, sqrt, sf) + [GroupRow(Overall, rows, sqrt, sf)]
  }

  lemma {:induction false} RatingRowsAt(rows: seq<Obligor>, order: seq<real>, sqrt: real -> real, sf: real -> real, k: nat)
    requires AllOccur(rows, order)
    requires k < |order|
    ensures |Members(rows, order[k])| > 0
    ensures RatingRows(rows, order, sqrt, sf)[k] == GroupRow(Rating(order[k]), Members(rows, order[k]), sqrt, sf)
    decreases k
  {
    OccursMember(rows, order[k]);
    if k > 0 {
      RatingRowsAt(rows, order[1..], sqrt, sf, k - 1);
    }
  }

  /** With a single rating, the rating row and the overall row compute the same
      statistic; they differ only in the threshold of the verdict. */
  lemma SingleRatingMatchesOverall(rows: seq<Obligor>, order: seq<real>, sqrt: real -> real, sf: real -> real)
    requires |rows| > 0 && Enumerates(order, Ratings(rows))
    requires forall i :: 0 <= i < |rows| ==> rows[i].rating == rows[0].rating
    ensures |order| == 1
    ensures SpiegelhalterTable(rows, order, sqrt, sf)[0].z == SpiegelhalterTable(rows, order, sqrt, sf)[1].z
    ensures SpiegelhalterTable(rows, order, sqrt, sf)[0].pValue == SpiegelhalterTable(rows, order, sqrt, sf)[1].pValue
  {
    var r := rows[0].rating;
    assert Ratings(rows) == {r} by {
      assert r in Ratings(rows);
      forall x | x in Ratings(rows) ensures x == r {
        var i :| 0 <= i < |rows| && rows[i].rating == x;
      }
    }
    EnumerationSize(order, Ratings(rows));
    assert order[0] in Ratings(rows);
    assert order == [r];
    EnumeratedRatingsOccur(rows, order);
    RatingRowsAt(rows, order, sqrt, sf, 0);
    SelectAll(rows, RatingOf, r);
  }

  /** `Speigelhalter_Normal_test(df, ratings_col, defaults_col, PDs_col)`, with
      `setOrder` standing for the iteration order of `set(ratings)` and `sqrt`,
      `sf` for `np.sqrt` and `norm.sf`. */
  function SpiegelhalterTest(t: Table, defaultsCol: Arg, pdsCol: Arg, ratingsCol: Arg,
                             setOrder: set<real> -> seq<real>, sqrt: real -> real, sf: real -> real): (r: Result<seq<Row>>)
    requires Rectangular(t) && IsSetOrder(setOrder)
    ensures r.Err? <==> ValidateObligors(t, defaultsCol, pdsCol, ratingsCol).Err?
    ensures r.Err? ==> r.failure == ValidateObligors(t, defaultsCol, pdsCol, ratingsCol).failure
    ensures r.Ok? ==>
              var rows := ValidateObligors(t, defaultsCol, pdsCol, ratingsCol).value;
              && |r.value| == |Ratings(rows)| + 1
              && r.value[|r.value| - 1] == GroupRow(Overall, rows, sqrt, sf)
              && forall x :: x in Ratings(rows) <==> exists k :: 0 <= k < |r.value| - 1 && r.value[k].group == Rating(x)
  {
    var rows :- ValidateObligors(t, defaultsCol, pdsCol, ratingsCol);
    var order := setOrder(Ratings(rows));
    assert Enumerates(order, Ratings(rows));
    TableNamesRatings(rows, order, sqrt, sf);
    Ok(SpiegelhalterTable(rows, order, sqrt, sf))
  }

  /** The table over an enumeration of the ratings names each rating in
      exactly one of its rows before the last. */
  lemma TableNamesRatings(rows: seq<Obligor>, order: seq<real>, sqrt: real -> real, sf: real -> real)
    requires |rows| > 0 && Enumerates(order, Ratings(rows))
    ensures var res := SpiegelhalterTable(rows, order, sqrt, sf);
            && |res| == |Ratings(rows)| + 1
            && forall x :: x in Ratings(rows) <==> exists k :: 0 <= k < |res| - 1 && res[k].group == Rating(x)
  {
    EnumerationSize(order, Ratings(rows));
    var res := SpiegelhalterTable(rows, order, sqrt, sf);
    forall x ensures x in Ratings(rows) <==> exists k :: 0 <= k < |res| - 1 && res[k].group == Rating(x) {
      if x in Ratings(rows) {
        var k :| 0 <= k < |order| && order[k] == x;
        assert res[k].group == Rating(x);
      }
      if exists k :: 0 <= k < |res| - 1 && res[k].group == Rating(x) {
        var k :| 0 <= k < |res| - 1 && res[k].group == Rating(x);
        assert order[k] == x && order[k] in order;
      }
    }
  }
}
