/** The exact binomial calibration test (risktests/Binomial_test.py): per rating
    bucket, the binomial CDF of the observed default count under the bucket's
    mean PD, and a two-sided verdict at the 5% level. */
module Binomial {
  import opened Seqs
  import opened Frame
  import opened Outcomes
  import opened Floats
  import opened Buckets

  /** P(X = k) for X the number of successes in n independent trials of
      probability p: the last trial either succeeds or fails. */
  function Pmf(n: nat, k: nat, p: real): real
    decreases n
  {
    if n == 0 then (if k == 0 then 1.0 else 0.0)
    else if k == 0 then (1.0 - p) * Pmf(n - 1, 0, p)
    else Mix(p, Pmf(n - 1, k - 1, p), Pmf(n - 1, k, p))
  }

  /** Weight p on `a` and 1 − p on `b`. */
  function Mix(p: real, a: real, b: real): real
  {
    p * a + (1.0 - p) * b
  }

  /** P(X <= m) = Pmf(n, 0, p) + ... + Pmf(n, m, p). */
  function CdfUpTo(n: nat, m: nat, p: real): real
  {
    if m == 0 then Pmf(n, 0, p) else CdfUpTo(n, m - 1, p) + Pmf(n, m, p)
  }

  /** Binomial coefficient by Pascal's rule. */
  function Choose(n: nat, k: nat): nat
  {
    if k == 0 then 1
    else if n == 0 then 0
    else Choose(n - 1, k - 1) + Choose(n - 1, k)
  }

  function Pow(x: real, k: nat): real
  {
    if k == 0 then 1.0 else x * Pow(x, k - 1)
  }

  /** The textbook formula C(n, k) p^k (1 - p)^(n - k). */
  function ClosedForm(n: nat, k: nat, p: real): real
  {
    if k > n then 0.0 else Choose(n, k) as real * Pow(p, k) * Pow(1.0 - p, n - k)
  }

  lemma {:induction false} ChooseDiagonal(n: nat)
    ensures Choose(n, n) == 1
    decreases n
  {
    if n > 0 {
      ChooseDiagonal(n - 1);
      ChooseAbove(n - 1, n);
    }
  }

  lemma {:induction false} ChooseAbove(n: nat, k: nat)
    requires k > n
    ensures Choose(n, k) == 0
    decreases n
  {
    if n > 0 {
      ChooseAbove(n - 1, k - 1);
      ChooseAbove(n - 1, k);
    }
  }

  /** The polynomial identity behind Pascal's rule: C(n, k) p^k q^(n-k) splits by
      the last trial into p·C(n-1, k-1) p^(k-1) q^(n-k) and q·C(n-1, k) p^k q^(n-k-1). */
  lemma PascalAlgebra(p: real, c: real, c1: real, c2: real, pk: real, pk1: real, qa: real, qb: real,
                      x: real, y: real, z: real)
    requires c == c1 + c2 && pk == p * pk1 && qa == (1.0 - p) * qb
    requires x == c * pk * qa && y == c1 * pk1 * qa && z == c2 * pk * qb
    ensures x == Mix(p, y, z)
  {
    var q := 1.0 - p;
    var t := pk1 * qb;
    assert y == c1 * q * t;
    assert z == c2 * p * t;
    assert x == (c1 + c2) * p * q * t;
  }

  lemma ClosedFormInterior(n: nat, k: nat, p: real)
    requires 1 <= k < n
    ensures ClosedForm(n, k, p) == Mix(p, ClosedForm(n - 1, k - 1, p), ClosedForm(n - 1, k, p))
  {
    var q := 1.0 - p;
    var c, c1, c2 := Choose(n, k) as real, Choose(n - 1, k - 1) as real, Choose(n - 1, k) as real;
    var pk, pk1 := Pow(p, k), Pow(p, k - 1);
    var qa, qb := Pow(q, n - k), Pow(q, n - k - 1);
    ChooseStep(n, k);
    PowStep(p, k);
    PowStep(q, n - k);
    ClosedFormIs(n, k, p, c, pk, qa);
    ClosedFormIs(n - 1, k - 1, p, c1, pk1, qa);
    ClosedFormIs(n - 1, k, p, c2, pk, qb);
    PascalAlgebra(p, c, c1, c2, pk, pk1, qa, qb, ClosedForm(n, k, p), ClosedForm(n - 1, k - 1, p), ClosedForm(n - 1, k, p));
  }

  lemma ChooseStep(n: nat, k: nat)
    requires n >= 1 && k >= 1
    ensures Choose(n, k) as real == Choose(n - 1, k - 1) as real + Choose(n - 1, k) as real
  {
  }

  lemma PowStep(x: real, k: nat)
    requires k >= 1
    ensures Pow(x, k) == x * Pow(x, k - 1)
  {
  }

  /** The closed form from its three factors. */
  lemma ClosedFormIs(n: nat, k: nat, p: real, c: real, x: real, y: real)
    requires k <= n && c == Choose(n, k) as real && x == Pow(p, k) && y == Pow(1.0 - p, n - k)
    ensures ClosedForm(n, k, p) == c * x * y
  {
  }

  lemma ClosedFormDiagonal(n: nat, p: real)
    requires n >= 1
    ensures ClosedForm(n, n, p) == p * ClosedForm(n - 1, n - 1, p) + (1.0 - p) * ClosedForm(n - 1, n, p)
  {
    ChooseDiagonal(n);
    ChooseDiagonal(n - 1);
    assert ClosedForm(n, n, p) == Pow(p, n);
    assert ClosedForm(n - 1, n - 1, p) == Pow(p, n - 1);
  }

  lemma ClosedFormNoSuccess(n: nat, p: real)
    requires n >= 1
    ensures ClosedForm(n, 0, p) == (1.0 - p) * ClosedForm(n - 1, 0, p)
  {
    assert Pow(1.0 - p, n) == (1.0 - p) * Pow(1.0 - p, n - 1);
  }

  lemma ClosedFormStep(n: nat, k: nat, p: real)
    requires n >= 1 && k >= 1
    requires Pmf(n - 1, k - 1, p) == ClosedForm(n - 1, k - 1, p)
    requires Pmf(n - 1, k, p) == ClosedForm(n - 1, k, p)
    ensures Pmf(n, k, p) == ClosedForm(n, k, p)
  {
    if k < n {
      ClosedFormInterior(n, k, p);
    } else if k == n {
      ClosedFormDiagonal(n, p);
    }
  }

  /** The recursive distribution is the textbook binomial distribution. */
  lemma {:induction false} PmfClosedForm(n: nat, k: nat, p: real)
    ensures Pmf(n, k, p) == ClosedForm(n, k, p)
    decreases n
  {
    if n == 0 {
    } else if k == 0 {
      PmfClosedForm(n - 1, 0, p);
      ClosedFormNoSuccess(n, p);
    } else {
      PmfClosedForm(n - 1, k - 1, p);
      PmfClosedForm(n - 1, k, p);
      ClosedFormStep(n, k, p);
    }
  }

  /** No more successes than trials. */
  lemma {:induction false} PmfAbove(n: nat, k: nat, p: real)
    requires k > n
    ensures Pmf(n, k, p) == 0.0
    decreases n
  {
    if n > 0 {
      PmfAbove(n - 1, k - 1, p);
      PmfAbove(n - 1, k, p);
    }
  }

  /** The regrouping behind one more trial: mixing two prefix sums with weights
      p and 1 − p, then adding the mixed next terms, mixes the longer sums. */
  lemma Combine(p: real, a: real, b: real, x: real, y: real, c: real, s: real, b': real)
    requires c == Mix(p, a, b) && s == Mix(p, x, y)
    requires b == a + x && b' == b + y
    ensures c + s == Mix(p, b, b')
  {
  }

  lemma CdfUnfold(n: nat, m: nat, m1: nat, p: real)
    requires m1 == m + 1
    ensures CdfUpTo(n, m1, p) == CdfUpTo(n, m, p) + Pmf(n, m1, p)
  {
  }

  lemma PmfUnfold(n: nat, k: nat, k1: nat, p: real)
    requires k1 == k + 1
    ensures Pmf(n + 1, k1, p) == Mix(p, Pmf(n, k, p), Pmf(n, k1, p))
  {
  }

  /** One more trial mixes the CDF of n trials with itself shifted by one. */
  lemma CdfStep(n: nat, m: nat, p: real)
    ensures CdfUpTo(n + 1, m + 1, p) == p * CdfUpTo(n, m, p) + (1.0 - p) * CdfUpTo(n, m + 1, p)
  {
    CdfStepAt(n, m, m + 1, p);
  }

  lemma {:induction false} CdfStepAt(n: nat, m: nat, m1: nat, p: real)
    requires m1 == m + 1
    ensures CdfUpTo(n + 1, m1, p) == Mix(p, CdfUpTo(n, m, p), CdfUpTo(n, m1, p))
    decreases m
  {
    CdfUnfold(n + 1, m, m1, p);
    PmfUnfold(n, m, m1, p);
    CdfUnfold(n, m, m1, p);
    if m == 0 {
      var b := Pmf(n, 0, p);
      assert CdfUpTo(n + 1, 0, p) == Pmf(n + 1, 0, p) == (1.0 - p) * b;
      assert CdfUpTo(n, 0, p) == b;
      Combine(p, 0.0, b, b, Pmf(n, m1, p), CdfUpTo(n + 1, 0, p), Pmf(n + 1, m1, p), CdfUpTo(n, m1, p));
    } else {
      var m' := m - 1;
      CdfStepAt(n, m', m, p);
      CdfUnfold(n, m', m, p);
      Combine(p, CdfUpTo(n, m', p), CdfUpTo(n, m, p), Pmf(n, m, p), Pmf(n, m1, p),
              CdfUpTo(n + 1, m, p), Pmf(n + 1, m1, p), CdfUpTo(n, m1, p));
    }
  }

  lemma Affine(p: real, a: real, b: real)
    requires a == 1.0 && b == 1.0
    ensures p * a + (1.0 - p) * b == 1.0
  {
  }

  /** The binomial theorem for (p + (1 - p))^n: the probabilities sum to one. */
  lemma {:induction false} CdfTotal(n: nat, p: real)
    ensures CdfUpTo(n, n, p) == 1.0
    decreases n
  {
    if n > 0 {
      CdfTotal(n - 1, p);
      CdfStep(n - 1, n - 1, p);
      assert CdfUpTo(n - 1, n, p) == 1.0 by {
        PmfAbove(n - 1, n, p);
        assert Pmf(n - 1, n, p) == 0.0;
      }
      Affine(p, CdfUpTo(n - 1, n - 1, p), CdfUpTo(n - 1, n, p));
    }
  }

  /** Past n every further term is zero. */
  lemma {:induction false} CdfBeyond(n: nat, m: nat, p: real)
    requires m >= n
    ensures CdfUpTo(n, m, p) == 1.0
    decreases m
  {
    if m == n {
      CdfTotal(n, p);
    } else {
      CdfBeyond(n, m - 1, p);
      PmfAbove(n, m, p);
      assert Pmf(n, m, p) == 0.0;
    }
  }

  lemma MixNonNegative(p: real, x: real, y: real)
    requires 0.0 <= p <= 1.0 && x >= 0.0 && y >= 0.0
    ensures Mix(p, x, y) >= 0.0
  {
    var q := 1.0 - p;
    assert p * x >= 0.0;
    assert q * y >= 0.0;
  }

  lemma ScaleNonNegative(q: real, y: real)
    requires q >= 0.0 && y >= 0.0
    ensures q * y >= 0.0
  {
  }

  lemma {:induction false} PmfNonNegative(n: nat, k: nat, p: real)
    requires 0.0 <= p <= 1.0
    ensures Pmf(n, k, p) >= 0.0
    decreases n
  {
    if n > 0 {
      PmfNonNegative(n - 1, 0, p);
      if k == 0 {
        ScaleNonNegative(1.0 - p, Pmf(n - 1, 0, p));
      } else {
        PmfNonNegative(n - 1, k - 1, p);
        PmfNonNegative(n - 1, k, p);
        MixNonNegative(p, Pmf(n - 1, k - 1, p), Pmf(n - 1, k, p));
      }
    }
  }

  lemma {:induction false} CdfNonNegative(n: nat, m: nat, p: real)
    requires 0.0 <= p <= 1.0
    ensures CdfUpTo(n, m, p) >= 0.0
    decreases m
  {
    PmfNonNegative(n, m, p);
    assert Pmf(n, m, p) >= 0.0;
    if m > 0 {
      CdfNonNegative(n, m - 1, p);
    }
  }

  lemma {:induction false} CdfMonotone(n: nat, m: nat, m': nat, p: real)
    requires 0.0 <= p <= 1.0 && m <= m'
    ensures CdfUpTo(n, m, p) <= CdfUpTo(n, m', p)
    decreases m' - m
  {
    if m < m' {
      CdfMonotone(n, m, m' - 1, p);
      PmfNonNegative(n, m', p);
      assert Pmf(n, m', p) >= 0.0;
    }
  }

  /** For a PD in [0, 1] the CDF is a probability. */
  lemma CdfInUnit(n: nat, m: nat, p: real)
    requires 0.0 <= p <= 1.0
    ensures 0.0 <= CdfUpTo(n, m, p) <= 1.0
  {
    CdfNonNegative(n, m, p);
    if m <= n {
      CdfMonotone(n, m, n, p);
      CdfTotal(n, p);
    } else {
      CdfBeyond(n, m, p);
    }
  }

  /** `binom.cdf(k, n, p)`: the count is floored, a negative count gives 0 and a
      probability outside [0, 1] gives NaN. */
  function BinomCdf(k: real, n: nat, p: real): (f: Float)
    ensures f.Fin? <==> 0.0 <= p <= 1.0
    ensures f.Fin? ==> 0.0 <= f.v <= 1.0
    ensures f.Fin? && k >= n as real ==> f.v == 1.0
    ensures f.Fin? && k < 0.0 ==> f.v == 0.0
  {
    if p < 0.0 || p > 1.0 then NaN
    else if k < 0.0 then Fin(0.0)
    else
      var m := k.Floor as nat;
      CdfInUnit(n, m, p);
      if k >= n as real then CdfBeyond(n, m, p); Fin(CdfUpTo(n, m, p))
      else Fin(CdfUpTo(n, m, p))
  }

  /** The significance level, fixed in the source. */
  const Alpha: real := 0.05

  datatype Conclusion = Reject | FailToReject

  /** `(F <= alpha) | (1 - F <= alpha)`; a NaN F compares false both ways. */
  function Conclude(f: Float): (c: Conclusion)
    ensures c == Reject <==> f.Fin? && (f.v <= Alpha || 1.0 - f.v <= Alpha)
  {
    if f.Fin? && (f.v <= Alpha || 1.0 - f.v <= Alpha) then Reject else FailToReject
  }

  /** One output row: Rating, Number of Obs, Number of Defaults, Average PD,
      Binomial Test and Conclusion. */
  datatype Row = Row(rating: real, obs: nat, defaults: real, averagePd: real,
                     score: Float, conclusion: Conclusion)

  /** The row of one bucket: its score is `binom.cdf(n_1g, n_g, p_g)` of the
      bucket's own counts and mean PD, and the conclusion is the two-sided
      verdict on that score. */
  function TestBucket(b: Bucket): (r: Row)
    ensures r.rating == b.rating && r.obs == b.size && r.defaults == b.defaults
    ensures r.averagePd == b.meanPd
    ensures r.score == BinomCdf(b.defaults, b.size, b.meanPd)
    ensures r.conclusion == Reject <==> r.score.Fin? && (r.score.v <= Alpha || 1.0 - r.score.v <= Alpha)
  {
    var f := BinomCdf(b.defaults, b.size, b.meanPd);
    Row(b.rating, b.size, b.defaults, b.meanPd, f, Conclude(f))
  }

  /** A bucket in which every obligor defaulted has F = 1 and is rejected, for
      any mean PD in [0, 1]. */
  lemma AllDefaultedRejected(b: Bucket)
    requires b.defaults >= b.size as real && 0.0 <= b.meanPd <= 1.0
    ensures TestBucket(b).score == Fin(1.0)
    ensures TestBucket(b).conclusion == Reject
  {
  }

  /** The verdict is two-sided: it rejects exactly when F is within 5% of either
      end of [0, 1], and never for a NaN score. */
  lemma ConclusionTwoSided(b: Bucket)
    requires 0.0 <= b.meanPd <= 1.0
    ensures TestBucket(b).score.Fin?
    ensures TestBucket(b).conclusion == Reject <==>
              TestBucket(b).score.v <= 0.05 || TestBucket(b).score.v >= 0.95
  {
  }

  /** The per-bucket table, one row per rating in the iteration order `order`. */
  function BinomialTable(rows: seq<Obligor>, order: seq<real>): (res: seq<Row>)
    requires AllOccur(rows, order)
    ensures |res| == |order|
    ensures forall k :: 0 <= k < |res| ==> res[k].rating == order[k] && res[k].obs >= 1
    ensures PdsInUnit(rows) ==> forall k :: 0 <= k < |res| ==>
              res[k].score.Fin? && 0.0 <= res[k].score.v <= 1.0
  {
    if |order| == 0 then []
    else
      var b := Summarise(rows, order[0]);
      if PdsInUnit(rows) then MeanPdInUnit(rows, order[0]); [TestBucket(b)] + BinomialTable(rows, order[1..])
      else [TestBucket(b)] + BinomialTable(rows, order[1..])
  }

  /** Row `k` of the table is the test of the bucket of the `k`-th rating. */
  lemma {:induction false} BinomialRowAt(rows: seq<Obligor>, order: seq<real>, k: nat)
    requires AllOccur(rows, order)
    requires k < |order|
    ensures Occurs(rows, order[k])
    ensures BinomialTable(rows, order)[k] == TestBucket(Summarise(rows, order[k]))
    decreases k
  {
    assert order[k] in order;
    if k > 0 {
      BinomialRowAt(rows, order[1..], k - 1);
    }
  }

  /** Every row of the table is the test of its own rating's bucket. */
  lemma BinomialRows(rows: seq<Obligor>, order: seq<real>)
    requires AllOccur(rows, order)
    ensures forall k :: 0 <= k < |order| ==>
              Occurs(rows, order[k]) && BinomialTable(rows, order)[k] == TestBucket(Summarise(rows, order[k]))
  {
    forall k | 0 <= k < |order|
      ensures Occurs(rows, order[k]) && BinomialTable(rows, order)[k] == TestBucket(Summarise(rows, order[k]))
    {
      BinomialRowAt(rows, order, k);
    }
  }

  function ObsOf(r: Row): real { r.obs as real }

  lemma {:induction false} TableObs(rows: seq<Obligor>, order: seq<real>)
    requires AllOccur(rows, order)
    ensures Sum(BinomialTable(rows, order), ObsOf) == Sum(Aggregate(rows, order), SizeOf)
    decreases |order|
  {
    if |order| > 0 {
      TableObs(rows, order[1..]);
      assert BinomialTable(rows, order)[1..] == BinomialTable(rows, order[1..]);
      assert Aggregate(rows, order)[1..] == Aggregate(rows, order[1..]);
    }
  }

  /** The rows' observation counts add up to the size of the table. */
  lemma ObsPartitionTable(rows: seq<Obligor>, order: seq<real>)
    requires Enumerates(order, Ratings(rows))
    ensures AllOccur(rows, order)
    ensures Sum(BinomialTable(rows, order), ObsOf) == |rows| as real
  {
    BucketsPartition(rows, order);
    TableObs(rows, order);
  }

  /** `binomial_test(df, defaults_col, PDs_col, ratings_col)`, with `setOrder`
      standing for Python's iteration order of `set(ratings)`. */
  function BinomialTest(t: Table, defaultsCol: Arg, pdsCol: Arg, ratingsCol: Arg,
                        setOrder: set<real> -> seq<real>): (r: Result<seq<Row>>)
    requires Rectangular(t) && IsSetOrder(setOrder)
    ensures r.Err? <==> ValidateObligors(t, defaultsCol, pdsCol, ratingsCol).Err?
    ensures r.Err? ==> r.failure == ValidateObligors(t, defaultsCol, pdsCol, ratingsCol).failure
    ensures r.Ok? ==>
              var rows := ValidateObligors(t, defaultsCol, pdsCol, ratingsCol).value;
              && Enumerates(seq(|r.value|, k requires 0 <= k < |r.value| => r.value[k].rating), Ratings(rows))
              && Sum(r.value, ObsOf) == |t.rows| as real
              && forall k :: 0 <= k < |r.value| ==>
                   Occurs(rows, r.value[k].rating) && r.value[k] == TestBucket(Summarise(rows, r.value[k].rating))
  {
    var rows :- ValidateObligors(t, defaultsCol, pdsCol, ratingsCol);
    var order := setOrder(Ratings(rows));
    ObsPartitionTable(rows, order);
    var res := BinomialTable(rows, order);
    assert seq(|res|, k requires 0 <= k < |res| => res[k].rating) == order;
    BinomialRows(rows, order);
    Ok(res)
  }
}
