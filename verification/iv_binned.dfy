/** Information value from binned PDs (risktests/Information_value.py): within
    a group of obligors the PDs of the non-defaulted (X) and the defaulted (Y)
    are cut into the bins `np.arange(L, H, (H - L)/10)` spans, the bin counts
    of each side are ranked by `value_counts`, smoothed, and the divergence
    terms of equal ranks are accumulated. Every rating grade is a group, and
    the whole table is one more, reported as "Overall". */
module InformationBins {
  import opened Seqs
  import opened Frame
  import opened Outcomes
  import opened Floats
  import opened Buckets
  import opened InformationShares

  /** `np.arange(L, H, 1/10*(H-L))` stops before H: ten edges in exact
      arithmetic, hence nine bins. */
  const Bins: nat := 9

  /** The smoothing constant the source writes into a count array. */
  const Epsilon: real := 0.0001

  /** Edge j of `np.arange(L, H, (H - L)/10)`: L + j(H - L)/10. */
  function Edge(lo: real, hi: real, j: int): real
  {
    lo + j as real * ((hi - lo) / 10.0)
  }

  /** `pd.cut`'s bin j is right-closed: (edge j, edge j+1]. */
  predicate InBin(lo: real, hi: real, j: int, x: real)
  {
    Edge(lo, hi, j) < x <= Edge(lo, hi, j + 1)
  }

  /** Edges strictly increase when the range is not degenerate. */
  lemma EdgeMonotone(lo: real, hi: real, j: int, k: int)
    requires lo < hi && j < k
    ensures Edge(lo, hi, j) < Edge(lo, hi, k)
  {
    var d := (hi - lo) / 10.0;
    assert d > 0.0;
    var gap := (k - j) as real;
    assert gap >= 1.0;
    MulPositive(gap, d);
    assert Edge(lo, hi, k) - Edge(lo, hi, j) == gap * d;
  }

  /** The value lies in some bin exactly when L < x <= edge 9: the lowest PD of
      the group and PDs above the last edge are counted nowhere. */
  predicate Binned(lo: real, hi: real, x: real)
  {
    lo < x <= Edge(lo, hi, Bins)
  }

  /** A value lies in at most one bin, and in one exactly when it is binned. */
  lemma {:induction false} BinOf(lo: real, hi: real, x: real) returns (m: int)
    requires lo < hi
    ensures Binned(lo, hi, x) ==> 0 <= m < Bins && InBin(lo, hi, m, x)
    ensures forall j :: 0 <= j < Bins && InBin(lo, hi, j, x) ==> Binned(lo, hi, x) && j == m
  {
    m := Locate(lo, hi, x, 0);
    forall j | 0 <= j < Bins && InBin(lo, hi, j, x) ensures Binned(lo, hi, x) && j == m {
      EdgeUpTo(lo, hi, 0, j);
      EdgeUpTo(lo, hi, j + 1, Bins);
      if m != j && Binned(lo, hi, x) {
        if m < j {
          EdgeUpTo(lo, hi, m + 1, j);
        } else {
          EdgeUpTo(lo, hi, j + 1, m);
        }
      }
    }
  }

  lemma EdgeUpTo(lo: real, hi: real, j: int, k: int)
    requires lo < hi && j <= k
    ensures Edge(lo, hi, j) <= Edge(lo, hi, k)
  {
    if j < k {
      EdgeMonotone(lo, hi, j, k);
    }
  }

  /** The first bin from `j` on whose upper edge is at least `x`. */
  function Locate(lo: real, hi: real, x: real, j: nat): (m: int)
    requires lo < hi && j <= Bins
    ensures j <= m <= Bins
    ensures m < Bins ==> x <= Edge(lo, hi, m + 1)
    ensures forall k :: j < k <= m ==> x > Edge(lo, hi, k)
    ensures Binned(lo, hi, x) && (j == 0 || x > Edge(lo, hi, j)) ==> m < Bins && InBin(lo, hi, m, x)
    decreases Bins - j
  {
    if j == Bins then j
    else if x <= Edge(lo, hi, j + 1) then j
    else Locate(lo, hi, x, j + 1)
  }

  function InBinAt(lo: real, hi: real, j: int): real -> bool
  {
    x => InBin(lo, hi, j, x)
  }

  function BinnedIn(lo: real, hi: real): real -> bool
  {
    x => Binned(lo, hi, x)
  }

  /** `pd.cut(xs, bins)` followed by a count per bin, bin by bin. */
  function BinCount(xs: seq<real>, lo: real, hi: real): int -> real
  {
    j => Count(xs, InBinAt(lo, hi, j)) as real
  }

  /** The bins partition the binned values: the nine counts add up to the
      number of values in (L, edge 9]. */
  lemma {:induction false} BinsPartition(xs: seq<real>, lo: real, hi: real)
    requires lo < hi
    ensures RangeSum(0, Bins, BinCount(xs, lo, hi)) == Count(xs, BinnedIn(lo, hi)) as real
    decreases |xs|
  {
    if |xs| == 0 {
      RangeSumZero(0, Bins, BinCount(xs, lo, hi));
    } else {
      var x, t := xs[0], xs[1..];
      var one := if Binned(lo, hi, x) then 1 else 0;
      assert Count(xs, BinnedIn(lo, hi)) == one + Count(t, BinnedIn(lo, hi));
      BinsPartition(t, lo, hi);
      OneHit(lo, hi, x);
      BinCountsStep(xs, lo, hi);
    }
  }

  /** 1 in the bins holding `x`, 0 elsewhere. */
  function Hits(lo: real, hi: real, x: real): int -> real
  {
    j => if InBin(lo, hi, j, x) then 1.0 else 0.0
  }

  /** The first value adds its hits to the bin counts of the rest. */
  lemma BinCountsStep(xs: seq<real>, lo: real, hi: real)
    requires |xs| > 0
    ensures RangeSum(0, Bins, BinCount(xs, lo, hi))
         == RangeSum(0, Bins, Hits(lo, hi, xs[0])) + RangeSum(0, Bins, BinCount(xs[1..], lo, hi))
  {
    forall j | 0 <= j < Bins ensures BinCount(xs, lo, hi)(j) == Hits(lo, hi, xs[0])(j) + BinCount(xs[1..], lo, hi)(j) {
      BinCountStep(xs, lo, hi, j);
    }
    RangeSumAdd(0, Bins, Hits(lo, hi, xs[0]), BinCount(xs[1..], lo, hi), BinCount(xs, lo, hi));
  }

  /** The first value adds one to the count of its bin only. */
  lemma BinCountStep(xs: seq<real>, lo: real, hi: real, j: int)
    requires |xs| > 0
    ensures BinCount(xs, lo, hi)(j) == Hits(lo, hi, xs[0])(j) + BinCount(xs[1..], lo, hi)(j)
  {
    assert InBinAt(lo, hi, j)(xs[0]) == InBin(lo, hi, j, xs[0]);
  }

  lemma OneHit(lo: real, hi: real, x: real)
    requires lo < hi
    ensures RangeSum(0, Bins, Hits(lo, hi, x)) == if Binned(lo, hi, x) then 1.0 else 0.0
  {
    var m := BinOf(lo, hi, x);
    if Binned(lo, hi, x) {
      RangeSumSingle(0, Bins, Hits(lo, hi, x), m);
    } else {
      RangeSumZero(0, Bins, Hits(lo, hi, x));
    }
  }

  /** The nine bin counts of `xs`, bin by bin. */
  function BinCounts(xs: seq<real>, lo: real, hi: real): (cs: seq<real>)
    ensures |cs| == Bins
  {
    seq(Bins, j requires 0 <= j < Bins => BinCount(xs, lo, hi)(j))
  }

  /** A number of rows. */
  predicate IsCount(c: real)
  {
    c >= 0.0 && c.Floor as real == c
  }

  /** `pd.cut(xs, bins).value_counts().values`: the nine counts from the
      largest down, so that the j-th entries of the two sides need not belong
      to the same bin. */
  function Ranks(xs: seq<real>, lo: real, hi: real): (r: seq<real>)
    ensures |r| == Bins
    ensures multiset(r) == multiset(BinCounts(xs, lo, hi))
    ensures SortedDesc(r)
    ensures forall j :: 0 <= j < Bins ==> IsCount(r[j])
  {
    var cs := BinCounts(xs, lo, hi);
    var r := SortDesc(cs);
    BinCountsAreCounts(xs, lo, hi);
    SameCounts(cs, r);
    r
  }

  lemma BinCountsAreCounts(xs: seq<real>, lo: real, hi: real)
    ensures forall k :: 0 <= k < Bins ==> IsCount(BinCounts(xs, lo, hi)[k])
  {
    forall k | 0 <= k < Bins ensures IsCount(BinCounts(xs, lo, hi)[k]) {
      assert BinCounts(xs, lo, hi)[k] == BinCount(xs, lo, hi)(k);
      assert BinCount(xs, lo, hi)(k) == Count(xs, InBinAt(lo, hi, k)) as real;
    }
  }

  lemma SameCounts(cs: seq<real>, r: seq<real>)
    requires multiset(r) == multiset(cs)
    requires forall k :: 0 <= k < |cs| ==> IsCount(cs[k])
    ensures forall j :: 0 <= j < |r| ==> IsCount(r[j])
  {
    forall j | 0 <= j < |r| ensures IsCount(r[j]) {
      assert r[j] in multiset(cs);
      var k :| 0 <= k < |cs| && cs[k] == r[j];
    }
  }

  /** Writing a float into an int64 array truncates it toward zero. */
  function StoreInt(v: real): (r: real)
    ensures 0.0 <= v < 1.0 ==> r == 0.0
  {
    if v >= 0.0 then v.Floor as real else -((-v).Floor as real)
  }

  /** `if n0[j] == 0: n0[j] = 0.0001` on the int64 counts: the stored value
      truncates back to 0, so the smoothing never changes a count. */
  function SmoothGood(c: real): (r: real)
    ensures r == c
  {
    if c == 0.0 then StoreInt(Epsilon) else c
  }

  /** `if n1[j] == 1: n1[j] = 0.0001` on the int64 counts: a bin rank holding
      a single defaulter is counted as holding none. */
  function SmoothBad(c: real): (r: real)
    ensures c == 1.0 ==> r == 0.0
    ensures c != 1.0 ==> r == c
  {
    if c == 1.0 then StoreInt(Epsilon) else c
  }

  /** `((n1[j]/n) - (n0[j]/m))*np.log((n1[j]*m)/(n0[j]*n))` with `n` the
      number of non-defaulters and `m` the number of defaulters. A zero count
      on one side gives an infinite logarithm and so +inf; zero on both sides
      gives 0/0, NaN. */
  function Term(ln: real -> real, bad: real, good: real, n: real, m: real): (r: Float)
    requires bad >= 0.0 && good >= 0.0 && n > 0.0 && m > 0.0
    ensures r == NaN <==> bad == 0.0 && good == 0.0
    ensures r == PosInf <==> (bad == 0.0) != (good == 0.0)
    ensures r.Fin? <==> bad > 0.0 && good > 0.0
  {
    TermFacts(bad, good, n, m);
    Mul(Fin(bad / n - good / m), Log(ln, Div(bad * m, good * n)))
  }

  lemma TermFacts(bad: real, good: real, n: real, m: real)
    requires bad >= 0.0 && good >= 0.0 && n > 0.0 && m > 0.0
    ensures bad * m > 0.0 <==> bad > 0.0
    ensures good * n > 0.0 <==> good > 0.0
    ensures bad * m >= 0.0 && good * n >= 0.0
    ensures bad > 0.0 && good == 0.0 ==> bad / n - good / m > 0.0
    ensures bad == 0.0 && good > 0.0 ==> bad / n - good / m < 0.0
  {
    if bad > 0.0 {
      MulPositive(bad, m);
      assert bad / n > 0.0;
    }
    if good > 0.0 {
      MulPositive(good, n);
      assert good / m > 0.0;
    }
  }

  /** With a logarithm, a finite term is never negative, and it is zero exactly
      when the two sides' rank-j counts are in proportion to their sizes. */
  lemma TermSign(ln: real -> real, bad: real, good: real, n: real, m: real)
    requires IsLog(ln) && bad > 0.0 && good > 0.0 && n > 0.0 && m > 0.0
    ensures Term(ln, bad, good, n, m).v >= 0.0
    ensures Term(ln, bad, good, n, m).v == 0.0 <==> bad * m == good * n
  {
    var a, b := bad / n, good / m;
    TermFacts(bad, good, n, m);
    assert a > 0.0 && b > 0.0;
    RatioOfShares(bad, good, n, m);
    LogTerm(ln, a, b);
  }

  lemma RatioOfShares(bad: real, good: real, n: real, m: real)
    requires bad > 0.0 && good > 0.0 && n > 0.0 && m > 0.0
    ensures good * n > 0.0
    ensures (bad / n) / (good / m) == (bad * m) / (good * n)
    ensures bad / n == good / m <==> bad * m == good * n
  {
    MulPositive(good, n);
    var a, b := bad / n, good / m;
    assert a * n == bad;
    assert b * m == good;
    assert bad * m == a * (n * m);
    assert good * n == b * (n * m);
    MulPositive(n, m);
    if bad * m == good * n {
      assert (a - b) * (n * m) == 0.0;
    }
  }

  /** The terms of ranks 0 to 8, in loop order. */
  function Terms(ln: real -> real, n0: seq<real>, n1: seq<real>, n: real, m: real): (ts: seq<Float>)
    requires |n0| == Bins && |n1| == Bins && n > 0.0 && m > 0.0
    requires forall j :: 0 <= j < Bins ==> IsCount(n0[j]) && IsCount(n1[j])
    ensures |ts| == Bins
    ensures NegInf !in ts
  {
    seq(Bins, j requires 0 <= j < Bins =>
      assert IsCount(n0[j]) && IsCount(n1[j]);
      Term(ln, SmoothBad(n1[j]), SmoothGood(n0[j]), n, m))
  }

  /** L and H: `min(min(X), min(Y))` and `max(max(X), max(Y))`. */
  function Bounds(xs: seq<real>, ys: seq<real>): (b: (real, real))
    requires |xs| > 0 && |ys| > 0
    ensures forall x :: x in xs || x in ys ==> b.0 <= x <= b.1
    ensures b.0 in xs || b.0 in ys
    ensures b.1 in xs || b.1 in ys
  {
    var lo := if Min(ys) < Min(xs) then Min(ys) else Min(xs);
    var hi := if Max(ys) > Max(xs) then Max(ys) else Max(xs);
    (lo, hi)
  }

  /** The information value of one group from the PDs of its non-defaulters
      `xs` and its defaulters `ys`: `min` of an empty side raises, and a
      degenerate range makes the step of `np.arange` zero. */
  function BinnedIV(ln: real -> real, xs: seq<real>, ys: seq<real>): (r: Result<Float>)
    ensures r == Err(EmptyReduction) <==> |xs| == 0 || |ys| == 0
    ensures r == Err(ZeroDivision) <==> |xs| > 0 && |ys| > 0 && Bounds(xs, ys).0 == Bounds(xs, ys).1
    ensures r.Err? ==> r == Err(EmptyReduction) || r == Err(ZeroDivision)
    ensures r.Ok? ==> r.value != NegInf
  {
    if |xs| == 0 || |ys| == 0 then Err(EmptyReduction)
    else
      var (lo, hi) := Bounds(xs, ys);
      if lo == hi then Err(ZeroDivision)
      else
        var ts := Terms(ln, Ranks(xs, lo, hi), Ranks(ys, lo, hi), |xs| as real, |ys| as real);
        AccumulateSpecial(Fin(0.0), ts);
        Ok(SumFloats(ts))
  }

  /** A successful value is the accumulation of the nine terms. */
  lemma BinnedUnfold(ln: real -> real, xs: seq<real>, ys: seq<real>)
    requires BinnedIV(ln, xs, ys).Ok?
    ensures |xs| > 0 && |ys| > 0 && Bounds(xs, ys).0 < Bounds(xs, ys).1
    ensures var lo, hi := Bounds(xs, ys).0, Bounds(xs, ys).1;
            BinnedIV(ln, xs, ys).value
              == SumFloats(Terms(ln, Ranks(xs, lo, hi), Ranks(ys, lo, hi), |xs| as real, |ys| as real))
  {
  }

  /** Some bin holds no value of `xs`. */
  predicate EmptyBin(xs: seq<real>, lo: real, hi: real)
  {
    exists j :: 0 <= j < Bins && BinCounts(xs, lo, hi)[j] == 0.0
  }

  /** Some bin holds at most one value of `ys`. */
  predicate SparseBin(ys: seq<real>, lo: real, hi: real)
  {
    exists j :: 0 <= j < Bins && BinCounts(ys, lo, hi)[j] <= 1.0
  }

  /** The value is NaN exactly when some bin holds no non-defaulter and some
      (possibly other) bin holds at most one defaulter: ranked last, the two
      meet as 0/0 once the single defaulter is smoothed away. */
  lemma BinnedNaN(ln: real -> real, xs: seq<real>, ys: seq<real>)
    requires BinnedIV(ln, xs, ys).Ok?
    ensures |xs| > 0 && |ys| > 0
    ensures var (lo, hi) := Bounds(xs, ys);
            BinnedIV(ln, xs, ys).value == NaN <==> EmptyBin(xs, lo, hi) && SparseBin(ys, lo, hi)
  {
    var lo, hi := Bounds(xs, ys).0, Bounds(xs, ys).1;
    var n0, n1 := Ranks(xs, lo, hi), Ranks(ys, lo, hi);
    var ts := Terms(ln, n0, n1, |xs| as real, |ys| as real);
    BinnedUnfold(ln, xs, ys);
    AccumulateSpecial(Fin(0.0), ts);
    BinCountsAreCounts(xs, lo, hi);
    BinCountsAreCounts(ys, lo, hi);
    RankedNaN(ln, n0, n1, BinCounts(xs, lo, hi), BinCounts(ys, lo, hi), |xs| as real, |ys| as real);
  }

  lemma RankedNaN(ln: real -> real, n0: seq<real>, n1: seq<real>, c0: seq<real>, c1: seq<real>, n: real, m: real)
    requires |c0| == Bins && |c1| == Bins && n > 0.0 && m > 0.0
    requires forall k :: 0 <= k < Bins ==> IsCount(c0[k]) && IsCount(c1[k])
    requires |n0| == Bins && |n1| == Bins && SortedDesc(n0) && SortedDesc(n1)
    requires multiset(n0) == multiset(c0) && multiset(n1) == multiset(c1)
    ensures forall j :: 0 <= j < Bins ==> IsCount(n0[j]) && IsCount(n1[j])
    ensures NaN in Terms(ln, n0, n1, n, m)
            <==> (exists k :: 0 <= k < Bins && c0[k] == 0.0) && (exists k :: 0 <= k < Bins && c1[k] <= 1.0)
  {
    SameCounts(c0, n0);
    SameCounts(c1, n1);
    NaNTerms(ln, n0, n1, n, m);
    RankTail(n0, n1);
    LastIsLeast(n0, c0, 0.0);
    LastIsLeast(n1, c1, 1.0);
    assert (exists k :: 0 <= k < Bins && c0[k] == 0.0) <==> exists k :: 0 <= k < Bins && c0[k] <= 0.0;
  }

  lemma NaNTerms(ln: real -> real, n0: seq<real>, n1: seq<real>, n: real, m: real)
    requires |n0| == Bins && |n1| == Bins && n > 0.0 && m > 0.0
    requires forall j :: 0 <= j < Bins ==> IsCount(n0[j]) && IsCount(n1[j])
    ensures NaN in Terms(ln, n0, n1, n, m) <==> exists j :: 0 <= j < Bins && n0[j] <= 0.0 && n1[j] <= 1.0
  {
    var ts := Terms(ln, n0, n1, n, m);
    forall j | 0 <= j < Bins ensures ts[j] == NaN <==> n0[j] <= 0.0 && n1[j] <= 1.0 {
      SmoothBadZero(n1[j]);
    }
  }

  /** For a count, smoothing leaves zero exactly when there was at most one. */
  lemma SmoothBadZero(c: real)
    requires IsCount(c)
    ensures SmoothBad(c) == 0.0 <==> c <= 1.0
  {
    if c <= 1.0 {
      assert c.Floor == 0 || c.Floor == 1;
    }
  }

  lemma RankTail(n0: seq<real>, n1: seq<real>)
    requires |n0| == Bins && |n1| == Bins && SortedDesc(n0) && SortedDesc(n1)
    ensures (exists j :: 0 <= j < Bins && n0[j] <= 0.0 && n1[j] <= 1.0)
            <==> n0[Bins - 1] <= 0.0 && n1[Bins - 1] <= 1.0
  {
    if exists j :: 0 <= j < Bins && n0[j] <= 0.0 && n1[j] <= 1.0 {
      var j :| 0 <= j < Bins && n0[j] <= 0.0 && n1[j] <= 1.0;
      assert j <= Bins - 1;
    }
  }

  /** With a logarithm, a finite value is never negative, and it is zero exactly
      when at every rank the defaulters' count is to the non-defaulters' count
      as the defaulters are to the non-defaulters. */
  lemma BinnedSign(ln: real -> real, xs: seq<real>, ys: seq<real>)
    requires IsLog(ln) && BinnedIV(ln, xs, ys).Ok? && BinnedIV(ln, xs, ys).value.Fin?
    ensures |xs| > 0 && |ys| > 0
    ensures BinnedIV(ln, xs, ys).value.v >= 0.0
    ensures var (lo, hi) := Bounds(xs, ys);
            BinnedIV(ln, xs, ys).value.v == 0.0
            <==> Proportional(Ranks(xs, lo, hi), Ranks(ys, lo, hi), |xs| as real, |ys| as real)
  {
    var lo, hi := Bounds(xs, ys).0, Bounds(xs, ys).1;
    var n0, n1 := Ranks(xs, lo, hi), Ranks(ys, lo, hi);
    var ts := Terms(ln, n0, n1, |xs| as real, |ys| as real);
    BinnedUnfold(ln, xs, ys);
    AccumulateSpecial(Fin(0.0), ts);
    TermsSign(ln, n0, n1, |xs| as real, |ys| as real);
  }

  /** At every rank the two shares a term compares are equal: the (smoothed)
      defaulters' count over `n` and the non-defaulters' count over `m`. */
  predicate Proportional(n0: seq<real>, n1: seq<real>, n: real, m: real)
    requires |n0| == Bins && |n1| == Bins
  {
    forall j :: 0 <= j < Bins ==> SmoothBad(n1[j]) * m == n0[j] * n
  }

  lemma TermsSign(ln: real -> real, n0: seq<real>, n1: seq<real>, n: real, m: real)
    requires IsLog(ln) && |n0| == Bins && |n1| == Bins && n > 0.0 && m > 0.0
    requires forall j :: 0 <= j < Bins ==> IsCount(n0[j]) && IsCount(n1[j])
    requires NaN !in Terms(ln, n0, n1, n, m) && PosInf !in Terms(ln, n0, n1, n, m)
    ensures Sum(Terms(ln, n0, n1, n, m), ValueOf) >= 0.0
    ensures Sum(Terms(ln, n0, n1, n, m), ValueOf) == 0.0 <==> Proportional(n0, n1, n, m)
  {
    var ts := Terms(ln, n0, n1, n, m);
    forall j | 0 <= j < Bins
      ensures ValueOf(ts[j]) >= 0.0
      ensures ValueOf(ts[j]) == 0.0 <==> SmoothBad(n1[j]) * m == n0[j] * n
    {
      assert ts[j] != NaN && ts[j] != PosInf;
      TermSign(ln, SmoothBad(n1[j]), SmoothGood(n0[j]), n, m);
    }
    SumNonNegative(ts, ValueOf);
  }

  /** Which bin holds which count is forgotten: two samples with the same range,
      the same sizes and the same bin counts up to a reordering of the bins get
      the same value, however differently their PDs lie. */
  lemma BinsForgotten(ln: real -> real, xs: seq<real>, ys: seq<real>, xs': seq<real>, ys': seq<real>)
    requires |xs| > 0 && |ys| > 0 && |xs'| == |xs| && |ys'| == |ys|
    requires Bounds(xs', ys') == Bounds(xs, ys)
    requires var (lo, hi) := Bounds(xs, ys);
             && multiset(BinCounts(xs', lo, hi)) == multiset(BinCounts(xs, lo, hi))
             && multiset(BinCounts(ys', lo, hi)) == multiset(BinCounts(ys, lo, hi))
    ensures BinnedIV(ln, xs', ys') == BinnedIV(ln, xs, ys)
  {
    var (lo, hi) := Bounds(xs, ys);
    SortedDescUnique(Ranks(xs, lo, hi), Ranks(xs', lo, hi));
    SortedDescUnique(Ranks(ys, lo, hi), Ranks(ys', lo, hi));
  }

  /** The lowest PD of the group, L itself, lies in no bin, so the bin counts
      of the two sides together miss at least one row. */
  lemma MinimumNeverBinned(xs: seq<real>, ys: seq<real>)
    requires |xs| > 0 && |ys| > 0 && Bounds(xs, ys).0 < Bounds(xs, ys).1
    ensures var (lo, hi) := Bounds(xs, ys);
            RangeSum(0, Bins, BinCount(xs, lo, hi)) + RangeSum(0, Bins, BinCount(ys, lo, hi))
              < (|xs| + |ys|) as real
  {
    var (lo, hi) := Bounds(xs, ys);
    BinsPartition(xs, lo, hi);
    BinsPartition(ys, lo, hi);
    CountBounds(xs, BinnedIn(lo, hi));
    CountBounds(ys, BinnedIn(lo, hi));
    if lo in xs {
      var i :| 0 <= i < |xs| && xs[i] == lo;
      assert !BinnedIn(lo, hi)(xs[i]);
    } else {
      var i :| 0 <= i < |ys| && ys[i] == lo;
      assert !BinnedIn(lo, hi)(ys[i]);
    }
  }

  /** Some row of `g` carries default flag `flag`. */
  predicate HasFlag(g: seq<Obligor>, flag: real)
  {
    exists o :: o in g && o.flag == flag
  }

  /** A row the test sorts into X (flag 0) or Y (flag 1). */
  predicate Labelled(o: Obligor)
  {
    o.flag == 0.0 || o.flag == 1.0
  }

  /** All rows sorted into X or Y carry the same PD. */
  predicate SinglePd(g: seq<Obligor>)
  {
    forall o, o' :: o in g && o' in g && Labelled(o) && Labelled(o') ==> o.pd == o'.pd
  }

  /** A group the test cannot bin: one side is empty or the range is a point. */
  predicate Degenerate(g: seq<Obligor>)
  {
    !HasFlag(g, 0.0) || !HasFlag(g, 1.0) || SinglePd(g)
  }

  /** `temp[temp[defaults_col] == flag][PDs_col]`: the PDs of the rows of `g`
      with default flag `flag`, in row order, one per such row. */
  function PdsWithFlag(g: seq<Obligor>, flag: real): (pds: seq<real>)
    ensures |pds| == Count(g, KeyIs(FlagOf, flag))
    ensures forall x :: x in pds <==> exists o :: o in g && o.flag == flag && o.pd == x
  {
    var sel := Select(g, FlagOf, flag);
    SelectSum(g, FlagOf, flag, PdOf);
    assert forall o :: o in g && o.flag == flag ==> o in sel by {
      forall o | o in g && o.flag == flag ensures o in sel {
        var i :| 0 <= i < |g| && g[i] == o;
      }
    }
    Map(sel, PdOf)
  }

  /** The information value of one group of rows: `min` of an empty side
      raises, and so does a group whose labelled rows all carry one PD. */
  function GroupIV(ln: real -> real, g: seq<Obligor>): (r: Result<Float>)
    ensures r == Err(EmptyReduction) <==> !HasFlag(g, 0.0) || !HasFlag(g, 1.0)
    ensures r == Err(ZeroDivision) <==> HasFlag(g, 0.0) && HasFlag(g, 1.0) && SinglePd(g)
    ensures r.Err? <==> Degenerate(g)
    ensures r.Ok? ==> r.value != NegInf
  {
    var xs, ys := PdsWithFlag(g, 0.0), PdsWithFlag(g, 1.0);
    assert |xs| > 0 <==> HasFlag(g, 0.0) by {
      if |xs| > 0 {
        assert xs[0] in xs;
      }
      if HasFlag(g, 0.0) {
        var o :| o in g && o.flag == 0.0;
        assert o.pd in xs;
      }
    }
    assert |ys| > 0 <==> HasFlag(g, 1.0) by {
      if |ys| > 0 {
        assert ys[0] in ys;
      }
      if HasFlag(g, 1.0) {
        var o :| o in g && o.flag == 1.0;
        assert o.pd in ys;
      }
    }
    if |xs| > 0 && |ys| > 0 then
      SingleBounds(g, xs, ys);
      BinnedIV(ln, xs, ys)
    else
      BinnedIV(ln, xs, ys)
  }

  lemma SingleBounds(g: seq<Obligor>, xs: seq<real>, ys: seq<real>)
    requires xs == PdsWithFlag(g, 0.0) && ys == PdsWithFlag(g, 1.0) && |xs| > 0 && |ys| > 0
    ensures Bounds(xs, ys).0 == Bounds(xs, ys).1 <==> SinglePd(g)
  {
    var (lo, hi) := Bounds(xs, ys);
    if lo == hi {
      forall o, o' | o in g && o' in g && Labelled(o) && Labelled(o') ensures o.pd == o'.pd {
        assert o.pd in xs || o.pd in ys;
        assert o'.pd in xs || o'.pd in ys;
      }
    }
    if SinglePd(g) {
      var a :| a in g && Labelled(a) && a.pd == lo;
      var b :| b in g && Labelled(b) && b.pd == hi;
    }
  }

  /** The IV of each grade's group, as a function of the grade. */
  function GradeIV(ln: real -> real, rows: seq<Obligor>): real -> Result<Float>
  {
    a => GroupIV(ln, Members(rows, a))
  }

  /** The loop over the grades in `order`: one row per grade, stopping at the
      first grade whose IV `iv` raises. */
  function GradeLoop(iv: real -> Result<Float>, order: seq<real>): (r: Result<seq<Entry>>)
    ensures r.Err? <==> exists k :: 0 <= k < |order| && iv(order[k]).Err?
    ensures r.Ok? ==> |r.value| == |order|
    ensures r.Ok? ==> forall k :: 0 <= k < |order| ==>
              r.value[k].name == Grade(order[k]) && Ok(r.value[k].iv) == iv(order[k])
  {
    if |order| == 0 then Ok([])
    else
      var e :- iv(order[0]);
      var rest :- GradeLoop(iv, order[1..]);
      assert forall k :: 1 <= k < |order| ==> order[1..][k - 1] == order[k];
      Ok([Entry(Grade(order[0]), e)] + rest)
  }

  /** The error of the loop is that of the first grade in `order` that raises. */
  lemma {:induction false} FirstErrorWins(iv: real -> Result<Float>, order: seq<real>)
    requires GradeLoop(iv, order).Err?
    ensures exists k :: 0 <= k < |order| && iv(order[k]) == Err(GradeLoop(iv, order).failure)
              && forall i :: 0 <= i < k ==> iv(order[i]).Ok?
    decreases |order|
  {
    var f := GradeLoop(iv, order).failure;
    if iv(order[0]).Err? {
      assert iv(order[0]) == Err(f);
    } else {
      var rest := order[1..];
      FirstErrorWins(iv, rest);
      var k :| 0 <= k < |rest| && iv(rest[k]) == Err(f) && forall i :: 0 <= i < k ==> iv(rest[i]).Ok?;
      forall i | 0 <= i < k + 1 ensures iv(order[i]).Ok? {
        if i > 0 {
          assert order[i] == rest[i - 1];
        }
      }
      assert order[k + 1] == rest[k];
    }
  }

  /** The grade rows followed by the "Overall" row, the same computation on
      all rows; the loop raises before the overall one is reached. */
  function BinnedReport(ln: real -> real, rows: seq<Obligor>, order: seq<real>): (r: Result<seq<Entry>>)
    ensures var loop := GradeLoop(GradeIV(ln, rows), order);
            && (r.Err? <==> loop.Err? || GroupIV(ln, rows).Err?)
            && (loop.Err? ==> r == Err(loop.failure))
            && (loop.Ok? && GroupIV(ln, rows).Err? ==> r == Err(GroupIV(ln, rows).failure))
            && (r.Ok? ==> |r.value| == |order| + 1 && r.value[..|order|] == loop.value)
            && (r.Ok? ==> r.value[|order|] == Entry(Overall, GroupIV(ln, rows).value))
  {
    var es :- GradeLoop(GradeIV(ln, rows), order);
    var total :- GroupIV(ln, rows);
    assert (es + [Entry(Overall, total)])[..|order|] == es;
    Ok(es + [Entry(Overall, total)])
  }

  /** The rows of a grade are rows of the table, so whatever the whole table
      lacks, each grade lacks too. */
  lemma SubGroup(rows: seq<Obligor>, a: real)
    ensures forall o :: o in Members(rows, a) ==> o in rows
    ensures HasFlag(Members(rows, a), 0.0) ==> HasFlag(rows, 0.0)
    ensures HasFlag(Members(rows, a), 1.0) ==> HasFlag(rows, 1.0)
    ensures SinglePd(rows) ==> SinglePd(Members(rows, a))
  {
  }

  /** When the whole table cannot be binned, some grade cannot either. */
  lemma GroupFailure(ln: real -> real, rows: seq<Obligor>) returns (a: real)
    requires |rows| > 0 && GroupIV(ln, rows).Err?
    ensures a in Ratings(rows) && GroupIV(ln, Members(rows, a)).Err?
  {
    SubGroup(rows, rows[0].rating);
    if !HasFlag(rows, 0.0) || !HasFlag(rows, 1.0) {
      a := rows[0].rating;
    } else {
      var o :| o in rows && o.flag == 0.0;
      var i :| 0 <= i < |rows| && rows[i] == o;
      a := o.rating;
      SubGroup(rows, a);
      assert o in Members(rows, a);
    }
  }

  /** The "Overall" row never raises on its own: on a non-empty table the
      report fails exactly when the grade loop does. */
  lemma OverallNeverFailsAlone(ln: real -> real, rows: seq<Obligor>, order: seq<real>)
    requires Enumerates(order, Ratings(rows)) && |rows| > 0
    ensures BinnedReport(ln, rows, order).Err? <==> GradeLoop(GradeIV(ln, rows), order).Err?
  {
    if GroupIV(ln, rows).Err? {
      var a := GroupFailure(ln, rows);
      assert a in order;
      var k :| 0 <= k < |order| && order[k] == a;
      assert GradeIV(ln, rows)(order[k]).Err?;
    }
  }

  /** With a single grade, its row and the "Overall" row agree. */
  lemma SingleGradeIsOverall(ln: real -> real, rows: seq<Obligor>, order: seq<real>)
    requires Enumerates(order, Ratings(rows)) && |order| == 1
    requires BinnedReport(ln, rows, order).Ok?
    ensures Ratings(rows) == {order[0]}
    ensures BinnedReport(ln, rows, order).value[0].iv == BinnedReport(ln, rows, order).value[1].iv
  {
    SingletonEnumeration(order, Ratings(rows));
    OneGrade(rows, order[0]);
    var es := BinnedReport(ln, rows, order).value;
    assert es[0] == GradeLoop(GradeIV(ln, rows), order).value[0];
    assert GradeIV(ln, rows)(order[0]) == GroupIV(ln, rows);
  }

  lemma SingletonEnumeration(order: seq<real>, s: set<real>)
    requires Enumerates(order, s) && |order| == 1
    ensures s == {order[0]}
  {
    forall x ensures x in s <==> x in {order[0]} {
      if x in order {
        var i :| 0 <= i < |order| && order[i] == x;
      }
    }
  }

  lemma OneGrade(rows: seq<Obligor>, a: real)
    requires Ratings(rows) == {a}
    ensures Members(rows, a) == rows
  {
    forall i | 0 <= i < |rows| ensures rows[i].rating == a {
      assert rows[i].rating in Ratings(rows);
    }
    SelectAll(rows, RatingOf, a);
  }

  /** Whether the report fails does not depend on the iteration order of the
      rating set (which error it raises may). */
  lemma ReportFailsOrderFree(ln: real -> real, rows: seq<Obligor>, o1: seq<real>, o2: seq<real>)
    requires Enumerates(o1, Ratings(rows)) && Enumerates(o2, Ratings(rows))
    ensures BinnedReport(ln, rows, o1).Err? <==> BinnedReport(ln, rows, o2).Err?
  {
    var iv := GradeIV(ln, rows);
    if GradeLoop(iv, o1).Err? {
      var k :| 0 <= k < |o1| && iv(o1[k]).Err?;
      assert o1[k] in o2;
      var k2 :| 0 <= k2 < |o2| && o2[k2] == o1[k];
    }
    if GradeLoop(iv, o2).Err? {
      var k :| 0 <= k < |o2| && iv(o2[k]).Err?;
      assert o2[k] in o1;
      var k1 :| 0 <= k1 < |o1| && o1[k1] == o2[k];
    }
  }

  /** With a logarithm, no finite IV of a group is negative. */
  lemma GroupSign(ln: real -> real, g: seq<Obligor>)
    requires IsLog(ln) && GroupIV(ln, g).Ok? && GroupIV(ln, g).value.Fin?
    ensures GroupIV(ln, g).value.v >= 0.0
  {
    BinnedSign(ln, PdsWithFlag(g, 0.0), PdsWithFlag(g, 1.0));
  }

  /** With a logarithm, every finite value in the report is non-negative. */
  lemma ReportSign(ln: real -> real, rows: seq<Obligor>, order: seq<real>)
    requires IsLog(ln) && BinnedReport(ln, rows, order).Ok?
    ensures forall k :: 0 <= k < |order| + 1 && BinnedReport(ln, rows, order).value[k].iv.Fin? ==>
              BinnedReport(ln, rows, order).value[k].iv.v >= 0.0
  {
    forall k | 0 <= k < |order| + 1 && BinnedReport(ln, rows, order).value[k].iv.Fin?
      ensures BinnedReport(ln, rows, order).value[k].iv.v >= 0.0
    {
      EntrySign(ln, rows, order, k);
    }
  }

  lemma EntrySign(ln: real -> real, rows: seq<Obligor>, order: seq<real>, k: nat)
    requires IsLog(ln) && BinnedReport(ln, rows, order).Ok? && k < |order| + 1
    requires BinnedReport(ln, rows, order).value[k].iv.Fin?
    ensures BinnedReport(ln, rows, order).value[k].iv.v >= 0.0
  {
    if k < |order| {
      ReportEntry(ln, rows, order, k);
      GroupSign(ln, Members(rows, order[k]));
    } else {
      GroupSign(ln, rows);
    }
  }

  /** The `k`-th row of a report names the `k`-th grade and holds its IV. */
  lemma ReportEntry(ln: real -> real, rows: seq<Obligor>, order: seq<real>, k: nat)
    requires BinnedReport(ln, rows, order).Ok? && k < |order|
    ensures BinnedReport(ln, rows, order).value[k].name == Grade(order[k])
    ensures Ok(BinnedReport(ln, rows, order).value[k].iv) == GroupIV(ln, Members(rows, order[k]))
  {
    var loop := GradeLoop(GradeIV(ln, rows), order).value;
    var es := BinnedReport(ln, rows, order).value;
    assert es[k] == es[..|order|][k] == loop[k];
  }

  /** On a non-empty table the report fails exactly when some grade is
      degenerate, and then with the error of a grade. */
  lemma BinnedReportFails(ln: real -> real, rows: seq<Obligor>, order: seq<real>)
    requires Enumerates(order, Ratings(rows)) && |rows| > 0
    ensures BinnedReport(ln, rows, order).Err? <==> exists a :: a in Ratings(rows) && Degenerate(Members(rows, a))
    ensures BinnedReport(ln, rows, order).Err? ==>
              exists a :: a in Ratings(rows) && GroupIV(ln, Members(rows, a)) == Err(BinnedReport(ln, rows, order).failure)
  {
    OverallNeverFailsAlone(ln, rows, order);
    LoopFailsOnDegenerate(ln, rows, order);
    if GradeLoop(GradeIV(ln, rows), order).Err? {
      LoopFailureOfGrade(ln, rows, order);
    }
  }

  /** The loop over the grades fails exactly when some grade is degenerate. */
  lemma LoopFailsOnDegenerate(ln: real -> real, rows: seq<Obligor>, order: seq<real>)
    requires Enumerates(order, Ratings(rows))
    ensures GradeLoop(GradeIV(ln, rows), order).Err?
            <==> exists a :: a in Ratings(rows) && Degenerate(Members(rows, a))
  {
    var iv := GradeIV(ln, rows);
    if GradeLoop(iv, order).Err? {
      var k :| 0 <= k < |order| && iv(order[k]).Err?;
      assert order[k] in Ratings(rows);
    }
    if exists a :: a in Ratings(rows) && Degenerate(Members(rows, a)) {
      var a :| a in Ratings(rows) && Degenerate(Members(rows, a));
      assert a in order;
      var k :| 0 <= k < |order| && order[k] == a;
      assert iv(order[k]).Err?;
    }
  }

  /** A failing loop reports the error of one of the grades. */
  lemma LoopFailureOfGrade(ln: real -> real, rows: seq<Obligor>, order: seq<real>)
    requires Enumerates(order, Ratings(rows))
    requires GradeLoop(GradeIV(ln, rows), order).Err?
    ensures exists a :: a in Ratings(rows)
              && GroupIV(ln, Members(rows, a)) == Err(GradeLoop(GradeIV(ln, rows), order).failure)
  {
    var iv := GradeIV(ln, rows);
    FirstErrorWins(iv, order);
    var k :| 0 <= k < |order| && iv(order[k]) == Err(GradeLoop(iv, order).failure);
    assert order[k] in Ratings(rows);
  }

  /** The shape of the report: it fails exactly when some grade is
      degenerate, and otherwise names every grade once before "Overall". */
  lemma BinnedReportShape(ln: real -> real, rows: seq<Obligor>, order: seq<real>)
    requires Enumerates(order, Ratings(rows)) && |rows| > 0
    ensures |order| == |Ratings(rows)|
    ensures var r := BinnedReport(ln, rows, order);
            && (r.Err? <==> exists a :: a in Ratings(rows) && Degenerate(Members(rows, a)))
            && (r.Err? ==> r == Err(EmptyReduction) || r == Err(ZeroDivision))
            && (r.Ok? ==> |r.value| == |order| + 1)
            && (r.Ok? ==> r.value[|order|] == Entry(Overall, GroupIV(ln, rows).value))
            && (r.Ok? ==> forall a :: a in Ratings(rows) <==>
                            exists k :: 0 <= k < |order| && r.value[k].name == Grade(a))
  {
    EnumerationSize(order, Ratings(rows));
    BinnedReportFails(ln, rows, order);
    var r := BinnedReport(ln, rows, order);
    if r.Ok? {
      forall a ensures a in Ratings(rows) <==> exists k :: 0 <= k < |order| && r.value[k].name == Grade(a) {
        ReportNames(ln, rows, order, a);
      }
    }
  }

  /** A successful report has an entry named after grade `a` exactly when `a`
      is a rating of the table. */
  lemma ReportNames(ln: real -> real, rows: seq<Obligor>, order: seq<real>, a: real)
    requires Enumerates(order, Ratings(rows)) && |rows| > 0
    requires BinnedReport(ln, rows, order).Ok?
    ensures var r := BinnedReport(ln, rows, order);
            a in Ratings(rows) <==> exists k :: 0 <= k < |order| && r.value[k].name == Grade(a)
  {
    var r := BinnedReport(ln, rows, order);
    if a in Ratings(rows) {
      assert a in order;
      var k :| 0 <= k < |order| && order[k] == a;
      ReportEntry(ln, rows, order, k);
    }
    if exists k :: 0 <= k < |order| && r.value[k].name == Grade(a) {
      var k :| 0 <= k < |order| && r.value[k].name == Grade(a);
      ReportEntry(ln, rows, order, k);
      assert order[k] in order;
    }
  }

  /** `Information_value(df, defaults_col, PDs_col, ratings_col)`: the common
      argument ladder, then the binned report over the rating grades in the
      iteration order `setOrder` gives the rating set. */
  function BinnedInformationValueTest(ln: real -> real, t: Table, defaultsCol: Arg, pdsCol: Arg, ratingsCol: Arg,
                                      setOrder: set<real> -> seq<real>): (r: Result<seq<Entry>>)
    requires Rectangular(t) && IsSetOrder(setOrder)
    ensures ValidateObligors(t, defaultsCol, pdsCol, ratingsCol).Err? ==>
              r == Err(ValidateObligors(t, defaultsCol, pdsCol, ratingsCol).failure)
    ensures ValidateObligors(t, defaultsCol, pdsCol, ratingsCol).Ok? ==>
              var rows := ValidateObligors(t, defaultsCol, pdsCol, ratingsCol).value;
              && (r.Err? <==> exists a :: a in Ratings(rows) && Degenerate(Members(rows, a)))
              && (r.Err? ==> r == Err(EmptyReduction) || r == Err(ZeroDivision))
              && (r.Ok? ==> |r.value| == |Ratings(rows)| + 1)
              && (r.Ok? ==> r.value[|Ratings(rows)|].name == Overall)
              && (r.Ok? ==> Ok(r.value[|Ratings(rows)|].iv) == GroupIV(ln, rows))
              && (r.Ok? ==> forall a :: a in Ratings(rows) <==>
                              exists k :: 0 <= k < |Ratings(rows)| && r.value[k].name == Grade(a))
  {
    var rows :- ValidateObligors(t, defaultsCol, pdsCol, ratingsCol);
    var order := setOrder(Ratings(rows));
    BinnedReportShape(ln, rows, order);
    BinnedReport(ln, rows, order)
  }
}
