/** The coefficient of concordance (risktests/Coefficient_of_concordance.py):
    Kendall's W with two raters, the buckets ranked once by their default
    counts and once by their mean PDs, highest value first, ties sharing the
    lowest position of their group. */
module Concordance {
  import opened Seqs
  import opened Frame
  import opened Outcomes
  import opened Floats
  import opened Buckets

  function MeanPdOf(b: Bucket): real { b.meanPd }

  function AtMost(key: Bucket -> real, v: real): Bucket -> bool
  {
    b => key(b) <= v
  }

  function Exceeds(key: Bucket -> real, v: real): Bucket -> bool
  {
    b => key(b) > v
  }

  /** `rankdata(X, method='max')` at a value `v` of X: how many entries are at
      most `v`, so a group of ties shares the highest position it covers. */
  function MaxRank(bs: seq<Bucket>, key: Bucket -> real, v: real): nat
  {
    Count(bs, AtMost(key, v))
  }

  /** `len(X) - rankdata(X, method='max') + 1`: the ranking reversed, so that the
      largest value comes first. */
  function Rank(bs: seq<Bucket>, key: Bucket -> real, v: real): real
  {
    (|bs| - MaxRank(bs, key, v) + 1) as real
  }

  function RankOf(bs: seq<Bucket>, key: Bucket -> real): Bucket -> real
  {
    b => Rank(bs, key, key(b))
  }

  /** `ranked_X` (key `DefaultsOf`) and `ranked_Y` (key `MeanPdOf`). */
  function Ranks(bs: seq<Bucket>, key: Bucket -> real): seq<real>
  {
    Map(bs, RankOf(bs, key))
  }

  function RankPair(bs: seq<Bucket>): Bucket -> (real, real)
  {
    (b: Bucket) => (Rank(bs, DefaultsOf, b.defaults), Rank(bs, MeanPdOf, b.meanPd))
  }

  /** `expt_ratings`: one row per bucket, the two ranks side by side. */
  function RankTable(bs: seq<Bucket>): seq<(real, real)>
  {
    Map(bs, RankPair(bs))
  }

  /** The number of columns of `expt_ratings`, m. */
  const Raters: nat := 2

  /** `(1/12)*m**2*(n**3-n)` for n items. */
  function Denominator(n: nat): real
  {
    var x := n as real;
    (1.0 / 12.0) * (Raters * Raters) as real * (x * x * x - x)
  }

  /** `0.5*m*(n+1)`: the expected row sum. */
  function Centre(n: nat): real
  {
    0.5 * Raters as real * (n + 1) as real
  }

  function Deviation(a: real): ((real, real)) -> real
  {
    (p: (real, real)) => (p.0 + p.1 - a) * (p.0 + p.1 - a)
  }

  /** `((ratings_sum - a)**2).sum()`. */
  function Numerator(bs: seq<Bucket>): real
  {
    Sum(RankTable(bs), Deviation(Centre(|bs|)))
  }

  /** `num/denom`, a numpy division: with fewer than two buckets both are zero
      and the result is NaN. */
  function Coefficient(bs: seq<Bucket>): (w: Float)
    ensures w.NaN? <==> |bs| < 2
    ensures !w.NaN? ==> w.Fin? && w.v >= 0.0
  {
    NumeratorNonNegative(bs);
    if |bs| < 2 then
      FewBucketsNumerator(bs);
      Div(Numerator(bs), Denominator(|bs|))
    else
      DenominatorPositive(|bs|);
      Div(Numerator(bs), Denominator(|bs|))
  }

  lemma SquareNonNegative(x: real)
    ensures x * x >= 0.0
  {
  }

  lemma NumeratorNonNegative(bs: seq<Bucket>)
    ensures Numerator(bs) >= 0.0
  {
    var t := RankTable(bs);
    var f := Deviation(Centre(|bs|));
    forall i | 0 <= i < |t| ensures f(t[i]) >= 0.0 {
      SquareNonNegative(t[i].0 + t[i].1 - Centre(|bs|));
    }
    SumNonNegative(t, f);
  }

  lemma FewBucketsNumerator(bs: seq<Bucket>)
    requires |bs| < 2
    ensures Numerator(bs) == 0.0 && Denominator(|bs|) == 0.0
  {
    if |bs| == 1 {
      var b := bs[0];
      assert DefaultsOf(b) == b.defaults && MeanPdOf(b) == b.meanPd;
      assert AtMost(DefaultsOf, b.defaults)(b) && AtMost(MeanPdOf, b.meanPd)(b);
      CountBounds(bs, AtMost(DefaultsOf, b.defaults));
      CountBounds(bs, AtMost(MeanPdOf, b.meanPd));
      var t := RankTable(bs);
      assert t[0] == (1.0, 1.0);
      assert Centre(1) == 2.0;
      assert Deviation(2.0)(t[0]) == 0.0;
      assert t[1..] == [];
      assert Numerator(bs) == Deviation(2.0)(t[0]) + Sum(t[1..], Deviation(2.0));
      assert Denominator(1) == (1.0 / 12.0) * 4.0 * (1.0 * 1.0 * 1.0 - 1.0);
    }
  }

  lemma DenominatorPositive(n: nat)
    requires n >= 2
    ensures Denominator(n) == Cubic(n as real) / 3.0
    ensures Denominator(n) > 0.0
  {
    var x := n as real;
    MulPositive(x, x - 1.0);
    MulPositive(x * (x - 1.0), x + 1.0);
    assert x * x * x - x == x * (x - 1.0) * (x + 1.0);
  }

  /** k³ − k. */
  function Cubic(x: real): real
  {
    x * x * x - x
  }

  // ---------------------------------------------------------------------------
  // Ranks

  /** Reversing the max ranking counts the strictly larger entries: the rank is
      one more than the number of buckets above. */
  lemma RankCountsAbove(bs: seq<Bucket>, key: Bucket -> real, v: real)
    ensures Rank(bs, key, v) == (1 + Count(bs, Exceeds(key, v))) as real
  {
    CountComplement(bs, AtMost(key, v), Exceeds(key, v));
  }

  /** Every bucket's rank lies between 1 and the number of buckets, and it is 1
      exactly for the largest value. */
  lemma RankBounds(bs: seq<Bucket>, key: Bucket -> real, i: nat)
    requires i < |bs|
    ensures 1.0 <= Rank(bs, key, key(bs[i])) <= |bs| as real
    ensures Rank(bs, key, key(bs[i])) == 1.0 <==> forall j :: 0 <= j < |bs| ==> key(bs[j]) <= key(bs[i])
  {
    var p := AtMost(key, key(bs[i]));
    CountBounds(bs, p);
    CountWithout(bs, i, p);
  }

  /** The position of a smallest key. */
  function ArgMin(bs: seq<Bucket>, key: Bucket -> real): (i: nat)
    requires |bs| > 0
    ensures i < |bs|
    ensures forall j :: 0 <= j < |bs| ==> key(bs[i]) <= key(bs[j])
  {
    if |bs| == 1 then 0
    else
      var k := ArgMin(bs[1..], key);
      assert forall j :: 1 <= j < |bs| ==> bs[j] == bs[1..][j - 1];
      if key(bs[0]) <= key(bs[1..][k]) then 0 else k + 1
  }

  /** 1, 2, …, n. */
  function Iota(n: nat): (r: seq<real>)
    ensures |r| == n
  {
    if n == 0 then [] else Iota(n - 1) + [n as real]
  }

  /** Removing a bucket whose key is smallest keeps the rank of every key at
      least as large. */
  lemma RankWithoutMin(bs: seq<Bucket>, key: Bucket -> real, i: nat, v: real)
    requires i < |bs| && key(bs[i]) <= v
    ensures Rank(bs, key, v) == Rank(bs[..i] + bs[i + 1..], key, v)
  {
    CountWithout(bs, i, AtMost(key, v));
  }

  /** The unique smallest key takes the last rank. */
  lemma MinRankIsLast(bs: seq<Bucket>, key: Bucket -> real, i: nat)
    requires i < |bs|
    requires forall j :: 0 <= j < |bs| && j != i ==> key(bs[i]) < key(bs[j])
    ensures Rank(bs, key, key(bs[i])) == |bs| as real
  {
    var rest := bs[..i] + bs[i + 1..];
    var p := AtMost(key, key(bs[i]));
    CountWithout(bs, i, p);
    assert forall k :: 0 <= k < |rest| ==> !p(rest[k]) by {
      forall k | 0 <= k < |rest| ensures !p(rest[k]) {
        if k < i {
          assert rest[k] == bs[k];
        } else {
          assert rest[k] == bs[k + 1];
        }
      }
    }
    CountBounds(rest, p);
  }

  /** Ranks after the unique smallest key is taken out: the others keep theirs
      and the smallest takes the last. */
  lemma RanksWithoutMin(bs: seq<Bucket>, key: Bucket -> real, i: nat)
    requires i < |bs|
    requires forall j :: 0 <= j < |bs| && j != i ==> key(bs[i]) < key(bs[j])
    ensures var a := Ranks(bs[..i] + bs[i + 1..], key);
            Ranks(bs, key) == a[..i] + [|bs| as real] + a[i..]
  {
    var rest := bs[..i] + bs[i + 1..];
    var a := Ranks(rest, key);
    MinRankIsLast(bs, key, i);
    forall j | 0 <= j < |bs|
      ensures Ranks(bs, key)[j] == (a[..i] + [|bs| as real] + a[i..])[j]
    {
      if j < i {
        assert rest[j] == bs[j];
        RankWithoutMin(bs, key, i, key(bs[j]));
      } else if j > i {
        assert rest[j - 1] == bs[j];
        RankWithoutMin(bs, key, i, key(bs[j]));
      }
    }
  }

  /** Without ties a smallest key is the only one that small, and the rest
      are still free of ties. */
  lemma MinIsStrict(bs: seq<Bucket>, key: Bucket -> real, i: nat)
    requires Distinct(Map(bs, key)) && i < |bs|
    requires forall j :: 0 <= j < |bs| ==> key(bs[i]) <= key(bs[j])
    ensures forall j :: 0 <= j < |bs| && j != i ==> key(bs[i]) < key(bs[j])
    ensures Distinct(Map(bs[..i] + bs[i + 1..], key))
  {
    var ks := Map(bs, key);
    assert forall j :: 0 <= j < |bs| ==> ks[j] == key(bs[j]);
    DistinctWithout(ks, i);
    assert Map(bs[..i] + bs[i + 1..], key) == ks[..i] + ks[i + 1..];
  }

  lemma MultisetInsert(a: seq<real>, i: nat, x: real)
    requires i <= |a|
    ensures multiset(a[..i] + [x] + a[i..]) == multiset(a) + multiset{x}
  {
    assert a == a[..i] + a[i..];
  }

  /** Without ties the ranks are a permutation of 1..k. */
  lemma {:induction false} RanksPermuteIota(bs: seq<Bucket>, key: Bucket -> real)
    requires Distinct(Map(bs, key))
    ensures multiset(Ranks(bs, key)) == multiset(Iota(|bs|))
    decreases |bs|
  {
    if |bs| > 0 {
      var n := |bs|;
      var i := ArgMin(bs, key);
      var rest := bs[..i] + bs[i + 1..];
      MinIsStrict(bs, key, i);
      var a := Ranks(rest, key);
      RanksPermuteIota(rest, key);
      assert multiset(a) == multiset(Iota(n - 1));
      RanksWithoutMin(bs, key, i);
      assert Ranks(bs, key) == a[..i] + [n as real] + a[i..];
      MultisetInsert(a, i, n as real);
      assert multiset(Iota(n)) == multiset(Iota(n - 1)) + multiset{n as real};
    }
  }

  function Centred(c: real): real -> real
  {
    x => (x - c) * (x - c)
  }

  /** Σ_{j=1..x} (j − c)² in closed form. */
  function SquaresUpTo(x: real, c: real): real
  {
    x * (x + 1.0) * (2.0 * x + 1.0) / 6.0 - c * (x * (x + 1.0)) + x * c * c
  }

  lemma {:induction false} IotaSquares(n: nat, c: real)
    ensures Sum(Iota(n), Centred(c)) == SquaresUpTo(n as real, c)
    decreases n
  {
    if n > 0 {
      var f := Centred(c);
      IotaSquares(n - 1, c);
      SumIotaStep(n, f);
      SquaresStep((n - 1) as real, n as real, c, Sum(Iota(n - 1), f), f(n as real));
    }
  }

  lemma SumIotaStep(n: nat, f: real -> real)
    requires n > 0
    ensures Sum(Iota(n), f) == Sum(Iota(n - 1), f) + f(n as real)
  {
    SumAppend(Iota(n - 1), [n as real], f);
    assert [n as real][1..] == [];
  }

  lemma SquaresStep(x0: real, x: real, c: real, before: real, last: real)
    requires x == x0 + 1.0 && before == SquaresUpTo(x0, c) && last == Centred(c)(x)
    ensures before + last == SquaresUpTo(x, c)
  {
    assert last == (x - c) * (x - c);
  }

  /** About the middle value (x+1)/2 the closed form is (x³ − x)/12. */
  lemma SquaresAboutMiddle(x: real)
    ensures SquaresUpTo(x, (x + 1.0) / 2.0) == Cubic(x) / 12.0
  {
    var c := (x + 1.0) / 2.0;
    var q := x * (x + 1.0);
    assert c * q == q * (x + 1.0) / 2.0;
    assert x * c * c == q * (x + 1.0) / 4.0;
    assert x * (x + 1.0) * (2.0 * x + 1.0) / 6.0 == q * (2.0 * x + 1.0) / 6.0;
    assert SquaresUpTo(x, c) == q * ((2.0 * x + 1.0) / 6.0 - (x + 1.0) / 2.0 + (x + 1.0) / 4.0);
    assert (2.0 * x + 1.0) / 6.0 - (x + 1.0) / 2.0 + (x + 1.0) / 4.0 == (x - 1.0) / 12.0;
    assert q * ((x - 1.0) / 12.0) == (q * (x - 1.0)) / 12.0;
    assert q * (x - 1.0) == Cubic(x);
  }

  /** Without ties, the squared distances of the ranks from their middle value
      (k+1)/2 add up to (k³−k)/12. */
  lemma CentredRanks(bs: seq<Bucket>, key: Bucket -> real)
    requires Distinct(Map(bs, key))
    ensures Sum(Ranks(bs, key), Centred((|bs| as real + 1.0) / 2.0)) == Cubic(|bs| as real) / 12.0
  {
    var x := |bs| as real;
    var c := (x + 1.0) / 2.0;
    RanksPermuteIota(bs, key);
    SumPermutation(Ranks(bs, key), Iota(|bs|), Centred(c));
    IotaSquares(|bs|, c);
    SquaresAboutMiddle(x);
  }

  // ---------------------------------------------------------------------------
  // Bounds

  function Gap(p: (real, real)): real
  {
    (p.0 - p.1) * (p.0 - p.1)
  }

  function FirstCentred(c: real): ((real, real)) -> real
  {
    (p: (real, real)) => (p.0 - c) * (p.0 - c)
  }

  function SecondCentred(c: real): ((real, real)) -> real
  {
    (p: (real, real)) => (p.1 - c) * (p.1 - c)
  }

  /** Σ over buckets of the squared difference of their two ranks. */
  function RankGap(bs: seq<Bucket>): real
  {
    Sum(RankTable(bs), Gap)
  }

  /** (u + v)² = 2u² + 2v² − (u − v)², for u, v the distances from c. */
  lemma PairIdentity(x: real, y: real, c: real, dev: real, f: real, g: real, gap: real)
    requires dev == (x + y - 2.0 * c) * (x + y - 2.0 * c)
    requires f == (x - c) * (x - c) && g == (y - c) * (y - c) && gap == (x - y) * (x - y)
    ensures dev == 2.0 * f + 2.0 * g + -1.0 * gap
  {
  }

  /** The numerator splits into the spread of each ranking about its middle
      value minus the disagreement between the two rankings. */
  lemma NumeratorSplit(bs: seq<Bucket>)
    ensures var c := (|bs| as real + 1.0) / 2.0;
            Numerator(bs) == 2.0 * Sum(Ranks(bs, DefaultsOf), Centred(c))
                           + 2.0 * Sum(Ranks(bs, MeanPdOf), Centred(c)) - RankGap(bs)
  {
    var c := (|bs| as real + 1.0) / 2.0;
    NumeratorPointwise(bs, c);
    ColumnSums(bs, c);
  }

  /** The two columns of `expt_ratings` are `ranked_X` and `ranked_Y`. */
  lemma RankColumns(bs: seq<Bucket>)
    ensures forall i :: 0 <= i < |bs| ==>
              RankTable(bs)[i].0 == Ranks(bs, DefaultsOf)[i] && RankTable(bs)[i].1 == Ranks(bs, MeanPdOf)[i]
  {
    forall i | 0 <= i < |bs|
      ensures RankTable(bs)[i].0 == Ranks(bs, DefaultsOf)[i] && RankTable(bs)[i].1 == Ranks(bs, MeanPdOf)[i]
    {
      assert DefaultsOf(bs[i]) == bs[i].defaults && MeanPdOf(bs[i]) == bs[i].meanPd;
    }
  }

  lemma ColumnSums(bs: seq<Bucket>, c: real)
    ensures Sum(RankTable(bs), FirstCentred(c)) == Sum(Ranks(bs, DefaultsOf), Centred(c))
    ensures Sum(RankTable(bs), SecondCentred(c)) == Sum(Ranks(bs, MeanPdOf), Centred(c))
  {
    var t, rx, ry := RankTable(bs), Ranks(bs, DefaultsOf), Ranks(bs, MeanPdOf);
    RankColumns(bs);
    forall i | 0 <= i < |t|
      ensures FirstCentred(c)(t[i]) == Centred(c)(rx[i]) && SecondCentred(c)(t[i]) == Centred(c)(ry[i])
    {
      CentredAgree(t[i], rx[i], ry[i], c);
    }
    SumAligned(t, rx, FirstCentred(c), Centred(c));
    SumAligned(t, ry, SecondCentred(c), Centred(c));
  }

  lemma CentredAgree(p: (real, real), x: real, y: real, c: real)
    requires p.0 == x && p.1 == y
    ensures FirstCentred(c)(p) == Centred(c)(x) && SecondCentred(c)(p) == Centred(c)(y)
  {
  }

  lemma NumeratorPointwise(bs: seq<Bucket>, c: real)
    requires c == (|bs| as real + 1.0) / 2.0
    ensures Numerator(bs) == 2.0 * Sum(RankTable(bs), FirstCentred(c))
                           + 2.0 * Sum(RankTable(bs), SecondCentred(c)) + -1.0 * RankGap(bs)
  {
    var a := Centre(|bs|);
    var t := RankTable(bs);
    assert a == 2.0 * c;
    var dev, f, g := Deviation(a), FirstCentred(c), SecondCentred(c);
    forall i | 0 <= i < |t|
      ensures dev(t[i]) == 2.0 * f(t[i]) + 2.0 * g(t[i]) + -1.0 * Gap(t[i])
    {
      RowIdentity(t[i], a, c);
    }
    SumLinear(t, f, g, Gap, dev, 2.0, 2.0, -1.0);
  }

  lemma RowIdentity(p: (real, real), a: real, c: real)
    requires a == 2.0 * c
    ensures Deviation(a)(p) == 2.0 * FirstCentred(c)(p) + 2.0 * SecondCentred(c)(p) + -1.0 * Gap(p)
  {
    PairIdentity(p.0, p.1, c, Deviation(a)(p), FirstCentred(c)(p), SecondCentred(c)(p), Gap(p));
  }

  /** Neither the default counts nor the mean PDs of two buckets tie. */
  predicate NoTies(bs: seq<Bucket>)
  {
    Distinct(Map(bs, DefaultsOf)) && Distinct(Map(bs, MeanPdOf))
  }

  lemma GapNonNegative(bs: seq<Bucket>)
    ensures RankGap(bs) >= 0.0
    ensures RankGap(bs) == 0.0 <==> Ranks(bs, DefaultsOf) == Ranks(bs, MeanPdOf)
  {
    var t, x, y := RankTable(bs), Ranks(bs, DefaultsOf), Ranks(bs, MeanPdOf);
    RankTableColumns(bs);
    forall i | 0 <= i < |t| ensures Gap(t[i]) >= 0.0 && (Gap(t[i]) == 0.0 <==> x[i] == y[i]) {
      GapZero(t[i]);
    }
    SumNonNegative(t, Gap);
    if RankGap(bs) == 0.0 {
      assert forall i :: 0 <= i < |t| ==> x[i] == y[i];
    }
  }

  /** A squared rank distance is never negative, and zero exactly when the
      two ranks agree. */
  lemma GapZero(p: (real, real))
    ensures Gap(p) >= 0.0 && (Gap(p) == 0.0 <==> p.0 == p.1)
  {
    SquareNonNegative(p.0 - p.1);
    SquareZero(p.0 - p.1);
  }

  /** Row i of `expt_ratings` holds the i-th entries of the two rankings. */
  lemma RankTableColumns(bs: seq<Bucket>)
    ensures |RankTable(bs)| == |Ranks(bs, DefaultsOf)| == |Ranks(bs, MeanPdOf)| == |bs|
    ensures forall i :: 0 <= i < |bs| ==>
              RankTable(bs)[i] == (Ranks(bs, DefaultsOf)[i], Ranks(bs, MeanPdOf)[i])
  {
    forall i | 0 <= i < |bs|
      ensures RankTable(bs)[i] == (Ranks(bs, DefaultsOf)[i], Ranks(bs, MeanPdOf)[i])
    {
      assert DefaultsOf(bs[i]) == bs[i].defaults && MeanPdOf(bs[i]) == bs[i].meanPd;
    }
  }

  lemma SquareZero(x: real)
    ensures x * x == 0.0 <==> x == 0.0
  {
    if x != 0.0 {
      assert x == (x * x) / x;
    }
  }

  /** Without ties the coefficient is 1 − 3·Σ(R_X − R_Y)²/(k³−k): it lies in
      [0, 1], as documented, and it is 1 exactly when the two rankings are
      identical. */
  lemma NoTiesInUnit(bs: seq<Bucket>)
    requires NoTies(bs) && |bs| >= 2
    ensures Coefficient(bs) == Fin(1.0 - RankGap(bs) / Denominator(|bs|))
    ensures 0.0 <= Coefficient(bs).v <= 1.0
    ensures Coefficient(bs).v == 1.0 <==> Ranks(bs, DefaultsOf) == Ranks(bs, MeanPdOf)
  {
    var n := |bs|;
    var d := Denominator(n);
    DenominatorPositive(n);
    NumeratorSplit(bs);
    CentredRanks(bs, DefaultsOf);
    CentredRanks(bs, MeanPdOf);
    assert Numerator(bs) == d - RankGap(bs);
    NumeratorNonNegative(bs);
    GapNonNegative(bs);
    OneMinusRatio(d, RankGap(bs));
  }

  lemma OneMinusRatio(d: real, g: real)
    requires d > 0.0 && 0.0 <= g <= d
    ensures (d - g) / d == 1.0 - g / d
    ensures 0.0 <= 1.0 - g / d <= 1.0
    ensures 1.0 - g / d == 1.0 <==> g == 0.0
  {
    PositiveRatio(g, d);
    assert (1.0 - g / d) * d == d - g;
    DivideBack(d - g, d, 1.0 - g / d);
  }

  lemma DivideBack(a: real, d: real, q: real)
    requires d != 0.0 && q * d == a
    ensures a / d == q
  {
  }

  lemma PositiveRatio(g: real, d: real)
    requires d > 0.0 && 0.0 <= g <= d
    ensures 0.0 <= g / d <= 1.0
    ensures g / d == 0.0 <==> g == 0.0
  {
    assert g / d * d == g;
  }

  /** With every bucket tied on both keys all ranks are 1 and the coefficient
      is 3(k−1)/(k+1), above 1 from three buckets on: the documented range does
      not hold once ties occur. */
  lemma AllTied(bs: seq<Bucket>)
    requires |bs| >= 2
    requires forall i :: 0 <= i < |bs| ==> bs[i].defaults == bs[0].defaults && bs[i].meanPd == bs[0].meanPd
    ensures Coefficient(bs) == Fin(3.0 * (|bs| as real - 1.0) / (|bs| as real + 1.0))
    ensures |bs| >= 3 ==> Coefficient(bs).v > 1.0
  {
    var x := |bs| as real;
    TiedNumerator(bs);
    DenominatorPositive(|bs|);
    TiedValue(x, Numerator(bs), Denominator(|bs|));
  }

  /** All ranks 1, so every row sum 2 sits k − 1 below the centre k + 1. */
  lemma TiedNumerator(bs: seq<Bucket>)
    requires forall i :: 0 <= i < |bs| ==> bs[i].defaults == bs[0].defaults && bs[i].meanPd == bs[0].meanPd
    ensures Numerator(bs) == |bs| as real * ((1.0 - |bs| as real) * (1.0 - |bs| as real))
  {
    TiedDeviations(bs);
    ConstantNumerator(bs, (1.0 - |bs| as real) * (1.0 - |bs| as real));
  }

  /** When every row deviates from the centre by the same amount, the
      numerator is that amount once per bucket. */
  lemma ConstantNumerator(bs: seq<Bucket>, v: real)
    requires forall i :: 0 <= i < |RankTable(bs)| ==> Deviation(Centre(|bs|))(RankTable(bs)[i]) == v
    ensures Numerator(bs) == |bs| as real * v
  {
    SumConstant(RankTable(bs), Deviation(Centre(|bs|)), v);
  }

  lemma TiedDeviations(bs: seq<Bucket>)
    requires forall i :: 0 <= i < |bs| ==> bs[i].defaults == bs[0].defaults && bs[i].meanPd == bs[0].meanPd
    ensures forall i :: 0 <= i < |RankTable(bs)| ==>
              Deviation(Centre(|bs|))(RankTable(bs)[i]) == (1.0 - |bs| as real) * (1.0 - |bs| as real)
  {
    TiedDeviation(|bs|);
    forall i | 0 <= i < |RankTable(bs)|
      ensures Deviation(Centre(|bs|))(RankTable(bs)[i]) == (1.0 - |bs| as real) * (1.0 - |bs| as real)
    {
      TiedRow(bs, i);
    }
  }

  /** With every bucket tied, each bucket has rank 1 on both columns. */
  lemma TiedRow(bs: seq<Bucket>, i: nat)
    requires forall j :: 0 <= j < |bs| ==> bs[j].defaults == bs[0].defaults && bs[j].meanPd == bs[0].meanPd
    requires i < |bs|
    ensures RankTable(bs)[i] == (1.0, 1.0)
  {
    var b := bs[i];
    forall j | 0 <= j < |bs| ensures AtMost(DefaultsOf, b.defaults)(bs[j]) && AtMost(MeanPdOf, b.meanPd)(bs[j]) {
      assert DefaultsOf(bs[j]) == b.defaults && MeanPdOf(bs[j]) == b.meanPd;
    }
    CountBounds(bs, AtMost(DefaultsOf, b.defaults));
    CountBounds(bs, AtMost(MeanPdOf, b.meanPd));
    assert MaxRank(bs, DefaultsOf, b.defaults) == |bs| && MaxRank(bs, MeanPdOf, b.meanPd) == |bs|;
    assert RankPair(bs)(b) == (1.0, 1.0);
  }

  lemma TiedDeviation(n: nat)
    ensures Deviation(Centre(n))((1.0, 1.0)) == (1.0 - n as real) * (1.0 - n as real)
  {
  }

  lemma TiedValue(x: real, num: real, den: real)
    requires x >= 2.0
    requires num == x * ((1.0 - x) * (1.0 - x)) && den == Cubic(x) / 3.0
    ensures den > 0.0
    ensures num / den == 3.0 * (x - 1.0) / (x + 1.0)
    ensures x >= 3.0 ==> 3.0 * (x - 1.0) / (x + 1.0) > 1.0
  {
    assert den == x * (x - 1.0) * (x + 1.0) / 3.0;
    assert num * (x + 1.0) == 3.0 * (x - 1.0) * den;
    MulPositive(x, x - 1.0);
    MulPositive(x * (x - 1.0), x + 1.0);
    CrossDivide(num, den, 3.0 * (x - 1.0), x + 1.0);
    if x >= 3.0 {
      assert 3.0 * (x - 1.0) > x + 1.0;
      DivideBack(3.0 * (x - 1.0), x + 1.0, 3.0 * (x - 1.0) / (x + 1.0));
      RatioAboveOne(3.0 * (x - 1.0), x + 1.0);
    }
  }

  lemma RatioAboveOne(a: real, b: real)
    requires b > 0.0 && a > b
    ensures a / b > 1.0
  {
    assert a / b * b == a;
  }

  lemma CrossDivide(a: real, b: real, c: real, d: real)
    requires b > 0.0 && d > 0.0 && a * d == c * b
    ensures a / b == c / d
  {
    assert a / b * b == a;
    assert c / d * d == c;
    assert (a / b) * b * d == (c / d) * d * b;
  }

  /** The coefficient depends only on which buckets there are, not on their
      order: ties included, a bucket's two ranks depend only on the multiset of
      buckets. */
  lemma CoefficientOrderFree(bs: seq<Bucket>, bs': seq<Bucket>)
    requires multiset(bs) == multiset(bs')
    ensures Coefficient(bs) == Coefficient(bs')
  {
    assert |bs| == |multiset(bs)| == |bs'|;
    var a := Centre(|bs|);
    var f := BucketDeviation(bs);
    var f' := BucketDeviation(bs');
    SumAligned(RankTable(bs), bs, Deviation(a), f);
    SumAligned(RankTable(bs'), bs', Deviation(a), f');
    forall i | 0 <= i < |bs'| ensures f(bs'[i]) == f'(bs'[i]) {
      DeviationOrderFree(bs, bs', bs'[i]);
    }
    SumPermutation(bs, bs', f);
    SumCongruent(bs', f, f');
  }

  /** A bucket's ranks, and so its squared deviation, do not depend on the
      order of the buckets around it. */
  lemma DeviationOrderFree(bs: seq<Bucket>, bs': seq<Bucket>, b: Bucket)
    requires multiset(bs) == multiset(bs')
    ensures BucketDeviation(bs)(b) == BucketDeviation(bs')(b)
  {
    assert |bs| == |multiset(bs)| == |bs'|;
    CountPermutation(bs, bs', AtMost(DefaultsOf, b.defaults));
    CountPermutation(bs, bs', AtMost(MeanPdOf, b.meanPd));
    assert RankPair(bs)(b) == RankPair(bs')(b);
  }

  function BucketDeviation(bs: seq<Bucket>): Bucket -> real
  {
    b => Deviation(Centre(|bs|))(RankPair(bs)(b))
  }

  /** With 14 rating grades the denominator is 910, so without ties the value
      0.83956044 the repository's test expects is 764/910: the two rankings
      differ by 146 in total squared rank distance. */
  lemma FourteenGrades(bs: seq<Bucket>)
    requires |bs| == 14 && NoTies(bs)
    requires Coefficient(bs) == Fin(764.0 / 910.0)
    ensures RankGap(bs) == 146.0
  {
    NoTiesInUnit(bs);
    assert Denominator(14) == 910.0;
  }

  /** `Coefficient_of_concordance(df, defaults_col, PDs_col, ratings_col)`. */
  function ConcordanceTest(t: Table, defaultsCol: Arg, pdsCol: Arg, ratingsCol: Arg,
                           setOrder: set<real> -> seq<real>): (r: Result<Float>)
    requires Rectangular(t) && IsSetOrder(setOrder)
    ensures ValidateObligors(t, defaultsCol, pdsCol, ratingsCol).Err? ==>
              r == Err(ValidateObligors(t, defaultsCol, pdsCol, ratingsCol).failure)
    ensures ValidateObligors(t, defaultsCol, pdsCol, ratingsCol).Ok? ==>
              var rows := ValidateObligors(t, defaultsCol, pdsCol, ratingsCol).value;
              r.Ok? && (r.value.NaN? <==> |Ratings(rows)| == 1)
    ensures r.Ok? && !r.value.NaN? ==> r.value.Fin? && r.value.v >= 0.0
  {
    var rows :- ValidateObligors(t, defaultsCol, pdsCol, ratingsCol);
    var order := setOrder(Ratings(rows));
    EnumeratedRatingsOccur(rows, order);
    EnumerationSize(order, Ratings(rows));
    assert rows[0].rating in Ratings(rows);
    Ok(Coefficient(Aggregate(rows, order)))
  }

  /** The test's value does not depend on the iteration order of the rating set. */
  lemma ConcordanceOrderFree(rows: seq<Obligor>, o1: seq<real>, o2: seq<real>)
    requires Enumerates(o1, Ratings(rows)) && Enumerates(o2, Ratings(rows))
    ensures AllOccur(rows, o1) && AllOccur(rows, o2)
    ensures Coefficient(Aggregate(rows, o1)) == Coefficient(Aggregate(rows, o2))
  {
    BucketsOrderFree(rows, o1, o2);
    CoefficientOrderFree(Aggregate(rows, o1), Aggregate(rows, o2));
  }
}
