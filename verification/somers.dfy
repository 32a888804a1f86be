/** Somers' D between the default counts and the mean PDs of the rating
    buckets (risktests/Somers_d.py): every pair of buckets is labelled by
    whether the first is below the second, once on defaults and once on PDs;
    matching labels are concordant, the rest discordant. */
module Somers {
  import opened Seqs
  import opened Frame
  import opened Outcomes
  import opened Buckets

  /** `'a<b' if a < b else 'a>b'` on both coordinates gives the same label.
      A tie is labelled 'a>b'. */
  predicate Agree(x: Bucket, y: Bucket)
  {
    (x.defaults < y.defaults) == (x.meanPd < y.meanPd)
  }

  function AgreesWith(x: Bucket): Bucket -> bool
  {
    y => Agree(x, y)
  }

  function DisagreesWith(x: Bucket): Bucket -> bool
  {
    y => !Agree(x, y)
  }

  /** C: concordant pairs among the combinations of `bs` taken two at a time,
      in list order. */
  function Concordant(bs: seq<Bucket>): nat
  {
    if |bs| == 0 then 0 else Count(bs[1..], AgreesWith(bs[0])) + Concordant(bs[1..])
  }

  /** D: discordant pairs. */
  function Discordant(bs: seq<Bucket>): nat
  {
    if |bs| == 0 then 0 else Count(bs[1..], DisagreesWith(bs[0])) + Discordant(bs[1..])
  }

  /** `len(list(combinations(X, 2)))`: k choose 2. */
  function Pairs(k: nat): nat
  {
    if k == 0 then 0 else (k - 1) + Pairs(k - 1)
  }

  lemma {:induction false} PairsClosedForm(k: nat)
    ensures 2 * Pairs(k) == k * (k - 1)
    decreases k
  {
    if k > 0 {
      PairsClosedForm(k - 1);
    }
  }

  lemma {:induction false} CountSplit(s: seq<Bucket>, x: Bucket)
    ensures Count(s, AgreesWith(x)) + Count(s, DisagreesWith(x)) == |s|
    decreases |s|
  {
    if |s| > 0 {
      CountSplit(s[1..], x);
    }
  }

  /** Every pair is concordant or discordant, never both. */
  lemma {:induction false} PairsTotal(bs: seq<Bucket>)
    ensures Concordant(bs) + Discordant(bs) == Pairs(|bs|)
    decreases |bs|
  {
    if |bs| > 0 {
      CountSplit(bs[1..], bs[0]);
      PairsTotal(bs[1..]);
    }
  }

  /** `W = (C - D) / max(#pairs of X, #pairs of Y)`; both lists have one entry
      per bucket, so the maximum is k choose 2, and with fewer than two buckets
      Python's integer division by zero raises. */
  function SomersD(bs: seq<Bucket>): (r: Result<real>)
    ensures r.Err? <==> |bs| < 2
    ensures r.Err? ==> r.failure == ZeroDivision
    ensures r.Ok? ==> -1.0 <= r.value <= 1.0
    ensures r.Ok? ==> (r.value == 1.0 <==> Discordant(bs) == 0)
    ensures r.Ok? ==> (r.value == -1.0 <==> Concordant(bs) == 0)
  {
    var k := |bs|;
    var p := Pairs(k);
    PairsTotal(bs);
    PairsClosedForm(k);
    if p == 0 then
      Err(ZeroDivision)
    else
      var w := (Concordant(bs) as int - Discordant(bs) as int) as real / p as real;
      WBounds(Concordant(bs) as real, Discordant(bs) as real, p as real);
      Ok(w)
  }

  lemma WBounds(c: real, d: real, p: real)
    requires c >= 0.0 && d >= 0.0 && p > 0.0 && c + d == p
    ensures -1.0 <= (c - d) / p <= 1.0
    ensures (c - d) / p == 1.0 <==> d == 0.0
    ensures (c - d) / p == -1.0 <==> c == 0.0
  {
    var w := (c - d) / p;
    assert w * p == c - d;
    assert p * (w - 1.0) == -2.0 * d;
    assert p * (w + 1.0) == 2.0 * c;
    PositiveScale(p, w - 1.0);
    PositiveScale(p, w + 1.0);
  }

  /** Multiplying by a positive number keeps the sign. */
  lemma PositiveScale(p: real, x: real)
    requires p > 0.0
    ensures p * x <= 0.0 <==> x <= 0.0
    ensures p * x >= 0.0 <==> x >= 0.0
    ensures p * x == 0.0 <==> x == 0.0
  {
  }

  /** With 14 rating grades (91 pairs), the value the repository's test expects,
      0.538461538461538 = 7/13, pins the counts down: 70 pairs concordant and
      21 discordant. */
  lemma FourteenGradesSevenThirteenths(bs: seq<Bucket>)
    requires |bs| == 14 && SomersD(bs) == Ok(7.0 / 13.0)
    ensures Concordant(bs) == 70 && Discordant(bs) == 21
  {
    PairsTotal(bs);
    assert Pairs(14) == 91;
    var c, d := Concordant(bs) as int, Discordant(bs) as int;
    assert (c - d) as real / 91.0 == 7.0 / 13.0;
    assert c - d == 49;
  }

  /** No two different buckets tie on defaults or on mean PD. */
  predicate NoTies(bs: seq<Bucket>)
  {
    forall x, y :: x in bs && y in bs && x != y ==> x.defaults != y.defaults && x.meanPd != y.meanPd
  }

  /** Without ties the pair label is symmetric. */
  lemma AgreeSymmetric(bs: seq<Bucket>, x: Bucket, y: Bucket)
    requires NoTies(bs) && x in bs && y in bs
    ensures Agree(x, y) == Agree(y, x)
  {
  }

  /** For each bucket, the number of buckets of `inner` it agrees with. */
  function AgreeCount(inner: seq<Bucket>): Bucket -> real
  {
    x => Count(inner, AgreesWith(x)) as real
  }

  function AgreedBy(x: Bucket): Bucket -> bool
  {
    y => Agree(y, x)
  }

  /** Counting ordered pairs (including each bucket with itself) gives k + 2C. */
  lemma {:induction false} OrderedPairs(bs: seq<Bucket>)
    requires NoTies(bs)
    ensures Sum(bs, AgreeCount(bs)) == |bs| as real + 2.0 * Concordant(bs) as real
    decreases |bs|
  {
    if |bs| > 0 {
      var x := bs[0];
      var t := bs[1..];
      assert bs == [x] + t;
      assert NoTies(t);
      OrderedPairs(t);
      assert Count(bs, AgreesWith(x)) == 1 + Count(t, AgreesWith(x));
      forall i | 0 <= i < |t|
        ensures AgreeCount(bs)(t[i]) == Indicator(AgreedBy(x))(t[i]) + AgreeCount(t)(t[i])
      {
        assert ([x] + t)[1..] == t;
      }
      SumAdd(t, Indicator(AgreedBy(x)), AgreeCount(t), AgreeCount(bs));
      SumIndicator(t, AgreedBy(x));
      forall i | 0 <= i < |t| ensures AgreedBy(x)(t[i]) == AgreesWith(x)(t[i]) {
        AgreeSymmetric(bs, t[i], x);
      }
      CountCongruent(t, AgreedBy(x), AgreesWith(x));
    }
  }

  /** Without ties Somers' D does not depend on the order of the buckets, that
      is, on the iteration order of the rating set. */
  lemma SomersOrderFree(bs: seq<Bucket>, bs': seq<Bucket>)
    requires NoTies(bs) && multiset(bs) == multiset(bs')
    ensures SomersD(bs) == SomersD(bs')
  {
    assert |bs| == |multiset(bs)| == |bs'|;
    ConcordantOrderFree(bs, bs');
    PairsTotal(bs);
    PairsTotal(bs');
    SomersFromCounts(bs, bs');
  }

  /** Without ties the number of concordant pairs does not depend on the order. */
  lemma ConcordantOrderFree(bs: seq<Bucket>, bs': seq<Bucket>)
    requires NoTies(bs) && multiset(bs) == multiset(bs')
    ensures Concordant(bs) == Concordant(bs')
  {
    assert |bs| == |multiset(bs)| == |bs'|;
    NoTiesPermutation(bs, bs');
    OrderedPairs(bs);
    OrderedPairs(bs');
    forall i | 0 <= i < |bs'| ensures AgreeCount(bs')(bs'[i]) == AgreeCount(bs)(bs'[i]) {
      CountPermutation(bs, bs', AgreesWith(bs'[i]));
    }
    SumCongruent(bs', AgreeCount(bs'), AgreeCount(bs));
    SumPermutation(bs, bs', AgreeCount(bs));
  }

  lemma NoTiesPermutation(bs: seq<Bucket>, bs': seq<Bucket>)
    requires NoTies(bs) && multiset(bs) == multiset(bs')
    ensures NoTies(bs')
  {
    forall x ensures x in bs <==> x in bs' {
      assert x in bs <==> x in multiset(bs);
      assert x in bs' <==> x in multiset(bs');
    }
  }

  /** The statistic depends only on the number of buckets and the two counts. */
  lemma SomersFromCounts(bs: seq<Bucket>, bs': seq<Bucket>)
    requires |bs| == |bs'| && Concordant(bs) == Concordant(bs') && Discordant(bs) == Discordant(bs')
    ensures SomersD(bs) == SomersD(bs')
  {
  }

  /** With ties the result depends on the order: two buckets with equal default
      counts and different PDs give -1 one way round and 1 the other. */
  lemma TiesMakeOrderMatter()
    ensures SomersD([Bucket(1.0, 10, 1.0, 0.1), Bucket(2.0, 10, 1.0, 0.2)]) == Ok(-1.0)
    ensures SomersD([Bucket(2.0, 10, 1.0, 0.2), Bucket(1.0, 10, 1.0, 0.1)]) == Ok(1.0)
  {
    var a := Bucket(1.0, 10, 1.0, 0.1);
    var b := Bucket(2.0, 10, 1.0, 0.2);
    assert [a, b][1..] == [b];
    assert [b, a][1..] == [a];
    assert [b][1..] == [];
    assert [a][1..] == [];
    assert !AgreesWith(a)(b) && DisagreesWith(a)(b);
    assert AgreesWith(b)(a) && !DisagreesWith(b)(a);
    assert Count([b], AgreesWith(a)) == 0 && Count([b], DisagreesWith(a)) == 1;
    assert Count([a], AgreesWith(b)) == 1 && Count([a], DisagreesWith(b)) == 0;
    assert Concordant([b]) == 0 && Discordant([b]) == 0;
    assert Concordant([a]) == 0 && Discordant([a]) == 0;
    assert Concordant([a, b]) == 0 && Discordant([a, b]) == 1;
    assert Concordant([b, a]) == 1 && Discordant([b, a]) == 0;
  }

  /** `Somersd(df, ratings_col, PDs_col, defaults_col)`: the buckets in the
      iteration order `setOrder` gives the rating set. */
  function SomersTest(t: Table, defaultsCol: Arg, pdsCol: Arg, ratingsCol: Arg,
                      setOrder: set<real> -> seq<real>): (r: Result<real>)
    requires Rectangular(t) && IsSetOrder(setOrder)
    ensures ValidateObligors(t, defaultsCol, pdsCol, ratingsCol).Err? ==>
              r == Err(ValidateObligors(t, defaultsCol, pdsCol, ratingsCol).failure)
    ensures ValidateObligors(t, defaultsCol, pdsCol, ratingsCol).Ok? ==>
              var rows := ValidateObligors(t, defaultsCol, pdsCol, ratingsCol).value;
              (r == Err(ZeroDivision) <==> |Ratings(rows)| < 2)
    ensures r.Ok? ==> -1.0 <= r.value <= 1.0
  {
    var rows :- ValidateObligors(t, defaultsCol, pdsCol, ratingsCol);
    var order := setOrder(Ratings(rows));
    EnumeratedRatingsOccur(rows, order);
    EnumerationSize(order, Ratings(rows));
    SomersD(Aggregate(rows, order))
  }

  /** Without ties among the buckets, the test's value does not depend on the
      iteration order of the rating set. */
  lemma SomersTestOrderFree(rows: seq<Obligor>, o1: seq<real>, o2: seq<real>)
    requires Enumerates(o1, Ratings(rows)) && Enumerates(o2, Ratings(rows))
    requires AllOccur(rows, o1) && NoTies(Aggregate(rows, o1))
    ensures AllOccur(rows, o2)
    ensures SomersD(Aggregate(rows, o1)) == SomersD(Aggregate(rows, o2))
  {
    BucketsOrderFree(rows, o1, o2);
    SomersOrderFree(Aggregate(rows, o1), Aggregate(rows, o2));
  }
}
