/** Obligor rows and the per-rating bucket summary several tests share: for each
    rating, the number of rows, the sum of default flags and the mean PD
    (risktests/Binomial_test.py:85-90, risktests/Somers_d.py:74-77). */
module Buckets {
  import opened Seqs
  import opened Frame
  import opened Outcomes

  /** One obligor: its rating, its default flag (0 or 1 in practice; the source
      does not check) and its probability of default. */
  datatype Obligor = Obligor(rating: real, flag: real, pd: real)

  function RatingOf(o: Obligor): real { o.rating }
  function FlagOf(o: Obligor): real { o.flag }
  function PdOf(o: Obligor): real { o.pd }
  function One<T>(x: T): real { 1.0 }

  /** The summary of one rating bucket. */
  datatype Bucket = Bucket(rating: real, size: nat, defaults: real, meanPd: real)

  function SizeOf(b: Bucket): real { b.size as real }
  function DefaultsOf(b: Bucket): real { b.defaults }

  /** The rows of rating `r`: `df[df[ratings_col] == r]`. */
  function Members(rows: seq<Obligor>, r: real): seq<Obligor>
  {
    Select(rows, RatingOf, r)
  }

  /** The ratings present in the rows: `set(df[ratings_col])`. */
  function Ratings(rows: seq<Obligor>): set<real>
  {
    KeySet(rows, RatingOf)
  }

  /** `r` is the rating of some row. */
  predicate Occurs(rows: seq<Obligor>, r: real)
  {
    exists i :: 0 <= i < |rows| && rows[i].rating == r
  }

  /** Every rating listed occurs in the rows. */
  predicate AllOccur(rows: seq<Obligor>, order: seq<real>)
  {
    forall r :: r in order ==> Occurs(rows, r)
  }

  lemma OccursMember(rows: seq<Obligor>, r: real)
    requires Occurs(rows, r)
    ensures |Members(rows, r)| >= 1
  {
    var i :| 0 <= i < |rows| && rows[i].rating == r;
    assert rows[i] in Members(rows, r);
  }

  lemma RatingsOccur(rows: seq<Obligor>, r: real)
    requires r in Ratings(rows)
    ensures Occurs(rows, r)
  {
  }

  /** Mean of the PDs of a nonempty group: `np.mean(g[PDs_col])`. */
  function MeanPd(g: seq<Obligor>): real
    requires |g| > 0
  {
    Sum(g, PdOf) / |g| as real
  }

  /** The bucket of rating `r`: `n_g` counts the rows of that rating, `n_1g`
      sums their default flags, and the mean PD is the sum of their PDs over
      `n_g`. */
  function Summarise(rows: seq<Obligor>, r: real): (b: Bucket)
    requires Occurs(rows, r)
    ensures b.rating == r && b.size >= 1
    ensures b.size == Count(rows, KeyIs(RatingOf, r))
    ensures b.defaults == Sum(rows, Where(RatingOf, r, FlagOf))
    ensures b.meanPd == Sum(rows, Where(RatingOf, r, PdOf)) / b.size as real
  {
    var g := Members(rows, r);
    MembersFacts(rows, r);
    Bucket(r, |g|, Sum(g, FlagOf), MeanPd(g))
  }

  lemma MembersFacts(rows: seq<Obligor>, r: real)
    requires Occurs(rows, r)
    ensures |Members(rows, r)| >= 1
    ensures |Members(rows, r)| == Count(rows, KeyIs(RatingOf, r))
    ensures Sum(Members(rows, r), FlagOf) == Sum(rows, Where(RatingOf, r, FlagOf))
    ensures Sum(Members(rows, r), PdOf) == Sum(rows, Where(RatingOf, r, PdOf))
  {
    OccursMember(rows, r);
    SelectSum(rows, RatingOf, r, FlagOf);
    SelectSum(rows, RatingOf, r, PdOf);
  }

  /** One bucket per rating, in the iteration order `order` of the rating set. */
  function Aggregate(rows: seq<Obligor>, order: seq<real>): (bs: seq<Bucket>)
    requires AllOccur(rows, order)
    ensures |bs| == |order|
    ensures forall k :: 0 <= k < |order| ==> bs[k].rating == order[k] && bs[k].size >= 1
  {
    if |order| == 0 then []
    else [Summarise(rows, order[0])] + Aggregate(rows, order[1..])
  }

  lemma {:induction false} AggregateIsPointwise(rows: seq<Obligor>, order: seq<real>)
    requires AllOccur(rows, order)
    ensures forall k :: 0 <= k < |order| ==> Aggregate(rows, order)[k] == Summarise(rows, order[k])
    decreases |order|
  {
    if |order| > 0 {
      AggregateIsPointwise(rows, order[1..]);
    }
  }

  lemma {:induction false} AggregateAppend(rows: seq<Obligor>, a: seq<real>, b: seq<real>)
    requires AllOccur(rows, a) && AllOccur(rows, b)
    ensures AllOccur(rows, a + b)
    ensures Aggregate(rows, a + b) == Aggregate(rows, a) + Aggregate(rows, b)
    decreases |a|
  {
    if |a| == 0 {
      assert a + b == b;
    } else {
      assert (a + b)[1..] == a[1..] + b;
      AggregateAppend(rows, a[1..], b);
    }
  }

  /** Taking out the `i`-th rating takes out its bucket. */
  lemma AggregateSplit(rows: seq<Obligor>, b: seq<real>, i: nat)
    requires AllOccur(rows, b) && i < |b|
    ensures AllOccur(rows, b[..i] + b[i + 1..])
    ensures multiset(Aggregate(rows, b))
         == multiset{Summarise(rows, b[i])} + multiset(Aggregate(rows, b[..i] + b[i + 1..]))
  {
    assert b == b[..i] + b[i..];
    AggregateAppend(rows, b[..i], b[i..]);
    AggregateAppend(rows, b[..i], b[i + 1..]);
    assert b[i..][1..] == b[i + 1..];
    assert Aggregate(rows, b[i..]) == [Summarise(rows, b[i])] + Aggregate(rows, b[i + 1..]);
  }

  /** Permuting the ratings permutes the buckets. */
  lemma {:induction false} AggregatePermutation(rows: seq<Obligor>, a: seq<real>, b: seq<real>)
    requires AllOccur(rows, a) && AllOccur(rows, b)
    requires multiset(a) == multiset(b)
    ensures multiset(Aggregate(rows, a)) == multiset(Aggregate(rows, b))
    decreases |a|
  {
    if |a| == 0 {
      assert |multiset(b)| == 0;
    } else {
      var i := RemoveFirst(a, b);
      var rest := b[..i] + b[i + 1..];
      AggregateSplit(rows, b, i);
      AggregatePermutation(rows, a[1..], rest);
    }
  }

  /** Any two iteration orders of the rating set give the same buckets, in
      some order. */
  lemma BucketsOrderFree(rows: seq<Obligor>, o1: seq<real>, o2: seq<real>)
    requires Enumerates(o1, Ratings(rows)) && Enumerates(o2, Ratings(rows))
    ensures AllOccur(rows, o1) && AllOccur(rows, o2)
    ensures multiset(Aggregate(rows, o1)) == multiset(Aggregate(rows, o2))
  {
    EnumeratedRatingsOccur(rows, o1);
    EnumeratedRatingsOccur(rows, o2);
    EnumerationsPermute(o1, o2, Ratings(rows));
    AggregatePermutation(rows, o1, o2);
  }

  lemma {:induction false} SumOne<T>(s: seq<T>)
    ensures Sum(s, One) == |s| as real
    decreases |s|
  {
    if |s| > 0 {
      SumOne(s[1..]);
    }
  }

  lemma {:induction false} AggregateSizes(rows: seq<Obligor>, order: seq<real>)
    requires AllOccur(rows, order)
    ensures Sum(Aggregate(rows, order), SizeOf) == SumByKey(rows, RatingOf, order, One)
    decreases |order|
  {
    if |order| > 0 {
      SumOne(Members(rows, order[0]));
      AggregateSizes(rows, order[1..]);
    }
  }

  lemma {:induction false} AggregateDefaults(rows: seq<Obligor>, order: seq<real>)
    requires AllOccur(rows, order)
    ensures Sum(Aggregate(rows, order), DefaultsOf) == SumByKey(rows, RatingOf, order, FlagOf)
    decreases |order|
  {
    if |order| > 0 {
      AggregateDefaults(rows, order[1..]);
    }
  }

  /** An enumeration of the rating set names only ratings that occur. */
  lemma EnumeratedRatingsOccur(rows: seq<Obligor>, order: seq<real>)
    requires Enumerates(order, Ratings(rows))
    ensures AllOccur(rows, order)
    ensures forall x :: x in rows ==> x.rating in order
  {
    forall k | 0 <= k < |order| ensures Occurs(rows, order[k]) {
      assert order[k] in order;
      RatingsOccur(rows, order[k]);
    }
    EnumerationCovers(rows, RatingOf, order);
  }

  /** The buckets partition the table: their sizes add up to the number of rows and
      their default counts to the table's default count. */
  lemma BucketsPartition(rows: seq<Obligor>, order: seq<real>)
    requires Enumerates(order, Ratings(rows))
    ensures AllOccur(rows, order)
    ensures Sum(Aggregate(rows, order), SizeOf) == |rows| as real
    ensures Sum(Aggregate(rows, order), DefaultsOf) == Sum(rows, FlagOf)
  {
    EnumeratedRatingsOccur(rows, order);
    AggregateSizes(rows, order);
    SumByKeyPartition(rows, RatingOf, order, One);
    SumOne(rows);
    AggregateDefaults(rows, order);
    SumByKeyPartition(rows, RatingOf, order, FlagOf);
  }

  /** Each row of the table as an obligor, read from the rating, flag and PD
      columns at positions `cr`, `cf` and `cp`. */
  function Obligors(t: Table, cr: nat, cf: nat, cp: nat): (rows: seq<Obligor>)
    requires Rectangular(t)
    requires cr < |t.header| && cf < |t.header| && cp < |t.header|
    requires !HasMissing(t, cr) && !HasMissing(t, cf) && !HasMissing(t, cp)
    ensures |rows| == |t.rows|
    ensures forall i :: 0 <= i < |rows| ==>
              t.rows[i][cr] == Num(rows[i].rating) && t.rows[i][cf] == Num(rows[i].flag)
              && t.rows[i][cp] == Num(rows[i].pd)
  {
    var rs := Values(t, cr);
    var fs := Values(t, cf);
    var ps := Values(t, cp);
    seq(|t.rows|, i requires 0 <= i < |t.rows| => Obligor(rs[i], fs[i], ps[i]))
  }

  /** All PDs lie in [0, 1]. */
  predicate PdsInUnit(rows: seq<Obligor>)
  {
    forall i :: 0 <= i < |rows| ==> 0.0 <= rows[i].pd <= 1.0
  }

  lemma {:induction false} SumBounds(g: seq<Obligor>)
    requires PdsInUnit(g)
    ensures 0.0 <= Sum(g, PdOf) <= |g| as real
    decreases |g|
  {
    if |g| > 0 {
      SumBounds(g[1..]);
    }
  }

  lemma SelectKeepsPds(rows: seq<Obligor>, r: real)
    requires PdsInUnit(rows)
    ensures PdsInUnit(Members(rows, r))
  {
    var g := Members(rows, r);
    forall i | 0 <= i < |g| ensures 0.0 <= g[i].pd <= 1.0 {
      var j :| 0 <= j < |rows| && rows[j] == g[i];
    }
  }

  /** A mean PD is a PD: with every PD in [0, 1], so is each bucket's mean. */
  lemma MeanPdInUnit(rows: seq<Obligor>, r: real)
    requires PdsInUnit(rows) && Occurs(rows, r)
    ensures 0.0 <= Summarise(rows, r).meanPd <= 1.0
  {
    var g := Members(rows, r);
    SelectKeepsPds(rows, r);
    SumBounds(g);
    OccursMember(rows, r);
    RatioInUnit(Sum(g, PdOf), |g| as real);
  }

  lemma RatioInUnit(s: real, n: real)
    requires n > 0.0 && 0.0 <= s <= n
    ensures 0.0 <= s / n <= 1.0
  {
    assert s / n * n == s;
  }

  /** The ladder of the tests that read a defaults, a ratings and a PDs column:
      None, type and column checks in the order defaults, ratings, PDs, then the
      NaN scan in the order ratings, defaults, PDs
      (risktests/Binomial_test.py:41-72). On success, the rows as obligors. */
  function ValidateObligors(t: Table, defaultsCol: Arg, pdsCol: Arg, ratingsCol: Arg): (r: Result<seq<Obligor>>)
    requires Rectangular(t)
    ensures r.Err? <==> Validate(t, [defaultsCol, ratingsCol, pdsCol], [1, 0, 2]).Err?
    ensures r.Err? ==> r.failure == Validate(t, [defaultsCol, ratingsCol, pdsCol], [1, 0, 2]).failure
    ensures r.Ok? ==> |r.value| == |t.rows| > 0
    ensures r.Ok? ==> forall i :: 0 <= i < |t.rows| ==>
              && t.rows[i][ColumnIndex(t.header, ratingsCol.name)] == Num(r.value[i].rating)
              && t.rows[i][ColumnIndex(t.header, defaultsCol.name)] == Num(r.value[i].flag)
              && t.rows[i][ColumnIndex(t.header, pdsCol.name)] == Num(r.value[i].pd)
  {
    var args := [defaultsCol, ratingsCol, pdsCol];
    var cols :- Validate(t, args, [1, 0, 2]);
    ValidatedColumnsComplete(t, args, [1, 0, 2], 0);
    ValidatedColumnsComplete(t, args, [1, 0, 2], 1);
    ValidatedColumnsComplete(t, args, [1, 0, 2], 2);
    Ok(Obligors(t, cols[1], cols[0], cols[2]))
  }
}
