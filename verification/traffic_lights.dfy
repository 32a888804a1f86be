/** The traffic-light approach (risktests/Traffic_lights_approach.py): the
    default counts of the rating buckets, their 95% quantile, a light for every
    distinct count, and the lights written positionally next to the ratings. */
module TrafficLights {
  import opened Seqs
  import opened Frame
  import opened Outcomes

  datatype Light = Green | Yellow | Red

  /** The quantile level of both `c_low` and `c_high`. */
  const Level: real := 0.95

  /** The sorted sample starts at the minimum and ends at the maximum. */
  lemma SortedEnds(xs: seq<real>)
    requires |xs| > 0
    ensures |Sort(xs)| == |xs|
    ensures Sort(xs)[0] == Min(xs) && Sort(xs)[|xs| - 1] == Max(xs)
  {
    var s := Sort(xs);
    assert |s| == |multiset(s)| == |multiset(xs)| == |xs|;
    SortedLast(xs, s);
    SortedFirst(xs, s);
  }

  lemma SortedLast(xs: seq<real>, s: seq<real>)
    requires |xs| > 0 && |s| == |xs| && SortedAsc(s) && multiset(s) == multiset(xs)
    ensures s[|xs| - 1] == Max(xs)
  {
    var last := s[|s| - 1];
    assert last in multiset(xs);
    var i :| 0 <= i < |xs| && xs[i] == last;
    assert Max(xs) in multiset(s);
    var j :| 0 <= j < |s| && s[j] == Max(xs);
    assert s[j] <= last;
  }

  lemma SortedFirst(xs: seq<real>, s: seq<real>)
    requires |xs| > 0 && |s| == |xs| && SortedAsc(s) && multiset(s) == multiset(xs)
    ensures s[0] == Min(xs)
  {
    assert s[0] in multiset(xs);
    var i :| 0 <= i < |xs| && xs[i] == s[0];
    assert Min(xs) in multiset(s);
    var j :| 0 <= j < |s| && s[j] == Min(xs);
    assert s[0] <= s[j];
  }

  /** numpy's virtual position (n − 1)·q, its whole part and its fraction. */
  function Position(n: nat, q: real): real
  {
    (n - 1) as real * q
  }

  /** `np.quantile(xs, q)` with numpy's default linear method: the sorted sample
      read at the virtual position (n − 1)·q, interpolating between the two
      neighbouring entries. */
  function Quantile(xs: seq<real>, q: real): (c: real)
    requires |xs| > 0 && 0.0 <= q <= 1.0
    ensures Min(xs) <= c <= Max(xs)
  {
    SortedEnds(xs);
    VirtualIndex(|xs|, q);
    Interpolate(Sort(xs), Position(|xs|, q))
  }

  /** The sorted sample `s` read at virtual position `h`. */
  function Interpolate(s: seq<real>, h: real): (c: real)
    requires SortedAsc(s) && 0 <= h.Floor < |s| && 0.0 <= h - h.Floor as real < 1.0
    ensures s[0] <= c <= s[|s| - 1]
  {
    var lo := h.Floor;
    var g := h - lo as real;
    if lo + 1 < |s| then
      SortedRange(s, lo);
      SortedRange(s, lo + 1);
      Lerp(s[lo], s[lo + 1], g)
    else
      SortedRange(s, lo);
      s[lo]
  }

  lemma SortedRange(s: seq<real>, i: nat)
    requires SortedAsc(s) && i < |s|
    ensures s[0] <= s[i] <= s[|s| - 1]
    ensures i + 1 < |s| ==> s[i] <= s[i + 1]
  {
  }

  lemma VirtualIndex(n: nat, q: real)
    requires n > 0 && 0.0 <= q <= 1.0
    ensures 0 <= Position(n, q).Floor < n
    ensures 0.0 <= Position(n, q) - Position(n, q).Floor as real < 1.0
  {
    ScaleBelow((n - 1) as real, q);
    assert Position(n, q) == q * (n - 1) as real;
  }

  lemma ScaleBelow(x: real, q: real)
    requires x >= 0.0 && 0.0 <= q <= 1.0
    ensures 0.0 <= q * x <= x
  {
    assert x - q * x == (1.0 - q) * x;
    MulNonNegative(1.0 - q, x);
    MulNonNegative(q, x);
  }

  /** Linear interpolation from `a` towards `b` with weight `g`. */
  function Lerp(a: real, b: real, g: real): (c: real)
    requires a <= b && 0.0 <= g < 1.0
    ensures a <= c <= b
    ensures g > 0.0 && a < b ==> a < c
    ensures a == b ==> c == a
  {
    Between(a, b, g);
    a + g * (b - a)
  }

  /** Interpolating with a weight in [0, 1) stays between the two ends. */
  lemma Between(a: real, b: real, g: real)
    requires a <= b && 0.0 <= g < 1.0
    ensures a <= a + g * (b - a) <= b
    ensures g > 0.0 && a < b ==> a < a + g * (b - a)
    ensures a == b ==> a + g * (b - a) == a
  {
    var d := b - a;
    var p := g * d;
    ScaleBelow(d, g);
    assert 0.0 <= p <= d;
    if g > 0.0 && a < b {
      MulPositive(g, d);
      assert p > 0.0;
    }
    assert a + g * (b - a) == a + p;
  }

  /** The light of one distinct default count: below `c_low` Green, strictly
      between the two limits Yellow, otherwise Red. */
  function Classify(cLow: real, cHigh: real, x: real): Light
  {
    if x < cLow then Green
    else if x > cLow && x < cHigh then Yellow
    else Red
  }

  /** `Y`: one light per entry of `ds`, the iteration order of `set(X)`, with
      both limits the same 95% quantile of X. No light is Yellow, and a count is
      Green exactly when it lies below the quantile. */
  function Lights(xs: seq<real>, ds: seq<real>): (ys: seq<Light>)
    requires |xs| > 0
    ensures |ys| == |ds|
    ensures forall k :: 0 <= k < |ds| ==> ys[k] != Yellow
    ensures forall k :: 0 <= k < |ds| ==> (ys[k] == Green <==> ds[k] < Quantile(xs, Level))
    ensures forall k :: 0 <= k < |ds| ==> (ys[k] == Red <==> ds[k] >= Quantile(xs, Level))
  {
    var c := Quantile(xs, Level);
    Map(ds, x => Classify(c, c, x))
  }

  /** With at most 20 buckets the quantile lies above every count but the
      largest, so the largest is the only Red count. */
  lemma OnlyMaxIsRed(xs: seq<real>, x: real)
    requires 1 <= |xs| <= 20 && x in xs
    ensures x >= Quantile(xs, Level) <==> x == Max(xs)
  {
    var n := |xs|;
    var s := Sort(xs);
    SortedEnds(xs);
    if n >= 2 && x < Max(xs) {
      QuantileUnfold(xs);
      QuantileNearTop(xs, s, Position(n, Level));
      BelowSecondLargest(xs, s, x);
      SortedRange(s, n - 2);
    }
  }

  /** The quantile is the sorted sample read at the virtual position. */
  lemma QuantileUnfold(xs: seq<real>)
    requires |xs| > 0
    ensures |Sort(xs)| == |xs|
    ensures Quantile(xs, Level) == Interpolate(Sort(xs), Position(|xs|, Level))
  {
    SortedEnds(xs);
    VirtualIndex(|xs|, Level);
  }

  /** From 2 to 20 samples the quantile interpolates, with a positive weight,
      between the two largest entries. */
  lemma QuantileNearTop(xs: seq<real>, s: seq<real>, h: real)
    requires 2 <= |xs| <= 20 && s == Sort(xs) && |s| == |xs| && h == Position(|xs|, Level)
    requires Quantile(xs, Level) == Interpolate(s, h)
    ensures s[|s| - 2] <= s[|s| - 1]
    ensures 0.0 < h - (|s| - 2) as real < 1.0
    ensures Quantile(xs, Level) == Lerp(s[|s| - 2], s[|s| - 1], h - (|s| - 2) as real)
    ensures Quantile(xs, Level) == Lerp(s[|s| - 2], s[|s| - 1], (21 - |s|) as real / 20.0)
  {
    LastGap(|xs|);
    InterpolateAtTop(s, h);
    TopWeight(s[|s| - 2], s[|s| - 1], |s|, h);
  }

  /** From 2 to 20 counts, numpy's 95% quantile interpolates from the
      second-largest count towards the largest with weight (21 − n)/20. */
  lemma QuantileTopTwo(xs: seq<real>, s: seq<real>)
    requires 2 <= |xs| <= 20 && s == Sort(xs)
    ensures |s| == |xs| && s[|s| - 2] <= s[|s| - 1]
    ensures Quantile(xs, Level) == Lerp(s[|s| - 2], s[|s| - 1], (21 - |s|) as real / 20.0)
  {
    QuantileUnfold(xs);
    QuantileNearTop(xs, s, Position(|xs|, Level));
  }

  /** The weight of the largest count: 0.95·(n − 1) − (n − 2) = (21 − n)/20. */
  lemma TopWeight(a: real, b: real, n: nat, h: real)
    requires 2 <= n <= 20 && a <= b && h == Position(n, Level)
    ensures 0.0 <= h - (n - 2) as real < 1.0
    ensures Lerp(a, b, h - (n - 2) as real) == Lerp(a, b, (21 - n) as real / 20.0)
  {
    assert h - (n - 2) as real == (21 - n) as real / 20.0;
  }

  lemma InterpolateAtTop(s: seq<real>, h: real)
    requires SortedAsc(s) && |s| >= 2 && h.Floor == |s| - 2 && 0.0 < h - h.Floor as real < 1.0
    ensures s[|s| - 2] <= s[|s| - 1]
    ensures Interpolate(s, h) == Lerp(s[|s| - 2], s[|s| - 1], h - (|s| - 2) as real)
  {
    SortedRange(s, |s| - 2);
  }

  /** A value below the maximum is at most the second-largest entry. */
  lemma BelowSecondLargest(xs: seq<real>, s: seq<real>, x: real)
    requires |xs| >= 2 && x in xs
    requires SortedAsc(s) && multiset(s) == multiset(xs) && |s| == |xs| && x < s[|s| - 1]
    ensures x <= s[|s| - 2]
  {
    assert x in multiset(s);
    var k :| 0 <= k < |s| && s[k] == x;
    assert k <= |s| - 2;
    SortedRange(s, k);
  }

  /** From 2 to 20 samples the virtual position falls strictly between the
      last two entries. */
  lemma LastGap(n: nat)
    requires 2 <= n <= 20
    ensures Position(n, Level).Floor == n - 2
    ensures Position(n, Level) - (n - 2) as real > 0.0
  {
    FloorIs(Position(n, Level), n - 2);
  }

  lemma FloorIs(h: real, k: int)
    requires k as real <= h < k as real + 1.0
    ensures h.Floor == k
  {
  }

  /** With at most 20 buckets and `ds` listing the distinct counts once each,
      exactly one light is Red: the one of the largest count. */
  lemma {:induction false} SingleRed(xs: seq<real>, ds: seq<real>)
    requires 1 <= |xs| <= 20 && Enumerates(ds, set x | x in xs)
    ensures forall k :: 0 <= k < |ds| ==> (Lights(xs, ds)[k] == Red <==> ds[k] == Max(xs))
    ensures exists k :: 0 <= k < |ds| && Lights(xs, ds)[k] == Red
    ensures forall j, k :: (0 <= j < |ds| && 0 <= k < |ds| &&
              Lights(xs, ds)[j] == Red && Lights(xs, ds)[k] == Red) ==> j == k
  {
    var ys := Lights(xs, ds);
    forall k | 0 <= k < |ds| ensures ys[k] == Red <==> ds[k] == Max(xs) {
      assert ds[k] in ds;
      assert ds[k] in (set x | x in xs);
      OnlyMaxIsRed(xs, ds[k]);
    }
    assert Max(xs) in (set x | x in xs);
    assert Max(xs) in ds;
    var m :| 0 <= m < |ds| && ds[m] == Max(xs);
    assert ys[m] == Red;
  }

  /** `results['Traffic Light'] = Y`: the k-th light goes next to the k-th
      rating, whichever count produced it; pandas refuses a list of another
      length. */
  function AssignLights(keys: seq<Cell>, xs: seq<real>, ds: seq<real>): (r: Result<seq<(Cell, Light)>>)
    requires |xs| > 0
    ensures r.Err? <==> |ds| != |keys|
    ensures r.Err? ==> r.failure == LengthMismatch
    ensures r.Ok? ==> |r.value| == |keys|
    ensures r.Ok? ==> forall k :: 0 <= k < |keys| ==>
              && r.value[k].0 == keys[k]
              && r.value[k].1 != Yellow
              && (r.value[k].1 == Green <==> ds[k] < Quantile(xs, Level))
  {
    var ys := Lights(xs, ds);
    if |ys| != |keys| then Err(LengthMismatch)
    else Ok(seq(|keys|, k requires 0 <= k < |keys| => (keys[k], ys[k])))
  }

  /** The assignment is positional: here rating 1 has the larger count, 3, yet
      receives the light of the count 1 because `set(X)` lists 1 first. */
  lemma LightsArePositional()
    ensures AssignLights([Num(1.0), Num(2.0)], [3.0, 1.0], [1.0, 3.0])
         == Ok([(Num(1.0), Green), (Num(2.0), Red)])
  {
    var xs := [3.0, 1.0];
    QuantileExample();
    var r := AssignLights([Num(1.0), Num(2.0)], xs, [1.0, 3.0]);
    assert r.Ok? && |r.value| == 2;
    assert r.value[0] == (Num(1.0), Green);
    assert r.value[1] == (Num(2.0), Red);
    assert r.value == [(Num(1.0), Green), (Num(2.0), Red)];
  }

  /** The 95% quantile of the counts 3 and 1 is 2.9. */
  lemma QuantileExample()
    ensures Quantile([3.0, 1.0], Level) == 2.9
  {
    var xs := [3.0, 1.0];
    SortExample();
    QuantileUnfold(xs);
    assert Position(2, Level) == 0.95;
    FloorIs(0.95, 0);
    assert Interpolate([1.0, 3.0], 0.95) == Lerp(1.0, 3.0, 0.95) == 2.9;
  }

  /** Sorting the counts 3 and 1 swaps them. */
  lemma SortExample()
    ensures Sort([3.0, 1.0]) == [1.0, 3.0]
  {
    var xs := [3.0, 1.0];
    assert xs[1..] == [1.0];
    assert [1.0][1..] == [];
    assert Sort([1.0]) == Insert(1.0, []) == [1.0];
    assert Insert(3.0, [1.0]) == [1.0] + Insert(3.0, []) == [1.0, 3.0];
  }

  /** Two ratings with the same default count give fewer lights than ratings,
      and the assignment fails. */
  lemma EqualCountsFail()
    ensures AssignLights([Num(1.0), Num(2.0)], [2.0, 2.0], [2.0]) == Err(LengthMismatch)
  {
  }

  // ---------------------------------------------------------------------------
  // The whole test on a table

  /** One table row as the test reads it: the value of `ratings_col` and the
      default flag. */
  datatype Entry = Entry(rating: real, flag: real)

  function EntryRating(e: Entry): real { e.rating }
  function EntryFlag(e: Entry): real { e.flag }

  /** `temp[defaults_col].sum()` for `temp = df[df[ratings_col] == key]`: a NaN
      key equals nothing and selects no rows. */
  function BucketDefaults(es: seq<Entry>, key: Cell): real
  {
    if key.Num? then Sum(Select(es, EntryRating, key.v), EntryFlag) else 0.0
  }

  /** `X`: the default sum of each key, in the order of the keys. */
  function DefaultSums(es: seq<Entry>, keys: seq<Cell>): (xs: seq<real>)
    ensures |xs| == |keys|
    ensures forall k :: 0 <= k < |keys| ==> xs[k] == BucketDefaults(es, keys[k])
  {
    Map(keys, key => BucketDefaults(es, key))
  }

  function IsMissing(c: Cell): bool { c.Missing? }

  /** The numbers in a column. */
  function Numbers(cells: seq<Cell>): set<real>
  {
    set i | 0 <= i < |cells| && cells[i].Num? :: cells[i].v
  }

  /** `order` is one iteration order of `set(column)` for a column whose numbers
      form `nums` and which holds `missing` NaNs: every number once, and every
      NaN as an element of its own, since a NaN equals nothing. */
  ghost predicate EnumeratesCells(order: seq<Cell>, nums: set<real>, missing: nat)
  {
    && (forall x :: Num(x) in order <==> x in nums)
    && (forall i, j :: 0 <= i < j < |order| && order[i].Num? ==> order[i] != order[j])
    && Count(order, IsMissing) == missing
  }

  ghost predicate IsCellOrder(cellOrder: (set<real>, nat) -> seq<Cell>)
  {
    forall nums, missing :: EnumeratesCells(cellOrder(nums, missing), nums, missing)
  }

  function Column(t: Table, c: nat): (cells: seq<Cell>)
    requires Rectangular(t) && c < |t.header|
    ensures |cells| == |t.rows|
  {
    seq(|t.rows|, i requires 0 <= i < |t.rows| => t.rows[i][c])
  }

  function Entries(t: Table, cd: nat, cr: nat): (es: seq<Entry>)
    requires Rectangular(t) && cd < |t.header| && cr < |t.header|
    requires !HasMissing(t, cd) && !HasMissing(t, cr)
    ensures |es| == |t.rows|
  {
    var fs := Values(t, cd);
    var rs := Values(t, cr);
    seq(|t.rows|, i requires 0 <= i < |t.rows| => Entry(rs[i], fs[i]))
  }

  /** The rating keys of the test, in iteration order: read from the column
      literally named `ratings`, whatever `ratings_col` says. */
  function Keys(t: Table, cellOrder: (set<real>, nat) -> seq<Cell>): seq<Cell>
    requires Rectangular(t) && "ratings" in t.header
  {
    var cells := Column(t, ColumnIndex(t.header, "ratings"));
    cellOrder(Numbers(cells), Count(cells, IsMissing))
  }

  /** `traffic_lights(df, ratings_col, defaults_col)`: the ladder (defaults,
      then ratings; NaNs in ratings first), then `df.ratings`, which fails
      without a column of that name, then one default sum per key, the lights
      over `set(X)` in the iteration order `sumOrder` gives, and the positional
      assignment. */
  function TrafficLightsTest(t: Table, defaultsCol: Arg, ratingsCol: Arg,
                             cellOrder: (set<real>, nat) -> seq<Cell>,
                             sumOrder: set<real> -> seq<real>): (r: Result<seq<(Cell, Light)>>)
    requires Rectangular(t) && IsCellOrder(cellOrder) && IsSetOrder(sumOrder)
    ensures Validate(t, [defaultsCol, ratingsCol], [1, 0]).Err? ==>
              r == Err(Validate(t, [defaultsCol, ratingsCol], [1, 0]).failure)
    ensures Validate(t, [defaultsCol, ratingsCol], [1, 0]).Ok? ==>
              (r == Err(NoAttribute("ratings")) <==> "ratings" !in t.header)
    ensures Validate(t, [defaultsCol, ratingsCol], [1, 0]).Ok? && "ratings" in t.header ==>
              var cols := Validate(t, [defaultsCol, ratingsCol], [1, 0]).value;
              && !HasMissing(t, cols[0]) && !HasMissing(t, cols[1])
              && PositionalLights(t, cols[0], cols[1], cellOrder, sumOrder, r)
  {
    var cols :- Validate(t, [defaultsCol, ratingsCol], [1, 0]);
    ValidatedColumnsComplete(t, [defaultsCol, ratingsCol], [1, 0], 0);
    ValidatedColumnsComplete(t, [defaultsCol, ratingsCol], [1, 0], 1);
    if "ratings" !in t.header then Err(NoAttribute("ratings"))
    else RatingLights(t, cols[0], cols[1], cellOrder, sumOrder)
  }

  /** What the test promises once its checks pass. `X` holds the default sum
      of each key of the `ratings` column, and `sums` is `set(X)`. There is one
      light per key, given by position. No light is Yellow. The assignment fails
      exactly when two keys share a sum. The k-th key is Green exactly when the
      k-th distinct sum, in the order `sumOrder` gives, lies below the quantile
      of `X`. */
  ghost predicate PositionalLights(t: Table, cd: nat, cr: nat, cellOrder: (set<real>, nat) -> seq<Cell>,
                                   sumOrder: set<real> -> seq<real>, r: Result<seq<(Cell, Light)>>)
    requires Rectangular(t) && cd < |t.header| && cr < |t.header|
    requires !HasMissing(t, cd) && !HasMissing(t, cr) && "ratings" in t.header
  {
    var keys := Keys(t, cellOrder);
    var xs := DefaultSums(Entries(t, cd, cr), keys);
    var sums := set x | x in xs;
    && |xs| > 0 && |sumOrder(sums)| == |sums|
    && (r.Err? <==> |sums| != |keys|)
    && (r.Err? ==> r.failure == LengthMismatch)
    && (r.Ok? ==> |r.value| == |keys| && forall k :: 0 <= k < |keys| ==>
                    && r.value[k].0 == keys[k]
                    && r.value[k].1 != Yellow
                    && (r.value[k].1 == Green <==> sumOrder(sums)[k] < Quantile(xs, Level)))
  }

  /** The test past its checks: the default sums of the keys, and the lights
      of their distinct values assigned to the keys by position. */
  function RatingLights(t: Table, cd: nat, cr: nat, cellOrder: (set<real>, nat) -> seq<Cell>,
                        sumOrder: set<real> -> seq<real>): (r: Result<seq<(Cell, Light)>>)
    requires Rectangular(t) && cd < |t.header| && cr < |t.header| && |t.rows| > 0
    requires !HasMissing(t, cd) && !HasMissing(t, cr) && "ratings" in t.header
    requires IsCellOrder(cellOrder) && IsSetOrder(sumOrder)
    ensures PositionalLights(t, cd, cr, cellOrder, sumOrder, r)
  {
    var keys := Keys(t, cellOrder);
    KeysNonEmpty(t, cellOrder);
    var xs := DefaultSums(Entries(t, cd, cr), keys);
    EnumerationSize(sumOrder(set x | x in xs), set x | x in xs);
    AssignLights(keys, xs, sumOrder(set x | x in xs))
  }

  /** A non-empty column has at least one key. */
  lemma KeysNonEmpty(t: Table, cellOrder: (set<real>, nat) -> seq<Cell>)
    requires Rectangular(t) && "ratings" in t.header && |t.rows| > 0 && IsCellOrder(cellOrder)
    ensures |Keys(t, cellOrder)| > 0
  {
    var cells := Column(t, ColumnIndex(t.header, "ratings"));
    var order := Keys(t, cellOrder);
    assert EnumeratesCells(order, Numbers(cells), Count(cells, IsMissing));
    if cells[0].Num? {
      assert cells[0].v in Numbers(cells);
      assert Num(cells[0].v) in order;
    } else {
      assert cells == [cells[0]] + cells[1..];
      assert Count(cells, IsMissing) > 0;
      assert Count(order, IsMissing) > 0;
    }
  }
}
