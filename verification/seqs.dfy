/** Finite sums and counts, grouping by key, enumerations of sets and sorting:
    the collection vocabulary every test is written in. */
module Seqs {

  /** No element occurs twice. */
  predicate Distinct<T(==)>(s: seq<T>)
  {
    forall i, j :: 0 <= i < j < |s| ==> s[i] != s[j]
  }

  /** `order` lists every element of `s` exactly once: one iteration order of a
      Python set, which the language leaves unspecified. */
  ghost predicate Enumerates(order: seq<real>, s: set<real>)
  {
    Distinct(order) && (forall x :: x in order <==> x in s)
  }

  /** An enumeration of a set is as long as the set is large. */
  lemma {:induction false} EnumerationSize(order: seq<real>, s: set<real>)
    requires Enumerates(order, s)
    ensures |order| == |s|
    decreases |order|
  {
    if |order| == 0 {
      forall x ensures x !in s {
        assert x in order <==> x in s;
      }
      assert s == {};
    } else {
      var x := order[0];
      var rest := order[1..];
      assert Distinct(rest) by {
        forall i, j | 0 <= i < j < |rest| ensures rest[i] != rest[j] {
          assert rest[i] == order[i + 1] && rest[j] == order[j + 1];
        }
      }
      assert x !in rest by {
        forall k | 0 <= k < |rest| ensures rest[k] != x {
          assert rest[k] == order[k + 1];
        }
      }
      assert forall y :: y in order <==> y == x || y in rest by {
        assert order == [x] + rest;
      }
      EnumerationSize(rest, s - {x});
    }
  }

  /** In a sequence without repeats every element occurs once. */
  lemma {:induction false} DistinctMultiplicity(s: seq<real>, x: real)
    requires Distinct(s)
    ensures multiset(s)[x] == if x in s then 1 else 0
    decreases |s|
  {
    if |s| > 0 {
      var rest := s[1..];
      assert Distinct(rest) by {
        forall i, j | 0 <= i < j < |rest| ensures rest[i] != rest[j] {
          assert rest[i] == s[i + 1] && rest[j] == s[j + 1];
        }
      }
      assert s[0] !in rest by {
        forall k | 0 <= k < |rest| ensures rest[k] != s[0] {
          assert rest[k] == s[k + 1];
        }
      }
      assert s == [s[0]] + rest;
      DistinctMultiplicity(rest, x);
    }
  }

  /** Two enumerations of one set list the same elements, in some order. */
  lemma EnumerationsPermute(a: seq<real>, b: seq<real>, s: set<real>)
    requires Enumerates(a, s) && Enumerates(b, s)
    ensures multiset(a) == multiset(b)
  {
    forall x ensures multiset(a)[x] == multiset(b)[x] {
      DistinctMultiplicity(a, x);
      DistinctMultiplicity(b, x);
    }
  }

  /** Sums agree when the summands agree on the elements summed. */
  lemma {:induction false} SumCongruent<T>(s: seq<T>, f: T -> real, g: T -> real)
    requires forall i :: 0 <= i < |s| ==> f(s[i]) == g(s[i])
    ensures Sum(s, f) == Sum(s, g)
    decreases |s|
  {
    if |s| > 0 {
      SumCongruent(s[1..], f, g);
    }
  }

  /** Sums of pointwise sums split. */
  lemma {:induction false} SumAdd<T>(s: seq<T>, f: T -> real, g: T -> real, h: T -> real)
    requires forall i :: 0 <= i < |s| ==> h(s[i]) == f(s[i]) + g(s[i])
    ensures Sum(s, h) == Sum(s, f) + Sum(s, g)
    decreases |s|
  {
    if |s| > 0 {
      SumAdd(s[1..], f, g, h);
    }
  }

  /** Counts agree when the predicates agree on the elements counted. */
  lemma {:induction false} CountCongruent<T>(s: seq<T>, p: T -> bool, q: T -> bool)
    requires forall i :: 0 <= i < |s| ==> p(s[i]) == q(s[i])
    ensures Count(s, p) == Count(s, q)
    decreases |s|
  {
    if |s| > 0 {
      CountCongruent(s[1..], p, q);
    }
  }

  /** 1 where `p` holds, 0 elsewhere. */
  function Indicator<T>(p: T -> bool): T -> real
  {
    x => if p(x) then 1.0 else 0.0
  }

  /** Summing an indicator counts. */
  lemma {:induction false} SumIndicator<T>(s: seq<T>, p: T -> bool)
    ensures Sum(s, Indicator(p)) == Count(s, p) as real
    decreases |s|
  {
    if |s| > 0 {
      SumIndicator(s[1..], p);
    }
  }

  /** `f` applied to every element, in order. */
  function Map<A, B>(s: seq<A>, f: A -> B): (r: seq<B>)
    ensures |r| == |s|
    ensures forall i :: 0 <= i < |s| ==> r[i] == f(s[i])
  {
    seq(|s|, i requires 0 <= i < |s| => f(s[i]))
  }

  /** Two sums agree when their sequences are aligned term by term. */
  lemma {:induction false} SumAligned<A, B>(s: seq<A>, t: seq<B>, f: A -> real, g: B -> real)
    requires |s| == |t|
    requires forall i :: 0 <= i < |s| ==> f(s[i]) == g(t[i])
    ensures Sum(s, f) == Sum(t, g)
    decreases |s|
  {
    if |s| > 0 {
      SumAligned(s[1..], t[1..], f, g);
    }
  }

  /** Sums are linear in their summands. */
  lemma {:induction false} SumLinear<T>(s: seq<T>, f: T -> real, g: T -> real, d: T -> real, h: T -> real,
                                        a: real, b: real, c: real)
    requires forall i :: 0 <= i < |s| ==> h(s[i]) == a * f(s[i]) + b * g(s[i]) + c * d(s[i])
    ensures Sum(s, h) == a * Sum(s, f) + b * Sum(s, g) + c * Sum(s, d)
    decreases |s|
  {
    if |s| > 0 {
      SumLinear(s[1..], f, g, d, h, a, b, c);
    }
  }

  /** A sum of equal terms is a product. */
  lemma {:induction false} SumConstant<T>(s: seq<T>, f: T -> real, v: real)
    requires forall i :: 0 <= i < |s| ==> f(s[i]) == v
    ensures Sum(s, f) == |s| as real * v
    decreases |s|
  {
    if |s| > 0 {
      SumConstant(s[1..], f, v);
    }
  }

  /** A sum of zeros is zero. */
  lemma {:induction false} SumZero<T>(s: seq<T>, f: T -> real)
    requires forall i :: 0 <= i < |s| ==> f(s[i]) == 0.0
    ensures Sum(s, f) == 0.0
    decreases |s|
  {
    if |s| > 0 {
      assert f(s[0]) == 0.0;
      SumZero(s[1..], f);
    }
  }

  /** A count never exceeds the length; it equals the length exactly when every
      element qualifies, and it is zero exactly when none does. */
  lemma {:induction false} CountBounds<T>(s: seq<T>, p: T -> bool)
    ensures Count(s, p) <= |s|
    ensures Count(s, p) == |s| <==> forall i :: 0 <= i < |s| ==> p(s[i])
    ensures Count(s, p) == 0 <==> forall i :: 0 <= i < |s| ==> !p(s[i])
    decreases |s|
  {
    if |s| > 0 {
      CountBounds(s[1..], p);
      assert forall i :: 1 <= i < |s| ==> s[1..][i - 1] == s[i];
    }
  }

  /** Elements satisfying `p` and elements satisfying its negation make up the
      whole sequence. */
  lemma {:induction false} CountComplement<T>(s: seq<T>, p: T -> bool, q: T -> bool)
    requires forall i :: 0 <= i < |s| ==> q(s[i]) == !p(s[i])
    ensures Count(s, p) + Count(s, q) == |s|
    decreases |s|
  {
    if |s| > 0 {
      CountComplement(s[1..], p, q);
    }
  }

  /** Taking one element out of a sequence takes its contribution out of a count. */
  lemma CountWithout<T>(s: seq<T>, i: nat, p: T -> bool)
    requires i < |s|
    ensures Count(s, p) == (if p(s[i]) then 1 else 0) + Count(s[..i] + s[i + 1..], p)
  {
    var a, c, b := s[..i], s[i..], s[i + 1..];
    assert s == a + c;
    assert c[0] == s[i] && c[1..] == b;
    CountAppend(a, c, p);
    CountAppend(a, b, p);
  }

  /** Taking one element out of a sequence without repeats leaves one without
      repeats that no longer holds it. */
  lemma DistinctWithout<T>(s: seq<T>, i: nat)
    requires Distinct(s) && i < |s|
    ensures Distinct(s[..i] + s[i + 1..])
    ensures s[i] !in s[..i] + s[i + 1..]
  {
    var r := s[..i] + s[i + 1..];
    assert forall k :: 0 <= k < |r| ==> r[k] == if k < i then s[k] else s[k + 1];
  }

  /** A choice of iteration order for every set of reals. */
  ghost predicate IsSetOrder(setOrder: set<real> -> seq<real>)
  {
    forall s :: Enumerates(setOrder(s), s)
  }

  /** A value as its own key or summand. */
  function Id(x: real): real { x }

  /** Σ f(x) over the elements of `s`, front to back. */
  function Sum<T>(s: seq<T>, f: T -> real): real
  {
    if |s| == 0 then 0.0 else f(s[0]) + Sum(s[1..], f)
  }

  /** Number of elements of `s` satisfying `p`. */
  function Count<T>(s: seq<T>, p: T -> bool): nat
  {
    if |s| == 0 then 0 else (if p(s[0]) then 1 else 0) + Count(s[1..], p)
  }

  lemma {:induction false} SumAppend<T>(a: seq<T>, b: seq<T>, f: T -> real)
    ensures Sum(a + b, f) == Sum(a, f) + Sum(b, f)
    decreases |a|
  {
    if |a| > 0 {
      assert (a + b)[0] == a[0];
      assert (a + b)[1..] == a[1..] + b;
      SumAppend(a[1..], b, f);
    } else {
      assert a + b == b;
    }
  }

  lemma {:induction false} CountAppend<T>(a: seq<T>, b: seq<T>, p: T -> bool)
    ensures Count(a + b, p) == Count(a, p) + Count(b, p)
    decreases |a|
  {
    if |a| > 0 {
      assert (a + b)[0] == a[0];
      assert (a + b)[1..] == a[1..] + b;
      CountAppend(a[1..], b, p);
    } else {
      assert a + b == b;
    }
  }

  /** Taking the first element of `a` out of a permutation `b` of it leaves a
      permutation of the rest of `a`. */
  lemma RemoveFirst<T>(a: seq<T>, b: seq<T>) returns (i: nat)
    requires multiset(a) == multiset(b) && |a| > 0
    ensures i < |b| && b[i] == a[0]
    ensures b == b[..i] + ([a[0]] + b[i + 1..])
    ensures multiset(a[1..]) == multiset(b[..i] + b[i + 1..])
  {
    var x := a[0];
    assert x in multiset(b);
    i :| 0 <= i < |b| && b[i] == x;
    var rest := b[..i] + b[i + 1..];
    SplitAt(b, i);
    assert a == [x] + a[1..];
    assert multiset(a) == multiset(a[1..]) + multiset{x};
    MultisetCancel(multiset(a[1..]), multiset(rest), x);
  }

  /** The same element taken from two equal multisets leaves equal multisets. */
  lemma MultisetCancel<T>(m: multiset<T>, m': multiset<T>, x: T)
    requires m + multiset{x} == m' + multiset{x}
    ensures m == m'
  {
    forall y ensures m[y] == m'[y] {
      assert (m + multiset{x})[y] == (m' + multiset{x})[y];
    }
  }

  /** A sequence is what precedes its `i`-th element, that element, and what
      follows it. */
  lemma SplitAt<T>(b: seq<T>, i: nat)
    requires i < |b|
    ensures b == b[..i] + ([b[i]] + b[i + 1..])
    ensures multiset(b) == multiset(b[..i] + b[i + 1..]) + multiset{b[i]}
  {
    var l, r := b[..i], b[i + 1..];
    assert b == l + ([b[i]] + r);
    assert multiset(l + r) == multiset(l) + multiset(r);
  }

  /** Sums do not depend on the order of their terms. */
  lemma {:induction false} SumPermutation<T>(a: seq<T>, b: seq<T>, f: T -> real)
    requires multiset(a) == multiset(b)
    ensures Sum(a, f) == Sum(b, f)
    decreases |a|
  {
    if |a| == 0 {
      assert |multiset(b)| == 0;
    } else {
      var x := a[0];
      var i := RemoveFirst(a, b);
      SumPermutation(a[1..], b[..i] + b[i + 1..], f);
      SumAppend(b[..i], [x] + b[i + 1..], f);
      SumAppend(b[..i], b[i + 1..], f);
      assert Sum([x] + b[i + 1..], f) == f(x) + Sum(b[i + 1..], f) by {
        assert ([x] + b[i + 1..])[1..] == b[i + 1..];
      }
    }
  }

  /** Counts do not depend on the order of the elements. */
  lemma {:induction false} CountPermutation<T>(a: seq<T>, b: seq<T>, p: T -> bool)
    requires multiset(a) == multiset(b)
    ensures Count(a, p) == Count(b, p)
    decreases |a|
  {
    if |a| == 0 {
      assert |multiset(b)| == 0;
    } else {
      var x := a[0];
      var i := RemoveFirst(a, b);
      CountPermutation(a[1..], b[..i] + b[i + 1..], p);
      CountAppend(b[..i], [x] + b[i + 1..], p);
      CountAppend(b[..i], b[i + 1..], p);
      assert Count([x] + b[i + 1..], p) == (if p(x) then 1 else 0) + Count(b[i + 1..], p) by {
        assert ([x] + b[i + 1..])[1..] == b[i + 1..];
      }
    }
  }

  /** The elements of `s` whose key is `v`, in their original order: the rows
      `df[df[col] == v]` selects. */
  function Select<T>(s: seq<T>, key: T -> real, v: real): (r: seq<T>)
    ensures |r| <= |s|
    ensures forall i :: 0 <= i < |r| ==> r[i] in s && key(r[i]) == v
    ensures forall i :: 0 <= i < |s| && key(s[i]) == v ==> s[i] in r
  {
    if |s| == 0 then []
    else (if key(s[0]) == v then [s[0]] else []) + Select(s[1..], key, v)
  }

  /** When every element has key `v`, selecting `v` keeps everything. */
  lemma {:induction false} SelectAll<T>(s: seq<T>, key: T -> real, v: real)
    requires forall i :: 0 <= i < |s| ==> key(s[i]) == v
    ensures Select(s, key, v) == s
    decreases |s|
  {
    if |s| > 0 {
      SelectAll(s[1..], key, v);
      assert s == [s[0]] + s[1..];
    }
  }

  /** A sum of non-negative terms is non-negative, and zero exactly when every
      term is. */
  lemma {:induction false} SumNonNegative<T>(s: seq<T>, f: T -> real)
    requires forall i :: 0 <= i < |s| ==> f(s[i]) >= 0.0
    ensures Sum(s, f) >= 0.0
    ensures Sum(s, f) == 0.0 <==> forall i :: 0 <= i < |s| ==> f(s[i]) == 0.0
    decreases |s|
  {
    if |s| > 0 {
      SumNonNegative(s[1..], f);
      assert forall i :: 1 <= i < |s| ==> s[1..][i - 1] == s[i];
      if Sum(s, f) == 0.0 {
        forall i | 0 <= i < |s| ensures f(s[i]) == 0.0 {
          if i > 0 {
            assert s[1..][i - 1] == s[i];
          }
        }
      }
    }
  }

  /** The set of keys occurring in `s`: what `set(df[col])` holds. */
  function KeySet<T>(s: seq<T>, key: T -> real): set<real>
  {
    set i | 0 <= i < |s| :: key(s[i])
  }

  /** Σ over the keys listed in `order` of the per-key sums of `f`. */
  function SumByKey<T>(s: seq<T>, key: T -> real, order: seq<real>, f: T -> real): real
  {
    if |order| == 0 then 0.0
    else Sum(Select(s, key, order[0]), f) + SumByKey(s, key, order[1..], f)
  }

  lemma {:induction false} SumByKeyCons<T>(x: T, t: seq<T>, key: T -> real, order: seq<real>, f: T -> real)
    requires Distinct(order)
    ensures SumByKey([x] + t, key, order, f)
         == (if key(x) in order then f(x) else 0.0) + SumByKey(t, key, order, f)
    decreases |order|
  {
    if |order| > 0 {
      var s := [x] + t;
      assert s[1..] == t;
      assert Select(s, key, order[0])
          == (if key(x) == order[0] then [x] else []) + Select(t, key, order[0]);
      SumAppend(if key(x) == order[0] then [x] else [], Select(t, key, order[0]), f);
      assert [x][1..] == [];
      SumByKeyCons(x, t, key, order[1..], f);
      assert key(x) in order <==> key(x) == order[0] || key(x) in order[1..];
      if key(x) == order[0] {
        assert key(x) !in order[1..] by {
          forall k | 0 <= k < |order[1..]| ensures order[1..][k] != key(x) {
            assert order[1..][k] == order[k + 1];
          }
        }
      }
    }
  }

  /** Grouping by key partitions the sum: when `order` lists each key of `s`
      once, the per-group sums add up to the sum over all of `s`. */
  lemma {:induction false} SumByKeyPartition<T>(s: seq<T>, key: T -> real, order: seq<real>, f: T -> real)
    requires Distinct(order)
    requires forall x :: x in s ==> key(x) in order
    ensures SumByKey(s, key, order, f) == Sum(s, f)
    decreases |s|
  {
    if |s| == 0 {
      EmptySumByKey(key, order, f);
    } else {
      assert s == [s[0]] + s[1..];
      SumByKeyCons(s[0], s[1..], key, order, f);
      SumByKeyPartition(s[1..], key, order, f);
    }
  }

  lemma {:induction false} EmptySumByKey<T>(key: T -> real, order: seq<real>, f: T -> real)
    ensures SumByKey([], key, order, f) == 0.0
    decreases |order|
  {
    if |order| > 0 {
      EmptySumByKey(key, order[1..], f);
    }
  }

  /** Every key of `s` listed in an enumeration of its key set. */
  lemma EnumerationCovers<T>(s: seq<T>, key: T -> real, order: seq<real>)
    requires Enumerates(order, KeySet(s, key))
    ensures forall x :: x in s ==> key(x) in order
  {
    forall x | x in s ensures key(x) in order {
      var i :| 0 <= i < |s| && s[i] == x;
      assert key(s[i]) in KeySet(s, key);
      assert forall v :: v in order <==> v in KeySet(s, key);
    }
  }

  /** Non-decreasing order. */
  predicate SortedAsc(s: seq<real>)
  {
    forall i, j :: 0 <= i < j < |s| ==> s[i] <= s[j]
  }

  /** Builtin `max` of a non-empty sequence. */
  function Max(xs: seq<real>): (m: real)
    requires |xs| > 0
    ensures m in xs
    ensures forall i :: 0 <= i < |xs| ==> xs[i] <= m
  {
    if |xs| == 1 then xs[0]
    else
      var m := Max(xs[1..]);
      assert forall i :: 1 <= i < |xs| ==> xs[i] == xs[1..][i - 1];
      if xs[0] >= m then xs[0] else m
  }

  /** Builtin `min` of a non-empty sequence. */
  function Min(xs: seq<real>): (m: real)
    requires |xs| > 0
    ensures m in xs
    ensures forall i :: 0 <= i < |xs| ==> m <= xs[i]
  {
    if |xs| == 1 then xs[0]
    else
      var m := Min(xs[1..]);
      assert forall i :: 1 <= i < |xs| ==> xs[i] == xs[1..][i - 1];
      if xs[0] <= m then xs[0] else m
  }

  /** Strictly increasing order. */
  predicate Increasing(s: seq<real>)
  {
    forall i, j :: 0 <= i < j < |s| ==> s[i] < s[j]
  }

  function Insert(x: real, s: seq<real>): (r: seq<real>)
    requires SortedAsc(s)
    ensures SortedAsc(r)
    ensures multiset(r) == multiset(s) + multiset{x}
  {
    if |s| == 0 || x <= s[0] then
      InsertFront(x, s);
      [x] + s
    else
      var tail := Insert(x, s[1..]);
      InsertBehind(x, s, tail);
      [s[0]] + tail
  }

  /** A value no larger than the head of a sorted sequence may go in front. */
  lemma InsertFront(x: real, s: seq<real>)
    requires SortedAsc(s) && (|s| == 0 || x <= s[0])
    ensures SortedAsc([x] + s)
  {
    var r := [x] + s;
    forall i, j | 0 <= i < j < |r| ensures r[i] <= r[j] {
      if i > 0 {
        assert r[i] == s[i - 1] && r[j] == s[j - 1];
      } else {
        assert r[j] == s[j - 1] && s[0] <= s[j - 1];
      }
    }
  }

  /** The head of a sorted sequence may go in front of the rest with `x`
      inserted, when `x` is larger. */
  lemma InsertBehind(x: real, s: seq<real>, tail: seq<real>)
    requires SortedAsc(s) && |s| > 0 && s[0] < x
    requires SortedAsc(tail) && multiset(tail) == multiset(s[1..]) + multiset{x}
    ensures SortedAsc([s[0]] + tail)
    ensures multiset([s[0]] + tail) == multiset(s) + multiset{x}
  {
    assert s == [s[0]] + s[1..];
    forall k | 0 <= k < |tail| ensures s[0] <= tail[k] {
      assert tail[k] in multiset(tail);
      if tail[k] != x {
        assert tail[k] in multiset(s[1..]);
        var m :| 0 <= m < |s[1..]| && s[1..][m] == tail[k];
        assert s[m + 1] == tail[k];
      }
    }
    var r := [s[0]] + tail;
    forall i, j | 0 <= i < j < |r| ensures r[i] <= r[j] {
      assert r[j] == tail[j - 1];
      if i > 0 {
        assert r[i] == tail[i - 1];
      }
    }
  }

  /** Ascending sort (numpy's sort of a float array). */
  function Sort(s: seq<real>): (r: seq<real>)
    ensures SortedAsc(r)
    ensures multiset(r) == multiset(s)
  {
    if |s| == 0 then []
    else
      assert s == [s[0]] + s[1..];
      Insert(s[0], Sort(s[1..]))
  }

  /** Non-increasing order. */
  predicate SortedDesc(s: seq<real>)
  {
    forall i, j :: 0 <= i < j < |s| ==> s[i] >= s[j]
  }

  function Reverse(s: seq<real>): (r: seq<real>)
    ensures |r| == |s|
    ensures forall i :: 0 <= i < |s| ==> r[i] == s[|s| - 1 - i]
    ensures multiset(r) == multiset(s)
  {
    if |s| == 0 then []
    else
      assert s == [s[0]] + s[1..];
      Reverse(s[1..]) + [s[0]]
  }

  /** Descending sort: the order in which `value_counts` reports counts. */
  function SortDesc(s: seq<real>): (r: seq<real>)
    ensures |r| == |s|
    ensures SortedDesc(r)
    ensures multiset(r) == multiset(s)
  {
    var a := Sort(s);
    assert |a| == |multiset(a)| == |s|;
    Reverse(a)
  }

  /** A sequence is determined by its elements once it is sorted. */
  lemma {:induction false} SortedDescUnique(a: seq<real>, b: seq<real>)
    requires SortedDesc(a) && SortedDesc(b) && multiset(a) == multiset(b)
    ensures a == b
    decreases |a|
  {
    assert |a| == |multiset(a)| == |multiset(b)| == |b|;
    if |a| > 0 {
      HeadsAgree(a, b);
      DropHead(a);
      DropHead(b);
      SortedDescUnique(a[1..], b[1..]);
      assert a == [a[0]] + a[1..];
      assert b == [b[0]] + b[1..];
    }
  }

  lemma HeadsAgree(a: seq<real>, b: seq<real>)
    requires SortedDesc(a) && SortedDesc(b) && multiset(a) == multiset(b) && |a| > 0
    ensures |b| > 0 && a[0] == b[0]
  {
    assert a[0] in multiset(b);
    var k :| 0 <= k < |b| && b[k] == a[0];
    assert b[0] in multiset(a);
    var l :| 0 <= l < |a| && a[l] == b[0];
  }

  lemma DropHead(a: seq<real>)
    requires |a| > 0
    ensures multiset(a[1..]) == multiset(a) - multiset{a[0]}
  {
    assert a == [a[0]] + a[1..];
  }

  /** The last element of a descending arrangement of `s` is at most `t`
      exactly when some element of `s` is. */
  lemma LastIsLeast(r: seq<real>, s: seq<real>, t: real)
    requires SortedDesc(r) && multiset(r) == multiset(s) && |r| > 0
    ensures |s| == |r|
    ensures r[|r| - 1] <= t <==> exists k :: 0 <= k < |s| && s[k] <= t
  {
    assert |s| == |multiset(s)| == |multiset(r)| == |r|;
    var last := r[|r| - 1];
    assert last in multiset(s);
    if exists k :: 0 <= k < |s| && s[k] <= t {
      var k :| 0 <= k < |s| && s[k] <= t;
      assert s[k] in multiset(r);
    }
  }

  function InsertLevel(x: real, s: seq<real>): (r: seq<real>)
    requires Increasing(s)
    ensures Increasing(r)
    ensures forall y :: y in r <==> y in s || y == x
  {
    if |s| == 0 || x < s[0] then
      assert forall y :: y in s ==> x < y by {
        forall y | y in s ensures x < y {
          var k :| 0 <= k < |s| && s[k] == y;
          assert k == 0 || s[0] < s[k];
        }
      }
      ConsIncreasing(x, s);
      [x] + s
    else if x == s[0] then s
    else
      var tail := InsertLevel(x, s[1..]);
      assert forall y :: y in tail ==> s[0] < y;
      ConsIncreasing(s[0], tail);
      [s[0]] + tail
  }

  lemma ConsIncreasing(x: real, s: seq<real>)
    requires Increasing(s) && forall y :: y in s ==> x < y
    ensures Increasing([x] + s)
  {
    var r := [x] + s;
    forall i, j | 0 <= i < j < |r| ensures r[i] < r[j] {
      assert r[j] == s[j - 1] && s[j - 1] in s;
      if i > 0 {
        assert r[i] == s[i - 1];
      }
    }
  }

  /** The distinct values of `s` in ascending order: the index pandas gives a
      crosstab or a value count. */
  function Levels(s: seq<real>): (r: seq<real>)
    ensures Increasing(r)
    ensures forall y :: y in r <==> y in s
  {
    if |s| == 0 then []
    else
      assert forall y :: y in s <==> y == s[0] || y in s[1..];
      InsertLevel(s[0], Levels(s[1..]))
  }

  lemma IncreasingDistinct(s: seq<real>)
    requires Increasing(s)
    ensures Distinct(s)
  {
  }

  /** Σ f(k) for lo <= k < hi: a Python `for k in range(lo, hi)` accumulation. */
  function RangeSum(lo: int, hi: int, f: int -> real): real
    decreases hi - lo
  {
    if lo >= hi then 0.0 else f(lo) + RangeSum(lo + 1, hi, f)
  }

  lemma {:induction false} RangeSumCongruent(lo: int, hi: int, f: int -> real, g: int -> real)
    requires forall k :: lo <= k < hi ==> f(k) == g(k)
    ensures RangeSum(lo, hi, f) == RangeSum(lo, hi, g)
    decreases hi - lo
  {
    if lo < hi {
      RangeSumCongruent(lo + 1, hi, f, g);
    }
  }

  /** Sums of non-negative terms are non-negative, and zero exactly when every
      term is. */
  lemma {:induction false} RangeSumZero(lo: int, hi: int, f: int -> real)
    requires forall k :: lo <= k < hi ==> f(k) >= 0.0
    ensures RangeSum(lo, hi, f) >= 0.0
    ensures RangeSum(lo, hi, f) == 0.0 <==> forall k :: lo <= k < hi ==> f(k) == 0.0
    decreases hi - lo
  {
    if lo < hi {
      RangeSumZero(lo + 1, hi, f);
    }
  }

  /** Termwise order carries over to the sums. */
  lemma {:induction false} RangeSumMonotone(lo: int, hi: int, f: int -> real, g: int -> real)
    requires forall k :: lo <= k < hi ==> f(k) <= g(k)
    ensures RangeSum(lo, hi, f) <= RangeSum(lo, hi, g)
    decreases hi - lo
  {
    if lo < hi {
      RangeSumMonotone(lo + 1, hi, f, g);
    }
  }

  /** A common factor comes out of the sum. */
  lemma {:induction false} RangeSumScale(lo: int, hi: int, f: int -> real, g: int -> real, c: real)
    requires forall k :: lo <= k < hi ==> g(k) == c * f(k)
    ensures RangeSum(lo, hi, g) == c * RangeSum(lo, hi, f)
    decreases hi - lo
  {
    if lo < hi {
      RangeSumScale(lo + 1, hi, f, g, c);
    }
  }

  /** Sums of pointwise sums split. */
  lemma {:induction false} RangeSumAdd(lo: int, hi: int, f: int -> real, g: int -> real, h: int -> real)
    requires forall k :: lo <= k < hi ==> h(k) == f(k) + g(k)
    ensures RangeSum(lo, hi, h) == RangeSum(lo, hi, f) + RangeSum(lo, hi, g)
    decreases hi - lo
  {
    if lo < hi {
      RangeSumAdd(lo + 1, hi, f, g, h);
    }
  }

  /** A term that is 1 at one point of the range and 0 elsewhere sums to 1. */
  lemma {:induction false} RangeSumSingle(lo: int, hi: int, f: int -> real, m: int)
    requires lo <= m < hi && f(m) == 1.0
    requires forall k :: lo <= k < hi && k != m ==> f(k) == 0.0
    ensures RangeSum(lo, hi, f) == 1.0
    decreases hi - lo
  {
    if lo < m {
      RangeSumSingle(lo + 1, hi, f, m);
    } else {
      RangeSumZero(lo + 1, hi, f);
    }
  }

  /** A common divisor comes out of a sum over a sequence. */
  lemma {:induction false} SumDivide<T>(s: seq<T>, f: T -> real, g: T -> real, n: real)
    requires n != 0.0
    requires forall i :: 0 <= i < |s| ==> g(s[i]) == f(s[i]) / n
    ensures Sum(s, g) == Sum(s, f) / n
    decreases |s|
  {
    if |s| > 0 {
      SumDivide(s[1..], f, g, n);
      DivideAdd(f(s[0]), Sum(s[1..], f), n);
    }
  }

  lemma DivideAdd(x: real, y: real, n: real)
    requires n != 0.0
    ensures x / n + y / n == (x + y) / n
  {
  }

  /** Selecting a group never adds qualifying elements. */
  lemma {:induction false} CountSelectBound<T>(s: seq<T>, key: T -> real, v: real, p: T -> bool)
    ensures Count(Select(s, key, v), p) <= Count(s, p)
    decreases |s|
  {
    if |s| > 0 {
      CountSelectBound(s[1..], key, v, p);
      var head := if key(s[0]) == v then [s[0]] else [];
      CountAppend(head, Select(s[1..], key, v), p);
      if key(s[0]) == v {
        assert head[1..] == [];
      }
    }
  }

  /** `f` on the elements whose key is `v`, 0 on the others. */
  function Where<T>(key: T -> real, v: real, f: T -> real): T -> real
  {
    x => if key(x) == v then f(x) else 0.0
  }

  function KeyIs<T>(key: T -> real, v: real): T -> bool
  {
    x => key(x) == v
  }

  /** Selecting by key keeps exactly the elements with that key: as many as
      carry it, summing to the masked sum over the whole sequence. */
  lemma {:induction false} SelectSum<T>(s: seq<T>, key: T -> real, v: real, f: T -> real)
    ensures |Select(s, key, v)| == Count(s, KeyIs(key, v))
    ensures Sum(Select(s, key, v), f) == Sum(s, Where(key, v, f))
    decreases |s|
  {
    if |s| > 0 {
      SelectSum(s[1..], key, v, f);
      var head := if key(s[0]) == v then [s[0]] else [];
      SumAppend(head, Select(s[1..], key, v), f);
      if key(s[0]) == v {
        assert head[1..] == [];
      }
    }
  }

  /** The per-key sums of `f`, as a function of the key. */
  function GroupSum<T>(s: seq<T>, key: T -> real, f: T -> real): real -> real
  {
    v => Sum(Select(s, key, v), f)
  }

  /** A sum by key is a sum over the keys of the group sums. */
  lemma {:induction false} SumByKeyOverKeys<T>(s: seq<T>, key: T -> real, order: seq<real>, f: T -> real)
    ensures SumByKey(s, key, order, f) == Sum(order, GroupSum(s, key, f))
    decreases |order|
  {
    if |order| > 0 {
      SumByKeyOverKeys(s, key, order[1..], f);
    }
  }

  /** A product of non-negative reals is non-negative. */
  lemma MulNonNegative(a: real, b: real)
    requires a >= 0.0 && b >= 0.0
    ensures a * b >= 0.0
  {
  }

  /** A product of positive reals is positive. */
  lemma MulPositive(a: real, b: real)
    requires a > 0.0 && b > 0.0
    ensures a * b > 0.0
  {
  }

}
