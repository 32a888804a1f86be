/** Loss capture ratio (risktests/Loss_Coverage_Ratio.py): the rows are
    ordered worst first, once by predicted LGD (the model) and once by actual
    LGD (the ideal); each order gives a cumulative loss capture curve, the
    curves' trapezoid areas are taken against the diagonal's 0.5·n, and the
    ratio of the two excess areas is reported. */
module LossCapture {
  import opened Seqs
  import opened Frame
  import opened Outcomes
  import opened Floats

  /** One row: actual LGD, exposure at default and predicted LGD. */
  datatype Exposure = Exposure(lgd: real, ead: real, pred: real)

  function LgdOf(e: Exposure): real { e.lgd }
  function PredOf(e: Exposure): real { e.pred }

  /** `df['loss'] = df[EAD_col] * df[LGD_col]`. */
  function LossOf(e: Exposure): real { e.ead * e.lgd }

  /** The column `df['loss']` is written to. */
  const LossColumn := "loss"

  /** What a column sorts by once the loss column has been written: a column
      of that name holds EAD·LGD from then on, whatever it held before. */
  function SortKey(header: string, own: Exposure -> real): (key: Exposure -> real)
    ensures header != LossColumn ==> key == own
    ensures header == LossColumn ==> forall e :: key(e) == e.ead * e.lgd
  {
    if header == LossColumn then LossOf else own
  }

  /** A row with the value it is sorted by. */
  datatype Keyed = Keyed(key: real, row: Exposure)

  function KeyedLoss(k: Keyed): real { LossOf(k.row) }

  /** Each row keyed by `key`, in table order. */
  function KeyedBy(rows: seq<Exposure>, key: Exposure -> real): (ks: seq<Keyed>)
    ensures |ks| == |rows|
    ensures forall i :: 0 <= i < |rows| ==> ks[i] == Keyed(key(rows[i]), rows[i])
  {
    Map(rows, e => Keyed(key(e), e))
  }

  /** Largest key first. */
  predicate SortedByKey(s: seq<Keyed>)
  {
    forall i, j :: 0 <= i < j < |s| ==> s[i].key >= s[j].key
  }

  /** `sort_values(by=..., ascending=False)`: a rearrangement with the largest
      keys first. pandas' default quicksort leaves the order of equal keys
      unspecified, so the sort is a parameter; it is a function of the keyed
      rows, so equal inputs are sorted alike. */
  ghost predicate IsSorter(sort: seq<Keyed> -> seq<Keyed>)
  {
    forall s :: multiset(sort(s)) == multiset(s) && SortedByKey(sort(s))
  }

  /** The losses of the rows in the order `sort` puts them by `key`. */
  function LossesBy(rows: seq<Exposure>, key: Exposure -> real, sort: seq<Keyed> -> seq<Keyed>): (ls: seq<real>)
    requires IsSorter(sort)
    ensures |ls| == |rows|
    ensures Sum(ls, Id) == Sum(rows, LossOf)
    ensures exists ks :: multiset(ks) == multiset(KeyedBy(rows, key)) && SortedByKey(ks)
                         && ls == Map(ks, KeyedLoss)
  {
    var ks := KeyedBy(rows, key);
    var sorted := sort(ks);
    assert multiset(sorted) == multiset(ks) && SortedByKey(sorted);
    assert |sorted| == |multiset(sorted)| == |ks|;
    SumPermutation(sorted, ks, KeyedLoss);
    SumAligned(ks, rows, KeyedLoss, LossOf);
    SumAligned(Map(sorted, KeyedLoss), sorted, Id, KeyedLoss);
    Map(sorted, KeyedLoss)
  }

  /** `cumsum()` continued from `acc`: the running totals. */
  function CumSumFrom(acc: real, xs: seq<real>): (c: seq<real>)
    decreases |xs|
    ensures |c| == |xs|
    ensures |xs| > 0 ==> c[0] == acc + xs[0]
    ensures forall i :: 0 < i < |xs| ==> c[i] == c[i - 1] + xs[i]
  {
    if |xs| == 0 then []
    else
      var rest := CumSumFrom(acc + xs[0], xs[1..]);
      assert forall i :: 1 < i < |xs| ==> xs[1..][i - 1] == xs[i];
      [acc + xs[0]] + rest
  }

  /** `cumsum()` of a column. */
  function CumSum(xs: seq<real>): (c: seq<real>)
    ensures |c| == |xs|
    ensures |xs| > 0 ==> c[0] == xs[0]
    ensures forall i :: 0 < i < |xs| ==> c[i] == c[i - 1] + xs[i]
  {
    CumSumFrom(0.0, xs)
  }

  /** Each running total is the sum of the prefix it closes, so the last one is
      the column total. */
  lemma {:induction false} CumSumPrefix(xs: seq<real>)
    ensures forall i :: 0 <= i < |xs| ==> CumSum(xs)[i] == Sum(xs[..i + 1], Id)
    ensures |xs| > 0 ==> CumSum(xs)[|xs| - 1] == Sum(xs, Id)
  {
    var c := CumSum(xs);
    forall i | 0 <= i < |xs| ensures c[i] == Sum(xs[..i + 1], Id) {
      PrefixStep(xs, c, i);
    }
    if |xs| > 0 {
      assert xs[..|xs|] == xs;
    }
  }

  lemma {:induction false} PrefixStep(xs: seq<real>, c: seq<real>, i: nat)
    requires c == CumSum(xs) && i < |xs|
    ensures c[i] == Sum(xs[..i + 1], Id)
    decreases i
  {
    if i == 0 {
      assert xs[..1] == [xs[0]];
    } else {
      PrefixStep(xs, c, i - 1);
      assert xs[..i + 1] == xs[..i] + [xs[i]];
      SumAppend(xs[..i], [xs[i]], Id);
    }
  }

  /** `cumsum()['loss'] / loss.sum()`: the share of the total loss captured
      by the first i + 1 rows. A zero total gives infinities and NaN. */
  function Curve(xs: seq<real>): (ys: seq<Float>)
    ensures |ys| == |xs|
    ensures forall i :: 0 <= i < |xs| ==> ys[i] == Div(CumSum(xs)[i], Sum(xs, Id))
  {
    Map(CumSum(xs), c => Div(c, Sum(xs, Id)))
  }

  /** With a nonzero total every point is finite and the curve ends at 1. */
  lemma CurveEndsAtOne(xs: seq<real>)
    requires |xs| > 0 && Sum(xs, Id) != 0.0
    ensures forall i :: 0 <= i < |xs| ==> Curve(xs)[i].Fin?
    ensures Curve(xs)[|xs| - 1] == Fin(1.0)
  {
    var t := Sum(xs, Id);
    LastIsTotal(xs);
    SelfQuotient(t);
  }

  lemma LastIsTotal(xs: seq<real>)
    requires |xs| > 0
    ensures CumSum(xs)[|xs| - 1] == Sum(xs, Id)
  {
    CumSumPrefix(xs);
  }

  lemma SelfQuotient(t: real)
    requires t != 0.0
    ensures Div(t, t) == Fin(1.0)
  {
  }

  /** With a zero total the curve ends in 0/0, a NaN. */
  lemma CurveZeroTotal(xs: seq<real>)
    requires |xs| > 0 && Sum(xs, Id) == 0.0
    ensures Curve(xs)[|xs| - 1] == NaN
  {
    LastIsTotal(xs);
  }

  /** With non-negative losses and a positive total the curve rises from the
      first row's share to 1 and never leaves [0, 1]. */
  lemma CurveMonotone(xs: seq<real>)
    requires forall i :: 0 <= i < |xs| ==> xs[i] >= 0.0
    requires Sum(xs, Id) > 0.0
    ensures forall i :: 0 <= i < |xs| ==> Curve(xs)[i].Fin?
    ensures forall i, j :: 0 <= i <= j < |xs| ==> Curve(xs)[i].v <= Curve(xs)[j].v
    ensures forall i :: 0 <= i < |xs| ==> 0.0 <= Curve(xs)[i].v <= 1.0
  {
    var c, t, ys := CumSum(xs), Sum(xs, Id), Curve(xs);
    RunningTotalsRise(xs);
    Quotients(c, t);
    assert forall i :: 0 <= i < |xs| ==> ys[i] == Fin(c[i] / t);
  }

  /** Rising values between 0 and a positive total stay rising, and within
      [0, 1], once divided by it. */
  lemma Quotients(c: seq<real>, t: real)
    requires t > 0.0
    requires forall i :: 0 <= i < |c| ==> 0.0 <= c[i] <= t
    requires forall i, j :: 0 <= i <= j < |c| ==> c[i] <= c[j]
    ensures forall i :: 0 <= i < |c| ==> 0.0 <= c[i] / t <= 1.0
    ensures forall i, j :: 0 <= i <= j < |c| ==> c[i] / t <= c[j] / t
  {
    forall i | 0 <= i < |c| ensures 0.0 <= c[i] / t <= 1.0 {
      DivideMonotone(0.0, c[i], t);
      DivideMonotone(c[i], t, t);
    }
    forall i, j | 0 <= i <= j < |c| ensures c[i] / t <= c[j] / t {
      DivideMonotone(c[i], c[j], t);
    }
  }

  lemma DivideMonotone(x: real, y: real, t: real)
    requires x <= y && t > 0.0
    ensures x / t <= y / t
    ensures y == t ==> y / t == 1.0
  {
  }

  /** Running totals of non-negative values start at 0 or more, rise, and
      stay at or below the total. */
  lemma RunningTotalsRise(xs: seq<real>)
    requires forall i :: 0 <= i < |xs| ==> xs[i] >= 0.0
    ensures forall i :: 0 <= i < |xs| ==> CumSum(xs)[i] >= 0.0
    ensures forall i, j :: 0 <= i <= j < |xs| ==> CumSum(xs)[i] <= CumSum(xs)[j]
    ensures forall i :: 0 <= i < |xs| ==> CumSum(xs)[i] <= Sum(xs, Id)
  {
    var c := CumSum(xs);
    forall j | 0 <= j < |xs| ensures c[j] >= 0.0 && forall i :: 0 <= i <= j ==> c[i] <= c[j] {
      RiseTo(xs, c, j);
    }
    if |xs| > 0 {
      CumSumPrefix(xs);
    }
  }

  lemma {:induction false} RiseTo(xs: seq<real>, c: seq<real>, j: nat)
    requires forall i :: 0 <= i < |xs| ==> xs[i] >= 0.0
    requires c == CumSum(xs) && j < |xs|
    ensures c[j] >= 0.0
    ensures forall i :: 0 <= i <= j ==> c[i] <= c[j]
    decreases j
  {
    if j > 0 {
      RiseTo(xs, c, j - 1);
    }
  }

  /** `np.trapz(y, x)` for x = 0, 1, ..., n - 1: the spacing is 1, and each
      strip is `(y[i + 1] + y[i]) / 2.0`; the strips are summed. */
  function Trapezoids(ys: seq<Float>): (r: Float)
    requires |ys| >= 2
  {
    SumFloats(Strips(ys))
  }

  /** One strip: `(y[i + 1] + y[i]) / 2.0` in floating point. */
  function Strip(lo: Float, hi: Float): Float
  {
    Quot(Add(hi, lo), Fin(2.0))
  }

  function Strips(ys: seq<Float>): (ss: seq<Float>)
    requires |ys| >= 2
    ensures |ss| == |ys| - 1
    ensures forall i :: 0 <= i < |ss| ==> ss[i] == Strip(ys[i], ys[i + 1])
  {
    seq(|ys| - 1, i requires 0 <= i < |ys| - 1 => Strip(ys[i], ys[i + 1]))
  }

  /** `sklearn.metrics.auc`: at least two points are needed. */
  function Auc(ys: seq<Float>): (r: Result<Float>)
    ensures r.Err? <==> |ys| < 2
    ensures r.Err? ==> r.failure == TooFewPoints
  {
    if |ys| < 2 then Err(TooFewPoints) else Ok(Trapezoids(ys))
  }

  /** On finite points the trapezoid rule counts every inner point once and the
      two end points half: the area is Σ y − (y₀ + yₙ₋₁)/2. */
  lemma TrapezoidClosedForm(ys: seq<Float>)
    requires |ys| >= 2 && forall i :: 0 <= i < |ys| ==> ys[i].Fin?
    ensures Trapezoids(ys).Fin?
    ensures Trapezoids(ys).v == Sum(ys, ValueOf) - (ys[0].v + ys[|ys| - 1].v) / 2.0
  {
    var ss := Strips(ys);
    forall i | 0 <= i < |ss| ensures ss[i].Fin? {
    }
    AccumulateSpecial(Fin(0.0), ss);
    StripSum(ys);
  }

  /** Σ over the strips of (y[i + 1] + y[i]) / 2. */
  lemma {:induction false} StripSum(ys: seq<Float>)
    requires |ys| >= 2 && forall i :: 0 <= i < |ys| ==> ys[i].Fin?
    ensures Sum(Strips(ys), ValueOf) == Sum(ys, ValueOf) - (ys[0].v + ys[|ys| - 1].v) / 2.0
    decreases |ys|
  {
    var ss := Strips(ys);
    assert ss[0] == Fin((ys[1].v + ys[0].v) / 2.0);
    if |ys| == 2 {
      assert ss[1..] == [];
      assert ys[1..][1..] == [];
    } else {
      var tail := ys[1..];
      StripSum(tail);
      assert ss[1..] == Strips(tail);
      assert tail[0] == ys[1] && tail[|tail| - 1] == ys[|ys| - 1];
    }
  }

  /** A NaN point makes the area NaN. */
  lemma TrapezoidNaN(ys: seq<Float>)
    requires |ys| >= 2 && ys[|ys| - 1] == NaN
    ensures Trapezoids(ys) == NaN
  {
    var ss := Strips(ys);
    assert ss[|ss| - 1] == NaN;
    AccumulateNaN(Fin(0.0), ss);
  }

  /** `random_auc = 0.5 * len(df) * 1`: the area under the diagonal. */
  function Baseline(n: nat): real
  {
    0.5 * n as real
  }

  /** `(auc_curve1 - random_auc1) / (auc_curve2 - random_auc2)` for the model
      losses `model` and the ideal losses `ideal`, both in sorted order. */
  function CaptureRatio(model: seq<real>, ideal: seq<real>): (r: Result<Float>)
    requires |model| == |ideal|
    ensures r.Err? <==> |model| < 2
    ensures r.Err? ==> r.failure == TooFewPoints
  {
    var a1 :- Auc(Curve(model));
    var a2 := Auc(Curve(ideal)).value;
    var h := Fin(Baseline(|model|));
    Ok(Quot(Sub(a1, h), Sub(a2, h)))
  }

  /** When the model orders the losses exactly as the ideal does, the ratio is
      1 wherever it is finite. */
  lemma SameOrderRatio(xs: seq<real>)
    requires |xs| >= 2
    ensures CaptureRatio(xs, xs).Ok?
    ensures CaptureRatio(xs, xs).value.Fin? ==> CaptureRatio(xs, xs).value == Fin(1.0)
  {
    var a := Trapezoids(Curve(xs));
    var d := Sub(a, Fin(Baseline(|xs|)));
    if d.Fin? && d.v != 0.0 {
      assert d.v / d.v == 1.0;
    }
  }

  /** The ratio is not a finite number when the ideal area equals the
      diagonal's: the excess area divided by is zero. */
  lemma RatioUndefined(model: seq<real>, ideal: seq<real>)
    requires |model| == |ideal| >= 2
    requires Trapezoids(Curve(ideal)) == Fin(Baseline(|ideal|))
    ensures !CaptureRatio(model, ideal).value.Fin?
  {
  }

  /** With a zero total loss the ratio is NaN. */
  lemma ZeroLossRatio(model: seq<real>, ideal: seq<real>)
    requires |model| == |ideal| >= 2
    requires Sum(model, Id) == 0.0 || Sum(ideal, Id) == 0.0
    ensures CaptureRatio(model, ideal) == Ok(NaN)
  {
    if Sum(model, Id) == 0.0 {
      CurveZeroTotal(model);
      TrapezoidNaN(Curve(model));
    } else {
      CurveZeroTotal(ideal);
      TrapezoidNaN(Curve(ideal));
    }
    RatioIsQuot(model, ideal);
    QuotNaN(Trapezoids(Curve(model)), Trapezoids(Curve(ideal)), Baseline(|model|));
  }

  lemma QuotNaN(a1: Float, a2: Float, b: real)
    requires a1 == NaN || a2 == NaN
    ensures Quot(Sub(a1, Fin(b)), Sub(a2, Fin(b))) == NaN
  {
  }

  /** On a nonzero total loss the area under the curve is finite: the sum of
      the points less half the first and half the last, which is 1. */
  lemma CurveArea(xs: seq<real>)
    requires |xs| >= 2 && Sum(xs, Id) != 0.0
    ensures Trapezoids(Curve(xs)).Fin?
    ensures Trapezoids(Curve(xs)).v == Sum(Curve(xs), ValueOf) - (Curve(xs)[0].v + 1.0) / 2.0
  {
    CurveEndsAtOne(xs);
    TrapezoidClosedForm(Curve(xs));
  }

  lemma AreaFinite(xs: seq<real>)
    requires |xs| >= 2 && Sum(xs, Id) != 0.0
    ensures Trapezoids(Curve(xs)).Fin?
  {
    CurveArea(xs);
  }

  /** On nonzero total losses the ratio is the quotient of the two finite
      excess areas. */
  lemma FiniteRatio(model: seq<real>, ideal: seq<real>)
    requires |model| == |ideal| >= 2
    requires Sum(model, Id) != 0.0 && Sum(ideal, Id) != 0.0
    ensures Trapezoids(Curve(model)).Fin? && Trapezoids(Curve(ideal)).Fin?
    ensures CaptureRatio(model, ideal).value
            == Div(Trapezoids(Curve(model)).v - Baseline(|model|), Trapezoids(Curve(ideal)).v - Baseline(|model|))
  {
    AreaFinite(model);
    AreaFinite(ideal);
    RatioIsQuot(model, ideal);
    QuotOfAreas(Trapezoids(Curve(model)), Trapezoids(Curve(ideal)), Baseline(|model|));
  }

  lemma RatioIsQuot(model: seq<real>, ideal: seq<real>)
    requires |model| == |ideal| >= 2
    ensures CaptureRatio(model, ideal)
         == Ok(Quot(Sub(Trapezoids(Curve(model)), Fin(Baseline(|model|))),
                    Sub(Trapezoids(Curve(ideal)), Fin(Baseline(|model|)))))
  {
  }

  lemma QuotOfAreas(a1: Float, a2: Float, b: real)
    requires a1.Fin? && a2.Fin?
    ensures Quot(Sub(a1, Fin(b)), Sub(a2, Fin(b))) == Div(a1.v - b, a2.v - b)
  {
  }

  /** `lcr` on rows: model order by predicted LGD, ideal order by actual LGD. */
  function LossCaptureRatio(rows: seq<Exposure>, sort: seq<Keyed> -> seq<Keyed>): (r: Result<Float>)
    requires IsSorter(sort)
    ensures r.Err? <==> |rows| < 2
    ensures r.Err? ==> r.failure == TooFewPoints
  {
    CaptureRatio(LossesBy(rows, PredOf, sort), LossesBy(rows, LgdOf, sort))
  }

  /** A model whose predictions equal the actual LGDs orders the rows as the
      ideal does, so its ratio is 1 wherever it is finite. */
  lemma PerfectModel(rows: seq<Exposure>, sort: seq<Keyed> -> seq<Keyed>)
    requires IsSorter(sort) && |rows| >= 2
    requires forall i :: 0 <= i < |rows| ==> rows[i].pred == rows[i].lgd
    ensures LossCaptureRatio(rows, sort).Ok?
    ensures LossCaptureRatio(rows, sort).value.Fin? ==> LossCaptureRatio(rows, sort).value == Fin(1.0)
  {
    assert KeyedBy(rows, PredOf) == KeyedBy(rows, LgdOf);
    SameOrderRatio(LossesBy(rows, LgdOf, sort));
  }

  /** With no loss in the table the ratio is NaN, whatever the orders. */
  lemma NoLoss(rows: seq<Exposure>, sort: seq<Keyed> -> seq<Keyed>)
    requires IsSorter(sort) && |rows| >= 2 && Sum(rows, LossOf) == 0.0
    ensures LossCaptureRatio(rows, sort) == Ok(NaN)
  {
    ZeroLossRatio(LossesBy(rows, PredOf, sort), LossesBy(rows, LgdOf, sort));
  }

  /** Each row of the table as an exposure, read from the LGD, EAD and
      predicted LGD columns at positions `cl`, `ce` and `cp`. */
  function Exposures(t: Table, cl: nat, ce: nat, cp: nat): (rows: seq<Exposure>)
    requires Rectangular(t)
    requires cl < |t.header| && ce < |t.header| && cp < |t.header|
    requires !HasMissing(t, cl) && !HasMissing(t, ce) && !HasMissing(t, cp)
    ensures |rows| == |t.rows|
    ensures forall i :: 0 <= i < |rows| ==>
              t.rows[i][cl] == Num(rows[i].lgd) && t.rows[i][ce] == Num(rows[i].ead)
              && t.rows[i][cp] == Num(rows[i].pred)
  {
    var ls := Values(t, cl);
    var es := Values(t, ce);
    var ps := Values(t, cp);
    seq(|t.rows|, i requires 0 <= i < |t.rows| => Exposure(ls[i], es[i], ps[i]))
  }

  /** `lcr(df, LGD_col, EAD_col, pred_LGD_col)`: the input ladder (NaNs are
      looked for in the EAD column first), then the ratio, of which the
      source reports the absolute value. */
  function LossCaptureTest(t: Table, lgdCol: Arg, eadCol: Arg, predCol: Arg,
                           sort: seq<Keyed> -> seq<Keyed>): (r: Result<Float>)
    requires Rectangular(t) && IsSorter(sort)
    ensures Validate(t, [lgdCol, eadCol, predCol], [1, 0, 2]).Err? ==>
              r == Err(Validate(t, [lgdCol, eadCol, predCol], [1, 0, 2]).failure)
    ensures Validate(t, [lgdCol, eadCol, predCol], [1, 0, 2]).Ok? ==>
              (r.Err? <==> |t.rows| < 2) && (r.Err? ==> r.failure == TooFewPoints)
    ensures r.Ok? ==> r.value == NaN || r.value == PosInf || (r.value.Fin? && r.value.v >= 0.0)
  {
    var cols :- Validate(t, [lgdCol, eadCol, predCol], [1, 0, 2]);
    ValidatedColumnsComplete(t, [lgdCol, eadCol, predCol], [1, 0, 2], 0);
    ValidatedColumnsComplete(t, [lgdCol, eadCol, predCol], [1, 0, 2], 1);
    ValidatedColumnsComplete(t, [lgdCol, eadCol, predCol], [1, 0, 2], 2);
    AbsRatio(t, cols[0], cols[1], cols[2], sort)
  }

  /** The absolute capture ratio of validated LGD, EAD and prediction columns. */
  function AbsRatio(t: Table, cl: nat, ce: nat, cp: nat,
                    sort: seq<Keyed> -> seq<Keyed>): (r: Result<Float>)
    requires Rectangular(t) && IsSorter(sort)
    requires cl < |t.header| && ce < |t.header| && cp < |t.header|
    requires !HasMissing(t, cl) && !HasMissing(t, ce) && !HasMissing(t, cp)
    ensures (r.Err? <==> |t.rows| < 2) && (r.Err? ==> r.failure == TooFewPoints)
    ensures r.Ok? ==> r.value == NaN || r.value == PosInf || (r.value.Fin? && r.value.v >= 0.0)
  {
    var rows := Exposures(t, cl, ce, cp);
    var model := LossesBy(rows, SortKey(t.header[cp], PredOf), sort);
    var ideal := LossesBy(rows, SortKey(t.header[cl], LgdOf), sort);
    var ratio :- CaptureRatio(model, ideal);
    Ok(Abs(ratio))
  }

  /** When neither sort column is the loss column, the ratio is the one of
      `LossCaptureRatio`: model by predicted LGD, ideal by LGD. */
  lemma PlainColumns(t: Table, cl: nat, ce: nat, cp: nat, sort: seq<Keyed> -> seq<Keyed>)
    requires Rectangular(t) && IsSorter(sort)
    requires cl < |t.header| && ce < |t.header| && cp < |t.header|
    requires !HasMissing(t, cl) && !HasMissing(t, ce) && !HasMissing(t, cp)
    requires t.header[cl] != LossColumn && t.header[cp] != LossColumn
    ensures var r := LossCaptureRatio(Exposures(t, cl, ce, cp), sort);
            AbsRatio(t, cl, ce, cp, sort) == if r.Ok? then Ok(Abs(r.value)) else r
  {
  }

  /** When the LGD column is itself named `loss`, the ideal curve is sorted by
      the loss it sums: its losses never increase. */
  lemma LossNamedIdeal(rows: seq<Exposure>, sort: seq<Keyed> -> seq<Keyed>)
    requires IsSorter(sort)
    ensures var ls := LossesBy(rows, SortKey(LossColumn, LgdOf), sort);
            forall i, j :: 0 <= i < j < |ls| ==> ls[i] >= ls[j]
  {
    var ls := LossesBy(rows, SortKey(LossColumn, LgdOf), sort);
    var ks: seq<Keyed> :| multiset(ks) == multiset(KeyedBy(rows, LossOf)) && SortedByKey(ks)
              && ls == Map(ks, KeyedLoss);
    forall i | 0 <= i < |ks|
      ensures ks[i].key == KeyedLoss(ks[i])
    {
      KeyIsLoss(rows, ks, i);
    }
  }

  /** In a rearrangement of the rows keyed by their loss, each key is its row's loss. */
  lemma KeyIsLoss(rows: seq<Exposure>, ks: seq<Keyed>, i: nat)
    requires multiset(ks) == multiset(KeyedBy(rows, LossOf)) && i < |ks|
    ensures ks[i].key == KeyedLoss(ks[i])
  {
    assert ks[i] in multiset(ks);
    var kb := KeyedBy(rows, LossOf);
    assert ks[i] in kb;
    var j :| 0 <= j < |kb| && kb[j] == ks[i];
  }
}
