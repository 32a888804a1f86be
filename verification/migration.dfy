/** Rating-migration statistics (risktests/Customer_migrations.py): the
    crosstab of initial against final ratings, its row-normalised shares, and
    the upper and lower matrix weighted bandwidths with their normalisers.
    Indices are 1-based positions in the sorted distinct ratings, as in the
    source's loops. */
module Migration {
  import opened Seqs
  import opened Frame
  import opened Outcomes
  import opened Floats
  import Somers

  /** One obligor: its rating at the start and at the end of the period. */
  datatype Move = Move(initial: real, final: real)

  function InitialOf(m: Move): real { m.initial }
  function FinalOf(m: Move): real { m.final }

  function InCell(a: real, b: real): Move -> bool
  {
    (m: Move) => m.initial == a && m.final == b
  }

  function RatedAt(a: real): Move -> bool
  {
    (m: Move) => m.initial == a
  }

  /** `pd.crosstab(a, b)`: the row labels, the column labels and the counts. */
  datatype Crosstab = Crosstab(rows: seq<real>, cols: seq<real>, counts: seq<seq<nat>>)

  /** One count per row label and column label. */
  predicate Shaped(ct: Crosstab)
  {
    |ct.counts| == |ct.rows| && forall i :: 0 <= i < |ct.counts| ==> |ct.counts[i]| == |ct.cols|
  }

  /** The crosstab of a sequence of moves: rows are the sorted distinct initial
      ratings, columns the sorted distinct final ratings, and each cell counts
      the obligors moving from the row's rating to the column's. */
  function Tabulate(ms: seq<Move>): (ct: Crosstab)
    ensures Shaped(ct)
    ensures |ct.rows| == |Levels(Map(ms, InitialOf))| && |ct.cols| == |Levels(Map(ms, FinalOf))|
  {
    var a := Levels(Map(ms, InitialOf));
    var b := Levels(Map(ms, FinalOf));
    Crosstab(a, b, seq(|a|, i requires 0 <= i < |a| =>
                     seq(|b|, j requires 0 <= j < |b| => Count(ms, InCell(a[i], b[j])))))
  }

  /** K: the number of distinct initial ratings. */
  function Grades(ct: Crosstab): nat { |ct.rows| }

  /** The number of distinct final ratings, the crosstab's width. */
  function FinalGrades(ct: Crosstab): nat { |ct.cols| }

  /** `N_ij.iloc[i-1, j-1]`, read as zero outside the table. */
  function N(ct: Crosstab, i: int, j: int): (n: real)
    ensures n >= 0.0
  {
    if 1 <= i <= |ct.counts| && 1 <= j <= |ct.cols| && j <= |ct.counts[i - 1]| then ct.counts[i - 1][j - 1] as real
    else 0.0
  }

  function CellsOf(ct: Crosstab, i: int): int -> real
  {
    j => N(ct, i, j)
  }

  /** `N_ij.sum(axis=1).values[i-1]`: the total of row `i`. */
  function RowTotal(ct: Crosstab, i: int): real
  {
    RangeSum(1, FinalGrades(ct) + 1, CellsOf(ct, i))
  }

  /** `p_ij.iloc[i-1, j-1]` of `crosstab(..., normalize='index')`: the count over
      its row total. A tabulated row is never empty (RowsAreRatingCounts), so
      the zero branch is never taken for a crosstab of moves. */
  function Share(ct: Crosstab, i: int, j: int): real
  {
    if RowTotal(ct, i) > 0.0 then N(ct, i, j) / RowTotal(ct, i) else 0.0
  }

  function SharesOf(ct: Crosstab, i: int): int -> real
  {
    j => Share(ct, i, j)
  }

  /** `max(i-K, i-1)`: for any K >= 1 simply i - 1, so row 1 weighs nothing. */
  function Weight(i: int, k: int): (w: int)
    ensures k >= 1 ==> w == i - 1
  {
    if i - k > i - 1 then i - k else i - 1
  }

  /** `abs(i-j)`. */
  function Distance(i: int, j: int): real
  {
    if i >= j then (i - j) as real else (j - i) as real
  }

  // ---------------------------------------------------------------------------
  // The four sums, as the loops compute them

  function UpperNormRow(ct: Crosstab): int -> real
  {
    i => Weight(i, Grades(ct)) as real * RowTotal(ct, i) * RangeSum(i + 1, FinalGrades(ct) + 1, SharesOf(ct, i))
  }

  /** `mnormu`: rows 1..K-1, shares of columns i+1 up to the crosstab's last. */
  function UpperNorm(ct: Crosstab): real
  {
    RangeSum(1, Grades(ct), UpperNormRow(ct))
  }

  function LowerNormRow(ct: Crosstab): int -> real
  {
    i => Weight(i, Grades(ct)) as real * RowTotal(ct, i) * RangeSum(1, i, SharesOf(ct, i))
  }

  /** `mnorml`: rows 2..K, shares of columns 1..i-1. */
  function LowerNorm(ct: Crosstab): real
  {
    RangeSum(2, Grades(ct) + 1, LowerNormRow(ct))
  }

  function MassTerm(ct: Crosstab, i: int): int -> real
  {
    j => Distance(i, j) * RowTotal(ct, i) * Share(ct, i, j)
  }

  function UpperMassRow(ct: Crosstab): int -> real
  {
    i => RangeSum(i + 1, Grades(ct) + 1, MassTerm(ct, i))
  }

  /** `upper_mwb` before scaling: rows 1..K-1, columns i+1..K. */
  function UpperMass(ct: Crosstab): real
  {
    RangeSum(1, Grades(ct), UpperMassRow(ct))
  }

  function LowerMassRow(ct: Crosstab): int -> real
  {
    i => RangeSum(1, i, MassTerm(ct, i))
  }

  /** `lower_mwb` before scaling: rows 2..K, columns 1..i-1. */
  function LowerMass(ct: Crosstab): real
  {
    RangeSum(2, Grades(ct) + 1, LowerMassRow(ct))
  }

  // ---------------------------------------------------------------------------
  // The same sums over counts only: the reference the loops are checked against

  function UpCount(ct: Crosstab, i: int): int -> real
  {
    j => (j - i) as real * N(ct, i, j)
  }

  function DownCount(ct: Crosstab, i: int): int -> real
  {
    j => (i - j) as real * N(ct, i, j)
  }

  function UpperCountRow(ct: Crosstab): int -> real
  {
    i => RangeSum(i + 1, Grades(ct) + 1, UpCount(ct, i))
  }

  function LowerCountRow(ct: Crosstab): int -> real
  {
    i => RangeSum(1, i, DownCount(ct, i))
  }

  function UpperNormCountRow(ct: Crosstab): int -> real
  {
    i => (i - 1) as real * RangeSum(i + 1, FinalGrades(ct) + 1, CellsOf(ct, i))
  }

  function LowerNormCountRow(ct: Crosstab): int -> real
  {
    i => (i - 1) as real * RangeSum(1, i, CellsOf(ct, i))
  }

  /** Σ (j - i)·N_ij over 1 <= i < j <= K: notches moved up, within the first K columns. */
  function UpperCounts(ct: Crosstab): real
  {
    RangeSum(1, Grades(ct), UpperCountRow(ct))
  }

  /** Σ (i - j)·N_ij over 1 <= j < i <= K: notches moved down. */
  function LowerCounts(ct: Crosstab): real
  {
    RangeSum(2, Grades(ct) + 1, LowerCountRow(ct))
  }

  /** Σ (i - 1)·N_ij over 2 <= i < K and i < j, up to the last column. */
  function UpperNormCounts(ct: Crosstab): real
  {
    RangeSum(2, Grades(ct), UpperNormCountRow(ct))
  }

  /** Σ (i - 1)·N_ij over 2 <= i <= K and j < i. */
  function LowerNormCounts(ct: Crosstab): real
  {
    RangeSum(2, Grades(ct) + 1, LowerNormCountRow(ct))
  }

  // ---------------------------------------------------------------------------
  // Shares times row totals are counts

  /** `rowTotal_i · p_ij = N_ij` for every cell: the row-normalised crosstab
      times its row totals gives the counts back. */
  lemma RowTimesShare(ct: Crosstab, i: int, j: int)
    ensures RowTotal(ct, i) * Share(ct, i, j) == N(ct, i, j)
  {
    var t := RowTotal(ct, i);
    RangeSumZero(1, FinalGrades(ct) + 1, CellsOf(ct, i));
    if t > 0.0 {
      assert t * (N(ct, i, j) / t) == N(ct, i, j);
    } else if 1 <= j <= FinalGrades(ct) {
      assert CellsOf(ct, i)(j) == 0.0;
    }
  }

  lemma Associate(a: real, b: real, c: real)
    ensures a * b * c == a * (b * c)
  {
  }

  /** Row `i` of the share sum, times the row total, is the row's count sum. */
  lemma RowShareSum(ct: Crosstab, i: int, lo: int, hi: int)
    ensures RowTotal(ct, i) * RangeSum(lo, hi, SharesOf(ct, i)) == RangeSum(lo, hi, CellsOf(ct, i))
  {
    ScaledCells(ct, i, lo, hi);
    RangeSumScale(lo, hi, SharesOf(ct, i), CellsOf(ct, i), RowTotal(ct, i));
  }

  lemma ScaledCells(ct: Crosstab, i: int, lo: int, hi: int)
    ensures forall j :: lo <= j < hi ==> CellsOf(ct, i)(j) == RowTotal(ct, i) * SharesOf(ct, i)(j)
  {
    forall j | lo <= j < hi ensures CellsOf(ct, i)(j) == RowTotal(ct, i) * SharesOf(ct, i)(j) {
      CellIsScaledShare(ct, i, j);
    }
  }

  lemma CellIsScaledShare(ct: Crosstab, i: int, j: int)
    ensures CellsOf(ct, i)(j) == RowTotal(ct, i) * SharesOf(ct, i)(j)
  {
    RowTimesShare(ct, i, j);
    assert SharesOf(ct, i)(j) == Share(ct, i, j) && CellsOf(ct, i)(j) == N(ct, i, j);
  }

  /** Each bandwidth term |i - j|·rowTotal_i·p_ij is |i - j|·N_ij, so the loops
      sum the notches obligors moved: up (j > i) in `upper_mwb`, down (j < i)
      in `lower_mwb`. Diagonal cells enter neither. */
  lemma MassesAreCounts(ct: Crosstab)
    ensures UpperMass(ct) == UpperCounts(ct)
    ensures LowerMass(ct) == LowerCounts(ct)
  {
    UpperMassIsCounts(ct);
    LowerMassIsCounts(ct);
  }

  lemma UpperMassIsCounts(ct: Crosstab)
    ensures UpperMass(ct) == UpperCounts(ct)
  {
    forall i | 1 <= i < Grades(ct) ensures UpperMassRow(ct)(i) == UpperCountRow(ct)(i) {
      forall j | i + 1 <= j < Grades(ct) + 1 ensures MassTerm(ct, i)(j) == UpCount(ct, i)(j) {
        MassCell(ct, i, j);
      }
      RangeSumCongruent(i + 1, Grades(ct) + 1, MassTerm(ct, i), UpCount(ct, i));
    }
    RangeSumCongruent(1, Grades(ct), UpperMassRow(ct), UpperCountRow(ct));
  }

  lemma LowerMassIsCounts(ct: Crosstab)
    ensures LowerMass(ct) == LowerCounts(ct)
  {
    forall i | 2 <= i < Grades(ct) + 1 ensures LowerMassRow(ct)(i) == LowerCountRow(ct)(i) {
      forall j | 1 <= j < i ensures MassTerm(ct, i)(j) == DownCount(ct, i)(j) {
        MassCell(ct, i, j);
      }
      RangeSumCongruent(1, i, MassTerm(ct, i), DownCount(ct, i));
    }
    RangeSumCongruent(2, Grades(ct) + 1, LowerMassRow(ct), LowerCountRow(ct));
  }

  /** One bandwidth term is the distance times the cell count. */
  lemma MassCell(ct: Crosstab, i: int, j: int)
    ensures MassTerm(ct, i)(j) == Distance(i, j) * N(ct, i, j)
  {
    RowTimesShare(ct, i, j);
    Associate(Distance(i, j), RowTotal(ct, i), Share(ct, i, j));
  }

  /** The normalisers weigh row i by i - 1 and count its obligors moving up
      (for `mnormu`, to any later column of the crosstab) or down (for
      `mnorml`). Row 1 contributes to neither. */
  lemma NormsAreCounts(ct: Crosstab)
    ensures UpperNorm(ct) == UpperNormCounts(ct)
    ensures LowerNorm(ct) == LowerNormCounts(ct)
  {
    UpperNormIsCounts(ct);
    LowerNormIsCounts(ct);
  }

  lemma UpperNormIsCounts(ct: Crosstab)
    ensures UpperNorm(ct) == UpperNormCounts(ct)
  {
    var k := Grades(ct);
    forall i | 2 <= i < k ensures UpperNormRow(ct)(i) == UpperNormCountRow(ct)(i) {
      UpperNormRowIsCount(ct, i);
    }
    RangeSumCongruent(2, k, UpperNormRow(ct), UpperNormCountRow(ct));
    if k > 1 {
      assert UpperNormRow(ct)(1) == 0.0;
      assert UpperNorm(ct) == UpperNormRow(ct)(1) + RangeSum(2, k, UpperNormRow(ct));
    }
  }

  lemma LowerNormIsCounts(ct: Crosstab)
    ensures LowerNorm(ct) == LowerNormCounts(ct)
  {
    var k := Grades(ct);
    forall i | 2 <= i < k + 1 ensures LowerNormRow(ct)(i) == LowerNormCountRow(ct)(i) {
      LowerNormRowIsCount(ct, i);
    }
    RangeSumCongruent(2, k + 1, LowerNormRow(ct), LowerNormCountRow(ct));
  }

  lemma UpperNormRowIsCount(ct: Crosstab, i: int)
    requires 1 <= i <= Grades(ct)
    ensures UpperNormRow(ct)(i) == UpperNormCountRow(ct)(i)
  {
    WeightedRow(ct, i, i + 1, FinalGrades(ct) + 1);
    RowsMeet(UpperNormRow(ct), UpperNormCountRow(ct), i,
             Weight(i, Grades(ct)) as real * RowTotal(ct, i) * RangeSum(i + 1, FinalGrades(ct) + 1, SharesOf(ct, i)),
             (i - 1) as real * RangeSum(i + 1, FinalGrades(ct) + 1, CellsOf(ct, i)));
  }

  lemma LowerNormRowIsCount(ct: Crosstab, i: int)
    requires 1 <= i <= Grades(ct)
    ensures LowerNormRow(ct)(i) == LowerNormCountRow(ct)(i)
  {
    WeightedRow(ct, i, 1, i);
    RowsMeet(LowerNormRow(ct), LowerNormCountRow(ct), i,
             Weight(i, Grades(ct)) as real * RowTotal(ct, i) * RangeSum(1, i, SharesOf(ct, i)),
             (i - 1) as real * RangeSum(1, i, CellsOf(ct, i)));
  }

  /** Two rows that evaluate to equal values agree at that row. */
  lemma RowsMeet(f: int -> real, g: int -> real, i: int, p: real, q: real)
    requires f(i) == p && g(i) == q && p == q
    ensures f(i) == g(i)
  {
  }

  /** One normaliser row: weight times row total times a share sum is
      (i - 1) times the count sum. */
  lemma WeightedRow(ct: Crosstab, i: int, lo: int, hi: int)
    requires 1 <= i <= Grades(ct)
    ensures Weight(i, Grades(ct)) as real * RowTotal(ct, i) * RangeSum(lo, hi, SharesOf(ct, i))
         == (i - 1) as real * RangeSum(lo, hi, CellsOf(ct, i))
  {
    RowShareSum(ct, i, lo, hi);
    WeightedProduct(Weight(i, Grades(ct)) as real, RowTotal(ct, i), RangeSum(lo, hi, SharesOf(ct, i)),
                    RangeSum(lo, hi, CellsOf(ct, i)), (i - 1) as real);
  }

  lemma WeightedProduct(w: real, t: real, s: real, c: real, v: real)
    requires t * s == c && w == v
    ensures w * t * s == v * c
  {
    Associate(w, t, s);
  }

  // ---------------------------------------------------------------------------
  // Signs and bounds

  /** Every count-form sum is non-negative. */
  lemma CountsNonNegative(ct: Crosstab)
    ensures UpperCounts(ct) >= 0.0 && LowerCounts(ct) >= 0.0
    ensures UpperNormCounts(ct) >= 0.0 && LowerNormCounts(ct) >= 0.0
  {
    UpperCountsNonNegative(ct);
    UpperNormCountsNonNegative(ct);
    LowerBelowNorm(ct);
  }

  lemma UpperCountsNonNegative(ct: Crosstab)
    ensures UpperCounts(ct) >= 0.0
  {
    var k := Grades(ct);
    forall i | 1 <= i < k ensures UpperCountRow(ct)(i) >= 0.0 {
      UpperCountRowNonNegative(ct, i);
    }
    RangeSumZero(1, k, UpperCountRow(ct));
  }

  lemma UpperCountRowNonNegative(ct: Crosstab, i: int)
    ensures UpperCountRow(ct)(i) >= 0.0
  {
    var k := Grades(ct);
    forall j | i + 1 <= j < k + 1 ensures UpCount(ct, i)(j) >= 0.0 {
      MulNonNegative((j - i) as real, N(ct, i, j));
    }
    RangeSumZero(i + 1, k + 1, UpCount(ct, i));
  }

  lemma UpperNormCountsNonNegative(ct: Crosstab)
    ensures UpperNormCounts(ct) >= 0.0
  {
    var k := Grades(ct);
    forall i | 2 <= i < k ensures UpperNormCountRow(ct)(i) >= 0.0 {
      RangeSumZero(i + 1, FinalGrades(ct) + 1, CellsOf(ct, i));
      MulNonNegative((i - 1) as real, RangeSum(i + 1, FinalGrades(ct) + 1, CellsOf(ct, i)));
    }
    RangeSumZero(2, k, UpperNormCountRow(ct));
  }

  /** Down-moves weigh i - j <= i - 1 in `lower_mwb` and i - 1 in `mnorml`, so
      the lower sum never exceeds its normaliser, and both vanish together:
      exactly when no obligor in rows 2..K moved down. */
  lemma LowerBelowNorm(ct: Crosstab)
    ensures 0.0 <= LowerCounts(ct) <= LowerNormCounts(ct)
    ensures LowerCounts(ct) == 0.0 <==> LowerNormCounts(ct) == 0.0
    ensures LowerNormCounts(ct) == 0.0 <==> forall i, j :: 2 <= i <= Grades(ct) && 1 <= j < i ==> N(ct, i, j) == 0.0
  {
    var k := Grades(ct);
    forall i | 2 <= i < k + 1
      ensures 0.0 <= LowerCountRow(ct)(i) <= LowerNormCountRow(ct)(i)
      ensures LowerCountRow(ct)(i) == 0.0 <==> forall j :: 1 <= j < i ==> N(ct, i, j) == 0.0
      ensures LowerNormCountRow(ct)(i) == 0.0 <==> forall j :: 1 <= j < i ==> N(ct, i, j) == 0.0
    {
      LowerRow(ct, i);
    }
    RangeSumZero(2, k + 1, LowerCountRow(ct));
    RangeSumZero(2, k + 1, LowerNormCountRow(ct));
    RangeSumMonotone(2, k + 1, LowerCountRow(ct), LowerNormCountRow(ct));
    if LowerNormCounts(ct) == 0.0 {
      forall i, j | 2 <= i <= k && 1 <= j < i ensures N(ct, i, j) == 0.0 {
        assert LowerNormCountRow(ct)(i) == 0.0;
      }
    } else {
      var i :| 2 <= i < k + 1 && LowerNormCountRow(ct)(i) != 0.0;
      var j :| 1 <= j < i && N(ct, i, j) != 0.0;
    }
  }

  /** One row of LowerBelowNorm. */
  lemma LowerRow(ct: Crosstab, i: int)
    requires i >= 2
    ensures 0.0 <= LowerCountRow(ct)(i) <= LowerNormCountRow(ct)(i)
    ensures LowerCountRow(ct)(i) == 0.0 <==> forall j :: 1 <= j < i ==> N(ct, i, j) == 0.0
    ensures LowerNormCountRow(ct)(i) == 0.0 <==> forall j :: 1 <= j < i ==> N(ct, i, j) == 0.0
  {
    LowerRowMoves(ct, i);
    LowerRowNorm(ct, i);
  }

  lemma LowerRowMoves(ct: Crosstab, i: int)
    requires i >= 2
    ensures 0.0 <= LowerCountRow(ct)(i)
    ensures LowerCountRow(ct)(i) == 0.0 <==> forall j :: 1 <= j < i ==> N(ct, i, j) == 0.0
  {
    forall j | 1 <= j < i
      ensures 0.0 <= DownCount(ct, i)(j)
      ensures DownCount(ct, i)(j) == 0.0 <==> N(ct, i, j) == 0.0
    {
      DownTerm(ct, i, j);
    }
    RangeSumZero(1, i, DownCount(ct, i));
  }

  lemma LowerRowNorm(ct: Crosstab, i: int)
    requires i >= 2
    ensures LowerCountRow(ct)(i) <= LowerNormCountRow(ct)(i)
    ensures LowerNormCountRow(ct)(i) == 0.0 <==> forall j :: 1 <= j < i ==> N(ct, i, j) == 0.0
  {
    var w := (i - 1) as real;
    var scaled := Scaled(ct, i, w);
    forall j | 1 <= j < i ensures DownCount(ct, i)(j) <= scaled(j) {
      DownTerm(ct, i, j);
    }
    RangeSumMonotone(1, i, DownCount(ct, i), scaled);
    ScaledRowSum(ct, i);
  }

  /** The row's weighted count sum is (i - 1) times its plain count sum. */
  lemma ScaledRowSum(ct: Crosstab, i: int)
    requires i >= 2
    ensures RangeSum(1, i, Scaled(ct, i, (i - 1) as real)) == LowerNormCountRow(ct)(i)
    ensures LowerNormCountRow(ct)(i) == 0.0 <==> forall j :: 1 <= j < i ==> N(ct, i, j) == 0.0
  {
    var w := (i - 1) as real;
    var scaled := Scaled(ct, i, w);
    forall j | 1 <= j < i ensures scaled(j) == w * CellsOf(ct, i)(j) && CellsOf(ct, i)(j) == N(ct, i, j) {
    }
    RangeSumScale(1, i, CellsOf(ct, i), scaled, w);
    RangeSumZero(1, i, CellsOf(ct, i));
    WeightedTerm(w, w, RangeSum(1, i, CellsOf(ct, i)));
    assert LowerNormCountRow(ct)(i) == w * RangeSum(1, i, CellsOf(ct, i));
  }

  /** A downward move of i - j notches weighs its count by at least 1 and at
      most i - 1. */
  lemma DownTerm(ct: Crosstab, i: int, j: int)
    requires 1 <= j < i
    ensures 0.0 <= DownCount(ct, i)(j) <= Scaled(ct, i, (i - 1) as real)(j)
    ensures DownCount(ct, i)(j) == 0.0 <==> N(ct, i, j) == 0.0
  {
    var d, w, n := (i - j) as real, (i - 1) as real, N(ct, i, j);
    WeightedTerm(d, w, n);
    assert DownCount(ct, i)(j) == d * n;
    assert Scaled(ct, i, w)(j) == w * n;
  }

  function Scaled(ct: Crosstab, i: int, w: real): int -> real
  {
    j => w * N(ct, i, j)
  }

  /** A count weighed by d in [1, w]. */
  lemma WeightedTerm(d: real, w: real, n: real)
    requires 1.0 <= d <= w && n >= 0.0
    ensures 0.0 <= d * n <= w * n
    ensures d * n == 0.0 <==> n == 0.0
  {
    assert w * n - d * n == (w - d) * n;
    MulNonNegative(w - d, n);
    Somers.PositiveScale(d, n);
  }

  // ---------------------------------------------------------------------------
  // The statistics

  /** The two statistics: with one initial rating both loops are empty and
      `1/mnormu` divides the integer 0; with fewer final than initial ratings
      `iloc` runs past the last column in the first `upper_mwb` row; otherwise
      numpy divides, giving inf or NaN where a normaliser is zero. */
  function Bandwidths(ct: Crosstab): (r: Result<(Float, Float)>)
    ensures r == Err(ZeroDivision) <==> Grades(ct) <= 1
    ensures r == Err(PositionOutOfRange) <==> 2 <= Grades(ct) && FinalGrades(ct) < Grades(ct)
    ensures r.Ok? <==> 2 <= Grades(ct) <= FinalGrades(ct)
    ensures r.Ok? ==> var up := r.value.0;
              && (up.NaN? <==> UpperNormCounts(ct) == 0.0 && UpperCounts(ct) == 0.0)
              && (up == PosInf <==> UpperNormCounts(ct) == 0.0 && UpperCounts(ct) > 0.0)
              && (up.Fin? <==> UpperNormCounts(ct) > 0.0)
              && (up.Fin? ==> up.v == UpperCounts(ct) / UpperNormCounts(ct) && up.v >= 0.0)
    ensures r.Ok? ==> var low := r.value.1;
              && (low.NaN? <==> LowerNormCounts(ct) == 0.0)
              && (low.Fin? <==> LowerNormCounts(ct) > 0.0)
              && (low.Fin? ==> low.v == LowerCounts(ct) / LowerNormCounts(ct) && 0.0 < low.v <= 1.0)
  {
    if Grades(ct) <= 1 then Err(ZeroDivision)
    else if FinalGrades(ct) < Grades(ct) then Err(PositionOutOfRange)
    else
      MassesAreCounts(ct);
      NormsAreCounts(ct);
      CountsNonNegative(ct);
      LowerBelowNorm(ct);
      ScaledRatio(UpperMass(ct), UpperNorm(ct));
      ScaledRatio(LowerMass(ct), LowerNorm(ct));
      if LowerNorm(ct) > 0.0 then RatioAtMostOne(LowerMass(ct), LowerNorm(ct)); Ok(ScaledPair(ct))
      else Ok(ScaledPair(ct))
  }

  /** `((1/mnormu)*upper_mwb, (1/mnorml)*lower_mwb)`. */
  function ScaledPair(ct: Crosstab): (Float, Float)
  {
    (Mul(Div(1.0, UpperNorm(ct)), Fin(UpperMass(ct))), Mul(Div(1.0, LowerNorm(ct)), Fin(LowerMass(ct))))
  }

  /** `(1/m)*x` in float64 for m, x >= 0. */
  lemma ScaledRatio(x: real, m: real)
    requires x >= 0.0 && m >= 0.0
    ensures m > 0.0 ==> Mul(Div(1.0, m), Fin(x)) == Fin(x / m) && x / m >= 0.0
    ensures m == 0.0 && x > 0.0 ==> Mul(Div(1.0, m), Fin(x)) == PosInf
    ensures m == 0.0 && x == 0.0 ==> Mul(Div(1.0, m), Fin(x)) == NaN
  {
    if m > 0.0 {
      assert (1.0 / m) * x == x / m;
    }
  }

  lemma RatioAtMostOne(x: real, m: real)
    requires 0.0 < x <= m
    ensures 0.0 < x / m <= 1.0
  {
  }

  // ---------------------------------------------------------------------------
  // Only off-diagonal counts matter

  /** Two crosstabs of the same dimensions whose off-diagonal counts agree have
      the same four sums: staying put enters no sum, and neither does the size
      of row 1's diagonal. */
  lemma OffDiagonalOnly(ct: Crosstab, ct': Crosstab)
    requires Grades(ct) == Grades(ct') && FinalGrades(ct) == FinalGrades(ct')
    requires forall i, j :: i != j ==> N(ct, i, j) == N(ct', i, j)
    ensures UpperMass(ct) == UpperMass(ct') && LowerMass(ct) == LowerMass(ct')
    ensures UpperNorm(ct) == UpperNorm(ct') && LowerNorm(ct) == LowerNorm(ct')
    ensures Bandwidths(ct) == Bandwidths(ct')
  {
    MassesAreCounts(ct);
    MassesAreCounts(ct');
    NormsAreCounts(ct);
    NormsAreCounts(ct');
    UpperOffDiagonal(ct, ct');
    LowerOffDiagonal(ct, ct');
  }

  lemma UpperOffDiagonal(ct: Crosstab, ct': Crosstab)
    requires Grades(ct) == Grades(ct') && FinalGrades(ct) == FinalGrades(ct')
    requires forall i, j :: i != j ==> N(ct, i, j) == N(ct', i, j)
    ensures UpperCounts(ct) == UpperCounts(ct') && UpperNormCounts(ct) == UpperNormCounts(ct')
  {
    UpperCountsAgree(ct, ct');
    UpperNormCountsAgree(ct, ct');
  }

  lemma UpperCountsAgree(ct: Crosstab, ct': Crosstab)
    requires Grades(ct) == Grades(ct') && FinalGrades(ct) == FinalGrades(ct')
    requires forall i, j :: i != j ==> N(ct, i, j) == N(ct', i, j)
    ensures UpperCounts(ct) == UpperCounts(ct')
  {
    var k := Grades(ct);
    forall i | 1 <= i < k ensures UpperCountRow(ct)(i) == UpperCountRow(ct')(i) {
      RangeSumCongruent(i + 1, k + 1, UpCount(ct, i), UpCount(ct', i));
    }
    RangeSumCongruent(1, k, UpperCountRow(ct), UpperCountRow(ct'));
  }

  lemma UpperNormCountsAgree(ct: Crosstab, ct': Crosstab)
    requires Grades(ct) == Grades(ct') && FinalGrades(ct) == FinalGrades(ct')
    requires forall i, j :: i != j ==> N(ct, i, j) == N(ct', i, j)
    ensures UpperNormCounts(ct) == UpperNormCounts(ct')
  {
    var k, k' := Grades(ct), FinalGrades(ct);
    forall i | 2 <= i < k ensures UpperNormCountRow(ct)(i) == UpperNormCountRow(ct')(i) {
      RangeSumCongruent(i + 1, k' + 1, CellsOf(ct, i), CellsOf(ct', i));
    }
    RangeSumCongruent(2, k, UpperNormCountRow(ct), UpperNormCountRow(ct'));
  }

  lemma LowerOffDiagonal(ct: Crosstab, ct': Crosstab)
    requires Grades(ct) == Grades(ct') && FinalGrades(ct) == FinalGrades(ct')
    requires forall i, j :: i != j ==> N(ct, i, j) == N(ct', i, j)
    ensures LowerCounts(ct) == LowerCounts(ct') && LowerNormCounts(ct) == LowerNormCounts(ct')
  {
    LowerCountsAgree(ct, ct');
    LowerNormCountsAgree(ct, ct');
  }

  lemma LowerCountsAgree(ct: Crosstab, ct': Crosstab)
    requires Grades(ct) == Grades(ct') && FinalGrades(ct) == FinalGrades(ct')
    requires forall i, j :: i != j ==> N(ct, i, j) == N(ct', i, j)
    ensures LowerCounts(ct) == LowerCounts(ct')
  {
    var k := Grades(ct);
    forall i | 2 <= i < k + 1 ensures LowerCountRow(ct)(i) == LowerCountRow(ct')(i) {
      RangeSumCongruent(1, i, DownCount(ct, i), DownCount(ct', i));
    }
    RangeSumCongruent(2, k + 1, LowerCountRow(ct), LowerCountRow(ct'));
  }

  lemma LowerNormCountsAgree(ct: Crosstab, ct': Crosstab)
    requires Grades(ct) == Grades(ct') && FinalGrades(ct) == FinalGrades(ct')
    requires forall i, j :: i != j ==> N(ct, i, j) == N(ct', i, j)
    ensures LowerNormCounts(ct) == LowerNormCounts(ct')
  {
    var k := Grades(ct);
    forall i | 2 <= i < k + 1 ensures LowerNormCountRow(ct)(i) == LowerNormCountRow(ct')(i) {
      RangeSumCongruent(1, i, CellsOf(ct, i), CellsOf(ct', i));
    }
    RangeSumCongruent(2, k + 1, LowerNormCountRow(ct), LowerNormCountRow(ct'));
  }

  /** With more final than initial ratings, `mnormu` counts moves beyond
      column K that `upper_mwb` ignores: here the only up-move, from row 2 to
      column 4, makes the upper normaliser 1 while the upper sum stays 0. */
  lemma ExtraColumnsExample()
    ensures var ct := Crosstab([1.0, 2.0, 3.0], [1.0, 2.0, 3.0, 4.0],
                               [[1, 0, 0, 0], [0, 0, 0, 1], [0, 1, 1, 0]]);
            Bandwidths(ct) == Ok((Fin(0.0), Fin(0.5)))
  {
    var ct := Crosstab([1.0, 2.0, 3.0], [1.0, 2.0, 3.0, 4.0], [[1, 0, 0, 0], [0, 0, 0, 1], [0, 1, 1, 0]]);
    assert RangeSum(3, 4, UpCount(ct, 1)) == 0.0;
    assert UpperCountRow(ct)(1) == 0.0;
    assert UpperCountRow(ct)(2) == 0.0;
    assert UpperCounts(ct) == 0.0;
    assert UpperNormCountRow(ct)(2) == 1.0;
    assert UpperNormCounts(ct) == 1.0;
    assert LowerCountRow(ct)(2) == 0.0;
    assert LowerCountRow(ct)(3) == 1.0;
    assert LowerCounts(ct) == 1.0;
    assert LowerNormCountRow(ct)(2) == 0.0;
    assert LowerNormCountRow(ct)(3) == 2.0;
    assert LowerNormCounts(ct) == 2.0;
  }

  // ---------------------------------------------------------------------------
  // The crosstab of a table's moves

  /** Column j of a row, for the row label `a` and column labels `b`. */
  function ColumnCounts(ms: seq<Move>, a: real, b: seq<real>): int -> real
  {
    j => if 1 <= j <= |b| then Count(ms, InCell(a, b[j - 1])) as real else 0.0
  }

  /** Whether move `m` lands in column j of row `a`. */
  function Hit(m: Move, a: real, b: seq<real>): int -> real
  {
    j => if 1 <= j <= |b| && m.initial == a && m.final == b[j - 1] then 1.0 else 0.0
  }

  /** Summing a row across distinct column labels that cover every final
      rating counts the obligors with that initial rating. */
  lemma {:induction false} ColumnSum(ms: seq<Move>, a: real, b: seq<real>)
    requires Increasing(b)
    requires forall k :: 0 <= k < |ms| ==> ms[k].final in b
    ensures RangeSum(1, |b| + 1, ColumnCounts(ms, a, b)) == Count(ms, RatedAt(a)) as real
    decreases |ms|
  {
    if |ms| == 0 {
      RangeSumZero(1, |b| + 1, ColumnCounts(ms, a, b));
    } else {
      var m, rest := ms[0], ms[1..];
      forall j | 1 <= j < |b| + 1
        ensures ColumnCounts(ms, a, b)(j) == Hit(m, a, b)(j) + ColumnCounts(rest, a, b)(j)
      {
      }
      RangeSumAdd(1, |b| + 1, Hit(m, a, b), ColumnCounts(rest, a, b), ColumnCounts(ms, a, b));
      ColumnSum(rest, a, b);
      if m.initial == a {
        var p :| 0 <= p < |b| && b[p] == m.final;
        RangeSumSingle(1, |b| + 1, Hit(m, a, b), p + 1);
      } else {
        RangeSumZero(1, |b| + 1, Hit(m, a, b));
      }
    }
  }

  /** `N_ij.sum(axis=1)` of a tabulated crosstab is the number of obligors
      starting in the row's rating, so every row holds at least one obligor
      and the row normalisation never divides by zero. */
  lemma RowsAreRatingCounts(ms: seq<Move>, i: int)
    requires 1 <= i <= Grades(Tabulate(ms))
    ensures RowTotal(Tabulate(ms), i) == Count(ms, RatedAt(Tabulate(ms).rows[i - 1])) as real
    ensures RowTotal(Tabulate(ms), i) >= 1.0
  {
    var ct := Tabulate(ms);
    var a, b := ct.rows[i - 1], ct.cols;
    var s := RangeSum(1, |b| + 1, ColumnCounts(ms, a, b));
    TabulatedRow(ms, i);
    assert RowTotal(ct, i) == s;
    FinalsCovered(ms);
    assert a in ct.rows;
    ColumnSum(ms, a, b);
    RatingOccurs(ms, a);
  }

  /** The column labels of a tabulated crosstab cover every final rating. */
  lemma FinalsCovered(ms: seq<Move>)
    ensures forall k :: 0 <= k < |ms| ==> ms[k].final in Tabulate(ms).cols
  {
    var fs := Map(ms, FinalOf);
    forall k | 0 <= k < |ms| ensures ms[k].final in Levels(fs) {
      assert fs[k] == ms[k].final;
    }
  }

  lemma TabulatedRow(ms: seq<Move>, i: int)
    requires 1 <= i <= Grades(Tabulate(ms))
    ensures RowTotal(Tabulate(ms), i)
         == RangeSum(1, |Tabulate(ms).cols| + 1, ColumnCounts(ms, Tabulate(ms).rows[i - 1], Tabulate(ms).cols))
  {
    var ct := Tabulate(ms);
    var a, b := ct.rows[i - 1], ct.cols;
    forall j | 1 <= j < |b| + 1 ensures CellsOf(ct, i)(j) == ColumnCounts(ms, a, b)(j) {
    }
    RangeSumCongruent(1, |b| + 1, CellsOf(ct, i), ColumnCounts(ms, a, b));
  }

  /** A row label of the crosstab is some obligor's initial rating. */
  lemma RatingOccurs(ms: seq<Move>, a: real)
    requires a in Levels(Map(ms, InitialOf))
    ensures Count(ms, RatedAt(a)) >= 1
  {
    assert a in Map(ms, InitialOf);
    var k :| 0 <= k < |ms| && Map(ms, InitialOf)[k] == a;
    assert RatedAt(a)(ms[k]);
    CountBounds(ms, RatedAt(a));
  }

  /** The moves of a table: row r's initial and final ratings. */
  function Moves(t: Table, ci: nat, cf: nat): (ms: seq<Move>)
    requires Rectangular(t) && ci < |t.header| && cf < |t.header|
    requires !HasMissing(t, ci) && !HasMissing(t, cf)
    ensures |ms| == |t.rows|
  {
    var a := Values(t, ci);
    var b := Values(t, cf);
    seq(|t.rows|, r requires 0 <= r < |t.rows| => Move(a[r], b[r]))
  }

  /** The numbers in column `c`. */
  function ColumnSet(t: Table, c: nat): set<real>
    requires Rectangular(t) && c < |t.header|
  {
    set r | 0 <= r < |t.rows| && t.rows[r][c].Num? :: t.rows[r][c].v
  }

  /** The sorted distinct values of a complete column are as many as its
      distinct numbers. */
  lemma LevelsOfColumn(t: Table, c: nat, vs: seq<real>)
    requires Rectangular(t) && c < |t.header| && !HasMissing(t, c) && vs == Values(t, c)
    ensures |Levels(vs)| == |ColumnSet(t, c)|
  {
    var l := Levels(vs);
    IncreasingDistinct(l);
    forall x ensures x in l <==> x in ColumnSet(t, c) {
      if x in vs {
        var r :| 0 <= r < |vs| && vs[r] == x;
        assert t.rows[r][c] == Num(x);
      }
      if x in ColumnSet(t, c) {
        var r :| 0 <= r < |t.rows| && t.rows[r][c].Num? && t.rows[r][c].v == x;
        assert vs[r] == x;
      }
    }
    EnumerationSize(l, ColumnSet(t, c));
  }

  /** `migration_matrix_statistics(df, initial_ratings_col, final_ratings_col)`:
      the ladder (initial, then final; NaNs in the same order), then the
      statistics of the crosstab. With one distinct initial rating the division
      by the integer 0 raises; with fewer distinct final than initial ratings
      `iloc` raises; otherwise a pair of floats. */
  function MigrationTest(t: Table, initialCol: Arg, finalCol: Arg): (r: Result<(Float, Float)>)
    requires Rectangular(t)
    ensures Validate(t, [initialCol, finalCol], [0, 1]).Err? ==>
              r == Err(Validate(t, [initialCol, finalCol], [0, 1]).failure)
    ensures Validate(t, [initialCol, finalCol], [0, 1]).Ok? ==>
              var cols := Validate(t, [initialCol, finalCol], [0, 1]).value;
              var k, k' := |ColumnSet(t, cols[0])|, |ColumnSet(t, cols[1])|;
              && (r == Err(ZeroDivision) <==> k == 1)
              && (r == Err(PositionOutOfRange) <==> 2 <= k && k' < k)
              && (r.Ok? <==> 2 <= k <= k')
  {
    var cols :- Validate(t, [initialCol, finalCol], [0, 1]);
    ValidatedColumnsComplete(t, [initialCol, finalCol], [0, 1], 0);
    ValidatedColumnsComplete(t, [initialCol, finalCol], [0, 1], 1);
    var ms := Moves(t, cols[0], cols[1]);
    MovesLevels(t, cols[0], cols[1]);
    Bandwidths(Tabulate(ms))
  }

  /** The crosstab of a table's moves has one row per distinct initial rating
      and one column per distinct final rating, and at least one row. */
  lemma MovesLevels(t: Table, ci: nat, cf: nat)
    requires Rectangular(t) && ci < |t.header| && cf < |t.header|
    requires !HasMissing(t, ci) && !HasMissing(t, cf) && |t.rows| > 0
    ensures Grades(Tabulate(Moves(t, ci, cf))) == |ColumnSet(t, ci)| >= 1
    ensures FinalGrades(Tabulate(Moves(t, ci, cf))) == |ColumnSet(t, cf)|
  {
    var ms := Moves(t, ci, cf);
    assert Map(ms, InitialOf) == Values(t, ci);
    assert Map(ms, FinalOf) == Values(t, cf);
    LevelsOfColumn(t, ci, Values(t, ci));
    LevelsOfColumn(t, cf, Values(t, cf));
    assert t.rows[0][ci] == Num(Values(t, ci)[0]);
    assert Values(t, ci)[0] in ColumnSet(t, ci);
  }
}
