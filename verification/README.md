# Credit-risk backtests, modelled in Dafny

This project models the ten backtesting functions of the `risktests` Python
package. Each function takes a table of obligors and returns a statistic that
validates a rating model:

- the binomial test;
- Somers' D;
- the coefficient of concordance;
- the traffic-lights approach;
- the migration-matrix bandwidths;
- the Spiegelhalter test;
- two information-value variants (share-based and binned);
- the population stability index;
- the loss capture ratio.

Each function is a pure Dafny function over exact `real` arithmetic, and its
properties are proved about that model.

## Modules

**Shared layers**

| module | file | role |
|---|---|---|
| `Outcomes` | `outcomes.dfy` | A `Result` is a value or a `Failure`. Each failure names the Python exception it surfaces as (`Raised`). |
| `Seqs` | `seqs.dfy` | Finite sums and counts, selection by key, sorting, and the distinct sorted values (`Levels`). `Enumerates` is a listing of a set with each element exactly once; iteration over a Python `set` is such a listing, and is a parameter of the model. |
| `Floats` | `floats.dfy` | A float64 value is `Fin(real)`, `PosInf`, `NegInf` or `NaN`. This covers what numpy produces where Python would raise. Rounding is not modelled. |
| `Frame` | `frame.dfy` | The table and the shared input ladder `Validate`, which runs in this order: empty table, a `None` name, a name that is not a string, an unknown column, then the scan of each named column, in which a name carried by several columns raises AttributeError and a NaN raises ValueError. |
| `Buckets` | `buckets.dfy` | One bucket per distinct rating: its size, default sum and mean PD. |

**One module per test**

| test | module | file |
|---|---|---|
| Binomial test | `Binomial` | `binomial.dfy` |
| Somers' D | `Somers` | `somers.dfy` |
| Coefficient of concordance | `Concordance` | `concordance.dfy` |
| Traffic-lights approach | `TrafficLights` | `traffic_lights.dfy` |
| Migration-matrix bandwidths | `Migration` | `migration.dfy` |
| Spiegelhalter test | `Spiegelhalter` | `spiegelhalter.dfy` |
| Information value, share-based | `InformationShares` | `iv_shares.dfy` |
| Information value, binned | `InformationBins` | `iv_binned.dfy` |
| Population stability index | `StabilityIndex` | `psi.dfy` |
| Loss capture ratio | `LossCapture` | `loss_capture.dfy` |

**Parameters.** Some inputs cannot be computed exactly, so the model takes them as function parameters:

- The natural logarithm, `np.sqrt` and `norm.sf` are parameters. The properties that need them assume only what they use:
  - `IsLog`: ln 1 = 0 and ln is strictly increasing;
  - `IsSqrt`: a positive argument has a positive root;
  - `IsSurvival`: a probability that is ½ at 0 and does not increase.
- The iteration order of `set(...)` is a parameter that must enumerate the set.
- The order pandas' `sort_values` gives to tied keys is a parameter. It is a sorter that rearranges rows with the largest key first.

**Binned information value.** Each term is (n1/n − n0/m)·ln(n1·m/(n0·n)). Here n is the number of non-defaulters and m the number of defaulters. The shares therefore use the other side's total as their denominator, and the model keeps this as written.

## Model

| member | source | states |
|---|---|---|
| Frame.Validate | risktests/Binomial_test.py:41-72 | The checks run in the source's fixed order:<br>• It fails with EmptyInput exactly on an empty table.<br>• A MissingArgument names the first `None` argument.<br>• An InvalidArgumentType names the first non-string argument; it is raised only if no argument is `None`.<br>• An UnknownColumn names a column that is not in the table; it is raised only if every argument is a string and every earlier name is a column.<br>• The scan stops at the first scanned argument whose name is carried by several columns or whose column holds a NaN. A repeated name gives RepeatedColumn (AttributeError, since `df[name]` is then a DataFrame without `hasnans`). Otherwise the column holds a NaN and the failure is MissingValue.<br>It succeeds exactly when the table is non-empty, every argument names a column and every scanned name labels exactly one column and no scanned column holds a NaN. It then returns each argument's column position. |
| Frame.Scan | risktests/Binomial_test.py:66-72 | The `hasnans` rung fails at the first scanned argument whose name labels several columns (RepeatedColumn) or whose column holds a NaN (MissingValue), and at no earlier one. It succeeds exactly when no scanned argument hits. |
| Frame.ValidatedColumnsComplete | risktests/Binomial_test.py:66-72 | After a successful ladder, every scanned name labels exactly one column, and that column holds no missing value. |
| Frame.UniqueColumn | risktests/Binomial_test.py:66-72 | A name that labels exactly one column is found at that column and at no other, so `df[name]` reads a single column. |
| Buckets.Summarise | risktests/Binomial_test.py:87-90 | The bucket of an occurring rating carries that rating. Its size is the number of rows with that rating (at least one). Its default count is the sum of those rows' default flags. Its mean PD is the sum of their PDs divided by the size. |
| Buckets.Aggregate | risktests/Binomial_test.py:85-90 | There is one non-empty bucket per listed rating, in the listed order. |
| Buckets.AggregatePermutation | risktests/Binomial_test.py:85-90 | Permuting the list of ratings permutes the buckets; as a multiset they are unchanged. |
| Buckets.BucketsOrderFree | risktests/Binomial_test.py:85-90 | Any two enumerations of the rating set give the same multiset of buckets. |
| Buckets.BucketsPartition | risktests/Binomial_test.py:87-89 | The bucket sizes add up to the number of rows. The bucket default sums add up to the table's sum of flags. |
| Buckets.EnumeratedRatingsOccur | risktests/Binomial_test.py:85-87 | Every listed rating occurs in the table, and every row's rating is listed. |
| Buckets.MeanPdInUnit | risktests/Binomial_test.py:90 | If every PD lies in [0, 1], so does every bucket's mean PD. |
| Buckets.Obligors | risktests/Binomial_test.py:87-90 | There is one obligor per table row. Its rating, flag and PD are the cells of the three named columns. |
| Buckets.ValidateObligors | risktests/Binomial_test.py:41-72 | The arguments are checked in the order defaults, ratings, PDs. The NaN scan runs in the order ratings, defaults, PDs. The function fails exactly when that ladder fails, with the same failure. On success it returns one obligor per row, built from that row's cells. |
| Binomial.PmfClosedForm | risktests/Binomial_test.py:91 | The recursively defined mass function equals C(n, k)·p^k·(1 − p)^(n − k). |
| Binomial.CdfTotal | risktests/Binomial_test.py:91 | The CDF at n is 1 (the binomial theorem). |
| Binomial.CdfBeyond | risktests/Binomial_test.py:91 | The CDF at any m ≥ n is 1. |
| Binomial.CdfMonotone | risktests/Binomial_test.py:91 | For a PD in [0, 1], the CDF does not decrease in its count argument. |
| Binomial.CdfInUnit | risktests/Binomial_test.py:91 | For a PD in [0, 1], the CDF lies in [0, 1]. |
| Binomial.BinomCdf | risktests/Binomial_test.py:91 | `binom.cdf` is finite exactly when p is in [0, 1], and then it lies in [0, 1]. It is 1 for counts ≥ n and 0 for negative counts. |
| Binomial.Conclude | risktests/Binomial_test.py:83-96 | The verdict is 'reject' exactly when F ≤ 0.05 or 1 − F ≤ 0.05. A NaN F is never rejected. |
| Binomial.TestBucket | risktests/Binomial_test.py:86-103 | The row reports the bucket's rating, number of rows, number of defaults and mean PD. Its score is the binomial CDF at the bucket's own default count, size and mean PD. It is rejected exactly when that score is at most 0.05 or at least 0.95. |
| Binomial.AllDefaultedRejected | risktests/Binomial_test.py:91-96 | A bucket in which every obligor defaulted has F = 1 and is rejected. |
| Binomial.ConclusionTwoSided | risktests/Binomial_test.py:93-96 | For a mean PD in [0, 1], F is finite, and the bucket is rejected exactly when F ≤ 0.05 or F ≥ 0.95. |
| Binomial.BinomialTable | risktests/Binomial_test.py:85-105 | There is one row per listed rating, in order, each with at least one observation. If every PD lies in [0, 1], every score is finite and lies in [0, 1]. |
| Binomial.BinomialRowAt | risktests/Binomial_test.py:85-104 | Row k of the table is the test of the bucket of the k-th listed rating. |
| Binomial.BinomialRows | risktests/Binomial_test.py:85-104 | Every row of the table is the test of the bucket of its listed rating. |
| Binomial.ObsPartitionTable | risktests/Binomial_test.py:87-88 | The 'Number of Obs' column adds up to the size of the table. |
| Binomial.BinomialTest | risktests/Binomial_test.py:41-106 | Ladder failures pass through unchanged. Otherwise the rows name every rating exactly once, and their observation counts add up to the number of table rows. Each row is the test of its own rating's bucket. |
| Somers.PairsClosedForm | risktests/Somers_d.py:85-86 | Twice the number of 2-combinations of k buckets is k(k − 1). |
| Somers.PairsTotal | risktests/Somers_d.py:78-83 | C + D equals the number of pairs: every pair is either concordant or discordant. |
| Somers.SomersD | risktests/Somers_d.py:78-86 | It fails with ZeroDivision exactly when there are fewer than two buckets. Otherwise:<br>• W lies in [−1, 1];<br>• W = 1 exactly when D = 0;<br>• W = −1 exactly when C = 0. |
| Somers.AgreeSymmetric | risktests/Somers_d.py:79-80 | Without ties, whether the two labels of a pair agree does not depend on the pair's orientation. |
| Somers.SomersOrderFree | risktests/Somers_d.py:74-86 | Without ties, any permutation of the buckets gives the same W. |
| Somers.TiesMakeOrderMatter | risktests/Somers_d.py:78-83 | Two buckets tied on defaults give −1 in one order and 1 in the other. |
| Somers.FourteenGradesSevenThirteenths | tests/test_SD.py:12 | With 14 buckets, W = 7/13 forces C = 70 and D = 21. |
| Somers.SomersTest | risktests/Somers_d.py:39-87 | Ladder failures pass through. Otherwise it fails with ZeroDivision exactly when there are fewer than two ratings. A value always lies in [−1, 1]. |
| Somers.SomersTestOrderFree | risktests/Somers_d.py:74-86 | Without ties among the buckets, the value does not depend on the iteration order of the rating set. |
| Concordance.Coefficient | risktests/Coefficient_of_concordance.py:95-101 | With fewer than two buckets, 0/0 gives NaN. Otherwise the value is finite and non-negative. |
| Concordance.RankCountsAbove | risktests/Coefficient_of_concordance.py:90-91 | The reversed max-rank of a value is 1 plus the number of entries strictly above it. |
| Concordance.RankBounds | risktests/Coefficient_of_concordance.py:90-91 | Every rank lies in 1..k. A rank is 1 exactly when its value is the largest. |
| Concordance.RanksPermuteIota | risktests/Coefficient_of_concordance.py:90-91 | Without ties, the ranks are a permutation of 1..k. |
| Concordance.DenominatorPositive | risktests/Coefficient_of_concordance.py:95-97 | With m = 2 raters and k ≥ 2, the denominator is (k³ − k)/3 > 0. |
| Concordance.NumeratorNonNegative | risktests/Coefficient_of_concordance.py:98-100 | The sum of squared deviations is non-negative. |
| Concordance.CentredRanks | risktests/Coefficient_of_concordance.py:90-99 | Without ties, the squared distances of the ranks from (k + 1)/2 sum to (k³ − k)/12. |
| Concordance.NumeratorSplit | risktests/Coefficient_of_concordance.py:98-100 | The numerator is twice each ranking's spread about the centre, less the sum of the squared rank differences. |
| Concordance.NoTiesInUnit | risktests/Coefficient_of_concordance.py:90-101 | Without ties, the value is 1 − 3·Σ(R_X − R_Y)²/(k³ − k). It lies in [0, 1], and it is 1 exactly when the two rank vectors are equal. |
| Concordance.AllTied | risktests/Coefficient_of_concordance.py:90-101 | If every bucket is tied, the value is 3(k − 1)/(k + 1). This exceeds 1 for k ≥ 3, against the documented range. |
| Concordance.CoefficientOrderFree | risktests/Coefficient_of_concordance.py:86-101 | Permuting the buckets leaves the value unchanged, ties included. |
| Concordance.FourteenGrades | tests/test_CC.py:13 | With 14 untied buckets, the expected 764/910 means Σ(R_X − R_Y)² = 146. |
| Concordance.ConcordanceTest | risktests/Coefficient_of_concordance.py:50-101 | Ladder failures pass through. Otherwise the value is NaN exactly when there is a single rating. A value that is not NaN is finite and non-negative. |
| Concordance.ConcordanceOrderFree | risktests/Coefficient_of_concordance.py:86-101 | The value does not depend on the iteration order of the rating set. |
| TrafficLights.Quantile | risktests/Traffic_lights_approach.py:71 | numpy's linear quantile lies between the minimum and the maximum of the sample. |
| TrafficLights.QuantileTopTwo | risktests/Traffic_lights_approach.py:70-71 | With 2 to 20 counts, the virtual position 0.95·(n − 1) falls between the last two sorted counts. The quantile is then the second-largest count moved towards the largest by (21 − n)/20 of the gap. |
| TrafficLights.Lights | risktests/Traffic_lights_approach.py:74-80 | There is one light per listed count, and none is Yellow. A light is Green exactly when its count is below the quantile, and Red exactly when it is at or above it. |
| TrafficLights.OnlyMaxIsRed | risktests/Traffic_lights_approach.py:71-80 | With 1 to 20 buckets, a count reaches the quantile exactly when it is the maximum. |
| TrafficLights.SingleRed | risktests/Traffic_lights_approach.py:71-80 | With 1 to 20 buckets, exactly one distinct count is Red: the largest. |
| TrafficLights.AssignLights | risktests/Traffic_lights_approach.py:74-81 | It fails with LengthMismatch exactly when the number of lights differs from the number of ratings. Otherwise the k-th light goes to the k-th rating. |
| TrafficLights.LightsArePositional | risktests/Traffic_lights_approach.py:65-81 | Example: the rating with the larger count receives Green and the other receives Red. |
| TrafficLights.EqualCountsFail | risktests/Traffic_lights_approach.py:74-81 | Example: two ratings with equal counts give one light for two rows, and the assignment fails. |
| TrafficLights.TrafficLightsTest | risktests/Traffic_lights_approach.py:36-83 | Ladder failures pass through. Without a column literally named 'ratings', `df.ratings` fails. Otherwise both checked columns are free of NaNs, there is one light per key given by position, none is Yellow, the test fails with LengthMismatch exactly when two keys share a default sum, and the k-th key is Green exactly when the k-th element of `set(X)` lies below the 95% quantile of `X`. |
| TrafficLights.RatingLights | risktests/Traffic_lights_approach.py:60-81 | `X` holds one default sum per key of `set(ratings)`. There is one light per key, given by position, and none is Yellow. The assignment fails exactly when the number of distinct sums differs from the number of keys. The k-th key is Green exactly when the k-th distinct sum lies below the quantile of `X`. |
| Migration.Tabulate | risktests/Customer_migrations.py:60 | The crosstab has one row per distinct initial rating and one column per distinct final rating. |
| Migration.Weight | risktests/Customer_migrations.py:67-72 | For K ≥ 1, max(i − K, i − 1) is i − 1, so row 1 weighs nothing. |
| Migration.RowTimesShare | risktests/Customer_migrations.py:60-61 | A row total times a row-normalised share gives back the cell count. |
| Migration.RowsAreRatingCounts | risktests/Customer_migrations.py:60-66 | Each row total is the number of obligors with that initial rating, and is at least 1. |
| Migration.MassesAreCounts | risktests/Customer_migrations.py:74-80 | The upper and lower loops sum \|i − j\|·N_ij over j > i and over j < i. Both stay within the first K columns. |
| Migration.NormsAreCounts | risktests/Customer_migrations.py:63-73 | The normalisers sum (i − 1)·N_ij over the cells right of the diagonal, up to the last column, and over the cells left of it. |
| Migration.CountsNonNegative | risktests/Customer_migrations.py:63-81 | All four sums are non-negative. |
| Migration.LowerBelowNorm | risktests/Customer_migrations.py:69-80 | The lower sum never exceeds the lower normaliser. Both are zero exactly when no obligor moved down. |
| Migration.Bandwidths | risktests/Customer_migrations.py:63-82 | One initial rating: integer division by zero. Fewer final than initial ratings: `iloc` out of range. Otherwise:<br>• each statistic is NaN, +inf, or a finite non-negative ratio, according to its normaliser;<br>• a finite lower statistic lies in (0, 1]. |
| Migration.OffDiagonalOnly | risktests/Customer_migrations.py:64-81 | Diagonal counts affect none of the four sums, nor the result. |
| Migration.ExtraColumnsExample | risktests/Customer_migrations.py:64-76 | Example: a move to a column beyond K counts in the upper normaliser but not in the upper sum. |
| Migration.MovesLevels | risktests/Customer_migrations.py:60-62 | K is the number of distinct initial ratings, and the crosstab width is the number of distinct final ratings. |
| Migration.MigrationTest | risktests/Customer_migrations.py:33-82 | Ladder failures pass through. Otherwise:<br>• ZeroDivision exactly when there is one distinct initial rating;<br>• PositionOutOfRange exactly when there are fewer distinct final than initial ratings;<br>• a pair of floats in every other case. |
| Spiegelhalter.StatsOf | risktests/Speigelhalter_Normal_test.py:81-84 | MSE ≥ 0. With PDs in [0, 1], EMSE ≥ 0 and Var ≥ 0. Var = 0 exactly when every variance term vanishes. |
| Spiegelhalter.VarTermZero | risktests/Speigelhalter_Normal_test.py:83 | A PD contributes no variance exactly when it is 0, ½ or 1. |
| Spiegelhalter.VarianceZeroIff | risktests/Speigelhalter_Normal_test.py:83-85 | With PDs in [0, 1], the variance is 0 exactly when every PD is 0, ½ or 1. |
| Spiegelhalter.ZScoreSign | risktests/Speigelhalter_Normal_test.py:85 | z is finite exactly when Var > 0, and then it has the sign of MSE − EMSE. A zero variance with MSE ≠ EMSE gives ±inf. |
| Spiegelhalter.PValueSymmetric | risktests/Speigelhalter_Normal_test.py:86 | The p-value is the same for z and −z. |
| Spiegelhalter.PValueInUnit | risktests/Speigelhalter_Normal_test.py:86 | A finite p-value lies in [0, ½]. It is NaN exactly when z is. |
| Spiegelhalter.BucketVerdict | risktests/Speigelhalter_Normal_test.py:88-91 | A rating row passes exactly when p < 0.05. |
| Spiegelhalter.OverallVerdict | risktests/Speigelhalter_Normal_test.py:108-111 | The overall row passes exactly when p ≤ 0.05. |
| Spiegelhalter.VerdictsDisagreeOnlyAtLevel | risktests/Speigelhalter_Normal_test.py:88-111 | The two thresholds disagree exactly at p = 0.05. |
| Spiegelhalter.CalibratedGroupFails | risktests/Speigelhalter_Normal_test.py:85-111 | If MSE = EMSE, both verdicts are Fail. |
| Spiegelhalter.DegenerateVariancePasses | risktests/Speigelhalter_Normal_test.py:85-91 | If Var = 0 and MSE ≠ EMSE, then p = 0 and the row passes. |
| Spiegelhalter.GroupRow | risktests/Speigelhalter_Normal_test.py:80-97 | The row carries its label. Its z is the statistic of the group's own MSE, expected MSE and variance, and its p-value is that of its z-score. A rating row passes exactly when p < 0.05, the overall row exactly when p ≤ 0.05. |
| Spiegelhalter.RatingRows | risktests/Speigelhalter_Normal_test.py:79-99 | There is one row per listed rating, in order. |
| Spiegelhalter.SpiegelhalterTable | risktests/Speigelhalter_Normal_test.py:79-118 | The rating rows come first, followed by an 'Overall' row recomputed over the whole table. |
| Spiegelhalter.SingleRatingMatchesOverall | risktests/Speigelhalter_Normal_test.py:79-118 | With a single rating, that rating's row and the overall row have the same z and the same p. |
| Spiegelhalter.SpiegelhalterTest | risktests/Speigelhalter_Normal_test.py:40-120 | Ladder failures pass through. Otherwise there is one row per rating, each rating named exactly once, followed by the overall row of the whole table. |
| InformationShares.Share | risktests/InformationValue.py:76-79 | A share lies in [0, 1]. It is 0 exactly when the class or the bucket's part of it is empty. |
| InformationShares.BucketIV | risktests/InformationValue.py:78-80 | It raises ZeroDivision exactly when there are no goods or the grade holds no bads. A grade with no goods gives +inf; otherwise the value is finite. |
| InformationShares.BucketIVSign | risktests/InformationValue.py:80 | With a logarithm, a grade's IV is non-negative. It is 0 exactly when the grade's share of goods equals its share of bads. |
| InformationShares.SharesSumToOne | risktests/InformationValue.py:74-79 | Over all grades, the shares of a non-empty class sum to 1. |
| InformationShares.GradeRows | risktests/InformationValue.py:74-82 | There is one row per grade, in order. The loop fails exactly when some grade's IV raises. |
| InformationShares.Report | risktests/InformationValue.py:74-85 | The grade rows are followed by 'Overall', which is Python's `sum` of the grade IVs. |
| InformationShares.ReportFails | risktests/InformationValue.py:74-80 | The report fails exactly when there are no goods or some grade has no bads. |
| InformationShares.OverallValue | risktests/InformationValue.py:83 | With a logarithm, 'Overall' is non-negative. It is +inf exactly when some grade has no goods, and otherwise it is the sum of the grade IVs. |
| InformationShares.OverallZero | risktests/InformationValue.py:80-83 | When every grade has goods, 'Overall' is finite. It is 0 exactly when every grade's two shares are equal. |
| InformationShares.OverallOrderFree | risktests/InformationValue.py:74-85 | 'Overall' does not depend on the iteration order. |
| InformationShares.ReportOkOrderFree | risktests/InformationValue.py:74-82 | Whether the report succeeds does not depend on the iteration order. |
| InformationShares.InformationValueTest | risktests/InformationValue.py:39-87 | Ladder failures pass through. Otherwise it fails with ZeroDivision exactly when there are no goods or some grade has no bads. On success there is one row per rating, each named exactly once, then 'Overall'. |
| InformationBins.EdgeMonotone | risktests/Information_value.py:81 | The edges L + j(H − L)/10 strictly increase. |
| InformationBins.BinOf | risktests/Information_value.py:81-83 | A value lies in at most one right-closed bin, and in exactly one when L < x ≤ edge 9. |
| InformationBins.BinsPartition | risktests/Information_value.py:82-85 | The nine bin counts add up to the number of binned values. |
| InformationBins.MinimumNeverBinned | risktests/Information_value.py:79-83 | L itself lies in no bin, so the bins always miss at least one row. |
| InformationBins.Bounds | risktests/Information_value.py:79-80 | L and H bound every PD of both sides, and each is attained. |
| InformationBins.Ranks | risktests/Information_value.py:84-85 | `value_counts` holds the nine counts, rearranged largest first. |
| InformationBins.StoreInt | risktests/Information_value.py:90-93 | Storing any value in [0, 1), such as 0.0001, into the int64 counts gives 0. |
| InformationBins.SmoothGood | risktests/Information_value.py:90-91 | Smoothing n0 leaves every count as it was. |
| InformationBins.SmoothBad | risktests/Information_value.py:92-93 | Smoothing n1 turns a count of 1 into 0 and leaves every other count alone. |
| InformationBins.SmoothBadZero | risktests/Information_value.py:92-93 | A smoothed count is 0 exactly when the count was at most 1. |
| InformationBins.Term | risktests/Information_value.py:94 | A term is NaN exactly when both counts are 0, +inf when exactly one is 0, and finite otherwise. |
| InformationBins.TermSign | risktests/Information_value.py:94 | With a logarithm, a finite term is non-negative. It is 0 exactly when n1·m = n0·n. |
| InformationBins.NaNTerms | risktests/Information_value.py:89-94 | Some term is NaN exactly when some rank has n0 ≤ 0 and n1 ≤ 1. |
| InformationBins.TermsSign | risktests/Information_value.py:89-94 | With a logarithm and finite terms, the sum is non-negative. It is 0 exactly when every rank's smoothed counts are proportional. |
| InformationBins.BinnedIV | risktests/Information_value.py:77-94 | `min` of an empty side raises EmptyReduction. L = H gives a zero `arange` step and raises ZeroDivision. A value is never −inf. |
| InformationBins.BinnedNaN | risktests/Information_value.py:84-94 | The value is NaN exactly when some bin holds no non-defaulter and some bin holds at most one defaulter. |
| InformationBins.BinnedSign | risktests/Information_value.py:84-94 | With a logarithm, a finite value is non-negative. It is 0 exactly when the ranked counts are proportional. |
| InformationBins.BinsForgotten | risktests/Information_value.py:82-94 | Samples with the same range, the same sizes and the same bin counts up to reordering get the same value. |
| InformationBins.PdsWithFlag | risktests/Information_value.py:77-87 | The PDs selected are exactly those of the rows carrying the flag, one per such row. So `n = len(tempX)` is the number of non-defaulters and `m = len(tempY)` the number of defaulters. |
| InformationBins.GroupIV | risktests/Information_value.py:76-94 | EmptyReduction exactly when one side is missing. ZeroDivision exactly when both sides are present and all their PDs are equal. No other failure occurs. |
| InformationBins.GradeLoop | risktests/Information_value.py:75-96 | There is one row per grade, in order. The loop fails exactly when some grade raises. |
| InformationBins.FirstErrorWins | risktests/Information_value.py:75-96 | The loop's error is the error of a grade that raises. |
| InformationBins.BinnedReport | risktests/Information_value.py:75-119 | The grade rows are followed by 'Overall', recomputed over the whole table. A loop error takes precedence. |
| InformationBins.OverallNeverFailsAlone | risktests/Information_value.py:75-115 | On a non-empty table, the report fails exactly when the grade loop fails. |
| InformationBins.SingleGradeIsOverall | risktests/Information_value.py:75-119 | With a single grade, that grade's IV equals the 'Overall' IV. |
| InformationBins.ReportFailsOrderFree | risktests/Information_value.py:75-115 | Whether the report fails does not depend on the iteration order. |
| InformationBins.GroupSign | risktests/Information_value.py:76-94 | With a logarithm, a group's finite IV is non-negative. |
| InformationBins.ReportSign | risktests/Information_value.py:75-119 | With a logarithm, every finite value in the report is non-negative. |
| InformationBins.BinnedReportFails | risktests/Information_value.py:75-115 | On a non-empty table, the report fails exactly when some grade cannot be binned, and with that grade's error. |
| InformationBins.BinnedReportShape | risktests/Information_value.py:75-119 | The report fails with EmptyReduction or ZeroDivision exactly when some grade cannot be binned. Otherwise it names every grade exactly once, then 'Overall'. |
| InformationBins.BinnedInformationValueTest | risktests/Information_value.py:39-120 | Ladder failures pass through. Otherwise it fails exactly when some grade is degenerate. On success there is one row per rating, then 'Overall' with the whole table's IV. |
| StabilityIndex.TotalsCount | risktests/Population_Stability_Index.py:70-71 | A rating's total is its multiplicity in the column. It is positive exactly when the rating occurs. |
| StabilityIndex.TotalsSum | risktests/Population_Stability_Index.py:70-72 | The totals add up to the number of rows. |
| StabilityIndex.PercentPositive | risktests/Population_Stability_Index.py:72-73 | Percentages are non-negative, and positive exactly for occurring ratings. |
| StabilityIndex.PercentSum | risktests/Population_Stability_Index.py:72-73 | The percentages of a column add up to 100. |
| StabilityIndex.Index | risktests/Population_Stability_Index.py:74 | The aligned index lists each rating of either column exactly once. |
| StabilityIndex.Term | risktests/Population_Stability_Index.py:74 | A term is finite exactly for a rating that both columns hold, and NaN otherwise. |
| StabilityIndex.Terms | risktests/Population_Stability_Index.py:74 | There is one term per rating of the index, aligned by rating value. |
| StabilityIndex.OneSidedSkipped | risktests/Population_Stability_Index.py:74 | NaN terms are exactly the one-sided ratings. No term is infinite. The NaN-skipping sum is the sum of the shared ratings' terms. |
| StabilityIndex.TermShape | risktests/Population_Stability_Index.py:72-74 | A shared rating's term is the divergence (p − q)·ln(p/q) of two positive percentages. |
| StabilityIndex.PsiSign | risktests/Population_Stability_Index.py:74 | With a logarithm, PSI ≥ 0. PSI is 0 exactly when every shared rating has the same percentage in both columns. |
| StabilityIndex.PsiSame | risktests/Population_Stability_Index.py:70-74 | The same column as initial and final gives 0. |
| StabilityIndex.DisjointRatings | risktests/Population_Stability_Index.py:74 | Columns with no rating in common give 0. |
| StabilityIndex.PsiScaling | risktests/Population_Stability_Index.py:72-74 | PSI is 100 times the same sum taken over fractions. |
| StabilityIndex.PsiRowOrder | risktests/Population_Stability_Index.py:68-74 | Reordering the rows of either column leaves PSI unchanged. |
| StabilityIndex.PsiTest | risktests/Population_Stability_Index.py:43-74 | It fails exactly when the ladder fails, with the same failure. With a logarithm the value is non-negative. The same column twice gives 0. |
| LossCapture.Exposures | risktests/Loss_Coverage_Ratio.py:70 | There is one exposure per row, built from the row's LGD, EAD and predicted-LGD cells. |
| LossCapture.SortKey | risktests/Loss_Coverage_Ratio.py:70-79 | A sort column named `loss` sorts by EAD·LGD, because `df['loss']` has overwritten it. Any other column sorts by its own value. |
| LossCapture.LossesBy | risktests/Loss_Coverage_Ratio.py:70-79 | The losses are those of a rearrangement of the rows into descending key order, one per row, so their total is the table's total loss. |
| LossCapture.CumSum | risktests/Loss_Coverage_Ratio.py:74 | The running total starts at the first loss and adds one loss per step. |
| LossCapture.CumSumPrefix | risktests/Loss_Coverage_Ratio.py:74-75 | Each running total is the sum of its prefix, and the last one is the column total. |
| LossCapture.Curve | risktests/Loss_Coverage_Ratio.py:75 | Each point is the running total divided, as numpy divides, by the total loss. |
| LossCapture.CurveEndsAtOne | risktests/Loss_Coverage_Ratio.py:75 | With a nonzero total, every point is finite and the last one is 1. |
| LossCapture.CurveZeroTotal | risktests/Loss_Coverage_Ratio.py:75 | With a zero total, the last point is 0/0 = NaN. |
| LossCapture.RunningTotalsRise | risktests/Loss_Coverage_Ratio.py:74 | For non-negative losses, the running totals are non-negative, non-decreasing and at most the total. |
| LossCapture.CurveMonotone | risktests/Loss_Coverage_Ratio.py:74-75 | For non-negative losses with a positive total, the curve is non-decreasing and stays within [0, 1]. |
| LossCapture.Auc | risktests/Loss_Coverage_Ratio.py:76 | `auc` fails with TooFewPoints exactly when there are fewer than two points. |
| LossCapture.TrapezoidClosedForm | risktests/Loss_Coverage_Ratio.py:76 | On finite points, the trapezoid area over x = 0..n − 1 is Σy − (y₀ + yₙ₋₁)/2. |
| LossCapture.TrapezoidNaN | risktests/Loss_Coverage_Ratio.py:76 | A NaN last point makes the area NaN. |
| LossCapture.CurveArea | risktests/Loss_Coverage_Ratio.py:75-76 | With a nonzero total, the area is finite and equals Σy − (y₀ + 1)/2. |
| LossCapture.CaptureRatio | risktests/Loss_Coverage_Ratio.py:76-84 | It fails exactly when there are fewer than two rows. |
| LossCapture.FiniteRatio | risktests/Loss_Coverage_Ratio.py:76-84 | With nonzero totals, both areas are finite and the ratio is (A₁ − n/2)/(A₂ − n/2) under numpy division. |
| LossCapture.SameOrderRatio | risktests/Loss_Coverage_Ratio.py:84 | The same loss order on both sides gives 1 wherever the ratio is finite. |
| LossCapture.RatioUndefined | risktests/Loss_Coverage_Ratio.py:84 | An ideal area equal to n/2 leaves the ratio without a finite value. |
| LossCapture.ZeroLossRatio | risktests/Loss_Coverage_Ratio.py:75-84 | A zero total loss on either side gives a NaN ratio. |
| LossCapture.LossCaptureRatio | risktests/Loss_Coverage_Ratio.py:70-84 | The model curve sorts by predicted LGD and the ideal curve by LGD. The ratio fails exactly when there are fewer than two rows. |
| LossCapture.AbsRatio | risktests/Loss_Coverage_Ratio.py:70-96 | The absolute ratio fails exactly when there are fewer than two rows. Otherwise it is NaN, +inf or a non-negative number. |
| LossCapture.PlainColumns | risktests/Loss_Coverage_Ratio.py:70-84 | When neither the LGD nor the predicted-LGD column is named `loss`, the result is the absolute value of `LossCaptureRatio`. |
| LossCapture.LossNamedIdeal | risktests/Loss_Coverage_Ratio.py:70-81 | When the LGD column is named `loss`, the ideal curve's losses never increase. |
| LossCapture.PerfectModel | risktests/Loss_Coverage_Ratio.py:73-84 | Predictions equal to the actual LGDs give a ratio of 1 wherever it is finite. |
| LossCapture.NoLoss | risktests/Loss_Coverage_Ratio.py:70-84 | A table without loss gives NaN. |
| LossCapture.LossCaptureTest | risktests/Loss_Coverage_Ratio.py:38-96 | The arguments are checked in the order LGD, EAD, predicted LGD, and the NaN scan checks EAD first. Ladder failures pass through. Otherwise it fails exactly when there are fewer than two rows. On success the value is the absolute ratio: NaN, +inf or a non-negative number. |
| Floats.AccumulateSpecial | risktests/InformationValue.py:83 | Python's float `sum` without −inf terms:<br>• NaN exactly when a term is NaN;<br>• otherwise +inf exactly when a term is +inf;<br>• otherwise the exact sum. |
| Floats.SumNonNegativeFloats | risktests/InformationValue.py:83 | A sum of non-negative floats is non-negative. It is +inf exactly when a term is +inf, and otherwise the sum of the values. |
| Floats.DivergenceTermSign | risktests/InformationValue.py:80 | With a logarithm, (a − b)·ln(a/b) for positive a and b is non-negative. It is 0 exactly when a = b. |

## Left out

**Not modelled**
- Plotting: the matplotlib calls in `Loss_Coverage_Ratio.py` are pure side effects.
- The loss capture ratio's output: the source returns a string with the ratio rounded to two places, and the model returns the absolute ratio. The repository's test applies `round` to that string.
- The `'loss'` column that the loss capture ratio writes into the caller's table: the caller's table is not modelled after the call. Inside the call the overwrite is modelled by `LossCapture.SortKey`.
- `cumsum()` over the loss capture ratio's non-numeric columns.
- Rounding of float64 values: all arithmetic is exact. Only NaN and the infinities are modelled.
- The sign of a zero: `Floats.Quot` divides by +0, so −0.0 is not modelled.
- The floating-point order of summation, including pandas' pairwise sums.
- The unreachable `raise` of a string at `Coefficient_of_concordance.py:93-94`: the frame is always 2-D.

**Given as parameters**
- The natural logarithm, `np.sqrt` and `norm.sf`. They are never evaluated, so no z-score, p-value or fixture number is computed.
- Python's `set` iteration order.
- The order pandas gives to tied sort keys in the loss capture ratio.
- Excel fixture loading: the fixture values appear only as hypotheses of `Somers.FourteenGradesSevenThirteenths` and `Concordance.FourteenGrades`.

**Modelled, with behaviour worth knowing**
- `TrafficLights.Lights`: the Yellow branch is unreachable, because `c_low` and `c_high` are the same quantile.
- The traffic-light keys come from the column literally named `ratings`, while the filtering uses `ratings_col`.
- TrafficLights.TrafficLightsTest: the literal `ratings` column is read as one column. If several columns carry that name, `df.ratings` is a DataFrame and `set(ratings)` iterates its column labels; this case is not modelled. Repeated names among the scanned arguments are modelled by `Frame.Validate`.
- `Concordance.Coefficient`: with ties the value can exceed 1, although the source documents the range [0, 1]. The bound is proved only for untied buckets.
- `InformationShares.Share`: it returns 0 for an empty class instead of dividing by zero. `InformationShares.BucketIV` raises before that case can matter.
- `Migration.Bandwidths`: with one initial rating, the source divides the Python integer 0, which raises. With more ratings the normalisers are float64 values, and a zero one gives inf or NaN.
- `InformationBins.SmoothGood`: writing 0.0001 into the int64 counts stores 0, so the n0 smoothing changes nothing. The n1 smoothing turns a count of 1 into 0.
- `InformationBins.BinnedIV`: `np.arange` with a zero step, when L = H, is taken to raise ZeroDivisionError.
- `LossCapture.LossCaptureTest`: when the LGD or the predicted-LGD column is itself named `loss`, `df['loss'] = EAD·LGD` overwrites it before the sorts, so that curve sorts by EAD·LGD (`LossCapture.SortKey`, `LossCapture.LossNamedIdeal`).
- `LossCapture.FiniteRatio` and `LossCapture.Curve`: both assume numpy division. For the curve, `Loss_Coverage_Ratio.py:75` divides a pandas series. For the ratio at `Loss_Coverage_Ratio.py:84`, the assumption is that sklearn's `auc` (not part of this model) returns an `np.float64`. A plain Python float would raise ZeroDivisionError on a zero denominator instead of giving inf or NaN.
- `StabilityIndex.DisjointRatings`: two columns with no common rating give a PSI of 0, because pandas' `sum` skips every NaN term.
