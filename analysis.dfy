/**
 * Reliability and correlation analysis of the research pipeline: Cronbach's
 * alpha over complete-case rows, its interpretation, one reliability row per
 * registered factor, the choice of score columns for the correlation matrix,
 * the pairwise significance test and the report that gates the key pairs.
 * Pearson's r and its p-value come from a statistics library and are a
 * parameter here.
 */
module Analysis {
  import opened Wrappers
  import opened Frames
  import opened Registry
  import Stats

  /** Whether every row index in `rows` is a complete-case row of `items`. */
  ghost predicate CompleteIndices(df: Frame, items: seq<string>, rows: seq<nat>)
    requires Valid(df) && HasAll(df, items)
  {
    forall j :: 0 <= j < |rows| ==> rows[j] < df.height && CompleteAt(df, items, rows[j])
  }

  /** The sum across the items at each of the given complete rows. */
  function RowSums(df: Frame, items: seq<string>, rows: seq<nat>): (s: seq<real>)
    requires Valid(df) && HasAll(df, items) && CompleteIndices(df, items, rows)
    ensures |s| == |rows|
    ensures forall j :: 0 <= j < |rows| ==> s[j] == Stats.Sum(RowValues(df, items, rows[j]))
  {
    seq(|rows|, j requires 0 <= j < |rows| => Stats.Sum(RowValues(df, items, rows[j])))
  }

  /** The sample variance of each item over the given rows. */
  function ItemVariances(df: Frame, items: seq<string>, rows: seq<nat>): (vs: seq<real>)
    requires Valid(df) && HasAll(df, items) && CompleteIndices(df, items, rows) && |rows| >= 2
    ensures |vs| == |items|
    ensures forall k :: 0 <= k < |items| ==> vs[k] == Stats.Variance(ValuesAt(df, items[k], rows))
  {
    seq(|items|, k requires 0 <= k < |items| => Stats.Variance(ValuesAt(df, items[k], rows)))
  }

  /**
   * Cronbach's alpha of the item columns over their complete-case rows:
   * k / (k - 1) * (1 - sum of item variances / variance of the row sums).
   * Undefined (NaN in the source) for fewer than two items; undefined too
   * when fewer than two rows are complete or the row sums do not vary, where
   * the source divides NaN or zero by zero.
   */
  function CronbachAlpha(df: Frame, items: seq<string>): (a: Option<real>)
    requires Valid(df) && HasAll(df, items)
    ensures a.None? <==>
      || |items| < 2
      || |CompleteRows(df, items)| < 2
      || Stats.Variance(RowSums(df, items, CompleteRows(df, items))) == 0.0
  {
    var rows := CompleteRows(df, items);
    if |items| < 2 || |rows| < 2 then None
    else
      var total := Stats.Variance(RowSums(df, items, rows));
      if total == 0.0 then None
      else
        Some(AlphaFormula(|items| as real, Stats.Sum(ItemVariances(df, items, rows)), total))
  }

  /** k / (k - 1) * (1 - shares / total). */
  function AlphaFormula(k: real, shares: real, total: real): real
    requires k != 1.0 && total != 0.0
  {
    (k / (k - 1.0)) * (1.0 - shares / total)
  }

  /** Items that agree on every complete row share one value sequence. */
  ghost predicate IdenticalItems(df: Frame, items: seq<string>, rows: seq<nat>, xs: seq<real>)
    requires Valid(df) && HasAll(df, items) && CompleteIndices(df, items, rows)
  {
    |xs| == |rows| && forall k, j :: 0 <= k < |items| && 0 <= j < |rows| ==> df.cols[items[k]][rows[j]] == Some(xs[j])
  }

  /** Identical items all have the common variance. */
  lemma IdenticalVariances(df: Frame, items: seq<string>, rows: seq<nat>, xs: seq<real>)
    requires Valid(df) && HasAll(df, items) && CompleteIndices(df, items, rows) && |rows| >= 2
    requires IdenticalItems(df, items, rows, xs)
    ensures forall k :: 0 <= k < |items| ==> ItemVariances(df, items, rows)[k] == Stats.Variance(xs)
  {
    forall k | 0 <= k < |items|
      ensures ValuesAt(df, items[k], rows) == xs
    {
    }
  }

  /** For identical items, each row sum is k times the common value. */
  lemma IdenticalRowSums(df: Frame, items: seq<string>, rows: seq<nat>, xs: seq<real>)
    requires Valid(df) && HasAll(df, items) && CompleteIndices(df, items, rows)
    requires IdenticalItems(df, items, rows, xs)
    ensures RowSums(df, items, rows) == Stats.Scale(xs, |items| as real)
  {
    forall j | 0 <= j < |rows|
      ensures Stats.Sum(RowValues(df, items, rows[j])) == (|items| as real) * xs[j]
    {
      assert forall n :: n in items ==> df.cols[n][rows[j]] == Some(xs[j]);
      RowValuesConstant(df, items, rows[j], xs[j]);
      Stats.SumConstant(RowValues(df, items, rows[j]), xs[j]);
    }
  }

  lemma ShareOfTotal(k: real, v: real)
    requires k > 0.0 && v != 0.0
    ensures (k * v) / ((k * k) * v) == 1.0 / k
  {
    assert (k * k) * v == k * (k * v);
  }

  lemma AlphaOfEqualShares(k: real)
    requires k > 1.0
    ensures (k / (k - 1.0)) * (1.0 - 1.0 / k) == 1.0
  {
    assert 1.0 - 1.0 / k == (k - 1.0) / k;
  }

  /** The alpha formula with item variances summing to k v and total k squared v. */
  lemma AlphaOfIdentical(k: real, v: real, shares: real, total: real)
    requires k > 1.0 && shares == k * v && total == (k * k) * v
    ensures v == 0.0 ==> total == 0.0
    ensures v != 0.0 ==> total != 0.0 && AlphaFormula(k, shares, total) == 1.0
  {
    if v != 0.0 {
      ShareOfTotal(k, v);
      AlphaOfEqualShares(k);
    }
  }

  /**
   * k copies of one sequence: the k item variances are all Variance(xs) and
   * the row sums are k xs, so alpha is 1 when xs varies, and the total is 0
   * when it does not.
   */
  lemma AlphaOfCopies(xs: seq<real>, vs: seq<real>)
    requires |xs| >= 2 && |vs| >= 2
    requires forall k :: 0 <= k < |vs| ==> vs[k] == Stats.Variance(xs)
    ensures Stats.Variance(xs) == 0.0 ==> Stats.Variance(Stats.Scale(xs, |vs| as real)) == 0.0
    ensures Stats.Variance(xs) != 0.0 ==>
      Stats.Variance(Stats.Scale(xs, |vs| as real)) != 0.0 &&
      AlphaFormula(|vs| as real, Stats.Sum(vs), Stats.Variance(Stats.Scale(xs, |vs| as real))) == 1.0
  {
    var k := |vs| as real;
    var v := Stats.Variance(xs);
    var shares, total := Stats.Sum(vs), Stats.Variance(Stats.Scale(xs, k));
    assert shares == k * v by { Stats.SumConstant(vs, v); }
    assert total == (k * k) * v by { Stats.VarianceScale(xs, k); }
    AlphaOfIdentical(k, v, shares, total);
  }

  /**
   * Perfectly agreeing items are perfectly reliable: when every item holds
   * the same values on the complete rows and those values vary, alpha is 1;
   * when they do not vary (constant items) alpha is undefined.
   */
  lemma {:induction false} AlphaIdenticalItems(df: Frame, items: seq<string>, xs: seq<real>)
    requires Valid(df) && HasAll(df, items) && |items| >= 2
    requires IdenticalItems(df, items, CompleteRows(df, items), xs)
    ensures |xs| >= 2 && Stats.Variance(xs) != 0.0 ==> CronbachAlpha(df, items) == Some(1.0)
    ensures |xs| < 2 || Stats.Variance(xs) == 0.0 ==> CronbachAlpha(df, items).None?
  {
    var rows := CompleteRows(df, items);
    if |rows| >= 2 {
      IdenticalVariances(df, items, rows, xs);
      IdenticalRowSums(df, items, rows, xs);
      AlphaOfCopies(xs, ItemVariances(df, items, rows));
    }
  }

  /**
   * Alpha never exceeds k / (k - 1): the item variances are non-negative and
   * the variance of the row sums is positive wherever alpha is defined.
   */
  lemma AlphaUpperBound(df: Frame, items: seq<string>)
    requires Valid(df) && HasAll(df, items)
    ensures CronbachAlpha(df, items).Some? ==>
      CronbachAlpha(df, items).value <= (|items| as real) / (|items| as real - 1.0)
  {
    var rows := CompleteRows(df, items);
    if CronbachAlpha(df, items).Some? {
      var vs := ItemVariances(df, items, rows);
      var total := Stats.Variance(RowSums(df, items, rows));
      Stats.SumNonNegative(vs);
      FormulaBound(|items| as real, Stats.Sum(vs), total);
    }
  }

  /** With shares >= 0 and total > 0 the formula is at most k / (k - 1). */
  lemma FormulaBound(k: real, shares: real, total: real)
    requires k > 1.0 && shares >= 0.0 && total > 0.0
    ensures AlphaFormula(k, shares, total) <= k / (k - 1.0)
  {
    var c := k / (k - 1.0);
    var q := shares / total;
    assert c > 0.0 && q >= 0.0;
    assert c * q >= 0.0;
    assert c * (1.0 - q) == c - c * q;
  }

  /** The interpretation of an alpha value; an undefined alpha fails every threshold. */
  function AlphaLabel(a: Option<real>): (name: string)
    ensures name in ["Excellent", "Good", "Acceptable", "Questionable", "Poor"]
    ensures a.None? ==> name == "Poor"
  {
    if a.Some? && a.value >= 0.9 then "Excellent"
    else if a.Some? && a.value >= 0.8 then "Good"
    else if a.Some? && a.value >= 0.7 then "Acceptable"
    else if a.Some? && a.value >= 0.6 then "Questionable"
    else "Poor"
  }

  /** Each label covers exactly its band of alpha. */
  lemma AlphaLabelBands(x: real)
    ensures AlphaLabel(Some(x)) == "Excellent" <==> x >= 0.9
    ensures AlphaLabel(Some(x)) == "Good" <==> 0.8 <= x < 0.9
    ensures AlphaLabel(Some(x)) == "Acceptable" <==> 0.7 <= x < 0.8
    ensures AlphaLabel(Some(x)) == "Questionable" <==> 0.6 <= x < 0.7
    ensures AlphaLabel(Some(x)) == "Poor" <==> x < 0.6
  {
  }

  /** Position of a label on the scale Poor < Questionable < Acceptable < Good < Excellent. */
  function LabelRank(name: string): nat
  {
    if name == "Excellent" then 4
    else if name == "Good" then 3
    else if name == "Acceptable" then 2
    else if name == "Questionable" then 1
    else 0
  }

  /** A larger alpha never gets a worse label. */
  lemma AlphaLabelMonotone(x: real, y: real)
    requires x <= y
    ensures LabelRank(AlphaLabel(Some(x))) <= LabelRank(AlphaLabel(Some(y)))
  {
  }

  /** The items of a factor that are columns of the frame, in registry order. */
  function Available(df: Frame, items: seq<string>): (r: seq<string>)
    ensures |r| <= |items|
    ensures forall n :: n in r <==> n in items && n in df.cols
    ensures HasAll(df, items) ==> r == items
  {
    if |items| == 0 then []
    else if items[0] in df.cols then [items[0]] + Available(df, items[1..])
    else Available(df, items[1..])
  }

  /** One row of the reliability table; `alpha` is None where the source has NaN. */
  datatype ReliabilityRow = ReliabilityRow(factor: string, alpha: Option<real>, nItems: nat, interpretation: string)

  /** The reliability row of one factor, over its available items. */
  function FactorReliability(df: Frame, f: Factor): (row: ReliabilityRow)
    requires Valid(df)
    ensures row.factor == f.name && row.nItems == |Available(df, f.items)|
    ensures row.interpretation == "Too few items" <==> row.nItems < 2
    ensures row.nItems < 2 ==> row.alpha.None?
  {
    var avail := Available(df, f.items);
    assert HasAll(df, avail);
    if |avail| >= 2 then
      var alpha := CronbachAlpha(df, avail);
      ReliabilityRow(f.name, alpha, |avail|, AlphaLabel(alpha))
    else ReliabilityRow(f.name, None, |avail|, "Too few items")
  }

  /** The reliability rows of the first k factors of `fs`. */
  function ReliabilityUpTo(df: Frame, fs: seq<Factor>, k: nat): (rows: seq<ReliabilityRow>)
    requires Valid(df) && k <= |fs|
    ensures |rows| == k
  {
    if k == 0 then [] else ReliabilityUpTo(df, fs, k - 1) + [FactorReliability(df, fs[k - 1])]
  }

  /** The reliability table: one row per registered factor. */
  function Reliability(df: Frame): (rows: seq<ReliabilityRow>)
    requires Valid(df)
    ensures |rows| == |FactorItems|
  {
    ReliabilityUpTo(df, FactorItems, |FactorItems|)
  }

  lemma {:induction false} ReliabilityUpToRows(df: Frame, fs: seq<Factor>, k: nat)
    requires Valid(df) && k <= |fs|
    ensures forall j :: 0 <= j < k ==> ReliabilityUpTo(df, fs, k)[j] == FactorReliability(df, fs[j])
  {
    if k > 0 {
      ReliabilityUpToRows(df, fs, k - 1);
    }
  }

  /**
   * The table has exactly one row per factor, in registry order, each
   * reporting how many of the factor's items the frame has; fewer than two
   * gives "Too few items" and no alpha, two or more the label of alpha.
   */
  lemma ReliabilityRows(df: Frame)
    requires Valid(df)
    ensures forall k :: 0 <= k < |FactorItems| ==>
      && Reliability(df)[k].factor == FactorItems[k].name
      && Reliability(df)[k].nItems == |Available(df, FactorItems[k].items)|
      && (Reliability(df)[k].interpretation == "Too few items" <==> Reliability(df)[k].nItems < 2)
      && (Reliability(df)[k].nItems < 2 ==> Reliability(df)[k].alpha.None?)
      && (Reliability(df)[k].nItems >= 2 ==> Reliability(df)[k].interpretation == AlphaLabel(Reliability(df)[k].alpha))
  {
    ReliabilityUpToRows(df, FactorItems, |FactorItems|);
  }

  /** An undefined alpha over two or more items is labelled "Poor". */
  lemma UndefinedAlphaIsPoor(df: Frame, k: nat)
    requires Valid(df) && k < |FactorItems|
    requires Reliability(df)[k].nItems >= 2 && Reliability(df)[k].alpha.None?
    ensures Reliability(df)[k].interpretation == "Poor"
  {
    ReliabilityRows(df);
  }

  /** The single-item factors, accessibility and reliability, always have too few items. */
  lemma SingleItemFactorsTooFew(df: Frame, k: nat)
    requires Valid(df) && k < |FactorItems|
    requires FactorItems[k].name in ["accessibility", "reliability"]
    ensures Reliability(df)[k].interpretation == "Too few items" && Reliability(df)[k].alpha.None?
  {
    ReliabilityRows(df);
    SingleItemFactors();
  }

  /** Builds the reliability table one factor at a time. */
  method ComputeReliability(df: Frame) returns (rows: seq<ReliabilityRow>)
    requires Valid(df)
    ensures rows == Reliability(df)
  {
    rows := [];
    for k := 0 to |FactorItems|
      invariant rows == ReliabilityUpTo(df, FactorItems, k)
    {
      var f := FactorItems[k];
      var avail := Available(df, f.items);
      assert HasAll(df, avail);
      if |avail| >= 2 {
        var alpha := CronbachAlpha(df, avail);
        rows := rows + [ReliabilityRow(f.name, alpha, |avail|, AlphaLabel(alpha))];
      } else {
        rows := rows + [ReliabilityRow(f.name, None, |avail|, "Too few items")];
      }
    }
  }

  /** The column names ending in "_score", in frame order. */
  function ScoreColumns(names: seq<string>): (r: seq<string>)
    ensures |r| <= |names|
    ensures forall n :: n in r ==> n in names && EndsWith(n, "_score")
  {
    if |names| == 0 then []
    else if EndsWith(names[0], "_score") then [names[0]] + ScoreColumns(names[1..])
    else ScoreColumns(names[1..])
  }

  /**
   * Exactly the names ending in "_score" are selected; a single name is kept
   * exactly when it is one, and a list of score names is kept whole.
   */
  lemma {:induction false} ScoreColumnsExact(names: seq<string>)
    ensures forall n :: n in ScoreColumns(names) <==> n in names && EndsWith(n, "_score")
    ensures (forall n :: n in names ==> EndsWith(n, "_score")) ==> ScoreColumns(names) == names
    ensures forall n :: ScoreColumns([n]) == if EndsWith(n, "_score") then [n] else []
  {
    if |names| > 0 {
      ScoreColumnsExact(names[1..]);
      assert names == [names[0]] + names[1..];
    }
    forall n: string
      ensures ScoreColumns([n]) == if EndsWith(n, "_score") then [n] else []
    {
      assert [n][1..] == [];
    }
  }

  /** The selection from a concatenation is the concatenation of the selections: frame order is kept. */
  lemma {:induction false} ScoreColumnsAppend(a: seq<string>, b: seq<string>)
    ensures ScoreColumns(a + b) == ScoreColumns(a) + ScoreColumns(b)
  {
    if |a| == 0 {
      assert a + b == b;
    } else {
      assert (a + b)[0] == a[0];
      assert (a + b)[1..] == a[1..] + b;
      ScoreColumnsAppend(a[1..], b);
    }
  }

  /** Selecting from a duplicate-free list gives a duplicate-free list. */
  lemma {:induction false} ScoreColumnsDistinct(names: seq<string>)
    requires Distinct(names)
    ensures Distinct(ScoreColumns(names))
  {
    if |names| > 0 {
      assert names == [names[0]] + names[1..];
      DistinctConcat([names[0]], names[1..]);
      ScoreColumnsDistinct(names[1..]);
      if EndsWith(names[0], "_score") {
        DistinctConcat([names[0]], ScoreColumns(names[1..]));
      }
    }
  }

  /** The Pearson correlation of two columns over the rows where both are present. */
  function PairCorrelation(df: Frame, a: string, b: string, corr: (seq<real>, seq<real>) -> real): real
    requires Valid(df) && a in df.cols && b in df.cols
  {
    var rows := CompleteRows(df, [a, b]);
    corr(ValuesAt(df, a, rows), ValuesAt(df, b, rows))
  }

  /** The correlation matrix over the score columns, entry by entry with pairwise complete rows. */
  function CorrelationMatrix(df: Frame, corr: (seq<real>, seq<real>) -> real): (m: seq<seq<real>>)
    requires Valid(df)
    ensures |m| == |ScoreColumns(df.names)|
    ensures forall i :: 0 <= i < |m| ==> |m[i]| == |m|
  {
    var cols := ScoreColumns(df.names);
    ScoreColumnsExact(df.names);
    seq(|cols|, i requires 0 <= i < |cols| =>
      seq(|cols|, j requires 0 <= j < |cols| => PairCorrelation(df, cols[i], cols[j], corr)))
  }

  lemma {:induction false} CompleteRowsUpToSwap(df: Frame, a: string, b: string, k: nat)
    requires Valid(df) && a in df.cols && b in df.cols && k <= df.height
    ensures CompleteRowsUpTo(df, [a, b], k) == CompleteRowsUpTo(df, [b, a], k)
  {
    if k > 0 {
      CompleteRowsUpToSwap(df, a, b, k - 1);
      assert CompleteAt(df, [a, b], k - 1) == CompleteAt(df, [b, a], k - 1);
    }
  }

  /** A symmetric correlation gives a symmetric matrix. */
  lemma CorrelationMatrixSymmetric(df: Frame, corr: (seq<real>, seq<real>) -> real, i: nat, j: nat)
    requires Valid(df) && i < |ScoreColumns(df.names)| && j < |ScoreColumns(df.names)|
    requires forall xs, ys :: corr(xs, ys) == corr(ys, xs)
    ensures CorrelationMatrix(df, corr)[i][j] == CorrelationMatrix(df, corr)[j][i]
  {
    var cols := ScoreColumns(df.names);
    ScoreColumnsExact(df.names);
    assert cols[i] in cols && cols[j] in cols;
    CompleteRowsUpToSwap(df, cols[i], cols[j], df.height);
  }

  /** The outcome of the targeted significance test. */
  datatype CorrelationTest = CorrelationTest(correlation: real, pValue: real, significant: bool, n: nat)


  /** Why the research report cannot be built: the exceptions its steps raise. */
  datatype AnalysisError =
    | NoScoreColumns
    | NoConfidenceInterval
    | TooFewJointRows(v1: string, v2: string)

  /**
   * Pearson's test of two columns over the rows where both are present;
   * `pearson` stands for the library routine returning r and its p-value.
   * The routine rejects fewer than two pairs of values, which is the
   * `TooFewJointRows` error.
   */
  function TestCorrelationSignificance(df: Frame, v1: string, v2: string,
                                       pearson: (seq<real>, seq<real>) -> (real, real)): (t: Result<CorrelationTest, AnalysisError>)
    requires Valid(df) && v1 in df.cols && v2 in df.cols
    ensures forall i :: 0 <= i < df.height ==>
      (df.cols[v1][i].Some? && df.cols[v2][i].Some? <==> i in CompleteRows(df, [v1, v2]))
    ensures t.Failure? <==> |CompleteRows(df, [v1, v2])| < 2
    ensures t.Failure? ==> t.error == TooFewJointRows(v1, v2)
    ensures t.Success? ==> (t.value.significant <==> t.value.pValue < 0.05)
    ensures t.Success? ==> t.value.n == |CompleteRows(df, [v1, v2])| && 2 <= t.value.n <= df.height
  {
    var rows := CompleteRows(df, [v1, v2]);
    CompleteRowsUpToAll(df, [v1, v2], df.height);
    if |rows| < 2 then Failure(TooFewJointRows(v1, v2))
    else
      var rp := pearson(ValuesAt(df, v1, rows), ValuesAt(df, v2, rows));
      Success(CorrelationTest(rp.0, rp.1, rp.1 < 0.05, |rows|))
  }

  /**
   * One row of the descriptive table of a score column: the count, mean,
   * sample standard deviation, minimum and maximum of its present values
   * (None where pandas has NaN) and the 95% t-interval, which is computed only
   * for a column with at least two values.
   */
  datatype DescriptiveRow = DescriptiveRow(column: string, count: nat, mean: Option<real>, std: Option<real>,
                                           min: Option<real>, max: Option<real>, ci: Option<(real, real)>)

  /**
   * The row of one column; `sqrt` and `interval` stand for the square root
   * and the library's t-interval of a sample.
   */
  function DescribeColumn(df: Frame, n: string, sqrt: real -> real, interval: seq<real> -> (real, real)): (r: DescriptiveRow)
    requires Valid(df) && n in df.cols
    ensures r.column == n && r.count == |Present(df.cols[n])|
    ensures r.mean.Some? <==> r.count > 0
    ensures r.min.Some? <==> r.count > 0
    ensures r.max.Some? <==> r.count > 0
    ensures r.std.Some? <==> r.count >= 2
    ensures r.ci.Some? <==> r.count >= 2
    ensures r.count > 0 ==> r.min.value <= r.mean.value <= r.max.value
    ensures r.count > 0 ==> r.min.value in Present(df.cols[n]) && r.max.value in Present(df.cols[n])
  {
    var xs := Present(df.cols[n]);
    if |xs| == 0 then DescriptiveRow(n, 0, None, None, None, None, None)
    else
      Stats.MeanBetweenExtremes(xs);
      var spread := if |xs| >= 2 then Some(sqrt(Stats.Variance(xs))) else None;
      var ci := if |xs| >= 2 then Some(interval(xs)) else None;
      DescriptiveRow(n, |xs|, Some(Stats.Mean(xs)), spread, Some(Stats.Min(xs)), Some(Stats.Max(xs)), ci)
  }

  /** The descriptive table: one row per score column, in column order; an empty selection cannot be described. */
  function DescriptiveStats(scores: Frame, sqrt: real -> real, interval: seq<real> -> (real, real)): (r: Result<seq<DescriptiveRow>, AnalysisError>)
    requires Valid(scores)
    ensures r.Failure? <==> |ScoreColumns(scores.names)| == 0
    ensures r.Failure? ==> r.error == NoScoreColumns
    ensures r.Success? ==> |r.value| == |ScoreColumns(scores.names)|
    ensures r.Success? ==> forall j :: 0 <= j < |r.value| ==>
      r.value[j] == DescribeColumn(scores, ScoreColumns(scores.names)[j], sqrt, interval)
  {
    var cols := ScoreColumns(scores.names);
    if |cols| == 0 then Failure(NoScoreColumns)
    else Success(seq(|cols|, j requires 0 <= j < |cols| => DescribeColumn(scores, cols[j], sqrt, interval)))
  }

  /** Describes the score columns one at a time, adding each column's interval. */
  method ComputeDescriptiveStats(scores: Frame, sqrt: real -> real, interval: seq<real> -> (real, real))
    returns (r: Result<seq<DescriptiveRow>, AnalysisError>)
    requires Valid(scores)
    ensures r == DescriptiveStats(scores, sqrt, interval)
  {
    var cols := ScoreColumns(scores.names);
    if |cols| == 0 {
      return Failure(NoScoreColumns);
    }
    var rows: seq<DescriptiveRow> := [];
    for k := 0 to |cols|
      invariant |rows| == k
      invariant forall j :: 0 <= j < k ==> rows[j] == DescribeColumn(scores, cols[j], sqrt, interval)
    {
      rows := rows + [DescribeColumn(scores, cols[k], sqrt, interval)];
    }
    assert rows == DescriptiveStats(scores, sqrt, interval).value;
    return Success(rows);
  }

  /** Whether some row got a t-interval, that is whether the table has interval columns at all. */
  predicate HasInterval(rows: seq<DescriptiveRow>)
  {
    exists j :: 0 <= j < |rows| && rows[j].ci.Some?
  }

  predicate IsLower(c: char) { 'a' <= c <= 'z' }
  predicate IsUpper(c: char) { 'A' <= c <= 'Z' }
  predicate IsLetter(c: char) { IsLower(c) || IsUpper(c) }

  function ToUpper(c: char): (u: char)
    ensures IsLetter(u) <==> IsLetter(c)
    ensures IsLower(c) ==> IsUpper(u)
    ensures !IsLower(c) ==> u == c
  {
    if IsLower(c) then (c as int - 32) as char else c
  }

  function ToLower(c: char): (l: char)
    ensures IsLetter(l) <==> IsLetter(c)
    ensures IsUpper(c) ==> IsLower(l)
    ensures !IsUpper(c) ==> l == c
  {
    if IsUpper(c) then (c as int + 32) as char else c
  }

  /**
   * Python's `str.replace` for a non-empty pattern: occurrences are replaced
   * from left to right, without overlapping.
   */
  function Replace(s: string, pat: string, rep: string): string
    requires |pat| > 0
    decreases |s|
  {
    if |s| < |pat| then s
    else if s[..|pat|] == pat then rep + Replace(s[|pat|..], pat, rep)
    else [s[0]] + Replace(s[1..], pat, rep)
  }

  /** Replacing one character by another changes exactly the positions holding it. */
  lemma {:induction false} ReplaceChar(s: string, a: char, b: char)
    ensures |Replace(s, [a], [b])| == |s|
    ensures forall i :: 0 <= i < |s| ==> Replace(s, [a], [b])[i] == if s[i] == a then b else s[i]
  {
    if |s| > 0 {
      ReplaceChar(s[1..], a, b);
      assert s[..1] == [s[0]];
      var x := if s[0] == a then b else s[0];
      assert Replace(s, [a], [b]) == [x] + Replace(s[1..], [a], [b]);
      forall i | 1 <= i < |s|
        ensures Replace(s, [a], [b])[i] == if s[i] == a then b else s[i]
      {
        assert s[1..][i - 1] == s[i];
      }
    }
  }

  /**
   * Python's `str.title` on ASCII text: a letter that follows a letter is
   * lower-cased, any other letter upper-cased, and other characters are kept.
   */
  function TitleCaseFrom(s: string, afterLetter: bool): (t: string)
    ensures |t| == |s|
  {
    if |s| == 0 then []
    else [if afterLetter then ToLower(s[0]) else ToUpper(s[0])] + TitleCaseFrom(s[1..], IsLetter(s[0]))
  }

  function TitleCase(s: string): (t: string)
    ensures |t| == |s|
  {
    TitleCaseFrom(s, false)
  }

  /** The i-th character of a title-cased text depends only on the i-th and the one before it. */
  lemma {:induction false} TitleCaseFromAt(s: string, afterLetter: bool, i: nat)
    requires i < |s|
    ensures TitleCaseFrom(s, afterLetter)[i] ==
      if (if i == 0 then afterLetter else IsLetter(s[i - 1])) then ToLower(s[i]) else ToUpper(s[i])
  {
    if i > 0 {
      TitleCaseFromAt(s[1..], IsLetter(s[0]), i - 1);
      assert s[1..][i - 1] == s[i];
      if i > 1 {
        assert s[1..][i - 2] == s[i - 1];
      }
    }
  }

  /** The name a score column is printed under: "_score" dropped, underscores as spaces, title case. */
  function DescriptiveLabel(column: string): string
  {
    TitleCase(Replace(Replace(column, "_score", ""), "_", " "))
  }

  /**
   * A label has no underscore, and each of its letters is upper-case exactly
   * when it starts a word (it opens the label or follows a non-letter).
   */
  lemma DescriptiveLabelShape(column: string)
    ensures forall i :: 0 <= i < |DescriptiveLabel(column)| ==> DescriptiveLabel(column)[i] != '_'
    ensures forall i :: 0 <= i < |DescriptiveLabel(column)| && IsLetter(DescriptiveLabel(column)[i]) ==>
      (IsUpper(DescriptiveLabel(column)[i]) <==> i == 0 || !IsLetter(DescriptiveLabel(column)[i - 1]))
  {
    var v := Replace(column, "_score", "");
    var u := Replace(v, "_", " ");
    var t := TitleCase(u);
    ReplaceChar(v, '_', ' ');
    forall i | 0 <= i < |t|
      ensures t[i] != '_'
      ensures IsLetter(t[i]) ==> (IsUpper(t[i]) <==> i == 0 || !IsLetter(t[i - 1]))
    {
      TitleCaseFromAt(u, false, i);
      if i > 0 {
        TitleCaseFromAt(u, false, i - 1);
      }
    }
  }

  /** The pairs the report tests: first column, second column and the printed label. */
  const KeyPairs: seq<(string, string, string)> := [
    ("platform_design_score", "motivation_score", "Platform Design \U{2194} Motivation"),
    ("interaction_score", "satisfaction_score", "Interaction \U{2194} Satisfaction"),
    ("motivation_score", "achievement_score", "Motivation \U{2194} Achievement"),
    ("engagement_score", "achievement_score", "Engagement \U{2194} Achievement"),
    ("engagement_score", "satisfaction_score", "Engagement \U{2194} Satisfaction")
  ]

  /** The key pairs whose two columns are both in `cols`, in their listed order. */
  function PresentPairs(cols: map<string, Column>, pairs: seq<(string, string, string)>): (r: seq<(string, string, string)>)
    ensures |r| <= |pairs|
    ensures forall j :: 0 <= j < |r| ==> r[j].0 in cols && r[j].1 in cols
  {
    if |pairs| == 0 then []
    else
      var last := pairs[|pairs| - 1];
      var prev := PresentPairs(cols, pairs[..|pairs| - 1]);
      if last.0 in cols && last.1 in cols then prev + [last] else prev
  }

  /** A pair is reported exactly when both of its columns exist. */
  lemma {:induction false} PresentPairsExact(cols: map<string, Column>, pairs: seq<(string, string, string)>)
    ensures forall p :: p in PresentPairs(cols, pairs) <==> p in pairs && p.0 in cols && p.1 in cols
  {
    if |pairs| > 0 {
      var init := pairs[..|pairs| - 1];
      PresentPairsExact(cols, init);
      assert pairs == init + [pairs[|pairs| - 1]];
    }
  }

  /** With every column present, every pair is reported, in order. */
  lemma {:induction false} PresentPairsAll(cols: map<string, Column>, pairs: seq<(string, string, string)>)
    requires forall j :: 0 <= j < |pairs| ==> pairs[j].0 in cols && pairs[j].1 in cols
    ensures PresentPairs(cols, pairs) == pairs
  {
    if |pairs| > 0 {
      var init := pairs[..|pairs| - 1];
      PresentPairsAll(cols, init);
      assert pairs == init + [pairs[|pairs| - 1]];
    }
  }

  /** The report sections that open with a heading. */
  datatype Section = ReliabilitySection | DescriptiveSection | CorrelationSection

  /**
   * A line of the text report. `Rule(c)` is seventy copies of c; the numbers
   * on the data lines are printed rounded, which is not modelled, and an
   * undefined value prints as NaN.
   */
  datatype ReportLine =
    | Rule(c: char)
    | Title
    | Blank
    | SampleSize(respondents: nat)
    | Heading(section: Section)
    | AlphaLine(factor: string, alpha: real, interpretation: string, nItems: nat)
    | LabelLine(factor: string, interpretation: string)
    | DescriptiveLine(name: string, mean: Option<real>, std: Option<real>, ciLower: Option<real>, ciUpper: Option<real>)
    | PairLine(pairLabel: string, r: real, p: real, marked: bool)
    | Footnote

  /** A factor with a defined alpha shows it with its label and item count; otherwise only the label. */
  function ReliabilityLine(row: ReliabilityRow): (l: ReportLine)
    ensures l.AlphaLine? <==> row.alpha.Some?
    ensures l.AlphaLine? || l.LabelLine?
    ensures l.factor == row.factor && l.interpretation == row.interpretation
  {
    if row.alpha.Some? then AlphaLine(row.factor, row.alpha.value, row.interpretation, row.nItems)
    else LabelLine(row.factor, row.interpretation)
  }

  function ReliabilityLines(rows: seq<ReliabilityRow>): (ls: seq<ReportLine>)
    ensures |ls| == |rows|
  {
    seq(|rows|, j requires 0 <= j < |rows| => ReliabilityLine(rows[j]))
  }

  /** A column's line: its printed name, mean, standard deviation and interval bounds. */
  function DescriptiveLineOf(row: DescriptiveRow): (l: ReportLine)
    ensures l.DescriptiveLine? && l.name == DescriptiveLabel(row.column)
    ensures l.mean == row.mean && l.std == row.std
    ensures l.ciLower.Some? <==> row.ci.Some?
    ensures l.ciUpper.Some? <==> row.ci.Some?
    ensures row.ci.Some? ==> l.ciLower.value == row.ci.value.0 && l.ciUpper.value == row.ci.value.1
  {
    var lower := if row.ci.Some? then Some(row.ci.value.0) else None;
    var upper := if row.ci.Some? then Some(row.ci.value.1) else None;
    DescriptiveLine(DescriptiveLabel(row.column), row.mean, row.std, lower, upper)
  }

  function DescriptiveLines(rows: seq<DescriptiveRow>): (ls: seq<ReportLine>)
    ensures |ls| == |rows|
  {
    seq(|rows|, j requires 0 <= j < |rows| => DescriptiveLineOf(rows[j]))
  }

  /** Line l is the pair line of a successful test of pair p: its label, r, p-value and marker. */
  predicate TestedLine(scores: Frame, p: (string, string, string), l: ReportLine,
                       pearson: (seq<real>, seq<real>) -> (real, real))
    requires Valid(scores)
  {
    && p.0 in scores.cols && p.1 in scores.cols
    && var t := TestCorrelationSignificance(scores, p.0, p.1, pearson);
       t.Success? && l == PairLine(p.2, t.value.correlation, t.value.pValue, t.value.significant)
  }

  /**
   * The lines of the first k pairs: a pair whose columns both exist is
   * tested, and the first test that fails aborts the rest.
   */
  function PairLinesUpTo(scores: Frame, pairs: seq<(string, string, string)>, k: nat,
                         pearson: (seq<real>, seq<real>) -> (real, real)): (r: Result<seq<ReportLine>, AnalysisError>)
    requires Valid(scores) && k <= |pairs|
    ensures r.Success? ==> |r.value| == |PresentPairs(scores.cols, pairs[..k])|
    ensures r.Success? ==> forall j :: 0 <= j < |r.value| ==>
      TestedLine(scores, PresentPairs(scores.cols, pairs[..k])[j], r.value[j], pearson)
    ensures r.Success? ==> forall j :: 0 <= j < |r.value| ==>
      r.value[j].PairLine? && (r.value[j].marked <==> r.value[j].p < 0.05)
  {
    if k == 0 then Success([])
    else
      assert pairs[..k][..k - 1] == pairs[..k - 1];
      var prev := PairLinesUpTo(scores, pairs, k - 1, pearson);
      var (v1, v2, name) := pairs[k - 1];
      if prev.Failure? then prev
      else if !(v1 in scores.cols && v2 in scores.cols) then prev
      else
        match TestCorrelationSignificance(scores, v1, v2, pearson)
        case Failure(e) => Failure(e)
        case Success(t) => Success(prev.value + [PairLine(name, t.correlation, t.pValue, t.significant)])
  }

  /** A pair whose columns both exist but share fewer than two rows: the test raises on it. */
  predicate PairTooFew(scores: Frame, p: (string, string, string))
    requires Valid(scores)
  {
    p.0 in scores.cols && p.1 in scores.cols && |CompleteRows(scores, [p.0, p.1])| < 2
  }

  /** The pair lines fail exactly when some pair is too short, and they name the first such pair. */
  lemma {:induction false} PairLinesFail(scores: Frame, pairs: seq<(string, string, string)>, k: nat,
                                         pearson: (seq<real>, seq<real>) -> (real, real))
    requires Valid(scores) && k <= |pairs|
    ensures PairLinesUpTo(scores, pairs, k, pearson).Failure? <==> exists j :: 0 <= j < k && PairTooFew(scores, pairs[j])
    ensures PairLinesUpTo(scores, pairs, k, pearson).Failure? ==>
      exists j :: 0 <= j < k && PairTooFew(scores, pairs[j]) && (forall i :: 0 <= i < j ==> !PairTooFew(scores, pairs[i]))
        && PairLinesUpTo(scores, pairs, k, pearson).error == TooFewJointRows(pairs[j].0, pairs[j].1)
  {
    if k > 0 {
      PairLinesFail(scores, pairs, k - 1, pearson);
      var prev := PairLinesUpTo(scores, pairs, k - 1, pearson);
      var (v1, v2, name) := pairs[k - 1];
      if prev.Success? {
        assert forall j :: 0 <= j < k - 1 ==> !PairTooFew(scores, pairs[j]);
        if v1 in scores.cols && v2 in scores.cols {
          var t := TestCorrelationSignificance(scores, v1, v2, pearson);
          assert t.Failure? <==> PairTooFew(scores, pairs[k - 1]);
        } else {
          assert !PairTooFew(scores, pairs[k - 1]);
        }
      }
    }
  }

  /** Once a test fails, later pairs leave the failure unchanged. */
  lemma {:induction false} PairLinesFailureKept(scores: Frame, pairs: seq<(string, string, string)>, k: nat, m: nat,
                                                pearson: (seq<real>, seq<real>) -> (real, real))
    requires Valid(scores) && k <= m <= |pairs|
    requires PairLinesUpTo(scores, pairs, k, pearson).Failure?
    ensures PairLinesUpTo(scores, pairs, m, pearson) == PairLinesUpTo(scores, pairs, k, pearson)
  {
    if m > k {
      PairLinesFailureKept(scores, pairs, k, m - 1, pearson);
    }
  }

  function ReportHeader(respondents: nat): seq<ReportLine>
  {
    [Rule('='), Title, Rule('='), Blank, SampleSize(respondents), Blank, Heading(ReliabilitySection), Rule('-')]
  }

  const DescriptiveHeader: seq<ReportLine> := [Blank, Heading(DescriptiveSection), Rule('-')]
  const CorrelationHeader: seq<ReportLine> := [Blank, Heading(CorrelationSection), Rule('-')]
  const ReportFooter: seq<ReportLine> := [Blank, Footnote, Blank, Rule('=')]

  /**
   * The whole report: reliability of `df`, then the descriptive table and
   * the key correlations of `scores`. It fails where the source raises:
   * no score column to describe, no column with an interval for the
   * report's interval lookup, or a key pair too short for Pearson's test,
   * in that order.
   */
  function AnalysisReport(df: Frame, scores: Frame, pearson: (seq<real>, seq<real>) -> (real, real),
                          sqrt: real -> real, interval: seq<real> -> (real, real)): Result<seq<ReportLine>, AnalysisError>
    requires Valid(df) && Valid(scores)
  {
    var described := DescriptiveStats(scores, sqrt, interval);
    var pairs := PairLinesUpTo(scores, KeyPairs, |KeyPairs|, pearson);
    if described.Failure? then Failure(described.error)
    else if !HasInterval(described.value) then Failure(NoConfidenceInterval)
    else if pairs.Failure? then Failure(pairs.error)
    else
      Success(ReportHeader(scores.height) + ReliabilityLines(Reliability(df))
              + DescriptiveHeader + DescriptiveLines(described.value)
              + CorrelationHeader + pairs.value
              + ReportFooter)
  }

  /** The reliability section, one factor at a time. */
  method ReliabilitySectionLines(df: Frame) returns (lines: seq<ReportLine>)
    requires Valid(df)
    ensures lines == ReliabilityLines(Reliability(df))
  {
    var reliability := ComputeReliability(df);
    lines := [];
    for k := 0 to |reliability|
      invariant lines == ReliabilityLines(reliability[..k])
    {
      assert ReliabilityLines(reliability[..k + 1]) == ReliabilityLines(reliability[..k]) + [ReliabilityLine(reliability[k])];
      lines := lines + [ReliabilityLine(reliability[k])];
    }
    assert reliability[..|reliability|] == reliability;
  }

  /** The descriptive section, one table row at a time. */
  method DescriptiveSectionLines(rows: seq<DescriptiveRow>) returns (lines: seq<ReportLine>)
    ensures lines == DescriptiveLines(rows)
  {
    lines := [];
    for k := 0 to |rows|
      invariant lines == DescriptiveLines(rows[..k])
    {
      assert DescriptiveLines(rows[..k + 1]) == DescriptiveLines(rows[..k]) + [DescriptiveLineOf(rows[k])];
      lines := lines + [DescriptiveLineOf(rows[k])];
    }
    assert rows[..|rows|] == rows;
  }

  /** The key correlations, testing each pair whose columns both exist and stopping at a test that raises. */
  method KeyPairSectionLines(scores: Frame, pearson: (seq<real>, seq<real>) -> (real, real))
    returns (r: Result<seq<ReportLine>, AnalysisError>)
    requires Valid(scores)
    ensures r == PairLinesUpTo(scores, KeyPairs, |KeyPairs|, pearson)
  {
    var lines: seq<ReportLine> := [];
    for k := 0 to |KeyPairs|
      invariant PairLinesUpTo(scores, KeyPairs, k, pearson) == Success(lines)
    {
      var (v1, v2, name) := KeyPairs[k];
      if v1 in scores.cols && v2 in scores.cols {
        var t := TestCorrelationSignificance(scores, v1, v2, pearson);
        if t.Failure? {
          PairLinesFailureKept(scores, KeyPairs, k + 1, |KeyPairs|, pearson);
          return Failure(t.error);
        }
        lines := lines + [PairLine(name, t.value.correlation, t.value.pValue, t.value.significant)];
      }
    }
    r := Success(lines);
  }

  /**
   * Assembles the report section by section: header and sample size, one
   * line per reliability row, one per score column, then the key pairs
   * whose columns both exist, then the footnote; stops at the first step
   * that raises.
   */
  method GenerateAnalysisReport(df: Frame, scores: Frame, pearson: (seq<real>, seq<real>) -> (real, real),
                                sqrt: real -> real, interval: seq<real> -> (real, real))
    returns (report: Result<seq<ReportLine>, AnalysisError>)
    requires Valid(df) && Valid(scores)
    ensures report == AnalysisReport(df, scores, pearson, sqrt, interval)
  {
    var reliability := ReliabilitySectionLines(df);
    var described := ComputeDescriptiveStats(scores, sqrt, interval);
    if described.Failure? {
      return Failure(described.error);
    }
    // The first descriptive line already looks the interval up.
    if !HasInterval(described.value) {
      return Failure(NoConfidenceInterval);
    }
    var descriptive := DescriptiveSectionLines(described.value);
    var pairs := KeyPairSectionLines(scores, pearson);
    if pairs.Failure? {
      return Failure(pairs.error);
    }
    report := Success(ReportHeader(scores.height) + reliability + DescriptiveHeader + descriptive
                      + CorrelationHeader + pairs.value + ReportFooter);
  }

  /** No column ends in "_score". */
  predicate NoScoreColumn(scores: Frame)
  {
    |ScoreColumns(scores.names)| == 0
  }

  /** No score column has two present values, so no interval is ever computed. */
  predicate NoIntervalColumn(scores: Frame)
    requires Valid(scores)
  {
    forall n :: n in ScoreColumns(scores.names) ==> |Present(scores.cols[n])| < 2
  }

  /** Some key pair has both columns but fewer than two rows holding both. */
  predicate SomePairTooFew(scores: Frame)
    requires Valid(scores)
  {
    exists j :: 0 <= j < |KeyPairs| && PairTooFew(scores, KeyPairs[j])
  }

  /** A described table has an interval exactly when some score column has two values. */
  lemma HasIntervalIff(scores: Frame, sqrt: real -> real, interval: seq<real> -> (real, real))
    requires Valid(scores) && DescriptiveStats(scores, sqrt, interval).Success?
    ensures HasInterval(DescriptiveStats(scores, sqrt, interval).value) <==> !NoIntervalColumn(scores)
  {
    var cols := ScoreColumns(scores.names);
    var rows := DescriptiveStats(scores, sqrt, interval).value;
    assert |rows| == |cols|;
    assert forall j :: 0 <= j < |cols| ==> cols[j] in scores.cols;
    forall j | 0 <= j < |rows|
      ensures rows[j].ci.Some? <==> |Present(scores.cols[cols[j]])| >= 2
    {
      assert rows[j] == DescribeColumn(scores, cols[j], sqrt, interval);
    }
    if HasInterval(rows) {
      var j :| 0 <= j < |rows| && rows[j].ci.Some?;
      assert cols[j] in cols;
    }
    if !NoIntervalColumn(scores) {
      var n :| n in cols && |Present(scores.cols[n])| >= 2;
      var j :| 0 <= j < |cols| && cols[j] == n;
      assert rows[j].ci.Some?;
    }
  }

  /**
   * The report fails exactly when there is no score column, no score column
   * with two values, or a key pair too short to test, and it names the first
   * of these that applies.
   */
  lemma ReportFailures(df: Frame, scores: Frame, pearson: (seq<real>, seq<real>) -> (real, real),
                       sqrt: real -> real, interval: seq<real> -> (real, real))
    requires Valid(df) && Valid(scores)
    ensures AnalysisReport(df, scores, pearson, sqrt, interval).Failure? <==>
      NoScoreColumn(scores) || NoIntervalColumn(scores) || SomePairTooFew(scores)
    ensures NoScoreColumn(scores) ==> AnalysisReport(df, scores, pearson, sqrt, interval) == Failure(NoScoreColumns)
    ensures !NoScoreColumn(scores) && NoIntervalColumn(scores) ==>
      AnalysisReport(df, scores, pearson, sqrt, interval) == Failure(NoConfidenceInterval)
    ensures !NoScoreColumn(scores) && !NoIntervalColumn(scores) && SomePairTooFew(scores) ==>
      AnalysisReport(df, scores, pearson, sqrt, interval).Failure? &&
      AnalysisReport(df, scores, pearson, sqrt, interval).error.TooFewJointRows?
  {
    PairLinesFail(scores, KeyPairs, |KeyPairs|, pearson);
    if !NoScoreColumn(scores) {
      HasIntervalIff(scores, sqrt, interval);
    }
  }

  /** A report that is built is the header, then the three sections, then the footer. */
  lemma ReportAssembled(df: Frame, scores: Frame, pearson: (seq<real>, seq<real>) -> (real, real),
                        sqrt: real -> real, interval: seq<real> -> (real, real))
    requires Valid(df) && Valid(scores)
    requires AnalysisReport(df, scores, pearson, sqrt, interval).Success?
    ensures DescriptiveStats(scores, sqrt, interval).Success?
    ensures PairLinesUpTo(scores, KeyPairs, |KeyPairs|, pearson).Success?
    ensures AnalysisReport(df, scores, pearson, sqrt, interval).value ==
      ReportHeader(scores.height) + ReliabilityLines(Reliability(df))
      + DescriptiveHeader + DescriptiveLines(DescriptiveStats(scores, sqrt, interval).value)
      + CorrelationHeader + PairLinesUpTo(scores, KeyPairs, |KeyPairs|, pearson).value
      + ReportFooter
  {
  }

  /**
   * A report that is built states the number of rows of the score table and
   * has one line per reliability row, per score column and per key pair
   * whose columns both exist, between the headers and the footer.
   */
  lemma ReportContents(df: Frame, scores: Frame, pearson: (seq<real>, seq<real>) -> (real, real),
                       sqrt: real -> real, interval: seq<real> -> (real, real))
    requires Valid(df) && Valid(scores)
    requires AnalysisReport(df, scores, pearson, sqrt, interval).Success?
    ensures AnalysisReport(df, scores, pearson, sqrt, interval).value[4] == SampleSize(scores.height)
    ensures |AnalysisReport(df, scores, pearson, sqrt, interval).value| ==
      |ReportHeader(0)| + |FactorItems| + |DescriptiveHeader| + |ScoreColumns(scores.names)|
      + |CorrelationHeader| + |PresentPairs(scores.cols, KeyPairs)| + |ReportFooter|
  {
    ReportAssembled(df, scores, pearson, sqrt, interval);
    assert KeyPairs[..|KeyPairs|] == KeyPairs;
    AssembledAt(scores.height, ReliabilityLines(Reliability(df)),
                DescriptiveLines(DescriptiveStats(scores, sqrt, interval).value),
                PairLinesUpTo(scores, KeyPairs, |KeyPairs|, pearson).value);
  }

  /** Line 8 + k of a built report is the reliability line of factor k. */
  lemma ReportReliabilityLines(df: Frame, scores: Frame, pearson: (seq<real>, seq<real>) -> (real, real),
                               sqrt: real -> real, interval: seq<real> -> (real, real), k: nat)
    requires Valid(df) && Valid(scores) && k < |FactorItems|
    requires AnalysisReport(df, scores, pearson, sqrt, interval).Success?
    ensures 8 + k < |AnalysisReport(df, scores, pearson, sqrt, interval).value|
    ensures AnalysisReport(df, scores, pearson, sqrt, interval).value[8 + k] == ReliabilityLine(Reliability(df)[k])
  {
    ReportAssembled(df, scores, pearson, sqrt, interval);
    AssembledAt(scores.height, ReliabilityLines(Reliability(df)),
                DescriptiveLines(DescriptiveStats(scores, sqrt, interval).value),
                PairLinesUpTo(scores, KeyPairs, |KeyPairs|, pearson).value);
  }

  /** Line 11 + |FactorItems| + j of a built report is the j-th descriptive line. */
  lemma ReportDescriptiveAt(df: Frame, scores: Frame, pearson: (seq<real>, seq<real>) -> (real, real),
                            sqrt: real -> real, interval: seq<real> -> (real, real), j: nat)
    requires Valid(df) && Valid(scores)
    requires AnalysisReport(df, scores, pearson, sqrt, interval).Success?
    requires DescriptiveStats(scores, sqrt, interval).Success? && j < |DescriptiveStats(scores, sqrt, interval).value|
    ensures 11 + |FactorItems| + j < |AnalysisReport(df, scores, pearson, sqrt, interval).value|
    ensures AnalysisReport(df, scores, pearson, sqrt, interval).value[11 + |FactorItems| + j] ==
      DescriptiveLines(DescriptiveStats(scores, sqrt, interval).value)[j]
  {
    ReportAssembled(df, scores, pearson, sqrt, interval);
    var rows := DescriptiveStats(scores, sqrt, interval).value;
    DescriptiveAt(scores.height, ReliabilityLines(Reliability(df)), DescriptiveLines(rows),
                  PairLinesUpTo(scores, KeyPairs, |KeyPairs|, pearson).value, j);
  }

  /**
   * The line of score column j in a built report carries the column's
   * printed name, mean, standard deviation and interval bounds.
   */
  lemma ReportDescriptiveLines(df: Frame, scores: Frame, pearson: (seq<real>, seq<real>) -> (real, real),
                               sqrt: real -> real, interval: seq<real> -> (real, real), j: nat)
    requires Valid(df) && Valid(scores) && j < |ScoreColumns(scores.names)|
    requires AnalysisReport(df, scores, pearson, sqrt, interval).Success?
    ensures 11 + |FactorItems| + j < |AnalysisReport(df, scores, pearson, sqrt, interval).value|
    ensures AnalysisReport(df, scores, pearson, sqrt, interval).value[11 + |FactorItems| + j] ==
      DescriptiveLineOf(DescribeColumn(scores, ScoreColumns(scores.names)[j], sqrt, interval))
  {
    var rows := DescriptiveStats(scores, sqrt, interval).value;
    ReportDescriptiveAt(df, scores, pearson, sqrt, interval, j);
    assert DescriptiveLines(rows)[j] == DescriptiveLineOf(rows[j]);
  }

  /** Line 14 + |FactorItems| + |ScoreColumns| + j of a built report is the j-th pair line. */
  lemma ReportPairAt(df: Frame, scores: Frame, pearson: (seq<real>, seq<real>) -> (real, real),
                     sqrt: real -> real, interval: seq<real> -> (real, real), j: nat)
    requires Valid(df) && Valid(scores)
    requires AnalysisReport(df, scores, pearson, sqrt, interval).Success?
    requires PairLinesUpTo(scores, KeyPairs, |KeyPairs|, pearson).Success?
    requires j < |PairLinesUpTo(scores, KeyPairs, |KeyPairs|, pearson).value|
    ensures 14 + |FactorItems| + |ScoreColumns(scores.names)| + j < |AnalysisReport(df, scores, pearson, sqrt, interval).value|
    ensures AnalysisReport(df, scores, pearson, sqrt, interval).value[14 + |FactorItems| + |ScoreColumns(scores.names)| + j] ==
      PairLinesUpTo(scores, KeyPairs, |KeyPairs|, pearson).value[j]
  {
    ReportAssembled(df, scores, pearson, sqrt, interval);
    PairAt(scores.height, ReliabilityLines(Reliability(df)),
           DescriptiveLines(DescriptiveStats(scores, sqrt, interval).value),
           PairLinesUpTo(scores, KeyPairs, |KeyPairs|, pearson).value, j);
  }

  /**
   * The j-th present key pair's line reports that pair's test, and is marked
   * exactly when p < 0.05.
   */
  lemma ReportPairLines(df: Frame, scores: Frame, pearson: (seq<real>, seq<real>) -> (real, real),
                        sqrt: real -> real, interval: seq<real> -> (real, real), j: nat)
    requires Valid(df) && Valid(scores) && j < |PresentPairs(scores.cols, KeyPairs)|
    requires AnalysisReport(df, scores, pearson, sqrt, interval).Success?
    ensures 14 + |FactorItems| + |ScoreColumns(scores.names)| + j < |AnalysisReport(df, scores, pearson, sqrt, interval).value|
    ensures var l := AnalysisReport(df, scores, pearson, sqrt, interval).value[14 + |FactorItems| + |ScoreColumns(scores.names)| + j];
      && TestedLine(scores, PresentPairs(scores.cols, KeyPairs)[j], l, pearson)
      && l.PairLine? && l.pairLabel == PresentPairs(scores.cols, KeyPairs)[j].2 && (l.marked <==> l.p < 0.05)
  {
    ReportAssembled(df, scores, pearson, sqrt, interval);
    assert KeyPairs[..|KeyPairs|] == KeyPairs;
    ReportPairAt(df, scores, pearson, sqrt, interval, j);
  }

  /** Where each section sits in an assembled report. */
  lemma AssembledAt(h: nat, rel: seq<ReportLine>, desc: seq<ReportLine>, pairs: seq<ReportLine>)
    ensures var lines := ReportHeader(h) + rel + DescriptiveHeader + desc + CorrelationHeader + pairs + ReportFooter;
      && lines[4] == SampleSize(h)
      && |lines| == 18 + |rel| + |desc| + |pairs|
      && (forall k :: 0 <= k < |rel| ==> lines[8 + k] == rel[k])
      && (forall j :: 0 <= j < |desc| ==> lines[11 + |rel| + j] == desc[j])
      && (forall j :: 0 <= j < |pairs| ==> lines[14 + |rel| + |desc| + j] == pairs[j])
  {
  }

  /** The descriptive line j of an assembled report. */
  lemma DescriptiveAt(h: nat, rel: seq<ReportLine>, desc: seq<ReportLine>, pairs: seq<ReportLine>, j: nat)
    requires j < |desc|
    ensures var lines := ReportHeader(h) + rel + DescriptiveHeader + desc + CorrelationHeader + pairs + ReportFooter;
      11 + |rel| + j < |lines| && lines[11 + |rel| + j] == desc[j]
  {
  }

  /** The pair line j of an assembled report. */
  lemma PairAt(h: nat, rel: seq<ReportLine>, desc: seq<ReportLine>, pairs: seq<ReportLine>, j: nat)
    requires j < |pairs|
    ensures var lines := ReportHeader(h) + rel + DescriptiveHeader + desc + CorrelationHeader + pairs + ReportFooter;
      14 + |rel| + |desc| + j < |lines| && lines[14 + |rel| + |desc| + j] == pairs[j]
  {
  }
}
