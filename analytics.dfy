/**
 * The web service's analytics (the dashboard back end): Likert normalisation
 * with missing answers counted as the lowest point, factor and dimension
 * scores averaged over whatever items are present, descriptive metrics,
 * correlations, a linear-regression summary and the strengths and
 * improvements lists.  The registry is the one in module Registry: the
 * service keeps an identical copy of it.
 */
module Analytics {
  import opened Wrappers
  import opened Frames
  import opened Registry
  import Stats
  import Scoring
  import Analysis

  /**
   * `normalize_likert` on one cell: a missing answer is filled with the lowest
   * point, 1, and then 1..5 is mapped onto 0..100.
   */
  function NormalizedCell(c: Option<real>): (s: real)
    ensures c.None? ==> s == 0.0
    ensures c.Some? ==> Scoring.ScoreToLikert(s) == c.value
    ensures c.Some? && 1.0 <= c.value <= 5.0 ==> 0.0 <= s <= 100.0
  {
    Scoring.LikertToScoreRange(c.GetOr(1.0), c.GetOr(1.0));
    Scoring.LikertToScore(c.GetOr(1.0))
  }

  /** `normalize_likert` on a whole column: the result has no missing cell. */
  function NormalizeLikert(c: Column): (r: Column)
    ensures |r| == |c|
    ensures forall i :: 0 <= i < |c| ==> r[i].Some? && r[i].value == NormalizedCell(c[i])
  {
    seq(|c|, i requires 0 <= i < |c| => Some(NormalizedCell(c[i])))
  }

  /** The normalised cells of row i across `names`, one per name, in order. */
  function NormalizedRow(df: Frame, names: seq<string>, i: nat): (xs: seq<real>)
    requires Valid(df) && HasAll(df, names) && i < df.height
    ensures |xs| == |names|
    ensures forall j :: 0 <= j < |names| ==> xs[j] == NormalizedCell(df.cols[names[j]][i])
  {
    if |names| == 0 then []
    else [NormalizedCell(df.cols[names[0]][i])] + NormalizedRow(df, names[1..], i)
  }

  /** The 0..100 score of every value in order. */
  function Scores(xs: seq<real>): (ys: seq<real>)
    ensures |ys| == |xs|
  {
    if |xs| == 0 then [] else [Scoring.LikertToScore(xs[0])] + Scores(xs[1..])
  }

  /** The score is affine, so the scores of n values sum to 25 times their sum less 25 n. */
  lemma {:induction false} SumOfScores(xs: seq<real>)
    ensures Stats.Sum(Scores(xs)) == 25.0 * Stats.Sum(xs) - 25.0 * (|xs| as real)
  {
    if |xs| > 0 {
      assert Scores(xs)[1..] == Scores(xs[1..]);
      SumOfScores(xs[1..]);
    }
  }

  lemma AffineQuotient(s: real, t: real, n: real)
    requires n > 0.0 && t == 25.0 * s - 25.0 * n
    ensures t / n == Scoring.LikertToScore(s / n)
  {
    var x := 25.0 * (s / n) - 25.0;
    assert (s / n) * n == s;
    assert t == x * n;
  }

  /** Scoring then averaging equals averaging then scoring. */
  lemma MeanOfScores(xs: seq<real>)
    requires |xs| > 0
    ensures Stats.Mean(Scores(xs)) == Scoring.LikertToScore(Stats.Mean(xs))
  {
    SumOfScores(xs);
    AffineQuotient(Stats.Sum(xs), Stats.Sum(Scores(xs)), |xs| as real);
  }

  /** With every cell of row i present, the normalised row is the scores of the row's values. */
  lemma {:induction false} NormalizedRowPresent(df: Frame, names: seq<string>, i: nat)
    requires Valid(df) && HasAll(df, names) && i < df.height
    requires forall n :: n in names ==> df.cols[n][i].Some?
    ensures NormalizedRow(df, names, i) == Scores(RowValues(df, names, i))
  {
    if |names| > 0 {
      NormalizedRowPresent(df, names[1..], i);
    }
  }

  /** The service's factor score at row i: the mean of the normalised present items. */
  function ServiceScoreAt(df: Frame, present: seq<string>, i: nat): real
    requires Valid(df) && HasAll(df, present) && |present| > 0 && i < df.height
  {
    Stats.Mean(NormalizedRow(df, present, i))
  }

  /** A factor column of the service: defined on every row. */
  function ServiceFactorColumn(df: Frame, present: seq<string>): (c: Column)
    requires Valid(df) && HasAll(df, present) && |present| > 0
    ensures |c| == df.height
    ensures forall i :: 0 <= i < df.height ==> c[i] == Some(ServiceScoreAt(df, present, i))
  {
    seq(df.height, i requires 0 <= i < df.height => Some(ServiceScoreAt(df, present, i)))
  }

  /**
   * On a row where every item is answered the service's factor score is the
   * research scorer's; only missing answers make them differ.
   */
  lemma ServiceAgreesWhenAnswered(df: Frame, present: seq<string>, i: nat)
    requires Valid(df) && HasAll(df, present) && |present| > 0 && i < df.height
    requires forall n :: n in present ==> df.cols[n][i].Some?
    ensures Scoring.FactorScoreAt(df, present, i) == Some(ServiceScoreAt(df, present, i))
  {
    NormalizedRowPresent(df, present, i);
    RowValuesEmpty(df, present, i);
    assert present[0] in present;
    MeanOfScores(RowValues(df, present, i));
  }

  /** Answers on 1..5, or missing, give a factor score on 0..100. */
  lemma ServiceScoreBounds(df: Frame, present: seq<string>, i: nat)
    requires Valid(df) && HasAll(df, present) && |present| > 0 && i < df.height
    requires forall n :: n in present && df.cols[n][i].Some? ==> 1.0 <= df.cols[n][i].value <= 5.0
    ensures 0.0 <= ServiceScoreAt(df, present, i) <= 100.0
  {
    Stats.MeanBounds(NormalizedRow(df, present, i), 0.0, 100.0);
  }

  /** A row with no answer at all scores 0, the lowest point. */
  lemma ServiceScoreUnanswered(df: Frame, present: seq<string>, i: nat)
    requires Valid(df) && HasAll(df, present) && |present| > 0 && i < df.height
    requires forall n :: n in present ==> df.cols[n][i].None?
    ensures ServiceScoreAt(df, present, i) == 0.0
  {
    Stats.MeanConstant(NormalizedRow(df, present, i), 0.0);
  }

  /**
   * The factor loop of `compute_factor_scores` over the first k factors of
   * `fs`, where `names[j]` is factor j's score column (for the registry,
   * `ScoreNames(FactorNames(FactorItems))`): a factor with at least one item
   * column gets the mean of its present normalised items, and a factor with
   * none is skipped.
   */
  function FactorScoresUpTo(fs: seq<Factor>, names: seq<string>, df: Frame, k: nat): (g: Frame)
    requires Valid(df) && k <= |fs| == |names|
    ensures g.height == df.height
  {
    if k == 0 then Frame([], map[], df.height)
    else
      var g := FactorScoresUpTo(fs, names, df, k - 1);
      var present := Analysis.Available(df, fs[k - 1].items);
      if |present| == 0 then g
      else WithColumn(g, names[k - 1], ServiceFactorColumn(df, present))
  }

  /** The factor frame is well formed and holds only factor score columns. */
  lemma {:induction false} FactorScoresShape(fs: seq<Factor>, names: seq<string>, df: Frame, k: nat)
    requires Valid(df) && k <= |fs| == |names|
    ensures Valid(FactorScoresUpTo(fs, names, df, k))
    ensures forall n :: n in FactorScoresUpTo(fs, names, df, k).cols ==> n in names
  {
    if k > 0 {
      FactorScoresShape(fs, names, df, k - 1);
      var g := FactorScoresUpTo(fs, names, df, k - 1);
      var present := Analysis.Available(df, fs[k - 1].items);
      if |present| > 0 {
        WithColumnValid(g, names[k - 1], ServiceFactorColumn(df, present));
      }
    }
  }

  /** A factor not yet reached has no column. */
  lemma {:induction false} FactorScoresFresh(fs: seq<Factor>, names: seq<string>, df: Frame, k: nat, j: nat)
    requires Valid(df) && k <= j < |fs| == |names| && Distinct(names)
    ensures names[j] !in FactorScoresUpTo(fs, names, df, k).cols
  {
    if k > 0 {
      FactorScoresFresh(fs, names, df, k - 1, j);
    }
  }

  /**
   * Factor j has a score column exactly when at least one of its items is a
   * column of the survey, and that column is the mean of the present items.
   */
  lemma {:induction false} FactorScoresGet(fs: seq<Factor>, names: seq<string>, df: Frame, k: nat, j: nat)
    requires Valid(df) && j < k <= |fs| == |names| && Distinct(names)
    ensures names[j] in FactorScoresUpTo(fs, names, df, k).cols <==> |Analysis.Available(df, fs[j].items)| > 0
    ensures names[j] in FactorScoresUpTo(fs, names, df, k).cols ==>
      FactorScoresUpTo(fs, names, df, k).cols[names[j]] == ServiceFactorColumn(df, Analysis.Available(df, fs[j].items))
  {
    if j == k - 1 {
      FactorScoresFresh(fs, names, df, k - 1, j);
    } else {
      FactorScoresGet(fs, names, df, k - 1, j);
    }
  }

  /**
   * The dimension loop of `compute_factor_scores` over the first k
   * dimensions, where `inputs[m]` lists dimension m's factor score columns and
   * `names[m]` is its own score column: a dimension averages those of its
   * inputs that exist and is skipped when none does.  It reads the factor
   * frame `data`; no dimension column is a factor column, so that is the frame
   * the loop reads.
   */
  function DimensionScoresUpTo(inputs: seq<seq<string>>, names: seq<string>, data: Frame, k: nat): (g: Frame)
    requires Valid(data) && k <= |inputs| == |names|
    ensures g.height == data.height
  {
    if k == 0 then data
    else
      var g := DimensionScoresUpTo(inputs, names, data, k - 1);
      var present := Analysis.Available(data, inputs[k - 1]);
      if |present| == 0 then g
      else WithColumn(g, names[k - 1], Scoring.DimensionColumn(data, present))
  }

  /** The factor score columns a dimension could read are never dimension score columns. */
  predicate DimensionsApart(inputs: seq<seq<string>>, names: seq<string>, data: Frame)
  {
    && Distinct(names)
    && (forall n :: n in data.cols ==> n !in names)
    && (forall m, n :: 0 <= m < |inputs| && n in inputs[m] ==> n !in names)
  }

  /** The dimension loop keeps the frame well formed and the factor columns as they were. */
  lemma {:induction false} DimensionScoresShape(inputs: seq<seq<string>>, names: seq<string>, data: Frame, k: nat)
    requires Valid(data) && k <= |inputs| == |names| && DimensionsApart(inputs, names, data)
    ensures Valid(DimensionScoresUpTo(inputs, names, data, k))
    ensures forall n :: n in data.cols ==>
      n in DimensionScoresUpTo(inputs, names, data, k).cols && DimensionScoresUpTo(inputs, names, data, k).cols[n] == data.cols[n]
    ensures forall n :: n in DimensionScoresUpTo(inputs, names, data, k).cols ==> n in data.cols || n in names
  {
    if k > 0 {
      DimensionScoresShape(inputs, names, data, k - 1);
      var g := DimensionScoresUpTo(inputs, names, data, k - 1);
      var present := Analysis.Available(data, inputs[k - 1]);
      if |present| > 0 {
        WithColumnValid(g, names[k - 1], Scoring.DimensionColumn(data, present));
      }
    }
  }

  /** A dimension not yet reached has no column. */
  lemma {:induction false} DimensionScoresFresh(inputs: seq<seq<string>>, names: seq<string>, data: Frame, k: nat, m: nat)
    requires Valid(data) && k <= m < |inputs| == |names|
    requires Distinct(names) && forall n :: n in data.cols ==> n !in names
    ensures names[m] !in DimensionScoresUpTo(inputs, names, data, k).cols
  {
    if k > 0 {
      DimensionScoresFresh(inputs, names, data, k - 1, m);
    }
  }

  /**
   * Dimension m has a score column exactly when one of its factors has, and
   * that column is the row mean of its existing factor columns.
   */
  lemma {:induction false} DimensionScoresGet(inputs: seq<seq<string>>, names: seq<string>, data: Frame, k: nat, m: nat)
    requires Valid(data) && m < k <= |inputs| == |names|
    requires Distinct(names) && forall n :: n in data.cols ==> n !in names
    ensures names[m] in DimensionScoresUpTo(inputs, names, data, k).cols
      <==> |Analysis.Available(data, inputs[m])| > 0
    ensures names[m] in DimensionScoresUpTo(inputs, names, data, k).cols ==>
      DimensionScoresUpTo(inputs, names, data, k).cols[names[m]]
        == Scoring.DimensionColumn(data, Analysis.Available(data, inputs[m]))
  {
    if m == k - 1 {
      DimensionScoresFresh(inputs, names, data, k - 1, m);
    } else {
      DimensionScoresGet(inputs, names, data, k - 1, m);
    }
  }

  /** The factor score columns each dimension reads, dimension by dimension. */
  function DimensionInputs(ds: seq<Dimension>): (r: seq<seq<string>>)
    ensures |r| == |ds| && forall m :: 0 <= m < |ds| ==> r[m] == ScoreNames(ds[m].factors)
  {
    seq(|ds|, m requires 0 <= m < |ds| => ScoreNames(ds[m].factors))
  }

  /** The registry's factor score columns, in registry order. */
  function FactorScoreNames(): (r: seq<string>)
    ensures |r| == |FactorItems| && forall k :: 0 <= k < |FactorItems| ==> r[k] == ScoreName(FactorItems[k].name)
  {
    ScoreNames(FactorNames(FactorItems))
  }

  /** The registry's dimension score columns, in registry order. */
  function DimensionScoreNames(): (r: seq<string>)
    ensures |r| == |DimensionFactors| && forall m :: 0 <= m < |DimensionFactors| ==> r[m] == ScoreName(DimensionFactors[m].name)
  {
    ScoreNames(DimensionNames(DimensionFactors))
  }

  /** The factor frame: the columns of the factor loop. */
  function FactorFrame(df: Frame): Frame
    requires Valid(df)
  {
    FactorScoresUpTo(FactorItems, FactorScoreNames(), df, |FactorItems|)
  }

  /** `compute_factor_scores`: the factor columns, then the dimension columns. */
  function ServiceScores(df: Frame): Frame
    requires Valid(df)
  {
    FactorScoresShape(FactorItems, FactorScoreNames(), df, |FactorItems|);
    DimensionScoresUpTo(DimensionInputs(DimensionFactors), DimensionScoreNames(), FactorFrame(df), |DimensionFactors|)
  }

  /** The factor and dimension score columns are all distinct. */
  lemma ServiceNamesDistinct()
    ensures Distinct(FactorScoreNames()) && Distinct(DimensionScoreNames())
    ensures forall i, j :: 0 <= i < |FactorItems| && 0 <= j < |DimensionFactors| ==> FactorScoreNames()[i] != DimensionScoreNames()[j]
  {
    ScoreColumnOrderSpelledOut();
    ScoreColumnNamesDistinct();
  }

  /** Every dimension reads factor score columns only. */
  lemma DimensionInputsAreFactorScores()
    ensures forall m, n :: 0 <= m < |DimensionFactors| && n in DimensionInputs(DimensionFactors)[m] ==> n in FactorScoreNames()
  {
    var fsn := FactorScoreNames();
    var inputs := DimensionInputs(DimensionFactors);
    assert inputs[0] == [fsn[0], fsn[1]];
    assert inputs[1] == [fsn[2], fsn[3]];
    assert inputs[2] == [fsn[4], fsn[5]];
    assert inputs[3] == [fsn[6], fsn[7]];
  }

  /** The registry meets what the dimension loop needs of its inputs and names. */
  lemma RegistryApart(df: Frame)
    requires Valid(df)
    ensures Valid(FactorFrame(df))
    ensures DimensionsApart(DimensionInputs(DimensionFactors), DimensionScoreNames(), FactorFrame(df))
  {
    var fsn := FactorScoreNames();
    var dsn := DimensionScoreNames();
    ServiceNamesDistinct();
    DimensionInputsAreFactorScores();
    FactorScoresShape(FactorItems, fsn, df, |FactorItems|);
    assert forall n :: n in fsn ==> n !in dsn;
  }

  /** Which of `items` are available depends only on which of them are columns. */
  lemma {:induction false} AvailableSame(f: Frame, g: Frame, items: seq<string>)
    requires forall n :: n in items ==> (n in f.cols <==> n in g.cols)
    ensures Analysis.Available(f, items) == Analysis.Available(g, items)
  {
    if |items| > 0 {
      AvailableSame(f, g, items[1..]);
    }
  }

  /**
   * The k-th dimension sees on the growing frame the same available inputs,
   * with the same columns, as on the factor frame.
   */
  lemma DimensionScoresStep(inputs: seq<seq<string>>, names: seq<string>, data: Frame, k: nat)
    requires Valid(data) && k < |inputs| == |names| && DimensionsApart(inputs, names, data)
    ensures Valid(DimensionScoresUpTo(inputs, names, data, k))
    ensures Analysis.Available(DimensionScoresUpTo(inputs, names, data, k), inputs[k]) == Analysis.Available(data, inputs[k])
    ensures Scoring.DimensionColumn(DimensionScoresUpTo(inputs, names, data, k), Analysis.Available(data, inputs[k]))
      == Scoring.DimensionColumn(data, Analysis.Available(data, inputs[k]))
  {
    var g := DimensionScoresUpTo(inputs, names, data, k);
    DimensionScoresShape(inputs, names, data, k);
    forall n | n in inputs[k]
      ensures n in g.cols <==> n in data.cols
    {
      assert n !in names;
    }
    AvailableSame(g, data, inputs[k]);
    Scoring.DimensionColumnFrame(g, data, Analysis.Available(data, inputs[k]));
  }

  /**
   * A factor has a score column exactly when at least one of its items is a
   * survey column, and the column averages the present items with a missing
   * answer counting as 0.
   */
  lemma ServiceFactorListed(df: Frame, k: nat)
    requires Valid(df) && k < |FactorItems|
    ensures FactorScoreNames()[k] in ServiceScores(df).cols <==> |Analysis.Available(df, FactorItems[k].items)| > 0
    ensures FactorScoreNames()[k] in ServiceScores(df).cols ==>
      ServiceScores(df).cols[FactorScoreNames()[k]] == ServiceFactorColumn(df, Analysis.Available(df, FactorItems[k].items))
  {
    var fsn := FactorScoreNames();
    var dsn := DimensionScoreNames();
    RegistryApart(df);
    ServiceNamesDistinct();
    FactorScoresGet(FactorItems, fsn, df, |FactorItems|, k);
    DimensionScoresShape(DimensionInputs(DimensionFactors), dsn, FactorFrame(df), |DimensionFactors|);
    assert fsn[k] !in dsn;
  }

  /**
   * A dimension has a score column exactly when one of its factors has one,
   * and the column is the row mean of its existing factor columns.
   */
  lemma ServiceDimensionListed(df: Frame, m: nat)
    requires Valid(df) && m < |DimensionFactors|
    ensures Valid(FactorFrame(df))
    ensures DimensionScoreNames()[m] in ServiceScores(df).cols
      <==> |Analysis.Available(FactorFrame(df), DimensionInputs(DimensionFactors)[m])| > 0
    ensures DimensionScoreNames()[m] in ServiceScores(df).cols ==>
      ServiceScores(df).cols[DimensionScoreNames()[m]]
        == Scoring.DimensionColumn(FactorFrame(df), Analysis.Available(FactorFrame(df), DimensionInputs(DimensionFactors)[m]))
  {
    RegistryApart(df);
    DimensionScoresGet(DimensionInputs(DimensionFactors), DimensionScoreNames(), FactorFrame(df), |DimensionFactors|, m);
  }

  /** The score frame is well formed, one row per respondent, and holds only factor and dimension scores. */
  lemma ServiceScoresShape(df: Frame)
    requires Valid(df)
    ensures Valid(ServiceScores(df)) && ServiceScores(df).height == df.height
    ensures forall n :: n in ServiceScores(df).cols ==> n in FactorScoreNames() || n in DimensionScoreNames()
  {
    RegistryApart(df);
    FactorScoresShape(FactorItems, FactorScoreNames(), df, |FactorItems|);
    DimensionScoresShape(DimensionInputs(DimensionFactors), DimensionScoreNames(), FactorFrame(df), |DimensionFactors|);
  }

  /**
   * The fallback assignments after the dimension loop never fire: when all of
   * a factor's items are survey columns the factor loop has already written
   * its score column.
   */
  lemma FallbacksNeverFire(df: Frame)
    requires Valid(df)
    ensures HasAll(df, FactorItems[8].items) ==> "instructor_support_score" in ServiceScores(df).cols
    ensures HasAll(df, FactorItems[9].items) ==> "satisfaction_score" in ServiceScores(df).cols
  {
    assert FactorScoreNames()[8] == "instructor_support_score";
    assert FactorScoreNames()[9] == "satisfaction_score";
    if HasAll(df, FactorItems[8].items) {
      ServiceFactorListed(df, 8);
    }
    if HasAll(df, FactorItems[9].items) {
      ServiceFactorListed(df, 9);
    }
  }

  /** With every Likert column present, every factor has its column in the factor frame. */
  lemma FactorFrameComplete(df: Frame)
    requires Valid(df) && HasAll(df, LikertColumns)
    ensures forall n :: n in FactorScoreNames() ==> n in FactorFrame(df).cols
  {
    FactorItemsAreLikert();
    ServiceNamesDistinct();
    var fsn := FactorScoreNames();
    forall k | 0 <= k < |FactorItems|
      ensures fsn[k] in FactorFrame(df).cols
    {
      assert FactorItems[k].items[0] in Analysis.Available(df, FactorItems[k].items);
      FactorScoresGet(FactorItems, fsn, df, |FactorItems|, k);
    }
  }

  /** With every Likert column present, every factor and every dimension has its score column. */
  lemma ServiceScoresComplete(df: Frame)
    requires Valid(df) && HasAll(df, LikertColumns)
    ensures forall k :: 0 <= k < |FactorItems| ==> FactorScoreNames()[k] in ServiceScores(df).cols
    ensures forall m :: 0 <= m < |DimensionFactors| ==> DimensionScoreNames()[m] in ServiceScores(df).cols
  {
    forall k | 0 <= k < |FactorItems|
      ensures FactorScoreNames()[k] in ServiceScores(df).cols
    {
      assert FactorItems[k].items[0] in Analysis.Available(df, FactorItems[k].items) by { FactorItemsAreLikert(); }
      ServiceFactorListed(df, k);
    }
    FactorFrameComplete(df);
    DimensionInputsAreFactorScores();
    forall m | 0 <= m < |DimensionFactors|
      ensures DimensionScoreNames()[m] in ServiceScores(df).cols
    {
      var inputs := DimensionInputs(DimensionFactors)[m];
      assert inputs[0] in FactorFrame(df).cols;
      assert inputs[0] in Analysis.Available(FactorFrame(df), inputs);
      ServiceDimensionListed(df, m);
    }
  }

  /** The factor loop of `compute_factor_scores`. */
  method FactorLoop(df: Frame) returns (data: Frame)
    requires Valid(df)
    ensures data == FactorFrame(df)
  {
    var fsn := FactorScoreNames();
    data := Frame([], map[], df.height);
    for k := 0 to |FactorItems|
      invariant data == FactorScoresUpTo(FactorItems, fsn, df, k)
    {
      var present := Analysis.Available(df, FactorItems[k].items);
      if |present| > 0 {
        data := WithColumn(data, fsn[k], ServiceFactorColumn(df, present));
      }
    }
  }

  /** The dimension loop of `compute_factor_scores`, reading the growing frame. */
  method DimensionLoop(inputs: seq<seq<string>>, names: seq<string>, factors: Frame) returns (data: Frame)
    requires Valid(factors) && |inputs| == |names| && DimensionsApart(inputs, names, factors)
    ensures data == DimensionScoresUpTo(inputs, names, factors, |inputs|)
  {
    data := factors;
    for m := 0 to |inputs|
      invariant data == DimensionScoresUpTo(inputs, names, factors, m)
    {
      DimensionScoresStep(inputs, names, factors, m);
      var present := Analysis.Available(data, inputs[m]);
      if |present| > 0 {
        data := WithColumn(data, names[m], Scoring.DimensionColumn(data, present));
      }
    }
  }

  /**
   * `compute_factor_scores`: the factor loop, the dimension loop and the two
   * fallback blocks, whose assignments are unreachable (FallbacksNeverFire).
   */
  method ComputeFactorScores(df: Frame) returns (data: Frame)
    requires Valid(df)
    ensures data == ServiceScores(df)
  {
    var factors := FactorLoop(df);
    RegistryApart(df);
    data := DimensionLoop(DimensionInputs(DimensionFactors), DimensionScoreNames(), factors);
    FallbacksNeverFire(df);
    if "instructor_support_score" !in data.cols && "instructor_support_score" !in df.cols {
      if "instructor_support_score" in df.cols {
        assert false;
      } else if HasAll(df, FactorItems[8].items) {
        assert false;
      }
    }
    if "satisfaction_score" !in data.cols && HasAll(df, FactorItems[9].items) {
      assert false;
    }
  }

  /** What the service asks of the square root it is given: non-negative, and positive on positive input. */
  ghost predicate SqrtLike(sqrt: real -> real)
  {
    forall x :: x >= 0.0 ==> sqrt(x) >= 0.0 && (x > 0.0 ==> sqrt(x) > 0.0)
  }

  /** The descriptive metrics of one column. */
  datatype Metrics = Metrics(mean: real, stdDev: real, min: real, max: real, ciLow: real, ciHigh: real)

  /** A standard deviation over a positive root gives a non-negative half-width. */
  lemma HalfWidthNonNegative(sd: real, root: real)
    requires sd >= 0.0 && root > 0.0
    ensures 1.96 * (sd / root) >= 0.0
  {
  }

  /**
   * The metrics of a non-empty list of values: the sample standard deviation
   * (0 for a single value) and a normal-approximation interval of 1.96
   * standard errors around the mean (the mean itself for a single value).
   */
  function MetricsOf(xs: seq<real>, sqrt: real -> real): (m: Metrics)
    requires |xs| > 0 && SqrtLike(sqrt)
    ensures m.min in xs && m.max in xs
    ensures forall i :: 0 <= i < |xs| ==> m.min <= xs[i] <= m.max
    ensures m.min <= m.mean <= m.max
    ensures m.stdDev >= 0.0 && m.ciLow <= m.mean <= m.ciHigh
    ensures |xs| == 1 ==> m.stdDev == 0.0 && m.ciLow == m.mean == m.ciHigh == m.min == m.max
  {
    var mean := Stats.Mean(xs);
    Stats.MeanBetweenExtremes(xs);
    if |xs| > 1 then
      var sd := sqrt(Stats.Variance(xs));
      var root := sqrt(|xs| as real);
      HalfWidthNonNegative(sd, root);
      var half := 1.96 * (sd / root);
      Metrics(mean, sd, Stats.Min(xs), Stats.Max(xs), mean - half, mean + half)
    else
      assert Stats.Min(xs) == xs[0] == Stats.Max(xs);
      Metrics(mean, 0.0, Stats.Min(xs), Stats.Max(xs), mean, mean)
  }

  /** The metrics of a column over its present values. */
  function ColumnMetrics(c: Column, sqrt: real -> real): Metrics
    requires |Present(c)| > 0 && SqrtLike(sqrt)
  {
    MetricsOf(Present(c), sqrt)
  }

  /** `describe_metrics`: the metrics of every column that has a present value. */
  function Describe(df: Frame, sqrt: real -> real): (stats: map<string, Metrics>)
    requires Valid(df) && SqrtLike(sqrt)
    ensures forall n :: n in stats <==> n in df.cols && NullCount(df.cols[n]) < df.height
  {
    map n | n in df.cols && |Present(df.cols[n])| > 0 :: ColumnMetrics(df.cols[n], sqrt)
  }

  /** The loop of `describe_metrics` over the columns in order. */
  method DescribeMetrics(df: Frame, sqrt: real -> real) returns (stats: map<string, Metrics>)
    requires Valid(df) && SqrtLike(sqrt)
    ensures stats == Describe(df, sqrt)
  {
    stats := map[];
    for k := 0 to |df.names|
      invariant forall n :: n in stats <==> n in df.names[..k] && |Present(df.cols[n])| > 0
      invariant forall n :: n in stats ==> stats[n] == ColumnMetrics(df.cols[n], sqrt)
    {
      var n := df.names[k];
      assert df.names[..k + 1] == df.names[..k] + [n];
      var clean := Present(df.cols[n]);
      if |clean| > 0 {
        stats := stats[n := ColumnMetrics(df.cols[n], sqrt)];
      }
    }
    assert df.names[..|df.names|] == df.names;
  }

  /** One row of the correlation matrix: the coefficient of r with every column. */
  function CorrelationRow(df: Frame, r: string, corr: (seq<real>, seq<real>) -> real): (row: map<string, real>)
    requires Valid(df) && r in df.cols
    ensures row.Keys == df.cols.Keys
  {
    map c | c in df.cols :: Analysis.PairCorrelation(df, r, c, corr)
  }

  /**
   * `correlation_matrix`: empty for an empty frame (no rows or no columns),
   * otherwise one entry per pair of columns over their complete rows.
   */
  function ServiceCorrelations(df: Frame, corr: (seq<real>, seq<real>) -> real): (m: map<string, map<string, real>>)
    requires Valid(df)
    ensures m == map[] <==> df.height == 0 || |df.names| == 0
    ensures df.height > 0 && |df.names| > 0 ==> m.Keys == df.cols.Keys && forall r :: r in m ==> m[r].Keys == df.cols.Keys
  {
    if df.height == 0 || |df.names| == 0 then map[]
    else
      var m := map r | r in df.cols :: CorrelationRow(df, r, corr);
      assert df.names[0] in m;
      m
  }

  /** A symmetric coefficient gives a symmetric matrix. */
  lemma ServiceCorrelationsSymmetric(df: Frame, corr: (seq<real>, seq<real>) -> real, a: string, b: string)
    requires Valid(df) && a in df.cols && b in df.cols && df.height > 0
    requires forall xs, ys :: corr(xs, ys) == corr(ys, xs)
    ensures ServiceCorrelations(df, corr)[a][b] == ServiceCorrelations(df, corr)[b][a]
  {
    Analysis.CompleteRowsUpToSwap(df, a, b, df.height);
  }

  /** What a fitted linear regression exposes: coefficients, intercept and in-sample predictions. */
  datatype LinearFit = LinearFit(coef: seq<real>, intercept: real, predictions: seq<real>)

  /** Least-squares fitting, supplied by the caller: design rows and targets to a fit. */
  type LinearRegression = (seq<seq<real>>, seq<real>) -> LinearFit

  /** The fit predicts one value per target. */
  ghost predicate PredictsEach(lr: LinearRegression)
  {
    forall x, y :: |lr(x, y).predictions| == |y|
  }

  /** The summary `regression_summary` returns when it has enough rows. */
  datatype RegressionSummary = RegressionSummary(rSquared: real, coefficients: seq<(string, real)>, intercept: real)

  /** Row i has every feature and the target. */
  predicate RegressionCompleteAt(f: Frame, features: seq<string>, target: Column, i: nat)
    requires Valid(f) && HasAll(f, features) && |target| == f.height && i < f.height
  {
    CompleteAt(f, features, i) && target[i].Some?
  }

  /** The rows among the first k that keep all features and the target (the `dropna` of the joined frame). */
  function RegressionRowsUpTo(f: Frame, features: seq<string>, target: Column, k: nat): (rows: seq<nat>)
    requires Valid(f) && HasAll(f, features) && |target| == f.height && k <= f.height
    ensures |rows| <= k
    ensures forall j :: 0 <= j < |rows| ==> rows[j] < k && RegressionCompleteAt(f, features, target, rows[j])
    ensures forall j1, j2 :: 0 <= j1 < j2 < |rows| ==> rows[j1] < rows[j2]
    ensures forall i :: 0 <= i < k && RegressionCompleteAt(f, features, target, i) ==> i in rows
  {
    if k == 0 then []
    else
      var prev := RegressionRowsUpTo(f, features, target, k - 1);
      if RegressionCompleteAt(f, features, target, k - 1) then prev + [k - 1] else prev
  }

  /** The feature values of a complete row, in feature order. */
  function DesignRow(f: Frame, features: seq<string>, i: nat): (x: seq<real>)
    requires Valid(f) && HasAll(f, features) && i < f.height && CompleteAt(f, features, i)
    ensures |x| == |features| && forall j :: 0 <= j < |features| ==> x[j] == f.cols[features[j]][i].value
  {
    seq(|features|, j requires 0 <= j < |features| => assert features[j] in features; f.cols[features[j]][i].value)
  }

  /** The design matrix: one row of feature values per kept row. */
  function DesignRows(f: Frame, features: seq<string>, rows: seq<nat>): (x: seq<seq<real>>)
    requires Valid(f) && HasAll(f, features)
    requires forall j :: 0 <= j < |rows| ==> rows[j] < f.height && CompleteAt(f, features, rows[j])
    ensures |x| == |rows| && forall r :: 0 <= r < |rows| ==> x[r] == DesignRow(f, features, rows[r])
  {
    seq(|rows|, r requires 0 <= r < |rows| => DesignRow(f, features, rows[r]))
  }

  /** The target values at the kept rows. */
  function TargetValues(target: Column, rows: seq<nat>): (y: seq<real>)
    requires forall j :: 0 <= j < |rows| ==> rows[j] < |target| && target[rows[j]].Some?
    ensures |y| == |rows| && forall j :: 0 <= j < |rows| ==> y[j] == target[rows[j]].value
  {
    seq(|rows|, j requires 0 <= j < |rows| => target[rows[j]].value)
  }

  /** The residual sum of squares. */
  function SquaredResiduals(y: seq<real>, p: seq<real>): (r: real)
    requires |y| == |p|
    ensures r >= 0.0
  {
    if |y| == 0 then 0.0
    else
      Stats.SquareNonNegative(y[0] - p[0]);
      (y[0] - p[0]) * (y[0] - p[0]) + SquaredResiduals(y[1..], p[1..])
  }

  /** The coefficient of determination, 0 when the target does not vary. */
  function RSquared(y: seq<real>, p: seq<real>): (r: real)
    requires |y| == |p| && |y| > 0
    ensures r <= 1.0
    ensures Stats.SquaredDeviations(y, Stats.Mean(y)) == 0.0 ==> r == 0.0
  {
    var ssTot := Stats.SquaredDeviations(y, Stats.Mean(y));
    if ssTot != 0.0 then
      QuotientNonNegative(SquaredResiduals(y, p), ssTot);
      1.0 - SquaredResiduals(y, p) / ssTot
    else 0.0
  }

  lemma QuotientNonNegative(a: real, b: real)
    requires a >= 0.0 && b > 0.0
    ensures a / b >= 0.0
  {
  }

  /** Predictions equal to the targets leave no residual. */
  lemma {:induction false} NoResidual(y: seq<real>)
    ensures SquaredResiduals(y, y) == 0.0
  {
    if |y| > 0 {
      NoResidual(y[1..]);
    }
  }

  /** A perfect fit of a varying target has R squared 1. */
  lemma PerfectFitScoresOne(y: seq<real>)
    requires |y| > 0 && Stats.SquaredDeviations(y, Stats.Mean(y)) != 0.0
    ensures RSquared(y, y) == 1.0
  {
    NoResidual(y);
  }

  /** A constant target has R squared 0, whatever the predictions. */
  lemma ConstantTargetScoresZero(y: seq<real>, p: seq<real>, c: real)
    requires |y| == |p| && |y| > 0
    requires forall j :: 0 <= j < |y| ==> y[j] == c
    ensures RSquared(y, p) == 0.0
  {
    Stats.MeanConstant(y, c);
    Stats.SquaredDeviationsConstant(y, c);
  }

  /** `zip(names, values)`: pairs up to the shorter of the two. */
  function Zip(names: seq<string>, values: seq<real>): (r: seq<(string, real)>)
    ensures |r| == (if |names| <= |values| then |names| else |values|)
    ensures forall j :: 0 <= j < |r| ==> r[j] == (names[j], values[j])
  {
    if |names| == 0 || |values| == 0 then [] else [(names[0], values[0])] + Zip(names[1..], values[1..])
  }

  /**
   * `regression_summary`: nothing (the empty dictionary) with fewer than five
   * complete rows; otherwise R squared of the in-sample predictions, the
   * coefficients keyed by feature, and the intercept.
   */
  function RegressionSummaryOf(f: Frame, features: seq<string>, target: Column, lr: LinearRegression): (r: Option<RegressionSummary>)
    requires Valid(f) && HasAll(f, features) && |target| == f.height && PredictsEach(lr)
    ensures r.None? <==> |RegressionRowsUpTo(f, features, target, f.height)| < 5
    ensures r.Some? ==> r.value.rSquared <= 1.0
    ensures r.Some? ==>
      var rows := RegressionRowsUpTo(f, features, target, f.height);
      var y := TargetValues(target, rows);
      var fit := lr(DesignRows(f, features, rows), y);
      && r.value.rSquared == RSquared(y, fit.predictions)
      && r.value.intercept == fit.intercept
      && r.value.coefficients == Zip(features, fit.coef)
  {
    var rows := RegressionRowsUpTo(f, features, target, f.height);
    if |rows| < 5 then None
    else
      var y := TargetValues(target, rows);
      var fit := lr(DesignRows(f, features, rows), y);
      Some(RegressionSummary(RSquared(y, fit.predictions), Zip(features, fit.coef), fit.intercept))
  }

  /** One entry of the insight lists: a score column and its mean (None where pandas has NaN). */
  datatype Insight = Insight(name: string, score: Option<real>)

  /** A column's mean over its present values; undefined when every cell is missing. */
  function ColumnMean(c: Column): (m: Option<real>)
    ensures m.None? <==> NullCount(c) == |c|
  {
    var xs := Present(c);
    if |xs| == 0 then None else Some(Stats.Mean(xs))
  }

  /** `scores.mean()`: one entry per column, in column order. */
  function MeanEntries(f: Frame): (es: seq<Insight>)
    requires Valid(f)
    ensures |es| == |f.names|
    ensures forall j :: 0 <= j < |f.names| ==> es[j] == Insight(f.names[j], ColumnMean(f.cols[f.names[j]]))
  {
    seq(|f.names|, j requires 0 <= j < |f.names| => Insight(f.names[j], ColumnMean(f.cols[f.names[j]])))
  }

  /** Descending order of the means, an undefined mean ranking last. */
  predicate Precedes(a: Insight, b: Insight)
  {
    b.score.None? || (a.score.Some? && a.score.value >= b.score.value)
  }

  predicate RankedDesc(s: seq<Insight>)
  {
    forall i, j :: 0 <= i < j < |s| ==> Precedes(s[i], s[j])
  }

  /** Precedes is a total preorder. */
  lemma PrecedesOrder(a: Insight, b: Insight, c: Insight)
    ensures Precedes(a, b) || Precedes(b, a)
    ensures Precedes(a, b) && Precedes(b, c) ==> Precedes(a, c)
  {
  }

  /** Insertion of one entry into a ranked list, ahead of the entries it ties with. */
  function Insert(e: Insight, s: seq<Insight>): (r: seq<Insight>)
    ensures |r| == |s| + 1
    ensures multiset(r) == multiset(s) + multiset{e}
  {
    if |s| == 0 || Precedes(e, s[0]) then [e] + s
    else
      assert s == [s[0]] + s[1..];
      [s[0]] + Insert(e, s[1..])
  }

  /** Insertion keeps a list ranked. */
  lemma {:induction false} InsertRanked(e: Insight, s: seq<Insight>)
    requires RankedDesc(s)
    ensures RankedDesc(Insert(e, s))
  {
    var r := Insert(e, s);
    if |s| == 0 {
    } else if Precedes(e, s[0]) {
      forall j | 0 <= j < |s|
        ensures Precedes(e, s[j])
      {
        PrecedesOrder(e, s[0], s[j]);
      }
      assert r == [e] + s;
    } else {
      var rest := Insert(e, s[1..]);
      InsertRanked(e, s[1..]);
      PrecedesOrder(e, s[0], e);
      forall x | x in rest
        ensures Precedes(s[0], x)
      {
        assert x in multiset(rest);
        if x != e {
          assert x in multiset(s[1..]);
          var j :| 0 <= j < |s[1..]| && s[1..][j] == x;
          assert s[j + 1] == x;
        }
      }
      assert r == [s[0]] + rest;
      forall i, j | 0 <= i < j < |r|
        ensures Precedes(r[i], r[j])
      {
        if i == 0 {
          assert r[j] == rest[j - 1];
          assert rest[j - 1] in rest;
        } else {
          assert r[i] == rest[i - 1] && r[j] == rest[j - 1];
        }
      }
    }
  }

  /** `sort_values(ascending=False)`: the entries ranked, ties kept in column order. */
  function Rank(es: seq<Insight>): (r: seq<Insight>)
    ensures |r| == |es|
    ensures multiset(r) == multiset(es)
    ensures RankedDesc(r)
  {
    if |es| == 0 then []
    else
      assert es == [es[0]] + es[1..];
      InsertRanked(es[0], Rank(es[1..]));
      Insert(es[0], Rank(es[1..]))
  }

  /** The two lists `generate_insights` returns. */
  datatype InsightLists = InsightLists(strengths: seq<Insight>, improvements: seq<Insight>)

  /** How many entries each list holds: three, or all of them when there are fewer. */
  function ListSize(n: nat): nat
  {
    if n < 3 then n else 3
  }

  /**
   * `generate_insights`: for an empty frame two empty lists; otherwise the
   * three best-ranked means and the three worst-ranked ones.
   */
  function GenerateInsights(scores: Frame): (r: InsightLists)
    requires Valid(scores)
    ensures scores.height == 0 || |scores.names| == 0 ==> r == InsightLists([], [])
    ensures scores.height > 0 ==> |r.strengths| == |r.improvements| == ListSize(|scores.names|)
    ensures RankedDesc(r.strengths) && RankedDesc(r.improvements)
    ensures scores.height > 0 && |scores.names| > 0 ==>
      var ranked := Rank(MeanEntries(scores));
      && r.strengths == ranked[..ListSize(|ranked|)]
      && r.improvements == ranked[|ranked| - ListSize(|ranked|)..]
  {
    if scores.height == 0 || |scores.names| == 0 then InsightLists([], [])
    else
      var ranked := Rank(MeanEntries(scores));
      var t := ListSize(|ranked|);
      InsightLists(ranked[..t], ranked[|ranked| - t..])
  }

  /** Membership in a ranked list is membership in what was ranked. */
  lemma RankMembers(es: seq<Insight>, x: Insight)
    ensures x in Rank(es) <==> x in es
  {
    assert x in Rank(es) <==> x in multiset(Rank(es));
    assert x in es <==> x in multiset(es);
  }

  /**
   * The strengths are means taken from the frame, and no mean left out of
   * them ranks above one of them; likewise no mean left out of the
   * improvements ranks below one of them.
   */
  lemma InsightsExtremes(scores: Frame)
    requires Valid(scores) && scores.height > 0
    ensures forall x :: x in GenerateInsights(scores).strengths ==> x in MeanEntries(scores)
    ensures forall x :: x in GenerateInsights(scores).improvements ==> x in MeanEntries(scores)
    ensures forall x, e ::
      (x in GenerateInsights(scores).strengths && e in MeanEntries(scores) && e !in GenerateInsights(scores).strengths)
      ==> Precedes(x, e)
    ensures forall x, e ::
      (x in GenerateInsights(scores).improvements && e in MeanEntries(scores) && e !in GenerateInsights(scores).improvements)
      ==> Precedes(e, x)
  {
    StrengthsExtreme(scores);
    ImprovementsExtreme(scores);
  }

  /** The strengths half of InsightsExtremes. */
  lemma StrengthsExtreme(scores: Frame)
    requires Valid(scores) && scores.height > 0
    ensures forall x :: x in GenerateInsights(scores).strengths ==> x in MeanEntries(scores)
    ensures forall x, e ::
      (x in GenerateInsights(scores).strengths && e in MeanEntries(scores) && e !in GenerateInsights(scores).strengths)
      ==> Precedes(x, e)
  {
    var es := MeanEntries(scores);
    if |scores.names| > 0 {
      var ranked := Rank(es);
      var t := ListSize(|ranked|);
      var r := GenerateInsights(scores);
      assert r.strengths == ranked[..t];
      forall x | x in ranked
        ensures x in es
      {
        RankMembers(es, x);
      }
      forall x, e | x in r.strengths && e in es && e !in r.strengths
        ensures Precedes(x, e)
      {
        RankMembers(es, e);
        var i :| 0 <= i < t && ranked[..t][i] == x;
        var j :| 0 <= j < |ranked| && ranked[j] == e;
        assert forall k :: 0 <= k < t ==> ranked[..t][k] == ranked[k];
        assert t <= j;
      }
    }
  }

  /** The improvements half of InsightsExtremes. */
  lemma ImprovementsExtreme(scores: Frame)
    requires Valid(scores) && scores.height > 0
    ensures forall x :: x in GenerateInsights(scores).improvements ==> x in MeanEntries(scores)
    ensures forall x, e ::
      (x in GenerateInsights(scores).improvements && e in MeanEntries(scores) && e !in GenerateInsights(scores).improvements)
      ==> Precedes(e, x)
  {
    var es := MeanEntries(scores);
    if |scores.names| > 0 {
      var ranked := Rank(es);
      var t := ListSize(|ranked|);
      var r := GenerateInsights(scores);
      assert r.improvements == ranked[|ranked| - t..];
      forall x | x in ranked
        ensures x in es
      {
        RankMembers(es, x);
      }
      forall x, e | x in r.improvements && e in es && e !in r.improvements
        ensures Precedes(e, x)
      {
        RankMembers(es, e);
        var i :| 0 <= i < t && ranked[|ranked| - t..][i] == x;
        var j :| 0 <= j < |ranked| && ranked[j] == e;
      }
    }
  }

  /** The Likert columns differ pairwise. */
  lemma LikertColumnsDistinct()
    ensures Distinct(LikertColumns)
  {
    var a := ["content_quality_q1", "content_quality_q2", "ui_usability_q1", "ui_usability_q2",
              "teacher_student_q1", "teacher_student_q2", "peer_q1", "peer_q2"];
    var b := ["motivation_q1", "motivation_q2", "autonomy_q1", "autonomy_q2", "accessibility_q1", "reliability_q1",
              "instructor_support_q1", "instructor_support_q2", "satisfaction_q1", "satisfaction_q2"];
    assert LikertColumns == a + b;
    DistinctByDiffer(a);
    DistinctByDiffer(b);
    assert forall i :: 0 <= i < |a| ==> |a[i]| > 0 && a[i][0] in {'c', 'u', 't', 'p'};
    assert forall j :: 0 <= j < |b| ==> |b[j]| > 0 && b[j][0] in {'m', 'a', 'r', 'i', 's'};
    DistinctConcat(a, b);
  }

  /** The names missing from a frame, taken from a duplicate-free list, are duplicate-free. */
  lemma {:induction false} MissingDistinct(f: Frame, names: seq<string>)
    requires Distinct(names)
    ensures Distinct(Missing(f, names))
  {
    if |names| > 0 {
      MissingDistinct(f, names[1..]);
      var rest := Missing(f, names[1..]);
      if names[0] !in f.cols {
        assert names[0] !in rest;
        DistinctConcat([names[0]], rest);
      }
    }
  }

  /** n constant columns of h cells holding the lowest Likert point. */
  function LowestColumns(n: nat, h: nat): (cs: seq<Column>)
    ensures |cs| == n && forall j :: 0 <= j < n ==> cs[j] == Constant(h, 1.0)
  {
    seq(n, j => Constant(h, 1.0))
  }

  /** The frame after `df[col] = 1` for every column of `names` it lacks, in the order of `names`. */
  function FilledWith(df: Frame, names: seq<string>): (g: Frame)
    ensures g.height == df.height
  {
    var missing := Missing(df, names);
    AppendAll(df, missing, LowestColumns(|missing|, df.height), |missing|)
  }

  /** The survey after the Likert fill of `run_analytics`. */
  function Filled(df: Frame): (g: Frame)
    ensures g.height == df.height
  {
    FilledWith(df, LikertColumns)
  }

  /** The fill keeps the frame well formed and adds exactly the missing names. */
  lemma FilledWithKeys(df: Frame, names: seq<string>)
    requires Valid(df) && Distinct(names)
    ensures Valid(FilledWith(df, names)) && HasAll(FilledWith(df, names), names)
    ensures forall n :: n in FilledWith(df, names).cols <==> n in df.cols || n in names
  {
    var missing := Missing(df, names);
    var cs := LowestColumns(|missing|, df.height);
    MissingDistinct(df, names);
    AppendAllValid(df, missing, cs, |missing|);
    AppendAllNames(df, missing, cs, |missing|);
    assert missing[..|missing|] == missing;
  }

  /** A filled column holds 1 in every row; every other column keeps its cells. */
  lemma FilledWithColumns(df: Frame, names: seq<string>)
    requires Valid(df) && Distinct(names)
    ensures forall n :: n in Missing(df, names) ==> Get(FilledWith(df, names), n) == Constant(df.height, 1.0)
    ensures forall n :: n in df.cols ==> Get(FilledWith(df, names), n) == df.cols[n]
  {
    var missing := Missing(df, names);
    var cs := LowestColumns(|missing|, df.height);
    MissingDistinct(df, names);
    forall j | 0 <= j < |missing|
      ensures Get(FilledWith(df, names), missing[j]) == Constant(df.height, 1.0)
    {
      AppendAllGet(df, missing, cs, |missing|, j);
    }
    forall n | n in df.cols
      ensures Get(FilledWith(df, names), n) == df.cols[n]
    {
      AppendAllKeeps(df, missing, cs, |missing|, n);
    }
  }

  /**
   * After the Likert fill every Likert column is present; an absent one holds 1
   * in every row, and every column the survey had keeps its cells.
   */
  lemma FilledShape(df: Frame)
    requires Valid(df)
    ensures Valid(Filled(df)) && HasAll(Filled(df), LikertColumns)
    ensures forall n :: n in Filled(df).cols <==> n in df.cols || n in LikertColumns
    ensures forall n :: n in Missing(df, LikertColumns) ==> Get(Filled(df), n) == Constant(df.height, 1.0)
    ensures forall n :: n in df.cols ==> Get(Filled(df), n) == df.cols[n]
  {
    LikertColumnsDistinct();
    FilledWithKeys(df, LikertColumns);
    FilledWithColumns(df, LikertColumns);
  }

  /** One entry of the service's reliability list. */
  datatype FactorAlpha = FactorAlpha(factor: string, alpha: Option<real>)

  /**
   * The reliability loop of `run_analytics` over the first k factors: a
   * factor with fewer than two present items is skipped, any other gets
   * Cronbach's alpha over its present items.
   */
  function ServiceReliabilityUpTo(df: Frame, fs: seq<Factor>, k: nat): (rows: seq<FactorAlpha>)
    requires Valid(df) && k <= |fs|
    ensures |rows| <= k
  {
    if k == 0 then []
    else
      var prev := ServiceReliabilityUpTo(df, fs, k - 1);
      var present := Analysis.Available(df, fs[k - 1].items);
      if |present| < 2 then prev
      else prev + [FactorAlpha(fs[k - 1].name, Analysis.CronbachAlpha(df, present))]
  }

  /** The factors with at least two registered items, each with alpha over all its items. */
  function MultiItemAlphas(df: Frame, fs: seq<Factor>, k: nat): (rows: seq<FactorAlpha>)
    requires Valid(df) && k <= |fs| && forall j :: 0 <= j < |fs| ==> HasAll(df, fs[j].items)
  {
    if k == 0 then []
    else
      var prev := MultiItemAlphas(df, fs, k - 1);
      if |fs[k - 1].items| < 2 then prev
      else prev + [FactorAlpha(fs[k - 1].name, Analysis.CronbachAlpha(df, fs[k - 1].items))]
  }

  /** With every item present, the list holds exactly the factors that have two or more items. */
  lemma {:induction false} ReliabilityOfComplete(df: Frame, fs: seq<Factor>, k: nat)
    requires Valid(df) && k <= |fs| && forall j :: 0 <= j < |fs| ==> HasAll(df, fs[j].items)
    ensures ServiceReliabilityUpTo(df, fs, k) == MultiItemAlphas(df, fs, k)
  {
    if k > 0 {
      ReliabilityOfComplete(df, fs, k - 1);
      assert Analysis.Available(df, fs[k - 1].items) == fs[k - 1].items;
    }
  }

  /** The factor names of a reliability list, in order. */
  function AlphaFactors(rows: seq<FactorAlpha>): (names: seq<string>)
    ensures |names| == |rows| && forall j :: 0 <= j < |rows| ==> names[j] == rows[j].factor
  {
    seq(|rows|, j requires 0 <= j < |rows| => rows[j].factor)
  }

  /** The names of the factors among the first k that have two or more items. */
  function MultiItemNames(fs: seq<Factor>, k: nat): seq<string>
    requires k <= |fs|
  {
    if k == 0 then []
    else MultiItemNames(fs, k - 1) + (if |fs[k - 1].items| < 2 then [] else [fs[k - 1].name])
  }

  lemma {:induction false} MultiItemAlphasNames(df: Frame, fs: seq<Factor>, k: nat)
    requires Valid(df) && k <= |fs| && forall j :: 0 <= j < |fs| ==> HasAll(df, fs[j].items)
    ensures AlphaFactors(MultiItemAlphas(df, fs, k)) == MultiItemNames(fs, k)
  {
    if k > 0 {
      MultiItemAlphasNames(df, fs, k - 1);
      var prev := MultiItemAlphas(df, fs, k - 1);
      if |fs[k - 1].items| >= 2 {
        var row := FactorAlpha(fs[k - 1].name, Analysis.CronbachAlpha(df, fs[k - 1].items));
        assert AlphaFactors(prev + [row]) == AlphaFactors(prev) + [row.factor];
      }
    }
  }

  /** When each of the first k factors has two or more items, all their names are kept. */
  lemma {:induction false} MultiItemNamesAll(fs: seq<Factor>, k: nat)
    requires k <= |fs| && forall j :: 0 <= j < k ==> |fs[j].items| >= 2
    ensures MultiItemNames(fs, k) == FactorNames(fs)[..k]
  {
    if k > 0 {
      MultiItemNamesAll(fs, k - 1);
      assert FactorNames(fs)[..k] == FactorNames(fs)[..k - 1] + [fs[k - 1].name];
    }
  }

  /** The registry's factors with two or more items: all but accessibility and reliability. */
  lemma RegistryMultiItemNames()
    ensures MultiItemNames(FactorItems, |FactorItems|) == [
      "content_quality", "ui_usability", "teacher_student_interaction", "peer_interaction",
      "motivation", "autonomy", "instructor_support", "satisfaction"]
  {
    var fs := FactorItems;
    MultiItemNamesAll(fs, 6);
    assert MultiItemNames(fs, 8) == MultiItemNames(fs, 6);
  }

  /** Every factor's items are columns of the filled survey. */
  lemma FilledHasItems(df: Frame)
    requires Valid(df)
    ensures Valid(Filled(df))
    ensures forall j :: 0 <= j < |FactorItems| ==> HasAll(Filled(df), FactorItems[j].items)
  {
    FilledShape(df);
    FactorItemsAreLikert();
  }

  /**
   * After the fill the reliability list names the eight two-item factors, in
   * registry order, each with alpha over all its items; the single-item
   * accessibility and reliability never appear.
   */
  lemma ServiceReliabilityOfFilled(df: Frame)
    requires Valid(df)
    ensures Valid(Filled(df)) && forall j :: 0 <= j < |FactorItems| ==> HasAll(Filled(df), FactorItems[j].items)
    ensures ServiceReliabilityUpTo(Filled(df), FactorItems, |FactorItems|) == MultiItemAlphas(Filled(df), FactorItems, |FactorItems|)
    ensures AlphaFactors(ServiceReliabilityUpTo(Filled(df), FactorItems, |FactorItems|)) == [
      "content_quality", "ui_usability", "teacher_student_interaction", "peer_interaction",
      "motivation", "autonomy", "instructor_support", "satisfaction"]
  {
    FilledHasItems(df);
    ReliabilityOfComplete(Filled(df), FactorItems, |FactorItems|);
    MultiItemAlphasNames(Filled(df), FactorItems, |FactorItems|);
    RegistryMultiItemNames();
  }

  /** The columns the satisfaction model needs: three dimension scores and the satisfaction score. */
  const SatisfactionInputs: seq<string> := ["platform_design_score", "engagement_score", "interaction_score", "satisfaction_score"]

  const SatisfactionFeatures: seq<string> := ["platform_design_score", "engagement_score", "interaction_score"]

  /** The satisfaction model: satisfaction on the three dimensions, when all four columns exist. */
  function SatisfactionModel(scores: Frame, lr: LinearRegression): (r: Option<RegressionSummary>)
    requires Valid(scores) && PredictsEach(lr)
    ensures !HasAll(scores, SatisfactionInputs) ==> r.None?
  {
    if HasAll(scores, SatisfactionInputs) then
      assert HasAll(scores, SatisfactionFeatures);
      RegressionSummaryOf(scores, SatisfactionFeatures, scores.cols["satisfaction_score"], lr)
    else None
  }

  /**
   * The achievement model: the normalised achievement column on every score
   * column, when the survey has an achievement column.
   */
  function AchievementModel(scores: Frame, filled: Frame, lr: LinearRegression): (r: Option<RegressionSummary>)
    requires Valid(scores) && Valid(filled) && scores.height == filled.height && PredictsEach(lr)
    ensures "achievement_score" !in filled.cols ==> r.None?
  {
    if "achievement_score" in filled.cols then
      Analysis.ScoreColumnsExact(scores.names);
      RegressionSummaryOf(scores, Analysis.ScoreColumns(scores.names), NormalizeLikert(filled.cols["achievement_score"]), lr)
    else None
  }

  /** The path-analysis dictionary: only the models that had enough rows appear. */
  function PathModels(sat: Option<RegressionSummary>, ach: Option<RegressionSummary>): (m: map<string, RegressionSummary>)
    ensures "satisfaction" in m <==> sat.Some?
    ensures "achievement" in m <==> ach.Some?
    ensures sat.Some? ==> m["satisfaction"] == sat.value
    ensures ach.Some? ==> m["achievement"] == ach.value
    ensures forall n :: n in m ==> n == "satisfaction" || n == "achievement"
  {
    var m1 := if sat.Some? then map["satisfaction" := sat.value] else map[];
    if ach.Some? then m1["achievement" := ach.value] else m1
  }

  /** The overall series: the row mean across all score columns, or nothing for an empty frame. */
  function OverallSeries(scores: Frame): (c: Column)
    requires Valid(scores)
    ensures scores.height == 0 || |scores.names| == 0 ==> c == []
    ensures scores.height > 0 && |scores.names| > 0 ==>
      |c| == scores.height && forall i :: 0 <= i < scores.height ==> c[i] == RowMean(scores, scores.names, i)
  {
    if scores.height == 0 || |scores.names| == 0 then []
    else seq(scores.height, i requires 0 <= i < scores.height => RowMean(scores, scores.names, i))
  }

  /** The run's summary numbers. */
  datatype AnalyticsSummary = AnalyticsSummary(
    totalRespondents: nat,
    imputedColumns: seq<string>,
    missingColumns: seq<string>,
    overallMean: Option<real>,
    overallStdDev: Option<real>)

  /**
   * The overall mean (0 for an empty series) and sample standard deviation
   * (0 for at most one row); None where pandas has NaN.
   */
  function OverallSpread(series: Column, sqrt: real -> real): (r: (Option<real>, Option<real>))
    requires SqrtLike(sqrt)
    ensures |series| == 0 ==> r.0 == Some(0.0)
    ensures |series| <= 1 ==> r.1 == Some(0.0)
    ensures r.1.Some? ==> r.1.value >= 0.0
    ensures |series| > 0 ==> (r.0.Some? <==> NullCount(series) < |series|)
  {
    var xs := Present(series);
    var mean := if |series| == 0 then Some(0.0) else ColumnMean(series);
    var sd := if |series| <= 1 then Some(0.0) else if |xs| < 2 then None else Some(sqrt(Stats.Variance(xs)));
    (mean, sd)
  }

  function Summary(df: Frame, filled: Frame, scores: Frame, sqrt: real -> real): (r: AnalyticsSummary)
    requires Valid(scores) && SqrtLike(sqrt)
    ensures r.totalRespondents == filled.height
    ensures r.imputedColumns == Missing(df, LikertColumns)
    ensures r.missingColumns == Missing(filled, NumericColumns)
  {
    var spread := OverallSpread(OverallSeries(scores), sqrt);
    AnalyticsSummary(filled.height, Missing(df, LikertColumns), Missing(filled, NumericColumns), spread.0, spread.1)
  }

  /** One preview row: every score column with a missing value shown as 0. */
  function PreviewRow(scores: Frame, i: nat): (row: seq<(string, real)>)
    requires Valid(scores) && i < scores.height
    ensures |row| == |scores.names|
    ensures forall j :: 0 <= j < |row| ==> row[j] == (scores.names[j], scores.cols[scores.names[j]][i].GetOr(0.0))
  {
    seq(|scores.names|, j requires 0 <= j < |scores.names| => (scores.names[j], scores.cols[scores.names[j]][i].GetOr(0.0)))
  }

  /** The number of preview rows: the first five, or all when there are fewer. */
  function PreviewSize(h: nat): nat
  {
    if h < 5 then h else 5
  }

  function Preview(scores: Frame, k: nat): (rows: seq<seq<(string, real)>>)
    requires Valid(scores) && k <= scores.height
    ensures |rows| == k && forall i :: 0 <= i < k ==> rows[i] == PreviewRow(scores, i)
  {
    seq(k, i requires 0 <= i < k => PreviewRow(scores, i))
  }

  /** Everything `run_analytics` returns. */
  datatype AnalyticsResult = AnalyticsResult(
    summary: AnalyticsSummary,
    descriptive: map<string, Metrics>,
    reliability: seq<FactorAlpha>,
    correlations: map<string, map<string, real>>,
    pathAnalysis: map<string, RegressionSummary>,
    insights: InsightLists,
    preview: seq<seq<(string, real)>>)

  /** The survey after the fill, with the facts every later stage needs. */
  function FilledFrame(df: Frame): (g: Frame)
    requires Valid(df)
    ensures g == Filled(df) && Valid(g) && g.height == df.height
  {
    FilledShape(df);
    Filled(df)
  }

  /** The score frame of the filled survey. */
  function FilledScores(df: Frame): (scores: Frame)
    requires Valid(df)
    ensures scores == ServiceScores(FilledFrame(df)) && Valid(scores) && scores.height == df.height
  {
    var filled := FilledFrame(df);
    ServiceScoresShape(filled);
    ServiceScores(filled)
  }

  /** `run_analytics` on a parsed survey, as one value. */
  function Analytics(df: Frame, sqrt: real -> real, corr: (seq<real>, seq<real>) -> real, lr: LinearRegression): AnalyticsResult
    requires Valid(df) && SqrtLike(sqrt) && PredictsEach(lr)
  {
    var filled := FilledFrame(df);
    var scores := FilledScores(df);
    AnalyticsResult(
      Summary(df, filled, scores, sqrt),
      Describe(scores, sqrt),
      ServiceReliabilityUpTo(filled, FactorItems, |FactorItems|),
      ServiceCorrelations(scores, corr),
      PathModels(SatisfactionModel(scores, lr), AchievementModel(scores, filled, lr)),
      GenerateInsights(scores),
      Preview(scores, PreviewSize(scores.height)))
  }

  /** The fill step as a loop: `df[col] = 1` for each missing Likert column in turn. */
  method FillMissing(df: Frame) returns (filled: Frame, missing: seq<string>)
    requires Valid(df)
    ensures missing == Missing(df, LikertColumns)
    ensures filled == Filled(df)
  {
    missing := Missing(df, LikertColumns);
    var cs := LowestColumns(|missing|, df.height);
    filled := df;
    for k := 0 to |missing|
      invariant filled == AppendAll(df, missing, cs, k)
    {
      filled := WithColumn(filled, missing[k], Constant(df.height, 1.0));
    }
  }

  /** The reliability step as a loop over the factor registry. */
  method ReliabilityLoop(df: Frame, fs: seq<Factor>) returns (rows: seq<FactorAlpha>)
    requires Valid(df)
    ensures rows == ServiceReliabilityUpTo(df, fs, |fs|)
  {
    rows := [];
    for k := 0 to |fs|
      invariant rows == ServiceReliabilityUpTo(df, fs, k)
    {
      var present := Analysis.Available(df, fs[k].items);
      if |present| >= 2 {
        rows := rows + [FactorAlpha(fs[k].name, Analysis.CronbachAlpha(df, present))];
      }
    }
  }

  /** The preview step as a loop over the first rows. */
  method PreviewLoop(scores: Frame) returns (rows: seq<seq<(string, real)>>)
    requires Valid(scores)
    ensures rows == Preview(scores, PreviewSize(scores.height))
  {
    rows := [];
    var n := PreviewSize(scores.height);
    for i := 0 to n
      invariant rows == Preview(scores, i)
    {
      rows := rows + [PreviewRow(scores, i)];
    }
  }

  /** `run_analytics` on a parsed survey. */
  method RunAnalytics(df: Frame, sqrt: real -> real, corr: (seq<real>, seq<real>) -> real, lr: LinearRegression)
    returns (result: AnalyticsResult)
    requires Valid(df) && SqrtLike(sqrt) && PredictsEach(lr)
    ensures result == Analytics(df, sqrt, corr, lr)
  {
    var filled, missing := FillMissing(df);
    FilledShape(df);
    var scores := ComputeFactorScores(filled);
    ServiceScoresShape(filled);
    var descriptive := DescribeMetrics(scores, sqrt);
    var reliability := ReliabilityLoop(filled, FactorItems);
    var correlations := ServiceCorrelations(scores, corr);
    var paths := PathModels(SatisfactionModel(scores, lr), AchievementModel(scores, filled, lr));
    var insights := GenerateInsights(scores);
    var summary := Summary(df, filled, scores, sqrt);
    var preview := PreviewLoop(scores);
    result := AnalyticsResult(summary, descriptive, reliability, correlations, paths, insights, preview);
  }

  /** The summary counts every respondent and names exactly the imputed and the still missing columns. */
  lemma AnalyticsSummaryFacts(df: Frame, sqrt: real -> real, corr: (seq<real>, seq<real>) -> real, lr: LinearRegression)
    requires Valid(df) && SqrtLike(sqrt) && PredictsEach(lr)
    ensures Analytics(df, sqrt, corr, lr).summary.totalRespondents == df.height
    ensures forall n :: n in Analytics(df, sqrt, corr, lr).summary.imputedColumns <==> n in LikertColumns && n !in df.cols
    ensures forall n :: n in Analytics(df, sqrt, corr, lr).summary.missingColumns <==>
      n in NumericColumns && n !in df.cols && n !in LikertColumns
  {
    FilledShape(df);
  }

  /** With at most one respondent the overall standard deviation is reported as 0. */
  lemma AnalyticsSingleRespondent(df: Frame, sqrt: real -> real, corr: (seq<real>, seq<real>) -> real, lr: LinearRegression)
    requires Valid(df) && SqrtLike(sqrt) && PredictsEach(lr) && df.height <= 1
    ensures Analytics(df, sqrt, corr, lr).summary.overallStdDev == Some(0.0)
  {
    var scores := FilledScores(df);
    assert |OverallSeries(scores)| <= 1;
  }

  /** An empty survey yields zeros and empty collections rather than an error. */
  lemma AnalyticsEmptySurvey(df: Frame, sqrt: real -> real, corr: (seq<real>, seq<real>) -> real, lr: LinearRegression)
    requires Valid(df) && SqrtLike(sqrt) && PredictsEach(lr) && df.height == 0
    ensures Analytics(df, sqrt, corr, lr).summary.overallMean == Some(0.0)
    ensures Analytics(df, sqrt, corr, lr).correlations == map[]
    ensures Analytics(df, sqrt, corr, lr).pathAnalysis == map[]
    ensures Analytics(df, sqrt, corr, lr).insights == InsightLists([], [])
    ensures Analytics(df, sqrt, corr, lr).preview == []
  {
    var scores := FilledScores(df);
    var filled := FilledFrame(df);
    var r := Analytics(df, sqrt, corr, lr);
    assert r.summary == Summary(df, filled, scores, sqrt);
    assert OverallSeries(scores) == [];
    assert r.pathAnalysis == PathModels(SatisfactionModel(scores, lr), AchievementModel(scores, filled, lr));
    assert r.preview == Preview(scores, 0);
  }

  /** No path model is fitted for fewer than five respondents. */
  lemma AnalyticsFewRespondents(df: Frame, sqrt: real -> real, corr: (seq<real>, seq<real>) -> real, lr: LinearRegression)
    requires Valid(df) && SqrtLike(sqrt) && PredictsEach(lr) && df.height < 5
    ensures Analytics(df, sqrt, corr, lr).pathAnalysis == map[]
  {
  }

  /** After the fill every factor and dimension score column exists, and reliability covers the multi-item factors. */
  lemma AnalyticsCoverage(df: Frame, sqrt: real -> real, corr: (seq<real>, seq<real>) -> real, lr: LinearRegression)
    requires Valid(df) && SqrtLike(sqrt) && PredictsEach(lr)
    ensures forall k :: 0 <= k < |FactorItems| ==> FactorScoreNames()[k] in FilledScores(df).cols
    ensures forall m :: 0 <= m < |DimensionFactors| ==> DimensionScoreNames()[m] in FilledScores(df).cols
    ensures AlphaFactors(Analytics(df, sqrt, corr, lr).reliability) == [
      "content_quality", "ui_usability", "teacher_student_interaction", "peer_interaction",
      "motivation", "autonomy", "instructor_support", "satisfaction"]
  {
    FilledShape(df);
    ServiceScoresComplete(Filled(df));
    ServiceReliabilityOfFilled(df);
  }

  /** The preview holds the first five rows (or all of them), each with every score column. */
  lemma AnalyticsPreviewShape(df: Frame, sqrt: real -> real, corr: (seq<real>, seq<real>) -> real, lr: LinearRegression)
    requires Valid(df) && SqrtLike(sqrt) && PredictsEach(lr)
    ensures |Analytics(df, sqrt, corr, lr).preview| == if df.height < 5 then df.height else 5
    ensures forall i :: 0 <= i < |Analytics(df, sqrt, corr, lr).preview| ==>
      |Analytics(df, sqrt, corr, lr).preview[i]| == |FilledScores(df).names|
  {
    var scores := FilledScores(df);
    assert Analytics(df, sqrt, corr, lr).preview == Preview(scores, PreviewSize(scores.height));
  }
}
