/**
 * What the research scorer promises about individual rows of its score
 * table: a respondent who gives the same answer everywhere gets that answer's
 * score everywhere, answers on the 1..5 scale give scores on 0..100, and the
 * default weights keep the overall score on the same scale.
 */
module ScoreProperties {
  import opened Wrappers
  import opened Frames
  import opened Registry
  import opened Scoring
  import Stats

  /** The cell of column n at row i, or None when there is no such cell. */
  function Cell(f: Frame, n: string, i: nat): (c: Option<real>)
    ensures c.Some? ==> n in f.cols && i < |f.cols[n]| && c == f.cols[n][i]
  {
    if n in f.cols && i < |f.cols[n]| then f.cols[n][i] else None
  }

  /** Every item of every factor holds the answer v at row i. */
  ghost predicate UniformItems(fs: seq<Factor>, df: Frame, i: nat, v: real)
  {
    forall k, n :: 0 <= k < |fs| && n in fs[k].items ==> Cell(df, n, i) == Some(v)
  }

  /** Every answer present at row i lies on the 1..5 scale. */
  ghost predicate ItemsOnScale(fs: seq<Factor>, df: Frame, i: nat)
  {
    forall k, n :: 0 <= k < |fs| && n in fs[k].items && Cell(df, n, i).Some? ==> 1.0 <= Cell(df, n, i).value <= 5.0
  }

  /** The achievement value at row i, when there is one, lies on the 0..100 scale. */
  ghost predicate AchievementOnScale(df: Frame, i: nat)
  {
    Cell(df, "achievement_score", i).Some? ==> 0.0 <= Cell(df, "achievement_score", i).value <= 100.0
  }

  /** The precondition shared by the score-table lemmas. */
  ghost predicate Scored(fs: seq<Factor>, ds: seq<Dimension>, df: Frame, w: Weights)
  {
    Valid(df) && Scorable(fs, df) && WellFormedRegistry(fs, ds) && WeightsFit(fs, ds, df, w)
  }

  /** Each factor's score column is an output column. */
  lemma {:induction false} FactorOutputName(fs: seq<Factor>, ds: seq<Dimension>, hasAchievement: bool, k: nat)
    requires k < |fs|
    ensures ScoreName(fs[k].name) in OutputNames(fs, ds, hasAchievement)
  {
    var tail := (if hasAchievement then ["achievement_score"] else []) + ScoreNames(DimensionNames(ds));
    assert OutputNames(fs, ds, hasAchievement) == FactorPrefix(fs) + tail;
    assert FactorPrefix(fs)[1 + k] == ScoreName(fs[k].name);
    assert (FactorPrefix(fs) + tail)[1 + k] == ScoreName(fs[k].name);
  }

  /** Every output column is the identifier, a factor score, the achievement column or a dimension score. */
  lemma {:induction false} OutputNameKinds(fs: seq<Factor>, ds: seq<Dimension>, hasAchievement: bool, n: string)
    requires n in OutputNames(fs, ds, hasAchievement)
    ensures || n == "respondent_id"
            || (exists k :: 0 <= k < |fs| && n == ScoreName(fs[k].name))
            || (hasAchievement && n == "achievement_score")
            || (exists k :: 0 <= k < |ds| && n == ScoreName(ds[k].name))
  {
    var fnames := ScoreNames(FactorNames(fs));
    var ach := if hasAchievement then ["achievement_score"] else [];
    var dnames := ScoreNames(DimensionNames(ds));
    var all := OutputNames(fs, ds, hasAchievement);
    assert all == ["respondent_id"] + fnames + ach + dnames;
    var j :| 0 <= j < |all| && all[j] == n;
    if j == 0 {
    } else if j < 1 + |fs| {
      assert all[j] == fnames[j - 1] == ScoreName(fs[j - 1].name);
    } else if j < 1 + |fs| + |ach| {
      assert all[j] == ach[j - 1 - |fs|];
    } else {
      assert all[j] == dnames[j - 1 - |fs| - |ach|];
    }
  }

  /** A respondent who answers v to every item gets the Likert score of v on every factor. */
  lemma {:induction false} UniformFactorScores(fs: seq<Factor>, ds: seq<Dimension>, df: Frame, w: Weights, i: nat, v: real)
    requires Scored(fs, ds, df, w) && i < df.height && UniformItems(fs, df, i, v)
    ensures forall k :: 0 <= k < |fs| ==> Cell(ScoreFrame(fs, ds, df, w), ScoreName(fs[k].name), i) == Some(LikertToScore(v))
  {
    var sf := ScoreFrame(fs, ds, df, w);
    forall k | 0 <= k < |fs|
      ensures Cell(sf, ScoreName(fs[k].name), i) == Some(LikertToScore(v))
    {
      ScoreFrameFactor(fs, ds, df, w, k);
      assert |fs[k].items| > 0;
      assert forall n :: n in fs[k].items ==> df.cols[n][i] == Some(v) by {
        assert forall n :: n in fs[k].items ==> Cell(df, n, i) == Some(v);
      }
      FactorScoreUniform(df, fs[k].items, i, v);
    }
  }

  /** Every column a dimension averages is some factor's score column. */
  lemma {:induction false} DimensionInputIsFactor(fs: seq<Factor>, ds: seq<Dimension>, k: nat, n: string)
    requires WellFormedRegistry(fs, ds) && k < |ds| && n in ScoreNames(ds[k].factors)
    ensures exists m :: 0 <= m < |fs| && n == ScoreName(fs[m].name)
  {
    var factorCols := ScoreNames(ds[k].factors);
    var j :| 0 <= j < |factorCols| && factorCols[j] == n;
    assert ds[k].factors[j] in FactorNames(fs);
    var m :| 0 <= m < |fs| && FactorNames(fs)[m] == ds[k].factors[j];
    assert n == ScoreName(fs[m].name);
  }

  /** The score table's dimension cell at row i is the row mean of its factor score cells. */
  lemma {:induction false} DimensionCell(fs: seq<Factor>, ds: seq<Dimension>, df: Frame, w: Weights, i: nat, k: nat)
    requires Scored(fs, ds, df, w) && i < df.height && k < |ds|
    ensures Valid(ScoreFrame(fs, ds, df, w)) && i < ScoreFrame(fs, ds, df, w).height
    ensures HasAll(ScoreFrame(fs, ds, df, w), ScoreNames(ds[k].factors))
    ensures Cell(ScoreFrame(fs, ds, df, w), ScoreName(ds[k].name), i)
      == RowMean(ScoreFrame(fs, ds, df, w), ScoreNames(ds[k].factors), i)
  {
    ScoreFrameShape(fs, ds, df, w);
    ScoreFrameDimension(fs, ds, df, w, k);
  }

  /** The row mean of cells that all hold s is s. */
  lemma {:induction false} RowMeanUniform(f: Frame, names: seq<string>, i: nat, s: real)
    requires Valid(f) && HasAll(f, names) && i < f.height && |names| > 0
    requires forall n :: n in names ==> Cell(f, n, i) == Some(s)
    ensures RowMean(f, names, i) == Some(s)
  {
    RowValuesConstant(f, names, i, s);
    Stats.MeanConstant(RowValues(f, names, i), s);
  }

  /** The row mean of present cells on 0..100 lies on 0..100. */
  lemma {:induction false} RowMeanOnScale(f: Frame, names: seq<string>, i: nat)
    requires Valid(f) && HasAll(f, names) && i < f.height
    requires forall n :: n in names && Cell(f, n, i).Some? ==> 0.0 <= Cell(f, n, i).value <= 100.0
    ensures RowMean(f, names, i).Some? ==> 0.0 <= RowMean(f, names, i).value <= 100.0
  {
    var xs := RowValues(f, names, i);
    RowValuesBounds(f, names, i, 0.0, 100.0);
    if |xs| > 0 {
      Stats.MeanBounds(xs, 0.0, 100.0);
    }
  }

  /** The same respondent gets the Likert score of v on every dimension with at least one factor. */
  lemma {:induction false} UniformDimensionScores(fs: seq<Factor>, ds: seq<Dimension>, df: Frame, w: Weights, i: nat, v: real)
    requires Scored(fs, ds, df, w) && i < df.height && UniformItems(fs, df, i, v)
    requires forall k :: 0 <= k < |ds| ==> |ds[k].factors| > 0
    ensures forall k :: 0 <= k < |ds| ==> Cell(ScoreFrame(fs, ds, df, w), ScoreName(ds[k].name), i) == Some(LikertToScore(v))
  {
    var sf := ScoreFrame(fs, ds, df, w);
    var s := LikertToScore(v);
    UniformFactorScores(fs, ds, df, w, i, v);
    forall k | 0 <= k < |ds|
      ensures Cell(sf, ScoreName(ds[k].name), i) == Some(s)
    {
      var factorCols := ScoreNames(ds[k].factors);
      DimensionCell(fs, ds, df, w, i, k);
      forall n | n in factorCols
        ensures Cell(sf, n, i) == Some(s)
      {
        DimensionInputIsFactor(fs, ds, k, n);
      }
      RowMeanUniform(sf, factorCols, i, s);
    }
  }

  /** When every weighted column holds s at row i, the overall score is s times the total weight. */
  lemma {:induction false} UniformOverall(fs: seq<Factor>, ds: seq<Dimension>, df: Frame, w: Weights, i: nat, s: real)
    requires Scored(fs, ds, df, w) && i < df.height
    requires forall k :: 0 <= k < |w| ==> Cell(ScoreFrame(fs, ds, df, w), w[k].0, i) == Some(s)
    ensures Cell(ScoreFrame(fs, ds, df, w), "overall_framework_score", i).Some?
    ensures Cell(ScoreFrame(fs, ds, df, w), "overall_framework_score", i).value == s * TotalWeight(w)
  {
    var sf := ScoreFrame(fs, ds, df, w);
    ScoreFrameShape(fs, ds, df, w);
    ScoreFrameOverall(fs, ds, df, w);
    var cells := WeightedCells(sf, w, i);
    WeightedSumUniform(w, cells, s);
  }

  /** Present answers on 1..5 give factor scores on 0..100. */
  lemma {:induction false} FactorScoresOnScale(fs: seq<Factor>, ds: seq<Dimension>, df: Frame, w: Weights, i: nat)
    requires Scored(fs, ds, df, w) && i < df.height && ItemsOnScale(fs, df, i)
    ensures forall k :: 0 <= k < |fs| && Cell(ScoreFrame(fs, ds, df, w), ScoreName(fs[k].name), i).Some? ==>
      0.0 <= Cell(ScoreFrame(fs, ds, df, w), ScoreName(fs[k].name), i).value <= 100.0
  {
    var sf := ScoreFrame(fs, ds, df, w);
    forall k | 0 <= k < |fs| && Cell(sf, ScoreName(fs[k].name), i).Some?
      ensures 0.0 <= Cell(sf, ScoreName(fs[k].name), i).value <= 100.0
    {
      ScoreFrameFactor(fs, ds, df, w, k);
      assert forall n :: n in fs[k].items && df.cols[n][i].Some? ==> 1.0 <= df.cols[n][i].value <= 5.0 by {
        assert forall n :: n in fs[k].items && Cell(df, n, i).Some? ==> 1.0 <= Cell(df, n, i).value <= 5.0;
      }
      FactorScoreBounds(df, fs[k].items, i);
    }
  }

  /** Present answers on 1..5 give dimension scores on 0..100. */
  lemma {:induction false} DimensionScoresOnScale(fs: seq<Factor>, ds: seq<Dimension>, df: Frame, w: Weights, i: nat)
    requires Scored(fs, ds, df, w) && i < df.height && ItemsOnScale(fs, df, i)
    ensures forall k :: 0 <= k < |ds| && Cell(ScoreFrame(fs, ds, df, w), ScoreName(ds[k].name), i).Some? ==>
      0.0 <= Cell(ScoreFrame(fs, ds, df, w), ScoreName(ds[k].name), i).value <= 100.0
  {
    var sf := ScoreFrame(fs, ds, df, w);
    FactorScoresOnScale(fs, ds, df, w, i);
    forall k | 0 <= k < |ds|
      ensures Cell(sf, ScoreName(ds[k].name), i).Some? ==> 0.0 <= Cell(sf, ScoreName(ds[k].name), i).value <= 100.0
    {
      var factorCols := ScoreNames(ds[k].factors);
      DimensionCell(fs, ds, df, w, i, k);
      forall n | n in factorCols && Cell(sf, n, i).Some?
        ensures 0.0 <= Cell(sf, n, i).value <= 100.0
      {
        DimensionInputIsFactor(fs, ds, k, n);
      }
      RowMeanOnScale(sf, factorCols, i);
    }
  }

  /** Every output column but the identifier holds a value on 0..100 at row i, or none. */
  lemma {:induction false} ScoreCellOnScale(fs: seq<Factor>, ds: seq<Dimension>, df: Frame, w: Weights, i: nat, n: string)
    requires Scored(fs, ds, df, w) && i < df.height && ItemsOnScale(fs, df, i) && AchievementOnScale(df, i)
    requires n in OutputNames(fs, ds, "achievement_score" in df.cols) && n != "respondent_id"
    ensures Cell(ScoreFrame(fs, ds, df, w), n, i).Some? ==> 0.0 <= Cell(ScoreFrame(fs, ds, df, w), n, i).value <= 100.0
  {
    OutputNameKinds(fs, ds, "achievement_score" in df.cols, n);
    if n == "achievement_score" && "achievement_score" in df.cols {
      ScoreFrameAchievement(fs, ds, df, w);
    } else if exists k :: 0 <= k < |fs| && n == ScoreName(fs[k].name) {
      FactorScoresOnScale(fs, ds, df, w, i);
    } else {
      DimensionScoresOnScale(fs, ds, df, w, i);
    }
  }

  /** Non-negative weights on columns whose cells at row i lie on 0..100 bound the overall score there. */
  lemma {:induction false} OverallAtBounds(f: Frame, w: Weights, i: nat)
    requires Valid(f) && WeightsAvailable(f, w) && i < f.height
    requires forall k :: 0 <= k < |w| ==> w[k].1 >= 0.0
    requires forall k :: 0 <= k < |w| && Cell(f, w[k].0, i).Some? ==> 0.0 <= Cell(f, w[k].0, i).value <= 100.0
    ensures Overall(f, w)[i].Some? ==> 0.0 <= Overall(f, w)[i].value <= 100.0 * TotalWeight(w)
  {
    var cells := WeightedCells(f, w, i);
    assert forall k :: 0 <= k < |w| ==> cells[k] == Cell(f, w[k].0, i);
    WeightedSumBounds(w, cells, 100.0);
  }

  /** The cells the overall score weighs at row i all lie on 0..100 when present. */
  lemma {:induction false} WeightedCellsOnScale(fs: seq<Factor>, ds: seq<Dimension>, df: Frame, w: Weights, i: nat)
    requires Scored(fs, ds, df, w) && i < df.height && ItemsOnScale(fs, df, i) && AchievementOnScale(df, i)
    requires forall k :: 0 <= k < |w| ==> w[k].0 != "respondent_id"
    ensures forall k :: 0 <= k < |w| && Cell(ScoreFrame(fs, ds, df, w), w[k].0, i).Some? ==>
      0.0 <= Cell(ScoreFrame(fs, ds, df, w), w[k].0, i).value <= 100.0
  {
    forall k | 0 <= k < |w|
      ensures Cell(ScoreFrame(fs, ds, df, w), w[k].0, i).Some? ==> 0.0 <= Cell(ScoreFrame(fs, ds, df, w), w[k].0, i).value <= 100.0
    {
      ScoreCellOnScale(fs, ds, df, w, i, w[k].0);
    }
  }

  /** The score table's overall cell at row i is the weighted sum of that row. */
  lemma {:induction false} OverallCell(fs: seq<Factor>, ds: seq<Dimension>, df: Frame, w: Weights, i: nat)
    requires Scored(fs, ds, df, w) && i < df.height
    ensures Valid(ScoreFrame(fs, ds, df, w)) && WeightsAvailable(ScoreFrame(fs, ds, df, w), w)
    ensures i < ScoreFrame(fs, ds, df, w).height
    ensures Cell(ScoreFrame(fs, ds, df, w), "overall_framework_score", i) == Overall(ScoreFrame(fs, ds, df, w), w)[i]
  {
    ScoreFrameShape(fs, ds, df, w);
    ScoreFrameOverall(fs, ds, df, w);
  }

  /**
   * With non-negative weights on score columns other than the identifier, the
   * overall score at row i lies between 0 and 100 times the total weight.
   */
  lemma {:induction false} OverallOnScale(fs: seq<Factor>, ds: seq<Dimension>, df: Frame, w: Weights, i: nat)
    requires Scored(fs, ds, df, w) && i < df.height && ItemsOnScale(fs, df, i) && AchievementOnScale(df, i)
    requires forall k :: 0 <= k < |w| ==> w[k].1 >= 0.0 && w[k].0 != "respondent_id"
    ensures Cell(ScoreFrame(fs, ds, df, w), "overall_framework_score", i).Some? ==>
      0.0 <= Cell(ScoreFrame(fs, ds, df, w), "overall_framework_score", i).value <= 100.0 * TotalWeight(w)
  {
    OverallCell(fs, ds, df, w, i);
    WeightedCellsOnScale(fs, ds, df, w, i);
    OverallAtBounds(ScoreFrame(fs, ds, df, w), w, i);
  }

  /** The default weights: the four dimension scores, then instructor support's score. */
  lemma {:induction false} DefaultWeightKeys()
    ensures |DefaultWeights()| == 5
    ensures forall k :: 0 <= k < 4 ==> DefaultWeights()[k].0 == ScoreName(DimensionFactors[k].name)
    ensures DefaultWeights()[4].0 == ScoreName(FactorItems[8].name)
  {
    var w := DefaultWeights();
    ScoreColumnOrderSpelledOut();
    assert forall k :: 0 <= k < 5 ==> w[k].0 == MainFactors[k];
    assert forall k :: 0 <= k < 4 ==> MainFactors[k] == ScoreColumnOrder[12 + k];
    assert MainFactors[4] == ScoreColumnOrder[9];
  }

  /** The default weights name output columns whether or not the survey has an achievement column. */
  lemma {:induction false} DefaultWeightsFit(df: Frame)
    ensures WeightsFit(FactorItems, DimensionFactors, df, DefaultWeights())
  {
    var w := DefaultWeights();
    var h := "achievement_score" in df.cols;
    DefaultWeightKeys();
    forall k | 0 <= k < 4
      ensures w[k].0 in OutputNames(FactorItems, DimensionFactors, h)
    {
      OutputNamesAt(FactorItems, DimensionFactors, h, k);
    }
    FactorOutputName(FactorItems, DimensionFactors, h, 8);
  }

  /** Every survey dimension averages at least one factor. */
  lemma {:induction false} DimensionsNonEmpty()
    ensures forall k :: 0 <= k < |DimensionFactors| ==> |DimensionFactors[k].factors| > 0
  {
  }

  /** Each default weight names a dimension score or the instructor-support score. */
  lemma {:induction false} DefaultWeightedCells(f: Frame, i: nat, s: real)
    requires forall k :: 0 <= k < |FactorItems| ==> Cell(f, ScoreName(FactorItems[k].name), i) == Some(s)
    requires forall k :: 0 <= k < |DimensionFactors| ==> Cell(f, ScoreName(DimensionFactors[k].name), i) == Some(s)
    ensures forall k :: 0 <= k < |DefaultWeights()| ==> Cell(f, DefaultWeights()[k].0, i) == Some(s)
  {
    var w := DefaultWeights();
    DefaultWeightKeys();
    forall k | 0 <= k < |w|
      ensures Cell(f, w[k].0, i) == Some(s)
    {
      if k == 4 {
        assert Cell(f, ScoreName(FactorItems[8].name), i) == Some(s);
      } else {
        assert Cell(f, ScoreName(DimensionFactors[k].name), i) == Some(s);
      }
    }
  }

  /**
   * A survey row with the same answer v on every item: every factor, every
   * dimension and the default-weighted overall score equal the Likert score
   * of v (so all 1s give 0 and all 5s give 100).
   */
  lemma {:induction false} SurveyUniformRow(df: Frame, i: nat, v: real)
    requires Valid(df) && Scorable(FactorItems, df) && i < df.height && UniformItems(FactorItems, df, i, v)
    ensures WeightsFit(FactorItems, DimensionFactors, df, DefaultWeights())
    ensures forall k :: 0 <= k < |FactorItems| ==>
      Cell(SurveyScoreFrame(df, DefaultWeights()), ScoreName(FactorItems[k].name), i) == Some(LikertToScore(v))
    ensures forall k :: 0 <= k < |DimensionFactors| ==>
      Cell(SurveyScoreFrame(df, DefaultWeights()), ScoreName(DimensionFactors[k].name), i) == Some(LikertToScore(v))
    ensures Cell(SurveyScoreFrame(df, DefaultWeights()), "overall_framework_score", i).Some?
    ensures Cell(SurveyScoreFrame(df, DefaultWeights()), "overall_framework_score", i).value == LikertToScore(v)
  {
    var w := DefaultWeights();
    var s := LikertToScore(v);
    DefaultWeightsFit(df);
    assert WellFormedRegistry(FactorItems, DimensionFactors) by {
      RegistryWellFormed();
    }
    var sf := ScoreFrame(FactorItems, DimensionFactors, df, w);
    assert sf == SurveyScoreFrame(df, w);
    assert forall k :: 0 <= k < |FactorItems| ==> Cell(sf, ScoreName(FactorItems[k].name), i) == Some(s) by {
      UniformFactorScores(FactorItems, DimensionFactors, df, w, i, v);
    }
    assert forall k :: 0 <= k < |DimensionFactors| ==> Cell(sf, ScoreName(DimensionFactors[k].name), i) == Some(s) by {
      DimensionsNonEmpty();
      UniformDimensionScores(FactorItems, DimensionFactors, df, w, i, v);
    }
    DefaultWeightedCells(sf, i, s);
    UniformOverall(FactorItems, DimensionFactors, df, w, i, s);
  }

  /**
   * A survey row whose answers lie on 1..5 and whose achievement lies on
   * 0..100: every score column holds a value on 0..100 or none, and so does
   * the overall score under any non-negative weights on score columns whose
   * total is at most 1 (the default weights among them).
   */
  lemma {:induction false} SurveyRowOnScale(df: Frame, w: Weights, i: nat)
    requires Valid(df) && Scorable(FactorItems, df) && WeightsFit(FactorItems, DimensionFactors, df, w)
    requires i < df.height && ItemsOnScale(FactorItems, df, i) && AchievementOnScale(df, i)
    requires forall k :: 0 <= k < |w| ==> w[k].1 >= 0.0 && w[k].0 != "respondent_id"
    requires TotalWeight(w) <= 1.0
    ensures forall n ::
      (n in OutputNames(FactorItems, DimensionFactors, "achievement_score" in df.cols) + ["overall_framework_score"]
       && n != "respondent_id" && Cell(SurveyScoreFrame(df, w), n, i).Some?) ==>
      0.0 <= Cell(SurveyScoreFrame(df, w), n, i).value <= 100.0
  {
    assert WellFormedRegistry(FactorItems, DimensionFactors) by {
      RegistryWellFormed();
    }
    var sf := ScoreFrame(FactorItems, DimensionFactors, df, w);
    assert sf == SurveyScoreFrame(df, w);
    OverallOnScale(FactorItems, DimensionFactors, df, w, i);
    var names := OutputNames(FactorItems, DimensionFactors, "achievement_score" in df.cols);
    forall n | n in names + ["overall_framework_score"] && n != "respondent_id" && Cell(sf, n, i).Some?
      ensures 0.0 <= Cell(sf, n, i).value <= 100.0
    {
      if n in names {
        ScoreCellOnScale(FactorItems, DimensionFactors, df, w, i, n);
      } else {
        Stats.ProductBounds(100.0, TotalWeight(w), 1.0);
      }
    }
  }
}
