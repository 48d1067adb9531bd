/**
 * Regression and path analysis of the research pipeline: the complete-case
 * design handed to ordinary least squares, the Baron and Kenny mediation
 * test and its classification, the five hypotheses run when their columns
 * exist, and the text report of the four that are reported.  The least
 * squares fit itself comes from a statistics library and is a parameter.
 */
module PathModel {
  import opened Wrappers
  import opened Frames

  /**
   * What the fit receives: the outcome and each predictor over the same
   * rows, and whether an intercept column is put in front of the predictors.
   */
  datatype Design = Design(outcome: seq<real>, predictors: seq<seq<real>>, intercept: bool)

  /**
   * A column the library already takes for a constant: it has a value, the
   * same value throughout, and that value is not zero.
   */
  predicate NonzeroConstant(xs: seq<real>)
  {
    |xs| > 0 && xs[0] != 0.0 && forall i :: 0 <= i < |xs| ==> xs[i] == xs[0]
  }

  /**
   * The design after adding the constant: the intercept column is skipped
   * when some predictor is already a nonzero constant.
   */
  function WithConstant(outcome: seq<real>, predictors: seq<seq<real>>): (d: Design)
    ensures d.outcome == outcome && d.predictors == predictors
    ensures d.intercept <==> forall k :: 0 <= k < |predictors| ==> !NonzeroConstant(predictors[k])
  {
    Design(outcome, predictors, !exists k :: 0 <= k < |predictors| && NonzeroConstant(predictors[k]))
  }

  /** Where the predictors' coefficients start: after the intercept when there is one. */
  function Offset(d: Design): nat
  {
    if d.intercept then 1 else 0
  }

  /**
   * A least squares fit: overall statistics, and one coefficient and p-value
   * per column of the design with the intercept, when there is one, first.
   */
  datatype OlsFit = OlsFit(rSquared: real, adjRSquared: real, fValue: real, fPValue: real,
                           coef: seq<real>, pValue: seq<real>)

  /** The library returns one coefficient and one p-value per design column, intercept included. */
  predicate Fits(d: Design, fit: OlsFit)
  {
    |fit.coef| == Offset(d) + |d.predictors| && |fit.pValue| == Offset(d) + |d.predictors|
  }

  type Ols = Design -> OlsFit

  ghost predicate WellShaped(ols: Ols)
  {
    forall d :: Fits(d, ols(d))
  }

  /** The rows where the outcome and every predictor are present, in row order. */
  function RegressionRows(df: Frame, outcome: string, predictors: seq<string>): (rows: seq<nat>)
    requires Valid(df) && outcome in df.cols && HasAll(df, predictors)
  {
    CompleteRows(df, [outcome] + predictors)
  }

  /** The rows are exactly those with no missing value in the outcome or a predictor. */
  lemma RegressionRowsExact(df: Frame, outcome: string, predictors: seq<string>)
    requires Valid(df) && outcome in df.cols && HasAll(df, predictors)
    ensures forall i: nat :: i in RegressionRows(df, outcome, predictors) <==>
      i < df.height && df.cols[outcome][i].Some? && forall n :: n in predictors ==> df.cols[n][i].Some?
  {
    var rows := RegressionRows(df, outcome, predictors);
    forall i | i in rows
      ensures i < df.height && CompleteAt(df, [outcome] + predictors, i)
    {
      var j :| 0 <= j < |rows| && rows[j] == i;
    }
  }

  /** The design over the complete rows, with an intercept unless a predictor is a nonzero constant there. */
  function RegressionDesign(df: Frame, outcome: string, predictors: seq<string>): (d: Design)
    requires Valid(df) && outcome in df.cols && HasAll(df, predictors)
    ensures |d.predictors| == |predictors|
    ensures d.outcome == ValuesAt(df, outcome, RegressionRows(df, outcome, predictors))
    ensures forall k :: 0 <= k < |predictors| ==>
      d.predictors[k] == ValuesAt(df, predictors[k], RegressionRows(df, outcome, predictors))
    ensures d.intercept <==> forall k :: 0 <= k < |predictors| ==>
      !NonzeroConstant(ValuesAt(df, predictors[k], RegressionRows(df, outcome, predictors)))
  {
    var rows := RegressionRows(df, outcome, predictors);
    WithConstant(ValuesAt(df, outcome, rows),
                 seq(|predictors|, k requires 0 <= k < |predictors| => ValuesAt(df, predictors[k], rows)))
  }

  /** A regression result; coefficients and p-values are keyed "const", when fitted, then the predictors. */
  datatype Regression = Regression(rSquared: real, adjRSquared: real, fStatistic: real, fPValue: real,
                                   coefficients: seq<(string, real)>, pValues: seq<(string, real)>)

  function Keyed(names: seq<string>, vs: seq<real>): (r: seq<(string, real)>)
    requires |names| == |vs|
    ensures |r| == |names|
    ensures forall k :: 0 <= k < |r| ==> r[k] == (names[k], vs[k])
  {
    seq(|names|, k requires 0 <= k < |names| => (names[k], vs[k]))
  }

  /** Values of a fit keyed by the design's columns: "const" when there is an intercept, then the predictors. */
  function KeyedColumns(d: Design, predictors: seq<string>, vs: seq<real>): (r: seq<(string, real)>)
    requires |vs| == Offset(d) + |predictors|
    ensures |r| == |vs|
    ensures d.intercept ==> r[0] == ("const", vs[0])
    ensures forall k :: 0 <= k < |predictors| ==> r[Offset(d) + k] == (predictors[k], vs[Offset(d) + k])
  {
    Keyed((if d.intercept then ["const"] else []) + predictors, vs)
  }

  /**
   * A regression reports a fit of design d: the fit's statistics, and its
   * coefficients and p-values keyed "const", when d has an intercept, then
   * by predictor name.
   */
  predicate ReportsFit(r: Regression, d: Design, predictors: seq<string>, fit: OlsFit)
    requires Fits(d, fit) && |d.predictors| == |predictors|
  {
    && r.rSquared == fit.rSquared && r.adjRSquared == fit.adjRSquared
    && r.fStatistic == fit.fValue && r.fPValue == fit.fPValue
    && |r.coefficients| == Offset(d) + |predictors| && |r.pValues| == Offset(d) + |predictors|
    && (d.intercept ==> r.coefficients[0] == ("const", fit.coef[0]) && r.pValues[0] == ("const", fit.pValue[0]))
    && forall k :: 0 <= k < |predictors| ==>
         && r.coefficients[Offset(d) + k] == (predictors[k], fit.coef[Offset(d) + k])
         && r.pValues[Offset(d) + k] == (predictors[k], fit.pValue[Offset(d) + k])
  }

  /**
   * Fits the outcome on the predictors over the rows where none of them is
   * missing; the design has an intercept exactly when no predictor is a
   * nonzero constant over those rows.
   */
  function RunSimpleRegression(df: Frame, outcome: string, predictors: seq<string>, ols: Ols): (r: Regression)
    requires Valid(df) && outcome in df.cols && HasAll(df, predictors) && WellShaped(ols)
    ensures Fits(RegressionDesign(df, outcome, predictors), ols(RegressionDesign(df, outcome, predictors)))
    ensures ReportsFit(r, RegressionDesign(df, outcome, predictors), predictors, ols(RegressionDesign(df, outcome, predictors)))
  {
    var d := RegressionDesign(df, outcome, predictors);
    var fit := ols(d);
    assert Fits(d, fit);
    Regression(fit.rSquared, fit.adjRSquared, fit.fValue, fit.fPValue,
               KeyedColumns(d, predictors, fit.coef), KeyedColumns(d, predictors, fit.pValue))
  }

  /**
   * A regression has one entry more than it has predictors, the "const"
   * one, exactly when no predictor is a nonzero constant over its rows.
   */
  lemma RegressionConstant(df: Frame, outcome: string, predictors: seq<string>, ols: Ols)
    requires Valid(df) && outcome in df.cols && HasAll(df, predictors) && WellShaped(ols)
    ensures var r := RunSimpleRegression(df, outcome, predictors, ols);
      && (|r.coefficients| == |predictors| + 1 <==>
            forall k :: 0 <= k < |predictors| ==>
              !NonzeroConstant(ValuesAt(df, predictors[k], RegressionRows(df, outcome, predictors))))
      && (|r.coefficients| == |predictors| + 1 ==>
            r.coefficients[0] == ("const", ols(RegressionDesign(df, outcome, predictors)).coef[0]))
  {
    var d := RegressionDesign(df, outcome, predictors);
    assert ReportsFit(RunSimpleRegression(df, outcome, predictors, ols), d, predictors, ols(d));
  }

  /** The verdict of the mediation test. */
  datatype MediationType = Full | Partial | NoMediation

  function MediationText(t: MediationType): string
  {
    match t
    case Full => "Full mediation (complete)"
    case Partial => "Partial mediation"
    case NoMediation => "No mediation"
  }

  function Abs(x: real): real
  {
    if x < 0.0 then -x else x
  }

  /**
   * Full when the total effect is significant and the direct one is not;
   * partial when both are significant and the direct effect is smaller in
   * size; otherwise none.
   */
  function Classify(c: real, cP: real, cPrime: real, cPrimeP: real): MediationType
  {
    if cP < 0.05 && cPrimeP >= 0.05 then Full
    else if cP < 0.05 && cPrimeP < 0.05 && Abs(cPrime) < Abs(c) then Partial
    else NoMediation
  }

  /** Each verdict holds exactly under its own condition. */
  lemma ClassifyExact(c: real, cP: real, cPrime: real, cPrimeP: real)
    ensures Classify(c, cP, cPrime, cPrimeP) == Full <==> cP < 0.05 && cPrimeP >= 0.05
    ensures Classify(c, cP, cPrime, cPrimeP) == Partial <==> cP < 0.05 && cPrimeP < 0.05 && Abs(cPrime) < Abs(c)
    ensures Classify(c, cP, cPrime, cPrimeP) == NoMediation <==>
      cP >= 0.05 || (cPrimeP < 0.05 && Abs(cPrime) >= Abs(c))
  {
  }

  /** Without a significant total effect there is never mediation. */
  lemma NoTotalEffectNoMediation(c: real, cP: real, cPrime: real, cPrimeP: real)
    requires cP >= 0.05
    ensures Classify(c, cP, cPrime, cPrimeP) == NoMediation
  {
  }

  /** The rows where all three variables are present: every path is fitted on these. */
  function MediationRows(df: Frame, independent: string, mediator: string, dependent: string): seq<nat>
    requires Valid(df) && independent in df.cols && mediator in df.cols && dependent in df.cols
  {
    CompleteRows(df, [independent, mediator, dependent])
  }

  datatype MediationDesigns = MediationDesigns(total: Design, aPath: Design, direct: Design)

  /**
   * dependent ~ independent, mediator ~ independent and dependent ~
   * independent + mediator, each with the constant added as for a regression.
   */
  function MediationDesignsOf(df: Frame, independent: string, mediator: string, dependent: string): (ds: MediationDesigns)
    requires Valid(df) && independent in df.cols && mediator in df.cols && dependent in df.cols
    ensures var rows := MediationRows(df, independent, mediator, dependent);
      var x := ValuesAt(df, independent, rows);
      var m := ValuesAt(df, mediator, rows);
      && ds.total == Design(ValuesAt(df, dependent, rows), [x], !NonzeroConstant(x))
      && ds.aPath == Design(m, [x], !NonzeroConstant(x))
      && ds.direct == Design(ValuesAt(df, dependent, rows), [x, m], !NonzeroConstant(x) && !NonzeroConstant(m))
  {
    var rows := MediationRows(df, independent, mediator, dependent);
    var x := ValuesAt(df, independent, rows);
    var m := ValuesAt(df, mediator, rows);
    var y := ValuesAt(df, dependent, rows);
    var total, aPath, direct := WithConstant(y, [x]), WithConstant(m, [x]), WithConstant(y, [x, m]);
    assert total.intercept <==> !NonzeroConstant([x][0]);
    assert aPath.intercept <==> !NonzeroConstant([x][0]);
    assert direct.intercept <==> !NonzeroConstant([x, m][0]) && !NonzeroConstant([x, m][1]);
    MediationDesigns(total, aPath, direct)
  }

  /** The three fits use one common set of rows, on which each variable keeps its role. */
  lemma MediationSameRows(df: Frame, independent: string, mediator: string, dependent: string)
    requires Valid(df) && independent in df.cols && mediator in df.cols && dependent in df.cols
    ensures var ds := MediationDesignsOf(df, independent, mediator, dependent);
      && ds.total.outcome == ds.direct.outcome
      && ds.total.predictors[0] == ds.aPath.predictors[0] == ds.direct.predictors[0]
      && ds.aPath.outcome == ds.direct.predictors[1]
      && |ds.total.outcome| == |MediationRows(df, independent, mediator, dependent)|
    ensures forall i: nat :: i in MediationRows(df, independent, mediator, dependent) <==>
      i < df.height && df.cols[independent][i].Some? && df.cols[mediator][i].Some? && df.cols[dependent][i].Some?
  {
    var rows := MediationRows(df, independent, mediator, dependent);
    forall i | i in rows
      ensures i < df.height && CompleteAt(df, [independent, mediator, dependent], i)
    {
      var j :| 0 <= j < |rows| && rows[j] == i;
    }
  }

  datatype Mediation = Mediation(totalEffect: real, directEffect: real, indirectEffect: real,
                                 aPath: real, bPath: real, aPValue: real, bPValue: real,
                                 cPValue: real, cPrimePValue: real, mediationType: MediationType)

  /** The mediation test of independent -> mediator -> dependent. */
  function TestMediation(df: Frame, independent: string, mediator: string, dependent: string, ols: Ols): (r: Mediation)
    requires Valid(df) && independent in df.cols && mediator in df.cols && dependent in df.cols && WellShaped(ols)
    ensures var ds := MediationDesignsOf(df, independent, mediator, dependent);
      var t, a, d := Offset(ds.total), Offset(ds.aPath), Offset(ds.direct);
      && r.totalEffect == ols(ds.total).coef[t] && r.cPValue == ols(ds.total).pValue[t]
      && r.aPath == ols(ds.aPath).coef[a] && r.aPValue == ols(ds.aPath).pValue[a]
      && r.directEffect == ols(ds.direct).coef[d] && r.cPrimePValue == ols(ds.direct).pValue[d]
      && r.bPath == ols(ds.direct).coef[d + 1] && r.bPValue == ols(ds.direct).pValue[d + 1]
    ensures r.indirectEffect == r.aPath * r.bPath
    ensures r.mediationType == Classify(r.totalEffect, r.cPValue, r.directEffect, r.cPrimePValue)
  {
    var ds := MediationDesignsOf(df, independent, mediator, dependent);
    var m1 := ols(ds.total);
    var m2 := ols(ds.aPath);
    var m3 := ols(ds.direct);
    assert Fits(ds.total, m1) && Fits(ds.aPath, m2) && Fits(ds.direct, m3);
    var t, i, d := Offset(ds.total), Offset(ds.aPath), Offset(ds.direct);
    var c := m1.coef[t];
    var cP := m1.pValue[t];
    var a := m2.coef[i];
    var cPrime := m3.coef[d];
    var b := m3.coef[d + 1];
    var cPrimeP := m3.pValue[d];
    Mediation(c, cPrime, a * b, a, b, m2.pValue[i], m3.pValue[d + 1], cP, cPrimeP, Classify(c, cP, cPrime, cPrimeP))
  }

  /** The five hypotheses of the path analysis. */
  datatype Hypothesis = H1 | H2 | H3a | H3b | MultipleAchievement

  function Key(h: Hypothesis): string
  {
    match h
    case H1 => "H1_platform_motivation_achievement"
    case H2 => "H2_interaction_satisfaction"
    case H3a => "H3a_engagement_achievement"
    case H3b => "H3b_engagement_satisfaction"
    case MultipleAchievement => "multiple_achievement"
  }

  const AchievementPredictors: seq<string> :=
    ["platform_design_score", "interaction_score", "engagement_score", "technical_score", "instructor_support_score"]

  /** The columns a hypothesis needs; it is run only when all of them exist. */
  function Needs(h: Hypothesis): seq<string>
  {
    match h
    case H1 => ["platform_design_score", "motivation_score", "achievement_score"]
    case H2 => ["interaction_score", "satisfaction_score"]
    case H3a => ["engagement_score", "achievement_score"]
    case H3b => ["engagement_score", "satisfaction_score"]
    case MultipleAchievement => AchievementPredictors + ["achievement_score"]
  }

  datatype PathResult = MediationResult(mediation: Mediation) | RegressionResult(regression: Regression)

  /** The test a hypothesis runs: a mediation for H1, a regression for the others. */
  function HypothesisResult(scores: Frame, h: Hypothesis, ols: Ols): (r: PathResult)
    requires Valid(scores) && HasAll(scores, Needs(h)) && WellShaped(ols)
    ensures r.MediationResult? <==> h == H1
  {
    match h
    case H1 => MediationResult(TestMediation(scores, "platform_design_score", "motivation_score", "achievement_score", ols))
    case H2 => RegressionResult(RunSimpleRegression(scores, "satisfaction_score", ["interaction_score"], ols))
    case H3a => RegressionResult(RunSimpleRegression(scores, "achievement_score", ["engagement_score"], ols))
    case H3b => RegressionResult(RunSimpleRegression(scores, "satisfaction_score", ["engagement_score"], ols))
    case MultipleAchievement =>
      assert "achievement_score" in Needs(h);
      RegressionResult(RunSimpleRegression(scores, "achievement_score", AchievementPredictors, ols))
  }

  /** The results after the test of h: its entry is added when all its columns exist. */
  function Record(results: map<Hypothesis, PathResult>, scores: Frame, h: Hypothesis, ols: Ols): map<Hypothesis, PathResult>
    requires Valid(scores) && WellShaped(ols)
  {
    if HasAll(scores, Needs(h)) then results[h := HypothesisResult(scores, h, ols)] else results
  }

  /** The results dictionary after the five tests, run in the order H1, H2, H3a, H3b, multiple regression. */
  function PathResults(scores: Frame, ols: Ols): map<Hypothesis, PathResult>
    requires Valid(scores) && WellShaped(ols)
  {
    var r1 := Record(map[], scores, H1, ols);
    var r2 := Record(r1, scores, H2, ols);
    var r3 := Record(r2, scores, H3a, ols);
    var r4 := Record(r3, scores, H3b, ols);
    Record(r4, scores, MultipleAchievement, ols)
  }

  lemma RecordEntries(results: map<Hypothesis, PathResult>, scores: Frame, h: Hypothesis, ols: Ols, g: Hypothesis)
    requires Valid(scores) && WellShaped(ols)
    ensures g in Record(results, scores, h, ols) <==> g in results || (g == h && HasAll(scores, Needs(h)))
    ensures g in Record(results, scores, h, ols) ==>
      Record(results, scores, h, ols)[g] == if g == h && HasAll(scores, Needs(h)) then HypothesisResult(scores, h, ols) else results[g]
  {
  }

  /** A hypothesis is in the results exactly when all its columns exist; the others are skipped. */
  lemma PathResultsGated(scores: Frame, ols: Ols, h: Hypothesis)
    requires Valid(scores) && WellShaped(ols)
    ensures h in PathResults(scores, ols) <==> HasAll(scores, Needs(h))
    ensures h in PathResults(scores, ols) ==> PathResults(scores, ols)[h] == HypothesisResult(scores, h, ols)
  {
    var r1 := Record(map[], scores, H1, ols);
    var r2 := Record(r1, scores, H2, ols);
    var r3 := Record(r2, scores, H3a, ols);
    var r4 := Record(r3, scores, H3b, ols);
    RecordEntries(map[], scores, H1, ols, h);
    RecordEntries(r1, scores, H2, ols, h);
    RecordEntries(r2, scores, H3a, ols, h);
    RecordEntries(r3, scores, H3b, ols, h);
    RecordEntries(r4, scores, MultipleAchievement, ols, h);
  }

  /** Runs hypothesis h when all its columns exist, and records its result under h. */
  method RunHypothesis(results: map<Hypothesis, PathResult>, scores: Frame, h: Hypothesis, ols: Ols)
    returns (updated: map<Hypothesis, PathResult>)
    requires Valid(scores) && WellShaped(ols)
    ensures updated == Record(results, scores, h, ols)
  {
    updated := results;
    if HasAll(scores, Needs(h)) {
      updated := updated[h := HypothesisResult(scores, h, ols)];
    }
  }

  /** Runs the five hypotheses in turn, recording each one whose columns exist. */
  method RunPathAnalysis(scores: Frame, ols: Ols) returns (results: map<Hypothesis, PathResult>)
    requires Valid(scores) && WellShaped(ols)
    ensures results == PathResults(scores, ols)
  {
    results := map[];
    results := RunHypothesis(results, scores, H1, ols);
    results := RunHypothesis(results, scores, H2, ols);
    results := RunHypothesis(results, scores, H3a, ols);
    results := RunHypothesis(results, scores, H3b, ols);
    results := RunHypothesis(results, scores, MultipleAchievement, ols);
  }

  /**
   * A line of the model report.  `Rule(c, blank)` is seventy copies of c,
   * after an empty line when `blank` holds; the printed numbers are rounded,
   * which is not modelled.
   */
  datatype ModelLine =
    | Rule(c: char, blank: bool)
    | Title
    | Heading(hypothesis: Hypothesis)
    | TotalEffect(effect: real, p: real)
    | DirectEffect(effect: real, p: real)
    | IndirectEffect(effect: real)
    | Verdict(text: string)
    | RSquared(r2: real)
    | FTest(f: real, p: real)

  /** The reported hypotheses, in report order; the multiple regression is never reported. */
  const Reported: seq<Hypothesis> := [H1, H2, H3a, H3b]

  /** The lines of one reported hypothesis. */
  function SectionLines(h: Hypothesis, r: PathResult): (ls: seq<ModelLine>)
    requires h in Reported && (h == H1 <==> r.MediationResult?)
    ensures |ls| > 0 && ls[0] == Heading(h)
    ensures forall j :: 0 < j < |ls| ==> !ls[j].Heading?
  {
    if h == H1 then
      var m := r.mediation;
      [Heading(H1), Rule('-', false), TotalEffect(m.totalEffect, m.cPValue), DirectEffect(m.directEffect, m.cPrimePValue),
       IndirectEffect(m.indirectEffect), Verdict(MediationText(m.mediationType))]
    else
      var g := r.regression;
      [Heading(h), Rule('-', false), RSquared(g.rSquared), FTest(g.fStatistic, g.fPValue)]
  }

  /** The section of h when the results hold it, and nothing otherwise. */
  function SectionIfPresent(results: map<Hypothesis, PathResult>, h: Hypothesis): seq<ModelLine>
    requires h in Reported && (h in results ==> (h == H1 <==> results[h].MediationResult?))
  {
    if h in results then SectionLines(h, results[h]) else []
  }

  /** A results map whose H1 entry is a mediation and whose other entries are regressions. */
  predicate WellTyped(results: map<Hypothesis, PathResult>)
  {
    forall h :: h in results ==> (h == H1 <==> results[h].MediationResult?)
  }

  function ModelReportLines(results: map<Hypothesis, PathResult>): seq<ModelLine>
    requires WellTyped(results)
  {
    [Rule('=', true), Title, Rule('=', false)]
    + SectionIfPresent(results, H1) + SectionIfPresent(results, H2)
    + SectionIfPresent(results, H3a) + SectionIfPresent(results, H3b)
    + [Rule('=', true)]
  }

  /** Builds the report section by section, in the fixed order H1, H2, H3a, H3b. */
  method GenerateModelReport(results: map<Hypothesis, PathResult>) returns (report: seq<ModelLine>)
    requires WellTyped(results)
    ensures report == ModelReportLines(results)
  {
    report := [Rule('=', true), Title, Rule('=', false)];
    if H1 in results {
      report := report + SectionLines(H1, results[H1]);
    }
    assert report == [Rule('=', true), Title, Rule('=', false)] + SectionIfPresent(results, H1);
    ghost var before := report;
    if H2 in results {
      report := report + SectionLines(H2, results[H2]);
    }
    assert report == before + SectionIfPresent(results, H2);
    before := report;
    if H3a in results {
      report := report + SectionLines(H3a, results[H3a]);
    }
    assert report == before + SectionIfPresent(results, H3a);
    before := report;
    if H3b in results {
      report := report + SectionLines(H3b, results[H3b]);
    }
    assert report == before + SectionIfPresent(results, H3b);
    report := report + [Rule('=', true)];
  }

  /** The hypotheses whose headings appear in a list of lines, in order. */
  function Headings(ls: seq<ModelLine>): seq<Hypothesis>
  {
    if |ls| == 0 then []
    else if ls[0].Heading? then [ls[0].hypothesis] + Headings(ls[1..])
    else Headings(ls[1..])
  }

  lemma {:induction false} HeadingsAppend(a: seq<ModelLine>, b: seq<ModelLine>)
    ensures Headings(a + b) == Headings(a) + Headings(b)
  {
    if |a| > 0 {
      HeadingsAppend(a[1..], b);
      assert (a + b)[0] == a[0] && (a + b)[1..] == a[1..] + b;
    } else {
      assert a + b == b;
    }
  }

  lemma {:induction false} HeadingsOfSection(h: Hypothesis, r: PathResult)
    requires h in Reported && (h == H1 <==> r.MediationResult?)
    ensures Headings(SectionLines(h, r)) == [h]
  {
    var ls := SectionLines(h, r);
    NoHeadings(ls[1..]);
    assert ls == [ls[0]] + ls[1..];
  }

  lemma {:induction false} NoHeadings(ls: seq<ModelLine>)
    requires forall j :: 0 <= j < |ls| ==> !ls[j].Heading?
    ensures Headings(ls) == []
  {
    if |ls| > 0 {
      NoHeadings(ls[1..]);
    }
  }

  /** The reported hypotheses present in the results, in report order. */
  function PresentReported(results: map<Hypothesis, PathResult>): (r: seq<Hypothesis>)
    ensures forall h :: h in r <==> h in Reported && h in results
  {
    (if H1 in results then [H1] else []) + (if H2 in results then [H2] else [])
    + (if H3a in results then [H3a] else []) + (if H3b in results then [H3b] else [])
  }

  lemma HeadingsOfPresent(results: map<Hypothesis, PathResult>, h: Hypothesis)
    requires WellTyped(results) && h in Reported
    ensures Headings(SectionIfPresent(results, h)) == (if h in results then [h] else [])
  {
    if h in results {
      HeadingsOfSection(h, results[h]);
    }
  }

  lemma HeadingsOfParts(top: seq<ModelLine>, s1: seq<ModelLine>, s2: seq<ModelLine>, s3: seq<ModelLine>,
                        s4: seq<ModelLine>, bottom: seq<ModelLine>)
    requires Headings(top) == [] && Headings(bottom) == []
    ensures Headings(top + s1 + s2 + s3 + s4 + bottom) == Headings(s1) + Headings(s2) + Headings(s3) + Headings(s4)
  {
    HeadingsAppend(top, s1);
    HeadingsAppend(top + s1, s2);
    HeadingsAppend(top + s1 + s2, s3);
    HeadingsAppend(top + s1 + s2 + s3, s4);
    HeadingsAppend(top + s1 + s2 + s3 + s4, bottom);
  }

  /**
   * The report has a section exactly for each of H1, H2, H3a and H3b that
   * the results hold, in that order; the multiple regression never gets one.
   */
  lemma ModelReportSections(results: map<Hypothesis, PathResult>)
    requires WellTyped(results)
    ensures Headings(ModelReportLines(results)) == PresentReported(results)
  {
    var top: seq<ModelLine> := [Rule('=', true), Title, Rule('=', false)];
    var bottom: seq<ModelLine> := [Rule('=', true)];
    HeadingsOfPresent(results, H1);
    HeadingsOfPresent(results, H2);
    HeadingsOfPresent(results, H3a);
    HeadingsOfPresent(results, H3b);
    NoHeadings(top);
    NoHeadings(bottom);
    HeadingsOfParts(top, SectionIfPresent(results, H1), SectionIfPresent(results, H2),
                    SectionIfPresent(results, H3a), SectionIfPresent(results, H3b), bottom);
  }

  /** The multiple regression is run but never reported. */
  lemma MultipleRegressionNotReported(results: map<Hypothesis, PathResult>)
    requires WellTyped(results)
    ensures MultipleAchievement !in Headings(ModelReportLines(results))
  {
    ModelReportSections(results);
  }

  /** The path analysis always yields a results map the report accepts. */
  lemma PathResultsWellTyped(scores: Frame, ols: Ols)
    requires Valid(scores) && WellShaped(ols)
    ensures WellTyped(PathResults(scores, ols))
  {
    forall h | h in PathResults(scores, ols)
      ensures h == H1 <==> PathResults(scores, ols)[h].MediationResult?
    {
      PathResultsGated(scores, ols, h);
    }
  }
}
