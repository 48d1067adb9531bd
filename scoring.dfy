/**
 * The research pipeline's scorer: Likert item means become 0-100 scores,
 * factor scores are row means of their items, dimension scores row means of
 * their factors, and the overall score a plain weighted sum of score columns
 * (no normalisation: the weights are used exactly as supplied).
 */
module Scoring {
  import opened Wrappers
  import opened Frames
  import opened Registry
  import Stats

  /** Why the scorer gives up (Python raises ValueError or KeyError). */
  datatype ScoreError = UnknownFactor(name: string) | MissingColumns(names: seq<string>)

  /** A weight map in iteration order: (score column, weight). */
  type Weights = seq<(string, real)>

  /** Maps a Likert mean on 1..5 to the 0..100 scale. */
  function LikertToScore(m: real): (s: real)
    ensures ScoreToLikert(s) == m
    ensures s == 0.0 <==> m == 1.0
  {
    (m - 1.0) / 4.0 * 100.0
  }

  /** The inverse mapping, from a 0..100 score back to the Likert mean. */
  function ScoreToLikert(s: real): real
  {
    s / 100.0 * 4.0 + 1.0
  }

  lemma LikertToScoreAnchors()
    ensures LikertToScore(1.0) == 0.0 && LikertToScore(2.0) == 25.0 && LikertToScore(3.0) == 50.0
    ensures LikertToScore(4.0) == 75.0 && LikertToScore(5.0) == 100.0
  {
  }

  /** Means in [1, 5] give scores in [0, 100], and a larger mean a strictly larger score. */
  lemma LikertToScoreRange(m1: real, m2: real)
    ensures 1.0 <= m1 <= 5.0 ==> 0.0 <= LikertToScore(m1) <= 100.0
    ensures m1 < m2 <==> LikertToScore(m1) < LikertToScore(m2)
  {
  }

  /** The item list registered for a factor name, or [] (Python `FACTOR_ITEMS.get(name, [])`). */
  function LookupItems(fs: seq<Factor>, name: string): (items: seq<string>)
    ensures (forall k :: 0 <= k < |fs| ==> fs[k].name != name) ==> items == []
  {
    if |fs| == 0 then [] else if fs[0].name == name then fs[0].items else LookupItems(fs[1..], name)
  }

  lemma {:induction false} LookupAt(fs: seq<Factor>, k: nat)
    requires k < |fs| && Distinct(FactorNames(fs))
    ensures LookupItems(fs, fs[k].name) == fs[k].items
  {
    if k > 0 {
      assert FactorNames(fs)[0] != FactorNames(fs)[k];
      assert FactorNames(fs[1..]) == FactorNames(fs)[1..];
      LookupAt(fs[1..], k - 1);
    }
  }

  /** With distinct factor names, every factor's name finds its own items. */
  lemma {:induction false} LookupAll(fs: seq<Factor>)
    requires Distinct(FactorNames(fs))
    ensures forall k :: 0 <= k < |fs| ==> LookupItems(fs, fs[k].name) == fs[k].items
  {
    forall k | 0 <= k < |fs|
      ensures LookupItems(fs, fs[k].name) == fs[k].items
    {
      LookupAt(fs, k);
    }
  }

  /** The score of a factor at row i: the Likert score of the mean of the row's present items. */
  function FactorScoreAt(df: Frame, items: seq<string>, i: nat): (s: Option<real>)
    requires Valid(df) && HasAll(df, items) && i < df.height
    ensures s.None? <==> forall n :: n in items ==> df.cols[n][i].None?
  {
    RowValuesEmpty(df, items, i);
    match RowMean(df, items, i)
    case None => None
    case Some(m) => Some(LikertToScore(m))
  }

  function FactorColumn(df: Frame, items: seq<string>): (c: Column)
    requires Valid(df) && HasAll(df, items)
    ensures |c| == df.height && forall i :: 0 <= i < df.height ==> c[i] == FactorScoreAt(df, items, i)
  {
    seq(df.height, i requires 0 <= i < df.height => FactorScoreAt(df, items, i))
  }

  /**
   * Score of one factor by name, looked up in the registry `fs` (a dictionary,
   * hence distinct names); an unknown name or an empty item list and absent
   * item columns are errors.
   */
  function ComputeFactorScore(fs: seq<Factor>, df: Frame, name: string): (r: Result<Column, ScoreError>)
    requires Valid(df)
    ensures LookupItems(fs, name) == [] <==> r == Failure(UnknownFactor(name))
    ensures r.Success? <==> LookupItems(fs, name) != [] && HasAll(df, LookupItems(fs, name))
    ensures r.Success? ==> r.value == FactorColumn(df, LookupItems(fs, name))
    ensures r.Failure? && LookupItems(fs, name) != [] ==> r.error == MissingColumns(Missing(df, LookupItems(fs, name)))
  {
    var items := LookupItems(fs, name);
    if items == [] then Failure(UnknownFactor(name))
    else if !HasAll(df, items) then Failure(MissingColumns(Missing(df, items)))
    else Success(FactorColumn(df, items))
  }

  /**
   * For a registered factor: an empty item list is reported as unknown, absent
   * item columns are listed, and otherwise the result is the factor's column.
   */
  lemma ComputeFactorScoreAt(fs: seq<Factor>, df: Frame, k: nat)
    requires Valid(df) && Distinct(FactorNames(fs)) && k < |fs|
    ensures fs[k].items == [] ==> ComputeFactorScore(fs, df, fs[k].name) == Failure(UnknownFactor(fs[k].name))
    ensures fs[k].items != [] && !HasAll(df, fs[k].items) ==>
      ComputeFactorScore(fs, df, fs[k].name) == Failure(MissingColumns(Missing(df, fs[k].items)))
    ensures fs[k].items != [] && HasAll(df, fs[k].items) ==>
      ComputeFactorScore(fs, df, fs[k].name) == Success(FactorColumn(df, fs[k].items))
  {
    LookupAt(fs, k);
  }

  /** An unregistered name is reported as an unknown factor. */
  lemma ComputeFactorScoreUnknown(fs: seq<Factor>, df: Frame, name: string)
    requires Valid(df) && name !in FactorNames(fs)
    ensures ComputeFactorScore(fs, df, name) == Failure(UnknownFactor(name))
  {
    assert forall k :: 0 <= k < |fs| ==> FactorNames(fs)[k] == fs[k].name;
  }

  /** When every item of row i holds v, the factor score is the Likert score of v. */
  lemma FactorScoreUniform(df: Frame, items: seq<string>, i: nat, v: real)
    requires Valid(df) && HasAll(df, items) && i < df.height && |items| > 0
    requires forall n :: n in items ==> df.cols[n][i] == Some(v)
    ensures FactorScoreAt(df, items, i) == Some(LikertToScore(v))
  {
    RowValuesConstant(df, items, i, v);
    Stats.MeanConstant(RowValues(df, items, i), v);
  }

  /** Present item values in [1, 5] give a factor score in [0, 100]. */
  lemma FactorScoreBounds(df: Frame, items: seq<string>, i: nat)
    requires Valid(df) && HasAll(df, items) && i < df.height
    requires forall n :: n in items && df.cols[n][i].Some? ==> 1.0 <= df.cols[n][i].value <= 5.0
    ensures FactorScoreAt(df, items, i).Some? ==> 0.0 <= FactorScoreAt(df, items, i).value <= 100.0
  {
    var xs := RowValues(df, items, i);
    if |xs| > 0 {
      RowValuesBounds(df, items, i, 1.0, 5.0);
      Stats.MeanBounds(xs, 1.0, 5.0);
      LikertToScoreRange(Stats.Mean(xs), 0.0);
    }
  }

  /** A two-item factor with one item missing scores the other item alone. */
  lemma FactorScoreOneMissing(df: Frame, a: string, b: string, i: nat)
    requires Valid(df) && a in df.cols && b in df.cols && i < df.height
    requires df.cols[a][i].None? && df.cols[b][i].Some?
    ensures FactorScoreAt(df, [a, b], i) == Some(LikertToScore(df.cols[b][i].value))
  {
    var x := df.cols[b][i].value;
    assert [a, b][1..] == [b] && [b][1..] == [];
    assert RowValues(df, [a, b], i) == [x];
    assert Stats.Sum([x]) == x by {
      assert [x][1..] == [];
    }
    assert Stats.Mean([x]) == x;
  }

  /** A dimension score column: the row mean of the listed factor score columns. */
  function DimensionColumn(f: Frame, factorCols: seq<string>): (c: Column)
    requires Valid(f) && HasAll(f, factorCols)
    ensures |c| == f.height && forall i :: 0 <= i < f.height ==> c[i] == RowMean(f, factorCols, i)
  {
    seq(f.height, i requires 0 <= i < f.height => RowMean(f, factorCols, i))
  }

  /** A dimension column depends only on the factor columns it averages. */
  lemma DimensionColumnFrame(f: Frame, g: Frame, factorCols: seq<string>)
    requires Valid(f) && HasAll(f, factorCols) && Valid(g) && HasAll(g, factorCols) && f.height == g.height
    requires forall n :: n in factorCols ==> f.cols[n] == g.cols[n]
    ensures DimensionColumn(f, factorCols) == DimensionColumn(g, factorCols)
  {
    forall i | 0 <= i < f.height
      ensures RowValues(f, factorCols, i) == RowValues(g, factorCols, i)
    {
      RowValuesFrame(f, g, factorCols, i);
    }
  }

  /** Every weight names a column of the frame. */
  predicate WeightsAvailable(f: Frame, w: Weights)
  {
    forall k :: 0 <= k < |w| ==> w[k].0 in f.cols
  }

  function Keys(w: Weights): (r: seq<string>)
    ensures |r| == |w| && forall k :: 0 <= k < |w| ==> r[k] == w[k].0
  {
    seq(|w|, k requires 0 <= k < |w| => w[k].0)
  }

  function TotalWeight(w: Weights): real
  {
    if |w| == 0 then 0.0 else w[0].1 + TotalWeight(w[1..])
  }

  /** What one weighted cell adds to the sum: weight times value, or undefined for a missing cell. */
  function Contribution(weight: real, cell: Option<real>): (t: Option<real>)
    ensures t.Some? == cell.Some?
  {
    if cell.Some? then Some(weight * cell.value) else None
  }

  /**
   * Sum over the weights of weight times the matching cell; undefined if any
   * weighted cell is missing (pandas propagates NaN); 0 for no weights.
   */
  function WeightedSum(w: Weights, cells: seq<Option<real>>): (s: Option<real>)
    requires |cells| == |w|
    ensures s.Some? <==> forall k :: 0 <= k < |cells| ==> cells[k].Some?
  {
    if |w| == 0 then Some(0.0)
    else
      assert forall k :: 1 <= k < |cells| ==> cells[k] == cells[1..][k - 1];
      var term := Contribution(w[0].1, cells[0]);
      var rest := WeightedSum(w[1..], cells[1..]);
      if term.Some? && rest.Some? then Some(term.value + rest.value) else None
  }

  /** The weighted cells of row i. */
  function WeightedCells(f: Frame, w: Weights, i: nat): (cells: seq<Option<real>>)
    requires Valid(f) && WeightsAvailable(f, w) && i < f.height
    ensures |cells| == |w| && forall k :: 0 <= k < |w| ==> cells[k] == f.cols[w[k].0][i]
  {
    seq(|w|, k requires 0 <= k < |w| => f.cols[w[k].0][i])
  }

  /** The overall score of row i. */
  function WeightedSumAt(f: Frame, w: Weights, i: nat): (s: Option<real>)
    requires Valid(f) && WeightsAvailable(f, w) && i < f.height
    ensures s.Some? <==> forall k :: 0 <= k < |w| ==> f.cols[w[k].0][i].Some?
  {
    WeightedSum(w, WeightedCells(f, w, i))
  }

  /** The overall-score column: the weighted sum at every row. */
  function Overall(f: Frame, w: Weights): (c: Column)
    requires Valid(f) && WeightsAvailable(f, w)
    ensures |c| == f.height && forall i :: 0 <= i < f.height ==> c[i] == WeightedSumAt(f, w, i)
  {
    seq(f.height, i requires 0 <= i < f.height => WeightedSumAt(f, w, i))
  }

  /** The overall column depends only on the weighted columns. */
  lemma OverallFrame(f: Frame, g: Frame, w: Weights)
    requires Valid(f) && WeightsAvailable(f, w) && Valid(g) && WeightsAvailable(g, w) && f.height == g.height
    requires forall k :: 0 <= k < |w| ==> f.cols[w[k].0] == g.cols[w[k].0]
    ensures Overall(f, w) == Overall(g, w)
  {
    forall i | 0 <= i < f.height
      ensures WeightedSumAt(f, w, i) == WeightedSumAt(g, w, i)
    {
      assert WeightedCells(f, w, i) == WeightedCells(g, w, i);
    }
  }

  /** When every weighted cell holds v, the weighted sum is v times the total weight. */
  lemma {:induction false} WeightedSumUniform(w: Weights, cells: seq<Option<real>>, v: real)
    requires |cells| == |w|
    requires forall k :: 0 <= k < |cells| ==> cells[k] == Some(v)
    ensures WeightedSum(w, cells).Some? && WeightedSum(w, cells).value == v * TotalWeight(w)
  {
    if |w| > 0 {
      assert forall k :: 1 <= k < |cells| ==> cells[k] == cells[1..][k - 1];
      WeightedSumUniform(w[1..], cells[1..], v);
      var a := w[0].1;
      assert cells[0] == Some(v);
      Stats.Commute(a, v);
      Stats.Distribute(v, a, TotalWeight(w[1..]));
    }
  }

  /** Non-negative weights over cells in [0, hi] give a weighted sum in [0, hi times the total weight]. */
  lemma {:induction false} WeightedSumBounds(w: Weights, cells: seq<Option<real>>, hi: real)
    requires |cells| == |w|
    requires forall k :: 0 <= k < |w| ==> w[k].1 >= 0.0
    requires forall k :: 0 <= k < |cells| && cells[k].Some? ==> 0.0 <= cells[k].value <= hi
    ensures WeightedSum(w, cells).Some? ==> 0.0 <= WeightedSum(w, cells).value <= hi * TotalWeight(w)
  {
    if |w| > 0 {
      assert forall k :: 1 <= k < |w| ==> w[k] == w[1..][k - 1];
      assert forall k :: 1 <= k < |cells| ==> cells[k] == cells[1..][k - 1];
      WeightedSumBounds(w[1..], cells[1..], hi);
      if cells[0].Some? && WeightedSum(w[1..], cells[1..]).Some? {
        Stats.ProductBounds(w[0].1, cells[0].value, hi);
        Stats.Distribute(hi, w[0].1, TotalWeight(w[1..]));
      }
    }
  }

  function ScaledEntry(e: (string, real), c: real): (string, real)
  {
    (e.0, c * e.1)
  }

  /** Multiplying every weight by c. */
  function ScaleWeights(w: Weights, c: real): (r: Weights)
    ensures |r| == |w| && forall k :: 0 <= k < |w| ==> r[k] == ScaledEntry(w[k], c)
  {
    seq(|w|, k requires 0 <= k < |w| => ScaledEntry(w[k], c))
  }

  /** The sum is linear in the weights: this is what makes the unnormalised sum scale with the weight total. */
  lemma {:induction false} WeightedSumScale(w: Weights, cells: seq<Option<real>>, c: real)
    requires |cells| == |w|
    ensures WeightedSum(ScaleWeights(w, c), cells).Some? == WeightedSum(w, cells).Some?
    ensures WeightedSum(w, cells).Some? ==> WeightedSum(ScaleWeights(w, c), cells).value == c * WeightedSum(w, cells).value
  {
    if |w| > 0 {
      var sw := ScaleWeights(w, c);
      assert sw[1..] == ScaleWeights(w[1..], c);
      WeightedSumScale(w[1..], cells[1..], c);
      if cells[0].Some? && WeightedSum(w[1..], cells[1..]).Some? {
        var a := w[0].1;
        var x := cells[0].value;
        var rest := WeightedSum(w[1..], cells[1..]).value;
        Stats.Associate(c, a, x);
        Stats.Distribute(c, a * x, rest);
        assert WeightedSum(sw, cells).value == (c * a) * x + c * rest;
      }
    }
  }

  lemma {:induction false} TotalWeightConstant(w: Weights, c: real)
    requires forall k :: 0 <= k < |w| ==> w[k].1 == c
    ensures TotalWeight(w) == (|w| as real) * c
  {
    if |w| > 0 {
      assert forall k :: 1 <= k < |w| ==> w[k] == w[1..][k - 1];
      TotalWeightConstant(w[1..], c);
    }
  }

  /** The default weighted columns: four dimensions and instructor support. */
  const MainFactors: seq<string> := [
    "platform_design_score", "interaction_score", "engagement_score", "technical_score", "instructor_support_score"
  ]

  /** Equal weights 1/5 on the main factors (`get_default_weights`, and the default inside the scorer). */
  function DefaultWeights(): (w: Weights)
    ensures Keys(w) == MainFactors
    ensures forall k :: 0 <= k < |w| ==> w[k].1 == 1.0 / 5.0
    ensures TotalWeight(w) == 1.0
  {
    var w := seq(|MainFactors|, k requires 0 <= k < |MainFactors| => (MainFactors[k], 1.0 / (|MainFactors| as real)));
    TotalWeightConstant(w, 1.0 / 5.0);
    w
  }

  function EffectiveWeights(weights: Option<Weights>): Weights
  {
    if weights.None? then DefaultWeights() else weights.value
  }

  /** The identifier column followed by one score column per factor. */
  function FactorPrefix(fs: seq<Factor>): seq<string>
  {
    ["respondent_id"] + ScoreNames(FactorNames(fs))
  }

  /** The columns the scorer creates before the overall score, in order. */
  function OutputNames(fs: seq<Factor>, ds: seq<Dimension>, hasAchievement: bool): seq<string>
  {
    FactorPrefix(fs) + (if hasAchievement then ["achievement_score"] else []) + ScoreNames(DimensionNames(ds))
  }

  /**
   * The shape of the registry the scorer relies on: distinct factor names with
   * non-empty item lists, distinct output column names, and dimensions built
   * from registered factors.
   */
  ghost predicate WellFormedRegistry(fs: seq<Factor>, ds: seq<Dimension>)
  {
    && Distinct(FactorNames(fs))
    && (forall k :: 0 <= k < |fs| ==> |fs[k].items| > 0)
    && Distinct(OutputNames(fs, ds, true) + ["overall_framework_score"])
    && Distinct(OutputNames(fs, ds, false) + ["overall_framework_score"])
    && (forall k, n :: 0 <= k < |ds| && n in ds[k].factors ==> n in FactorNames(fs))
  }

  /** The input the scorer can work with: an identifier column and every factor's items. */
  predicate Scorable(fs: seq<Factor>, df: Frame)
  {
    && "respondent_id" in df.cols
    && forall k :: 0 <= k < |fs| ==> HasAll(df, fs[k].items)
  }

  /** Every weight key is a score column that exists when the overall sum is taken. */
  predicate WeightsFit(fs: seq<Factor>, ds: seq<Dimension>, df: Frame, w: Weights)
  {
    forall k :: 0 <= k < |w| ==> w[k].0 in OutputNames(fs, ds, "achievement_score" in df.cols)
  }

  /** The output names are distinct, and none of them is the overall score's. */
  lemma OutputNamesFresh(fs: seq<Factor>, ds: seq<Dimension>, hasAchievement: bool)
    requires WellFormedRegistry(fs, ds)
    ensures Distinct(OutputNames(fs, ds, hasAchievement))
    ensures "overall_framework_score" !in OutputNames(fs, ds, hasAchievement)
  {
    var names := OutputNames(fs, ds, hasAchievement);
    DistinctConcat(names, ["overall_framework_score"]);
    if "overall_framework_score" in names {
      DistinctApart(names, ["overall_framework_score"], "overall_framework_score");
    }
  }

  /** Without an achievement column the output names are still distinct. */
  lemma RegistryShortOutputNames()
    ensures Distinct(OutputNames(FactorItems, DimensionFactors, false) + ["overall_framework_score"])
  {
    RegistryOutputNames();
    ScoreColumnNamesDistinct();
    var order := ScoreColumnOrder;
    var short := OutputNames(FactorItems, DimensionFactors, false) + ["overall_framework_score"];
    forall i, j | 0 <= i < j < |short|
      ensures short[i] != short[j]
    {
      var i' := if i < 11 then i else i + 1;
      var j' := if j < 11 then j else j + 1;
      assert short[i] == order[i'] && short[j] == order[j'];
    }
  }

  /** Every dimension of the survey registry averages registered factors. */
  lemma RegistryDimensionsRegistered()
    ensures forall k, n :: 0 <= k < |DimensionFactors| && n in DimensionFactors[k].factors ==> n in FactorNames(FactorItems)
  {
    var fnames := FactorNames(FactorItems);
    assert DimensionFactors[0].factors == [fnames[0], fnames[1]];
    assert DimensionFactors[1].factors == [fnames[2], fnames[3]];
    assert DimensionFactors[2].factors == [fnames[4], fnames[5]];
    assert DimensionFactors[3].factors == [fnames[6], fnames[7]];
  }

  /** The survey registry satisfies the shape the scorer relies on. */
  lemma RegistryWellFormed()
    ensures WellFormedRegistry(FactorItems, DimensionFactors)
  {
    FactorNamesDistinct();
    RegistryOutputNames();
    ScoreColumnNamesDistinct();
    RegistryShortOutputNames();
    RegistryDimensionsRegistered();
  }

  /**
   * For the survey registry the output columns are, in order, those of
   * `ScoreColumnOrder`; without an achievement column that one is skipped.
   */
  lemma RegistryOutputNames()
    ensures OutputNames(FactorItems, DimensionFactors, true) + ["overall_framework_score"] == ScoreColumnOrder
    ensures forall k :: 0 <= k < 16 ==>
      (OutputNames(FactorItems, DimensionFactors, false) + ["overall_framework_score"])[k]
        == ScoreColumnOrder[if k < 11 then k else k + 1]
  {
    ScoreColumnOrderSpelledOut();
    var order := ScoreColumnOrder;
    var fsn := ScoreNames(FactorNames(FactorItems));
    var dsn := ScoreNames(DimensionNames(DimensionFactors));
    assert forall k :: 0 <= k < 10 ==> fsn[k] == order[1 + k];
    assert forall k :: 0 <= k < 4 ==> dsn[k] == order[12 + k];
    var full := OutputNames(FactorItems, DimensionFactors, true) + ["overall_framework_score"];
    assert full == ["respondent_id"] + fsn + ["achievement_score"] + dsn + ["overall_framework_score"];
    assert forall k :: 0 <= k < 17 ==> full[k] == order[k];
    var short := OutputNames(FactorItems, DimensionFactors, false) + ["overall_framework_score"];
    assert short == ["respondent_id"] + fsn + dsn + ["overall_framework_score"];
  }

  /** The identifier column alone, the frame the scorer starts from. */
  function IdFrame(df: Frame): (res: Frame)
    requires Valid(df) && "respondent_id" in df.cols
    ensures Valid(res) && res.height == df.height && res.names == ["respondent_id"]
    ensures Get(res, "respondent_id") == df.cols["respondent_id"]
  {
    Frame(["respondent_id"], map["respondent_id" := df.cols["respondent_id"]], df.height)
  }

  /**
   * Each factor's score column, or [] for a factor whose items are not all
   * present (the scorer stops there, so such an entry is never used).
   */
  function FactorColumns(fs: seq<Factor>, df: Frame): (cs: seq<Column>)
    requires Valid(df)
    ensures |cs| == |fs|
    ensures forall j :: 0 <= j < |fs| && HasAll(df, fs[j].items) ==>
      cs[j] == FactorColumn(df, fs[j].items) && |cs[j]| == df.height
  {
    seq(|fs|, j requires 0 <= j < |fs| => if HasAll(df, fs[j].items) then FactorColumn(df, fs[j].items) else [])
  }

  /** The frame the factor loop builds: the identifier, then each factor's score column. */
  function FactorFrame(fs: seq<Factor>, df: Frame): Frame
    requires Valid(df) && Scorable(fs, df)
  {
    AppendAll(IdFrame(df), ScoreNames(FactorNames(fs)), FactorColumns(fs, df), |fs|)
  }

  /** The factor frame holds the identifier and every factor score, in registry order. */
  lemma FactorFrameStage(fs: seq<Factor>, df: Frame)
    requires Valid(df) && Scorable(fs, df) && Distinct(FactorPrefix(fs))
    ensures FactorStage(fs, df, FactorFrame(fs, df))
  {
    var base := IdFrame(df);
    var names := ScoreNames(FactorNames(fs));
    var cs := FactorColumns(fs, df);
    var res := FactorFrame(fs, df);
    assert base.names + names == FactorPrefix(fs);
    FreshNames(base, names);
    AppendAllValid(base, names, cs, |fs|);
    AppendAllNames(base, names, cs, |fs|);
    assert names[..|fs|] == names;
    AppendAllKeeps(base, names, cs, |fs|, "respondent_id");
    forall k | 0 <= k < |fs|
      ensures Get(res, ScoreName(fs[k].name)) == FactorColumn(df, fs[k].items)
    {
      AppendAllGet(base, names, cs, |fs|, k);
    }
  }

  /** The result frame after the factor loop: the identifier and one score column per factor. */
  ghost predicate FactorStage(fs: seq<Factor>, df: Frame, res: Frame)
    requires Valid(df) && Scorable(fs, df)
  {
    && Valid(res) && res.height == df.height
    && res.names == FactorPrefix(fs)
    && Get(res, "respondent_id") == df.cols["respondent_id"]
    && forall j :: 0 <= j < |fs| ==> Get(res, ScoreName(fs[j].name)) == FactorColumn(df, fs[j].items)
  }

  /** One step of the factor loop appends the k-th factor's score column. */
  lemma FactorFrameStep(fs: seq<Factor>, df: Frame, k: nat)
    requires Valid(df) && "respondent_id" in df.cols && k < |fs|
    requires forall j :: 0 <= j <= k ==> HasAll(df, fs[j].items)
    ensures forall j :: 0 <= j <= k ==> |FactorColumns(fs, df)[j]| == df.height
    ensures AppendAll(IdFrame(df), ScoreNames(FactorNames(fs)), FactorColumns(fs, df), k + 1)
      == WithColumn(AppendAll(IdFrame(df), ScoreNames(FactorNames(fs)), FactorColumns(fs, df), k),
                    ScoreName(fs[k].name), FactorColumn(df, fs[k].items))
  {
  }

  /** The factor loop: the identifier column followed by one score column per factor, in registry order. */
  method AddFactorScores(fs: seq<Factor>, df: Frame) returns (r: Result<Frame, ScoreError>)
    requires Valid(df) && "respondent_id" in df.cols
    requires Distinct(FactorNames(fs))
    requires forall k :: 0 <= k < |fs| ==> |fs[k].items| > 0
    ensures r.Success? <==> Scorable(fs, df)
    ensures r.Success? ==> Scorable(fs, df) && r.value == FactorFrame(fs, df)
    ensures r.Failure? ==> r.error.MissingColumns?
  {
    var base := IdFrame(df);
    var names := ScoreNames(FactorNames(fs));
    ghost var cs := FactorColumns(fs, df);
    var res := base;
    var k := 0;
    while k < |fs|
      invariant 0 <= k <= |fs|
      invariant forall j :: 0 <= j < k ==> HasAll(df, fs[j].items)
      invariant res == AppendAll(base, names, cs, k)
    {
      var s := ComputeFactorScore(fs, df, fs[k].name);
      assert && (s.Failure? <==> !HasAll(df, fs[k].items))
             && (s.Failure? ==> s.error.MissingColumns?)
             && (s.Success? ==> s.value == FactorColumn(df, fs[k].items))
      by {
        ComputeFactorScoreAt(fs, df, k);
      }
      if s.Failure? {
        assert !Scorable(fs, df);
        return Failure(s.error);
      }
      FactorFrameStep(fs, df, k);
      res := WithColumn(res, names[k], s.value);
      k := k + 1;
    }
    r := Success(res);
  }

  /** Each dimension's score column computed on `res`. */
  function DimensionColumns(ds: seq<Dimension>, res: Frame): (cs: seq<Column>)
    requires Valid(res)
    requires forall j :: 0 <= j < |ds| ==> HasAll(res, ScoreNames(ds[j].factors))
    ensures |cs| == |ds|
    ensures forall j :: 0 <= j < |ds| ==> cs[j] == DimensionColumn(res, ScoreNames(ds[j].factors)) && |cs[j]| == res.height
  {
    seq(|ds|, j requires 0 <= j < |ds| => DimensionColumn(res, ScoreNames(ds[j].factors)))
  }

  /**
   * The k-th dimension's inputs are untouched by the dimension columns
   * appended before it, so its column computed on the growing frame is its
   * column computed on `res`.
   */
  lemma DimensionStep(ds: seq<Dimension>, res: Frame, k: nat)
    requires Valid(res) && k < |ds|
    requires forall j :: 0 <= j < |ds| ==> HasAll(res, ScoreNames(ds[j].factors))
    requires Distinct(res.names + ScoreNames(DimensionNames(ds)))
    ensures Valid(AppendAll(res, ScoreNames(DimensionNames(ds)), DimensionColumns(ds, res), k))
    ensures HasAll(AppendAll(res, ScoreNames(DimensionNames(ds)), DimensionColumns(ds, res), k), ScoreNames(ds[k].factors))
    ensures DimensionColumn(AppendAll(res, ScoreNames(DimensionNames(ds)), DimensionColumns(ds, res), k), ScoreNames(ds[k].factors))
      == DimensionColumns(ds, res)[k]
  {
    var names := ScoreNames(DimensionNames(ds));
    var cs := DimensionColumns(ds, res);
    var out := AppendAll(res, names, cs, k);
    var factorCols := ScoreNames(ds[k].factors);
    AppendAllValid(res, names, cs, k);
    forall n | n in factorCols
      ensures n in out.cols && out.cols[n] == res.cols[n]
    {
      DistinctApart(res.names, names, n);
      AppendAllKeeps(res, names, cs, k, n);
    }
    DimensionColumnFrame(out, res, factorCols);
  }

  /**
   * The dimension loop: one column per dimension, each the row mean of its
   * factor score columns, appended after the existing columns.
   */
  method AddDimensionScores(ds: seq<Dimension>, res: Frame) returns (out: Frame)
    requires Valid(res)
    requires forall k :: 0 <= k < |ds| ==> HasAll(res, ScoreNames(ds[k].factors))
    requires Distinct(res.names + ScoreNames(DimensionNames(ds)))
    ensures out == AppendAll(res, ScoreNames(DimensionNames(ds)), DimensionColumns(ds, res), |ds|)
  {
    var names := ScoreNames(DimensionNames(ds));
    ghost var cs := DimensionColumns(ds, res);
    out := res;
    var k := 0;
    while k < |ds|
      invariant 0 <= k <= |ds|
      invariant out == AppendAll(res, names, cs, k)
    {
      DimensionStep(ds, res, k);
      var col := DimensionColumn(out, ScoreNames(ds[k].factors));
      out := WithColumn(out, names[k], col);
      k := k + 1;
    }
  }

  /** The achievement column is copied through when the survey has one. */
  function WithAchievement(df: Frame, res: Frame): (out: Frame)
    requires Valid(df) && res.height == df.height
  {
    if "achievement_score" in df.cols then WithColumn(res, "achievement_score", df.cols["achievement_score"])
    else res
  }

  /** The achievement column's name, when the survey has one. */
  function AchievementNames(df: Frame): seq<string>
  {
    if "achievement_score" in df.cols then ["achievement_score"] else []
  }

  /** The frame the dimension loop starts from: factor scores and the copied achievement column. */
  function ScoredBase(fs: seq<Factor>, df: Frame): Frame
    requires Valid(df) && Scorable(fs, df)
  {
    WithAchievement(df, FactorFrame(fs, df))
  }

  /** The names and shape of the frame the dimension loop starts from. */
  lemma BaseShape(fs: seq<Factor>, ds: seq<Dimension>, df: Frame)
    requires Valid(df) && Scorable(fs, df) && WellFormedRegistry(fs, ds)
    ensures Valid(ScoredBase(fs, df)) && ScoredBase(fs, df).height == df.height
    ensures ScoredBase(fs, df).names == FactorPrefix(fs) + AchievementNames(df)
    ensures Distinct(ScoredBase(fs, df).names + ScoreNames(DimensionNames(ds)))
    ensures Distinct(FactorPrefix(fs))
  {
    var prefix := FactorPrefix(fs);
    var ach := AchievementNames(df);
    var dnames := ScoreNames(DimensionNames(ds));
    assert OutputNames(fs, ds, "achievement_score" in df.cols) == prefix + ach + dnames;
    DistinctConcat(prefix + ach + dnames, ["overall_framework_score"]);
    DistinctConcat(prefix + ach, dnames);
    DistinctConcat(prefix, ach);
    FactorFrameStage(fs, df);
    if ach != [] {
      assert "achievement_score" !in FactorFrame(fs, df).names by {
        DistinctApart(ach, prefix, "achievement_score");
      }
    }
  }

  /** The frame the dimension loop starts from keeps the identifier column. */
  lemma BaseId(fs: seq<Factor>, ds: seq<Dimension>, df: Frame)
    requires Valid(df) && Scorable(fs, df) && WellFormedRegistry(fs, ds)
    ensures Get(ScoredBase(fs, df), "respondent_id") == df.cols["respondent_id"]
  {
    BaseShape(fs, ds, df);
    FactorFrameStage(fs, df);
  }

  /** The frame the dimension loop starts from holds every factor score column. */
  lemma BaseFactors(fs: seq<Factor>, ds: seq<Dimension>, df: Frame, k: nat)
    requires Valid(df) && Scorable(fs, df) && WellFormedRegistry(fs, ds) && k < |fs|
    ensures Get(ScoredBase(fs, df), ScoreName(fs[k].name)) == FactorColumn(df, fs[k].items)
  {
    var names := ScoreNames(FactorNames(fs));
    var ff := FactorFrame(fs, df);
    assert Get(ff, names[k]) == FactorColumn(df, fs[k].items) by {
      BaseShape(fs, ds, df);
      DistinctConcat(["respondent_id"], names);
      AppendAllGet(IdFrame(df), names, FactorColumns(fs, df), |fs|, k);
    }
    if "achievement_score" in df.cols {
      assert names[k] != "achievement_score" by {
        BaseShape(fs, ds, df);
        var base := ScoredBase(fs, df);
        assert base.names[1 + k] == names[k];
        assert base.names[|FactorPrefix(fs)|] == "achievement_score";
      }
    }
  }

  /** The frame the dimension loop starts from holds the copied achievement column. */
  lemma BaseAchievement(fs: seq<Factor>, df: Frame)
    requires Valid(df) && Scorable(fs, df) && "achievement_score" in df.cols
    ensures Get(ScoredBase(fs, df), "achievement_score") == df.cols["achievement_score"]
  {
  }

  /** The frame the dimension loop starts from has a score column for every factor. */
  lemma BaseHasFactor(fs: seq<Factor>, ds: seq<Dimension>, df: Frame, m: nat)
    requires Valid(df) && Scorable(fs, df) && WellFormedRegistry(fs, ds) && m < |fs|
    ensures ScoreName(fs[m].name) in ScoredBase(fs, df).cols
  {
    BaseShape(fs, ds, df);
    assert ScoredBase(fs, df).names[1 + m] == ScoreName(fs[m].name);
  }

  /** Every dimension's factor score columns are present when the dimension loop starts. */
  lemma BaseInputs(fs: seq<Factor>, ds: seq<Dimension>, df: Frame)
    requires Valid(df) && Scorable(fs, df) && WellFormedRegistry(fs, ds)
    ensures forall k :: 0 <= k < |ds| ==> HasAll(ScoredBase(fs, df), ScoreNames(ds[k].factors))
  {
    var base := ScoredBase(fs, df);
    forall k, n | 0 <= k < |ds| && n in ScoreNames(ds[k].factors)
      ensures n in base.cols
    {
      var j :| 0 <= j < |ds[k].factors| && n == ScoreName(ds[k].factors[j]);
      assert ds[k].factors[j] in FactorNames(fs);
      var m :| 0 <= m < |fs| && FactorNames(fs)[m] == ds[k].factors[j];
      BaseHasFactor(fs, ds, df, m);
    }
  }

  /** The frame after the dimension loop. */
  function WithDimensions(fs: seq<Factor>, ds: seq<Dimension>, df: Frame): Frame
    requires Valid(df) && Scorable(fs, df) && WellFormedRegistry(fs, ds)
  {
    var base := ScoredBase(fs, df);
    BaseShape(fs, ds, df);
    BaseInputs(fs, ds, df);
    AppendAll(base, ScoreNames(DimensionNames(ds)), DimensionColumns(ds, base), |ds|)
  }

  /** After the dimension loop the columns are the output columns but the overall score. */
  lemma DimsShape(fs: seq<Factor>, ds: seq<Dimension>, df: Frame)
    requires Valid(df) && Scorable(fs, df) && WellFormedRegistry(fs, ds)
    ensures Valid(WithDimensions(fs, ds, df)) && WithDimensions(fs, ds, df).height == df.height
    ensures WithDimensions(fs, ds, df).names == OutputNames(fs, ds, "achievement_score" in df.cols)
  {
    var base := ScoredBase(fs, df);
    var dnames := ScoreNames(DimensionNames(ds));
    assert && Valid(base) && base.height == df.height
           && base.names == FactorPrefix(fs) + AchievementNames(df)
           && Distinct(base.names + dnames)
    by {
      BaseShape(fs, ds, df);
    }
    BaseInputs(fs, ds, df);
    var cs := DimensionColumns(ds, base);
    FreshNames(base, dnames);
    AppendAllValid(base, dnames, cs, |ds|);
    AppendAllNames(base, dnames, cs, |ds|);
    assert dnames[..|ds|] == dnames;
  }

  /** The dimension loop leaves the columns it started with alone. */
  lemma DimsKeeps(fs: seq<Factor>, ds: seq<Dimension>, df: Frame, n: string)
    requires Valid(df) && Scorable(fs, df) && WellFormedRegistry(fs, ds)
    requires n in ScoredBase(fs, df).cols
    ensures Get(WithDimensions(fs, ds, df), n) == ScoredBase(fs, df).cols[n]
  {
    var base := ScoredBase(fs, df);
    var dnames := ScoreNames(DimensionNames(ds));
    BaseShape(fs, ds, df);
    BaseInputs(fs, ds, df);
    DistinctApart(base.names, dnames, n);
    AppendAllKeeps(base, dnames, DimensionColumns(ds, base), |ds|, n);
  }

  /** After the dimension loop, dimension k's column is the row mean of its factor columns. */
  lemma DimsGet(fs: seq<Factor>, ds: seq<Dimension>, df: Frame, k: nat)
    requires Valid(df) && Scorable(fs, df) && WellFormedRegistry(fs, ds) && k < |ds|
    ensures Valid(ScoredBase(fs, df)) && HasAll(ScoredBase(fs, df), ScoreNames(ds[k].factors))
    ensures Get(WithDimensions(fs, ds, df), ScoreName(ds[k].name)) == DimensionColumn(ScoredBase(fs, df), ScoreNames(ds[k].factors))
  {
    var base := ScoredBase(fs, df);
    var dnames := ScoreNames(DimensionNames(ds));
    BaseShape(fs, ds, df);
    BaseInputs(fs, ds, df);
    DistinctConcat(base.names, dnames);
    AppendAllGet(base, dnames, DimensionColumns(ds, base), |ds|, k);
  }

  /** Every weight key is a column once the dimension loop is done. */
  lemma DimsWeights(fs: seq<Factor>, ds: seq<Dimension>, df: Frame, w: Weights)
    requires Valid(df) && Scorable(fs, df) && WellFormedRegistry(fs, ds)
    ensures WeightsAvailable(WithDimensions(fs, ds, df), w) <==> WeightsFit(fs, ds, df, w)
  {
    DimsShape(fs, ds, df);
  }

  /** The complete score table: the dimension-loop frame plus the weighted overall score. */
  function ScoreFrame(fs: seq<Factor>, ds: seq<Dimension>, df: Frame, w: Weights): Frame
    requires Valid(df) && Scorable(fs, df) && WellFormedRegistry(fs, ds) && WeightsFit(fs, ds, df, w)
  {
    var wd := WithDimensions(fs, ds, df);
    DimsShape(fs, ds, df);
    DimsWeights(fs, ds, df, w);
    WithColumn(wd, "overall_framework_score", Overall(wd, w))
  }

  /** The overall column goes last and leaves every other column alone. */
  lemma ScoreFrameShape(fs: seq<Factor>, ds: seq<Dimension>, df: Frame, w: Weights)
    requires Valid(df) && Scorable(fs, df) && WellFormedRegistry(fs, ds) && WeightsFit(fs, ds, df, w)
    ensures Valid(ScoreFrame(fs, ds, df, w)) && ScoreFrame(fs, ds, df, w).height == df.height
    ensures ScoreFrame(fs, ds, df, w).names == OutputNames(fs, ds, "achievement_score" in df.cols) + ["overall_framework_score"]
    ensures forall n :: n in WithDimensions(fs, ds, df).cols ==>
      n in ScoreFrame(fs, ds, df, w).cols && ScoreFrame(fs, ds, df, w).cols[n] == WithDimensions(fs, ds, df).cols[n]
    ensures WeightsAvailable(WithDimensions(fs, ds, df), w)
  {
    DimsShape(fs, ds, df);
    DimsWeights(fs, ds, df, w);
    OutputNamesFresh(fs, ds, "achievement_score" in df.cols);
  }

  /** A column of the frame the dimension loop starts from survives into the score table. */
  lemma FinalKeeps(fs: seq<Factor>, ds: seq<Dimension>, df: Frame, w: Weights, n: string)
    requires Valid(df) && Scorable(fs, df) && WellFormedRegistry(fs, ds) && WeightsFit(fs, ds, df, w)
    requires n in ScoredBase(fs, df).names
    ensures n in ScoredBase(fs, df).cols
    ensures Get(ScoreFrame(fs, ds, df, w), n) == ScoredBase(fs, df).cols[n]
  {
    BaseShape(fs, ds, df);
    DimsKeeps(fs, ds, df, n);
    ScoreFrameShape(fs, ds, df, w);
  }

  /** The score table's dimension columns are row means of its own factor score columns. */
  lemma ScoreFrameDimension(fs: seq<Factor>, ds: seq<Dimension>, df: Frame, w: Weights, k: nat)
    requires Valid(df) && Scorable(fs, df) && WellFormedRegistry(fs, ds) && WeightsFit(fs, ds, df, w)
    requires k < |ds|
    ensures Valid(ScoreFrame(fs, ds, df, w)) && HasAll(ScoreFrame(fs, ds, df, w), ScoreNames(ds[k].factors))
    ensures Get(ScoreFrame(fs, ds, df, w), ScoreName(ds[k].name))
      == DimensionColumn(ScoreFrame(fs, ds, df, w), ScoreNames(ds[k].factors))
  {
    var base := ScoredBase(fs, df);
    var wd := WithDimensions(fs, ds, df);
    var r := ScoreFrame(fs, ds, df, w);
    var factorCols := ScoreNames(ds[k].factors);
    BaseShape(fs, ds, df);
    DimsShape(fs, ds, df);
    DimsGet(fs, ds, df, k);
    ScoreFrameShape(fs, ds, df, w);
    assert ScoreName(ds[k].name) in wd.names by {
      OutputNamesAt(fs, ds, "achievement_score" in df.cols, k);
    }
    forall n | n in factorCols
      ensures n in r.cols && base.cols[n] == r.cols[n]
    {
      DimsKeeps(fs, ds, df, n);
    }
    DimensionColumnFrame(base, r, factorCols);
  }

  /** The score table's overall column is the weighted sum of its own score columns. */
  lemma ScoreFrameOverall(fs: seq<Factor>, ds: seq<Dimension>, df: Frame, w: Weights)
    requires Valid(df) && Scorable(fs, df) && WellFormedRegistry(fs, ds) && WeightsFit(fs, ds, df, w)
    ensures Valid(ScoreFrame(fs, ds, df, w)) && WeightsAvailable(ScoreFrame(fs, ds, df, w), w)
    ensures Get(ScoreFrame(fs, ds, df, w), "overall_framework_score") == Overall(ScoreFrame(fs, ds, df, w), w)
  {
    var wd := WithDimensions(fs, ds, df);
    var r := ScoreFrame(fs, ds, df, w);
    DimsShape(fs, ds, df);
    ScoreFrameShape(fs, ds, df, w);
    OverallFrame(wd, r, w);
  }

  /** The dimension score names sit after the factor prefix and the optional achievement column. */
  lemma OutputNamesAt(fs: seq<Factor>, ds: seq<Dimension>, hasAchievement: bool, k: nat)
    requires k < |ds|
    ensures ScoreName(ds[k].name) in OutputNames(fs, ds, hasAchievement)
  {
    var head := FactorPrefix(fs) + (if hasAchievement then ["achievement_score"] else []);
    var dnames := ScoreNames(DimensionNames(ds));
    assert OutputNames(fs, ds, hasAchievement) == head + dnames;
    assert (head + dnames)[|head| + k] == dnames[k] == ScoreName(ds[k].name);
  }

  /** The score table keeps the identifier column. */
  lemma ScoreFrameId(fs: seq<Factor>, ds: seq<Dimension>, df: Frame, w: Weights)
    requires Valid(df) && Scorable(fs, df) && WellFormedRegistry(fs, ds) && WeightsFit(fs, ds, df, w)
    ensures Get(ScoreFrame(fs, ds, df, w), "respondent_id") == df.cols["respondent_id"]
  {
    BaseShape(fs, ds, df);
    FinalKeeps(fs, ds, df, w, "respondent_id");
    BaseId(fs, ds, df);
  }

  /** Factor k's score column holds the factor's score on every row. */
  lemma ScoreFrameFactor(fs: seq<Factor>, ds: seq<Dimension>, df: Frame, w: Weights, k: nat)
    requires Valid(df) && Scorable(fs, df) && WellFormedRegistry(fs, ds) && WeightsFit(fs, ds, df, w)
    requires k < |fs|
    ensures Get(ScoreFrame(fs, ds, df, w), ScoreName(fs[k].name)) == FactorColumn(df, fs[k].items)
  {
    var base := ScoredBase(fs, df);
    BaseShape(fs, ds, df);
    assert base.names[1 + k] == FactorPrefix(fs)[1 + k] == ScoreName(fs[k].name);
    FinalKeeps(fs, ds, df, w, ScoreName(fs[k].name));
    BaseFactors(fs, ds, df, k);
  }

  /** An achievement column of the survey is copied into the score table unchanged. */
  lemma ScoreFrameAchievement(fs: seq<Factor>, ds: seq<Dimension>, df: Frame, w: Weights)
    requires Valid(df) && Scorable(fs, df) && WellFormedRegistry(fs, ds) && WeightsFit(fs, ds, df, w)
    requires "achievement_score" in df.cols
    ensures Get(ScoreFrame(fs, ds, df, w), "achievement_score") == df.cols["achievement_score"]
  {
    var base := ScoredBase(fs, df);
    BaseShape(fs, ds, df);
    assert base.names[|FactorPrefix(fs)|] == "achievement_score";
    FinalKeeps(fs, ds, df, w, "achievement_score");
    BaseAchievement(fs, df);
  }

  /** The scorer for any well-formed registry; `ComputeAllScores` is this at the survey registry. */
  method ScoreWith(fs: seq<Factor>, ds: seq<Dimension>, df: Frame, weights: Option<Weights>) returns (r: Result<Frame, ScoreError>)
    requires Valid(df) && WellFormedRegistry(fs, ds)
    ensures r.Success? <==> Scorable(fs, df) && WeightsFit(fs, ds, df, EffectiveWeights(weights))
    ensures r.Success? ==> r.value == ScoreFrame(fs, ds, df, EffectiveWeights(weights))
    ensures r.Failure? ==> r.error.MissingColumns?
  {
    if "respondent_id" !in df.cols {
      return Failure(MissingColumns(["respondent_id"]));
    }
    var factors := AddFactorScores(fs, df);
    if factors.Failure? {
      return factors;
    }
    var res := factors.value;
    if "achievement_score" in df.cols {
      res := WithColumn(res, "achievement_score", df.cols["achievement_score"]);
    }
    assert res == ScoredBase(fs, df);
    BaseShape(fs, ds, df);
    BaseInputs(fs, ds, df);
    var withDims := AddDimensionScores(ds, res);
    var w := EffectiveWeights(weights);
    DimsShape(fs, ds, df);
    DimsWeights(fs, ds, df, w);
    if !WeightsAvailable(withDims, w) {
      return Failure(MissingColumns(Missing(withDims, Keys(w))));
    }
    var final := WithColumn(withDims, "overall_framework_score", Overall(withDims, w));
    r := Success(final);
  }

  /** The score table over the survey registry. */
  function SurveyScoreFrame(df: Frame, w: Weights): Frame
    requires Valid(df) && Scorable(FactorItems, df) && WeightsFit(FactorItems, DimensionFactors, df, w)
  {
    RegistryWellFormed();
    ScoreFrame(FactorItems, DimensionFactors, df, w)
  }

  /**
   * compute_all_scores over the survey registry: copy the identifier, add one
   * score column per factor, pass achievement through, add one column per
   * dimension, then the weighted overall sum.  It fails exactly when a
   * needed column is absent.
   */
  method ComputeAllScores(df: Frame, weights: Option<Weights>) returns (r: Result<Frame, ScoreError>)
    requires Valid(df)
    ensures r.Success? <==> Scorable(FactorItems, df) && WeightsFit(FactorItems, DimensionFactors, df, EffectiveWeights(weights))
    ensures r.Success? ==> r.value == SurveyScoreFrame(df, EffectiveWeights(weights))
    ensures r.Failure? ==> r.error.MissingColumns?
  {
    RegistryWellFormed();
    r := ScoreWith(FactorItems, DimensionFactors, df, weights);
  }
}
