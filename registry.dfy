/**
 * The fixed survey registry: which Likert items make up each factor, which
 * factors make up each dimension, and the column contract of a survey table.
 * Both scoring paths (the research pipeline and the web analytics service)
 * use the same registry; it is declared once here.
 */
module Registry {
  import opened Frames

  datatype Factor = Factor(name: string, items: seq<string>)

  datatype Dimension = Dimension(name: string, factors: seq<string>)

  /** Factors in declaration order, each with its one or two item columns. */
  const FactorItems: seq<Factor> := [
    Factor("content_quality", ["content_quality_q1", "content_quality_q2"]),
    Factor("ui_usability", ["ui_usability_q1", "ui_usability_q2"]),
    Factor("teacher_student_interaction", ["teacher_student_q1", "teacher_student_q2"]),
    Factor("peer_interaction", ["peer_q1", "peer_q2"]),
    Factor("motivation", ["motivation_q1", "motivation_q2"]),
    Factor("autonomy", ["autonomy_q1", "autonomy_q2"]),
    Factor("accessibility", ["accessibility_q1"]),
    Factor("reliability", ["reliability_q1"]),
    Factor("instructor_support", ["instructor_support_q1", "instructor_support_q2"]),
    Factor("satisfaction", ["satisfaction_q1", "satisfaction_q2"])
  ]

  /** Second-level dimensions, each the mean of two factors. */
  const DimensionFactors: seq<Dimension> := [
    Dimension("platform_design", ["content_quality", "ui_usability"]),
    Dimension("interaction", ["teacher_student_interaction", "peer_interaction"]),
    Dimension("engagement", ["motivation", "autonomy"]),
    Dimension("technical", ["accessibility", "reliability"])
  ]

  const RequiredColumns: seq<string> := ["respondent_id", "timestamp"]

  const LikertColumns: seq<string> := [
    "content_quality_q1", "content_quality_q2",
    "ui_usability_q1", "ui_usability_q2",
    "teacher_student_q1", "teacher_student_q2",
    "peer_q1", "peer_q2",
    "motivation_q1", "motivation_q2",
    "autonomy_q1", "autonomy_q2",
    "accessibility_q1", "reliability_q1",
    "instructor_support_q1", "instructor_support_q2",
    "satisfaction_q1", "satisfaction_q2"
  ]

  const NumericColumns: seq<string> := ["achievement_score"]

  /** The column that holds a factor's or a dimension's score. */
  function ScoreName(n: string): string
  {
    n + "_score"
  }

  function ScoreNames(ns: seq<string>): (r: seq<string>)
    ensures |r| == |ns| && forall k :: 0 <= k < |ns| ==> r[k] == ScoreName(ns[k])
  {
    seq(|ns|, k requires 0 <= k < |ns| => ScoreName(ns[k]))
  }

  function FactorNames(fs: seq<Factor>): (r: seq<string>)
    ensures |r| == |fs| && forall k :: 0 <= k < |fs| ==> r[k] == fs[k].name
  {
    seq(|fs|, k requires 0 <= k < |fs| => fs[k].name)
  }

  function DimensionNames(ds: seq<Dimension>): (r: seq<string>)
    ensures |r| == |ds| && forall k :: 0 <= k < |ds| ==> r[k] == ds[k].name
  {
    seq(|ds|, k requires 0 <= k < |ds| => ds[k].name)
  }

  /** Every item column of every factor is one of the Likert columns. */
  lemma FactorItemsAreLikert()
    ensures forall k, i :: 0 <= k < |FactorItems| && 0 <= i < |FactorItems[k].items| ==> FactorItems[k].items[i] in LikertColumns
  {
  }

  /** The single-item factors: accessibility and reliability. */
  lemma SingleItemFactors()
    ensures forall k :: 0 <= k < |FactorItems| ==>
      (|FactorItems[k].items| < 2 <==> FactorItems[k].name in ["accessibility", "reliability"])
  {
  }

  /** A cheap witness that two non-empty names differ: their lengths, first or last characters. */
  predicate Differ(a: string, b: string)
  {
    |a| != |b| || (0 < |a| && 0 < |b| && (a[0] != b[0] || a[|a| - 1] != b[|b| - 1]))
  }

  lemma DistinctByDiffer(s: seq<string>)
    requires forall i, j :: 0 <= i < j < |s| ==> Differ(s[i], s[j])
    ensures Distinct(s)
  {
  }

  /** The score columns of the research scorer, in the order it creates them. */
  const ScoreColumnOrder: seq<string> := [
    "respondent_id",
    "content_quality_score", "ui_usability_score", "teacher_student_interaction_score",
    "peer_interaction_score", "motivation_score", "autonomy_score", "accessibility_score",
    "reliability_score", "instructor_support_score", "satisfaction_score",
    "achievement_score",
    "platform_design_score", "interaction_score", "engagement_score", "technical_score",
    "overall_framework_score"
  ]

  lemma ScoreColumnOrderSpelledOut()
    ensures forall k :: 0 <= k < |FactorItems| ==> ScoreName(FactorItems[k].name) == ScoreColumnOrder[1 + k]
    ensures forall k :: 0 <= k < |DimensionFactors| ==> ScoreName(DimensionFactors[k].name) == ScoreColumnOrder[12 + k]
  {
    assert ScoreName("content_quality") == "content_quality_score";
    assert ScoreName("ui_usability") == "ui_usability_score";
    assert ScoreName("teacher_student_interaction") == "teacher_student_interaction_score";
    assert ScoreName("peer_interaction") == "peer_interaction_score";
    assert ScoreName("motivation") == "motivation_score";
    assert ScoreName("autonomy") == "autonomy_score";
    assert ScoreName("accessibility") == "accessibility_score";
    assert ScoreName("reliability") == "reliability_score";
    assert ScoreName("instructor_support") == "instructor_support_score";
    assert ScoreName("satisfaction") == "satisfaction_score";
    assert ScoreName("platform_design") == "platform_design_score";
    assert ScoreName("interaction") == "interaction_score";
    assert ScoreName("engagement") == "engagement_score";
    assert ScoreName("technical") == "technical_score";
  }

  /** Every score column the research scorer creates is distinct from all the others. */
  lemma ScoreColumnNamesDistinct()
    ensures Distinct(ScoreColumnOrder)
  {
    DistinctByDiffer(ScoreColumnOrder);
  }

  lemma FactorNamesDistinct()
    ensures Distinct(FactorNames(FactorItems))
  {
    DistinctByDiffer(FactorNames(FactorItems));
  }

  /** The identifier and timestamp columns are neither Likert nor numeric columns. */
  lemma RequiredColumnsUnmeasured()
    ensures forall n :: n in RequiredColumns ==> n !in LikertColumns && n !in NumericColumns
  {
    assert forall n :: n in LikertColumns + NumericColumns ==> Differ(n, "respondent_id") && Differ(n, "timestamp");
  }
}
