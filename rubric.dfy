/**
 * The rubric scorer of the web application: five integer ratings become a
 * quality score out of 100, a stored evaluation record, three insight lines
 * and the data of the report chart.
 */
module Rubric {
  import opened Wrappers

  /** The five rubric ratings, in the order the form lists them. */
  datatype Ratings = Ratings(
    pedagogicalDesign: int,
    uiUx: int,
    engagement: int,
    technicalPerformance: int,
    learningEffectiveness: int)

  /** The ratings as a list, in form order. */
  function Values(r: Ratings): (vs: seq<int>)
    ensures |vs| == 5
  {
    [r.pedagogicalDesign, r.uiUx, r.engagement, r.technicalPerformance, r.learningEffectiveness]
  }

  function Sum(vs: seq<int>): int
  {
    if |vs| == 0 then 0 else Sum(vs[..|vs| - 1]) + vs[|vs| - 1]
  }

  lemma SumOfFive(vs: seq<int>)
    requires |vs| == 5
    ensures Sum(vs) == vs[0] + vs[1] + vs[2] + vs[3] + vs[4]
  {
    assert vs[..4][..3] == vs[..3] && vs[..3][..2] == vs[..2] && vs[..2][..1] == vs[..1] && vs[..1][..0] == [];
    assert Sum(vs[..1]) == vs[0];
    assert Sum(vs[..2]) == vs[0] + vs[1];
    assert Sum(vs[..3]) == vs[0] + vs[1] + vs[2];
    assert Sum(vs[..4]) == vs[0] + vs[1] + vs[2] + vs[3];
  }

  /** Every rating lies on the 1..5 scale the form offers. */
  predicate OnScale(r: Ratings)
  {
    forall i :: 0 <= i < 5 ==> 1 <= Values(r)[i] <= 5
  }

  /**
   * `round(sum / (count * 5) * 100, 2)`: the rating total as a percentage of
   * the best possible total.  The percentage is the whole number four times
   * the total, so the rounding to two places changes nothing.
   */
  function QualityScore(r: Ratings): (q: real)
    ensures q == 4.0 * (Sum(Values(r)) as real)
  {
    var vs := Values(r);
    (Sum(vs) as real) / ((|vs| * 5) as real) * 100.0
  }

  /** Ratings on the scale give a score between 20 and 100. */
  lemma QualityScoreBounds(r: Ratings)
    requires OnScale(r)
    ensures 20.0 <= QualityScore(r) <= 100.0
  {
    var vs := Values(r);
    SumOfFive(vs);
    assert 1 <= vs[0] <= 5 && 1 <= vs[1] <= 5 && 1 <= vs[2] <= 5 && 1 <= vs[3] <= 5 && 1 <= vs[4] <= 5;
  }

  /** The whitespace Python's `str.strip` removes. */
  predicate IsSpace(c: char)
  {
    c in {' ', '\t', '\n', '\r', '\U{000B}', '\U{000C}', '\U{001C}', '\U{001D}',
          '\U{001E}', '\U{001F}', '\U{0085}', '\U{00A0}', '\U{1680}', '\U{2000}', '\U{2001}', '\U{2002}',
          '\U{2003}', '\U{2004}', '\U{2005}', '\U{2006}', '\U{2007}', '\U{2008}', '\U{2009}', '\U{200A}',
          '\U{2028}', '\U{2029}', '\U{202F}', '\U{205F}', '\U{3000}'}
  }

  /** The end of the whitespace run that starts at i. */
  function SpaceRunFrom(s: string, i: nat): (n: nat)
    requires i <= |s|
    ensures i <= n <= |s|
    ensures forall k :: i <= k < n ==> IsSpace(s[k])
    ensures n < |s| ==> !IsSpace(s[n])
    decreases |s| - i
  {
    if i < |s| && IsSpace(s[i]) then SpaceRunFrom(s, i + 1) else i
  }

  /** The start of the whitespace run that ends at j, going no further left than lo. */
  function SpaceRunBefore(s: string, lo: nat, j: nat): (n: nat)
    requires lo <= j <= |s|
    ensures lo <= n <= j
    ensures forall k :: n <= k < j ==> IsSpace(s[k])
    ensures n > lo ==> !IsSpace(s[n - 1])
  {
    if j > lo && IsSpace(s[j - 1]) then SpaceRunBefore(s, lo, j - 1) else j
  }

  /** `str.strip()`: the string without surrounding whitespace. */
  function Strip(s: string): (r: string)
    ensures |r| > 0 ==> !IsSpace(r[0]) && !IsSpace(r[|r| - 1])
    ensures r == "" <==> forall k :: 0 <= k < |s| ==> IsSpace(s[k])
    ensures var lo := SpaceRunFrom(s, 0);
      && lo + |r| <= |s| && r == s[lo..lo + |r|]
      && forall k :: 0 <= k < |s| && !(lo <= k < lo + |r|) ==> IsSpace(s[k])
  {
    var lo := SpaceRunFrom(s, 0);
    var hi := SpaceRunBefore(s, lo, |s|);
    assert lo < |s| ==> lo < hi;
    s[lo..hi]
  }

  /** A string without surrounding whitespace is its own strip. */
  lemma StripTrimmed(s: string)
    requires |s| > 0 ==> !IsSpace(s[0]) && !IsSpace(s[|s| - 1])
    ensures Strip(s) == s
  {
    assert SpaceRunFrom(s, 0) == 0;
    assert SpaceRunBefore(s, 0, |s|) == |s|;
    assert Strip(s) == s[SpaceRunFrom(s, 0)..SpaceRunBefore(s, SpaceRunFrom(s, 0), |s|)];
    assert s[0..|s|] == s;
  }

  /** Stripping twice is stripping once. */
  lemma StripIdempotent(s: string)
    ensures Strip(Strip(s)) == Strip(s)
  {
    StripTrimmed(Strip(s));
  }

  /** `text.strip() or None`: the stripped text, or nothing when it is blank. */
  function OptionalText(s: string): (t: Option<string>)
    ensures t.None? <==> forall k :: 0 <= k < |s| ==> IsSpace(s[k])
    ensures t.Some? ==> t.value == Strip(s) && |t.value| > 0
  {
    var r := Strip(s);
    if r == "" then None else Some(r)
  }

  /** A stored evaluation; the database identifier is not modelled. */
  datatype Evaluation = Evaluation(
    appName: string,
    audience: Option<string>,
    summary: Option<string>,
    ratings: Ratings,
    qualityScore: real,
    createdAt: int)

  /** The record `submit_evaluation` stores; `now` is the clock reading. */
  function NewEvaluation(appName: string, audience: string, summary: string, r: Ratings, now: int): (e: Evaluation)
    ensures e.appName == Strip(appName) && e.ratings == r && e.createdAt == now
    ensures e.audience.None? <==> forall k :: 0 <= k < |audience| ==> IsSpace(audience[k])
    ensures e.summary.None? <==> forall k :: 0 <= k < |summary| ==> IsSpace(summary[k])
    ensures e.qualityScore == 4.0 * (Sum(Values(r)) as real)
  {
    Evaluation(Strip(appName), OptionalText(audience), OptionalText(summary), r, QualityScore(r), now)
  }

  /** Index i holds the first largest value. */
  predicate IsFirstMax(vs: seq<int>, i: int)
  {
    0 <= i < |vs| && (forall j :: 0 <= j < |vs| ==> vs[j] <= vs[i]) && (forall j :: 0 <= j < i ==> vs[j] < vs[i])
  }

  /** Index i holds the first smallest value. */
  predicate IsFirstMin(vs: seq<int>, i: int)
  {
    0 <= i < |vs| && (forall j :: 0 <= j < |vs| ==> vs[i] <= vs[j]) && (forall j :: 0 <= j < i ==> vs[i] < vs[j])
  }

  /** `max(scores, key=scores.get)`: the first key with the largest value. */
  function FirstMax(vs: seq<int>): (i: nat)
    requires |vs| > 0
    ensures IsFirstMax(vs, i)
  {
    if |vs| == 1 then 0
    else
      var t := FirstMax(vs[..|vs| - 1]);
      if vs[|vs| - 1] > vs[t] then |vs| - 1 else t
  }

  /** `min(scores, key=scores.get)`: the first key with the smallest value. */
  function FirstMin(vs: seq<int>): (i: nat)
    requires |vs| > 0
    ensures IsFirstMin(vs, i)
  {
    if |vs| == 1 then 0
    else
      var t := FirstMin(vs[..|vs| - 1]);
      if vs[|vs| - 1] < vs[t] then |vs| - 1 else t
  }

  /** The first maximum is unique, so the selection is determined. */
  lemma FirstMaxUnique(vs: seq<int>, i: int, j: int)
    requires IsFirstMax(vs, i) && IsFirstMax(vs, j)
    ensures i == j
  {
    assert vs[i] == vs[j];
    assert !(i < j) && !(j < i);
  }

  /** The first minimum is unique as well. */
  lemma FirstMinUnique(vs: seq<int>, i: int, j: int)
    requires IsFirstMin(vs, i) && IsFirstMin(vs, j)
    ensures i == j
  {
    assert vs[i] == vs[j];
    assert !(i < j) && !(j < i);
  }

  /** A decimal digit. */
  function DigitChar(d: nat): (c: char)
    requires d < 10
    ensures '0' <= c <= '9' && (c as int) - ('0' as int) == d
  {
    (('0' as int) + d) as char
  }

  /** The decimal spelling of a natural number, without leading zeros. */
  function NatToString(n: nat): (s: string)
    ensures |s| > 0 && forall k :: 0 <= k < |s| ==> '0' <= s[k] <= '9'
    ensures |s| > 1 ==> s[0] != '0'
    decreases n
  {
    if n < 10 then [DigitChar(n)] else NatToString(n / 10) + [DigitChar(n % 10)]
  }

  /** The number a string of decimal digits spells. */
  function DigitsValue(s: string): nat
    requires forall k :: 0 <= k < |s| ==> '0' <= s[k] <= '9'
  {
    if |s| == 0 then 0 else DigitsValue(s[..|s| - 1]) * 10 + ((s[|s| - 1] as int) - ('0' as int))
  }

  /** Reading back the decimal spelling gives the number. */
  lemma {:induction false} NatToStringRoundTrip(n: nat)
    ensures DigitsValue(NatToString(n)) == n
    decreases n
  {
    var s := NatToString(n);
    if n >= 10 {
      NatToStringRoundTrip(n / 10);
      assert s[..|s| - 1] == NatToString(n / 10);
    }
  }

  /** An integer as `str(n)` writes it. */
  function IntToString(n: int): (s: string)
    ensures |s| > 0
    ensures n < 0 <==> s[0] == '-'
  {
    if n < 0 then "-" + NatToString(-n) else NatToString(n)
  }

  /** The rubric names `build_insights` uses, in form order. */
  const InsightLabels: seq<string> := ["Pedagogical Design", "UI & Usability", "Engagement", "Technical", "Learning Impact"]

  /** The three quality tiers of the closing insight. */
  datatype Tier = Excellent | Solid | Foundational

  /** The tier of a quality score: excellent from 80, solid from 60, foundational below. */
  function TierOf(q: real): (t: Tier)
    ensures t == Excellent <==> q >= 80.0
    ensures t == Solid <==> 60.0 <= q < 80.0
    ensures t == Foundational <==> q < 60.0
  {
    if q >= 80.0 then Excellent else if q >= 60.0 then Solid else Foundational
  }

  /** What one insight line says, before it is spelled out. */
  datatype Insight = Praise(name: string, score: int) | Concern(name: string, score: int) | Closing(tier: Tier)

  /** The wording of an insight line. */
  function Render(line: Insight): string
  {
    match line
    case Praise(name, score) =>
      name + " is resonating with learners (score " + IntToString(score)
        + "/5). Consider showcasing successful flows to stakeholders."
    case Concern(name, score) =>
      name + " needs immediate experimentation (score " + IntToString(score)
        + "/5). Co-create improvements with 3 target users this week."
    case Closing(Excellent) => "Overall quality is excellent. Focus on scaling adoption and measuring learning outcomes."
    case Closing(Solid) => "Quality is solid but inconsistent. Prioritize guardrails to lift the weakest dimension."
    case Closing(Foundational) => "Foundational work required. Align team on success metrics and rebuild critical journeys."
  }

  /** The three insights for ratings `vs` under rubric names `names`: best, worst, tier. */
  function InsightPlan(names: seq<string>, vs: seq<int>, q: real): (plan: seq<Insight>)
    requires |names| == |vs| > 0
    ensures |plan| == 3
    ensures forall i :: IsFirstMax(vs, i) ==> plan[0] == Praise(names[i], vs[i])
    ensures forall i :: IsFirstMin(vs, i) ==> plan[1] == Concern(names[i], vs[i])
    ensures plan[2] == Closing(TierOf(q))
  {
    var best := FirstMax(vs);
    var worst := FirstMin(vs);
    assert forall i :: IsFirstMax(vs, i) ==> i == best by {
      forall i | IsFirstMax(vs, i) ensures i == best { FirstMaxUnique(vs, i, best); }
    }
    assert forall i :: IsFirstMin(vs, i) ==> i == worst by {
      forall i | IsFirstMin(vs, i) ensures i == worst { FirstMinUnique(vs, i, worst); }
    }
    [Praise(names[best], vs[best]), Concern(names[worst], vs[worst]), Closing(TierOf(q))]
  }

  /** The insights of a stored evaluation. */
  function EvaluationPlan(e: Evaluation): (plan: seq<Insight>)
    ensures |plan| == 3
    ensures forall i :: IsFirstMax(Values(e.ratings), i) ==> plan[0] == Praise(InsightLabels[i], Values(e.ratings)[i])
    ensures forall i :: IsFirstMin(Values(e.ratings), i) ==> plan[1] == Concern(InsightLabels[i], Values(e.ratings)[i])
    ensures plan[2] == Closing(TierOf(e.qualityScore))
  {
    InsightPlan(InsightLabels, Values(e.ratings), e.qualityScore)
  }

  /** `build_insights`: the three insight lines of an evaluation, spelled out. */
  function BuildInsights(e: Evaluation): seq<string>
  {
    var plan := EvaluationPlan(e);
    [Render(plan[0]), Render(plan[1]), Render(plan[2])]
  }

  /** When every rating is equal, both the best and the worst are Pedagogical Design. */
  lemma InsightsAllEqual(e: Evaluation)
    requires forall i :: 0 <= i < 5 ==> Values(e.ratings)[i] == e.ratings.pedagogicalDesign
    ensures EvaluationPlan(e)[0] == Praise("Pedagogical Design", e.ratings.pedagogicalDesign)
    ensures EvaluationPlan(e)[1] == Concern("Pedagogical Design", e.ratings.pedagogicalDesign)
  {
    assert IsFirstMax(Values(e.ratings), 0) && IsFirstMin(Values(e.ratings), 0);
  }

  /** For a submitted evaluation, the tier follows from the rating total: 20 and up, 15 to 19, below 15. */
  lemma TierByTotal(appName: string, audience: string, summary: string, r: Ratings, now: int)
    ensures var t := EvaluationPlan(NewEvaluation(appName, audience, summary, r, now))[2].tier;
      && (t == Excellent <==> Sum(Values(r)) >= 20)
      && (t == Solid <==> 15 <= Sum(Values(r)) < 20)
      && (t == Foundational <==> Sum(Values(r)) < 15)
  {
  }

  /** The labels of the report chart, in form order. */
  const ChartLabels: seq<string> := ["Pedagogy", "UI/UX", "Engagement", "Technical", "Learning"]

  datatype ChartPayload = ChartPayload(labels: seq<string>, data: seq<int>)

  /** `build_chart_payload`: five labels and the rating of each, in the same order. */
  function BuildChartPayload(e: Evaluation): (p: ChartPayload)
    ensures |p.labels| == |p.data| == 5 && p.labels == ChartLabels
    ensures p.data[0] == e.ratings.pedagogicalDesign && p.data[1] == e.ratings.uiUx
    ensures p.data[2] == e.ratings.engagement && p.data[3] == e.ratings.technicalPerformance
    ensures p.data[4] == e.ratings.learningEffectiveness
  {
    ChartPayload(ChartLabels, Values(e.ratings))
  }

  /** The chart of a submitted evaluation shows the ratings whose total the quality score is four times. */
  lemma ChartMatchesQuality(appName: string, audience: string, summary: string, r: Ratings, now: int)
    ensures var e := NewEvaluation(appName, audience, summary, r, now);
      e.qualityScore == 4.0 * (Sum(BuildChartPayload(e).data) as real)
  {
  }
}
