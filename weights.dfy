/**
 * The dashboard's weight block: five sliders, one per main factor, each on
 * [0, 1] and starting at the default weight; their values are divided by
 * their total when that total is positive, and the result is handed to the
 * scorer as its weight map.
 */
module WeightSliders {
  import opened Wrappers
  import opened Frames
  import opened Registry
  import opened Scoring
  import opened ScoreProperties
  import Stats

  /** The slider map, keyed in the order the sliders are laid out. */
  function SliderWeights(design: real, interaction: real, engagement: real, technical: real, support: real): (w: Weights)
    ensures Keys(w) == MainFactors
  {
    [ ("platform_design_score", design), ("interaction_score", interaction), ("engagement_score", engagement),
      ("technical_score", technical), ("instructor_support_score", support) ]
  }

  /** Every weight lies on the slider range [0, 1]. */
  predicate OnSliderRange(w: Weights)
  {
    forall k :: 0 <= k < |w| ==> 0.0 <= w[k].1 <= 1.0
  }

  predicate NonNegative(w: Weights)
  {
    forall k :: 0 <= k < |w| ==> w[k].1 >= 0.0
  }

  /** Division by the total when the total is positive; otherwise the map as it was. */
  function Normalize(w: Weights): (r: Weights)
    ensures Keys(r) == Keys(w)
    ensures TotalWeight(w) <= 0.0 ==> r == w
  {
    if TotalWeight(w) > 0.0 then ScaleWeights(w, 1.0 / TotalWeight(w)) else w
  }

  /** Scaling every weight by c scales the total by c. */
  lemma {:induction false} TotalWeightScale(w: Weights, c: real)
    ensures TotalWeight(ScaleWeights(w, c)) == c * TotalWeight(w)
  {
    if |w| > 0 {
      var sw := ScaleWeights(w, c);
      assert sw[1..] == ScaleWeights(w[1..], c);
      TotalWeightScale(w[1..], c);
      Stats.Distribute(c, w[0].1, TotalWeight(w[1..]));
    }
  }

  /** A positive total normalises to exactly 1. */
  lemma {:induction false} NormalizeSumsToOne(w: Weights)
    requires TotalWeight(w) > 0.0
    ensures TotalWeight(Normalize(w)) == 1.0
  {
    TotalWeightScale(w, 1.0 / TotalWeight(w));
  }

  /** Two weights scaled by the same factor keep their cross products equal. */
  lemma EntryCross(a: (string, real), b: (string, real), c: real)
    ensures ScaledEntry(a, c).1 * b.1 == ScaledEntry(b, c).1 * a.1
  {
    Stats.Associate(c, a.1, b.1);
    Stats.Associate(c, b.1, a.1);
    Stats.Commute(a.1, b.1);
  }

  /** The factor normalising multiplies each weight by: the reciprocal of a positive total, otherwise 1. */
  function NormalizeFactor(w: Weights): (c: real)
    ensures c > 0.0
  {
    if TotalWeight(w) > 0.0 then 1.0 / TotalWeight(w) else 1.0
  }

  /** Normalising multiplies every weight by the same positive factor. */
  lemma NormalizeScalesUniformly(w: Weights)
    ensures |Normalize(w)| == |w|
    ensures forall k :: 0 <= k < |w| ==> Normalize(w)[k] == ScaledEntry(w[k], NormalizeFactor(w))
  {
    if TotalWeight(w) <= 0.0 {
      assert Normalize(w) == w;
      forall k | 0 <= k < |w|
        ensures w[k] == ScaledEntry(w[k], 1.0)
      {
      }
    }
  }

  /** Normalising keeps the ratio between any two weights. */
  lemma NormalizeKeepsRatios(w: Weights, j: nat, k: nat)
    requires j < |w| && k < |w|
    ensures Normalize(w)[j].1 * w[k].1 == Normalize(w)[k].1 * w[j].1
  {
    NormalizeScalesUniformly(w);
    EntryCross(w[j], w[k], NormalizeFactor(w));
  }

  /** With non-negative weights no single weight exceeds the total. */
  lemma {:induction false} WeightBelowTotal(w: Weights, k: nat)
    requires NonNegative(w) && k < |w|
    ensures 0.0 <= w[k].1 <= TotalWeight(w)
  {
    assert forall j :: 1 <= j < |w| ==> w[j] == w[1..][j - 1];
    if k == 0 {
      TotalWeightNonNegative(w[1..]);
    } else {
      WeightBelowTotal(w[1..], k - 1);
    }
  }

  /** Non-negative weights have a non-negative total. */
  lemma {:induction false} TotalWeightNonNegative(w: Weights)
    requires NonNegative(w)
    ensures TotalWeight(w) >= 0.0
  {
    if |w| > 0 {
      assert forall j :: 1 <= j < |w| ==> w[j] == w[1..][j - 1];
      TotalWeightNonNegative(w[1..]);
    }
  }

  /** The reciprocal of a positive total, as a value the caller can name. */
  lemma Reciprocal(t: real) returns (c: real)
    requires t > 0.0
    ensures c == 1.0 / t && c > 0.0 && c * t == 1.0
  {
    c := 1.0 / t;
  }

  /** A weight between 0 and the total, scaled by the reciprocal of the total, lies on [0, 1]. */
  lemma EntryBound(e: (string, real), c: real, t: real)
    requires 0.0 <= e.1 <= t && c > 0.0 && c * t == 1.0
    ensures 0.0 <= ScaledEntry(e, c).1 <= 1.0
  {
    Stats.ProductBounds(c, e.1, t);
  }

  /** Each weight of a positive non-negative map normalises onto [0, 1]. */
  lemma NormalizedEntryOnRange(w: Weights, k: nat)
    requires NonNegative(w) && TotalWeight(w) > 0.0 && k < |w|
    ensures 0.0 <= Normalize(w)[k].1 <= 1.0
  {
    WeightBelowTotal(w, k);
    var t := TotalWeight(w);
    var c := Reciprocal(t);
    assert Normalize(w)[k] == ScaledEntry(w[k], c);
    EntryBound(w[k], c, t);
  }

  /** Non-negative weights, in particular slider weights, normalise onto [0, 1] with a total of at most 1. */
  lemma {:induction false} NormalizeOnSliderRange(w: Weights)
    requires NonNegative(w)
    ensures OnSliderRange(Normalize(w))
    ensures TotalWeight(Normalize(w)) <= 1.0
  {
    var t := TotalWeight(w);
    TotalWeightNonNegative(w);
    if t > 0.0 {
      NormalizeSumsToOne(w);
      forall k | 0 <= k < |w|
        ensures 0.0 <= Normalize(w)[k].1 <= 1.0
      {
        NormalizedEntryOnRange(w, k);
      }
    } else {
      assert Normalize(w) == w;
      forall k | 0 <= k < |w|
        ensures w[k].1 == 0.0
      {
        WeightBelowTotal(w, k);
      }
    }
  }

  /** The sliders start at the default weights, and those normalise to themselves. */
  lemma {:induction false} DefaultsNormalizeToThemselves()
    ensures SliderWeights(0.2, 0.2, 0.2, 0.2, 0.2) == DefaultWeights()
    ensures Normalize(DefaultWeights()) == DefaultWeights()
  {
    var d := DefaultWeights();
    assert Keys(d) == MainFactors;
    var s := SliderWeights(0.2, 0.2, 0.2, 0.2, 0.2);
    forall k | 0 <= k < 5
      ensures s[k] == d[k]
    {
      assert d[k].0 == Keys(d)[k];
    }
    assert Normalize(d) == ScaleWeights(d, 1.0);
    forall k | 0 <= k < |d|
      ensures ScaleWeights(d, 1.0)[k] == d[k]
    {
    }
  }

  /** The slider map, normalised, names the same score columns as the default weights. */
  lemma {:induction false} NormalizedSlidersFit(df: Frame, w: Weights)
    requires Keys(w) == MainFactors
    ensures WeightsFit(FactorItems, DimensionFactors, df, Normalize(w))
    ensures forall k :: 0 <= k < |Normalize(w)| ==> Normalize(w)[k].0 != "respondent_id"
  {
    var d := DefaultWeights();
    var r := Normalize(w);
    DefaultWeightsFit(df);
    assert Keys(r) == Keys(d);
    forall k | 0 <= k < |r|
      ensures r[k].0 == d[k].0 && r[k].0 != "respondent_id"
    {
      assert r[k].0 == Keys(r)[k] && d[k].0 == Keys(d)[k];
      assert MainFactors[k] != "respondent_id";
    }
  }

  /**
   * Whatever the slider positions, the normalised weights keep every score
   * column of a row on 0..100 when its answers lie on 1..5 and its
   * achievement on 0..100, the overall score included.
   */
  lemma {:induction false} SliderRowOnScale(df: Frame, w: Weights, i: nat)
    requires Keys(w) == MainFactors && OnSliderRange(w)
    requires Valid(df) && Scorable(FactorItems, df) && i < df.height
    requires ItemsOnScale(FactorItems, df, i) && AchievementOnScale(df, i)
    ensures WeightsFit(FactorItems, DimensionFactors, df, Normalize(w))
    ensures forall n ::
      (n in OutputNames(FactorItems, DimensionFactors, "achievement_score" in df.cols) + ["overall_framework_score"]
       && n != "respondent_id" && Cell(SurveyScoreFrame(df, Normalize(w)), n, i).Some?) ==>
      0.0 <= Cell(SurveyScoreFrame(df, Normalize(w)), n, i).value <= 100.0
  {
    var r := Normalize(w);
    NormalizeOnSliderRange(w);
    NormalizedSlidersFit(df, w);
    SurveyRowOnScale(df, r, i);
  }
}
