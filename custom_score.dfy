/**
 * The custom weighted score engine, pure part: weight vectors, the table of
 * named weighting profiles, weight validation, the weighted score of one
 * entity, normalisation, the `-`-joined percentage form used in shareable
 * links, and keyword-based profile suggestion.
 */
module CustomScore {
  import opened Wrappers
  import opened Text
  import opened Schema

  /** One weight per dimension. */
  datatype Weights = Weights(
    performanceReliability: real,
    security: real,
    privacyCompliance: real,
    trustTransparency: real,
    operationalExcellence: real)

  function Component(w: Weights, d: DimensionName): real {
    match d
    case PerformanceReliability => w.performanceReliability
    case Security => w.security
    case PrivacyCompliance => w.privacyCompliance
    case TrustTransparency => w.trustTransparency
    case OperationalExcellence => w.operationalExcellence
  }

  /** The components in canonical order. */
  function Components(w: Weights): (c: seq<real>)
    ensures |c| == |Dimensions|
    ensures forall i :: 0 <= i < |Dimensions| ==> c[i] == Component(w, Dimensions[i])
  {
    [w.performanceReliability, w.security, w.privacyCompliance, w.trustTransparency, w.operationalExcellence]
  }

  /** Sum of the components, added in canonical order. */
  function Sum(w: Weights): real {
    w.performanceReliability + w.security + w.privacyCompliance + w.trustTransparency + w.operationalExcellence
  }

  function Abs(x: real): real {
    if x < 0.0 then -x else x
  }

  /** The sum is accepted when it is at most 0.01 away from 1. */
  predicate SumWithinTolerance(w: Weights) {
    Abs(Sum(w) - 1.0) <= 0.01
  }

  predicate InUnitRange(x: real) {
    0.0 <= x <= 1.0
  }

  // ---------------------------------------------------------------- profiles

  datatype Profile = Profile(name: string, description: string, weights: Weights)

  const BalancedWeights: Weights := Weights(0.2, 0.2, 0.2, 0.2, 0.2)

  /** The predefined profiles, in declaration order. */
  const WeightingProfiles: seq<(string, Profile)> := [
    ("balanced", Profile("Balanced", "Equal weight across all dimensions", BalancedWeights)),
    ("security_first", Profile("Security First", "Prioritize security and privacy above all",
      Weights(0.15, 0.35, 0.30, 0.10, 0.10))),
    ("performance_focused", Profile("Performance Focused", "Optimize for speed and reliability",
      Weights(0.45, 0.15, 0.10, 0.10, 0.20))),
    ("enterprise", Profile("Enterprise", "Balance security, compliance, and operational needs",
      Weights(0.20, 0.25, 0.25, 0.10, 0.20))),
    ("research", Profile("Research", "Focus on transparency and trust",
      Weights(0.20, 0.15, 0.15, 0.35, 0.15))),
    ("healthcare", Profile("Healthcare", "HIPAA compliance and privacy focused",
      Weights(0.15, 0.30, 0.35, 0.10, 0.10))),
    ("financial", Profile("Financial Services", "Security, compliance, and operational excellence",
      Weights(0.15, 0.30, 0.25, 0.10, 0.20))),
    ("startup", Profile("Startup", "Optimize for performance and cost",
      Weights(0.35, 0.15, 0.10, 0.10, 0.30)))
  ]

  predicate IsProfileKey(key: string) {
    exists i :: 0 <= i < |WeightingProfiles| && WeightingProfiles[i].0 == key
  }

  function LookupFrom(key: string, i: nat): (r: Option<Profile>)
    requires i <= |WeightingProfiles|
    ensures r.Some? <==> exists j :: i <= j < |WeightingProfiles| && WeightingProfiles[j].0 == key
    ensures r.Some? ==> exists j :: i <= j < |WeightingProfiles| && WeightingProfiles[j] == (key, r.value)
    decreases |WeightingProfiles| - i
  {
    if i == |WeightingProfiles| then None
    else if WeightingProfiles[i].0 == key then Some(WeightingProfiles[i].1)
    else LookupFrom(key, i + 1)
  }

  /** `WEIGHTING_PROFILES[key]`; `None` for a key that is not in the table. */
  function LookupProfile(key: string): (r: Option<Profile>)
    ensures r.Some? <==> IsProfileKey(key)
    ensures r.Some? ==> exists j :: 0 <= j < |WeightingProfiles| && WeightingProfiles[j] == (key, r.value)
  {
    LookupFrom(key, 0)
  }

  /** The profile keys are pairwise distinct, so each key names exactly one profile. */
  lemma ProfileKeysDistinct()
    ensures forall i, j :: 0 <= i < j < |WeightingProfiles| ==> WeightingProfiles[i].0 != WeightingProfiles[j].0
  {
  }

  // ---------------------------------------------------------------- validation

  /** Outcome of `validateWeights`; the error cases carry what the message reports. */
  datatype WeightCheck =
    | WeightsOk
    | ComponentOutOfRange(dimension: DimensionName, value: real)
    | SumNotOne(sum: real)

  /** Index of the first component, from position `from` on, that lies outside [0, 1]. */
  function FirstOutOfRange(w: Weights, from: nat): (r: Option<nat>)
    requires from <= |Dimensions|
    ensures r.None? ==> forall j :: from <= j < |Dimensions| ==> InUnitRange(Component(w, Dimensions[j]))
    ensures r.Some? ==> from <= r.value < |Dimensions| && !InUnitRange(Component(w, Dimensions[r.value]))
    ensures r.Some? ==> forall j :: from <= j < r.value ==> InUnitRange(Component(w, Dimensions[j]))
    decreases |Dimensions| - from
  {
    if from == |Dimensions| then None
    else if !InUnitRange(Component(w, Dimensions[from])) then Some(from)
    else FirstOutOfRange(w, from + 1)
  }

  /**
   * `validateWeights`: the components are checked in canonical order and the
   * first one outside [0, 1] is reported; only then is the sum checked.
   */
  function ValidateWeights(w: Weights): (r: WeightCheck)
    ensures r.WeightsOk? <==> (forall d :: InUnitRange(Component(w, d))) && SumWithinTolerance(w)
    ensures (exists d :: !InUnitRange(Component(w, d))) ==> r.ComponentOutOfRange?
    ensures r.ComponentOutOfRange? ==>
      r.value == Component(w, r.dimension) && !InUnitRange(r.value) &&
      forall j :: 0 <= j < DimensionIndex(r.dimension) ==> InUnitRange(Component(w, Dimensions[j]))
    ensures r.SumNotOne? ==> r.sum == Sum(w) && !SumWithinTolerance(w)
  {
    match FirstOutOfRange(w, 0)
    case Some(i) => ComponentOutOfRange(Dimensions[i], Component(w, Dimensions[i]))
    case None =>
      assert forall d :: InUnitRange(Component(w, d)) by {
        forall d ensures InUnitRange(Component(w, d)) {
          assert Dimensions[DimensionIndex(d)] == d;
        }
      }
      if !SumWithinTolerance(w) then SumNotOne(Sum(w)) else WeightsOk
  }

  /** Every predefined profile passes weight validation. */
  lemma ProfilesAreValid()
    ensures forall i :: 0 <= i < |WeightingProfiles| ==> ValidateWeights(WeightingProfiles[i].1.weights) == WeightsOk
  {
    forall i | 0 <= i < |WeightingProfiles|
      ensures ValidateWeights(WeightingProfiles[i].1.weights) == WeightsOk
    {
      var w := WeightingProfiles[i].1.weights;
      assert forall d :: InUnitRange(Component(w, d));
      assert SumWithinTolerance(w);
    }
  }

  // ---------------------------------------------------------------- scoring

  /** `Math.round`: the nearest integer, halves rounded up. */
  function Round(x: real): (n: int)
    ensures n as real - 0.5 <= x < n as real + 0.5
  {
    (x + 0.5).Floor
  }

  /** The weighted sum of the five dimensions' overall scores, before rounding. */
  function WeightedSum(tv: TrustVector, w: Weights): real {
    tv.performanceReliability.overallScore * w.performanceReliability
    + tv.security.overallScore * w.security
    + tv.privacyCompliance.overallScore * w.privacyCompliance
    + tv.trustTransparency.overallScore * w.trustTransparency
    + tv.operationalExcellence.overallScore * w.operationalExcellence
  }

  /** The rounded weighted score, for weights already accepted. */
  function WeightedScore(e: Entity, w: Weights): int {
    Round(WeightedSum(e.trustVector, w))
  }

  /** The error `calculateCustomScore` throws, with the sum it reports. */
  datatype ScoreError = WeightsMustSumToOne(sum: real)

  /**
   * `calculateCustomScore`: rejects weights whose sum is more than 0.01 away
   * from 1 (and nothing else: components are not range-checked), otherwise
   * the weighted sum rounded to the nearest integer, halves up.
   */
  function CalculateCustomScore(e: Entity, w: Weights): (r: Result<int, ScoreError>)
    ensures r.Err? <==> !SumWithinTolerance(w)
    ensures r.Err? ==> r.error.sum == Sum(w)
    ensures r.Ok? ==> r.value as real - 0.5 <= WeightedSum(e.trustVector, w) < r.value as real + 0.5
  {
    if !SumWithinTolerance(w) then Err(WeightsMustSumToOne(Sum(w))) else Ok(WeightedScore(e, w))
  }

  predicate ScoresInRange(tv: TrustVector) {
    forall d :: 0.0 <= DimensionOf(tv, d).overallScore <= 100.0
  }

  predicate NonNegative(w: Weights) {
    forall d :: 0.0 <= Component(w, d)
  }

  lemma TermBounds(score: real, weight: real)
    requires 0.0 <= score <= 100.0 && 0.0 <= weight
    ensures 0.0 <= score * weight <= 100.0 * weight
  {
    assert (100.0 - score) * weight >= 0.0;
  }

  lemma FiveTermBounds(a1: real, a2: real, a3: real, a4: real, a5: real,
                       w1: real, w2: real, w3: real, w4: real, w5: real)
    requires 0.0 <= a1 <= 100.0 && 0.0 <= a2 <= 100.0 && 0.0 <= a3 <= 100.0
    requires 0.0 <= a4 <= 100.0 && 0.0 <= a5 <= 100.0
    requires 0.0 <= w1 && 0.0 <= w2 && 0.0 <= w3 && 0.0 <= w4 && 0.0 <= w5
    ensures 0.0 <= a1 * w1 + a2 * w2 + a3 * w3 + a4 * w4 + a5 * w5 <= 100.0 * (w1 + w2 + w3 + w4 + w5)
  {
    TermBounds(a1, w1);
    TermBounds(a2, w2);
    TermBounds(a3, w3);
    TermBounds(a4, w4);
    TermBounds(a5, w5);
    SumOfTermBounds(a1 * w1, a2 * w2, a3 * w3, a4 * w4, a5 * w5, w1, w2, w3, w4, w5);
  }

  lemma SumOfTermBounds(t1: real, t2: real, t3: real, t4: real, t5: real,
                        w1: real, w2: real, w3: real, w4: real, w5: real)
    requires 0.0 <= t1 <= 100.0 * w1 && 0.0 <= t2 <= 100.0 * w2 && 0.0 <= t3 <= 100.0 * w3
    requires 0.0 <= t4 <= 100.0 * w4 && 0.0 <= t5 <= 100.0 * w5
    ensures 0.0 <= t1 + t2 + t3 + t4 + t5 <= 100.0 * (w1 + w2 + w3 + w4 + w5)
  {
  }

  lemma WeightedSumBounds(tv: TrustVector, w: Weights)
    requires ScoresInRange(tv) && NonNegative(w)
    ensures 0.0 <= WeightedSum(tv, w) <= 100.0 * Sum(w)
  {
    assert 0.0 <= DimensionOf(tv, PerformanceReliability).overallScore <= 100.0 && 0.0 <= Component(w, PerformanceReliability);
    assert 0.0 <= DimensionOf(tv, Security).overallScore <= 100.0 && 0.0 <= Component(w, Security);
    assert 0.0 <= DimensionOf(tv, PrivacyCompliance).overallScore <= 100.0 && 0.0 <= Component(w, PrivacyCompliance);
    assert 0.0 <= DimensionOf(tv, TrustTransparency).overallScore <= 100.0 && 0.0 <= Component(w, TrustTransparency);
    assert 0.0 <= DimensionOf(tv, OperationalExcellence).overallScore <= 100.0 && 0.0 <= Component(w, OperationalExcellence);
    FiveTermBounds(
      tv.performanceReliability.overallScore, tv.security.overallScore, tv.privacyCompliance.overallScore,
      tv.trustTransparency.overallScore, tv.operationalExcellence.overallScore,
      w.performanceReliability, w.security, w.privacyCompliance, w.trustTransparency, w.operationalExcellence);
  }

  /** With non-negative weights summing to exactly 1 and scores in [0, 100], the score lies in [0, 100]. */
  lemma CustomScoreInRange(e: Entity, w: Weights)
    requires ScoresInRange(e.trustVector) && NonNegative(w) && Sum(w) == 1.0
    ensures CalculateCustomScore(e, w).Ok?
    ensures 0 <= CalculateCustomScore(e, w).value <= 100
  {
    WeightedSumBounds(e.trustVector, w);
  }

  /** Within the 0.01 tolerance the sum may reach 1.01, so the score is only bounded by 101. */
  lemma CustomScoreWithinTolerance(e: Entity, w: Weights)
    requires ScoresInRange(e.trustVector) && NonNegative(w) && SumWithinTolerance(w)
    ensures CalculateCustomScore(e, w).Ok?
    ensures 0 <= CalculateCustomScore(e, w).value <= 101
  {
    WeightedSumBounds(e.trustVector, w);
  }

  /** The bound 101 is reached: weights that pass validation push a perfect entity to 101. */
  lemma CustomScoreCanExceedHundred(e: Entity)
    requires forall d :: DimensionOf(e.trustVector, d).overallScore == 100.0
    ensures ValidateWeights(Weights(0.205, 0.2, 0.2, 0.2, 0.2)) == WeightsOk
    ensures CalculateCustomScore(e, Weights(0.205, 0.2, 0.2, 0.2, 0.2)) == Ok(101)
  {
    var w := Weights(0.205, 0.2, 0.2, 0.2, 0.2);
    assert forall d :: InUnitRange(Component(w, d));
    assert DimensionOf(e.trustVector, PerformanceReliability).overallScore == 100.0;
    assert DimensionOf(e.trustVector, Security).overallScore == 100.0;
    assert DimensionOf(e.trustVector, PrivacyCompliance).overallScore == 100.0;
    assert DimensionOf(e.trustVector, TrustTransparency).overallScore == 100.0;
    assert DimensionOf(e.trustVector, OperationalExcellence).overallScore == 100.0;
    assert WeightedSum(e.trustVector, w) == 100.5;
  }

  /** Equal weights on overall scores 80, 90, 70, 85 and 75 give 80. */
  lemma BalancedScoreExample(e: Entity)
    requires e.trustVector.performanceReliability.overallScore == 80.0
    requires e.trustVector.security.overallScore == 90.0
    requires e.trustVector.privacyCompliance.overallScore == 70.0
    requires e.trustVector.trustTransparency.overallScore == 85.0
    requires e.trustVector.operationalExcellence.overallScore == 75.0
    ensures CalculateCustomScore(e, BalancedWeights) == Ok(80)
  {
    assert WeightedSum(e.trustVector, BalancedWeights) == 80.0;
  }

  /** Weights summing to 0.95 are refused, and the error reports that sum. */
  lemma ShortWeightsRejected(e: Entity)
    ensures CalculateCustomScore(e, Weights(0.15, 0.2, 0.2, 0.2, 0.2)) == Err(WeightsMustSumToOne(0.95))
  {
  }

  // ---------------------------------------------------------------- normalisation

  /**
   * `normalizeWeights`: a zero sum falls back to the balanced weights;
   * otherwise every component is divided by the sum.
   */
  function NormalizeWeights(w: Weights): (r: Weights)
    ensures Sum(w) == 0.0 ==> r == BalancedWeights
    ensures Sum(w) != 0.0 ==> forall d :: Component(r, d) * Sum(w) == Component(w, d)
    ensures Sum(r) == 1.0
  {
    var s := Sum(w);
    if s == 0.0 then BalancedWeights
    else
      var r := Weights(w.performanceReliability / s, w.security / s, w.privacyCompliance / s,
                       w.trustTransparency / s, w.operationalExcellence / s);
      Quotients(w, s, r);
      r
  }

  /** Dividing every weight by their non-zero sum gives weights summing to 1. */
  lemma Quotients(w: Weights, s: real, r: Weights)
    requires s == Sum(w) && s != 0.0
    requires r == Weights(w.performanceReliability / s, w.security / s, w.privacyCompliance / s,
                          w.trustTransparency / s, w.operationalExcellence / s)
    ensures forall d :: Component(r, d) * s == Component(w, d)
    ensures Sum(r) == 1.0
  {
    DivTimes(w.performanceReliability, s);
    DivTimes(w.security, s);
    DivTimes(w.privacyCompliance, s);
    DivTimes(w.trustTransparency, s);
    DivTimes(w.operationalExcellence, s);
    assert Sum(r) * s == r.performanceReliability * s + r.security * s + r.privacyCompliance * s
      + r.trustTransparency * s + r.operationalExcellence * s;
    assert Sum(r) * s == Sum(w);
    Cancel(Sum(r), s);
  }

  lemma DivTimes(x: real, s: real)
    requires s != 0.0
    ensures (x / s) * s == x
  {
  }

  lemma Cancel(x: real, s: real)
    requires s != 0.0 && x * s == s
    ensures x == 1.0
  {
    assert (x - 1.0) * s == 0.0;
  }

  lemma QuotientInUnitRange(x: real, s: real, q: real)
    requires 0.0 < s && 0.0 <= x <= s && q * s == x
    ensures InUnitRange(q)
  {
  }

  /** Normalising non-negative weights always yields weights that pass validation. */
  lemma NormalizedWeightsAreValid(w: Weights)
    requires NonNegative(w)
    ensures ValidateWeights(NormalizeWeights(w)) == WeightsOk
  {
    var r := NormalizeWeights(w);
    forall d ensures InUnitRange(Component(r, d)) {
      NormalizedComponent(w, d);
    }
    assert SumWithinTolerance(r);
  }

  lemma NormalizedComponent(w: Weights, d: DimensionName)
    requires NonNegative(w)
    ensures InUnitRange(Component(NormalizeWeights(w), d))
  {
    if Sum(w) != 0.0 {
      ComponentWithinSum(w, d);
      QuotientInUnitRange(Component(w, d), Sum(w), Component(NormalizeWeights(w), d));
    }
  }

  /** A non-negative weight is at most the sum of all five. */
  lemma ComponentWithinSum(w: Weights, d: DimensionName)
    requires NonNegative(w)
    ensures 0.0 <= Component(w, d) <= Sum(w)
  {
    assert 0.0 <= Component(w, PerformanceReliability) && 0.0 <= Component(w, Security);
    assert 0.0 <= Component(w, PrivacyCompliance) && 0.0 <= Component(w, TrustTransparency);
    assert 0.0 <= Component(w, OperationalExcellence);
  }

  /** Normalising twice is the same as normalising once. */
  lemma NormalizeIdempotent(w: Weights)
    ensures NormalizeWeights(NormalizeWeights(w)) == NormalizeWeights(w)
  {
    var r := NormalizeWeights(w);
    var r2 := NormalizeWeights(r);
    assert Component(r2, PerformanceReliability) * 1.0 == Component(r, PerformanceReliability);
    assert Component(r2, Security) * 1.0 == Component(r, Security);
    assert Component(r2, PrivacyCompliance) * 1.0 == Component(r, PrivacyCompliance);
    assert Component(r2, TrustTransparency) * 1.0 == Component(r, TrustTransparency);
    assert Component(r2, OperationalExcellence) * 1.0 == Component(r, OperationalExcellence);
  }

  // ---------------------------------------------------------------- shareable string form

  /** The whole percentages `Math.round(w * 100)`, in canonical order. */
  function Percents(w: Weights): (p: seq<int>)
    ensures |p| == 5
  {
    [Round(w.performanceReliability * 100.0), Round(w.security * 100.0),
     Round(w.privacyCompliance * 100.0), Round(w.trustTransparency * 100.0),
     Round(w.operationalExcellence * 100.0)]
  }

  /** Numbers rendered in decimal, one part each. */
  function DecimalParts(p: seq<int>): (parts: seq<string>)
    ensures |parts| == |p|
    ensures forall i :: 0 <= i < |p| ==> parts[i] == IntToString(p[i])
  {
    seq(|p|, i requires 0 <= i < |p| => IntToString(p[i]))
  }

  /** Each weight as a whole percentage, rendered in canonical order. */
  function PercentParts(w: Weights): seq<string> {
    DecimalParts(Percents(w))
  }

  /** `weightsToString`: the percentages joined by `-`, as in `20-20-20-20-20`. */
  function WeightsToString(w: Weights): string {
    Join(PercentParts(w), "-")
  }

  /** A weight that is a whole number of hundredths. */
  predicate WholePercentage(x: real) {
    (x * 100.0).Floor as real == x * 100.0
  }

  predicate WholePercentages(w: Weights) {
    forall d :: WholePercentage(Component(w, d))
  }

  /** `parts.map(Number)`, failing when some part is not a number. */
  function ParseAll(parts: seq<string>): (r: Option<seq<nat>>)
    ensures r.Some? ==> |r.value| == |parts|
    ensures r.Some? ==> forall i :: 0 <= i < |parts| ==> ParseDecimal(parts[i]) == Some(r.value[i])
    ensures r.None? ==> exists i :: 0 <= i < |parts| && ParseDecimal(parts[i]).None?
  {
    if parts == [] then Some([])
    else match (ParseDecimal(parts[0]), ParseAll(parts[1..]))
      case (Some(n), Some(ns)) => Some([n] + ns)
      case (None, _) => None
      case (_, None) => None
  }

  /** `part` reads, as `Number` does, as the hundredths of `x`. */
  predicate SpellsPercent(part: string, x: real) {
    ParseDecimal(part).Some? && ParseDecimal(part).value as real == 100.0 * x
  }

  /** Five parts, in canonical dimension order, each reading as the hundredths of its component. */
  predicate SpellsWeights(parts: seq<string>, w: Weights) {
    |parts| == 5
    && SpellsPercent(parts[0], w.performanceReliability)
    && SpellsPercent(parts[1], w.security)
    && SpellsPercent(parts[2], w.privacyCompliance)
    && SpellsPercent(parts[3], w.trustTransparency)
    && SpellsPercent(parts[4], w.operationalExcellence)
  }

  /** Weights from five whole percentages. */
  function FromPercents(p: seq<nat>): (w: Weights)
    requires |p| == 5
    ensures WholePercentages(w)
  {
    var w := Weights(p[0] as real / 100.0, p[1] as real / 100.0, p[2] as real / 100.0,
                     p[3] as real / 100.0, p[4] as real / 100.0);
    assert WholePercentage(p[0] as real / 100.0) && WholePercentage(p[1] as real / 100.0);
    assert WholePercentage(p[2] as real / 100.0) && WholePercentage(p[3] as real / 100.0);
    assert WholePercentage(p[4] as real / 100.0);
    w
  }

  /**
   * `weightsFromString`: exactly five `-`-separated numeric parts, each
   * divided by 100, and the result must pass `ValidateWeights`; otherwise
   * `None`.
   */
  function WeightsFromString(s: string): (r: Option<Weights>)
    ensures r.Some? ==> SpellsWeights(Split(s, '-'), r.value)
    ensures r.Some? ==> ValidateWeights(r.value) == WeightsOk && WholePercentages(r.value)
  {
    var parts := Split(s, '-');
    if |parts| != 5 then None
    else
      match ParseAll(parts)
      case None => None
      case Some(p) =>
        var w := FromPercents(p);
        if ValidateWeights(w) != WeightsOk then None else Some(w)
  }

  /**
   * Conversely, text whose `-`-separated parts spell valid weights parses to
   * exactly those weights; with the contract of `WeightsFromString` this
   * determines its result for every string.
   */
  lemma WeightsFromStringComplete(s: string, w: Weights)
    requires SpellsWeights(Split(s, '-'), w) && ValidateWeights(w) == WeightsOk
    ensures WeightsFromString(s) == Some(w)
  {
    var parts := Split(s, '-');
    assert forall i :: 0 <= i < |parts| ==> ParseDecimal(parts[i]).Some? by {
      forall i | 0 <= i < |parts| ensures ParseDecimal(parts[i]).Some? {
        assert i == 0 || i == 1 || i == 2 || i == 3 || i == 4;
      }
    }
    var p := ParseAll(parts).value;
    assert FromPercents(p) == w;
  }

  /** The components of valid whole-percentage weights, one by one. */
  lemma ValidWholeComponents(w: Weights)
    requires ValidateWeights(w) == WeightsOk && WholePercentages(w)
    ensures InUnitRange(w.performanceReliability) && WholePercentage(w.performanceReliability)
    ensures InUnitRange(w.security) && WholePercentage(w.security)
    ensures InUnitRange(w.privacyCompliance) && WholePercentage(w.privacyCompliance)
    ensures InUnitRange(w.trustTransparency) && WholePercentage(w.trustTransparency)
    ensures InUnitRange(w.operationalExcellence) && WholePercentage(w.operationalExcellence)
  {
    assert Component(w, PerformanceReliability) == w.performanceReliability;
    assert Component(w, Security) == w.security;
    assert Component(w, PrivacyCompliance) == w.privacyCompliance;
    assert Component(w, TrustTransparency) == w.trustTransparency;
    assert Component(w, OperationalExcellence) == w.operationalExcellence;
  }

  /** Splitting joined digit strings on `-` gives them back. */
  lemma SplitDigitParts(parts: seq<string>)
    requires |parts| >= 1 && forall k :: 0 <= k < |parts| ==> AllDigits(parts[k])
    ensures Split(Join(parts, "-"), '-') == parts
  {
    assert forall k :: 0 <= k < |parts| ==> '-' !in parts[k];
    SplitJoin(parts, '-');
  }

  /** The string form of valid whole-percentage weights splits back into its parts. */
  lemma WholePercentageParts(w: Weights)
    requires ValidateWeights(w) == WeightsOk && WholePercentages(w)
    ensures Split(WeightsToString(w), '-') == PercentParts(w)
  {
    PercentsNonNegative(w);
    SplitDigitParts(PercentParts(w));
  }

  /** Valid whole-percentage weights come back unchanged from their string form. */
  lemma WeightsRoundTripComplete(w: Weights)
    requires ValidateWeights(w) == WeightsOk && WholePercentages(w)
    ensures WeightsFromString(WeightsToString(w)) == Some(w)
  {
    WholePercentageParts(w);
    PercentsNonNegative(w);
    ParseDecimalParts(Percents(w));
    PercentsBack(w);
  }

  lemma PercentsNonNegative(w: Weights)
    requires ValidateWeights(w) == WeightsOk && WholePercentages(w)
    ensures forall i :: 0 <= i < 5 ==> Percents(w)[i] >= 0
  {
    ValidWholeComponents(w);
  }

  /** Parsing the decimal parts of natural numbers gives the numbers back. */
  lemma {:induction false} ParseDecimalParts(p: seq<int>)
    requires forall i :: 0 <= i < |p| ==> p[i] >= 0
    ensures ParseAll(DecimalParts(p)) == Some(p)
  {
    if p != [] {
      ParseDecimalParts(p[1..]);
      assert DecimalParts(p)[1..] == DecimalParts(p[1..]);
      ParseDecimalOfNatToString(p[0]);
      assert [p[0]] + p[1..] == p;
    }
  }

  lemma PercentsBack(w: Weights)
    requires ValidateWeights(w) == WeightsOk && WholePercentages(w)
    requires forall i :: 0 <= i < 5 ==> Percents(w)[i] >= 0
    ensures FromPercents(Percents(w)) == w
  {
    ValidWholeComponents(w);
    PercentBack(w.performanceReliability);
    PercentBack(w.security);
    PercentBack(w.privacyCompliance);
    PercentBack(w.trustTransparency);
    PercentBack(w.operationalExcellence);
  }

  /** A whole percentage is recovered from its rounded hundredths. */
  lemma PercentBack(x: real)
    requires WholePercentage(x)
    ensures Round(x * 100.0) as real / 100.0 == x
  {
    assert Round(x * 100.0) == (x * 100.0).Floor;
  }

  /**
   * The string form round-trips exactly for the weight vectors that pass
   * validation and are whole percentages, and for no others.
   */
  lemma WeightsRoundTrip(w: Weights)
    ensures WeightsFromString(WeightsToString(w)) == Some(w) <==>
            ValidateWeights(w) == WeightsOk && WholePercentages(w)
  {
    if ValidateWeights(w) == WeightsOk && WholePercentages(w) {
      WeightsRoundTripComplete(w);
    }
  }

  /** Every predefined profile survives the trip through its string form. */
  lemma ProfilesRoundTrip()
    ensures forall i :: 0 <= i < |WeightingProfiles| ==>
      WeightsFromString(WeightsToString(WeightingProfiles[i].1.weights)) == Some(WeightingProfiles[i].1.weights)
  {
    ProfilesAreValid();
    ProfilesAreWholePercentages();
    forall i | 0 <= i < |WeightingProfiles|
      ensures WeightsFromString(WeightsToString(WeightingProfiles[i].1.weights)) == Some(WeightingProfiles[i].1.weights)
    {
      WeightsRoundTrip(WeightingProfiles[i].1.weights);
    }
  }

  /** Five whole percentages make whole-percentage weights. */
  lemma HundredthsAreWhole(a: nat, b: nat, c: nat, d: nat, e: nat)
    ensures WholePercentages(Weights(a as real / 100.0, b as real / 100.0, c as real / 100.0,
                                     d as real / 100.0, e as real / 100.0))
  {
    var w := FromPercents([a, b, c, d, e]);
  }

  lemma ProfilesAreWholePercentages()
    ensures forall i :: 0 <= i < |WeightingProfiles| ==> WholePercentages(WeightingProfiles[i].1.weights)
  {
    HundredthsAreWhole(20, 20, 20, 20, 20);
    HundredthsAreWhole(15, 35, 30, 10, 10);
    HundredthsAreWhole(45, 15, 10, 10, 20);
    HundredthsAreWhole(20, 25, 25, 10, 20);
    HundredthsAreWhole(20, 15, 15, 35, 15);
    HundredthsAreWhole(15, 30, 35, 10, 10);
    HundredthsAreWhole(15, 30, 25, 10, 20);
    HundredthsAreWhole(35, 15, 10, 10, 30);
  }

  /** The balanced profile is written `20-20-20-20-20`. */
  lemma BalancedWeightsString()
    ensures WeightsToString(BalancedWeights) == "20-20-20-20-20"
  {
    assert Percents(BalancedWeights) == [20, 20, 20, 20, 20] by {
      assert Round(0.2 * 100.0) == 20;
    }
    assert NatToString(20) == "20";
    assert PercentParts(BalancedWeights) == ["20", "20", "20", "20", "20"];
    JoinFive("20", "-");
    TwentiesLine();
  }

  lemma JoinFive(x: string, sep: string)
    ensures Join([x, x, x, x, x], sep) == x + sep + (x + sep + (x + sep + (x + sep + x)))
  {
    assert [x, x, x, x, x][1..] == [x, x, x, x];
    assert [x, x, x, x][1..] == [x, x, x];
    assert [x, x, x][1..] == [x, x];
    assert [x, x][1..] == [x];
    assert Join([x, x], sep) == x + sep + x;
    assert Join([x, x, x], sep) == x + sep + (x + sep + x);
    assert Join([x, x, x, x], sep) == x + sep + (x + sep + (x + sep + x));
  }

  lemma TwentiesLine()
    ensures "20" + "-" + ("20" + "-" + ("20" + "-" + ("20" + "-" + "20"))) == "20-20-20-20-20"
  {
    assert "20" + "-" + "20" == "20-20";
    assert "20" + "-" + "20-20" == "20-20-20";
    assert "20" + "-" + "20-20-20" == "20-20-20-20";
    assert "20" + "-" + "20-20-20-20" == "20-20-20-20-20";
  }

  /**
   * A weight vector that passes validation need not survive the string form:
   * rounding each weight to a whole percentage can move the sum out of the
   * tolerance, and parsing then yields `None`.
   */
  lemma RoundTripCanFail()
    ensures ValidateWeights(Weights(0.204, 0.204, 0.204, 0.204, 0.184)) == WeightsOk
    ensures WeightsFromString(WeightsToString(Weights(0.204, 0.204, 0.204, 0.204, 0.184))) == None
  {
    var w := Weights(0.204, 0.204, 0.204, 0.204, 0.184);
    assert forall d :: InUnitRange(Component(w, d));
    var p := [20, 20, 20, 20, 18];
    assert Percents(w) == p by {
      assert Round(0.204 * 100.0) == 20;
      assert Round(0.184 * 100.0) == 18;
    }
    var parts := DecimalParts(p);
    SplitDigitParts(parts);
    ParseDecimalParts(p);
    var back := Weights(0.2, 0.2, 0.2, 0.2, 0.18);
    assert FromPercents(p) == back;
    assert !SumWithinTolerance(back);
  }

  /**
   * `generateShareableUrl`: the base, then a `weights` parameter holding the
   * string form and, when ids are given, an `entities` parameter with the
   * ids joined by commas.
   */
  function GenerateShareableUrl(base: string, w: Weights, entityIds: seq<string>): (url: string)
    ensures StartsWith(url, base + "?weights=" + WeightsToString(w))
  {
    base + "?weights=" + WeightsToString(w)
    + (if |entityIds| > 0 then "&entities=" + Join(entityIds, ",") else "")
  }

  /** The `weights` value of a shareable link reads back as the weights it was made from. */
  lemma ShareableUrlCarriesWeights(base: string, w: Weights, entityIds: seq<string>)
    requires ValidateWeights(w) == WeightsOk && WholePercentages(w)
    ensures var url := GenerateShareableUrl(base, w, entityIds);
            var start := |base| + |"?weights="|;
            var v := WeightsToString(w);
            start + |v| <= |url| && url[start..start + |v|] == v &&
            (start + |v| == |url| || url[start + |v|] == '&') &&
            WeightsFromString(v) == Some(w)
  {
    WeightsRoundTrip(w);
    var url := GenerateShareableUrl(base, w, entityIds);
    var v := WeightsToString(w);
    var start := |base| + |"?weights="|;
    assert url[..start + |v|] == base + "?weights=" + v;
    assert url[start..start + |v|] == v;
  }

  // ---------------------------------------------------------------- profile suggestion

  /** A pair of keywords and the profile they select. */
  datatype KeywordRule = KeywordRule(first: string, second: string, profile: string)

  /** The keyword pairs in the order they are tried. */
  const KeywordRules: seq<KeywordRule> := [
    KeywordRule("health", "medical", "healthcare"),
    KeywordRule("financial", "banking", "financial"),
    KeywordRule("security", "secure", "security_first"),
    KeywordRule("research", "academic", "research"),
    KeywordRule("enterprise", "compliance", "enterprise"),
    KeywordRule("startup", "cost", "startup"),
    KeywordRule("performance", "speed", "performance_focused")
  ]

  predicate RuleMatches(text: string, rule: KeywordRule) {
    Contains(text, rule.first) || Contains(text, rule.second)
  }

  function FirstMatchingRule(text: string, from: nat): (r: Option<nat>)
    requires from <= |KeywordRules|
    ensures r.None? ==> forall j :: from <= j < |KeywordRules| ==> !RuleMatches(text, KeywordRules[j])
    ensures r.Some? ==> from <= r.value < |KeywordRules| && RuleMatches(text, KeywordRules[r.value])
    ensures r.Some? ==> forall j :: from <= j < r.value ==> !RuleMatches(text, KeywordRules[j])
    decreases |KeywordRules| - from
  {
    if from == |KeywordRules| then None
    else if RuleMatches(text, KeywordRules[from]) then Some(from)
    else FirstMatchingRule(text, from + 1)
  }

  /**
   * `suggestProfile`: the profile of the first keyword rule whose keywords
   * occur in the lower-cased text, or `balanced` when none does. The answer
   * is always a key of the profile table.
   */
  function SuggestProfile(useCase: string): (key: string)
    ensures IsProfileKey(key)
    ensures var text := ToLowerAscii(useCase);
      || (exists i :: 0 <= i < |KeywordRules| && RuleMatches(text, KeywordRules[i]) &&
            (forall j :: 0 <= j < i ==> !RuleMatches(text, KeywordRules[j])) &&
            key == KeywordRules[i].profile)
      || ((forall j :: 0 <= j < |KeywordRules| ==> !RuleMatches(text, KeywordRules[j])) && key == "balanced")
  {
    var text := ToLowerAscii(useCase);
    match FirstMatchingRule(text, 0)
    case Some(i) =>
      assert IsProfileKey(KeywordRules[i].profile) by {
        assert forall j :: 0 <= j < |KeywordRules| ==> IsProfileKey(KeywordRules[j].profile) by {
          assert WeightingProfiles[5].0 == "healthcare" && WeightingProfiles[6].0 == "financial";
          assert WeightingProfiles[1].0 == "security_first" && WeightingProfiles[4].0 == "research";
          assert WeightingProfiles[3].0 == "enterprise" && WeightingProfiles[7].0 == "startup";
          assert WeightingProfiles[2].0 == "performance_focused";
        }
      }
      KeywordRules[i].profile
    case None =>
      assert WeightingProfiles[0].0 == "balanced";
      "balanced"
  }

  /** A healthcare deployment is matched by the first rule. */
  lemma SuggestHealthcareExample()
    ensures SuggestProfile("HIPAA-compliant healthcare deployment") == "healthcare"
  {
    var t := ToLowerAscii("HIPAA-compliant healthcare deployment");
    HealthInExample();
    assert FirstMatchingRule(t, 0) == Some(0);
  }

  lemma HealthInExample()
    ensures Contains(ToLowerAscii("HIPAA-compliant healthcare deployment"), "health")
  {
    var before, word, after := "HIPAA-compliant ", "health", "care deployment";
    assert before + word + after == "HIPAA-compliant healthcare deployment";
    assert ToLowerAscii(word) == word;
    LowerContainsWord(before, word, after);
  }

  /** A lower-case word inside a text is found in the text's lower-cased form. */
  lemma LowerContainsWord(before: string, word: string, after: string)
    requires ToLowerAscii(word) == word
    ensures Contains(ToLowerAscii(before + word + after), word)
  {
    OccursInMiddle(before, word, after);
    LowerKeepsOccurrence(before + word + after, word, |before|);
    ContainsIsSubstring(ToLowerAscii(before + word + after), word);
  }
}
