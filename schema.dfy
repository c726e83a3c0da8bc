/**
 * The evaluation record: evidence, criterion scores, dimension scores, the
 * five-slot trust vector, use-case ratings and the entity itself.
 *
 * Records arrive already shaped: every required field is present with its
 * type. Enumerations (`type`, `confidence`) stay strings so that the
 * validator can reject values outside them; JSON objects whose keys are
 * data (`criteria`, `use_case_ratings`, `metadata`) are sequences of
 * entries in document order.
 */
module Schema {
  import opened Wrappers

  /** The five trust dimensions. */
  datatype DimensionName =
    | PerformanceReliability
    | Security
    | PrivacyCompliance
    | TrustTransparency
    | OperationalExcellence

  /** The canonical order of the dimensions, used for scoring, serialisation and reports. */
  const Dimensions: seq<DimensionName> :=
    [PerformanceReliability, Security, PrivacyCompliance, TrustTransparency, OperationalExcellence]

  /** The JSON key of a dimension. */
  function DimensionKey(d: DimensionName): string {
    match d
    case PerformanceReliability => "performance_reliability"
    case Security => "security"
    case PrivacyCompliance => "privacy_compliance"
    case TrustTransparency => "trust_transparency"
    case OperationalExcellence => "operational_excellence"
  }

  /** Position of a dimension in the canonical order. */
  function DimensionIndex(d: DimensionName): (i: nat)
    ensures i < |Dimensions| && Dimensions[i] == d
  {
    match d
    case PerformanceReliability => 0
    case Security => 1
    case PrivacyCompliance => 2
    case TrustTransparency => 3
    case OperationalExcellence => 4
  }

  datatype Evidence = Evidence(
    source: string,
    url: string,
    date: string,
    value: string,
    notes: Option<string>)

  /** A criterion's `value` may be a string or a number. */
  datatype CriterionValue = TextValue(text: string) | NumberValue(number: real)

  datatype CriterionScore = CriterionScore(
    score: Option<real>,
    value: Option<CriterionValue>,
    confidence: string,
    evidence: seq<Evidence>,
    methodology: string,
    lastVerified: string,
    notes: Option<string>)

  datatype DimensionScore = DimensionScore(
    overallScore: real,
    criteria: seq<(string, CriterionScore)>,
    notes: Option<string>)

  datatype TrustVector = TrustVector(
    performanceReliability: DimensionScore,
    security: DimensionScore,
    privacyCompliance: DimensionScore,
    trustTransparency: DimensionScore,
    operationalExcellence: DimensionScore)

  function DimensionOf(tv: TrustVector, d: DimensionName): DimensionScore {
    match d
    case PerformanceReliability => tv.performanceReliability
    case Security => tv.security
    case PrivacyCompliance => tv.privacyCompliance
    case TrustTransparency => tv.trustTransparency
    case OperationalExcellence => tv.operationalExcellence
  }

  datatype UseCaseRating = UseCaseRating(
    overall: real,
    notes: string,
    alternatives: Option<seq<string>>)

  /** Free-form metadata; the validator accepts any record here. */
  datatype Json =
    | JNull
    | JBool(b: bool)
    | JNumber(n: real)
    | JString(s: string)
    | JArray(items: seq<Json>)
    | JObject(fields: seq<(string, Json)>)

  datatype Entity = Entity(
    id: string,
    kind: string,
    name: string,
    provider: string,
    version: string,
    lastEvaluated: string,
    evaluatedBy: string,
    description: string,
    website: Option<string>,
    trustVector: TrustVector,
    useCaseRatings: seq<(string, UseCaseRating)>,
    strengths: seq<string>,
    limitations: seq<string>,
    bestFor: seq<string>,
    notRecommendedFor: Option<seq<string>>,
    metadata: seq<(string, Json)>,
    relatedEntities: Option<seq<string>>,
    tags: Option<seq<string>>)
}
