/**
 * The structural schema of an evaluation record, as the validator's zod
 * schemas declare it: which fields are checked, in which order, with which
 * bound and message. Each `...Issues` function lists the issues the schema
 * reports for a value, in the order the parser meets them; each `...Ok`
 * predicate states the same constraints declaratively, and every issue
 * function is empty exactly when its predicate holds.
 */
module Structure {
  import opened Wrappers
  import opened Text
  import opened Schema

  // ---------------------------------------------------------------- issues

  /** What an issue says: the schema's own text where it gives one, otherwise the parser's stock message. */
  datatype Message =
    | Custom(text: string)
    | StringTooShort(minimum: nat)
    | StringTooLong(maximum: nat)
    | NumberTooSmall(lowest: int)
    | NumberTooBig(highest: int)
    | ArrayTooShort(minimum: nat)
    | ArrayTooLong(maximum: nat)
    | RegexMismatch
    | InvalidUrl
    | InvalidEnum(options: seq<string>, received: string)
    | NotAnObject(received: string)

  /** One structural issue: where it is (object keys and list positions) and what it says. */
  datatype Issue = Issue(path: seq<string>, message: Message)

  function Quoted(s: string): string {
    "'" + s + "'"
  }

  function QuotedAll(options: seq<string>): (r: seq<string>)
    ensures |r| == |options|
  {
    if options == [] then [] else [Quoted(options[0])] + QuotedAll(options[1..])
  }

  /** The English text of a message. */
  function MessageText(m: Message): string {
    match m
    case Custom(text) => text
    case StringTooShort(n) => "String must contain at least " + NatToString(n) + " character(s)"
    case StringTooLong(n) => "String must contain at most " + NatToString(n) + " character(s)"
    case NumberTooSmall(n) => "Number must be greater than or equal to " + IntToString(n)
    case NumberTooBig(n) => "Number must be less than or equal to " + IntToString(n)
    case ArrayTooShort(n) => "Array must contain at least " + NatToString(n) + " element(s)"
    case ArrayTooLong(n) => "Array must contain at most " + NatToString(n) + " element(s)"
    case RegexMismatch => "Invalid"
    case InvalidUrl => "Invalid url"
    case InvalidEnum(options, received) =>
      "Invalid enum value. Expected " + Join(QuotedAll(options), " | ") + ", received " + Quoted(received)
    case NotAnObject(received) => "Expected object, received " + received
  }

  /** An error line: the path joined with dots, a colon, the message. */
  function IssueText(issue: Issue): (t: string)
    ensures StartsWith(t, Join(issue.path, "."))
  {
    var p := Join(issue.path, ".");
    assert (p + ": " + MessageText(issue.message))[..|p|] == p;
    p + ": " + MessageText(issue.message)
  }

  /** Every issue in `issues` lies at or below `path`. */
  ghost predicate AllUnder(issues: seq<Issue>, path: seq<string>) {
    forall i :: 0 <= i < |issues| ==> path <= issues[i].path
  }

  lemma AllUnderConcat(a: seq<Issue>, b: seq<Issue>, path: seq<string>)
    requires AllUnder(a, path) && AllUnder(b, path)
    ensures AllUnder(a + b, path)
  {
    forall i | 0 <= i < |a + b| ensures path <= (a + b)[i].path {
      if i >= |a| {
        assert (a + b)[i] == b[i - |a|];
      }
    }
  }

  lemma AllUnderParent(issues: seq<Issue>, path: seq<string>, key: string)
    requires AllUnder(issues, path + [key])
    ensures AllUnder(issues, path)
  {
    forall i | 0 <= i < |issues| ensures path <= issues[i].path {
      assert path <= path + [key];
    }
  }

  /** A single check: no issue when it holds, one issue at `path` otherwise. */
  function Check(holds: bool, path: seq<string>, m: Message): (r: seq<Issue>)
    ensures r == [] <==> holds
    ensures AllUnder(r, path)
  {
    if holds then [] else [Issue(path, m)]
  }

  // ---------------------------------------------------------------- string shapes

  /** The shape `^\d{4}-\d{2}-\d{2}$`: digits and dashes only, no calendar check. */
  predicate IsIsoDateShape(s: string) {
    && |s| == 10
    && s[4] == '-' && s[7] == '-'
    && forall i :: 0 <= i < 10 && i != 4 && i != 7 ==> IsDigit(s[i])
  }

  predicate IsKebabChar(c: char) {
    ('a' <= c <= 'z') || IsDigit(c) || c == '-'
  }

  /** The shape `^[a-z0-9-]+$`. */
  predicate IsKebabId(s: string) {
    |s| >= 1 && forall i :: 0 <= i < |s| ==> IsKebabChar(s[i])
  }

  predicate IsAsciiLetter(c: char) {
    ('a' <= c <= 'z') || ('A' <= c <= 'Z')
  }

  predicate IsSchemeChar(c: char) {
    IsAsciiLetter(c) || IsDigit(c) || c == '+' || c == '-' || c == '.'
  }

  /**
   * A URL, approximated by its scheme: a letter, then letters, digits,
   * `+`, `-` or `.`, then a colon with something after it.
   */
  predicate IsUrl(s: string) {
    exists k :: 1 <= k < |s| - 1 && s[k] == ':' && IsAsciiLetter(s[0]) &&
      forall j :: 1 <= j < k ==> IsSchemeChar(s[j])
  }

  /** The shape check accepts strings that are no calendar date. */
  lemma DateShapeOnly()
    ensures IsIsoDateShape("2024-13-45")
    ensures !IsIsoDateShape("2024-1-05") && !IsIsoDateShape("2024/01/05")
  {
  }

  // ---------------------------------------------------------------- evidence

  predicate EvidenceOk(ev: Evidence) {
    |ev.source| >= 1 && IsUrl(ev.url) && IsIsoDateShape(ev.date) && |ev.value| >= 1
  }

  function EvidenceIssues(ev: Evidence, path: seq<string>): (r: seq<Issue>)
    ensures r == [] <==> EvidenceOk(ev)
    ensures AllUnder(r, path)
  {
    var a := Check(|ev.source| >= 1, path + ["source"], Custom("Evidence source is required"));
    var b := Check(IsUrl(ev.url), path + ["url"], Custom("Evidence URL must be valid"));
    var c := Check(IsIsoDateShape(ev.date), path + ["date"], Custom("Date must be ISO 8601 (YYYY-MM-DD)"));
    var d := Check(|ev.value| >= 1, path + ["value"], Custom("Evidence value is required"));
    AllUnderConcat(a, b, path);
    AllUnderConcat(a + b, c, path);
    AllUnderConcat(a + b + c, d, path);
    a + b + c + d
  }

  predicate AllEvidenceOk(evs: seq<Evidence>) {
    forall i :: 0 <= i < |evs| ==> EvidenceOk(evs[i])
  }

  lemma AllEvidenceOkSnoc(evs: seq<Evidence>)
    requires |evs| > 0
    ensures AllEvidenceOk(evs) <==> AllEvidenceOk(evs[..|evs| - 1]) && EvidenceOk(evs[|evs| - 1])
  {
    var n := |evs| - 1;
    if AllEvidenceOk(evs[..n]) && EvidenceOk(evs[n]) {
      forall i | 0 <= i < |evs| ensures EvidenceOk(evs[i]) {
        if i < n {
          assert evs[i] == evs[..n][i];
        }
      }
    }
  }

  /** The issues of a list of evidence, each under its position. */
  function EvidenceListIssues(evs: seq<Evidence>, path: seq<string>): (r: seq<Issue>)
    ensures r == [] <==> AllEvidenceOk(evs)
    ensures AllUnder(r, path)
  {
    if evs == [] then []
    else
      var n := |evs| - 1;
      var front := EvidenceListIssues(evs[..n], path);
      var last := EvidenceIssues(evs[n], path + [NatToString(n)]);
      AllUnderParent(last, path, NatToString(n));
      AllUnderConcat(front, last, path);
      AllEvidenceOkSnoc(evs);
      front + last
  }

  // ---------------------------------------------------------------- criteria

  const Confidences: seq<string> := ["high", "medium", "low"]

  predicate CriterionOk(c: CriterionScore) {
    && RatingOk(c)
    && CriterionEvidenceOk(c)
    && ProvenanceOk(c)
    && (c.score.Some? || c.value.Some?)
  }

  /** A score, if present, lies in [0, 100], and the confidence is one of the three levels. */
  predicate RatingOk(c: CriterionScore) {
    (c.score.Some? ==> 0.0 <= c.score.value <= 100.0) && c.confidence in Confidences
  }

  /** At least one evidence item, each well formed. */
  predicate CriterionEvidenceOk(c: CriterionScore) {
    |c.evidence| >= 1 && AllEvidenceOk(c.evidence)
  }

  /** A descriptive methodology and a date-shaped verification date. */
  predicate ProvenanceOk(c: CriterionScore) {
    |c.methodology| >= 10 && IsIsoDateShape(c.lastVerified)
  }

  /** The bounds of an optional number in [0, 100]. */
  function OptionalScoreIssues(score: Option<real>, path: seq<string>): (r: seq<Issue>)
    ensures r == [] <==> (score.Some? ==> 0.0 <= score.value <= 100.0)
    ensures AllUnder(r, path)
  {
    match score
    case None => []
    case Some(s) =>
      var a := Check(s >= 0.0, path, NumberTooSmall(0));
      var b := Check(s <= 100.0, path, NumberTooBig(100));
      AllUnderConcat(a, b, path);
      a + b
  }

  /** The issues of a criterion's score and confidence, in that order. */
  function RatingIssues(c: CriterionScore, path: seq<string>): (r: seq<Issue>)
    ensures r == [] <==> RatingOk(c)
    ensures AllUnder(r, path)
  {
    var a := OptionalScoreIssues(c.score, path + ["score"]);
    var b := Check(c.confidence in Confidences, path + ["confidence"], InvalidEnum(Confidences, c.confidence));
    AllUnderParent(a, path, "score");
    AllUnderConcat(a, b, path);
    a + b
  }

  /** The issues of a criterion's evidence: at least one item, each well formed. */
  function CriterionEvidenceIssues(c: CriterionScore, path: seq<string>): (r: seq<Issue>)
    ensures r == [] <==> CriterionEvidenceOk(c)
    ensures AllUnder(r, path)
  {
    var d := Check(|c.evidence| >= 1, path + ["evidence"], Custom("At least one evidence source required"));
    var e := EvidenceListIssues(c.evidence, path + ["evidence"]);
    AllUnderParent(e, path, "evidence");
    AllUnderConcat(d, e, path);
    d + e
  }

  /** The issues of a criterion's methodology and verification date, in that order. */
  function ProvenanceIssues(c: CriterionScore, path: seq<string>): (r: seq<Issue>)
    ensures r == [] <==> ProvenanceOk(c)
    ensures AllUnder(r, path)
  {
    var f := Check(|c.methodology| >= 10, path + ["methodology"], Custom("Methodology must be descriptive"));
    var g := Check(IsIsoDateShape(c.lastVerified), path + ["last_verified"], Custom("Date must be ISO 8601"));
    AllUnderConcat(f, g, path);
    f + g
  }

  /**
   * The issues of one criterion; the refinement that asks for a score or
   * a value reports at the criterion itself, after its fields. An invalid
   * confidence aborts the object's parse, and zod then skips the
   * refinement; the other field failures only mark the parse dirty, and the
   * refinement still runs.
   */
  function CriterionIssues(c: CriterionScore, path: seq<string>): (r: seq<Issue>)
    ensures r == [] <==> CriterionOk(c)
    ensures AllUnder(r, path)
  {
    var a := RatingIssues(c, path);
    var d := CriterionEvidenceIssues(c, path);
    var f := ProvenanceIssues(c, path);
    var h := if c.confidence !in Confidences then []
             else Check(c.score.Some? || c.value.Some?, path, Custom("Either score or value must be provided"));
    AllUnderConcat(a, d, path);
    AllUnderConcat(a + d, f, path);
    AllUnderConcat(a + d + f, h, path);
    a + d + f + h
  }

  /** Every issue lies strictly below `path`. */
  ghost predicate AllBelow(issues: seq<Issue>, path: seq<string>) {
    forall i :: 0 <= i < |issues| ==> |issues[i].path| > |path|
  }

  lemma BelowChild(issues: seq<Issue>, path: seq<string>, key: string)
    requires AllUnder(issues, path + [key])
    ensures AllBelow(issues, path)
  {
    forall i | 0 <= i < |issues| ensures |issues[i].path| > |path| {
      assert path + [key] <= issues[i].path;
    }
  }

  lemma AllBelowConcat(a: seq<Issue>, b: seq<Issue>, path: seq<string>)
    requires AllBelow(a, path) && AllBelow(b, path)
    ensures AllBelow(a + b, path)
  {
    forall i | 0 <= i < |a + b| ensures |(a + b)[i].path| > |path| {
      if i >= |a| {
        assert (a + b)[i] == b[i - |a|];
      }
    }
  }

  /** The field issues of a criterion all lie under one of its fields. */
  lemma FieldIssuesBelow(c: CriterionScore, path: seq<string>)
    ensures AllBelow(RatingIssues(c, path) + CriterionEvidenceIssues(c, path) + ProvenanceIssues(c, path), path)
  {
    var a, d, f := RatingIssues(c, path), CriterionEvidenceIssues(c, path), ProvenanceIssues(c, path);
    RatingBelow(c, path);
    EvidenceBelow(c, path);
    ProvenanceBelow(c, path);
    AllBelowConcat(a, d, path);
    AllBelowConcat(a + d, f, path);
  }

  lemma RatingBelow(c: CriterionScore, path: seq<string>)
    ensures AllBelow(RatingIssues(c, path), path)
  {
    var a1 := OptionalScoreIssues(c.score, path + ["score"]);
    var a2 := Check(c.confidence in Confidences, path + ["confidence"], InvalidEnum(Confidences, c.confidence));
    BelowChild(a1, path, "score");
    BelowChild(a2, path, "confidence");
    AllBelowConcat(a1, a2, path);
  }

  lemma EvidenceBelow(c: CriterionScore, path: seq<string>)
    ensures AllBelow(CriterionEvidenceIssues(c, path), path)
  {
    var d1 := Check(|c.evidence| >= 1, path + ["evidence"], Custom("At least one evidence source required"));
    var d2 := EvidenceListIssues(c.evidence, path + ["evidence"]);
    BelowChild(d1, path, "evidence");
    BelowChild(d2, path, "evidence");
    AllBelowConcat(d1, d2, path);
  }

  lemma ProvenanceBelow(c: CriterionScore, path: seq<string>)
    ensures AllBelow(ProvenanceIssues(c, path), path)
  {
    var f1 := Check(|c.methodology| >= 10, path + ["methodology"], Custom("Methodology must be descriptive"));
    var f2 := Check(IsIsoDateShape(c.lastVerified), path + ["last_verified"], Custom("Date must be ISO 8601"));
    BelowChild(f1, path, "methodology");
    BelowChild(f2, path, "last_verified");
    AllBelowConcat(f1, f2, path);
  }

  /**
   * The refinement's issue is reported exactly for a criterion with neither
   * a score nor a value whose confidence parses.
   */
  lemma RefinementReported(c: CriterionScore, path: seq<string>)
    ensures Issue(path, Custom("Either score or value must be provided")) in CriterionIssues(c, path)
        <==> c.score.None? && c.value.None? && c.confidence in Confidences
  {
    var fields := RatingIssues(c, path) + CriterionEvidenceIssues(c, path) + ProvenanceIssues(c, path);
    FieldIssuesBelow(c, path);
    assert Issue(path, Custom("Either score or value must be provided")) !in fields;
  }

  predicate AllCriteriaOk(criteria: seq<(string, CriterionScore)>) {
    forall i :: 0 <= i < |criteria| ==> CriterionOk(criteria[i].1)
  }

  lemma AllCriteriaOkSnoc(criteria: seq<(string, CriterionScore)>)
    requires |criteria| > 0
    ensures AllCriteriaOk(criteria) <==>
      AllCriteriaOk(criteria[..|criteria| - 1]) && CriterionOk(criteria[|criteria| - 1].1)
  {
    var n := |criteria| - 1;
    if AllCriteriaOk(criteria[..n]) && CriterionOk(criteria[n].1) {
      forall i | 0 <= i < |criteria| ensures CriterionOk(criteria[i].1) {
        if i < n {
          assert criteria[i] == criteria[..n][i];
        }
      }
    }
  }

  /** The issues of a keyed list of criteria, each under its key. */
  function CriteriaIssues(criteria: seq<(string, CriterionScore)>, path: seq<string>): (r: seq<Issue>)
    ensures r == [] <==> AllCriteriaOk(criteria)
    ensures AllUnder(r, path)
  {
    if criteria == [] then []
    else
      var n := |criteria| - 1;
      var front := CriteriaIssues(criteria[..n], path);
      var last := CriterionIssues(criteria[n].1, path + [criteria[n].0]);
      AllUnderParent(last, path, criteria[n].0);
      AllUnderConcat(front, last, path);
      AllCriteriaOkSnoc(criteria);
      front + last
  }

  // ---------------------------------------------------------------- dimensions

  predicate DimensionOk(dim: DimensionScore) {
    && 0.0 <= dim.overallScore <= 100.0
    && AllCriteriaOk(dim.criteria)
  }

  function DimensionIssues(dim: DimensionScore, path: seq<string>): (r: seq<Issue>)
    ensures r == [] <==> DimensionOk(dim)
    ensures AllUnder(r, path)
  {
    var a := OptionalScoreIssues(Some(dim.overallScore), path + ["overall_score"]);
    var b := CriteriaIssues(dim.criteria, path + ["criteria"]);
    AllUnderParent(a, path, "overall_score");
    AllUnderParent(b, path, "criteria");
    AllUnderConcat(a, b, path);
    a + b
  }

  predicate TrustVectorOk(tv: TrustVector) {
    forall d :: DimensionOk(DimensionOf(tv, d))
  }

  lemma TrustVectorOkFields(tv: TrustVector)
    ensures TrustVectorOk(tv) <==>
      && DimensionOk(tv.performanceReliability) && DimensionOk(tv.security)
      && DimensionOk(tv.privacyCompliance) && DimensionOk(tv.trustTransparency)
      && DimensionOk(tv.operationalExcellence)
  {
    assert DimensionOf(tv, PerformanceReliability) == tv.performanceReliability;
    assert DimensionOf(tv, Security) == tv.security;
    assert DimensionOf(tv, PrivacyCompliance) == tv.privacyCompliance;
    assert DimensionOf(tv, TrustTransparency) == tv.trustTransparency;
    assert DimensionOf(tv, OperationalExcellence) == tv.operationalExcellence;
  }

  /** The five dimensions in schema order, each under its key. */
  function TrustVectorIssues(tv: TrustVector, path: seq<string>): (r: seq<Issue>)
    ensures r == [] <==> TrustVectorOk(tv)
    ensures AllUnder(r, path)
  {
    var a := DimensionIssues(tv.performanceReliability, path + [DimensionKey(PerformanceReliability)]);
    var b := DimensionIssues(tv.security, path + [DimensionKey(Security)]);
    var c := DimensionIssues(tv.privacyCompliance, path + [DimensionKey(PrivacyCompliance)]);
    var d := DimensionIssues(tv.trustTransparency, path + [DimensionKey(TrustTransparency)]);
    var e := DimensionIssues(tv.operationalExcellence, path + [DimensionKey(OperationalExcellence)]);
    AllUnderParent(a, path, DimensionKey(PerformanceReliability));
    AllUnderParent(b, path, DimensionKey(Security));
    AllUnderParent(c, path, DimensionKey(PrivacyCompliance));
    AllUnderParent(d, path, DimensionKey(TrustTransparency));
    AllUnderParent(e, path, DimensionKey(OperationalExcellence));
    AllUnderConcat(a, b, path);
    AllUnderConcat(a + b, c, path);
    AllUnderConcat(a + b + c, d, path);
    AllUnderConcat(a + b + c + d, e, path);
    TrustVectorOkFields(tv);
    a + b + c + d + e
  }

  // ---------------------------------------------------------------- use cases

  predicate UseCaseOk(u: UseCaseRating) {
    0.0 <= u.overall <= 100.0 && |u.notes| >= 10
  }

  function UseCaseIssues(u: UseCaseRating, path: seq<string>): (r: seq<Issue>)
    ensures r == [] <==> UseCaseOk(u)
    ensures AllUnder(r, path)
  {
    var a := OptionalScoreIssues(Some(u.overall), path + ["overall"]);
    var b := Check(|u.notes| >= 10, path + ["notes"], StringTooShort(10));
    AllUnderParent(a, path, "overall");
    AllUnderParent(b, path, "notes");
    AllUnderConcat(a, b, path);
    a + b
  }

  predicate AllUseCasesOk(ratings: seq<(string, UseCaseRating)>) {
    forall i :: 0 <= i < |ratings| ==> UseCaseOk(ratings[i].1)
  }

  lemma AllUseCasesOkSnoc(ratings: seq<(string, UseCaseRating)>)
    requires |ratings| > 0
    ensures AllUseCasesOk(ratings) <==>
      AllUseCasesOk(ratings[..|ratings| - 1]) && UseCaseOk(ratings[|ratings| - 1].1)
  {
    var n := |ratings| - 1;
    if AllUseCasesOk(ratings[..n]) && UseCaseOk(ratings[n].1) {
      forall i | 0 <= i < |ratings| ensures UseCaseOk(ratings[i].1) {
        if i < n {
          assert ratings[i] == ratings[..n][i];
        }
      }
    }
  }

  function UseCaseListIssues(ratings: seq<(string, UseCaseRating)>, path: seq<string>): (r: seq<Issue>)
    ensures r == [] <==> AllUseCasesOk(ratings)
    ensures AllUnder(r, path)
  {
    if ratings == [] then []
    else
      var n := |ratings| - 1;
      var front := UseCaseListIssues(ratings[..n], path);
      var last := UseCaseIssues(ratings[n].1, path + [ratings[n].0]);
      AllUnderParent(last, path, ratings[n].0);
      AllUnderConcat(front, last, path);
      AllUseCasesOkSnoc(ratings);
      front + last
  }

  // ---------------------------------------------------------------- entity

  const EntityKinds: seq<string> := ["model", "mcp", "agent"]

  /** A list length within `[lo, hi]`. */
  function LengthIssues(n: nat, lo: nat, hi: nat, path: seq<string>): (r: seq<Issue>)
    ensures r == [] <==> lo <= n <= hi
    ensures AllUnder(r, path)
  {
    var a := Check(n >= lo, path, ArrayTooShort(lo));
    var b := Check(n <= hi, path, ArrayTooLong(hi));
    AllUnderConcat(a, b, path);
    a + b
  }

  /** The scalar fields of the entity, before the trust vector. */
  predicate HeaderOk(e: Entity) {
    && IsKebabId(e.id)
    && e.kind in EntityKinds
    && |e.name| >= 1 && |e.provider| >= 1 && |e.version| >= 1
    && IsIsoDateShape(e.lastEvaluated)
    && |e.evaluatedBy| >= 1
    && 10 <= |e.description| <= 500
    && (e.website.Some? ==> IsUrl(e.website.value))
  }

  function HeaderIssues(e: Entity): (r: seq<Issue>)
    ensures r == [] <==> HeaderOk(e)
  {
    Check(IsKebabId(e.id), ["id"], Custom("ID must be kebab-case"))
    + Check(e.kind in EntityKinds, ["type"], InvalidEnum(EntityKinds, e.kind))
    + Check(|e.name| >= 1, ["name"], StringTooShort(1))
    + Check(|e.provider| >= 1, ["provider"], StringTooShort(1))
    + Check(|e.version| >= 1, ["version"], StringTooShort(1))
    + Check(IsIsoDateShape(e.lastEvaluated), ["last_evaluated"], RegexMismatch)
    + Check(|e.evaluatedBy| >= 1, ["evaluated_by"], StringTooShort(1))
    + Check(|e.description| >= 10, ["description"], StringTooShort(10))
    + Check(|e.description| <= 500, ["description"], StringTooLong(500))
    + (if e.website.Some? then Check(IsUrl(e.website.value), ["website"], InvalidUrl) else [])
  }

  /** The list fields after the use-case ratings; `metadata` accepts any record. */
  predicate ListsOk(e: Entity) {
    3 <= |e.strengths| <= 7 && 2 <= |e.limitations| <= 7 && 2 <= |e.bestFor| <= 5
  }

  function ListIssues(e: Entity): (r: seq<Issue>)
    ensures r == [] <==> ListsOk(e)
  {
    LengthIssues(|e.strengths|, 3, 7, ["strengths"])
    + LengthIssues(|e.limitations|, 2, 7, ["limitations"])
    + LengthIssues(|e.bestFor|, 2, 5, ["best_for"])
  }

  /** Every constraint of the entity schema. */
  predicate WellFormed(e: Entity) {
    && HeaderOk(e)
    && TrustVectorOk(e.trustVector)
    && AllUseCasesOk(e.useCaseRatings)
    && ListsOk(e)
  }

  /** All structural issues of an entity, in schema order. */
  function EntityIssues(e: Entity): (r: seq<Issue>)
    ensures r == [] <==> WellFormed(e)
  {
    HeaderIssues(e)
    + TrustVectorIssues(e.trustVector, ["trust_vector"])
    + UseCaseListIssues(e.useCaseRatings, ["use_case_ratings"])
    + ListIssues(e)
  }

  /**
   * A criterion with neither a score nor a value is reported at its own
   * path with the refinement's message.
   */
  lemma MissingScoreAndValueReported(e: Entity, d: DimensionName, k: nat)
    requires k < |DimensionOf(e.trustVector, d).criteria|
    requires DimensionOf(e.trustVector, d).criteria[k].1.score.None?
    requires DimensionOf(e.trustVector, d).criteria[k].1.value.None?
    requires DimensionOf(e.trustVector, d).criteria[k].1.confidence in Confidences
    ensures Issue(["trust_vector", DimensionKey(d), "criteria", DimensionOf(e.trustVector, d).criteria[k].0],
                  Custom("Either score or value must be provided")) in EntityIssues(e)
  {
    var dim := DimensionOf(e.trustVector, d);
    var issue := Issue(["trust_vector", DimensionKey(d), "criteria", dim.criteria[k].0],
                       Custom("Either score or value must be provided"));
    MissingScoreInTrustVector(e.trustVector, d, k);
    TrustVectorIssueInEntity(e, issue);
  }

  lemma MissingScoreInTrustVector(tv: TrustVector, d: DimensionName, k: nat)
    requires k < |DimensionOf(tv, d).criteria|
    requires DimensionOf(tv, d).criteria[k].1.score.None?
    requires DimensionOf(tv, d).criteria[k].1.value.None?
    requires DimensionOf(tv, d).criteria[k].1.confidence in Confidences
    ensures Issue(["trust_vector", DimensionKey(d), "criteria", DimensionOf(tv, d).criteria[k].0],
                  Custom("Either score or value must be provided")) in TrustVectorIssues(tv, ["trust_vector"])
  {
    var dim := DimensionOf(tv, d);
    var key := dim.criteria[k].0;
    var dpath := ["trust_vector", DimensionKey(d)];
    PathParts("trust_vector", DimensionKey(d), "criteria", key);
    var issue := Issue(dpath + ["criteria", key], Custom("Either score or value must be provided"));
    MissingScoreInDimension(dim, dpath, k);
    DimensionIssueInTrustVector(tv, ["trust_vector"], d, issue);
  }

  lemma PathParts(a: string, b: string, c: string, e: string)
    ensures [a] + [b] == [a, b] && [a, b] + [c, e] == [a, b, c, e]
  {
  }

  lemma MissingScoreInDimension(dim: DimensionScore, path: seq<string>, k: nat)
    requires k < |dim.criteria|
    requires dim.criteria[k].1.score.None? && dim.criteria[k].1.value.None?
    requires dim.criteria[k].1.confidence in Confidences
    ensures Issue(path + ["criteria", dim.criteria[k].0], Custom("Either score or value must be provided")) in DimensionIssues(dim, path)
  {
    var issue := Issue(path + ["criteria", dim.criteria[k].0], Custom("Either score or value must be provided"));
    MissingScoreIssue(dim.criteria[k].1, path + ["criteria", dim.criteria[k].0]);
    CriterionIssueInDimension(dim, path, k, issue);
  }

  lemma MissingScoreIssue(c: CriterionScore, path: seq<string>)
    requires c.score.None? && c.value.None? && c.confidence in Confidences
    ensures Issue(path, Custom("Either score or value must be provided")) in CriterionIssues(c, path)
  {
    RefinementReported(c, path);
  }

  lemma CriterionIssueInDimension(dim: DimensionScore, path: seq<string>, k: nat, issue: Issue)
    requires k < |dim.criteria|
    requires issue in CriterionIssues(dim.criteria[k].1, path + ["criteria", dim.criteria[k].0])
    ensures issue in DimensionIssues(dim, path)
  {
    assert path + ["criteria"] + [dim.criteria[k].0] == path + ["criteria", dim.criteria[k].0];
    CriterionIssueInList(dim.criteria, path + ["criteria"], k, issue);
  }

  lemma TrustVectorIssueInEntity(e: Entity, issue: Issue)
    requires issue in TrustVectorIssues(e.trustVector, ["trust_vector"])
    ensures issue in EntityIssues(e)
  {
    var h := HeaderIssues(e);
    var t := TrustVectorIssues(e.trustVector, ["trust_vector"]);
    var u := UseCaseListIssues(e.useCaseRatings, ["use_case_ratings"]);
    var l := ListIssues(e);
    assert EntityIssues(e) == h + t + u + l;
    assert issue in h + t;
  }

  lemma DimensionIssueInTrustVector(tv: TrustVector, path: seq<string>, d: DimensionName, issue: Issue)
    requires issue in DimensionIssues(DimensionOf(tv, d), path + [DimensionKey(d)])
    ensures issue in TrustVectorIssues(tv, path)
  {
  }

  lemma {:induction false} CriterionIssueInList(criteria: seq<(string, CriterionScore)>, path: seq<string>, k: nat, issue: Issue)
    requires k < |criteria| && issue in CriterionIssues(criteria[k].1, path + [criteria[k].0])
    ensures issue in CriteriaIssues(criteria, path)
  {
    var n := |criteria| - 1;
    if k < n {
      CriteriaIssuesSnoc(criteria, path, n);
      assert criteria[..n][k] == criteria[k];
      CriterionIssueInList(criteria[..n], path, k, issue);
      InLeft(issue, CriteriaIssues(criteria[..n], path), CriterionIssues(criteria[n].1, path + [criteria[n].0]));
    } else {
      CriteriaIssuesSnoc(criteria, path, k);
      InRight(issue, CriteriaIssues(criteria[..k], path), CriterionIssues(criteria[k].1, path + [criteria[k].0]));
    }
  }

  lemma CriteriaIssuesSnoc(criteria: seq<(string, CriterionScore)>, path: seq<string>, n: nat)
    requires n == |criteria| - 1
    ensures CriteriaIssues(criteria, path) == CriteriaIssues(criteria[..n], path) + CriterionIssues(criteria[n].1, path + [criteria[n].0])
  {
  }

  lemma InLeft(x: Issue, a: seq<Issue>, b: seq<Issue>)
    requires x in a
    ensures x in a + b
  {
  }

  lemma InRight(x: Issue, a: seq<Issue>, b: seq<Issue>)
    requires x in b
    ensures x in a + b
  {
  }
}
