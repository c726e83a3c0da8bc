/**
 * Validation of evaluation records: a structural phase (the schema of
 * module Structure) whose failure ends the validation with errors, then a
 * quality phase that only adds warnings; the validation of a batch into a
 * map keyed by id; and the rendering of a result as text.
 */
module Validator {
  import opened Wrappers
  import opened Text
  import opened Schema
  import opened Structure
  import CustomScore

  /** What reaches the validator: `null`, or a record of the entity's shape. */
  datatype Input = NullInput | RecordInput(entity: Entity)

  datatype ValidationResult = ValidationResult(valid: bool, errors: seq<string>, warnings: seq<string>)

  // ---------------------------------------------------------------- warnings

  datatype Warning =
    | ScoreMismatch(dimension: string, overallScore: real, criteriaAverage: real)
    | NonHttpsEvidence(url: string)
    | OldEvidence(date: string, source: string)
    | NoUseCaseRatings

  /** The scores present among the criteria, in order; a criterion with only a value has none. */
  function ScoresOf(criteria: seq<(string, CriterionScore)>): (xs: seq<real>)
    ensures |xs| <= |criteria|
  {
    if criteria == [] then []
    else
      var n := |criteria| - 1;
      ScoresOf(criteria[..n]) + (if criteria[n].1.score.Some? then [criteria[n].1.score.value] else [])
  }

  lemma {:induction false} ScoresOfMembers(criteria: seq<(string, CriterionScore)>)
    ensures forall x :: x in ScoresOf(criteria) <==> exists i :: 0 <= i < |criteria| && criteria[i].1.score == Some(x)
  {
    if criteria != [] {
      var n := |criteria| - 1;
      ScoresOfMembers(criteria[..n]);
      assert forall i :: 0 <= i < n ==> criteria[..n][i] == criteria[i];
    }
  }

  function Total(xs: seq<real>): real {
    if xs == [] then 0.0 else Total(xs[..|xs| - 1]) + xs[|xs| - 1]
  }

  function Mean(xs: seq<real>): real
    requires |xs| > 0
  {
    Total(xs) / (|xs| as real)
  }

  lemma {:induction false} TotalWithin(xs: seq<real>, lo: real, hi: real)
    requires forall i :: 0 <= i < |xs| ==> lo <= xs[i] <= hi
    ensures (|xs| as real) * lo <= Total(xs) <= (|xs| as real) * hi
  {
    if xs != [] {
      var n := |xs| - 1;
      TotalWithin(xs[..n], lo, hi);
      assert (|xs| as real) * lo == (n as real) * lo + lo;
      assert (|xs| as real) * hi == (n as real) * hi + hi;
    }
  }

  /** The mean of scores that lie in a range lies in that range. */
  lemma MeanWithin(xs: seq<real>, lo: real, hi: real)
    requires |xs| > 0
    requires forall i :: 0 <= i < |xs| ==> lo <= xs[i] <= hi
    ensures lo <= Mean(xs) <= hi
  {
    TotalWithin(xs, lo, hi);
    QuotientWithin(Total(xs), |xs| as real, lo, hi);
  }

  lemma QuotientWithin(t: real, n: real, lo: real, hi: real)
    requires n > 0.0 && n * lo <= t <= n * hi
    ensures lo <= t / n <= hi
  {
    assert (t / n) * n == t;
  }

  /** A dimension whose scored criteria average more than 10 away from its overall score. */
  predicate Mismatched(dim: DimensionScore) {
    var xs := ScoresOf(dim.criteria);
    |xs| > 0 && CustomScore.Abs(Mean(xs) - dim.overallScore) > 10.0
  }

  /** The mismatch warnings of the first `n` dimensions, in dimension order. */
  function MismatchWarnings(tv: TrustVector, n: nat): (ws: seq<Warning>)
    requires n <= |Dimensions|
    ensures |ws| <= n
    ensures forall i :: 0 <= i < |ws| ==> ws[i].ScoreMismatch?
  {
    if n == 0 then []
    else
      var d := Dimensions[n - 1];
      var dim := DimensionOf(tv, d);
      MismatchWarnings(tv, n - 1)
      + (if Mismatched(dim) then [ScoreMismatch(DimensionKey(d), dim.overallScore, Mean(ScoresOf(dim.criteria)))] else [])
  }

  /** How many mismatch warnings name `dimension`. */
  function MismatchCount(ws: seq<Warning>, dimension: string): nat {
    if ws == [] then 0
    else
      var w := ws[|ws| - 1];
      MismatchCount(ws[..|ws| - 1], dimension) + (if w.ScoreMismatch? && w.dimension == dimension then 1 else 0)
  }

  /**
   * A running count that starts at zero and grows by one exactly at the
   * steps whose flag is set and whose position is `index` has reached one
   * after `n` steps when `index` is among them and flagged, and zero
   * otherwise.
   */
  lemma {:induction false} CountUpTo(counts: seq<nat>, hits: seq<bool>, index: nat, n: nat)
    requires |counts| == |hits| + 1 && n <= |hits|
    requires counts[0] == 0
    requires forall k :: 0 <= k < |hits| ==> counts[k + 1] == counts[k] + (if hits[k] && k == index then 1 else 0)
    ensures counts[n] == if index < n && hits[index] then 1 else 0
  {
    if n > 0 {
      CountUpTo(counts, hits, index, n - 1);
      assert counts[n] == counts[n - 1] + (if hits[n - 1] && n - 1 == index then 1 else 0);
    }
  }

  lemma MismatchCountStep(tv: TrustVector, i: nat, d: DimensionName)
    requires i < |Dimensions|
    ensures MismatchCount(MismatchWarnings(tv, i + 1), DimensionKey(d)) ==
      MismatchCount(MismatchWarnings(tv, i), DimensionKey(d))
      + (if Mismatched(DimensionOf(tv, Dimensions[i])) && i == DimensionIndex(d) then 1 else 0)
  {
    MismatchWarningsSnoc(tv, i);
    IndexOfDimension(i, d);
    var e := Dimensions[i];
    var dim := DimensionOf(tv, e);
    DimensionKeyInjective(e, d);
    if Mismatched(dim) {
      MismatchCountSnoc(MismatchWarnings(tv, i), ScoreMismatch(DimensionKey(e), dim.overallScore, Mean(ScoresOf(dim.criteria))), DimensionKey(d));
    } else {
      assert MismatchWarnings(tv, i + 1) == MismatchWarnings(tv, i);
    }
  }

  lemma IndexOfDimension(i: nat, d: DimensionName)
    requires i < |Dimensions|
    ensures DimensionIndex(d) == i <==> Dimensions[i] == d
  {
  }

  lemma MismatchCountSnoc(ws: seq<Warning>, w: Warning, dimension: string)
    ensures MismatchCount(ws + [w], dimension) ==
      MismatchCount(ws, dimension) + (if w.ScoreMismatch? && w.dimension == dimension then 1 else 0)
  {
    assert (ws + [w])[..|ws|] == ws;
  }

  lemma DimensionKeyInjective(d: DimensionName, e: DimensionName)
    ensures DimensionKey(d) == DimensionKey(e) <==> d == e
  {
  }

  /**
   * Each dimension gets exactly one mismatch warning when it has a scored
   * criterion and the mean of its scores is more than 10 from its overall
   * score, and none otherwise.
   */
  lemma MismatchWarningsExact(tv: TrustVector, d: DimensionName)
    ensures MismatchCount(MismatchWarnings(tv, |Dimensions|), DimensionKey(d)) ==
      if Mismatched(DimensionOf(tv, d)) then 1 else 0
  {
    var key := DimensionKey(d);
    var counts := seq(|Dimensions| + 1, k requires 0 <= k <= |Dimensions| => MismatchCount(MismatchWarnings(tv, k), key));
    var hits := seq(|Dimensions|, k requires 0 <= k < |Dimensions| => Mismatched(DimensionOf(tv, Dimensions[k])));
    forall k | 0 <= k < |hits|
      ensures counts[k + 1] == counts[k] + (if hits[k] && k == DimensionIndex(d) then 1 else 0)
    {
      MismatchCountStep(tv, k, d);
    }
    CountUpTo(counts, hits, DimensionIndex(d), |Dimensions|);
    assert Dimensions[DimensionIndex(d)] == d;
  }

  /** A difference of exactly 10 is no mismatch; one just above is. */
  lemma MismatchThreshold(c: CriterionScore)
    requires c.score == Some(80.0)
    ensures !Mismatched(DimensionScore(70.0, [("accuracy", c)], None))
    ensures Mismatched(DimensionScore(69.5, [("accuracy", c)], None))
    ensures !Mismatched(DimensionScore(0.0, [("accuracy", c.(score := None))], None))
  {
    var one := [("accuracy", c)];
    assert one[..0] == [];
    assert ScoresOf(one) == [80.0];
    assert Total([80.0]) == 80.0 by {
      assert [80.0][..0] == [];
    }
    var none := [("accuracy", c.(score := None))];
    assert none[..0] == [];
    assert ScoresOf(none) == [];
  }

  /** The evidence of a keyed list of criteria, in order. */
  function CriteriaEvidence(criteria: seq<(string, CriterionScore)>): seq<Evidence> {
    if criteria == [] then []
    else CriteriaEvidence(criteria[..|criteria| - 1]) + criteria[|criteria| - 1].1.evidence
  }

  /** The evidence of the first `n` dimensions. */
  function EvidenceUpTo(tv: TrustVector, n: nat): seq<Evidence>
    requires n <= |Dimensions|
  {
    if n == 0 then [] else EvidenceUpTo(tv, n - 1) + CriteriaEvidence(DimensionOf(tv, Dimensions[n - 1]).criteria)
  }

  /** Every evidence item of every criterion of every dimension. */
  function AllEvidence(tv: TrustVector): seq<Evidence> {
    EvidenceUpTo(tv, |Dimensions|)
  }

  lemma {:induction false} CriteriaEvidenceMembers(criteria: seq<(string, CriterionScore)>, ev: Evidence)
    ensures ev in CriteriaEvidence(criteria) <==> exists i :: 0 <= i < |criteria| && ev in criteria[i].1.evidence
  {
    if criteria != [] {
      var n := |criteria| - 1;
      CriteriaEvidenceMembers(criteria[..n], ev);
      assert forall i :: 0 <= i < n ==> criteria[..n][i] == criteria[i];
    }
  }

  lemma {:induction false} EvidenceUpToMembers(tv: TrustVector, n: nat, ev: Evidence)
    requires n <= |Dimensions|
    ensures ev in EvidenceUpTo(tv, n) <==>
      exists k :: 0 <= k < n && ev in CriteriaEvidence(DimensionOf(tv, Dimensions[k]).criteria)
  {
    if n > 0 {
      EvidenceUpToMembers(tv, n - 1, ev);
    }
  }

  /** The evidence collected is exactly the evidence of some criterion of some dimension. */
  lemma AllEvidenceMembers(tv: TrustVector, ev: Evidence)
    ensures ev in AllEvidence(tv) <==>
      exists d: DimensionName, i :: 0 <= i < |DimensionOf(tv, d).criteria| && ev in DimensionOf(tv, d).criteria[i].1.evidence
  {
    EvidenceUpToMembers(tv, |Dimensions|, ev);
    if ev in AllEvidence(tv) {
      var k :| 0 <= k < |Dimensions| && ev in CriteriaEvidence(DimensionOf(tv, Dimensions[k]).criteria);
      CriteriaEvidenceMembers(DimensionOf(tv, Dimensions[k]).criteria, ev);
    }
    if exists d: DimensionName, i :: 0 <= i < |DimensionOf(tv, d).criteria| && ev in DimensionOf(tv, d).criteria[i].1.evidence {
      var d: DimensionName, i :| 0 <= i < |DimensionOf(tv, d).criteria| && ev in DimensionOf(tv, d).criteria[i].1.evidence;
      CriteriaEvidenceMembers(DimensionOf(tv, d).criteria, ev);
      assert Dimensions[DimensionIndex(d)] == d;
    }
  }

  /** One warning per evidence item that `keep` selects, in order. */
  function Select(evs: seq<Evidence>, keep: Evidence -> bool, make: Evidence -> Warning): seq<Warning> {
    if evs == [] then []
    else
      var n := |evs| - 1;
      Select(evs[..n], keep, make) + (if keep(evs[n]) then [make(evs[n])] else [])
  }

  /** The positions that `keep` selects. */
  ghost function Kept(evs: seq<Evidence>, keep: Evidence -> bool): set<nat> {
    set i: nat | i < |evs| && keep(evs[i])
  }

  lemma KeptSnoc(evs: seq<Evidence>, keep: Evidence -> bool)
    requires |evs| > 0
    ensures Kept(evs, keep) == Kept(evs[..|evs| - 1], keep) + (if keep(evs[|evs| - 1]) then {|evs| - 1} else {})
  {
    var n := |evs| - 1;
    assert forall i :: 0 <= i < n ==> evs[..n][i] == evs[i];
  }

  lemma SelectSnoc(evs: seq<Evidence>, k: nat, keep: Evidence -> bool, make: Evidence -> Warning)
    requires k < |evs|
    ensures Select(evs[..k + 1], keep, make) == Select(evs[..k], keep, make) + (if keep(evs[k]) then [make(evs[k])] else [])
  {
    assert evs[..k + 1][..k] == evs[..k];
  }

  lemma {:induction false} SelectCount(evs: seq<Evidence>, keep: Evidence -> bool, make: Evidence -> Warning)
    ensures |Select(evs, keep, make)| == |Kept(evs, keep)|
  {
    if evs != [] {
      var n := |evs| - 1;
      SelectCount(evs[..n], keep, make);
      KeptSnoc(evs, keep);
      assert n !in Kept(evs[..n], keep);
    }
  }

  lemma {:induction false} SelectComplete(evs: seq<Evidence>, keep: Evidence -> bool, make: Evidence -> Warning)
    ensures forall i :: 0 <= i < |evs| && keep(evs[i]) ==> make(evs[i]) in Select(evs, keep, make)
  {
    if evs != [] {
      var n := |evs| - 1;
      SelectComplete(evs[..n], keep, make);
      assert forall i :: 0 <= i < n ==> evs[..n][i] == evs[i];
    }
  }

  lemma {:induction false} SelectSound(evs: seq<Evidence>, keep: Evidence -> bool, make: Evidence -> Warning)
    ensures forall w :: w in Select(evs, keep, make) ==> exists i :: 0 <= i < |evs| && keep(evs[i]) && w == make(evs[i])
  {
    if evs != [] {
      var n := |evs| - 1;
      SelectSound(evs[..n], keep, make);
      assert forall i :: 0 <= i < n ==> evs[..n][i] == evs[i];
    }
  }

  /**
   * The selected warnings are exactly one per selected position: as many
   * as there are such positions, each selected item has its warning, and
   * every warning comes from a selected item.
   */
  lemma SelectExact(evs: seq<Evidence>, keep: Evidence -> bool, make: Evidence -> Warning)
    ensures |Select(evs, keep, make)| == |Kept(evs, keep)|
    ensures forall i :: 0 <= i < |evs| && keep(evs[i]) ==> make(evs[i]) in Select(evs, keep, make)
    ensures forall w :: w in Select(evs, keep, make) ==> exists i :: 0 <= i < |evs| && keep(evs[i]) && w == make(evs[i])
  {
    SelectCount(evs, keep, make);
    SelectComplete(evs, keep, make);
    SelectSound(evs, keep, make);
  }

  predicate LacksHttps(ev: Evidence) {
    !StartsWith(ev.url, "https://")
  }

  function HttpsWarning(ev: Evidence): Warning {
    NonHttpsEvidence(ev.url)
  }

  /** One warning per evidence item whose url does not start with `https://`. */
  function HttpsWarnings(evs: seq<Evidence>): seq<Warning> {
    Select(evs, LacksHttps, HttpsWarning)
  }

  lemma HttpsWarningsExact(evs: seq<Evidence>)
    ensures |HttpsWarnings(evs)| == |set i: nat | i < |evs| && LacksHttps(evs[i])|
    ensures forall i :: 0 <= i < |evs| && LacksHttps(evs[i]) ==> NonHttpsEvidence(evs[i].url) in HttpsWarnings(evs)
    ensures forall w :: w in HttpsWarnings(evs) ==> exists i :: 0 <= i < |evs| && LacksHttps(evs[i]) && w == NonHttpsEvidence(evs[i].url)
  {
    SelectExact(evs, LacksHttps, HttpsWarning);
    assert Kept(evs, LacksHttps) == set i: nat | i < |evs| && LacksHttps(evs[i]);
  }

  // ---------------------------------------------------------------- evidence age

  const MsPerDay: int := 86400000

  predicate IsLeapYear(y: int) {
    y % 4 == 0 && (y % 100 != 0 || y % 400 == 0)
  }

  /** The day number of 1 January of year `y`, counted from 1 January 1970. */
  function DayFromYear(y: int): int {
    365 * (y - 1970) + (y - 1969) / 4 - (y - 1901) / 100 + (y - 1601) / 400
  }

  function DaysBeforeMonth(y: int, m: int): int
    requires 1 <= m <= 12
  {
    [0, 31, 59, 90, 120, 151, 181, 212, 243, 273, 304, 334][m - 1] + (if IsLeapYear(y) && m > 2 then 1 else 0)
  }

  /**
   * The day, counted from 1 January 1970, that a `YYYY-MM-DD` string names
   * when read as a date: months 1 to 12 and days 1 to 31 are accepted, and
   * a day past the end of its month runs into the next month.
   */
  function EvidenceDay(date: string): (r: Option<int>)
    ensures r.Some? ==> IsIsoDateShape(date)
  {
    if !IsIsoDateShape(date) then None
    else
      assert AllDigits(date[0..4]) && AllDigits(date[5..7]) && AllDigits(date[8..10]);
      var y := DigitsValue(date[0..4]);
      var m := DigitsValue(date[5..7]);
      var d := DigitsValue(date[8..10]);
      if 1 <= m <= 12 && 1 <= d <= 31 then Some(DayFromYear(y) + DaysBeforeMonth(y, m) + d - 1) else None
  }

  /** Evidence dated, at midnight UTC, before the cutoff instant (milliseconds since 1970). */
  predicate IsStale(ev: Evidence, cutoff: int) {
    var day := EvidenceDay(ev.date);
    day.Some? && day.value * MsPerDay < cutoff
  }

  function OldEvidenceWarning(ev: Evidence): Warning {
    OldEvidence(ev.date, ev.source)
  }

  /** One warning per evidence item dated before the cutoff. */
  function StaleWarnings(evs: seq<Evidence>, cutoff: int): seq<Warning> {
    Select(evs, ev => IsStale(ev, cutoff), OldEvidenceWarning)
  }

  lemma StaleWarningsExact(evs: seq<Evidence>, cutoff: int)
    ensures |StaleWarnings(evs, cutoff)| == |set i: nat | i < |evs| && IsStale(evs[i], cutoff)|
    ensures forall i :: 0 <= i < |evs| && IsStale(evs[i], cutoff) ==> OldEvidence(evs[i].date, evs[i].source) in StaleWarnings(evs, cutoff)
    ensures forall w :: w in StaleWarnings(evs, cutoff) ==>
      exists i :: 0 <= i < |evs| && IsStale(evs[i], cutoff) && w == OldEvidence(evs[i].date, evs[i].source)
  {
    var keep := ev => IsStale(ev, cutoff);
    SelectExact(evs, keep, OldEvidenceWarning);
    assert Kept(evs, keep) == set i: nat | i < |evs| && IsStale(evs[i], cutoff);
  }

  lemma DigitsValues()
    ensures DigitsValue("1970") == 1970 && DigitsValue("2024") == 2024
    ensures DigitsValue("01") == 1 && DigitsValue("02") == 2 && DigitsValue("03") == 3
    ensures DigitsValue("30") == 30 && DigitsValue("13") == 13
  {
    assert "1970"[..3] == "197" && "197"[..2] == "19" && "19"[..1] == "1" && "1"[..0] == "";
    assert "2024"[..3] == "202" && "202"[..2] == "20" && "20"[..1] == "2" && "2"[..0] == "";
    assert "01"[..1] == "0" && "02"[..1] == "0" && "03"[..1] == "0" && "0"[..0] == "";
    assert "30"[..1] == "3" && "3"[..0] == "" && "13"[..1] == "1";
  }

  /** The three fields of a ten-character date, character by character. */
  lemma DateFields(s: string)
    requires |s| == 10
    ensures s[0..4] == [s[0], s[1], s[2], s[3]] && s[5..7] == [s[5], s[6]] && s[8..10] == [s[8], s[9]]
  {
  }

  /** The first day of 1970 is day 0. */
  lemma EpochDay()
    ensures EvidenceDay("1970-01-01") == Some(0)
  {
    DigitsValues();
    DateFields("1970-01-01");
  }

  /** A day past the end of February runs into March, as the date reading does. */
  lemma LeapDayRollsOver()
    ensures EvidenceDay("2024-03-01") == Some(19783)
    ensures EvidenceDay("2024-02-30") == Some(19783)
  {
    DigitsValues();
    DateFields("2024-03-01");
    DateFields("2024-02-30");
  }

  /** A string of the right shape with month 13 is no date, so it never counts as old. */
  lemma ShapeWithoutDate(ev: Evidence, cutoff: int)
    requires ev.date == "2024-13-45"
    ensures EvidenceDay(ev.date) == None && !IsStale(ev, cutoff)
  {
    DigitsValues();
    DateFields("2024-13-45");
  }

  /** The use-case warning: present exactly when there are no ratings. */
  function UseCaseWarnings(e: Entity): seq<Warning> {
    if |e.useCaseRatings| == 0 then [NoUseCaseRatings] else []
  }

  /** The quality phase, in the order its checks run. */
  function QualityWarnings(e: Entity, cutoff: int): seq<Warning> {
    var evs := AllEvidence(e.trustVector);
    MismatchWarnings(e.trustVector, |Dimensions|) + HttpsWarnings(evs) + StaleWarnings(evs, cutoff) + UseCaseWarnings(e)
  }

  /** An empty `use_case_ratings` adds the use-case warning exactly once; a non-empty one never does. */
  lemma UseCaseWarningOnce(e: Entity, cutoff: int)
    ensures multiset(QualityWarnings(e, cutoff))[NoUseCaseRatings] == if |e.useCaseRatings| == 0 then 1 else 0
  {
    var evs := AllEvidence(e.trustVector);
    var m := MismatchWarnings(e.trustVector, |Dimensions|);
    var h := HttpsWarnings(evs);
    var s := StaleWarnings(evs, cutoff);
    SelectExact(evs, LacksHttps, HttpsWarning);
    SelectExact(evs, ev => IsStale(ev, cutoff), OldEvidenceWarning);
    assert NoUseCaseRatings !in m;
    assert NoUseCaseRatings !in h;
    assert NoUseCaseRatings !in s;
    assert multiset(m)[NoUseCaseRatings] == 0 && multiset(h)[NoUseCaseRatings] == 0 && multiset(s)[NoUseCaseRatings] == 0;
    assert QualityWarnings(e, cutoff) == m + h + s + UseCaseWarnings(e);
  }

  // ---------------------------------------------------------------- warning text

  /** `toFixed(1)` of a non-negative number: the nearest tenth, the larger one on a tie. */
  function Tenths(x: real): (n: nat)
    requires x >= 0.0
    ensures x - 0.05 < (n as real) / 10.0 <= x + 0.05
  {
    (10.0 * x + 0.5).Floor
  }

  function Fixed1(x: real): string {
    var n := if x < 0.0 then Tenths(-x) else Tenths(x);
    (if x < 0.0 then "-" else "") + NatToString(n / 10) + "." + [DigitChar(n % 10)]
  }

  /** A number as a template prints it: whole numbers without a fraction, others to one decimal. */
  function NumberText(x: real): string {
    if x == x.Floor as real then IntToString(x.Floor) else Fixed1(x)
  }

  function WarningText(w: Warning): string {
    match w
    case ScoreMismatch(dimension, overall, average) =>
      dimension + ": Overall score (" + NumberText(overall) + ") differs significantly from criteria average ("
      + Fixed1(average) + ")"
    case NonHttpsEvidence(url) => "Non-HTTPS evidence URL: " + url
    case OldEvidence(date, source) => "Old evidence (" + date + "): " + source + " - consider updating"
    case NoUseCaseRatings => "No use case ratings provided"
  }

  function WarningTexts(ws: seq<Warning>): (ts: seq<string>)
    ensures |ts| == |ws|
  {
    if ws == [] then [] else WarningTexts(ws[..|ws| - 1]) + [WarningText(ws[|ws| - 1])]
  }

  lemma WarningTextsSnoc(ws: seq<Warning>, w: Warning)
    ensures WarningTexts(ws + [w]) == WarningTexts(ws) + [WarningText(w)]
  {
    assert (ws + [w])[..|ws|] == ws;
  }

  lemma Fixed1Examples()
    ensures Fixed1(80.25) == "80.3"
    ensures Fixed1(100.0 / 3.0) == "33.3"
    ensures Fixed1(-0.04) == "-0.0"
  {
    assert Tenths(80.25) == 803;
    assert Tenths(100.0 / 3.0) == 333;
    assert Tenths(0.04) == 0;
    assert NatToString(80) == "80" && NatToString(33) == "33" && NatToString(0) == "0";
    assert DigitChar(3) == '3' && DigitChar(0) == '0';
  }

  // ---------------------------------------------------------------- validateEntity

  /** The issue `null` raises: the whole value is not an object. */
  const NullIssue: Issue := Issue([], NotAnObject("null"))

  function IssueTexts(issues: seq<Issue>): (ts: seq<string>)
    ensures |ts| == |issues|
  {
    seq(|issues|, i requires 0 <= i < |issues| => IssueText(issues[i]))
  }

  /**
   * `validateEntity`: the rendered issues of a structural failure, or the
   * warnings of the quality phase for a record that passes.
   */
  function Validate(input: Input, cutoff: int): ValidationResult {
    match input
    case NullInput => ValidationResult(false, [IssueText(NullIssue)], [])
    case RecordInput(e) =>
      var issues := EntityIssues(e);
      if issues != [] then ValidationResult(false, IssueTexts(issues), [])
      else ValidationResult(true, [], WarningTexts(QualityWarnings(e, cutoff)))
  }

  /** A record is valid exactly when it satisfies every constraint of the schema. */
  lemma ValidIffWellFormed(input: Input, cutoff: int)
    ensures Validate(input, cutoff).valid <==> input.RecordInput? && WellFormed(input.entity)
  {
  }

  /** A structural failure ends the validation: errors, and no quality warning at all. */
  lemma FailureSkipsQuality(input: Input, cutoff: int)
    requires !Validate(input, cutoff).valid
    ensures |Validate(input, cutoff).errors| >= 1 && Validate(input, cutoff).warnings == []
  {
    if input.RecordInput? {
      FailureErrors(input.entity, cutoff);
    }
  }

  /** Once the structure passes, the record is valid with no errors, whatever the warnings. */
  lemma PassHasNoErrors(e: Entity, cutoff: int)
    requires WellFormed(e)
    ensures Validate(RecordInput(e), cutoff).valid && Validate(RecordInput(e), cutoff).errors == []
    ensures Validate(RecordInput(e), cutoff).warnings == WarningTexts(QualityWarnings(e, cutoff))
  {
  }

  /** A structural failure lists one `path.joined: message` line per issue, in schema order. */
  lemma StructuralErrorsListed(e: Entity, cutoff: int)
    requires !WellFormed(e)
    ensures var r := Validate(RecordInput(e), cutoff);
      && |r.errors| == |EntityIssues(e)|
      && forall i :: 0 <= i < |r.errors| ==> StartsWith(r.errors[i], Join(EntityIssues(e)[i].path, "."))
  {
    var issues := EntityIssues(e);
    FailureErrors(e, cutoff);
    IssueTextsStartWithPaths(issues);
  }

  lemma IssueTextsStartWithPaths(issues: seq<Issue>)
    ensures forall i :: 0 <= i < |issues| ==> StartsWith(IssueTexts(issues)[i], Join(issues[i].path, "."))
  {
    forall i | 0 <= i < |issues| ensures StartsWith(IssueTexts(issues)[i], Join(issues[i].path, ".")) {
      assert IssueTexts(issues)[i] == IssueText(issues[i]);
    }
  }

  /** `null` is rejected at the empty path. */
  lemma NullRejected(cutoff: int)
    ensures Validate(NullInput, cutoff) == ValidationResult(false, [": Expected object, received null"], [])
  {
    NullIssueText();
  }

  lemma NullIssueText()
    ensures IssueText(NullIssue) == ": Expected object, received null"
  {
    assert Join(NullIssue.path, ".") == "";
    assert MessageText(NullIssue.message) == "Expected object, received " + "null";
    NullLine();
  }

  lemma NullLine()
    ensures "" + ": " + ("Expected object, received " + "null") == ": Expected object, received null"
  {
  }

  lemma JoinPathOfFour(a: string, b: string, c: string, d: string)
    ensures Join([a, b, c, d], ".") == a + "." + b + "." + c + "." + d
  {
    assert [a, b, c, d][1..] == [b, c, d];
    assert [b, c, d][1..] == [c, d];
    assert [c, d][1..] == [d];
    assert Join([c, d], ".") == c + "." + d;
    assert Join([b, c, d], ".") == b + "." + (c + "." + d);
    assert Join([a, b, c, d], ".") == a + "." + (b + "." + (c + "." + d));
  }

  /** A criterion with neither score nor value makes the record invalid with the refinement's line among the errors. */
  lemma MissingScoreAndValueInErrors(e: Entity, d: DimensionName, k: nat, cutoff: int)
    requires k < |DimensionOf(e.trustVector, d).criteria|
    requires DimensionOf(e.trustVector, d).criteria[k].1.score.None?
    requires DimensionOf(e.trustVector, d).criteria[k].1.value.None?
    requires DimensionOf(e.trustVector, d).criteria[k].1.confidence in Confidences
    ensures !Validate(RecordInput(e), cutoff).valid
    ensures "trust_vector" + "." + DimensionKey(d) + "." + "criteria" + "." + DimensionOf(e.trustVector, d).criteria[k].0
      + ": " + "Either score or value must be provided" in Validate(RecordInput(e), cutoff).errors
  {
    var key := DimensionOf(e.trustVector, d).criteria[k].0;
    var issue := Issue(["trust_vector", DimensionKey(d), "criteria", key], Custom("Either score or value must be provided"));
    MissingScoreAndValueReported(e, d, k);
    IssueListed(EntityIssues(e), issue);
    MissingScoreLine(DimensionKey(d), key);
    FailureErrors(e, cutoff);
  }

  lemma IssueListed(issues: seq<Issue>, issue: Issue)
    requires issue in issues
    ensures IssueText(issue) in IssueTexts(issues)
  {
    var j :| 0 <= j < |issues| && issues[j] == issue;
    assert IssueTexts(issues)[j] == IssueText(issue);
  }

  lemma MissingScoreLine(dimension: string, key: string)
    ensures IssueText(Issue(["trust_vector", dimension, "criteria", key], Custom("Either score or value must be provided")))
      == "trust_vector" + "." + dimension + "." + "criteria" + "." + key + ": " + "Either score or value must be provided"
  {
    var path := ["trust_vector", dimension, "criteria", key];
    JoinPathOfFour("trust_vector", dimension, "criteria", key);
    assert MessageText(Custom("Either score or value must be provided")) == "Either score or value must be provided";
    assert IssueText(Issue(path, Custom("Either score or value must be provided")))
      == Join(path, ".") + ": " + "Either score or value must be provided";
  }

  lemma FailureErrors(e: Entity, cutoff: int)
    ensures !Validate(RecordInput(e), cutoff).valid ==> EntityIssues(e) != []
    ensures EntityIssues(e) != [] ==> !Validate(RecordInput(e), cutoff).valid
    ensures EntityIssues(e) != [] ==> Validate(RecordInput(e), cutoff).errors == IssueTexts(EntityIssues(e))
    ensures EntityIssues(e) != [] ==> Validate(RecordInput(e), cutoff).warnings == []
  {
  }

  /**
   * The procedure as the source runs it: the structural phase first, then
   * the quality checks pushing warnings in turn.
   */
  method ValidateEntity(input: Input, cutoff: int) returns (r: ValidationResult)
    ensures r == Validate(input, cutoff)
  {
    if input.NullInput? {
      return ValidationResult(false, [IssueText(NullIssue)], []);
    }
    var issues := EntityIssues(input.entity);
    if issues != [] {
      var errors := RenderIssues(issues);
      return ValidationResult(false, errors, []);
    }
    var warnings := QualityPhase(input.entity, cutoff);
    r := ValidationResult(true, [], warnings);
  }

  /** One `path.joined: message` line per issue, in order. */
  method RenderIssues(issues: seq<Issue>) returns (errors: seq<string>)
    ensures errors == IssueTexts(issues)
  {
    errors := [];
    for k := 0 to |issues|
      invariant |errors| == k
      invariant forall j :: 0 <= j < k ==> errors[j] == IssueText(issues[j])
    {
      errors := errors + [IssueText(issues[k])];
    }
  }

  lemma {:induction false} WarningTextsConcat(a: seq<Warning>, b: seq<Warning>)
    ensures WarningTexts(a + b) == WarningTexts(a) + WarningTexts(b)
  {
    if b == [] {
      assert a + b == a;
    } else {
      var n := |b| - 1;
      WarningTextsConcat(a, b[..n]);
      assert (a + b)[..|a + b| - 1] == a + b[..n];
      assert (a + b)[|a + b| - 1] == b[n];
    }
  }

  /** The quality checks, each pushing its warnings after the previous ones. */
  method QualityPhase(e: Entity, cutoff: int) returns (warnings: seq<string>)
    ensures warnings == WarningTexts(QualityWarnings(e, cutoff))
  {
    var mismatches := MismatchPhase(e.trustVector);
    var all := CollectEvidence(e.trustVector);
    var https := HttpsPhase(all);
    var stale := StalePhase(all, cutoff);
    warnings := mismatches + https + stale;
    if |e.useCaseRatings| == 0 {
      warnings := warnings + [WarningText(NoUseCaseRatings)];
    }
    ghost var m := MismatchWarnings(e.trustVector, |Dimensions|);
    ghost var h := HttpsWarnings(all);
    ghost var st := StaleWarnings(all, cutoff);
    WarningTextsConcat(m, h);
    WarningTextsConcat(m + h, st);
    WarningTextsConcat(m + h + st, UseCaseWarnings(e));
    assert WarningTexts(UseCaseWarnings(e)) == if |e.useCaseRatings| == 0 then [WarningText(NoUseCaseRatings)] else [] by {
      assert [NoUseCaseRatings][..0] == [];
    }
  }

  /** The mismatch check over the five dimensions. */
  method MismatchPhase(tv: TrustVector) returns (warnings: seq<string>)
    ensures warnings == WarningTexts(MismatchWarnings(tv, |Dimensions|))
  {
    warnings := [];
    for i := 0 to |Dimensions|
      invariant warnings == WarningTexts(MismatchWarnings(tv, i))
    {
      warnings := MismatchCheck(tv, i, warnings);
    }
  }

  /** The check of dimension `i`: a warning when the mean of its scored criteria is more than 10 from its overall score. */
  method MismatchCheck(tv: TrustVector, i: nat, warnings: seq<string>) returns (warnings': seq<string>)
    requires i < |Dimensions| && warnings == WarningTexts(MismatchWarnings(tv, i))
    ensures warnings' == WarningTexts(MismatchWarnings(tv, i + 1))
  {
    var d := Dimensions[i];
    var dim := DimensionOf(tv, d);
    var scores := ScoresOf(dim.criteria);
    MismatchTextsSnoc(tv, i);
    if |scores| > 0 && CustomScore.Abs(Mean(scores) - dim.overallScore) > 10.0 {
      var average := Mean(scores);
      warnings' := warnings + [WarningText(ScoreMismatch(DimensionKey(d), dim.overallScore, average))];
    } else {
      warnings' := warnings;
    }
  }

  lemma MismatchTextsSnoc(tv: TrustVector, i: nat)
    requires i < |Dimensions|
    ensures var dim := DimensionOf(tv, Dimensions[i]);
      WarningTexts(MismatchWarnings(tv, i + 1)) == WarningTexts(MismatchWarnings(tv, i))
        + (if Mismatched(dim)
           then [WarningText(ScoreMismatch(DimensionKey(Dimensions[i]), dim.overallScore, Mean(ScoresOf(dim.criteria))))]
           else [])
  {
    var dim := DimensionOf(tv, Dimensions[i]);
    MismatchWarningsSnoc(tv, i);
    if Mismatched(dim) {
      WarningTextsSnoc(MismatchWarnings(tv, i),
        ScoreMismatch(DimensionKey(Dimensions[i]), dim.overallScore, Mean(ScoresOf(dim.criteria))));
    } else {
      assert MismatchWarnings(tv, i + 1) == MismatchWarnings(tv, i);
    }
  }

  lemma MismatchWarningsSnoc(tv: TrustVector, i: nat)
    requires i < |Dimensions|
    ensures var dim := DimensionOf(tv, Dimensions[i]);
      MismatchWarnings(tv, i + 1) == MismatchWarnings(tv, i)
        + (if Mismatched(dim) then [ScoreMismatch(DimensionKey(Dimensions[i]), dim.overallScore, Mean(ScoresOf(dim.criteria)))] else [])
  {
  }

  /** The HTTPS check over the collected evidence. */
  method HttpsPhase(all: seq<Evidence>) returns (warnings: seq<string>)
    ensures warnings == WarningTexts(HttpsWarnings(all))
  {
    warnings := [];
    for k := 0 to |all|
      invariant warnings == WarningTexts(HttpsWarnings(all[..k]))
    {
      SelectSnoc(all, k, LacksHttps, HttpsWarning);
      assert HttpsWarnings(all[..k + 1]) ==
        HttpsWarnings(all[..k]) + (if LacksHttps(all[k]) then [NonHttpsEvidence(all[k].url)] else []);
      if !StartsWith(all[k].url, "https://") {
        WarningTextsSnoc(HttpsWarnings(all[..k]), NonHttpsEvidence(all[k].url));
        warnings := warnings + [WarningText(NonHttpsEvidence(all[k].url))];
      } else {
        assert HttpsWarnings(all[..k + 1]) == HttpsWarnings(all[..k]);
      }
    }
    assert all[..|all|] == all;
  }

  /** The age check over the collected evidence. */
  method StalePhase(all: seq<Evidence>, cutoff: int) returns (warnings: seq<string>)
    ensures warnings == WarningTexts(StaleWarnings(all, cutoff))
  {
    warnings := [];
    for k := 0 to |all|
      invariant warnings == WarningTexts(StaleWarnings(all[..k], cutoff))
    {
      SelectSnoc(all, k, ev => IsStale(ev, cutoff), OldEvidenceWarning);
      assert StaleWarnings(all[..k + 1], cutoff) ==
        StaleWarnings(all[..k], cutoff) + (if IsStale(all[k], cutoff) then [OldEvidence(all[k].date, all[k].source)] else []);
      var day := EvidenceDay(all[k].date);
      if day.Some? && day.value * MsPerDay < cutoff {
        WarningTextsSnoc(StaleWarnings(all[..k], cutoff), OldEvidence(all[k].date, all[k].source));
        warnings := warnings + [WarningText(OldEvidence(all[k].date, all[k].source))];
      } else {
        assert StaleWarnings(all[..k + 1], cutoff) == StaleWarnings(all[..k], cutoff);
      }
    }
    assert all[..|all|] == all;
  }

  /** Gathers the evidence of every criterion of every dimension, dimension by dimension. */
  method CollectEvidence(tv: TrustVector) returns (all: seq<Evidence>)
    ensures all == AllEvidence(tv)
  {
    all := [];
    for i := 0 to |Dimensions|
      invariant all == EvidenceUpTo(tv, i)
    {
      var criteria := DimensionOf(tv, Dimensions[i]).criteria;
      for j := 0 to |criteria|
        invariant all == EvidenceUpTo(tv, i) + CriteriaEvidence(criteria[..j])
      {
        assert criteria[..j + 1][..j] == criteria[..j];
        all := all + criteria[j].1.evidence;
      }
      assert criteria[..|criteria|] == criteria;
    }
  }

  // ---------------------------------------------------------------- validateEntities

  /** The key a record's result is stored under: its id, or `unknown` when the id is empty or absent. */
  function ResultKey(input: Input): string {
    match input
    case NullInput => "unknown"
    case RecordInput(e) => if e.id == "" then "unknown" else e.id
  }

  /** The result stored for a record; reading the id of `null` throws, and the failure is recorded instead. */
  function EntityResult(input: Input, cutoff: int): ValidationResult {
    match input
    case NullInput => ValidationResult(false, ["Failed to validate entity"], [])
    case RecordInput(_) => Validate(input, cutoff)
  }

  function KeysOf(inputs: seq<Input>): set<string> {
    set k | 0 <= k < |inputs| :: ResultKey(inputs[k])
  }

  lemma KeysOfSnoc(inputs: seq<Input>, k: nat)
    requires k < |inputs|
    ensures KeysOf(inputs[..k + 1]) == KeysOf(inputs[..k]) + {ResultKey(inputs[k])}
  {
    var before, after := inputs[..k], inputs[..k + 1];
    assert after[k] == inputs[k];
    forall key | key in KeysOf(after) ensures key in KeysOf(before) + {ResultKey(inputs[k])} {
      var m :| 0 <= m < |after| && ResultKey(after[m]) == key;
      if m < k {
        assert before[m] == after[m];
      }
    }
    forall key | key in KeysOf(before) ensures key in KeysOf(after) {
      var m :| 0 <= m < |before| && ResultKey(before[m]) == key;
      assert after[m] == before[m];
    }
  }

  /** The position of the last record stored under `key`: its result is the one the map keeps. */
  function LastIndexOfKey(inputs: seq<Input>, key: string): (r: Option<nat>)
    ensures r.None? <==> key !in KeysOf(inputs)
    ensures r.Some? ==> r.value < |inputs| && ResultKey(inputs[r.value]) == key
    ensures r.Some? ==> forall l :: r.value < l < |inputs| ==> ResultKey(inputs[l]) != key
  {
    if |inputs| == 0 then None
    else if ResultKey(inputs[|inputs| - 1]) == key then Some(|inputs| - 1)
    else
      var r := LastIndexOfKey(inputs[..|inputs| - 1], key);
      assert KeysOf(inputs) == KeysOf(inputs[..|inputs| - 1]) + {ResultKey(inputs[|inputs| - 1])} by {
        KeysOfSnoc(inputs, |inputs| - 1);
        assert inputs[..|inputs|] == inputs;
      }
      r
  }

  /** One step of the batch: the id read failing on `null` is caught and recorded as a failure. */
  method ValidateRecord(input: Input, cutoff: int) returns (result: ValidationResult)
    ensures result == EntityResult(input, cutoff)
  {
    if input.NullInput? {
      result := ValidationResult(false, ["Failed to validate entity"], []);
    } else {
      result := ValidateEntity(input, cutoff);
    }
  }

  /**
   * `validateEntities`: the overall flag is the conjunction of the
   * records' flags, and the map holds, for every key that occurs, the
   * result of the last record stored under it.
   */
  method ValidateEntities(inputs: seq<Input>, cutoff: int) returns (valid: bool, results: map<string, ValidationResult>)
    ensures valid <==> forall i :: 0 <= i < |inputs| ==> EntityResult(inputs[i], cutoff).valid
    ensures results.Keys == KeysOf(inputs)
    ensures forall key :: key in results ==>
      LastIndexOfKey(inputs, key).Some? &&
      results[key] == EntityResult(inputs[LastIndexOfKey(inputs, key).value], cutoff)
  {
    valid := true;
    results := map[];
    ghost var rs: seq<ValidationResult> := [];
    BatchStart(inputs, cutoff);
    for k := 0 to |inputs|
      invariant BatchState(inputs, cutoff, k, valid, results, rs)
    {
      valid, results, rs := ValidateNext(inputs, cutoff, k, valid, results, rs);
    }
    BatchDone(inputs, cutoff, valid, results, rs);
  }

  lemma BatchStart(inputs: seq<Input>, cutoff: int)
    ensures BatchState(inputs, cutoff, 0, true, map[], [])
  {
    assert KeysOf(inputs[..0]) == {};
  }

  lemma BatchDone(inputs: seq<Input>, cutoff: int, valid: bool,
                  results: map<string, ValidationResult>, rs: seq<ValidationResult>)
    requires BatchState(inputs, cutoff, |inputs|, valid, results, rs)
    ensures valid <==> forall i :: 0 <= i < |inputs| ==> EntityResult(inputs[i], cutoff).valid
    ensures results.Keys == KeysOf(inputs)
    ensures forall key :: key in results ==>
      LastIndexOfKey(inputs, key).Some? &&
      results[key] == EntityResult(inputs[LastIndexOfKey(inputs, key).value], cutoff)
  {
    assert inputs[..|inputs|] == inputs;
    ResultsValid(rs, inputs, cutoff);
    StoredResults(results, inputs, rs, cutoff);
  }

  /** What the batch loop keeps after `k` records: their results, the flag, and the map. */
  ghost predicate BatchState(inputs: seq<Input>, cutoff: int, k: nat, valid: bool,
                             results: map<string, ValidationResult>, rs: seq<ValidationResult>)
  {
    && k <= |inputs|
    && |rs| == k && ResultsOf(rs, inputs, cutoff)
    && (valid <==> AllValid(rs))
    && results.Keys == KeysOf(inputs[..k])
    && StoredAsLast(results, inputs[..k], rs)
  }

  /** The body of the batch loop: validate record `k`, clear the flag on failure, store the result under its key. */
  method ValidateNext(inputs: seq<Input>, cutoff: int, k: nat, valid: bool,
                      results: map<string, ValidationResult>, ghost rs: seq<ValidationResult>)
    returns (valid': bool, results': map<string, ValidationResult>, ghost rs': seq<ValidationResult>)
    requires k < |inputs| && BatchState(inputs, cutoff, k, valid, results, rs)
    ensures BatchState(inputs, cutoff, k + 1, valid', results', rs')
  {
    var result := ValidateRecord(inputs[k], cutoff);
    valid' := valid;
    if !result.valid {
      valid' := false;
    }
    KeysOfSnoc(inputs, k);
    PrefixSnoc(inputs, k);
    StoreStep(results, inputs[..k], rs, inputs[k], result);
    results' := results[ResultKey(inputs[k]) := result];
    ResultsOfSnoc(rs, inputs, cutoff, result);
    AllValidSnoc(rs, result);
    rs' := rs + [result];
  }

  lemma PrefixSnoc(inputs: seq<Input>, k: nat)
    requires k < |inputs|
    ensures inputs[..k + 1] == inputs[..k] + [inputs[k]]
  {
  }

  /** Every key of the map holds the result of the last record stored under it. */
  ghost predicate StoredAsLast(results: map<string, ValidationResult>, ins: seq<Input>, rs: seq<ValidationResult>) {
    |rs| == |ins| &&
    forall key :: key in results ==>
      LastIndexOfKey(ins, key).Some? && results[key] == rs[LastIndexOfKey(ins, key).value]
  }

  lemma StoreStep(results: map<string, ValidationResult>, ins: seq<Input>, rs: seq<ValidationResult>, x: Input, r: ValidationResult)
    requires StoredAsLast(results, ins, rs)
    ensures StoredAsLast(results[ResultKey(x) := r], ins + [x], rs + [r])
  {
    var ins', rs' := ins + [x], rs + [r];
    assert ins'[..|ins|] == ins;
    forall key | key in results[ResultKey(x) := r]
      ensures LastIndexOfKey(ins', key).Some? && results[ResultKey(x) := r][key] == rs'[LastIndexOfKey(ins', key).value]
    {
      if key != ResultKey(x) {
        assert LastIndexOfKey(ins', key) == LastIndexOfKey(ins, key);
        assert rs'[LastIndexOfKey(ins, key).value] == rs[LastIndexOfKey(ins, key).value];
      }
    }
  }

  lemma StoredResults(results: map<string, ValidationResult>, inputs: seq<Input>, rs: seq<ValidationResult>, cutoff: int)
    requires StoredAsLast(results, inputs, rs) && ResultsOf(rs, inputs, cutoff)
    ensures forall key :: key in results ==>
      LastIndexOfKey(inputs, key).Some? &&
      results[key] == EntityResult(inputs[LastIndexOfKey(inputs, key).value], cutoff)
  {
  }

  /** `rs` holds the results of the first `|rs|` records. */
  ghost predicate ResultsOf(rs: seq<ValidationResult>, inputs: seq<Input>, cutoff: int) {
    |rs| <= |inputs| && forall i :: 0 <= i < |rs| ==> rs[i] == EntityResult(inputs[i], cutoff)
  }

  predicate AllValid(rs: seq<ValidationResult>) {
    forall i :: 0 <= i < |rs| ==> rs[i].valid
  }

  lemma ResultsOfSnoc(rs: seq<ValidationResult>, inputs: seq<Input>, cutoff: int, result: ValidationResult)
    requires ResultsOf(rs, inputs, cutoff) && |rs| < |inputs| && result == EntityResult(inputs[|rs|], cutoff)
    ensures ResultsOf(rs + [result], inputs, cutoff)
  {
  }

  lemma AllValidSnoc(rs: seq<ValidationResult>, result: ValidationResult)
    ensures AllValid(rs + [result]) <==> AllValid(rs) && result.valid
  {
    assert forall i :: 0 <= i < |rs| ==> (rs + [result])[i] == rs[i];
    assert (rs + [result])[|rs|] == result;
  }

  lemma ResultsValid(rs: seq<ValidationResult>, inputs: seq<Input>, cutoff: int)
    requires ResultsOf(rs, inputs, cutoff) && |rs| == |inputs|
    ensures AllValid(rs) <==> forall i :: 0 <= i < |inputs| ==> EntityResult(inputs[i], cutoff).valid
  {
  }

  // ---------------------------------------------------------------- formatValidationResults

  const PassedHeader: string := "\U{2705} Validation passed!"
  const FailedHeader: string := "\U{274C} Validation failed:"

  function Bullets(items: seq<string>): (lines: seq<string>)
    ensures |lines| == |items|
  {
    seq(|items|, i requires 0 <= i < |items| => "  - " + items[i])
  }

  function Header(r: ValidationResult): string {
    if r.valid then PassedHeader else FailedHeader
  }

  /** A non-empty section as pushed: its title, behind a line break of its own, then one bullet per entry. */
  function PushedSection(title: string, items: seq<string>): seq<string> {
    if |items| > 0 then ["\n" + title] + Bullets(items) else []
  }

  /** A non-empty section as a reader sees it: an empty line, its title, then one bullet per entry. */
  function ShownSection(title: string, items: seq<string>): seq<string> {
    if |items| > 0 then ["", title] + Bullets(items) else []
  }

  /** The lines the source pushes. */
  function FormatLines(r: ValidationResult): seq<string> {
    [Header(r)] + PushedSection("Errors:", r.errors) + PushedSection("Warnings:", r.warnings)
  }

  /** The lines a reader sees. */
  function DisplayLines(r: ValidationResult): seq<string> {
    [Header(r)] + ShownSection("Errors:", r.errors) + ShownSection("Warnings:", r.warnings)
  }

  /**
   * `formatValidationResults`: the pushed lines joined with line breaks.
   */
  method FormatValidationResults(r: ValidationResult) returns (text: string)
    ensures text == Join(FormatLines(r), "\n")
  {
    var lines: seq<string> := [Header(r)];
    lines := PushSection(lines, "Errors:", r.errors);
    lines := PushSection(lines, "Warnings:", r.warnings);
    text := Join(lines, "\n");
  }

  /** Pushes a section's title and bullets when it has entries. */
  method PushSection(lines: seq<string>, title: string, items: seq<string>) returns (pushed: seq<string>)
    ensures pushed == lines + PushedSection(title, items)
  {
    pushed := lines;
    if |items| > 0 {
      pushed := pushed + ["\n" + title];
      ghost var before := pushed;
      for i := 0 to |items|
        invariant pushed == before + Bullets(items[..i])
      {
        assert Bullets(items[..i + 1]) == Bullets(items[..i]) + ["  - " + items[i]];
        pushed := pushed + ["  - " + items[i]];
      }
      assert items[..|items|] == items;
    }
  }

  /** A section pushed with its leading line break reads as an empty line before its title. */
  lemma SectionText(title: string, items: seq<string>)
    ensures PushedSection(title, items) == [] <==> ShownSection(title, items) == []
    ensures Join(PushedSection(title, items), "\n") == Join(ShownSection(title, items), "\n")
  {
    if |items| > 0 {
      JoinConcat(["\n" + title], Bullets(items), "\n");
      JoinConcat(["", title], Bullets(items), "\n");
      assert ["", title][1..] == [title];
    }
  }

  lemma {:induction false} JoinDisplay(head: string, e1: seq<string>, e2: seq<string>, w1: seq<string>, w2: seq<string>)
    requires (e1 == [] <==> e2 == []) && (w1 == [] <==> w2 == [])
    requires Join(e1, "\n") == Join(e2, "\n") && Join(w1, "\n") == Join(w2, "\n")
    ensures Join([head] + e1 + w1, "\n") == Join([head] + e2 + w2, "\n")
  {
    if e1 != [] {
      JoinConcat([head], e1, "\n");
      JoinConcat([head], e2, "\n");
    } else {
      assert [head] + e1 == [head] + e2;
    }
    assert Join([head] + e1, "\n") == Join([head] + e2, "\n");
    if w1 == [] {
      assert [head] + e1 + w1 == [head] + e1 && [head] + e2 + w2 == [head] + e2;
    } else {
      JoinConcat([head] + e1, w1, "\n");
      JoinConcat([head] + e2, w2, "\n");
    }
  }

  /**
   * Read back line by line, the text gives the header, then for each
   * non-empty section an empty line, its title and one bullet per entry,
   * as long as no error or warning holds a line break itself.
   */
  lemma FormatReadsBack(r: ValidationResult)
    requires forall i :: 0 <= i < |r.errors| ==> '\n' !in r.errors[i]
    requires forall i :: 0 <= i < |r.warnings| ==> '\n' !in r.warnings[i]
    ensures Split(Join(FormatLines(r), "\n"), '\n') == DisplayLines(r)
  {
    FormatJoinsDisplay(r);
    DisplayLinesUnbroken(r);
    SplitJoin(DisplayLines(r), '\n');
  }

  lemma FormatJoinsDisplay(r: ValidationResult)
    ensures Join(FormatLines(r), "\n") == Join(DisplayLines(r), "\n")
  {
    SectionText("Errors:", r.errors);
    SectionText("Warnings:", r.warnings);
    JoinDisplay(Header(r), PushedSection("Errors:", r.errors), ShownSection("Errors:", r.errors),
      PushedSection("Warnings:", r.warnings), ShownSection("Warnings:", r.warnings));
  }

  lemma DisplayLinesUnbroken(r: ValidationResult)
    requires forall i :: 0 <= i < |r.errors| ==> '\n' !in r.errors[i]
    requires forall i :: 0 <= i < |r.warnings| ==> '\n' !in r.warnings[i]
    ensures forall k :: 0 <= k < |DisplayLines(r)| ==> '\n' !in DisplayLines(r)[k]
  {
    ShownSectionUnbroken("Errors:", r.errors);
    ShownSectionUnbroken("Warnings:", r.warnings);
    assert Unbroken([Header(r)]);
    UnbrokenConcat([Header(r)], ShownSection("Errors:", r.errors));
    UnbrokenConcat([Header(r)] + ShownSection("Errors:", r.errors), ShownSection("Warnings:", r.warnings));
  }

  /** No line holds a line break. */
  predicate Unbroken(lines: seq<string>) {
    forall k :: 0 <= k < |lines| ==> '\n' !in lines[k]
  }

  lemma UnbrokenConcat(a: seq<string>, b: seq<string>)
    requires Unbroken(a) && Unbroken(b)
    ensures Unbroken(a + b)
  {
    forall k | 0 <= k < |a + b| ensures '\n' !in (a + b)[k] {
      if k >= |a| {
        assert (a + b)[k] == b[k - |a|];
      }
    }
  }

  lemma ShownSectionUnbroken(title: string, items: seq<string>)
    requires '\n' !in title
    requires forall i :: 0 <= i < |items| ==> '\n' !in items[i]
    ensures Unbroken(ShownSection(title, items))
  {
    if |items| > 0 {
      forall i | 0 <= i < |items| ensures '\n' !in Bullets(items)[i] {
        assert Bullets(items)[i] == "  - " + items[i];
      }
      assert Unbroken(["", title]);
      UnbrokenConcat(["", title], Bullets(items));
    }
  }
}
