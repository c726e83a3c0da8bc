# TrustVector scoring and validation engine in Dafny

This project models the scoring and validation engine of TrustVector, which
scores AI systems (models, agents and MCP tools) along five trust dimensions:
performance_reliability, security, privacy_compliance, trust_transparency and
operational_excellence.

Two parts of the engine are modelled:

- **The custom weighted score engine** (`framework/calculator/custom-score.ts`).
  - Weight vectors and the table of eight named weighting profiles.
  - Weight validation and normalisation.
  - The rounded weighted score of one entity.
  - Scoring a list into a map, ranking a list stably by descending score, the best entity under a profile, and the per-entity, per-profile score/rank table.
  - The `-`-joined percentage form of a weight vector, its parser, and the `weights` value of a shareable link.
  - The keyword-based profile suggestion.
- **The evaluation-record validator** (`framework/schema/validator.ts`).
  - The zod schemas, as datatypes and a structural predicate.
  - `validateEntity`: a structural phase whose failure ends the validation with one `path.joined: message` error per issue, then a quality phase that only adds warnings. The warnings cover score mismatches, non-HTTPS evidence, stale evidence and missing use-case ratings.
  - `validateEntities`: the batch into a map keyed by id.
  - `formatValidationResults`: the text rendering.

Modules:

| file | module | contents |
|---|---|---|
| `wrappers.dfy` | `Wrappers` | `Option`, `Result` |
| `text.dfy` | `Text` | decimal digits, `split`/`join`, `startsWith`/`includes`, ASCII lower-casing |
| `schema.dfy` | `Schema` | the record types: `Evidence`, `CriterionScore`, `DimensionScore`, `TrustVector`, `UseCaseRating`, `Entity` |
| `custom_score.dfy` | `CustomScore` | the pure part of the score engine |
| `ranking.dfy` | `Ranking` | the loop and sort part of the score engine |
| `structure.dfy` | `Structure` | the zod schemas: issues in parser order, and the matching predicates |
| `validator.dfy` | `Validator` | `validateEntity`, `validateEntities`, `formatValidationResults` |

Conventions of the model:

- Numbers are `real`, and `Math.round(x)` is `Floor(x + 1/2)`.
- The functions of the score engine that throw return a `Result`.
- The in-place sort of `rankByCustomScore` is an insertion sort on an `array`. A ghost permutation records where each element came from.
- The maps that `calculateCustomScores`, `compareAcrossProfiles` and `validateEntities` fill are Dafny `map`s, updated in loops.
- The clock is a parameter: `cutoff`, the instant one year before validation, in milliseconds since 1970.

Two statements one might expect do not hold for the code. Both are proved as lemmas:

- Under the 0.01 tolerance, a score can be 101 (`CustomScore.CustomScoreCanExceedHundred`). The [0, 100] bound holds when the weights sum to exactly 1 (`CustomScore.CustomScoreInRange`).
- The string form does not round-trip every valid weight vector, even approximately. Rounding each weight to a whole percentage can move the sum out of tolerance, and parsing then returns null (`CustomScore.RoundTripCanFail`). The round trip is exact for valid weights that are whole percentages, and for no others (`CustomScore.WeightsRoundTrip`).

## Model

| member | source | states |
|---|---|---|
| CustomScore.LookupProfile | framework/calculator/custom-score.ts:22-111 | a key finds a profile exactly when it is one of the table's eight own keys, and the profile found is the one stored under it |
| CustomScore.ProfileKeysDistinct | framework/calculator/custom-score.ts:22-111 | the eight profile keys are pairwise distinct |
| CustomScore.ProfilesAreValid | framework/calculator/custom-score.ts:22-111 | every predefined profile passes weight validation |
| CustomScore.FirstOutOfRange | framework/calculator/custom-score.ts:219-226 | finds the first component, in canonical order, outside [0, 1], or reports that there is none |
| CustomScore.ValidateWeights | framework/calculator/custom-score.ts:217-238 | valid exactly when every component is in [0, 1] and the sum is within 0.01 of 1; an out-of-range component is reported before the sum, and it is the first such component in canonical order, with its value; a sum error carries the sum |
| CustomScore.Round | framework/calculator/custom-score.ts:135 | the result is the integer nearest the input, with halves rounded up |
| CustomScore.CalculateCustomScore | framework/calculator/custom-score.ts:116-136 | fails exactly when the sum is more than 0.01 from 1, reporting that sum; otherwise returns the weighted sum of the five overall scores, rounded to the nearest integer |
| CustomScore.WeightedSumBounds | framework/calculator/custom-score.ts:128-133 | with scores in [0, 100] and non-negative weights, the weighted sum lies in [0, 100 × sum of weights] |
| CustomScore.CustomScoreInRange | framework/calculator/custom-score.ts:116-136 | with scores in [0, 100] and non-negative weights summing to exactly 1, the score succeeds and lies in [0, 100] |
| CustomScore.CustomScoreWithinTolerance | framework/calculator/custom-score.ts:120-135 | with scores in [0, 100] and non-negative weights within tolerance, the score succeeds and lies in [0, 101] |
| CustomScore.CustomScoreCanExceedHundred | framework/calculator/custom-score.ts:120-135 | weights 0.205, 0.2, 0.2, 0.2, 0.2 (sum 1.005) pass validation, and on all-100 scores they give 100.5, which rounds to 101 |
| CustomScore.BalancedScoreExample | framework/calculator/custom-score.ts:128-135 | the balanced profile on scores 80/90/70/85/75 gives 80 |
| CustomScore.ShortWeightsRejected | framework/calculator/custom-score.ts:121-124 | weights summing to 0.95 fail with that sum |
| CustomScore.NormalizeWeights | framework/calculator/custom-score.ts:243-258 | a zero sum gives the balanced weights; otherwise each component times the input sum is the input component, and the result sums to 1 |
| CustomScore.NormalizedWeightsAreValid | framework/calculator/custom-score.ts:243-258 | normalising non-negative weights always yields weights that pass validation |
| CustomScore.NormalizeIdempotent | framework/calculator/custom-score.ts:243-258 | normalising twice gives the same result as normalising once |
| CustomScore.ParseAll | framework/calculator/custom-score.ts:273-275 | every part is read as a number, or the parse fails naming a part that is not one |
| CustomScore.WeightsFromString | framework/calculator/custom-score.ts:272-293 | an accepted string has exactly five `-`-separated numeric parts, each reading as the hundredths of its component in canonical order; the weights returned pass validation and are whole percentages |
| CustomScore.WeightsFromStringComplete | framework/calculator/custom-score.ts:272-293 | conversely, a string whose five parts spell weights that pass validation parses to exactly those weights, so every string's result is determined |
| CustomScore.WholePercentageParts | framework/calculator/custom-score.ts:263-267 | splitting the string form at `-` gives back the five decimal percentages |
| CustomScore.BalancedWeightsString | framework/calculator/custom-score.ts:263-267 | the balanced weights are written `20-20-20-20-20` |
| CustomScore.WeightsRoundTripComplete | framework/calculator/custom-score.ts:263-293 | valid weights that are whole percentages are parsed back from their string form exactly |
| CustomScore.WeightsRoundTrip | framework/calculator/custom-score.ts:263-293 | the string form parses back to the same weights if and only if they are valid and whole percentages |
| CustomScore.ProfilesRoundTrip | framework/calculator/custom-score.ts:22-111 | every predefined profile survives the trip through its string form |
| CustomScore.RoundTripCanFail | framework/calculator/custom-score.ts:263-293 | weights of 0.204 ×4 and 0.184 pass validation, but their string form `20-20-20-20-18` parses to null |
| CustomScore.GenerateShareableUrl | framework/calculator/custom-score.ts:298-311 | the link starts with the base, `?weights=` and the string form of the weights |
| CustomScore.ShareableUrlCarriesWeights | framework/calculator/custom-score.ts:298-311 | the `weights` value of a link ends at the end of the link or at `&`, and for valid whole-percentage weights it parses back to those weights |
| CustomScore.FirstMatchingRule | framework/calculator/custom-score.ts:319-345 | finds the first keyword rule, in order, whose keywords occur in the text, or reports that none does |
| CustomScore.SuggestProfile | framework/calculator/custom-score.ts:316-348 | the answer is always a profile key: that of the first rule matching the lower-cased text, or `balanced` when no rule matches |
| CustomScore.SuggestHealthcareExample | framework/calculator/custom-score.ts:316-321 | "HIPAA-compliant healthcare deployment" is matched by the health rule |
| Ranking.CalculateCustomScores | framework/calculator/custom-score.ts:141-152 | fails exactly when there is an entity to score and the weights are out of tolerance; otherwise the keys are the input ids, and each id maps to the score of its last entity in the list |
| Ranking.LastIndexOfId | framework/calculator/custom-score.ts:147-149 | an id that occurs is found at its last position, and one that does not is not found |
| Ranking.LastIndexOfDistinct | framework/calculator/custom-score.ts:147-149 | with distinct ids, each entity is the last holder of its own id |
| Ranking.SortByScoreDescending | framework/calculator/custom-score.ts:166 | the array after the sort is a permutation of the array before it, recorded element by element; scores are non-increasing, and equal scores keep their input order |
| Ranking.InsertNext | framework/calculator/custom-score.ts:166 | one pass of the insertion sort: the array stays a recorded permutation of the original, and the prefix sorted by descending score, ties in input order, grows by one |
| Ranking.ScoreEach | framework/calculator/custom-score.ts:161-164 | fails exactly when there is an entity to score and the weights are out of tolerance; otherwise pairs every entity with its score, in input order |
| Ranking.RankedFromSorted | framework/calculator/custom-score.ts:166-171 | numbering the stably sorted scored list from 1 gives the stable ranking of the input |
| Ranking.RankByCustomScore | framework/calculator/custom-score.ts:157-172 | fails as the score does; otherwise the result is a permutation of the input with each entity's score and rank `index + 1`, in non-increasing score order, with ties in input order |
| Ranking.StableRankingUnique | framework/calculator/custom-score.ts:157-172 | there is exactly one stable ranking of a list, with exactly one permutation |
| Ranking.FirstRankedIsFirstBest | framework/calculator/custom-score.ts:184-186 | the rank-1 entity has a score at least every entity's score, and strictly above that of every entity before it in the input |
| Ranking.ProfileWeights | framework/calculator/custom-score.ts:183 | the weights of a profile key are that profile's weights, and they pass validation |
| Ranking.FindBestForProfile | framework/calculator/custom-score.ts:177-187 | null exactly for an empty list, whatever the key; a key that is not a profile key fails on a non-empty list, as reading the missing profile's weights throws; otherwise the first entity of highest score under the profile, with its score and rank 1 |
| Ranking.RankingKeepsIds | framework/calculator/custom-score.ts:157-172 | a ranking holds exactly the ids of its input |
| Ranking.DistinctIdsRankedOnce | framework/calculator/custom-score.ts:200-207 | with distinct ids, the table cell an entity gets from a ranking is its own score and rank |
| Ranking.RecordEntryStep | framework/calculator/custom-score.ts:200-207 | recording one ranked entry extends the rows recorded so far by that entry's cell |
| Ranking.RecordRanking | framework/calculator/custom-score.ts:200-208 | the table gains a row for each ranked id; each row is the old row with, under the profile key, the cell of that id's last entry in the ranking |
| Ranking.TabulateStep | framework/calculator/custom-score.ts:197-208 | recording the ranking under the next profile key extends every row by that key's cell |
| Ranking.TabulateProfile | framework/calculator/custom-score.ts:197-208 | one turn of the outer loop: ranks stably under the next profile and records the ranking in the table |
| Ranking.AppendStableRanking | framework/calculator/custom-score.ts:197-198 | the rankings gathered so far remain the stable rankings under their profiles |
| Ranking.CompareAcrossProfiles | framework/calculator/custom-score.ts:192-212 | the table has a row for each input id; under each profile key, the row holds the score and rank of that id's last entry in the stable ranking under that profile, and nothing else |
| Structure.IssueText | framework/schema/validator.ts:128 | an error line starts with the issue's path joined by dots |
| Structure.DateShapeOnly | framework/schema/validator.ts:14 | the date pattern checks only the shape: `2024-13-45` passes, `2024-1-05` and `2024/01/05` do not |
| Structure.EvidenceIssues | framework/schema/validator.ts:11-17 | no issue exactly when source and value are non-empty, the url is valid and the date has the `YYYY-MM-DD` shape; every issue is under the evidence's path |
| Structure.EvidenceListIssues | framework/schema/validator.ts:23 | no issue exactly when every evidence item is well formed |
| Structure.OptionalScoreIssues | framework/schema/validator.ts:20 | no issue exactly when the score is absent or in [0, 100] |
| Structure.RatingIssues | framework/schema/validator.ts:20-22 | no issue exactly when the score is absent or in [0, 100] and the confidence is high, medium or low |
| Structure.CriterionEvidenceIssues | framework/schema/validator.ts:23 | no issue exactly when there is at least one evidence item and each is well formed |
| Structure.ProvenanceIssues | framework/schema/validator.ts:24-25 | no issue exactly when the methodology has at least 10 characters and last_verified has the date shape |
| Structure.CriterionIssues | framework/schema/validator.ts:19-30 | no issue exactly when the criterion satisfies every field constraint and has a score or a value |
| Structure.RefinementReported | framework/schema/validator.ts:19-30 | the "Either score or value must be provided" issue is reported exactly for a criterion with neither score nor value whose confidence is one of the three levels; an invalid confidence aborts the criterion's parse and the refinement is skipped |
| Structure.CriteriaIssues | framework/schema/validator.ts:34 | no issue exactly when every criterion of the record is well formed; every issue lies under the record's path |
| Structure.DimensionIssues | framework/schema/validator.ts:32-36 | no issue exactly when the overall score is in [0, 100] and every criterion is well formed |
| Structure.TrustVectorOkFields | framework/schema/validator.ts:88-94 | the trust vector is well formed exactly when each of its five dimensions is |
| Structure.TrustVectorIssues | framework/schema/validator.ts:88-94 | no issue exactly when all five dimensions are well formed; every issue lies under `trust_vector` |
| Structure.UseCaseIssues | framework/schema/validator.ts:38-42 | no issue exactly when the overall rating is in [0, 100] and the notes have at least 10 characters |
| Structure.UseCaseListIssues | framework/schema/validator.ts:96 | no issue exactly when every use-case rating is well formed |
| Structure.LengthIssues | framework/schema/validator.ts:98-100 | no issue exactly when the count lies within the bounds |
| Structure.HeaderIssues | framework/schema/validator.ts:78-86 | no issue exactly when the id is kebab-case, the type is model, mcp or agent, the required strings are non-empty, last_evaluated has the date shape, the description has 10 to 500 characters, and a website, if given, is a url |
| Structure.ListIssues | framework/schema/validator.ts:98-100 | no issue exactly when there are 3 to 7 strengths, 2 to 7 limitations and 2 to 5 best_for entries |
| Structure.EntityIssues | framework/schema/validator.ts:77-107 | no issue exactly when the record satisfies every constraint of the schema |
| Structure.MissingScoreAndValueReported | framework/schema/validator.ts:27-30 | a criterion with neither score nor value, and a valid confidence, is reported at its own path with "Either score or value must be provided" |
| Structure.MissingScoreInTrustVector | framework/schema/validator.ts:27-30 | the same issue is among the trust vector's issues |
| Validator.ScoresOfMembers | framework/schema/validator.ts:141-143 | the scores kept are exactly those of the criteria that have one |
| Validator.MeanWithin | framework/schema/validator.ts:146 | the mean of scores within a range lies within that range |
| Validator.CountUpTo | framework/schema/validator.ts:140-155 | a per-dimension count that grows by one only at the flagged position of the dimension counted ends at one exactly when that dimension is among those seen and flagged |
| Validator.MismatchWarningsExact | framework/schema/validator.ts:140-155 | each dimension gets exactly one mismatch warning when it has a scored criterion and the mean of its scores is more than 10 from its overall score, and none otherwise |
| Validator.MismatchThreshold | framework/schema/validator.ts:145-149 | a difference of exactly 10 is no mismatch, 10.5 is one, and a dimension with no scored criterion is never one |
| Validator.CriteriaEvidenceMembers | framework/schema/validator.ts:160-162 | the evidence collected from a dimension is exactly the evidence of its criteria |
| Validator.AllEvidenceMembers | framework/schema/validator.ts:158-163 | the evidence collected from the trust vector is exactly the evidence of every criterion of every dimension |
| Validator.CollectEvidence | framework/schema/validator.ts:158-163 | the loops collect the dimensions' evidence in dimension order |
| Validator.HttpsWarningsExact | framework/schema/validator.ts:165-169 | one "Non-HTTPS evidence URL" warning per evidence item whose url lacks `https://`, and no other |
| Validator.EvidenceDay | framework/schema/validator.ts:176 | a date is read only when it has the `YYYY-MM-DD` shape |
| Validator.EpochDay | framework/schema/validator.ts:176 | `1970-01-01` is day 0 |
| Validator.LeapDayRollsOver | framework/schema/validator.ts:176-177 | `2024-02-30` reads as the same day as `2024-03-01` |
| Validator.ShapeWithoutDate | framework/schema/validator.ts:176-177 | `2024-13-45` is no date, so it never counts as old |
| Validator.StaleWarningsExact | framework/schema/validator.ts:171-180 | one "Old evidence" warning per evidence item dated before the cutoff, and no other |
| Validator.UseCaseWarningOnce | framework/schema/validator.ts:183-185 | an empty use_case_ratings adds exactly one "No use case ratings provided" warning, and a non-empty one adds none |
| Validator.Tenths | framework/schema/validator.ts:151 | the one-decimal rendering of the average is within 0.05 of it |
| Validator.Fixed1Examples | framework/schema/validator.ts:151 | the average renders as `80.3` for 80.25 and as `33.3` for 100/3 |
| Validator.ValidIffWellFormed | framework/schema/validator.ts:120-192 | a result is valid exactly when the input is a record satisfying every constraint of the schema |
| Validator.FailureErrors | framework/schema/validator.ts:124-133 | a structural failure makes the result invalid, with the rendered issues as errors and no warnings, and invalidity comes only from such a failure |
| Validator.FailureSkipsQuality | framework/schema/validator.ts:124-133 | an invalid result has at least one error and no warnings, so no quality check runs |
| Validator.StructuralErrorsListed | framework/schema/validator.ts:127-129 | a structural failure lists one error per issue, in schema order, each starting with the issue's dotted path |
| Validator.NullRejected | framework/schema/validator.ts:124-129 | `null` is rejected with the single error `: Expected object, received null` |
| Validator.MissingScoreAndValueInErrors | framework/schema/validator.ts:27-30 | a criterion with neither score nor value, and a valid confidence, makes the record invalid, with the error `trust_vector.<dimension>.criteria.<key>: Either score or value must be provided` |
| Validator.PassHasNoErrors | framework/schema/validator.ts:135-191 | once the structure passes, the result is valid with no errors, and the warnings are those of the quality phase |
| Validator.RenderIssues | framework/schema/validator.ts:128 | the loop renders every issue, in order |
| Validator.MismatchCheck | framework/schema/validator.ts:141-154 | checking the next dimension adds its mismatch warning, if any, to those of the dimensions before it |
| Validator.MismatchPhase | framework/schema/validator.ts:140-155 | the loop pushes the mismatch warnings in dimension order |
| Validator.HttpsPhase | framework/schema/validator.ts:165-169 | the loop pushes the HTTPS warnings in evidence order |
| Validator.StalePhase | framework/schema/validator.ts:175-180 | the loop pushes the stale-evidence warnings in evidence order |
| Validator.QualityPhase | framework/schema/validator.ts:137-185 | the quality phase pushes the mismatch, HTTPS, stale and use-case warnings, in that order |
| Validator.ValidateEntity | framework/schema/validator.ts:120-192 | the two-phase procedure returns exactly the result of the function `Validate`, which states the outcome declaratively |
| Validator.LastIndexOfKey | framework/schema/validator.ts:204-208 | a key that occurs is found at the last record stored under it, and one that does not is not found |
| Validator.ValidateRecord | framework/schema/validator.ts:205-219 | a record gets its validation result, and `null`, whose id cannot be read, gets the failure "Failed to validate entity" |
| Validator.ValidateNext | framework/schema/validator.ts:204-220 | one turn of the batch keeps the batch invariant: the flag, the keys, and each key's last result |
| Validator.StoredResults | framework/schema/validator.ts:208 | each key holds the result of the last record stored under it |
| Validator.ResultsValid | framework/schema/validator.ts:209-211 | the flag is the conjunction of the records' flags |
| Validator.ValidateEntities | framework/schema/validator.ts:197-223 | the flag is true exactly when every record's result is valid; the keys are the records' ids, with `unknown` for an empty id or for `null`; each key holds the result of the last record stored under it |
| Validator.PushSection | framework/schema/validator.ts:237-245 | a non-empty list pushes its heading and one `  - ` bullet per item; an empty one pushes nothing |
| Validator.SectionText | framework/schema/validator.ts:237-245 | a heading pushed with its leading newline joins to the same text as a blank line followed by the heading |
| Validator.FormatValidationResults | framework/schema/validator.ts:228-248 | the text is the header line, then the errors section and the warnings section, each only when non-empty, joined by newlines |
| Validator.FormatJoinsDisplay | framework/schema/validator.ts:228-248 | the rendered text equals that of the display lines: the header, then for each non-empty section a blank line, its heading and its bullets |
| Validator.FormatReadsBack | framework/schema/validator.ts:228-248 | when no error or warning contains a newline, splitting the text at newlines gives back the display lines |

## Left out

- Floating point: numbers are exact reals, so effects of IEEE doubles (for example 0.1 + 0.2 ≠ 0.3) are not modelled.
- Validator.WarningText: the overall score in the mismatch warning is printed as an integer when whole, and to one decimal otherwise. JavaScript prints the shortest decimal that reads back, so a value like 85.25 would print differently.
- The `toFixed(2)` and template wording of the error messages of `validateWeights` and `calculateCustomScore` is not modelled. The model returns the offending dimension, value or sum instead.
- CustomScore.WeightsFromString: each part is read as a plain string of decimal digits, and the empty part reads as 0, as `Number("")` does. Signs, decimal points, exponents, whitespace and hexadecimal, which `Number()` also accepts, make the model's parse fail.
- CustomScore.SuggestProfile: lower-casing covers ASCII letters only; Unicode case mapping is not modelled.
- Structure.IsUrl: url validity is approximated by the shape `scheme:rest`. WHATWG URL parsing, which zod's `url()` check uses, is not modelled.
- String lengths count characters, not UTF-16 code units.
- The issue wording follows zod 3's default English messages.
- CustomScore.LookupProfile: only the table's own keys find a profile. In JavaScript an inherited property name such as `toString` finds a value that is not a profile; the model treats it as no profile, and `Ranking.FindBestForProfile` fails for it on a non-empty list. In the source, a key with no value at all throws when its `weights` are read (custom-score.ts line 184). For an inherited name, reading `weights` gives `undefined`, and the throw comes later, from `Object.values(undefined)` when the first entity is scored (line 121).
- Only well-typed records and `null` are modelled as inputs. Missing or mistyped fields, other non-object inputs, unknown extra keys and the `metadata` union are left out. The five dimensions are always visited in their canonical order, whatever the key order of the input object. The keyed lists of `criteria` and `use_case_ratings` are visited in document order, whereas `Object.entries` and zod's `z.record` list integer-like keys first, in ascending order, so errors and warnings for such keys can come out in a different order; these lists may also hold duplicate keys, which a parsed JSON object cannot.
- Validator.IsStale: the wall clock is replaced by the `cutoff` parameter. The evidence date is read as midnight UTC, with days past a month's end rolling into the next month. Time zones and the time of day of the cutoff are not modelled, and neither are the year arithmetic of `setFullYear` nor the exact range of dates `new Date` accepts.
- CustomScore.GenerateShareableUrl: the `entities` parameter (the ids joined by `,`, percent-encoded by `URLSearchParams`) is not modelled. The base is written as given, and only the `weights` value, made of digits and `-` that need no encoding, is specified.
- The exception branch "Unknown validation error" (a non-zod exception during parsing) cannot arise for the modelled inputs.
- The object key order of JavaScript `Map`s (insertion order) is not modelled; the maps are Dafny `map`s.
- `calculateOverallScore`, `interpretScore` and `getScoreColor` live in `framework/schema/types.ts`, which is not part of this model.
- `scripts/validate-data.ts` (file reading, console output, process exit) and the user-interface files are not part of this model.
