/**
 * The custom score engine, ranking part: the score map for a list of
 * entities, the stable ranking by score, the best entity under a profile,
 * and the per-entity, per-profile table of scores and ranks.
 */
module Ranking {
  import opened Wrappers
  import opened Schema
  import opened CustomScore

  /** An entity paired with its custom score. */
  datatype Scored = Scored(entity: Entity, score: int)

  /** A ranked entity; `rank` is its 1-based position in the ranking. */
  datatype Ranked = Ranked(entity: Entity, score: int, rank: nat)

  /** One cell of the comparison table: a score and a rank under one profile. */
  datatype ScoreRank = ScoreRank(score: int, rank: nat)

  function Cell(r: Ranked): ScoreRank {
    ScoreRank(r.score, r.rank)
  }

  // ---------------------------------------------------------------- permutations

  function Range(n: nat): (r: seq<nat>)
    ensures |r| == n && forall k :: 0 <= k < n ==> r[k] == k
  {
    seq(n, k => k)
  }

  /** `perm` lists each of the positions 0 .. n-1 exactly once. */
  ghost predicate IsPermutation(perm: seq<nat>, n: nat) {
    && |perm| == n
    && (forall k :: 0 <= k < n ==> perm[k] < n)
    && (forall k, l :: 0 <= k < l < n ==> perm[k] != perm[l])
    && multiset(perm) == multiset(Range(n))
  }

  /** Every position occurs somewhere in a permutation. */
  lemma PermutationCovers(perm: seq<nat>, n: nat, i: nat)
    requires IsPermutation(perm, n) && i < n
    ensures exists k :: 0 <= k < n && perm[k] == i
  {
    assert Range(n)[i] == i;
    assert i in multiset(perm);
  }

  // ---------------------------------------------------------------- stable sort

  /**
   * The order a stable sort with comparator `b.score - a.score` produces:
   * higher score first, and among equal scores the earlier input position.
   */
  predicate ScoredBefore(scoreX: int, posX: nat, scoreY: int, posY: nat) {
    scoreX > scoreY || (scoreX == scoreY && posX < posY)
  }

  /** `s` holds, at each position `k`, the input element `orig[perm[k]]`. */
  ghost predicate Tracks(s: seq<Scored>, orig: seq<Scored>, perm: seq<nat>) {
    |s| == |perm| && forall k :: 0 <= k < |s| ==> perm[k] < |orig| && s[k] == orig[perm[k]]
  }

  /** Positions `0 .. hi-1` of `s` follow `ScoredBefore`. */
  ghost predicate OrderedUpTo(s: seq<Scored>, perm: seq<nat>, hi: nat)
    requires hi <= |s| == |perm|
  {
    forall k, l :: 0 <= k < l < hi ==> ScoredBefore(s[k].score, perm[k], s[l].score, perm[l])
  }

  /**
   * Sorts `a` in place by non-increasing score, keeping equal scores in
   * their input order. `perm[k]` is the input position of the element that
   * ends at position `k`.
   */
  method SortByScoreDescending(a: array<Scored>) returns (ghost perm: seq<nat>)
    modifies a
    ensures IsPermutation(perm, a.Length)
    ensures Tracks(a[..], old(a[..]), perm)
    ensures OrderedUpTo(a[..], perm, a.Length)
  {
    ghost var orig := a[..];
    var n := a.Length;
    perm := Range(n);
    var i := 0;
    while i < n
      invariant 0 <= i <= n
      invariant IsPermutation(perm, n)
      invariant Tracks(a[..], orig, perm)
      invariant forall k :: i <= k < n ==> perm[k] == k
      invariant forall k :: 0 <= k < i ==> perm[k] < i
      invariant OrderedUpTo(a[..], perm, i)
    {
      perm := InsertNext(a, i, orig, perm);
      i := i + 1;
    }
  }

  /** Exchanges positions `j` and `j + 1`. */
  function Swap<T>(s: seq<T>, j: nat): (r: seq<T>)
    requires j + 1 < |s|
    ensures |r| == |s| && r[j] == s[j + 1] && r[j + 1] == s[j]
    ensures forall k :: 0 <= k < |s| && k != j && k != j + 1 ==> r[k] == s[k]
  {
    s[j := s[j + 1]][j + 1 := s[j]]
  }

  /** Positions `0 .. i` other than `j` follow `ScoredBefore`. */
  ghost predicate OrderedExcept(s: seq<Scored>, perm: seq<nat>, i: nat, j: nat)
    requires i < |s| == |perm|
  {
    forall k, l :: 0 <= k < l <= i && k != j && l != j ==> ScoredBefore(s[k].score, perm[k], s[l].score, perm[l])
  }

  /**
   * Where the positions come from during the pass over `i`: everything
   * after `i` is untouched, the element that started at `i` sits at `j`,
   * and the rest of `0 .. i` came from before `i`.
   */
  ghost predicate PassShape(perm: seq<nat>, i: nat, j: nat)
    requires j <= i < |perm|
  {
    && (forall k :: i < k < |perm| ==> perm[k] == k)
    && perm[j] == i
    && (forall k :: 0 <= k <= i && k != j ==> perm[k] < i)
  }

  /**
   * The state inside one insertion pass: the element that started at
   * position `i` now sits at `j`, has passed only lower scores, and the
   * other elements of `0 .. i` are still in order.
   */
  ghost predicate Sinking(s: seq<Scored>, orig: seq<Scored>, perm: seq<nat>, i: nat, j: nat) {
    && j <= i < |s|
    && IsPermutation(perm, |s|)
    && Tracks(s, orig, perm)
    && PassShape(perm, i, j)
    && OrderedExcept(s, perm, i, j)
    && Leads(s, i, j)
  }

  /** The element at `j` scores strictly higher than every element after it up to `i`. */
  ghost predicate Leads(s: seq<Scored>, i: nat, j: nat)
    requires j <= i < |s|
  {
    forall l :: j < l <= i ==> s[j].score > s[l].score
  }

  lemma SinkingStart(s: seq<Scored>, orig: seq<Scored>, perm: seq<nat>, i: nat)
    requires i < |s| && IsPermutation(perm, |s|) && Tracks(s, orig, perm)
    requires forall k :: i <= k < |s| ==> perm[k] == k
    requires forall k :: 0 <= k < i ==> perm[k] < i
    requires OrderedUpTo(s, perm, i)
    ensures Sinking(s, orig, perm, i, i)
  {
  }

  lemma SwapKeepsOrder(s: seq<Scored>, perm: seq<nat>, i: nat, j: nat)
    requires 0 < j <= i < |s| == |perm| && OrderedExcept(s, perm, i, j)
    ensures OrderedExcept(Swap(s, j - 1), Swap(perm, j - 1), i, j - 1)
  {
    var s', perm' := Swap(s, j - 1), Swap(perm, j - 1);
    forall k, l | 0 <= k < l <= i && k != j - 1 && l != j - 1
      ensures ScoredBefore(s'[k].score, perm'[k], s'[l].score, perm'[l])
    {
      var k0 := if k == j then j - 1 else k;
      var l0 := if l == j then j - 1 else l;
      assert s'[k] == s[k0] && perm'[k] == perm[k0];
      assert s'[l] == s[l0] && perm'[l] == perm[l0];
    }
  }

  lemma SwapKeepsTracks(s: seq<Scored>, orig: seq<Scored>, perm: seq<nat>, j: nat)
    requires j + 1 < |s| && Tracks(s, orig, perm)
    ensures Tracks(Swap(s, j), orig, Swap(perm, j))
  {
  }

  lemma SwapKeepsShape(perm: seq<nat>, i: nat, j: nat)
    requires 0 < j <= i < |perm| && PassShape(perm, i, j)
    ensures PassShape(Swap(perm, j - 1), i, j - 1)
  {
  }

  lemma SwapKeepsLead(s: seq<Scored>, i: nat, j: nat)
    requires 0 < j <= i < |s| && s[j - 1].score < s[j].score
    requires Leads(s, i, j)
    ensures Leads(Swap(s, j - 1), i, j - 1)
  {
  }

  lemma SinkingStep(s: seq<Scored>, orig: seq<Scored>, perm: seq<nat>, i: nat, j: nat)
    requires Sinking(s, orig, perm, i, j) && 0 < j && s[j - 1].score < s[j].score
    ensures Sinking(Swap(s, j - 1), orig, Swap(perm, j - 1), i, j - 1)
  {
    SwapKeepsPermutation(perm, |s|, j - 1);
    SwapKeepsTracks(s, orig, perm, j - 1);
    SwapKeepsShape(perm, i, j);
    SwapKeepsOrder(s, perm, i, j);
    SwapKeepsLead(s, i, j);
  }

  lemma SinkingDone(s: seq<Scored>, orig: seq<Scored>, perm: seq<nat>, i: nat, j: nat)
    requires Sinking(s, orig, perm, i, j) && (j == 0 || s[j - 1].score >= s[j].score)
    ensures forall k :: 0 <= k <= i ==> perm[k] <= i
    ensures OrderedUpTo(s, perm, i + 1)
  {
    forall k, l | 0 <= k < l <= i
      ensures ScoredBefore(s[k].score, perm[k], s[l].score, perm[l])
    {
      if l == j && k < j - 1 {
        assert ScoredBefore(s[k].score, perm[k], s[j - 1].score, perm[j - 1]);
      }
    }
  }

  /**
   * One pass of insertion sort: moves `a[i]` left past every element of
   * strictly lower score, so the prefix `0 .. i` becomes ordered.
   */
  method InsertNext(a: array<Scored>, i: nat, ghost orig: seq<Scored>, ghost perm: seq<nat>)
    returns (ghost perm': seq<nat>)
    modifies a
    requires i < a.Length && IsPermutation(perm, a.Length)
    requires Tracks(a[..], orig, perm)
    requires forall k :: i <= k < a.Length ==> perm[k] == k
    requires forall k :: 0 <= k < i ==> perm[k] < i
    requires OrderedUpTo(a[..], perm, i)
    ensures IsPermutation(perm', a.Length)
    ensures Tracks(a[..], orig, perm')
    ensures forall k :: i < k < a.Length ==> perm'[k] == k
    ensures forall k :: 0 <= k <= i ==> perm'[k] <= i
    ensures OrderedUpTo(a[..], perm', i + 1)
  {
    perm' := perm;
    SinkingStart(a[..], orig, perm', i);
    var j: nat := i;
    while j > 0 && a[j - 1].score < a[j].score
      invariant Sinking(a[..], orig, perm', i, j)
    {
      SinkingStep(a[..], orig, perm', i, j);
      ghost var before := a[..];
      a[j - 1], a[j] := a[j], a[j - 1];
      assert a[..] == Swap(before, j - 1);
      perm' := Swap(perm', j - 1);
      j := j - 1;
    }
    SinkingDone(a[..], orig, perm', i, j);
  }

  /** Exchanging two neighbours of a permutation gives a permutation. */
  lemma SwapKeepsPermutation(perm: seq<nat>, n: nat, j: nat)
    requires IsPermutation(perm, n) && j + 1 < n
    ensures IsPermutation(Swap(perm, j), n)
  {
    assert multiset(Swap(perm, j)) == multiset(perm);
  }

  // ---------------------------------------------------------------- ranking

  /**
   * `ranked` is the stable ranking of `entities` under `w`: position `k`
   * holds input entity `perm[k]` with its score and rank `k + 1`, and the
   * positions follow `ScoredBefore`.
   */
  ghost predicate IsStableRanking(entities: seq<Entity>, w: Weights, ranked: seq<Ranked>, perm: seq<nat>) {
    && |ranked| == |entities|
    && IsPermutation(perm, |entities|)
    && (forall k :: 0 <= k < |ranked| ==>
          ranked[k] == Ranked(entities[perm[k]], WeightedScore(entities[perm[k]], w), k + 1))
    && (forall k, l :: 0 <= k < l < |ranked| ==> ScoredBefore(ranked[k].score, perm[k], ranked[l].score, perm[l]))
  }

  /**
   * `rankByCustomScore`: scores every entity (failing as the score does when
   * the weights are out of tolerance and there is an entity to score), sorts
   * stably by descending score and numbers the result from 1.
   */
  method RankByCustomScore(entities: seq<Entity>, w: Weights)
    returns (r: Result<seq<Ranked>, ScoreError>, ghost perm: seq<nat>)
    ensures r.Err? <==> |entities| > 0 && !SumWithinTolerance(w)
    ensures r.Err? ==> r.error == WeightsMustSumToOne(Sum(w))
    ensures r.Ok? ==> IsStableRanking(entities, w, r.value, perm)
  {
    var scored := ScoreEach(entities, w);
    if scored.Err? {
      return Err(scored.error), [];
    }
    var n := |entities|;
    var a := new Scored[n](k requires 0 <= k < n => scored.value[k]);
    assert a[..] == scored.value;
    perm := SortByScoreDescending(a);
    RankedFromSorted(entities, w, scored.value, a[..], perm);
    r := Ok(Numbered(a[..]));
  }

  /** Every entity with its score, in input order. */
  function ScoredOf(entities: seq<Entity>, w: Weights): (s: seq<Scored>)
    ensures |s| == |entities|
  {
    seq(|entities|, k requires 0 <= k < |entities| => Scored(entities[k], WeightedScore(entities[k], w)))
  }

  /** The scoring pass of `rankByCustomScore`; the first score that fails ends it. */
  method ScoreEach(entities: seq<Entity>, w: Weights) returns (r: Result<seq<Scored>, ScoreError>)
    ensures r.Err? <==> |entities| > 0 && !SumWithinTolerance(w)
    ensures r.Err? ==> r.error == WeightsMustSumToOne(Sum(w))
    ensures r.Ok? ==> r.value == ScoredOf(entities, w)
  {
    var scored: seq<Scored> := [];
    for i := 0 to |entities|
      invariant |scored| == i
      invariant i > 0 ==> SumWithinTolerance(w)
      invariant forall k :: 0 <= k < i ==> scored[k] == Scored(entities[k], WeightedScore(entities[k], w))
    {
      var s := CalculateCustomScore(entities[i], w);
      if s.Err? {
        return Err(s.error);
      }
      scored := scored + [Scored(entities[i], s.value)];
    }
    r := Ok(scored);
  }

  /** Positions numbered from 1. */
  function Numbered(sorted: seq<Scored>): (r: seq<Ranked>)
    ensures |r| == |sorted|
  {
    seq(|sorted|, k requires 0 <= k < |sorted| => Ranked(sorted[k].entity, sorted[k].score, k + 1))
  }

  lemma RankedFromSorted(entities: seq<Entity>, w: Weights, scored: seq<Scored>, sorted: seq<Scored>, perm: seq<nat>)
    requires scored == ScoredOf(entities, w)
    requires |sorted| == |entities| && IsPermutation(perm, |entities|)
    requires Tracks(sorted, scored, perm) && OrderedUpTo(sorted, perm, |sorted|)
    ensures IsStableRanking(entities, w, Numbered(sorted), perm)
  {
    var ranked := Numbered(sorted);
    forall k | 0 <= k < |ranked|
      ensures ranked[k] == Ranked(entities[perm[k]], WeightedScore(entities[perm[k]], w), k + 1)
    {
      assert sorted[k] == scored[perm[k]];
    }
  }

  /**
   * The stable ranking is unique: two rankings that both satisfy
   * `IsStableRanking` agree position by position.
   */
  lemma StableRankingUnique(entities: seq<Entity>, w: Weights,
                            r1: seq<Ranked>, p1: seq<nat>, r2: seq<Ranked>, p2: seq<nat>)
    requires IsStableRanking(entities, w, r1, p1) && IsStableRanking(entities, w, r2, p2)
    ensures p1 == p2 && r1 == r2
  {
    SamePrefix(entities, w, r1, p1, r2, p2, |entities|);
  }

  lemma {:induction false} SamePrefix(entities: seq<Entity>, w: Weights,
                                       r1: seq<Ranked>, p1: seq<nat>, r2: seq<Ranked>, p2: seq<nat>, m: nat)
    requires IsStableRanking(entities, w, r1, p1) && IsStableRanking(entities, w, r2, p2)
    requires m <= |entities|
    ensures forall k :: 0 <= k < m ==> p1[k] == p2[k]
  {
    if m > 0 {
      SamePrefix(entities, w, r1, p1, r2, p2, m - 1);
      var k, n := m - 1, |entities|;
      if p1[k] != p2[k] {
        PermutationCovers(p1, n, p2[k]);
        PermutationCovers(p2, n, p1[k]);
      }
    }
  }

  /** The first entry of a non-empty stable ranking is its first entity of maximal score. */
  ghost predicate IsFirstBest(entities: seq<Entity>, w: Weights, i: nat) {
    && i < |entities|
    && (forall l :: 0 <= l < |entities| ==> WeightedScore(entities[l], w) <= WeightedScore(entities[i], w))
    && (forall l :: 0 <= l < i ==> WeightedScore(entities[l], w) < WeightedScore(entities[i], w))
  }

  lemma FirstRankedIsFirstBest(entities: seq<Entity>, w: Weights, ranked: seq<Ranked>, perm: seq<nat>)
    requires IsStableRanking(entities, w, ranked, perm) && |entities| > 0
    ensures IsFirstBest(entities, w, perm[0])
  {
    var n := |entities|;
    forall l | 0 <= l < n
      ensures WeightedScore(entities[l], w) <= WeightedScore(entities[perm[0]], w)
      ensures l < perm[0] ==> WeightedScore(entities[l], w) < WeightedScore(entities[perm[0]], w)
    {
      PermutationCovers(perm, n, l);
      var k :| 0 <= k < n && perm[k] == l;
      if k > 0 {
        assert ScoredBefore(ranked[0].score, perm[0], ranked[k].score, perm[k]);
      }
    }
  }

  // ---------------------------------------------------------------- best entity

  /** The weights of a named profile, which are always valid. */
  function ProfileWeights(key: string): (w: Weights)
    requires IsProfileKey(key)
    ensures ValidateWeights(w) == WeightsOk && SumWithinTolerance(w)
    ensures exists j :: 0 <= j < |WeightingProfiles| && WeightingProfiles[j].0 == key && WeightingProfiles[j].1.weights == w
  {
    ProfilesAreValid();
    LookupProfile(key).value.weights
  }

  /**
   * The `TypeError` of `findBestForProfile` when the key is not one of the
   * table's own keys: the lookup gives no profile (or an inherited property
   * such as `toString`), and reading its weights fails once there is an
   * entity to score.
   */
  datatype ProfileError = UnknownProfile(key: string)

  /**
   * `findBestForProfile`: nothing for an empty list, whatever the key; an
   * unknown key fails on a non-empty list; otherwise the rank-1 entry of the
   * ranking under the profile's weights, which is the first entity of
   * highest score.
   */
  method FindBestForProfile(entities: seq<Entity>, profileKey: string) returns (best: Result<Option<Ranked>, ProfileError>)
    ensures best.Err? <==> |entities| > 0 && !IsProfileKey(profileKey)
    ensures best.Err? ==> best.error == UnknownProfile(profileKey)
    ensures best.Ok? ==> (best.value.None? <==> |entities| == 0)
    ensures best.Ok? && best.value.Some? ==>
      IsProfileKey(profileKey) &&
      exists i: nat :: IsFirstBest(entities, ProfileWeights(profileKey), i)
        && best.value.value == Ranked(entities[i], WeightedScore(entities[i], ProfileWeights(profileKey)), 1)
  {
    if |entities| == 0 {
      return Ok(None);
    }
    if !IsProfileKey(profileKey) {
      return Err(UnknownProfile(profileKey));
    }
    var w := ProfileWeights(profileKey);
    var ranked;
    ghost var perm;
    ranked, perm := RankByCustomScore(entities, w);
    FirstRankedIsFirstBest(entities, w, ranked.value, perm);
    best := Ok(Some(ranked.value[0]));
  }

  // ---------------------------------------------------------------- score maps

  function IdsOf(entities: seq<Entity>): set<string> {
    set k | 0 <= k < |entities| :: entities[k].id
  }

  lemma IdsOfSnoc(entities: seq<Entity>, k: nat)
    requires k < |entities|
    ensures IdsOf(entities[..k + 1]) == IdsOf(entities[..k]) + {entities[k].id}
  {
    var before, after := entities[..k], entities[..k + 1];
    assert after[k] == entities[k];
    forall id | id in IdsOf(after) ensures id in IdsOf(before) + {entities[k].id} {
      var m :| 0 <= m < |after| && after[m].id == id;
      if m < k {
        assert before[m] == after[m];
      }
    }
    forall id | id in IdsOf(before) ensures id in IdsOf(after) {
      var m :| 0 <= m < |before| && before[m].id == id;
      assert after[m] == before[m];
    }
  }

  /**
   * The position of the last entity carrying `id`, which is the one whose
   * entry survives when a `Map` is filled in list order.
   */
  function LastIndexOfId(entities: seq<Entity>, id: string): (r: Option<nat>)
    ensures r.None? <==> id !in IdsOf(entities)
    ensures r.Some? ==> r.value < |entities| && entities[r.value].id == id
    ensures r.Some? ==> forall l :: r.value < l < |entities| ==> entities[l].id != id
  {
    if |entities| == 0 then None
    else if entities[|entities| - 1].id == id then Some(|entities| - 1)
    else
      var r := LastIndexOfId(entities[..|entities| - 1], id);
      assert IdsOf(entities) == IdsOf(entities[..|entities| - 1]) + {entities[|entities| - 1].id} by {
        IdsOfSnoc(entities, |entities| - 1);
        assert entities[..|entities|] == entities;
      }
      r
  }

  /** With distinct ids, the last entity carrying an id is the only one. */
  lemma LastIndexOfDistinct(entities: seq<Entity>, i: nat)
    requires i < |entities|
    requires forall k, l :: 0 <= k < l < |entities| ==> entities[k].id != entities[l].id
    ensures LastIndexOfId(entities, entities[i].id) == Some(i)
  {
  }

  /**
   * `calculateCustomScores`: a map from entity id to custom score, filled in
   * list order, so a repeated id keeps the score of its last occurrence.
   * It fails as the score does when there is an entity to score.
   */
  method CalculateCustomScores(entities: seq<Entity>, w: Weights) returns (r: Result<map<string, int>, ScoreError>)
    ensures r.Err? <==> |entities| > 0 && !SumWithinTolerance(w)
    ensures r.Err? ==> r.error == WeightsMustSumToOne(Sum(w))
    ensures r.Ok? ==> r.value.Keys == IdsOf(entities)
    ensures r.Ok? ==> forall id :: id in r.value ==>
      LastIndexOfId(entities, id).Some? &&
      r.value[id] == WeightedScore(entities[LastIndexOfId(entities, id).value], w)
  {
    var scores: map<string, int> := map[];
    for i := 0 to |entities|
      invariant i > 0 ==> SumWithinTolerance(w)
      invariant scores.Keys == IdsOf(entities[..i])
      invariant forall id :: id in scores ==>
        LastIndexOfId(entities[..i], id).Some? &&
        scores[id] == WeightedScore(entities[LastIndexOfId(entities[..i], id).value], w)
    {
      var s := CalculateCustomScore(entities[i], w);
      if s.Err? {
        return Err(s.error);
      }
      IdsOfSnoc(entities, i);
      assert entities[..i + 1][..i] == entities[..i];
      scores := scores[entities[i].id := s.value];
    }
    assert entities[..|entities|] == entities;
    r := Ok(scores);
  }

  // ---------------------------------------------------------------- comparison table

  function EntitiesOf(ranked: seq<Ranked>): (es: seq<Entity>)
    ensures |es| == |ranked| && forall k :: 0 <= k < |ranked| ==> es[k] == ranked[k].entity
  {
    seq(|ranked|, k requires 0 <= k < |ranked| => ranked[k].entity)
  }

  /** A stable ranking carries exactly the ids of its input. */
  lemma RankingKeepsIds(entities: seq<Entity>, w: Weights, ranked: seq<Ranked>, perm: seq<nat>)
    requires IsStableRanking(entities, w, ranked, perm)
    ensures IdsOf(EntitiesOf(ranked)) == IdsOf(entities)
  {
    var es, n := EntitiesOf(ranked), |entities|;
    forall id | id in IdsOf(entities) ensures id in IdsOf(es) {
      var i :| 0 <= i < n && entities[i].id == id;
      PermutationCovers(perm, n, i);
      var k :| 0 <= k < n && perm[k] == i;
      assert es[k] == entities[i];
    }
    forall id | id in IdsOf(es) ensures id in IdsOf(entities) {
      var k :| 0 <= k < n && es[k].id == id;
      assert es[k] == entities[perm[k]];
    }
  }

  /**
   * With distinct ids, the entry for an entity in a stable ranking is the
   * position it was ranked at, so its table cell is its own score and rank.
   */
  lemma DistinctIdsRankedOnce(entities: seq<Entity>, w: Weights, ranked: seq<Ranked>, perm: seq<nat>, k: nat)
    requires IsStableRanking(entities, w, ranked, perm) && k < |ranked|
    requires forall i, j :: 0 <= i < j < |entities| ==> entities[i].id != entities[j].id
    ensures LastIndexOfId(EntitiesOf(ranked), entities[perm[k]].id) == Some(k)
    ensures RankedCell(ranked, entities[perm[k]].id) == Some(ScoreRank(WeightedScore(entities[perm[k]], w), k + 1))
  {
    var es := EntitiesOf(ranked);
    forall i, j | 0 <= i < j < |es| ensures es[i].id != es[j].id {
      assert es[i] == entities[perm[i]] && es[j] == entities[perm[j]];
      assert perm[i] != perm[j];
    }
    LastIndexOfDistinct(es, k);
  }

  /** The row of `id` in a table, empty when `id` has none yet. */
  function Row(table: map<string, map<string, ScoreRank>>, id: string): map<string, ScoreRank> {
    if id in table then table[id] else map[]
  }

  /** The row of `id` after the ranking `ranked` has been recorded under `key`. */
  function RowAfter(table: map<string, map<string, ScoreRank>>, key: string, ranked: seq<Ranked>, id: string)
    : map<string, ScoreRank>
  {
    match LastIndexOfId(EntitiesOf(ranked), id)
    case Some(k) => Row(table, id)[key := Cell(ranked[k])]
    case None => Row(table, id)
  }

  lemma LastIndexOfSnoc(es: seq<Entity>, e: Entity, id: string)
    ensures LastIndexOfId(es + [e], id) == if e.id == id then Some(|es|) else LastIndexOfId(es, id)
  {
    assert (es + [e])[..|es|] == es;
  }

  lemma RowAfterSnoc(table: map<string, map<string, ScoreRank>>, key: string, ranked: seq<Ranked>, k: nat, id: string)
    requires k < |ranked|
    ensures RowAfter(table, key, ranked[..k + 1], id) ==
      if ranked[k].entity.id == id then Row(table, id)[key := Cell(ranked[k])]
      else RowAfter(table, key, ranked[..k], id)
  {
    assert EntitiesOf(ranked[..k + 1]) == EntitiesOf(ranked[..k]) + [ranked[k].entity];
    LastIndexOfSnoc(EntitiesOf(ranked[..k]), ranked[k].entity, id);
  }

  lemma IdsOfRankedSnoc(ranked: seq<Ranked>, k: nat)
    requires k < |ranked|
    ensures IdsOf(EntitiesOf(ranked[..k + 1])) == IdsOf(EntitiesOf(ranked[..k])) + {ranked[k].entity.id}
  {
    var es := EntitiesOf(ranked[..k + 1]);
    assert es[..k] == EntitiesOf(ranked[..k]);
    assert es[..k + 1] == es;
    IdsOfSnoc(es, k);
  }

  /** `table` after the cell of `r`'s id under `key` has been set. */
  function RecordEntry(table: map<string, map<string, ScoreRank>>, key: string, r: Ranked)
    : map<string, map<string, ScoreRank>>
  {
    table[r.entity.id := Row(table, r.entity.id)[key := Cell(r)]]
  }

  /** The table holds the rows for `table` after the first `k` entries of `ranked`. */
  ghost predicate RecordedUpTo(updated: map<string, map<string, ScoreRank>>,
                               table: map<string, map<string, ScoreRank>>, key: string, ranked: seq<Ranked>, k: nat)
    requires k <= |ranked|
  {
    && updated.Keys == table.Keys + IdsOf(EntitiesOf(ranked[..k]))
    && forall id :: id in updated ==> updated[id] == RowAfter(table, key, ranked[..k], id)
  }

  lemma RecordEntryRow(updated: map<string, map<string, ScoreRank>>,
                       table: map<string, map<string, ScoreRank>>, key: string, ranked: seq<Ranked>, k: nat, other: string)
    requires k < |ranked| && RecordedUpTo(updated, table, key, ranked, k)
    requires other in RecordEntry(updated, key, ranked[k])
    ensures RecordEntry(updated, key, ranked[k])[other] == RowAfter(table, key, ranked[..k + 1], other)
  {
    var id := ranked[k].entity.id;
    RowAfterSnoc(table, key, ranked, k, other);
    if other == id {
      RecordEntryOwnRow(updated, table, key, ranked, k);
    } else {
      assert RecordEntry(updated, key, ranked[k])[other] == updated[other];
    }
  }

  lemma RecordEntryOwnRow(updated: map<string, map<string, ScoreRank>>,
                          table: map<string, map<string, ScoreRank>>, key: string, ranked: seq<Ranked>, k: nat)
    requires k < |ranked| && RecordedUpTo(updated, table, key, ranked, k)
    ensures RecordEntry(updated, key, ranked[k])[ranked[k].entity.id] ==
      Row(table, ranked[k].entity.id)[key := Cell(ranked[k])]
  {
    var id := ranked[k].entity.id;
    OverwrittenCell(updated, table, key, ranked[..k], id, Cell(ranked[k]));
  }

  /** Setting the cell under `key` hides whatever an earlier ranking put there. */
  lemma OverwrittenCell(updated: map<string, map<string, ScoreRank>>,
                        table: map<string, map<string, ScoreRank>>, key: string, prefix: seq<Ranked>,
                        id: string, c: ScoreRank)
    requires id in table ==> id in updated
    requires id in updated ==> updated[id] == RowAfter(table, key, prefix, id)
    ensures Row(updated, id)[key := c] == Row(table, id)[key := c]
  {
    if id in updated {
      match LastIndexOfId(EntitiesOf(prefix), id)
      case Some(m) =>
        assert Row(updated, id) == Row(table, id)[key := Cell(prefix[m])];
      case None =>
    }
  }

  lemma RecordEntryStep(updated: map<string, map<string, ScoreRank>>,
                        table: map<string, map<string, ScoreRank>>, key: string, ranked: seq<Ranked>, k: nat)
    requires k < |ranked| && RecordedUpTo(updated, table, key, ranked, k)
    ensures RecordedUpTo(RecordEntry(updated, key, ranked[k]), table, key, ranked, k + 1)
  {
    var u := RecordEntry(updated, key, ranked[k]);
    IdsOfRankedSnoc(ranked, k);
    forall other | other in u
      ensures u[other] == RowAfter(table, key, ranked[..k + 1], other)
    {
      RecordEntryRow(updated, table, key, ranked, k, other);
    }
  }

  /**
   * The inner loop of `compareAcrossProfiles`: for each ranked entry in
   * order, sets the cell of its id under `key`, creating the row on first
   * sight. A repeated id keeps the cell of its last entry.
   */
  method RecordRanking(table: map<string, map<string, ScoreRank>>, key: string, ranked: seq<Ranked>)
    returns (updated: map<string, map<string, ScoreRank>>)
    ensures updated.Keys == table.Keys + IdsOf(EntitiesOf(ranked))
    ensures forall id :: id in updated ==> updated[id] == RowAfter(table, key, ranked, id)
  {
    updated := table;
    for k := 0 to |ranked|
      invariant RecordedUpTo(updated, table, key, ranked, k)
    {
      RecordEntryStep(updated, table, key, ranked, k);
      var id := ranked[k].entity.id;
      if id !in updated {
        updated := updated[id := map[]];
      }
      updated := updated[id := updated[id][key := Cell(ranked[k])]];
    }
    assert ranked[..|ranked|] == ranked;
  }

  /** The profile keys in table order. */
  function ProfileKeys(): (keys: seq<string>)
    ensures |keys| == |WeightingProfiles|
    ensures forall q :: 0 <= q < |keys| ==> keys[q] == WeightingProfiles[q].0
    ensures forall q, r :: 0 <= q < r < |keys| ==> keys[q] != keys[r]
  {
    ProfileKeysDistinct();
    seq(|WeightingProfiles|, q requires 0 <= q < |WeightingProfiles| => WeightingProfiles[q].0)
  }

  function KeysBefore(keys: seq<string>, p: nat): set<string>
    requires p <= |keys|
  {
    set q | 0 <= q < p :: keys[q]
  }

  lemma KeysBeforeSnoc(keys: seq<string>, p: nat)
    requires p < |keys|
    ensures KeysBefore(keys, p + 1) == KeysBefore(keys, p) + {keys[p]}
  {
    forall x | x in KeysBefore(keys, p + 1) ensures x in KeysBefore(keys, p) + {keys[p]} {
      var q :| 0 <= q < p + 1 && keys[q] == x;
      if q < p {
        assert x in KeysBefore(keys, p);
      }
    }
  }

  /** The cell a ranking gives `id`: the score and rank of its last entry, if any. */
  function RankedCell(ranked: seq<Ranked>, id: string): Option<ScoreRank> {
    match LastIndexOfId(EntitiesOf(ranked), id)
    case Some(k) => Some(Cell(ranked[k]))
    case None => None
  }

  /**
   * The row of `id` holds, for each of the first `p` keys, the cell the
   * matching ranking gives `id`, and nothing else.
   */
  ghost predicate RowHolds(row: map<string, ScoreRank>, id: string, keys: seq<string>, rankings: seq<seq<Ranked>>, p: nat)
    requires p <= |keys| && p <= |rankings|
  {
    && row.Keys == KeysBefore(keys, p)
    && forall q :: 0 <= q < p ==> keys[q] in row && RankedCell(rankings[q], id) == Some(row[keys[q]])
  }

  /** The table after the rankings under the first `p` keys have been recorded. */
  ghost predicate TabulatedUpTo(table: map<string, map<string, ScoreRank>>, entities: seq<Entity>,
                                keys: seq<string>, rankings: seq<seq<Ranked>>, p: nat)
    requires p <= |keys|
  {
    && |rankings| == p
    && table.Keys == (if p == 0 then {} else IdsOf(entities))
    && forall id :: id in table ==> RowHolds(table[id], id, keys, rankings, p)
  }

  lemma TabulateRow(before: map<string, ScoreRank>, id: string, keys: seq<string>,
                    rankings: seq<seq<Ranked>>, p: nat, ranked: seq<Ranked>, row: map<string, ScoreRank>)
    requires p < |keys| && |rankings| == p && RowHolds(before, id, keys, rankings, p)
    requires forall q, r :: 0 <= q < r < |keys| ==> keys[q] != keys[r]
    requires RankedCell(ranked, id).Some?
    requires row == before[keys[p] := RankedCell(ranked, id).value]
    ensures RowHolds(row, id, keys, rankings + [ranked], p + 1)
  {
    KeysBeforeSnoc(keys, p);
    assert row.Keys == before.Keys + {keys[p]};
    forall q | 0 <= q <= p
      ensures keys[q] in row && RankedCell((rankings + [ranked])[q], id) == Some(row[keys[q]])
    {
      TabulateCell(before, id, keys, rankings, p, ranked, row, q);
    }
  }

  /** One cell of the row after the `p`-th ranking is recorded. */
  lemma TabulateCell(before: map<string, ScoreRank>, id: string, keys: seq<string>,
                     rankings: seq<seq<Ranked>>, p: nat, ranked: seq<Ranked>, row: map<string, ScoreRank>, q: nat)
    requires p < |keys| && |rankings| == p && q <= p
    requires q < p ==> keys[q] in before && RankedCell(rankings[q], id) == Some(before[keys[q]])
    requires keys[q] != keys[p] || q == p
    requires RankedCell(ranked, id).Some?
    requires row == before[keys[p] := RankedCell(ranked, id).value]
    ensures keys[q] in row && RankedCell((rankings + [ranked])[q], id) == Some(row[keys[q]])
  {
    if q < p {
      assert (rankings + [ranked])[q] == rankings[q];
    } else {
      assert (rankings + [ranked])[q] == ranked;
    }
  }

  lemma TabulateStep(table: map<string, map<string, ScoreRank>>, entities: seq<Entity>, keys: seq<string>,
                     rankings: seq<seq<Ranked>>, p: nat, ranked: seq<Ranked>,
                     updated: map<string, map<string, ScoreRank>>)
    requires p < |keys| && TabulatedUpTo(table, entities, keys, rankings, p)
    requires forall q, r :: 0 <= q < r < |keys| ==> keys[q] != keys[r]
    requires IdsOf(EntitiesOf(ranked)) == IdsOf(entities)
    requires updated.Keys == table.Keys + IdsOf(EntitiesOf(ranked))
    requires forall id :: id in updated ==> updated[id] == RowAfter(table, keys[p], ranked, id)
    ensures TabulatedUpTo(updated, entities, keys, rankings + [ranked], p + 1)
  {
    forall id | id in updated
      ensures RowHolds(updated[id], id, keys, rankings + [ranked], p + 1)
    {
      var k := LastIndexOfId(EntitiesOf(ranked), id).value;
      assert updated[id] == Row(table, id)[keys[p] := Cell(ranked[k])];
      if p == 0 {
        assert Row(table, id) == map[];
      }
      TabulateRow(Row(table, id), id, keys, rankings, p, ranked, updated[id]);
    }
  }

  /** Stable rankings under the first `p` profiles, extended by the next one. */
  lemma AppendStableRanking(entities: seq<Entity>, rankings: seq<seq<Ranked>>, perms: seq<seq<nat>>, p: nat,
                            ranked: seq<Ranked>, perm: seq<nat>)
    requires p < |WeightingProfiles| && |rankings| == |perms| == p
    requires forall q :: 0 <= q < p ==>
      IsStableRanking(entities, WeightingProfiles[q].1.weights, rankings[q], perms[q])
    requires IsStableRanking(entities, WeightingProfiles[p].1.weights, ranked, perm)
    ensures forall q :: 0 <= q < p + 1 ==>
      IsStableRanking(entities, WeightingProfiles[q].1.weights, (rankings + [ranked])[q], (perms + [perm])[q])
  {
    forall q | 0 <= q < p + 1
      ensures IsStableRanking(entities, WeightingProfiles[q].1.weights, (rankings + [ranked])[q], (perms + [perm])[q])
    {
      if q < p {
        assert (rankings + [ranked])[q] == rankings[q] && (perms + [perm])[q] == perms[q];
      }
    }
  }

  /**
   * One turn of the outer loop of `compareAcrossProfiles`: ranks the
   * entities under profile `p` and records the ranking under its key.
   */
  method TabulateProfile(table: map<string, map<string, ScoreRank>>, entities: seq<Entity>, p: nat,
                         ghost rankings: seq<seq<Ranked>>)
    returns (updated: map<string, map<string, ScoreRank>>, ghost ranked: seq<Ranked>, ghost perm: seq<nat>)
    requires p < |WeightingProfiles| && TabulatedUpTo(table, entities, ProfileKeys(), rankings, p)
    ensures IsStableRanking(entities, WeightingProfiles[p].1.weights, ranked, perm)
    ensures TabulatedUpTo(updated, entities, ProfileKeys(), rankings + [ranked], p + 1)
  {
    var key, profile := WeightingProfiles[p].0, WeightingProfiles[p].1;
    ProfilesAreValid();
    var r;
    r, perm := RankByCustomScore(entities, profile.weights);
    ranked := r.value;
    RankingKeepsIds(entities, profile.weights, ranked, perm);
    updated := RecordRanking(table, key, r.value);
    TabulateStep(table, entities, ProfileKeys(), rankings, p, ranked, updated);
  }

  /**
   * `compareAcrossProfiles`: ranks the entities under every profile, in
   * table order, and records for each entity id and profile key the score
   * and rank of that id's last entry in the profile's ranking.
   * `rankings[p]` is the stable ranking under profile `p`.
   */
  method CompareAcrossProfiles(entities: seq<Entity>)
    returns (table: map<string, map<string, ScoreRank>>, ghost rankings: seq<seq<Ranked>>, ghost perms: seq<seq<nat>>)
    ensures |rankings| == |perms| == |WeightingProfiles|
    ensures forall p :: 0 <= p < |WeightingProfiles| ==>
      IsStableRanking(entities, WeightingProfiles[p].1.weights, rankings[p], perms[p])
    ensures table.Keys == IdsOf(entities)
    ensures forall id :: id in table ==> RowHolds(table[id], id, ProfileKeys(), rankings, |WeightingProfiles|)
  {
    table := map[];
    rankings, perms := [], [];
    for p := 0 to |WeightingProfiles|
      invariant |perms| == p
      invariant TabulatedUpTo(table, entities, ProfileKeys(), rankings, p)
      invariant forall q :: 0 <= q < p ==>
        IsStableRanking(entities, WeightingProfiles[q].1.weights, rankings[q], perms[q])
    {
      ghost var ranked, perm;
      table, ranked, perm := TabulateProfile(table, entities, p, rankings);
      AppendStableRanking(entities, rankings, perms, p, ranked, perm);
      rankings := rankings + [ranked];
      perms := perms + [perm];
    }
  }
}
