/** Ranking of seed and linked engrams by a fused score, with guaranteed linked coverage. */
module CandidateRanking {
  import opened Results
  import opened Uuids
  import opened Ordering
  import opened LinkTemporal
  import opened TraceChains
  import opened LinkRecall

  const MAX_LINK_RECALL_DEPTH := 3

  datatype Candidate = Candidate(
    engramId: Uuid,
    score: real,
    semanticScore: real,
    traceScore: real,
    traceDepth: int,
    isSeed: bool)

  /** An engram found by the query, with its embedding distance. */
  datatype QueryHit = QueryHit(engramId: Uuid, distance: real)

  /** The best score known for a target and the depth it was reached at. */
  datatype TraceStat = TraceStat(score: real, depth: int)

  type TraceStats = map<Uuid, TraceStat>

  // ----- seed relevance -----

  function RelevanceFromDistance(distance: real): (relevance: real)
    ensures 0.0 < relevance <= 1.0
  {
    Clamp(1.0 / (1.0 + if distance < 0.0 then 0.0 else distance), 0.0, 1.0)
  }

  /** The distance a hit counts with; a negative one counts as none. */
  ghost function Farness(distance: real): real {
    if distance > 0.0 then distance else 0.0
  }

  /** Relevance is the reciprocal of one plus the distance. */
  lemma RelevanceIsReciprocal(distance: real)
    ensures RelevanceFromDistance(distance) * (1.0 + Farness(distance)) == 1.0
  {
  }

  lemma SignOfProduct(a: real, z: real)
    requires z > 0.0
    ensures a * z > 0.0 <==> a > 0.0
    ensures a * z < 0.0 <==> a < 0.0
  {
  }

  lemma ReciprocalsReverse(r: real, x: real, q: real, y: real)
    requires r * x == 1.0 && q * y == 1.0 && x > 0.0 && y > 0.0
    ensures r > q <==> x < y
    ensures r < q <==> x > y
  {
    assert (r - q) * (x * y) == (r * x) * y - (q * y) * x;
    SignOfProduct(y, x);
    SignOfProduct(r - q, x * y);
  }

  /** The nearer of two hits is the more relevant. */
  lemma NearerIsMoreRelevant(d: real, e: real)
    ensures RelevanceFromDistance(d) > RelevanceFromDistance(e) <==> Farness(d) < Farness(e)
  {
    RelevanceIsReciprocal(d);
    RelevanceIsReciprocal(e);
    ReciprocalsReverse(RelevanceFromDistance(d), 1.0 + Farness(d), RelevanceFromDistance(e), 1.0 + Farness(e));
  }

  function RaiseScore(scores: map<Uuid, real>, id: Uuid, score: real): map<Uuid, real> {
    scores[id := if SeedScore(scores, id) < score then score else SeedScore(scores, id)]
  }

  function PinnedScores(pinned: seq<Uuid>): map<Uuid, real> {
    if pinned == [] then map[] else RaiseScore(PinnedScores(pinned[..|pinned| - 1]), pinned[|pinned| - 1], 1.0)
  }

  function SeedRelevance(pinned: seq<Uuid>, retrieved: seq<QueryHit>): map<Uuid, real> {
    if retrieved == [] then PinnedScores(pinned)
    else
      var last := retrieved[|retrieved| - 1];
      RaiseScore(SeedRelevance(pinned, retrieved[..|retrieved| - 1]), last.engramId, RelevanceFromDistance(last.distance))
  }

  method BuildSeedRelevanceScores(pinned: seq<Uuid>, retrieved: seq<QueryHit>) returns (scores: map<Uuid, real>)
    ensures scores == SeedRelevance(pinned, retrieved)
  {
    scores := map[];
    for i := 0 to |pinned|
      invariant scores == PinnedScores(pinned[..i])
    {
      assert pinned[..i + 1][..i] == pinned[..i];
      scores := RaiseScore(scores, pinned[i], 1.0);
    }
    assert pinned[..|pinned|] == pinned;
    for i := 0 to |retrieved|
      invariant scores == SeedRelevance(pinned, retrieved[..i])
    {
      assert retrieved[..i + 1][..i] == retrieved[..i];
      scores := RaiseScore(scores, retrieved[i].engramId, RelevanceFromDistance(retrieved[i].distance));
    }
    assert retrieved[..|retrieved|] == retrieved;
  }

  lemma {:induction false} PinnedScoresAreOne(pinned: seq<Uuid>)
    ensures PinnedScores(pinned).Keys == set id | id in pinned
    ensures forall id :: id in pinned ==> PinnedScores(pinned)[id] == 1.0
  {
    if pinned != [] {
      var n := |pinned| - 1;
      PinnedScoresAreOne(pinned[..n]);
      assert pinned == pinned[..n] + [pinned[n]];
    }
  }

  /** A pinned engram scores 1; any other scores the best relevance among its hits. */
  lemma {:induction false} SeedRelevanceIsBest(pinned: seq<Uuid>, retrieved: seq<QueryHit>, id: Uuid)
    ensures var scores := SeedRelevance(pinned, retrieved);
            && (id in scores <==> id in pinned || exists h :: h in retrieved && h.engramId == id)
            && (id in pinned ==> scores[id] == 1.0)
            && (id in scores && id !in pinned ==>
                  exists h :: h in retrieved && h.engramId == id && scores[id] == RelevanceFromDistance(h.distance))
            && (forall h :: h in retrieved && h.engramId == id ==> scores[id] >= RelevanceFromDistance(h.distance))
            && (id in scores ==> 0.0 <= scores[id] <= 1.0)
  {
    PinnedScoresAreOne(pinned);
    if retrieved != [] {
      var n := |retrieved| - 1;
      SeedRelevanceIsBest(pinned, retrieved[..n], id);
      assert retrieved == retrieved[..n] + [retrieved[n]];
    }
  }

  /** `h` is one of the nearest hits of an engram. */
  ghost predicate NearestHit(retrieved: seq<QueryHit>, h: QueryHit) {
    h in retrieved
    && forall g :: g in retrieved && g.engramId == h.engramId ==> Farness(h.distance) <= Farness(g.distance)
  }

  lemma NearestIsMostRelevant(pinned: seq<Uuid>, retrieved: seq<QueryHit>, h: QueryHit)
    requires NearestHit(retrieved, h) && h.engramId !in pinned
    ensures h.engramId in SeedRelevance(pinned, retrieved)
    ensures SeedRelevance(pinned, retrieved)[h.engramId] == RelevanceFromDistance(h.distance)
  {
    SeedRelevanceIsBest(pinned, retrieved, h.engramId);
    var score := SeedRelevance(pinned, retrieved)[h.engramId];
    var g :| g in retrieved && g.engramId == h.engramId && score == RelevanceFromDistance(g.distance);
    NearerIsMoreRelevant(g.distance, h.distance);
  }

  /** An engram that is not pinned scores the reciprocal of one plus the distance of its nearest hit. */
  lemma SeedScoreIsOfNearest(pinned: seq<Uuid>, retrieved: seq<QueryHit>, h: QueryHit)
    requires NearestHit(retrieved, h) && h.engramId !in pinned
    ensures h.engramId in SeedRelevance(pinned, retrieved)
    ensures SeedRelevance(pinned, retrieved)[h.engramId] * (1.0 + Farness(h.distance)) == 1.0
  {
    NearestIsMostRelevant(pinned, retrieved, h);
    RelevanceIsReciprocal(h.distance);
  }

  // ----- trace statistics -----

  function UpdateTraceStat(stats: TraceStats, path: EngramTracePath): TraceStats {
    var target, stat := path.targetEngramId, TraceStat(Clamp(path.score, 0.0, 1.0), path.depth);
    if target !in stats then stats[target := stat]
    else if path.score < stats[target].score then stats
    else if path.score == stats[target].score && path.depth >= stats[target].depth then stats
    else stats[target := stat]
  }

  function StatsOf(paths: seq<EngramTracePath>): TraceStats {
    if paths == [] then map[] else UpdateTraceStat(StatsOf(paths[..|paths| - 1]), paths[|paths| - 1])
  }

  method BuildTracePathCandidateStats(paths: seq<EngramTracePath>) returns (stats: TraceStats)
    ensures stats == StatsOf(paths)
  {
    stats := map[];
    for i := 0 to |paths|
      invariant stats == StatsOf(paths[..i])
    {
      assert paths[..i + 1][..i] == paths[..i];
      stats := UpdateTraceStat(stats, paths[i]);
    }
    assert paths[..|paths|] == paths;
  }

  /** For scores in [0, 1] the statistics of a target are its best score, and the least depth among its best. */
  lemma {:induction false} StatsAreBest(paths: seq<EngramTracePath>, id: Uuid)
    requires forall p :: p in paths ==> 0.0 <= p.score <= 1.0
    ensures id in StatsOf(paths) <==> exists p :: p in paths && p.targetEngramId == id
    ensures id in StatsOf(paths) ==>
              exists p :: p in paths && p.targetEngramId == id && StatsOf(paths)[id] == TraceStat(p.score, p.depth)
    ensures forall p :: p in paths && p.targetEngramId == id ==>
              p.score < StatsOf(paths)[id].score
              || (p.score == StatsOf(paths)[id].score && StatsOf(paths)[id].depth <= p.depth)
  {
    if paths != [] {
      var n := |paths| - 1;
      assert paths == paths[..n] + [paths[n]];
      StatsAreBest(paths[..n], id);
    }
  }

  // ----- candidates -----

  function FusedCandidateScore(semanticScore: real, traceScore: real, isSeed: bool): (score: real)
    ensures 0.0 <= score <= 1.0
  {
    Clamp(0.58 * semanticScore + 0.42 * traceScore
          + (if isSeed then 0.04 else 0.0)
          + (if traceScore > 0.0 then 0.03 else 0.0)
          + (if isSeed && traceScore > 0.0 then 0.05 else 0.0)
          + (if !isSeed && traceScore > 0.0 then 0.04 else 0.0), 0.0, 1.0)
  }

  /** More relevance, a better trace, or being a seed never lowers the fused score; so neither does being traced. */
  lemma FusedScoreIsMonotone(semantic: real, trace: real, isSeed: bool, semantic': real, trace': real, isSeed': bool)
    requires semantic <= semantic' && trace <= trace' && (isSeed ==> isSeed')
    ensures FusedCandidateScore(semantic, trace, isSeed) <= FusedCandidateScore(semantic', trace', isSeed')
  {
  }

  function BuildCandidate(id: Uuid, seeds: seq<Uuid>, seedScores: map<Uuid, real>, stats: TraceStats): Candidate {
    var semanticScore := Clamp(SeedScore(seedScores, id), 0.0, 1.0);
    var traceScore := Clamp(if id in stats then stats[id].score else 0.0, 0.0, 1.0);
    var depth := if id in stats then stats[id].depth else 0;
    var isSeed := id in seeds;
    Candidate(id, FusedCandidateScore(semanticScore, traceScore, isSeed), semanticScore, traceScore,
              if depth > 0 then depth else MAX_LINK_RECALL_DEPTH + 1, isSeed)
  }

  function CompareCandidate(left: Candidate, right: Candidate): int {
    if left.score != right.score then (if left.score > right.score then -1 else 1)
    else if left.traceScore != right.traceScore then (if left.traceScore > right.traceScore then -1 else 1)
    else if left.semanticScore != right.semanticScore then (if left.semanticScore > right.semanticScore then -1 else 1)
    else if left.traceDepth != right.traceDepth then left.traceDepth - right.traceDepth
    else if left.isSeed != right.isSeed then (if left.isSeed then -1 else 1)
    else CompareUuid(left.engramId, right.engramId)
  }

  /**
   * A traced engram that is no seed ranks ahead of an untraced seed exactly when its trace makes up for the seed's
   * lead in relevance; a tie goes to the traced one.
   */
  lemma TracedAheadOfSeedIff(traced: Uuid, seed: Uuid, seeds: seq<Uuid>, seedScores: map<Uuid, real>, stats: TraceStats)
    requires traced !in seeds && seed in seeds && seed !in stats && traced in stats && stats[traced].score > 0.0
    ensures var a := BuildCandidate(traced, seeds, seedScores, stats);
            var b := BuildCandidate(seed, seeds, seedScores, stats);
            CompareCandidate(a, b) < 0
            <==> 0.58 * (b.semanticScore - a.semanticScore) <= 0.42 * a.traceScore + 0.03
  {
  }

  /** A traced seed ranks ahead of an untraced one exactly when its trace makes up for the other's lead in relevance. */
  lemma TracedSeedAheadIff(traced: Uuid, seed: Uuid, seeds: seq<Uuid>, seedScores: map<Uuid, real>, stats: TraceStats)
    requires traced in seeds && seed in seeds && seed !in stats && traced in stats && stats[traced].score > 0.0
    ensures var a := BuildCandidate(traced, seeds, seedScores, stats);
            var b := BuildCandidate(seed, seeds, seedScores, stats);
            CompareCandidate(a, b) < 0
            <==> 0.58 * (b.semanticScore - a.semanticScore) <= 0.42 * a.traceScore + 0.08
  {
  }

  /** What a candidate is built from. */
  lemma CandidateFields(id: Uuid, seeds: seq<Uuid>, seedScores: map<Uuid, real>, stats: TraceStats)
    requires id in seedScores ==> 0.0 <= seedScores[id] <= 1.0
    requires id in stats ==> 0.0 <= stats[id].score <= 1.0 && 1 <= stats[id].depth
    ensures var c := BuildCandidate(id, seeds, seedScores, stats);
            && c.engramId == id && (c.isSeed <==> id in seeds)
            && c.semanticScore == (if id in seedScores then seedScores[id] else 0.0)
            && (if id in stats then c.traceScore == stats[id].score && c.traceDepth == stats[id].depth
                else c.traceScore == 0.0 && c.traceDepth == 4)
  {
  }

  /** Higher scores first, then better traces, more relevance, shorter traces, seeds, and smaller ids. */
  ghost predicate Outranks(a: Candidate, b: Candidate) {
    || a.score > b.score
    || (a.score == b.score && a.traceScore > b.traceScore)
    || (a.score == b.score && a.traceScore == b.traceScore && a.semanticScore > b.semanticScore)
    || (a.score == b.score && a.traceScore == b.traceScore && a.semanticScore == b.semanticScore
        && (a.traceDepth < b.traceDepth
            || (a.traceDepth == b.traceDepth
                && ((a.isSeed && !b.isSeed) || (a.isSeed == b.isSeed && a.engramId < b.engramId)))))
  }

  lemma CandidateOrder()
    ensures TotalPreorder(CompareCandidate)
    ensures forall a, b :: CompareCandidate(a, b) == 0 ==> a.engramId == b.engramId
    ensures forall a, b :: CompareCandidate(a, b) < 0 <==> Outranks(a, b)
  {
  }

  function CandidatesFor(ids: seq<Uuid>, seeds: seq<Uuid>, seedScores: map<Uuid, real>, stats: TraceStats)
    : (candidates: seq<Candidate>)
    ensures |candidates| == |ids|
    ensures forall i :: 0 <= i < |ids| ==> candidates[i] == BuildCandidate(ids[i], seeds, seedScores, stats)
  {
    seq(|ids|, i requires 0 <= i < |ids| => BuildCandidate(ids[i], seeds, seedScores, stats))
  }

  method BuildEngramContextCandidates(seeds: seq<Uuid>, linked: seq<Uuid>, seedScores: map<Uuid, real>,
                                      paths: seq<EngramTracePath>)
    returns (candidates: seq<Candidate>)
    ensures candidates == CandidatesFor(Deduped(seeds + linked), seeds, seedScores, StatsOf(paths))
  {
    var stats := BuildTracePathCandidateStats(paths);
    var order := DedupePreserveOrder(seeds + linked);
    candidates := [];
    for i := 0 to |order|
      invariant candidates == CandidatesFor(order[..i], seeds, seedScores, stats)
    {
      assert order[..i + 1][..i] == order[..i];
      candidates := candidates + [BuildCandidate(order[i], seeds, seedScores, stats)];
    }
    assert order[..|order|] == order;
  }

  // ----- linked coverage -----

  /** The first linked candidate at or after `start`, or the length when there is none. */
  function FirstLinked(candidates: seq<Candidate>, linked: seq<Uuid>, start: nat): (index: nat)
    requires start <= |candidates|
    ensures start <= index <= |candidates|
    ensures index < |candidates| ==> candidates[index].engramId in linked
    ensures forall i :: start <= i < index ==> candidates[i].engramId !in linked
    decreases |candidates| - start
  {
    if start == |candidates| || candidates[start].engramId in linked then start
    else FirstLinked(candidates, linked, start + 1)
  }

  lemma FirstLinkedIs(candidates: seq<Candidate>, linked: seq<Uuid>, start: nat, index: nat)
    requires start <= index <= |candidates|
    requires forall k :: start <= k < index ==> candidates[k].engramId !in linked
    requires index < |candidates| ==> candidates[index].engramId in linked
    ensures FirstLinked(candidates, linked, start) == index
  {
  }

  /** The candidate at `from` goes to `to`, and those in between close up. */
  function MoveForward(candidates: seq<Candidate>, from: nat, to: nat): (moved: seq<Candidate>)
    requires to <= from < |candidates|
    ensures |moved| == |candidates| && moved[to] == candidates[from]
    ensures forall i :: 0 <= i < |candidates| ==>
              (i < to || from < i ==> moved[i] == candidates[i]) && (to < i <= from ==> moved[i] == candidates[i - 1])
  {
    candidates[..to] + [candidates[from]] + candidates[to..from] + candidates[from + 1..]
  }

  function Covered(candidates: seq<Candidate>, linked: seq<Uuid>, maxEngrams: int): seq<Candidate> {
    if candidates == [] || linked == [] || maxEngrams <= 1 then candidates
    else
      var limit := Min(maxEngrams, |candidates|);
      if FirstLinked(candidates, linked, 0) < limit then candidates
      else
        var index := FirstLinked(candidates, linked, limit);
        if index == |candidates| then candidates
        else MoveForward(candidates, index, if limit == 1 then 0 else 1)
  }

  method EnsureLinkedCandidateCoverage(candidates: seq<Candidate>, linked: seq<Uuid>, maxEngrams: int)
    returns (covered: seq<Candidate>)
    ensures covered == Covered(candidates, linked, maxEngrams)
  {
    if |candidates| == 0 || |linked| == 0 || maxEngrams <= 1 {
      return candidates;
    }
    var limit := Min(maxEngrams, |candidates|);
    for i := 0 to limit
      invariant forall k :: 0 <= k < i ==> candidates[k].engramId !in linked
    {
      if candidates[i].engramId in linked {
        FirstLinkedIs(candidates, linked, 0, i);
        return candidates;
      }
    }
    assert FirstLinked(candidates, linked, 0) >= limit;
    var insertAt := if limit == 1 then 0 else 1;
    for i := limit to |candidates|
      invariant forall k :: limit <= k < i ==> candidates[k].engramId !in linked
    {
      if candidates[i].engramId in linked {
        FirstLinkedIs(candidates, linked, limit, i);
        return MoveForward(candidates, i, insertAt);
      }
    }
    FirstLinkedIs(candidates, linked, limit, |candidates|);
    return candidates;
  }

  // ----- ranking -----

  function IdsOf(candidates: seq<Candidate>): (ids: seq<Uuid>)
    ensures |ids| == |candidates| && forall i :: 0 <= i < |ids| ==> ids[i] == candidates[i].engramId
  {
    seq(|candidates|, i requires 0 <= i < |candidates| => candidates[i].engramId)
  }

  function SortedByScore(seeds: seq<Uuid>, linked: seq<Uuid>, seedScores: map<Uuid, real>,
                         paths: seq<EngramTracePath>): seq<Candidate>
  {
    StableSort(CompareCandidate, CandidatesFor(Deduped(seeds + linked), seeds, seedScores, StatsOf(paths)))
  }

  function Ranked(seeds: seq<Uuid>, linked: seq<Uuid>, seedScores: map<Uuid, real>, paths: seq<EngramTracePath>,
                  maxEngrams: int): seq<Uuid>
  {
    var sorted := SortedByScore(seeds, linked, seedScores, paths);
    IdsOf(if maxEngrams > 1 then Covered(sorted, linked, maxEngrams) else sorted)
  }

  method RankEngramContextCandidates(seeds: seq<Uuid>, linked: seq<Uuid>, seedScores: map<Uuid, real>,
                                     paths: seq<EngramTracePath>, maxEngrams: int)
    returns (ordered: seq<Uuid>)
    ensures ordered == Ranked(seeds, linked, seedScores, paths, maxEngrams)
  {
    var candidates := BuildEngramContextCandidates(seeds, linked, seedScores, paths);
    candidates := StableSort(CompareCandidate, candidates);
    if maxEngrams > 1 {
      candidates := EnsureLinkedCandidateCoverage(candidates, linked, maxEngrams);
    }
    ordered := [];
    for i := 0 to |candidates|
      invariant ordered == IdsOf(candidates[..i])
    {
      assert candidates[..i + 1][..i] == candidates[..i];
      ordered := ordered + [candidates[i].engramId];
    }
    assert candidates[..|candidates|] == candidates;
  }

  // ----- properties -----

  lemma MoveForwardPermutes(candidates: seq<Candidate>, from: nat, to: nat)
    requires to <= from < |candidates|
    ensures multiset(MoveForward(candidates, from, to)) == multiset(candidates)
  {
    assert candidates == candidates[..to] + candidates[to..from] + [candidates[from]] + candidates[from + 1..];
  }

  lemma CoveredPermutes(candidates: seq<Candidate>, linked: seq<Uuid>, maxEngrams: int)
    ensures multiset(Covered(candidates, linked, maxEngrams)) == multiset(candidates)
  {
    if candidates != [] && linked != [] && maxEngrams > 1 {
      var limit := Min(maxEngrams, |candidates|);
      var index := FirstLinked(candidates, linked, limit);
      if FirstLinked(candidates, linked, 0) >= limit && index < |candidates| {
        MoveForwardPermutes(candidates, index, if limit == 1 then 0 else 1);
      }
    }
  }

  ghost predicate DistinctIds(candidates: seq<Candidate>) {
    forall i, j :: 0 <= i < j < |candidates| ==> candidates[i].engramId != candidates[j].engramId
  }

  lemma DistinctIdsPermute(a: seq<Candidate>, b: seq<Candidate>)
    requires DistinctIds(a) && multiset(a) == multiset(b)
    ensures DistinctIds(b) && |a| == |b| && forall c :: c in b <==> c in a
  {
    assert |multiset(a)| == |multiset(b)|;
    assert forall c :: c in b <==> c in multiset(b);
    assert forall c :: c in a <==> c in multiset(a);
    assert Distinct(a);
    DistinctPermutes(a, b);
    forall i, j | 0 <= i < j < |b|
      ensures b[i].engramId != b[j].engramId
    {
      assert b[i] in a && b[j] in a && b[i] != b[j];
    }
  }

  lemma BestRankFirst(candidates: seq<Candidate>)
    requires SortedBy(CompareCandidate, candidates) && DistinctIds(candidates)
    ensures forall i, j :: 0 <= i < j < |candidates| ==> Outranks(candidates[i], candidates[j])
  {
    forall i, j | 0 <= i < j < |candidates|
      ensures Outranks(candidates[i], candidates[j])
    {
      CandidateOrder();
      assert CompareCandidate(candidates[i], candidates[j]) <= 0;
    }
  }

  /** The candidates in score order: each distinct seed or linked id once, as built from its scores, best first. */
  lemma SortedByScoreProperties(seeds: seq<Uuid>, linked: seq<Uuid>, seedScores: map<Uuid, real>,
                                paths: seq<EngramTracePath>)
    ensures var sorted := SortedByScore(seeds, linked, seedScores, paths);
            && DistinctIds(sorted) && |sorted| == |Deduped(seeds + linked)|
            && (forall i, j :: 0 <= i < j < |sorted| ==> Outranks(sorted[i], sorted[j]))
            && (forall c :: c in sorted ==> c == BuildCandidate(c.engramId, seeds, seedScores, StatsOf(paths)))
            && (forall id :: id in IdsOf(sorted) <==> id in seeds || id in linked)
  {
    var ids := Deduped(seeds + linked);
    DedupedProperties(seeds + linked);
    var built := CandidatesFor(ids, seeds, seedScores, StatsOf(paths));
    var sorted := SortedByScore(seeds, linked, seedScores, paths);
    SortPermutes(CompareCandidate, built);
    DistinctIdsPermute(built, sorted);
    CandidateOrder();
    SortSorts(CompareCandidate, built);
    BestRankFirst(sorted);
    forall id
      ensures id in IdsOf(sorted) <==> id in seeds || id in linked
    {
      SameIds(built, sorted, id);
      assert id in IdsOf(built) <==> id in ids by {
        assert forall i :: 0 <= i < |ids| ==> IdsOf(built)[i] == ids[i];
        assert IdsOf(built) == ids;
      }
    }
  }

  lemma SameIds(a: seq<Candidate>, b: seq<Candidate>, id: Uuid)
    requires forall c :: c in a <==> c in b
    ensures id in IdsOf(a) <==> id in IdsOf(b)
  {
    if id in IdsOf(a) {
      var i :| 0 <= i < |a| && a[i].engramId == id;
      assert a[i] in b;
      var j :| 0 <= j < |b| && b[j] == a[i];
      assert IdsOf(b)[j] == id;
    }
    if id in IdsOf(b) {
      var i :| 0 <= i < |b| && b[i].engramId == id;
      assert b[i] in a;
      var j :| 0 <= j < |a| && a[j] == b[i];
      assert IdsOf(a)[j] == id;
    }
  }

  /** Ranking loses nothing and repeats nothing. */
  lemma RankingIsExact(seeds: seq<Uuid>, linked: seq<Uuid>, seedScores: map<Uuid, real>, paths: seq<EngramTracePath>,
                       maxEngrams: int)
    ensures var ranked := Ranked(seeds, linked, seedScores, paths, maxEngrams);
            Distinct(ranked) && |ranked| == |Deduped(seeds + linked)|
            && forall id :: id in ranked <==> id in seeds || id in linked
  {
    var sorted := SortedByScore(seeds, linked, seedScores, paths);
    var final := if maxEngrams > 1 then Covered(sorted, linked, maxEngrams) else sorted;
    SortedByScoreProperties(seeds, linked, seedScores, paths);
    CoveredPermutes(sorted, linked, maxEngrams);
    DistinctIdsPermute(sorted, final);
    forall id
      ensures id in IdsOf(final) <==> id in seeds || id in linked
    {
      SameIds(sorted, final, id);
    }
  }

  lemma CoverageReached(candidates: seq<Candidate>, linked: seq<Uuid>, maxEngrams: int, k: nat) returns (i: nat)
    requires maxEngrams >= 2 && k < |candidates| && candidates[k].engramId in linked
    ensures var covered := Covered(candidates, linked, maxEngrams);
            |covered| == |candidates| && i < Min(maxEngrams, |covered|) && covered[i].engramId in linked
  {
    var limit, first := Min(maxEngrams, |candidates|), FirstLinked(candidates, linked, 0);
    assert first <= k;
    i := if first < limit then first else 1;
    if first >= limit {
      assert FirstLinked(candidates, linked, limit) <= k;
    }
  }

  /** With room for two engrams and anything linked, a linked engram is among the first `maxEngrams`. */
  lemma LinkedIsCovered(seeds: seq<Uuid>, linked: seq<Uuid>, seedScores: map<Uuid, real>, paths: seq<EngramTracePath>,
                        maxEngrams: int)
    requires linked != [] && maxEngrams >= 2
    ensures var ranked := Ranked(seeds, linked, seedScores, paths, maxEngrams);
            exists i :: 0 <= i < Min(maxEngrams, |ranked|) && ranked[i] in linked
  {
    var sorted := SortedByScore(seeds, linked, seedScores, paths);
    SortedByScoreProperties(seeds, linked, seedScores, paths);
    assert linked[0] in IdsOf(sorted);
    var k :| 0 <= k < |sorted| && IdsOf(sorted)[k] == linked[0];
    var i := CoverageReached(sorted, linked, maxEngrams, k);
    assert Ranked(seeds, linked, seedScores, paths, maxEngrams)[i] in linked;
  }

  /** A first linked candidate behind the limit is the first at or after the limit. */
  lemma FirstLinkedFrom(candidates: seq<Candidate>, linked: seq<Uuid>, start: nat)
    requires start <= FirstLinked(candidates, linked, 0) && start <= |candidates|
    ensures FirstLinked(candidates, linked, start) == FirstLinked(candidates, linked, 0)
  {
  }

  /** Covering leaves the list alone, or moves its first linked candidate from behind the limit to second place. */
  lemma CoveredMoves(candidates: seq<Candidate>, linked: seq<Uuid>, maxEngrams: int)
    ensures var covered, from := Covered(candidates, linked, maxEngrams), FirstLinked(candidates, linked, 0);
            covered == candidates
            || (2 <= maxEngrams <= from < |candidates| && covered == MoveForward(candidates, from, 1))
  {
    if candidates != [] && linked != [] && maxEngrams > 1 {
      var limit := Min(maxEngrams, |candidates|);
      if FirstLinked(candidates, linked, 0) >= limit {
        FirstLinkedFrom(candidates, linked, limit);
      }
    }
  }

  /** `ranked` is `sorted` with the entry at `from` moved to second place and the ones it passes closing up. */
  ghost predicate MovedToSecond(sorted: seq<Uuid>, ranked: seq<Uuid>, from: nat) {
    && 2 <= from < |sorted| == |ranked|
    && ranked[0] == sorted[0] && ranked[1] == sorted[from]
    && (forall i :: 1 < i <= from ==> ranked[i] == sorted[i - 1])
    && (forall i :: from < i < |sorted| ==> ranked[i] == sorted[i])
  }

  lemma MoveForwardMoves(candidates: seq<Candidate>, from: nat)
    requires 2 <= from < |candidates|
    ensures MovedToSecond(IdsOf(candidates), IdsOf(MoveForward(candidates, from, 1)), from)
  {
  }

  /** `ranked` is `sorted`, or `sorted` with its first linked id moved from behind the limit to second place. */
  ghost predicate AtMostOneMoved(sorted: seq<Uuid>, ranked: seq<Uuid>, linked: seq<Uuid>, limit: int) {
    ranked == sorted
    || exists from: nat :: limit <= from < |sorted| && MovedToSecond(sorted, ranked, from)
                      && sorted[from] in linked && forall i :: 0 <= i < from ==> sorted[i] !in linked
  }

  lemma CoveredMovesOne(sorted: seq<Candidate>, linked: seq<Uuid>, maxEngrams: int)
    ensures AtMostOneMoved(IdsOf(sorted), IdsOf(Covered(sorted, linked, maxEngrams)), linked, maxEngrams)
  {
    CoveredMoves(sorted, linked, maxEngrams);
    if Covered(sorted, linked, maxEngrams) != sorted {
      MoveForwardMoves(sorted, FirstLinked(sorted, linked, 0));
    }
  }

  /** At most one candidate leaves score order: the best-ranked linked one, when it stands behind the limit. */
  lemma AtMostOneMoves(seeds: seq<Uuid>, linked: seq<Uuid>, seedScores: map<Uuid, real>, paths: seq<EngramTracePath>,
                       maxEngrams: int)
    ensures AtMostOneMoved(IdsOf(SortedByScore(seeds, linked, seedScores, paths)),
                           Ranked(seeds, linked, seedScores, paths, maxEngrams), linked, maxEngrams)
  {
    CoveredMovesOne(SortedByScore(seeds, linked, seedScores, paths), linked, maxEngrams);
  }

  /** A candidate that outranks one that is not linked stays ahead of it when one is moved. */
  lemma StaysAhead(sorted: seq<Uuid>, ranked: seq<Uuid>, linked: seq<Uuid>, limit: int, k: nat, l: nat, i: nat, j: nat)
    requires AtMostOneMoved(sorted, ranked, linked, limit) && Distinct(sorted) && |ranked| == |sorted|
    requires k < l < |sorted| && sorted[l] !in linked
    requires i < |ranked| && j < |ranked| && ranked[i] == sorted[k] && ranked[j] == sorted[l]
    ensures i < j
  {
    if ranked != sorted {
      var from: nat :| limit <= from < |sorted| && MovedToSecond(sorted, ranked, from) && sorted[from] in linked;
      var place := if l == 0 || from < l then l else l + 1;
      assert ranked[place] == sorted[l];
    }
  }

  lemma {:induction false} StatsTargets(paths: seq<EngramTracePath>)
    ensures forall id :: id in StatsOf(paths) <==> exists p :: p in paths && p.targetEngramId == id
  {
    if paths != [] {
      StatsTargets(paths[..|paths| - 1]);
      assert paths == paths[..|paths| - 1] + [paths[|paths| - 1]];
    }
  }

  ghost predicate Untraced(paths: seq<EngramTracePath>, id: Uuid) {
    forall p :: p in paths ==> p.targetEngramId != id
  }

  lemma PlaceOf(candidates: seq<Candidate>, id: Uuid) returns (k: nat)
    requires id in IdsOf(candidates)
    ensures k < |candidates| && candidates[k].engramId == id && candidates[k] in candidates
  {
    k :| 0 <= k < |candidates| && IdsOf(candidates)[k] == id;
  }

  lemma OutranksOneWay(a: Candidate, b: Candidate)
    requires Outranks(a, b)
    ensures !Outranks(b, a) && a != b
  {
  }

  lemma PlacesOf(sorted: seq<Candidate>, a: Candidate, b: Candidate) returns (k: nat, l: nat)
    requires a in sorted && b in sorted && Outranks(a, b)
    requires forall i, j :: 0 <= i < j < |sorted| ==> Outranks(sorted[i], sorted[j])
    ensures k < l < |sorted| && sorted[k] == a && sorted[l] == b
  {
    OutranksOneWay(a, b);
    k :| 0 <= k < |sorted| && sorted[k] == a;
    l :| 0 <= l < |sorted| && sorted[l] == b;
  }

  lemma SortedHoldsBuilt(seeds: seq<Uuid>, linked: seq<Uuid>, seedScores: map<Uuid, real>, paths: seq<EngramTracePath>,
                         id: Uuid)
    requires id in seeds || id in linked
    ensures BuildCandidate(id, seeds, seedScores, StatsOf(paths)) in SortedByScore(seeds, linked, seedScores, paths)
  {
    SortedByScoreProperties(seeds, linked, seedScores, paths);
    var k := PlaceOf(SortedByScore(seeds, linked, seedScores, paths), id);
  }

  lemma ScoreOrderPlaces(seeds: seq<Uuid>, linked: seq<Uuid>, seedScores: map<Uuid, real>,
                         paths: seq<EngramTracePath>, x: Uuid, y: Uuid) returns (k: nat, l: nat)
    requires (x in seeds || x in linked) && (y in seeds || y in linked)
    requires Outranks(BuildCandidate(x, seeds, seedScores, StatsOf(paths)),
                      BuildCandidate(y, seeds, seedScores, StatsOf(paths)))
    ensures var ids := IdsOf(SortedByScore(seeds, linked, seedScores, paths));
            k < l < |ids| && ids[k] == x && ids[l] == y && Distinct(ids)
  {
    SortedHoldsBuilt(seeds, linked, seedScores, paths, x);
    SortedHoldsBuilt(seeds, linked, seedScores, paths, y);
    SortedByScoreProperties(seeds, linked, seedScores, paths);
    k, l := PlacesOf(SortedByScore(seeds, linked, seedScores, paths),
                     BuildCandidate(x, seeds, seedScores, StatsOf(paths)),
                     BuildCandidate(y, seeds, seedScores, StatsOf(paths)));
  }

  /** An engram whose candidate outranks that of one that is not linked comes before it. */
  lemma HigherRankComesFirst(seeds: seq<Uuid>, linked: seq<Uuid>, seedScores: map<Uuid, real>,
                             paths: seq<EngramTracePath>, maxEngrams: int, i: nat, j: nat)
    requires var ranked := Ranked(seeds, linked, seedScores, paths, maxEngrams);
             && i < |ranked| && j < |ranked| && ranked[j] !in linked
             && Outranks(BuildCandidate(ranked[i], seeds, seedScores, StatsOf(paths)),
                         BuildCandidate(ranked[j], seeds, seedScores, StatsOf(paths)))
    ensures i < j
  {
    var ranked := Ranked(seeds, linked, seedScores, paths, maxEngrams);
    RankingIsExact(seeds, linked, seedScores, paths, maxEngrams);
    AtMostOneMoves(seeds, linked, seedScores, paths, maxEngrams);
    assert ranked[i] in ranked && ranked[j] in ranked;
    var k, l := ScoreOrderPlaces(seeds, linked, seedScores, paths, ranked[i], ranked[j]);
    StaysAhead(IdsOf(SortedByScore(seeds, linked, seedScores, paths)), ranked, linked, maxEngrams, k, l, i, j);
  }

  lemma UntracedSeedOutranks(x: Uuid, y: Uuid, seeds: seq<Uuid>, seedScores: map<Uuid, real>, stats: TraceStats)
    requires x in seeds && y in seeds && x !in stats && y !in stats
    requires 0.0 <= SeedScore(seedScores, y) < SeedScore(seedScores, x) <= 1.0
    ensures Outranks(BuildCandidate(x, seeds, seedScores, stats), BuildCandidate(y, seeds, seedScores, stats))
  {
  }

  /** Of two seeds without a trace the more relevant one comes first. */
  lemma MoreRelevantSeedRanksFirst(seeds: seq<Uuid>, linked: seq<Uuid>, seedScores: map<Uuid, real>,
                                   paths: seq<EngramTracePath>, maxEngrams: int, i: nat, j: nat)
    requires var ranked := Ranked(seeds, linked, seedScores, paths, maxEngrams);
             && i < |ranked| && j < |ranked|
             && ranked[i] in seeds && ranked[j] in seeds && ranked[j] !in linked
             && Untraced(paths, ranked[i]) && Untraced(paths, ranked[j])
             && 0.0 <= SeedScore(seedScores, ranked[j]) < SeedScore(seedScores, ranked[i]) <= 1.0
    ensures i < j
  {
    var ranked := Ranked(seeds, linked, seedScores, paths, maxEngrams);
    StatsTargets(paths);
    UntracedSeedOutranks(ranked[i], ranked[j], seeds, seedScores, StatsOf(paths));
    HigherRankComesFirst(seeds, linked, seedScores, paths, maxEngrams, i, j);
  }

  /** Of two seeds that are neither pinned nor traced the one whose nearest hit is nearer comes first. */
  lemma NearerSeedRanksFirst(pinned: seq<Uuid>, retrieved: seq<QueryHit>, seeds: seq<Uuid>, linked: seq<Uuid>,
                             paths: seq<EngramTracePath>, maxEngrams: int, g: QueryHit, h: QueryHit, i: nat, j: nat)
    requires NearestHit(retrieved, g) && NearestHit(retrieved, h) && Farness(g.distance) < Farness(h.distance)
    requires g.engramId !in pinned && h.engramId !in pinned && h.engramId !in linked
    requires g.engramId in seeds && h.engramId in seeds && Untraced(paths, g.engramId) && Untraced(paths, h.engramId)
    requires var ranked := Ranked(seeds, linked, SeedRelevance(pinned, retrieved), paths, maxEngrams);
             i < |ranked| && j < |ranked| && ranked[i] == g.engramId && ranked[j] == h.engramId
    ensures i < j
  {
    NearestIsMostRelevant(pinned, retrieved, g);
    NearestIsMostRelevant(pinned, retrieved, h);
    NearerIsMoreRelevant(g.distance, h.distance);
    MoreRelevantSeedRanksFirst(seeds, linked, SeedRelevance(pinned, retrieved), paths, maxEngrams, i, j);
  }
}
