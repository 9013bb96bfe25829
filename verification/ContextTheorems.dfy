/** What an assembled engram context guarantees, for every request and every answer of the repository. */
module ContextTheorems {
  import opened Results
  import opened Text
  import opened Uuids
  import opened Ordering
  import opened LinkTemporal
  import opened TraceChains
  import opened LinkTraversal
  import opened LinkRecall
  import opened CandidateRanking
  import opened Contradictions
  import opened ContextAssembly

  lemma SeedsAreDistinct(maxEngrams: nat, pinned: seq<Uuid>, retrieved: seq<QueryHit>)
    ensures Distinct(SeedIds(maxEngrams, pinned, retrieved)) && |SeedIds(maxEngrams, pinned, retrieved)| <= maxEngrams
  {
    DedupedProperties(pinned + HitIds(retrieved));
  }

  lemma RankingIsSound(seeds: seq<Uuid>, linked: seq<Uuid>, scores: map<Uuid, real>, paths: seq<EngramTracePath>,
                       maxEngrams: int)
    ensures var ranked := Ranked(seeds, linked, scores, paths, maxEngrams);
            && Distinct(ranked)
            && (forall id :: id in ranked <==> id in seeds || id in linked)
            && (Distinct(seeds + linked) ==> |ranked| == |seeds| + |linked|)
            && (linked != [] && maxEngrams >= 2 ==>
                  exists i :: 0 <= i < Min(maxEngrams, |ranked|) && ranked[i] in linked)
  {
    RankingIsExact(seeds, linked, scores, paths, maxEngrams);
    if Distinct(seeds + linked) {
      DedupedOfDistinct(seeds + linked);
    }
    if linked != [] && maxEngrams >= 2 {
      LinkedIsCovered(seeds, linked, scores, paths, maxEngrams);
    }
  }

  lemma SeedsAndLinkedDiffer(seeds: seq<Uuid>, links: LinkedSelection, recall: RecallRequest, traverse: Option<Traversal>)
    requires Distinct(seeds) && SoundLinks(seeds, links, recall, traverse)
    ensures Distinct(seeds + links.linkedIds) && forall id :: id in links.linkedIds ==> id !in seeds
  {
    forall k | 0 <= k < |links.linkedIds|
      ensures links.linkedIds[k] !in seeds
    {
      assert links.tracePaths[k] in links.tracePaths;
    }
  }

  /** The candidates: distinct seeds, sound links, and a ranking of exactly the seeds and linked engrams. */
  lemma CandidatesAreSound(scoring: Scoring, request: EngramRequest, deps: EngramDependencies)
    requires request.recall.maxEngrams >= 0 && CandidatesOf(scoring, request, deps).Ok?
    ensures var c := CandidatesOf(scoring, request, deps).value;
            && Distinct(c.seeds) && |c.seeds| <= request.recall.maxEngrams
            && SoundLinks(c.seeds, c.links, request.recall, deps.traverse)
            && Distinct(c.ranked) && |c.ranked| == |c.seeds| + |c.links.linkedIds|
            && (forall id :: id in c.ranked <==> id in c.seeds || id in c.links.linkedIds)
            && (c.links.linkedIds != [] && request.recall.maxEngrams >= 2 ==>
                  exists i :: 0 <= i < Min(request.recall.maxEngrams, |c.ranked|) && c.ranked[i] in c.links.linkedIds)
  {
    var pinned, retrieved := deps.pinned.value, deps.retrieved.value;
    SeedsAreDistinct(request.recall.maxEngrams, pinned, retrieved);
    var c, scores := CandidatesOf(scoring, request, deps).value, SeedRelevance(pinned, retrieved);
    assert c.ranked == Ranked(c.seeds, c.links.linkedIds, scores, c.links.tracePaths, request.recall.maxEngrams);
    LinkSelectionIsSound(scoring, request.recall, deps.traverse, c.seeds, scores);
    SeedsAndLinkedDiffer(c.seeds, c.links, request.recall, deps.traverse);
    RankingIsSound(c.seeds, c.links.linkedIds, scores, c.links.tracePaths, request.recall.maxEngrams);
  }

  /** The surviving paths are exactly the selected ones whose target was packed, and stay in order. */
  lemma SurvivorsAreExact(selection: CandidateSelection, packing: Packing)
    requires DistinctTargets(selection.links.tracePaths) && SortedBy(CompareTracePath, selection.links.tracePaths)
    ensures var paths := SurvivingPaths(selection, packing);
            && DistinctTargets(paths) && SortedBy(CompareTracePath, paths)
            && |paths| <= |selection.links.tracePaths|
            && (forall p :: p in paths <==>
                  p in selection.links.tracePaths && p.targetEngramId in BundleIds(packing.bundles))
  {
    var used := BundleIds(packing.bundles);
    PathsToProperties(selection.links.tracePaths, used);
    SortFixesSorted(CompareTracePath, PathsTo(selection.links.tracePaths, used));
  }

  // ----- cross-project counts -----

  lemma {:induction false} ForeignIdsMembers(bundles: seq<Bundle>, session: string)
    requires Distinct(BundleIds(bundles))
    ensures Distinct(ForeignIds(bundles, session))
    ensures forall id :: id in ForeignIds(bundles, session) <==>
              id in ProjectOf(bundles) && IsCrossProject(ProjectOf(bundles)[id], session)
    ensures forall id :: id in ProjectOf(bundles) <==> id in BundleIds(bundles)
  {
    if bundles != [] {
      var n := |bundles| - 1;
      var front := bundles[..n];
      assert BundleIds(front) == BundleIds(bundles)[..n];
      assert BundleIds(bundles) == BundleIds(front) + [bundles[n].engramId];
      assert Distinct(BundleIds(front));
      ForeignIdsMembers(front, session);
      assert bundles[n].engramId !in BundleIds(front) by {
        assert forall i :: 0 <= i < n ==> BundleIds(bundles)[i] != BundleIds(bundles)[n];
      }
    }
  }

  lemma {:induction false} ForeignTargetsMembers(paths: seq<EngramTracePath>, projects: map<Uuid, string>, session: string)
    requires DistinctTargets(paths)
    ensures Distinct(ForeignTargets(paths, projects, session))
    ensures forall id :: id in ForeignTargets(paths, projects, session) <==>
              id in projects && IsCrossProject(projects[id], session) && id in Targets(paths)
  {
    if paths != [] {
      var n := |paths| - 1;
      ForeignTargetsMembers(paths[..n], projects, session);
      var before := ForeignTargets(paths[..n], projects, session);
      assert Targets(paths[..n]) == Targets(paths)[..n];
      assert Targets(paths) == Targets(paths[..n]) + [paths[n].targetEngramId];
      assert paths[n].targetEngramId !in Targets(paths[..n]);
    }
  }

  /** No more foreign paths are counted than foreign engrams. */
  lemma ForeignPathsWithinEngrams(bundles: seq<Bundle>, paths: seq<EngramTracePath>, session: string)
    requires Distinct(BundleIds(bundles)) && DistinctTargets(paths)
    ensures |ForeignTargets(paths, ProjectOf(bundles), session)| <= |ForeignIds(bundles, session)|
  {
    ForeignIdsMembers(bundles, session);
    ForeignTargetsMembers(paths, ProjectOf(bundles), session);
    DistinctWithin(ForeignTargets(paths, ProjectOf(bundles), session), ForeignIds(bundles, session));
  }

  /** The counts are the numbers of foreign engrams, and of paths to them. */
  lemma ForeignCountsAreExact(bundles: seq<Bundle>, paths: seq<EngramTracePath>, session: string)
    requires Distinct(BundleIds(bundles)) && DistinctTargets(paths)
    ensures |ForeignIds(bundles, session)| == |Foreign(bundles, session)|
    ensures |ForeignTargets(paths, ProjectOf(bundles), session)|
         == |set id | id in Targets(paths) && id in Foreign(bundles, session)|
  {
    ForeignIdsMembers(bundles, session);
    ForeignTargetsMembers(paths, ProjectOf(bundles), session);
    DistinctSize(ForeignIds(bundles, session));
    DistinctSize(ForeignTargets(paths, ProjectOf(bundles), session));
    ForeignIsElements(bundles, session);
    assert Elements(ForeignTargets(paths, ProjectOf(bundles), session))
        == set id | id in Targets(paths) && id in Foreign(bundles, session);
  }

  /** The ids of the bundles from foreign projects. */
  ghost function Foreign(bundles: seq<Bundle>, session: string): set<Uuid> {
    set b | b in bundles && b.projectId != "" && b.projectId != session :: b.engramId
  }

  lemma {:induction false} ForeignIsElements(bundles: seq<Bundle>, session: string)
    ensures Elements(ForeignIds(bundles, session)) == Foreign(bundles, session)
  {
    if bundles != [] {
      var n := |bundles| - 1;
      ForeignIsElements(bundles[..n], session);
      assert bundles == bundles[..n] + [bundles[n]];
    }
  }

  /** The paths of all roots behind a selection of links. */
  ghost function FoundPaths(scoring: Scoring, recall: RecallRequest, traverse: Option<Traversal>, seeds: seq<Uuid>,
                            seedScores: map<Uuid, real>): seq<EngramTracePath>
    requires ShouldSelectLinkedContext(recall, traverse, seeds)
    requires LinkSelectionFor(scoring, recall, traverse, seeds, seedScores).Ok?
  {
    TraversedPaths(scoring, traverse.value, recall.linkRecallDepth.value, recall.linkRecallMaxNeighbors.value, seeds,
                   seedScores).value
  }

  /** The targets that are no seeds and have a path that counts. */
  ghost function CountingTargets(recall: RecallRequest, t: real, seeds: seq<Uuid>, paths: seq<EngramTracePath>): set<Uuid> {
    set p | p in paths && p.targetEngramId !in seeds && LoudEnough(recall, t, p) :: p.targetEngramId
  }

  /**
   * Selected and truncated paths are as many as the targets with a path that counts; suppressed are the paths below
   * the threshold when suppression is on, though nothing is reported when there is no such target.
   */
  lemma LinkCountsMatchTraversal(scoring: Scoring, recall: RecallRequest, traverse: Option<Traversal>, seeds: seq<Uuid>,
                                 seedScores: map<Uuid, real>, t: real)
    requires ShouldSelectLinkedContext(recall, traverse, seeds) && ThresholdIs(recall, t)
    requires LinkSelectionFor(scoring, recall, traverse, seeds, seedScores).Ok?
    ensures var links := LinkSelectionFor(scoring, recall, traverse, seeds, seedScores).value;
            var paths := FoundPaths(scoring, recall, traverse, seeds, seedScores);
            var targets := CountingTargets(recall, t, seeds, paths);
            && |links.tracePaths| + links.truncatedTracePathCount == |targets|
            && links.suppressedTraceCount
               == if targets == {} || recall.noiseSuppressionEnabled != Some(true) then 0 else CountBelow(paths, t)
  {
    var paths := FoundPaths(scoring, recall, traverse, seeds, seedScores);
    SelectionCounts(recall, seeds, paths);
    MergedCandidatesSorted(recall, seeds, paths);
    MergedKeysAreTargets(recall, seeds, paths, t);
    SuppressedAreBelow(paths, recall, seeds, t);
  }

  lemma MergedKeysAreTargets(recall: RecallRequest, seeds: seq<Uuid>, paths: seq<EngramTracePath>, t: real)
    requires ThresholdIs(recall, t)
    ensures MergedInto(map[], paths, recall, seeds).Keys == CountingTargets(recall, t, seeds, paths)
  {
    forall id: Uuid
      ensures id in MergedInto(map[], paths, recall, seeds) <==> id in CountingTargets(recall, t, seeds, paths)
    {
      MergedIffLoudEnough(paths, recall, seeds, id, t);
    }
  }

  // ----- the assembled context -----

  /** The packing behind an assembled context. */
  ghost function PackingOf(scoring: Scoring, request: EngramRequest, deps: EngramDependencies): Result<Packing>
    requires request.recall.maxEngrams >= 0 && CandidatesOf(scoring, request, deps).Ok?
  {
    PackAfter(CandidatesOf(scoring, request, deps).value.ranked, deps.rehydrate, request.recall.maxEngrams)
  }

  lemma ContextUnfolds(scoring: Scoring, request: EngramRequest, deps: EngramDependencies)
    requires request.recall.maxEngrams >= 0 && ContextOf(scoring, request, deps).Ok?
    ensures CandidatesOf(scoring, request, deps).Ok? && PackingOf(scoring, request, deps).Ok?
    ensures ContextOf(scoring, request, deps).value
         == ContextFrom(request.sessionProjectId, CandidatesOf(scoring, request, deps).value,
                        PackingOf(scoring, request, deps).value)
  {
    CandidatesAreSound(scoring, request, deps);
    DedupedOfDistinct(CandidatesOf(scoring, request, deps).value.ranked);
  }

  /** Used engrams are distinct and are exactly the first `maxEngrams` accessible ids of the ranking. */
  lemma UsedEngramsAreFirstAccessible(scoring: Scoring, request: EngramRequest, deps: EngramDependencies)
    requires request.recall.maxEngrams >= 0 && FaithfulAccess(deps.rehydrate)
    requires ContextOf(scoring, request, deps).Ok?
    ensures var context, c := ContextOf(scoring, request, deps).value, CandidatesOf(scoring, request, deps).value;
            var all := AccessibleIds(c.ranked, deps.rehydrate);
            && context.usedEngramIds == all[..Min(request.recall.maxEngrams, |all|)]
            && Distinct(context.usedEngramIds)
            && context.usedEngramIds == BundleIds(context.bundles)
  {
    var c := CandidatesOf(scoring, request, deps).value;
    ContextUnfolds(scoring, request, deps);
    CandidatesAreSound(scoring, request, deps);
    PackingIsFirstAccessible(c.ranked, deps.rehydrate, request.recall.maxEngrams);
    AccessibleIdsDistinct(c.ranked, deps.rehydrate);
  }

  /** The bundles of a context are what its used engrams rehydrate to, in order. */
  lemma UsedBundlesAreRehydrated(scoring: Scoring, request: EngramRequest, deps: EngramDependencies)
    requires request.recall.maxEngrams >= 0 && FaithfulAccess(deps.rehydrate)
    requires ContextOf(scoring, request, deps).Ok?
    ensures var context := ContextOf(scoring, request, deps).value;
            && |context.bundles| == |context.usedEngramIds|
            && forall k :: 0 <= k < |context.bundles| ==>
                 deps.rehydrate(context.usedEngramIds[k]) == Ok(Some(context.bundles[k]))
  {
    ContextUnfolds(scoring, request, deps);
    PackedAreRehydrated(CandidatesOf(scoring, request, deps).value.ranked, deps.rehydrate, request.recall.maxEngrams);
  }

  /** Every surviving path walks from a seed to a distinct used engram that is no seed; none is lost. */
  lemma PathsLeadFromSeedsToUsed(scoring: Scoring, request: EngramRequest, deps: EngramDependencies)
    requires request.recall.maxEngrams >= 0 && ContextOf(scoring, request, deps).Ok?
    ensures var context, c := ContextOf(scoring, request, deps).value, CandidatesOf(scoring, request, deps).value;
            && DistinctTargets(context.tracePaths) && BestFirst(context.tracePaths)
            && (forall p :: p in context.tracePaths <==>
                  p in c.links.tracePaths && p.targetEngramId in context.usedEngramIds)
            && (context.tracePaths != [] ==> ShouldSelectLinkedContext(request.recall, deps.traverse, c.seeds))
            && (forall p :: p in context.tracePaths ==>
                  SoundPath(p, c.seeds, deps.traverse.value, request.recall.linkRecallDepth.value,
                            request.recall.linkRecallMaxNeighbors.value))
  {
    var c := CandidatesOf(scoring, request, deps).value;
    CandidatesAreSound(scoring, request, deps);
    ContextUnfolds(scoring, request, deps);
    var packing := PackingOf(scoring, request, deps).value;
    SurvivorsAreExact(c, packing);
    var context := ContextOf(scoring, request, deps).value;
    assert context.tracePaths == SurvivingPaths(c, packing);
    SortedIsBestFirst(context.tracePaths);
    if context.tracePaths != [] {
      assert context.tracePaths[0] in c.links.tracePaths;
    }
  }

  /** Every surviving path scores what a walk from its seed scores that starts with the seed's relevance. */
  lemma PathsScoreTheirWalks(scoring: Scoring, request: EngramRequest, deps: EngramDependencies, p: EngramTracePath)
    returns (via: seq<nat>)
    requires request.recall.maxEngrams >= 0 && ContextOf(scoring, request, deps).Ok?
    requires p in ContextOf(scoring, request, deps).value.tracePaths
    ensures deps.pinned.Ok? && deps.retrieved.Ok? && deps.traverse.Some?
    ensures request.recall.linkRecallDepth.Some? && request.recall.linkRecallMaxNeighbors.Some?
    ensures var depth, neighbors := request.recall.linkRecallDepth.value, request.recall.linkRecallMaxNeighbors.value;
            && deps.traverse.value(p.rootEngramId, depth, neighbors).Ok?
            && var t := TraceFrom(scoring, deps.traverse.value, depth, neighbors, p.rootEngramId,
                                  SeedRelevance(deps.pinned.value, deps.retrieved.value));
               Walk(t, via, p.targetEngramId) && p.score == WalkChain(t, via).score
  {
    var c := CandidatesOf(scoring, request, deps).value;
    PathsLeadFromSeedsToUsed(scoring, request, deps);
    var depth, neighbors := request.recall.linkRecallDepth.value, request.recall.linkRecallMaxNeighbors.value;
    var scores := SeedRelevance(deps.pinned.value, deps.retrieved.value);
    SelectedAreMerged(request.recall, c.seeds, FoundPaths(scoring, request.recall, deps.traverse, c.seeds, scores));
    via := TraversedPathScores(scoring, deps.traverse.value, depth, neighbors, c.seeds, scores, p);
  }

  /** The seeds of a context are the first pinned and then retrieved engrams, as many as it may hold. */
  lemma SeedsOfContext(scoring: Scoring, request: EngramRequest, deps: EngramDependencies)
    requires request.recall.maxEngrams >= 0 && CandidatesOf(scoring, request, deps).Ok?
    ensures deps.pinned.Ok? && deps.retrieved.Ok?
    ensures var seeds, pinned, retrieved := CandidatesOf(scoring, request, deps).value.seeds, deps.pinned.value,
                                            deps.retrieved.value;
            var offers := Offers(pinned, retrieved);
            && |seeds| == Min(request.recall.maxEngrams, |offers|) && (forall id :: id in seeds ==> id in offers)
            && (forall i, j :: 0 <= i < j < |seeds| ==> ComesBefore(pinned, retrieved, seeds[i], seeds[j]))
            && (forall i, id :: 0 <= i < |seeds| && id in offers && id !in seeds ==>
                  ComesBefore(pinned, retrieved, seeds[i], id))
  {
    SeedsAreFirstOffers(request.recall.maxEngrams, deps.pinned.value, deps.retrieved.value);
  }

  /** The links of a context are counted from the traversals of its seeds, started with their relevance. */
  lemma LinkCountsOfContext(scoring: Scoring, request: EngramRequest, deps: EngramDependencies, t: real)
    requires request.recall.maxEngrams >= 0 && CandidatesOf(scoring, request, deps).Ok? && ThresholdIs(request.recall, t)
    ensures deps.pinned.Ok? && deps.retrieved.Ok?
    ensures var c, recall := CandidatesOf(scoring, request, deps).value, request.recall;
            var scores := SeedRelevance(deps.pinned.value, deps.retrieved.value);
            if recall.linkRecallEnabled == Some(true) && recall.maxEngrams >= 2 && c.seeds != []
               && recall.linkRecallDepth.Some? && recall.linkRecallMaxNeighbors.Some? && deps.traverse.Some?
            then
              var paths := FoundPaths(scoring, recall, deps.traverse, c.seeds, scores);
              var targets := CountingTargets(recall, t, c.seeds, paths);
              && |c.links.tracePaths| == Min(PoolSize(recall.maxEngrams, |c.seeds|), |targets|)
              && c.links.truncatedTracePathCount == |targets| - |c.links.tracePaths|
              && c.links.suppressedTraceCount
                 == if targets == {} || recall.noiseSuppressionEnabled != Some(true) then 0 else CountBelow(paths, t)
            else c.links == LinkedSelection([], [], 0, 0)
  {
    var c, scores := CandidatesOf(scoring, request, deps).value, SeedRelevance(deps.pinned.value, deps.retrieved.value);
    if ShouldSelectLinkedContext(request.recall, deps.traverse, c.seeds) {
      var paths := FoundPaths(scoring, request.recall, deps.traverse, c.seeds, scores);
      LinkCountsMatchTraversal(scoring, request.recall, deps.traverse, c.seeds, scores, t);
      SelectionFillsPool(request.recall, c.seeds, paths);
      MergedKeysAreTargets(request.recall, c.seeds, paths, t);
    }
  }

  // ----- the order of the ranking -----

  lemma LinksTraceNoSeed(scoring: Scoring, request: EngramRequest, deps: EngramDependencies, id: Uuid)
    requires request.recall.maxEngrams >= 0 && CandidatesOf(scoring, request, deps).Ok?
    ensures var c := CandidatesOf(scoring, request, deps).value;
            id in c.seeds ==> id !in c.links.linkedIds && Untraced(c.links.tracePaths, id)
  {
    CandidatesAreSound(scoring, request, deps);
    var c := CandidatesOf(scoring, request, deps).value;
    SeedsAndLinkedDiffer(c.seeds, c.links, request.recall, deps.traverse);
  }

  /** Of two seeds that are not pinned the one whose nearest hit is nearer is ranked first. */
  lemma NearerSeedIsRankedFirst(scoring: Scoring, request: EngramRequest, deps: EngramDependencies, g: QueryHit,
                                h: QueryHit, i: nat, j: nat)
    requires request.recall.maxEngrams >= 0 && CandidatesOf(scoring, request, deps).Ok?
    requires NearestHit(deps.retrieved.value, g) && NearestHit(deps.retrieved.value, h)
    requires g.engramId !in deps.pinned.value && h.engramId !in deps.pinned.value
    requires Farness(g.distance) < Farness(h.distance)
    requires var c := CandidatesOf(scoring, request, deps).value;
             && g.engramId in c.seeds && h.engramId in c.seeds
             && i < |c.ranked| && j < |c.ranked| && c.ranked[i] == g.engramId && c.ranked[j] == h.engramId
    ensures i < j
  {
    var c := CandidatesOf(scoring, request, deps).value;
    LinksTraceNoSeed(scoring, request, deps, g.engramId);
    LinksTraceNoSeed(scoring, request, deps, h.engramId);
    NearerSeedRanksFirst(deps.pinned.value, deps.retrieved.value, c.seeds, c.links.linkedIds, c.links.tracePaths,
                         request.recall.maxEngrams, g, h, i, j);
  }

  /** Paths to distinct targets are the statistics of their targets. */
  lemma StatsOfPath(paths: seq<EngramTracePath>, p: EngramTracePath)
    requires DistinctTargets(paths) && p in paths && forall q :: q in paths ==> 0.0 <= q.score <= 1.0
    ensures p.targetEngramId in StatsOf(paths) && StatsOf(paths)[p.targetEngramId] == TraceStat(p.score, p.depth)
  {
    StatsAreBest(paths, p.targetEngramId);
    var q :| q in paths && q.targetEngramId == p.targetEngramId
             && StatsOf(paths)[p.targetEngramId] == TraceStat(q.score, q.depth);
    var k :| 0 <= k < |paths| && paths[k] == p;
    var l :| 0 <= l < |paths| && paths[l] == q;
  }

  /** A linked engram is ranked ahead of every seed whose lead in relevance its path makes up for. */
  lemma LinkedIsRankedBefore(scoring: Scoring, request: EngramRequest, deps: EngramDependencies, p: EngramTracePath,
                             seed: Uuid, i: nat, j: nat)
    requires request.recall.maxEngrams >= 0 && CandidatesOf(scoring, request, deps).Ok?
    requires var c := CandidatesOf(scoring, request, deps).value;
             && p in c.links.tracePaths && p.score > 0.0 && seed in c.seeds
             && i < |c.ranked| && j < |c.ranked| && c.ranked[i] == p.targetEngramId && c.ranked[j] == seed
    requires var scores := SeedRelevance(deps.pinned.value, deps.retrieved.value);
             0.58 * (SeedScore(scores, seed) - SeedScore(scores, p.targetEngramId)) <= 0.42 * p.score + 0.03
    ensures i < j
  {
    var c, scores := CandidatesOf(scoring, request, deps).value, SeedRelevance(deps.pinned.value, deps.retrieved.value);
    CandidatesAreSound(scoring, request, deps);
    LinksTraceNoSeed(scoring, request, deps, seed);
    LinksTraceNoSeed(scoring, request, deps, p.targetEngramId);
    StatsTargets(c.links.tracePaths);
    StatsOfPath(c.links.tracePaths, p);
    SeedRelevanceIsBest(deps.pinned.value, deps.retrieved.value, seed);
    SeedRelevanceIsBest(deps.pinned.value, deps.retrieved.value, p.targetEngramId);
    TracedAheadOfSeedIff(p.targetEngramId, seed, c.seeds, scores, StatsOf(c.links.tracePaths));
    CandidateOrder();
    HigherRankComesFirst(c.seeds, c.links.linkedIds, scores, c.links.tracePaths, request.recall.maxEngrams, i, j);
  }

  /** A path over steps of bounded depth and with different links is no longer than the bound and uses no link twice. */
  lemma GenuinePathIsShort(p: EngramTracePath, steps: seq<TraversalStep>, depth: nat)
    requires GenuinePath(p, steps) && forall s :: s in steps ==> s.depth <= depth
    requires forall r, s :: r in steps && s in steps && r.link.linkId == s.link.linkId ==> r == s
    ensures 1 <= p.depth <= depth && Distinct(p.linkIds)
  {
    var walk: seq<TraversalStep> :|
      (forall s :: s in walk ==> s in steps)
      && Records(p.rootEngramId, p.engramIds, p.linkIds, p.contradictingLinkIds, walk);
    assert walk[|walk| - 1] in steps;
    forall i, j | 0 <= i < j < |p.linkIds|
      ensures p.linkIds[i] != p.linkIds[j]
    {
      assert walk[i] in steps && walk[j] in steps && walk[i].depth != walk[j].depth;
    }
  }

  /** A path over a breadth-first traversal is no longer than the traversal is deep, and uses no link twice. */
  lemma TraversedPathIsShort(p: EngramTracePath, neighbors: Neighbors, depth: int, limit: int)
    requires FaithfulNeighbors(neighbors) && Traversed(neighbors, p.rootEngramId, depth, limit).Ok?
    requires GenuinePath(p, Traversed(neighbors, p.rootEngramId, depth, limit).value)
    ensures 1 <= p.depth <= NormalizedDepth(depth) && Distinct(p.linkIds)
  {
    var levels := TraversalIsLevelled(neighbors, p.rootEngramId, depth, limit);
    TraversalStepsOnce(neighbors, p.rootEngramId, depth, limit);
    GenuinePathIsShort(p, Traversed(neighbors, p.rootEngramId, depth, limit).value, NormalizedDepth(depth));
  }

  /** Over the repository's own traversal, every surviving path is within the requested depth and repeats no link. */
  lemma PathsStayWithinDepth(scoring: Scoring, request: EngramRequest, deps: EngramDependencies, neighbors: Neighbors)
    requires request.recall.maxEngrams >= 0 && ContextOf(scoring, request, deps).Ok?
    requires FaithfulNeighbors(neighbors) && deps.traverse == Some(TraversalOver(neighbors))
    ensures var context := ContextOf(scoring, request, deps).value;
            forall p :: p in context.tracePaths ==>
              && request.recall.linkRecallDepth.Some?
              && 1 <= p.depth <= NormalizedDepth(request.recall.linkRecallDepth.value) && Distinct(p.linkIds)
  {
    var context, c := ContextOf(scoring, request, deps).value, CandidatesOf(scoring, request, deps).value;
    PathsLeadFromSeedsToUsed(scoring, request, deps);
    forall p | p in context.tracePaths
      ensures request.recall.linkRecallDepth.Some?
      ensures 1 <= p.depth <= NormalizedDepth(request.recall.linkRecallDepth.value) && Distinct(p.linkIds)
    {
      var depth, limit := request.recall.linkRecallDepth.value, request.recall.linkRecallMaxNeighbors.value;
      assert SoundPath(p, c.seeds, TraversalOver(neighbors), depth, limit);
      TraversedPathIsShort(p, neighbors, depth, limit);
    }
  }

  /** Used links are exactly the links on surviving paths; warnings are exactly their contradictions. */
  lemma LinksAndWarningsMatchPaths(scoring: Scoring, request: EngramRequest, deps: EngramDependencies)
    requires request.recall.maxEngrams >= 0 && ContextOf(scoring, request, deps).Ok?
    ensures var context := ContextOf(scoring, request, deps).value;
            && Distinct(context.usedLinkIds)
            && (forall id :: id in context.usedLinkIds <==>
                  exists p :: p in context.tracePaths && id in p.linkIds)
            && DistinctWarningTargets(context.warnings)
            && (forall w :: w in context.warnings <==>
                  exists p :: p in context.tracePaths && p.contradictingLinkIds != [] && Warns(p, w))
            && (forall i, j :: 0 <= i < j < |context.warnings| ==>
                  WarnsBefore(context.warnings[i], context.warnings[j]))
  {
    var context := ContextOf(scoring, request, deps).value;
    PathsLeadFromSeedsToUsed(scoring, request, deps);
    AllLinkIdsMembers(context.tracePaths);
    DedupedProperties(AllLinkIds(context.tracePaths));
    WarningsMatchConflicts(context.tracePaths);
    WarningsInOrder(context.tracePaths);
    assert forall p :: p in context.tracePaths ==> (p.hasContradiction <==> p.contradictingLinkIds != []);
  }

  /** The audit adds up. */
  lemma AuditIdentities(scoring: Scoring, request: EngramRequest, deps: EngramDependencies)
    requires request.recall.maxEngrams >= 0 && FaithfulAccess(deps.rehydrate)
    requires ContextOf(scoring, request, deps).Ok?
    ensures var context, c := ContextOf(scoring, request, deps).value, CandidatesOf(scoring, request, deps).value;
            var audit := context.audit;
            && audit.candidateEngramCount == |c.seeds| + |c.links.linkedIds|
            && audit.linkedTraceCandidateCount == |context.tracePaths| + audit.filteredTracePathCount
            && audit.linkedTraceCandidateCount == |c.links.linkedIds|
            && audit.suppressedTracePathCount == c.links.suppressedTraceCount
            && audit.truncatedTracePathCount == c.links.truncatedTracePathCount
            && audit.packedEngramCount == |context.usedEngramIds|
            && audit.packedEngramCount + audit.blockedEngramCandidateCount <= audit.candidateEngramCount
            && (audit.packedEngramCount < request.recall.maxEngrams ==>
                  audit.packedEngramCount + audit.blockedEngramCandidateCount == audit.candidateEngramCount)
  {
    var c := CandidatesOf(scoring, request, deps).value;
    CandidatesAreSound(scoring, request, deps);
    ContextUnfolds(scoring, request, deps);
    SurvivorsAreExact(c, PackingOf(scoring, request, deps).value);
    PackingIsFirstAccessible(c.ranked, deps.rehydrate, request.recall.maxEngrams);
  }

  /** The audit counts the used engrams of foreign projects and the paths to them, and lists those projects. */
  lemma AuditOfProjects(scoring: Scoring, request: EngramRequest, deps: EngramDependencies)
    requires request.recall.maxEngrams >= 0 && FaithfulAccess(deps.rehydrate)
    requires ContextOf(scoring, request, deps).Ok?
    ensures var context := ContextOf(scoring, request, deps).value;
            var audit, foreign := context.audit, Foreign(context.bundles, request.sessionProjectId);
            && audit.crossProjectTracePathCount <= audit.crossProjectEngramCount <= audit.packedEngramCount
            && audit.crossProjectEngramCount == |foreign|
            && audit.crossProjectTracePathCount == |set id | id in Targets(context.tracePaths) && id in foreign|
            && StrictlySorted(audit.crossProjectProjectIds)
            && (forall p :: p in audit.crossProjectProjectIds <==>
                  exists b :: b in context.bundles && b.projectId == p && p != "" && p != request.sessionProjectId)
  {
    var context, c := ContextOf(scoring, request, deps).value, CandidatesOf(scoring, request, deps).value;
    CandidatesAreSound(scoring, request, deps);
    ContextUnfolds(scoring, request, deps);
    var packing := PackingOf(scoring, request, deps).value;
    SurvivorsAreExact(c, packing);
    UsedEngramsAreFirstAccessible(scoring, request, deps);
    ForeignPathsWithinEngrams(packing.bundles, context.tracePaths, request.sessionProjectId);
    ForeignCountsAreExact(packing.bundles, context.tracePaths, request.sessionProjectId);
    ForeignIdsCount(packing.bundles, request.sessionProjectId);
    TextSortStrict(Enumeration(ForeignProjects(packing.bundles, request.sessionProjectId)));
  }

  lemma {:induction false} ForeignIdsCount(bundles: seq<Bundle>, session: string)
    ensures |ForeignIds(bundles, session)| <= |bundles|
  {
    if bundles != [] {
      ForeignIdsCount(bundles[..|bundles| - 1], session);
    }
  }

  /** A linked engram moved forward for coverage is packed whenever it is accessible. */
  lemma PromotedIsPacked(scoring: Scoring, request: EngramRequest, deps: EngramDependencies, i: nat)
    requires request.recall.maxEngrams >= 0 && FaithfulAccess(deps.rehydrate)
    requires ContextOf(scoring, request, deps).Ok?
    requires var c := CandidatesOf(scoring, request, deps).value;
             i < Min(request.recall.maxEngrams, |c.ranked|) && Accessible(deps.rehydrate, c.ranked[i])
    ensures CandidatesOf(scoring, request, deps).value.ranked[i] in ContextOf(scoring, request, deps).value.usedEngramIds
  {
    var c := CandidatesOf(scoring, request, deps).value;
    ContextUnfolds(scoring, request, deps);
    EarlyAccessibleIsPacked(c.ranked, deps.rehydrate, request.recall.maxEngrams, i);
  }

  /** If every engram is accessible and anything was linked, the context of two or more engrams uses a linked one. */
  lemma LinkedMemoryIsUsed(scoring: Scoring, request: EngramRequest, deps: EngramDependencies)
    requires request.recall.maxEngrams >= 2 && FaithfulAccess(deps.rehydrate)
    requires ContextOf(scoring, request, deps).Ok?
    requires var c := CandidatesOf(scoring, request, deps).value;
             c.links.linkedIds != [] && forall id :: id in c.links.linkedIds ==> Accessible(deps.rehydrate, id)
    ensures ContextOf(scoring, request, deps).value.tracePaths != []
  {
    var context, c := ContextOf(scoring, request, deps).value, CandidatesOf(scoring, request, deps).value;
    CandidatesAreSound(scoring, request, deps);
    var i :| 0 <= i < Min(request.recall.maxEngrams, |c.ranked|) && c.ranked[i] in c.links.linkedIds;
    PromotedIsPacked(scoring, request, deps, i);
    PathsLeadFromSeedsToUsed(scoring, request, deps);
    var k :| 0 <= k < |c.links.linkedIds| && c.links.linkedIds[k] == c.ranked[i];
    assert c.links.tracePaths[k] in context.tracePaths;
  }

  // ----- errors -----

  /**
   * The error of a context is the first to come: of the pinned engrams, of the retrieved ones, of the first seed whose
   * traversal fails, or of the first ranked engram that cannot be read while there is room for it. Without any of them
   * there is a context.
   */
  lemma ContextFailsWithFirstError(scoring: Scoring, request: EngramRequest, deps: EngramDependencies)
    requires request.recall.maxEngrams >= 0 && FaithfulAccess(deps.rehydrate)
    ensures var r, c := ContextOf(scoring, request, deps), CandidatesOf(scoring, request, deps);
            && (deps.pinned.Err? ==> r == Err(deps.pinned.error))
            && (deps.pinned.Ok? && deps.retrieved.Err? ==> r == Err(deps.retrieved.error))
            && (r.Ok? <==> c.Ok? && forall i: nat :: !FailsAt(c.value.ranked, deps.rehydrate, request.recall.maxEngrams, i))
            && (c.Ok? ==>
                  forall i: nat :: FailsAt(c.value.ranked, deps.rehydrate, request.recall.maxEngrams, i)
                                   && (forall k: nat :: k < i ==>
                                         !FailsAt(c.value.ranked, deps.rehydrate, request.recall.maxEngrams, k)) ==>
                    r == Err(deps.rehydrate(c.value.ranked[i]).error))
  {
    var c, limit := CandidatesOf(scoring, request, deps), request.recall.maxEngrams;
    if c.Ok? {
      var ranked := c.value.ranked;
      CandidatesAreSound(scoring, request, deps);
      DedupedOfDistinct(ranked);
      PackingFailsIff(ranked, deps.rehydrate, limit);
      forall i: nat | FailsAt(ranked, deps.rehydrate, limit, i)
                      && forall k: nat :: k < i ==> !FailsAt(ranked, deps.rehydrate, limit, k)
        ensures PackAfter(ranked, deps.rehydrate, limit) == Err(deps.rehydrate(ranked[i]).error)
      {
        FirstFailingCandidate(ranked, deps.rehydrate, limit, i);
      }
    }
  }

  /** With pinned and retrieved engrams at hand the candidates fail exactly with the first seed that cannot be traversed. */
  lemma CandidatesFailWithFirstRoot(scoring: Scoring, request: EngramRequest, deps: EngramDependencies, i: nat)
    requires request.recall.maxEngrams >= 0 && deps.pinned.Ok? && deps.retrieved.Ok?
    requires var seeds := SeedIds(request.recall.maxEngrams, deps.pinned.value, deps.retrieved.value);
             ShouldSelectLinkedContext(request.recall, deps.traverse, seeds)
    ensures var seeds := SeedIds(request.recall.maxEngrams, deps.pinned.value, deps.retrieved.value);
            var depth, neighbors := request.recall.linkRecallDepth.value, request.recall.linkRecallMaxNeighbors.value;
            var r, traverse := CandidatesOf(scoring, request, deps), deps.traverse.value;
            && (r.Err? <==> SomeRootFails(traverse, depth, neighbors, seeds))
            && (i < |seeds| && traverse(seeds[i], depth, neighbors).Err?
                && (forall k :: 0 <= k < i ==> traverse(seeds[k], depth, neighbors).Ok?) ==>
                  r == Err(traverse(seeds[i], depth, neighbors).error))
  {
    var seeds := SeedIds(request.recall.maxEngrams, deps.pinned.value, deps.retrieved.value);
    var depth, neighbors := request.recall.linkRecallDepth.value, request.recall.linkRecallMaxNeighbors.value;
    var scores, traverse := SeedRelevance(deps.pinned.value, deps.retrieved.value), deps.traverse.value;
    TraversalFailsIff(scoring, traverse, depth, neighbors, seeds, scores);
    if i < |seeds| && traverse(seeds[i], depth, neighbors).Err?
       && forall k :: 0 <= k < i ==> traverse(seeds[k], depth, neighbors).Ok? {
      FirstFailingRoot(scoring, traverse, depth, neighbors, seeds, scores, i);
    }
  }
}
