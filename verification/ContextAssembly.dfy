/**
 * Assembly of the engram context: seeds are chosen, linked engrams recalled, all candidates ranked, bundles
 * packed under an access check and a limit, and what was used is reported and audited.
 */
module ContextAssembly {
  import opened Results
  import opened Text
  import opened Uuids
  import opened Ordering
  import opened LinkTemporal
  import opened TraceChains
  import opened LinkRecall
  import opened CandidateRanking
  import opened Contradictions

  /** A citation; `detail` stands for its title, snippet and time. */
  datatype Citation = Citation(url: string, detail: string)

  /** A rehydrated engram; `body` stands for what its section is rendered from besides its citations. */
  datatype Bundle = Bundle(engramId: Uuid, projectId: string, body: string, citations: seq<Citation>)

  /** `Ok(None)` is an engram the actor may not read. */
  type Rehydration = Uuid -> Result<Option<Bundle>>

  /** The answers of the repository to the one call made to it, or to each call made to it. */
  datatype EngramDependencies = EngramDependencies(
    pinned: Result<seq<Uuid>>,
    retrieved: Result<seq<QueryHit>>,
    traverse: Option<Traversal>,
    rehydrate: Rehydration)

  datatype EngramRequest = EngramRequest(recall: RecallRequest, sessionProjectId: string)

  datatype Packing = Packing(bundles: seq<Bundle>, blocked: nat, visited: nat)

  datatype CandidateSelection = CandidateSelection(
    seeds: seq<Uuid>,
    ranked: seq<Uuid>,
    links: LinkedSelection)

  datatype RetrievalAudit = RetrievalAudit(
    candidateEngramCount: nat,
    packedEngramCount: nat,
    blockedEngramCandidateCount: nat,
    linkedTraceCandidateCount: nat,
    suppressedTracePathCount: nat,
    filteredTracePathCount: int,
    truncatedTracePathCount: nat,
    crossProjectEngramCount: nat,
    crossProjectTracePathCount: nat,
    crossProjectProjectIds: seq<string>)

  datatype EngramContext = EngramContext(
    bundles: seq<Bundle>,
    usedEngramIds: seq<Uuid>,
    usedLinkIds: seq<Uuid>,
    tracePaths: seq<EngramTracePath>,
    warnings: seq<Warning>,
    audit: RetrievalAudit)

  // ----- seeds -----

  function HitIds(hits: seq<QueryHit>): (ids: seq<Uuid>)
    ensures |ids| == |hits| && forall i :: 0 <= i < |ids| ==> ids[i] == hits[i].engramId
  {
    if hits == [] then [] else HitIds(hits[..|hits| - 1]) + [hits[|hits| - 1].engramId]
  }

  function SeedIds(maxEngrams: nat, pinned: seq<Uuid>, retrieved: seq<QueryHit>): seq<Uuid> {
    var ordered := Deduped(pinned + HitIds(retrieved));
    ordered[..Min(maxEngrams, |ordered|)]
  }

  method SelectContextEngramIds(maxEngrams: nat, pinned: seq<Uuid>, retrieved: seq<QueryHit>) returns (ids: seq<Uuid>)
    ensures ids == SeedIds(maxEngrams, pinned, retrieved)
  {
    var candidates := pinned;
    for i := 0 to |retrieved|
      invariant candidates == pinned + HitIds(retrieved[..i])
    {
      assert retrieved[..i + 1][..i] == retrieved[..i];
      candidates := candidates + [retrieved[i].engramId];
    }
    assert retrieved[..|retrieved|] == retrieved;
    var ordered := DedupePreserveOrder(candidates);
    if |ordered| <= maxEngrams {
      return ordered;
    }
    return ordered[..maxEngrams];
  }

  /** Pinned ids before retrieved ones, either kind in the order of its first occurrences. */
  ghost predicate ComesBefore(pinned: seq<Uuid>, retrieved: seq<QueryHit>, x: Uuid, y: Uuid) {
    if x in pinned then y !in pinned || Precedes(pinned, x, y)
    else
      && y !in pinned
      && exists k :: 0 <= k < |retrieved| && retrieved[k].engramId == x
                     && forall m :: 0 <= m <= k ==> retrieved[m].engramId != y
  }

  /** The distinct ids that were pinned or retrieved. */
  ghost function Offers(pinned: seq<Uuid>, retrieved: seq<QueryHit>): set<Uuid> {
    (set id | id in pinned) + (set h | h in retrieved :: h.engramId)
  }

  lemma OffersAreElements(pinned: seq<Uuid>, retrieved: seq<QueryHit>)
    ensures Offers(pinned, retrieved) == Elements(pinned + HitIds(retrieved))
  {
    var hits := HitIds(retrieved);
    forall id: Uuid
      ensures id in hits <==> exists h :: h in retrieved && h.engramId == id
    {
      if id in hits {
        var k :| 0 <= k < |hits| && hits[k] == id;
        assert retrieved[k] in retrieved;
      }
      if h :| h in retrieved && h.engramId == id {
        var k :| 0 <= k < |retrieved| && retrieved[k] == h;
        assert hits[k] == id;
      }
    }
  }

  lemma FirstOccurrencesComeFirst(pinned: seq<Uuid>, retrieved: seq<QueryHit>, x: Uuid, y: Uuid)
    requires Precedes(pinned + HitIds(retrieved), x, y)
    ensures ComesBefore(pinned, retrieved, x, y)
  {
    var hits := HitIds(retrieved);
    PrecedesInParts(pinned, hits, x, y);
    if x !in pinned {
      var k :| 0 <= k < |hits| && hits[k] == x && y !in hits[..k + 1];
      assert forall m :: 0 <= m <= k ==> hits[..k + 1][m] == retrieved[m].engramId;
    }
  }

  /** Seeds are as many of the ids on offer as the limit admits; each comes before later seeds and before all others. */
  lemma SeedsAreFirstOffers(maxEngrams: nat, pinned: seq<Uuid>, retrieved: seq<QueryHit>)
    ensures var seeds, offers := SeedIds(maxEngrams, pinned, retrieved), Offers(pinned, retrieved);
            && |seeds| == Min(maxEngrams, |offers|) && (forall id :: id in seeds ==> id in offers)
            && (forall i, j :: 0 <= i < j < |seeds| ==> ComesBefore(pinned, retrieved, seeds[i], seeds[j]))
            && (forall i, id :: 0 <= i < |seeds| && id in offers && id !in seeds ==>
                  ComesBefore(pinned, retrieved, seeds[i], id))
  {
    var all := pinned + HitIds(retrieved);
    var ordered, seeds := Deduped(all), SeedIds(maxEngrams, pinned, retrieved);
    OffersAreElements(pinned, retrieved);
    DedupedProperties(all);
    DedupedSize(all);
    DedupedKeepsOrder(all);
    forall i, j | 0 <= i < |seeds| && i < j < |ordered|
      ensures ComesBefore(pinned, retrieved, ordered[i], ordered[j])
    {
      FirstOccurrencesComeFirst(pinned, retrieved, ordered[i], ordered[j]);
    }
    forall i, id | 0 <= i < |seeds| && id in Offers(pinned, retrieved) && id !in seeds
      ensures ComesBefore(pinned, retrieved, seeds[i], id)
    {
      assert forall k :: 0 <= k < |seeds| ==> ordered[k] == seeds[k] && ordered[k] in seeds;
      var j :| 0 <= j < |ordered| && ordered[j] == id;
    }
  }

  /** A retrieved engram is taken as a seed only when every pinned one is, and behind them all. */
  lemma PinnedSeedsComeFirst(maxEngrams: nat, pinned: seq<Uuid>, retrieved: seq<QueryHit>, i: nat)
    requires i < |SeedIds(maxEngrams, pinned, retrieved)| && SeedIds(maxEngrams, pinned, retrieved)[i] !in pinned
    ensures var seeds := SeedIds(maxEngrams, pinned, retrieved);
            forall id :: id in pinned ==> id in seeds[..i]
  {
    var seeds := SeedIds(maxEngrams, pinned, retrieved);
    SeedsAreFirstOffers(maxEngrams, pinned, retrieved);
    forall id | id in pinned
      ensures id in seeds[..i]
    {
      assert id in Offers(pinned, retrieved);
      assert !ComesBefore(pinned, retrieved, seeds[i], id);
      var j :| 0 <= j < |seeds| && seeds[j] == id;
      assert j < i;
      assert seeds[..i][j] == id;
    }
  }

  // ----- candidates -----

  ghost function CandidatesOf(scoring: Scoring, request: EngramRequest, deps: EngramDependencies)
    : Result<CandidateSelection>
    requires request.recall.maxEngrams >= 0
  {
    match deps.pinned
    case Err(error) => Err(error)
    case Ok(pinned) =>
      match deps.retrieved
      case Err(error) => Err(error)
      case Ok(retrieved) =>
        var seeds := SeedIds(request.recall.maxEngrams, pinned, retrieved);
        var seedScores := SeedRelevance(pinned, retrieved);
        match LinkSelectionFor(scoring, request.recall, deps.traverse, seeds, seedScores)
        case Err(error) => Err(error)
        case Ok(links) =>
          Ok(CandidateSelection(seeds, Ranked(seeds, links.linkedIds, seedScores, links.tracePaths,
                                              request.recall.maxEngrams), links))
  }

  method SelectEngramCandidates(scoring: Scoring, request: EngramRequest, deps: EngramDependencies)
    returns (r: Result<CandidateSelection>)
    requires request.recall.maxEngrams >= 0
    ensures r == CandidatesOf(scoring, request, deps)
  {
    if deps.pinned.Err? {
      return Err(deps.pinned.error);
    }
    if deps.retrieved.Err? {
      return Err(deps.retrieved.error);
    }
    var pinned, retrieved := deps.pinned.value, deps.retrieved.value;
    var seeds := SelectContextEngramIds(request.recall.maxEngrams, pinned, retrieved);
    var seedScores := BuildSeedRelevanceScores(pinned, retrieved);
    var selection := SelectLinkedEngramContext(scoring, request.recall, deps.traverse, seeds, seedScores);
    match selection {
      case Err(error) => return Err(error);
      case Ok(links) =>
        var ranked := RankEngramContextCandidates(seeds, links.linkedIds, seedScores, links.tracePaths,
                                                  request.recall.maxEngrams);
        return Ok(CandidateSelection(seeds, ranked, links));
    }
  }

  /** Seeds are distinct; linked targets are distinct non-seeds reached by genuine walks from seeds. */
  ghost predicate SoundLinks(seeds: seq<Uuid>, links: LinkedSelection, recall: RecallRequest,
                             traverse: Option<Traversal>) {
    && links.linkedIds == Targets(links.tracePaths)
    && DistinctTargets(links.tracePaths) && SortedBy(CompareTracePath, links.tracePaths)
    && (links.tracePaths != [] ==> ShouldSelectLinkedContext(recall, traverse, seeds))
    && forall p :: p in links.tracePaths ==>
         SoundPath(p, seeds, traverse.value, recall.linkRecallDepth.value, recall.linkRecallMaxNeighbors.value)
  }

  ghost predicate SoundPath(p: EngramTracePath, seeds: seq<Uuid>, traverse: Traversal, depth: int, neighbors: int) {
    && p.rootEngramId in seeds && p.targetEngramId !in seeds
    && traverse(p.rootEngramId, depth, neighbors).Ok?
    && GenuinePath(p, traverse(p.rootEngramId, depth, neighbors).value)
  }

  lemma LinkSelectionIsSound(scoring: Scoring, recall: RecallRequest, traverse: Option<Traversal>, seeds: seq<Uuid>,
                             seedScores: map<Uuid, real>)
    requires LinkSelectionFor(scoring, recall, traverse, seeds, seedScores).Ok?
    ensures SoundLinks(seeds, LinkSelectionFor(scoring, recall, traverse, seeds, seedScores).value, recall, traverse)
  {
    if ShouldSelectLinkedContext(recall, traverse, seeds) {
      var depth, neighbors := recall.linkRecallDepth.value, recall.linkRecallMaxNeighbors.value;
      var paths := TraversedPaths(scoring, traverse.value, depth, neighbors, seeds, seedScores).value;
      SelectionCounts(recall, seeds, paths);
      SelectedAreMerged(recall, seeds, paths);
      TraversedPathsAreGenuine(scoring, traverse.value, depth, neighbors, seeds, seedScores);
    }
  }

  // ----- packing -----

  /** The packing once the candidates of `ids` have been visited, or the first access error. */
  function PackAfter(ids: seq<Uuid>, rehydrate: Rehydration, limit: nat): Result<Packing> {
    if ids == [] then Ok(Packing([], 0, 0))
    else
      var n := |ids| - 1;
      match PackAfter(ids[..n], rehydrate, limit)
      case Err(error) => Err(error)
      case Ok(p) =>
        if |p.bundles| >= limit then Ok(p)
        else
          match rehydrate(ids[n])
          case Err(error) => Err(error)
          case Ok(None) => Ok(p.(blocked := p.blocked + 1, visited := p.visited + 1))
          case Ok(Some(bundle)) => Ok(p.(bundles := p.bundles + [bundle], visited := p.visited + 1))
  }

  /** A full packing, and a failed one, stay as they are. */
  lemma {:induction false} PackingSettles(ids: seq<Uuid>, rehydrate: Rehydration, limit: nat, i: nat)
    requires i <= |ids|
    requires var p := PackAfter(ids[..i], rehydrate, limit); p.Err? || |p.value.bundles| >= limit
    ensures PackAfter(ids, rehydrate, limit) == PackAfter(ids[..i], rehydrate, limit)
  {
    if i == |ids| {
      assert ids[..i] == ids;
    } else {
      var front := ids[..|ids| - 1];
      assert front[..i] == ids[..i];
      PackingSettles(front, rehydrate, limit, i);
    }
  }

  method CollectRehydrationBundles(engramIds: seq<Uuid>, rehydrate: Rehydration, limit: int)
    returns (r: Result<Packing>)
    ensures r == PackAfter(Deduped(engramIds), rehydrate, Max(limit, 0))
  {
    if limit <= 0 {
      PackingSettles(Deduped(engramIds), rehydrate, 0, 0);
      return Ok(Packing([], 0, 0));
    }
    var ids := DedupePreserveOrder(engramIds);
    var bundles: seq<Bundle>, blocked: nat, visited: nat := [], 0, 0;
    for i := 0 to |ids|
      invariant PackAfter(ids[..i], rehydrate, limit) == Ok(Packing(bundles, blocked, visited))
    {
      assert ids[..i + 1][..i] == ids[..i];
      if |bundles| >= limit {
        PackingSettles(ids, rehydrate, limit, i);
        return Ok(Packing(bundles, blocked, visited));
      }
      visited := visited + 1;
      match rehydrate(ids[i]) {
        case Err(error) =>
          PackingSettles(ids, rehydrate, limit, i + 1);
          return Err(error);
        case Ok(None) => blocked := blocked + 1;
        case Ok(Some(bundle)) => bundles := bundles + [bundle];
      }
    }
    assert ids[..|ids|] == ids;
    return Ok(Packing(bundles, blocked, visited));
  }

  predicate Accessible(rehydrate: Rehydration, id: Uuid) {
    rehydrate(id).Ok? && rehydrate(id).value.Some?
  }

  ghost function AccessibleIds(ids: seq<Uuid>, rehydrate: Rehydration): seq<Uuid> {
    if ids == [] then []
    else
      var n := |ids| - 1;
      AccessibleIds(ids[..n], rehydrate) + if Accessible(rehydrate, ids[n]) then [ids[n]] else []
  }

  ghost predicate FaithfulAccess(rehydrate: Rehydration) {
    forall id :: Accessible(rehydrate, id) ==> rehydrate(id).value.value.engramId == id
  }

  function BundleIds(bundles: seq<Bundle>): (ids: seq<Uuid>)
    ensures |ids| == |bundles| && forall i :: 0 <= i < |bundles| ==> ids[i] == bundles[i].engramId
  {
    if bundles == [] then [] else BundleIds(bundles[..|bundles| - 1]) + [bundles[|bundles| - 1].engramId]
  }

  /** Packed bundles are what the first accessible candidates rehydrate to, in order. */
  lemma {:induction false} PackedAreRehydrated(ids: seq<Uuid>, rehydrate: Rehydration, limit: nat)
    requires PackAfter(ids, rehydrate, limit).Ok?
    ensures var bundles, all := PackAfter(ids, rehydrate, limit).value.bundles, AccessibleIds(ids, rehydrate);
            && |bundles| == Min(limit, |all|)
            && forall k :: 0 <= k < |bundles| ==>
                 Accessible(rehydrate, all[k]) && bundles[k] == rehydrate(all[k]).value.value
  {
    if ids != [] {
      PackedAreRehydrated(ids[..|ids| - 1], rehydrate, limit);
    }
  }

  /**
   * Every visited candidate is packed or blocked, the packed ones are the accessible ones among them, and visiting goes
   * on to the end or to the candidate that reaches the limit.
   */
  lemma {:induction false} PackingCounts(ids: seq<Uuid>, rehydrate: Rehydration, limit: nat)
    requires PackAfter(ids, rehydrate, limit).Ok?
    ensures var p := PackAfter(ids, rehydrate, limit).value;
            && p.visited == |p.bundles| + p.blocked && p.visited <= |ids|
            && |AccessibleIds(ids[..p.visited], rehydrate)| == |p.bundles| <= limit
            && (|p.bundles| < limit ==> p.visited == |ids|)
            && (p.visited > 0 && |p.bundles| == limit ==> Accessible(rehydrate, ids[p.visited - 1]))
  {
    if ids == [] {
      assert AccessibleIds(ids, rehydrate) == [];
    } else {
      var n := |ids| - 1;
      var before, p := PackAfter(ids[..n], rehydrate, limit).value, PackAfter(ids, rehydrate, limit).value;
      PackingCounts(ids[..n], rehydrate, limit);
      assert ids[..n][..before.visited] == ids[..before.visited];
      if |before.bundles| < limit {
        assert ids[..n + 1] == ids && ids[..n][..n] == ids[..n];
      }
    }
  }

  /** Packed bundles are those of the first accessible candidates; every visited candidate is packed or blocked. */
  lemma PackingIsFirstAccessible(ids: seq<Uuid>, rehydrate: Rehydration, limit: nat)
    requires FaithfulAccess(rehydrate) && PackAfter(ids, rehydrate, limit).Ok?
    ensures var p, all := PackAfter(ids, rehydrate, limit).value, AccessibleIds(ids, rehydrate);
            && BundleIds(p.bundles) == all[..Min(limit, |all|)]
            && p.visited == |p.bundles| + p.blocked && p.visited <= |ids|
            && |AccessibleIds(ids[..p.visited], rehydrate)| == |p.bundles|
            && (|p.bundles| < limit ==> p.visited == |ids|)
            && (p.visited > 0 && |p.bundles| == limit ==> Accessible(rehydrate, ids[p.visited - 1]))
  {
    PackedAreRehydrated(ids, rehydrate, limit);
    PackingCounts(ids, rehydrate, limit);
  }

  /** The candidate at `i` cannot be read, and its turn comes before the limit is reached. */
  ghost predicate FailsAt(ids: seq<Uuid>, rehydrate: Rehydration, limit: nat, i: nat) {
    i < |ids| && rehydrate(ids[i]).Err? && |AccessibleIds(ids[..i], rehydrate)| < limit
  }

  lemma FailsAtFront(ids: seq<Uuid>, rehydrate: Rehydration, limit: nat)
    requires ids != []
    ensures forall i: nat :: i < |ids| - 1 ==>
              (FailsAt(ids[..|ids| - 1], rehydrate, limit, i) <==> FailsAt(ids, rehydrate, limit, i))
  {
    forall i: nat | i < |ids| - 1
      ensures FailsAt(ids[..|ids| - 1], rehydrate, limit, i) <==> FailsAt(ids, rehydrate, limit, i)
    {
      assert ids[..|ids| - 1][..i] == ids[..i];
    }
  }

  /** Packing fails exactly when a candidate whose turn comes before the limit is reached cannot be read. */
  lemma {:induction false} PackingFailsIff(ids: seq<Uuid>, rehydrate: Rehydration, limit: nat)
    requires FaithfulAccess(rehydrate)
    ensures PackAfter(ids, rehydrate, limit).Err? <==> exists i: nat :: FailsAt(ids, rehydrate, limit, i)
  {
    if ids != [] {
      var n := |ids| - 1;
      PackingFailsIff(ids[..n], rehydrate, limit);
      FailsAtFront(ids, rehydrate, limit);
      if PackAfter(ids[..n], rehydrate, limit).Ok? {
        PackingIsFirstAccessible(ids[..n], rehydrate, limit);
        assert PackAfter(ids, rehydrate, limit).Err? <==> FailsAt(ids, rehydrate, limit, n);
        assert forall i: nat :: FailsAt(ids, rehydrate, limit, i) ==> i == n;
      } else {
        var i: nat :| FailsAt(ids[..n], rehydrate, limit, i);
        assert FailsAt(ids, rehydrate, limit, i);
      }
    }
  }

  /** Packing fails with the error of the first candidate that cannot be read and whose turn comes. */
  lemma FirstFailingCandidate(ids: seq<Uuid>, rehydrate: Rehydration, limit: nat, i: nat)
    requires FaithfulAccess(rehydrate) && FailsAt(ids, rehydrate, limit, i)
    requires forall k: nat :: k < i ==> !FailsAt(ids, rehydrate, limit, k)
    ensures PackAfter(ids, rehydrate, limit) == Err(rehydrate(ids[i]).error)
  {
    var front, upTo := ids[..i], ids[..i + 1];
    assert upTo[..i] == front;
    PackingFailsIff(front, rehydrate, limit);
    forall k: nat
      ensures !FailsAt(front, rehydrate, limit, k)
    {
      if k < i {
        assert front[..k] == ids[..k];
        assert !FailsAt(ids, rehydrate, limit, k);
      }
    }
    PackingIsFirstAccessible(front, rehydrate, limit);
    assert PackAfter(upTo, rehydrate, limit) == Err(rehydrate(ids[i]).error);
    PackingSettles(ids, rehydrate, limit, i + 1);
  }

  lemma {:induction false} AccessibleIdsDistinct(ids: seq<Uuid>, rehydrate: Rehydration)
    requires Distinct(ids)
    ensures Distinct(AccessibleIds(ids, rehydrate))
    ensures forall id :: id in AccessibleIds(ids, rehydrate) <==> id in ids && Accessible(rehydrate, id)
  {
    if ids != [] {
      var n := |ids| - 1;
      AccessibleIdsDistinct(ids[..n], rehydrate);
      assert ids == ids[..n] + [ids[n]];
      assert ids[n] !in ids[..n];
    }
  }

  lemma {:induction false} AccessiblePosition(ids: seq<Uuid>, rehydrate: Rehydration, i: nat) returns (k: nat)
    requires i < |ids| && Accessible(rehydrate, ids[i])
    ensures k <= i && k < |AccessibleIds(ids, rehydrate)| <= |ids| && AccessibleIds(ids, rehydrate)[k] == ids[i]
  {
    var n := |ids| - 1;
    AccessibleCount(ids[..n], rehydrate);
    if i < n {
      k := AccessiblePosition(ids[..n], rehydrate, i);
    } else {
      k := |AccessibleIds(ids[..n], rehydrate)|;
    }
  }

  lemma {:induction false} AccessibleCount(ids: seq<Uuid>, rehydrate: Rehydration)
    ensures |AccessibleIds(ids, rehydrate)| <= |ids|
  {
    if ids != [] {
      AccessibleCount(ids[..|ids| - 1], rehydrate);
    }
  }

  /** An accessible candidate ranked within the limit is always packed. */
  lemma EarlyAccessibleIsPacked(ids: seq<Uuid>, rehydrate: Rehydration, limit: nat, i: nat)
    requires FaithfulAccess(rehydrate) && PackAfter(ids, rehydrate, limit).Ok?
    requires i < |ids| && i < limit && Accessible(rehydrate, ids[i])
    ensures ids[i] in BundleIds(PackAfter(ids, rehydrate, limit).value.bundles)
  {
    PackingIsFirstAccessible(ids, rehydrate, limit);
    var k := AccessiblePosition(ids, rehydrate, i);
    assert BundleIds(PackAfter(ids, rehydrate, limit).value.bundles)[k] == ids[i];
  }

  // ----- cross-project usage -----

  predicate IsCrossProject(projectId: string, sessionProjectId: string) {
    projectId != "" && projectId != sessionProjectId
  }

  /** Ids of the bundles from foreign projects, in bundle order. */
  ghost function ForeignIds(bundles: seq<Bundle>, session: string): seq<Uuid> {
    if bundles == [] then []
    else
      var last := bundles[|bundles| - 1];
      ForeignIds(bundles[..|bundles| - 1], session)
      + if IsCrossProject(last.projectId, session) then [last.engramId] else []
  }

  ghost function ForeignProjects(bundles: seq<Bundle>, session: string): set<string> {
    set b | b in bundles && IsCrossProject(b.projectId, session) :: b.projectId
  }

  function ProjectOf(bundles: seq<Bundle>): map<Uuid, string> {
    if bundles == [] then map[]
    else ProjectOf(bundles[..|bundles| - 1])[bundles[|bundles| - 1].engramId := bundles[|bundles| - 1].projectId]
  }

  predicate PathIsForeign(path: EngramTracePath, projects: map<Uuid, string>, session: string) {
    path.targetEngramId in projects && IsCrossProject(projects[path.targetEngramId], session)
  }

  /** Targets of the paths that lead into foreign projects, in path order. */
  ghost function ForeignTargets(paths: seq<EngramTracePath>, projects: map<Uuid, string>, session: string): seq<Uuid> {
    if paths == [] then []
    else
      var last := paths[|paths| - 1];
      ForeignTargets(paths[..|paths| - 1], projects, session)
      + if PathIsForeign(last, projects, session) then [last.targetEngramId] else []
  }

  lemma NextBundle(session: string, bundles: seq<Bundle>, i: nat)
    requires i < |bundles|
    ensures var before, after, b := bundles[..i], bundles[..i + 1], bundles[i];
            && ProjectOf(after) == ProjectOf(before)[b.engramId := b.projectId]
            && (if IsCrossProject(b.projectId, session)
                then |ForeignIds(after, session)| == |ForeignIds(before, session)| + 1
                     && ForeignProjects(after, session) == ForeignProjects(before, session) + {b.projectId}
                else |ForeignIds(after, session)| == |ForeignIds(before, session)|
                     && ForeignProjects(after, session) == ForeignProjects(before, session))
  {
    var before, after := bundles[..i], bundles[..i + 1];
    assert after[..i] == before && after == before + [bundles[i]];
    assert forall b :: b in after <==> b in before || b == bundles[i];
  }

  method SummarizeCrossProjectBundles(session: string, bundles: seq<Bundle>)
    returns (projects: map<Uuid, string>, count: nat, foreign: set<string>)
    ensures projects == ProjectOf(bundles) && count == |ForeignIds(bundles, session)|
    ensures foreign == ForeignProjects(bundles, session)
  {
    projects, count, foreign := map[], 0, {};
    for i := 0 to |bundles|
      invariant projects == ProjectOf(bundles[..i]) && count == |ForeignIds(bundles[..i], session)|
      invariant foreign == ForeignProjects(bundles[..i], session)
    {
      NextBundle(session, bundles, i);
      projects := projects[bundles[i].engramId := bundles[i].projectId];
      if !IsCrossProject(bundles[i].projectId, session) {
        continue;
      }
      count := count + 1;
      foreign := foreign + {bundles[i].projectId};
    }
    assert bundles[..|bundles|] == bundles;
  }

  method CountCrossProjectTracePaths(session: string, paths: seq<EngramTracePath>, projects: map<Uuid, string>)
    returns (count: nat)
    ensures count == |ForeignTargets(paths, projects, session)|
  {
    count := 0;
    for i := 0 to |paths|
      invariant count == |ForeignTargets(paths[..i], projects, session)|
    {
      assert paths[..i + 1][..i] == paths[..i];
      if PathIsForeign(paths[i], projects, session) {
        count := count + 1;
      }
    }
    assert paths[..|paths|] == paths;
  }

  ghost predicate StrictlySorted(texts: seq<string>) {
    forall i, j :: 0 <= i < j < |texts| ==> CompareText(texts[i], texts[j]) < 0
  }

  lemma TextOrder()
    ensures TotalPreorder(CompareText)
  {
    forall a, b
      ensures CompareText(a, b) < 0 <==> CompareText(b, a) > 0
    {
      CompareTextAntisymmetric(a, b);
    }
    forall a, b, c | CompareText(a, b) <= 0 && CompareText(b, c) <= 0
      ensures CompareText(a, c) <= 0
    {
      CompareTextTransitive(a, b, c);
    }
  }

  /** Whatever order the set is walked in, the result is its one strictly sorted list. */
  method SortedProjectIds(projects: set<string>) returns (ids: seq<string>)
    ensures ids == StableSort(CompareText, Enumeration(projects))
    ensures StrictlySorted(ids) && forall p :: p in ids <==> p in projects
  {
    var found: seq<string> := [];
    var remaining := projects;
    while remaining != {}
      invariant remaining <= projects && Distinct(found)
      invariant forall p :: p in found <==> p in projects && p !in remaining
      decreases remaining
    {
      var id :| id in remaining;
      found := found + [id];
      remaining := remaining - {id};
    }
    ids := StableSort(CompareText, found);
    TextSortUnique(found, Enumeration(projects));
    TextSortStrict(found);
  }

  lemma TextSortStrict(texts: seq<string>)
    requires Distinct(texts)
    ensures var s := StableSort(CompareText, texts);
            StrictlySorted(s) && forall p :: p in s <==> p in texts
  {
    var s := StableSort(CompareText, texts);
    TextOrder();
    SortSorts(CompareText, texts);
    SortPermutes(CompareText, texts);
    DistinctPermutes(texts, s);
    forall i, j | 0 <= i < j < |s|
      ensures CompareText(s[i], s[j]) < 0
    {
      CompareTextAntisymmetric(s[i], s[j]);
    }
  }

  lemma TextSortUnique(a: seq<string>, b: seq<string>)
    requires Distinct(a) && Distinct(b) && forall p :: p in a <==> p in b
    ensures StableSort(CompareText, a) == StableSort(CompareText, b)
  {
    TextOrder();
    SortSorts(CompareText, a);
    SortSorts(CompareText, b);
    SortPermutes(CompareText, a);
    SortPermutes(CompareText, b);
    DistinctSameElements(a, b);
    var s := StableSort(CompareText, a);
    forall x, y | x in s && y in s && CompareText(x, y) <= 0 && CompareText(y, x) <= 0
      ensures x == y
    {
      CompareTextAntisymmetric(x, y);
    }
    SortedPermutationUnique(CompareText, s, StableSort(CompareText, b));
  }

  // ----- audit and assembly -----

  ghost function AuditFor(session: string, selection: CandidateSelection, packing: Packing,
                          tracePaths: seq<EngramTracePath>): RetrievalAudit
  {
    RetrievalAudit(
      |selection.ranked|,
      |packing.bundles|,
      packing.blocked,
      |selection.links.tracePaths|,
      selection.links.suppressedTraceCount,
      Max(|selection.links.tracePaths| - |tracePaths|, 0),
      selection.links.truncatedTracePathCount,
      |ForeignIds(packing.bundles, session)|,
      |ForeignTargets(tracePaths, ProjectOf(packing.bundles), session)|,
      StableSort(CompareText, Enumeration(ForeignProjects(packing.bundles, session))))
  }

  method BuildEngramRetrievalAudit(session: string, selection: CandidateSelection, packing: Packing,
                                   tracePaths: seq<EngramTracePath>)
    returns (audit: RetrievalAudit)
    ensures audit == AuditFor(session, selection, packing, tracePaths)
  {
    var projects, engramCount, foreign := SummarizeCrossProjectBundles(session, packing.bundles);
    var pathCount := CountCrossProjectTracePaths(session, tracePaths, projects);
    var projectIds := SortedProjectIds(foreign);
    audit := RetrievalAudit(
      |selection.ranked|,
      |packing.bundles|,
      packing.blocked,
      |selection.links.tracePaths|,
      selection.links.suppressedTraceCount,
      Max(|selection.links.tracePaths| - |tracePaths|, 0),
      selection.links.truncatedTracePathCount,
      engramCount,
      pathCount,
      projectIds);
  }

  ghost function SurvivingPaths(selection: CandidateSelection, packing: Packing): seq<EngramTracePath> {
    StableSort(CompareTracePath, PathsTo(selection.links.tracePaths, BundleIds(packing.bundles)))
  }

  ghost function ContextFrom(session: string, selection: CandidateSelection, packing: Packing): EngramContext {
    var paths := SurvivingPaths(selection, packing);
    EngramContext(packing.bundles, BundleIds(packing.bundles), Deduped(AllLinkIds(paths)), paths, WarningsFor(paths),
                  AuditFor(session, selection, packing, paths))
  }

  ghost function ContextOf(scoring: Scoring, request: EngramRequest, deps: EngramDependencies): Result<EngramContext>
    requires request.recall.maxEngrams >= 0
  {
    match CandidatesOf(scoring, request, deps)
    case Err(error) => Err(error)
    case Ok(selection) =>
      match PackAfter(Deduped(selection.ranked), deps.rehydrate, request.recall.maxEngrams)
      case Err(error) => Err(error)
      case Ok(packing) => Ok(ContextFrom(request.sessionProjectId, selection, packing))
  }

  method CollectBundleEngramIds(bundles: seq<Bundle>) returns (ids: seq<Uuid>)
    ensures ids == BundleIds(bundles)
  {
    ids := [];
    for i := 0 to |bundles|
      invariant ids == BundleIds(bundles[..i])
    {
      assert bundles[..i + 1][..i] == bundles[..i];
      ids := ids + [bundles[i].engramId];
    }
    assert bundles[..|bundles|] == bundles;
  }

  method AssembleEngramContext(scoring: Scoring, request: EngramRequest, deps: EngramDependencies)
    returns (r: Result<EngramContext>)
    requires request.recall.maxEngrams >= 0
    ensures r == ContextOf(scoring, request, deps)
  {
    var selected := SelectEngramCandidates(scoring, request, deps);
    if selected.Err? {
      return Err(selected.error);
    }
    var selection := selected.value;
    var packed := CollectRehydrationBundles(selection.ranked, deps.rehydrate, request.recall.maxEngrams);
    if packed.Err? {
      return Err(packed.error);
    }
    var packing := packed.value;
    var used := CollectBundleEngramIds(packing.bundles);
    var paths := FilterTracePathsForUsedEngrams(selection.links.tracePaths, used);
    var warnings := BuildContradictionWarnings(paths);
    var audit := BuildEngramRetrievalAudit(request.sessionProjectId, selection, packing, paths);
    var links := CollectUsedLinkIds(paths);
    return Ok(EngramContext(packing.bundles, used, links, paths, warnings, audit));
  }
}
