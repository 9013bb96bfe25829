/**
 * Linked-memory recall: the trace paths of all seed roots are merged into the best path per target,
 * noise is suppressed, and a bounded pool of the best targets is selected.
 */
module LinkRecall {
  import opened Results
  import opened Uuids
  import opened Ordering
  import opened LinkTemporal
  import opened TraceChains

  const MAX_CANDIDATE_POOL := 32
  const DEFAULT_NOISE_THRESHOLD := 0.30

  /** The recall options of a request; an absent option is a nil pointer. */
  datatype RecallRequest = RecallRequest(
    maxEngrams: int,
    linkRecallEnabled: Option<bool>,
    linkRecallDepth: Option<int>,
    linkRecallMaxNeighbors: Option<int>,
    noiseSuppressionEnabled: Option<bool>,
    noiseScoreThreshold: Option<real>)

  type Traversal = (Uuid, int, int) -> Result<seq<TraversalStep>>

  type Candidates = map<Uuid, EngramTracePath>

  datatype LinkedSelection = LinkedSelection(
    linkedIds: seq<Uuid>,
    tracePaths: seq<EngramTracePath>,
    suppressedTraceCount: nat,
    truncatedTracePathCount: nat)

  const NO_SELECTION := LinkedSelection([], [], 0, 0)

  function Max(a: int, b: int): int { if a < b then b else a }

  function Min(a: int, b: int): int { if a < b then a else b }

  function SeedScore(seedScores: map<Uuid, real>, id: Uuid): real {
    if id in seedScores then seedScores[id] else 0.0
  }

  // ----- one path -----

  function NoiseThreshold(request: RecallRequest): real {
    match request.noiseScoreThreshold
    case Some(value) => Clamp(value, 0.0, 1.0)
    case None => DEFAULT_NOISE_THRESHOLD
  }

  predicate SuppressedAsNoise(request: RecallRequest, path: EngramTracePath) {
    request.noiseSuppressionEnabled == Some(true) && path.score < NoiseThreshold(request)
  }

  predicate SkippedAsCandidate(path: EngramTracePath, request: RecallRequest, seeds: seq<Uuid>) {
    if path.targetEngramId in seeds then true else SuppressedAsNoise(request, path)
  }

  function PromoteCandidate(candidates: Candidates, path: EngramTracePath): Candidates {
    if path.targetEngramId in candidates && path.score <= candidates[path.targetEngramId].score then candidates
    else candidates[path.targetEngramId := path]
  }

  /** What becomes of a path: it is noise, or it hits a seed above the threshold, or it is offered for its target. */
  datatype Fate = Noise | SeedHit | Offered

  function FateOf(request: RecallRequest, seeds: seq<Uuid>, path: EngramTracePath): Fate {
    if SuppressedAsNoise(request, path) then Noise
    else if path.targetEngramId in seeds then SeedHit
    else Offered
  }

  function CountFate(request: RecallRequest, seeds: seq<Uuid>, paths: seq<EngramTracePath>, fate: Fate): nat {
    if paths == [] then 0
    else
      var n := |paths| - 1;
      CountFate(request, seeds, paths[..n], fate) + if FateOf(request, seeds, paths[n]) == fate then 1 else 0
  }

  // ----- merging -----

  /** The candidates once `paths` have been merged, in order, into `candidates`. */
  function MergedInto(candidates: Candidates, paths: seq<EngramTracePath>, request: RecallRequest, seeds: seq<Uuid>)
    : Candidates
  {
    if paths == [] then candidates
    else
      var n := |paths| - 1;
      var before := MergedInto(candidates, paths[..n], request, seeds);
      if SkippedAsCandidate(paths[n], request, seeds) then before else PromoteCandidate(before, paths[n])
  }

  /** Merging two lists one after the other is merging their concatenation. */
  lemma {:induction false} MergeAppends(candidates: Candidates, a: seq<EngramTracePath>, b: seq<EngramTracePath>,
                                        request: RecallRequest, seeds: seq<Uuid>)
    ensures MergedInto(MergedInto(candidates, a, request, seeds), b, request, seeds)
         == MergedInto(candidates, a + b, request, seeds)
    ensures CountFate(request, seeds, a + b, Noise)
         == CountFate(request, seeds, a, Noise) + CountFate(request, seeds, b, Noise)
  {
    if b == [] {
      assert a + b == a;
    } else {
      MergeAppends(candidates, a, b[..|b| - 1], request, seeds);
      assert (a + b)[..|a + b| - 1] == a + b[..|b| - 1];
    }
  }

  method MergeTracePathCandidates(candidates: Candidates, paths: seq<EngramTracePath>, request: RecallRequest,
                                  seeds: seq<Uuid>)
    returns (merged: Candidates, suppressed: nat)
    ensures merged == MergedInto(candidates, paths, request, seeds)
    ensures suppressed == CountFate(request, seeds, paths, Noise)
  {
    merged, suppressed := candidates, 0;
    for i := 0 to |paths|
      invariant merged == MergedInto(candidates, paths[..i], request, seeds)
      invariant suppressed == CountFate(request, seeds, paths[..i], Noise)
    {
      assert paths[..i + 1][..i] == paths[..i];
      if SkippedAsCandidate(paths[i], request, seeds) {
        if SuppressedAsNoise(request, paths[i]) {
          suppressed := suppressed + 1;
        }
      } else {
        merged := PromoteCandidate(merged, paths[i]);
      }
    }
    assert paths[..|paths|] == paths;
  }

  /** Every path has exactly one fate. */
  lemma {:induction false} FatesPartition(request: RecallRequest, seeds: seq<Uuid>, paths: seq<EngramTracePath>)
    ensures CountFate(request, seeds, paths, Noise) + CountFate(request, seeds, paths, SeedHit)
            + CountFate(request, seeds, paths, Offered) == |paths|
  {
    if paths != [] {
      FatesPartition(request, seeds, paths[..|paths| - 1]);
    }
  }

  /** `i` is the first of the best offers for its target. */
  ghost predicate FirstBest(request: RecallRequest, seeds: seq<Uuid>, paths: seq<EngramTracePath>, i: nat) {
    && i < |paths| && FateOf(request, seeds, paths[i]) == Offered
    && (forall k :: 0 <= k < |paths| && FateOf(request, seeds, paths[k]) == Offered
                    && paths[k].targetEngramId == paths[i].targetEngramId ==>
          paths[k].score <= paths[i].score && (k < i ==> paths[k].score < paths[i].score))
  }

  lemma FirstBestGrows(request: RecallRequest, seeds: seq<Uuid>, paths: seq<EngramTracePath>, i: nat)
    requires paths != [] && FirstBest(request, seeds, paths[..|paths| - 1], i)
    requires var last := paths[|paths| - 1];
             FateOf(request, seeds, last) == Offered && last.targetEngramId == paths[i].targetEngramId
             ==> last.score <= paths[i].score
    ensures FirstBest(request, seeds, paths, i)
  {
  }

  /** The merge keeps, for every target that was offered, the first of its best offers. */
  lemma {:induction false} MergeKeepsFirstBest(paths: seq<EngramTracePath>, request: RecallRequest, seeds: seq<Uuid>,
                                               id: Uuid)
    returns (i: nat)
    ensures var merged := MergedInto(map[], paths, request, seeds);
            if id in merged then FirstBest(request, seeds, paths, i) && merged[id] == paths[i]
                                 && paths[i].targetEngramId == id
            else forall k :: 0 <= k < |paths| && paths[k].targetEngramId == id ==>
                   FateOf(request, seeds, paths[k]) != Offered
  {
    i := 0;
    if paths != [] {
      var n, front := |paths| - 1, paths[..|paths| - 1];
      var before := MergedInto(map[], front, request, seeds);
      var last := paths[n];
      i := MergeKeepsFirstBest(front, request, seeds, id);
      if id in before {
        assert paths[i] == front[i];
        if FateOf(request, seeds, last) == Offered && last.targetEngramId == id && last.score > before[id].score {
          assert FirstBest(request, seeds, paths, n) by {
            forall k | 0 <= k < n && FateOf(request, seeds, paths[k]) == Offered && paths[k].targetEngramId == id
              ensures paths[k].score < last.score
            {
              assert front[k] == paths[k];
            }
          }
          i := n;
        } else {
          FirstBestGrows(request, seeds, paths, i);
        }
      } else if FateOf(request, seeds, last) == Offered && last.targetEngramId == id {
        assert forall k :: 0 <= k < n ==> front[k] == paths[k];
        i := n;
      } else {
        assert forall k :: 0 <= k < n ==> front[k] == paths[k];
      }
    }
  }

  // ----- which paths count -----

  /** `t` is the threshold in force: the one given, brought into [0, 1], or 0.30 when none is given. */
  ghost predicate ThresholdIs(request: RecallRequest, t: real) {
    if request.noiseScoreThreshold.None? then t == 0.30
    else
      var given := request.noiseScoreThreshold.value;
      if given < 0.0 then t == 0.0 else if given > 1.0 then t == 1.0 else t == given
  }

  /** Noise is not suppressed, or the path scores enough. */
  ghost predicate LoudEnough(request: RecallRequest, t: real, path: EngramTracePath) {
    request.noiseSuppressionEnabled != Some(true) || path.score >= t
  }

  ghost function CountBelow(paths: seq<EngramTracePath>, t: real): nat {
    if paths == [] then 0
    else CountBelow(paths[..|paths| - 1], t) + if paths[|paths| - 1].score < t then 1 else 0
  }

  lemma FateIs(request: RecallRequest, seeds: seq<Uuid>, path: EngramTracePath, t: real)
    requires ThresholdIs(request, t)
    ensures FateOf(request, seeds, path) == Offered <==> path.targetEngramId !in seeds && LoudEnough(request, t, path)
    ensures FateOf(request, seeds, path) == Noise <==> !LoudEnough(request, t, path)
  {
  }

  /**
   * A target has a candidate exactly when it is no seed and some path to it counts; the candidate is such a path, and
   * scores at least every other.
   */
  lemma MergedIffLoudEnough(paths: seq<EngramTracePath>, request: RecallRequest, seeds: seq<Uuid>, id: Uuid, t: real)
    requires ThresholdIs(request, t)
    ensures var merged := MergedInto(map[], paths, request, seeds);
            && (id in merged <==> id !in seeds
                                  && exists p :: p in paths && p.targetEngramId == id && LoudEnough(request, t, p))
            && (id in merged ==> merged[id] in paths && merged[id].targetEngramId == id
                                 && LoudEnough(request, t, merged[id])
                                 && forall p :: p in paths && p.targetEngramId == id && LoudEnough(request, t, p) ==>
                                      p.score <= merged[id].score)
  {
    var i := MergeKeepsFirstBest(paths, request, seeds, id);
    forall p | p in paths
      ensures FateOf(request, seeds, p) == Offered <==> p.targetEngramId !in seeds && LoudEnough(request, t, p)
      ensures exists k :: 0 <= k < |paths| && paths[k] == p
    {
      FateIs(request, seeds, p, t);
    }
  }

  /** What is counted as suppressed are the paths below the threshold, and nothing when suppression is off. */
  lemma {:induction false} SuppressedAreBelow(paths: seq<EngramTracePath>, request: RecallRequest, seeds: seq<Uuid>,
                                              t: real)
    requires ThresholdIs(request, t)
    ensures CountFate(request, seeds, paths, Noise)
         == if request.noiseSuppressionEnabled == Some(true) then CountBelow(paths, t) else 0
  {
    if paths != [] {
      SuppressedAreBelow(paths[..|paths| - 1], request, seeds, t);
      FateIs(request, seeds, paths[|paths| - 1], t);
    }
  }

  lemma MergedTargets(paths: seq<EngramTracePath>, request: RecallRequest, seeds: seq<Uuid>)
    ensures var merged := MergedInto(map[], paths, request, seeds);
            forall id :: id in merged ==> merged[id].targetEngramId == id && id !in seeds && merged[id] in paths
  {
    var merged := MergedInto(map[], paths, request, seeds);
    forall id | id in merged
      ensures merged[id].targetEngramId == id && id !in seeds && merged[id] in paths
    {
      var i := MergeKeepsFirstBest(paths, request, seeds, id);
    }
  }

  // ----- collecting over the roots -----

  /** The trace paths of all roots in root order, or the first traversal error. */
  ghost function TraversedPaths(scoring: Scoring, traverse: Traversal, depth: int, neighbors: int,
                                roots: seq<Uuid>, seedScores: map<Uuid, real>): Result<seq<EngramTracePath>>
  {
    if roots == [] then Ok([])
    else
      var n := |roots| - 1;
      match TraversedPaths(scoring, traverse, depth, neighbors, roots[..n], seedScores)
      case Err(error) => Err(error)
      case Ok(before) =>
        match traverse(roots[n], depth, neighbors)
        case Err(error) => Err(error)
        case Ok(steps) =>
          Ok(before + RootPaths(RootTrace(scoring, roots[n], SeedScore(seedScores, roots[n]),
                                          StableSort(CompareTraversalStep, steps))))
  }

  /** A failing root makes the whole collection fail with its error. */
  lemma {:induction false} TraversalErrorStays(scoring: Scoring, traverse: Traversal, depth: int, neighbors: int,
                                               roots: seq<Uuid>, seedScores: map<Uuid, real>, i: nat)
    requires i <= |roots|
    requires TraversedPaths(scoring, traverse, depth, neighbors, roots[..i], seedScores).Err?
    ensures TraversedPaths(scoring, traverse, depth, neighbors, roots, seedScores)
         == TraversedPaths(scoring, traverse, depth, neighbors, roots[..i], seedScores)
  {
    if i == |roots| {
      assert roots[..i] == roots;
    } else {
      var front := roots[..|roots| - 1];
      assert front[..i] == roots[..i];
      TraversalErrorStays(scoring, traverse, depth, neighbors, front, seedScores, i);
    }
  }

  method CollectLinkedTracePathCandidates(scoring: Scoring, request: RecallRequest, traverse: Traversal, depth: int,
                                          neighbors: int, seeds: seq<Uuid>, seedScores: map<Uuid, real>)
    returns (r: Result<(Candidates, nat)>)
    ensures var paths := TraversedPaths(scoring, traverse, depth, neighbors, seeds, seedScores);
            r == if paths.Err? then Err(paths.error)
                 else Ok((MergedInto(map[], paths.value, request, seeds), CountFate(request, seeds, paths.value, Noise)))
  {
    var candidates: Candidates := map[];
    var suppressed: nat := 0;
    ghost var seen: seq<EngramTracePath> := [];
    for i := 0 to |seeds|
      invariant TraversedPaths(scoring, traverse, depth, neighbors, seeds[..i], seedScores) == Ok(seen)
      invariant candidates == MergedInto(map[], seen, request, seeds)
      invariant suppressed == CountFate(request, seeds, seen, Noise)
    {
      assert seeds[..i + 1][..i] == seeds[..i];
      var root := seeds[i];
      match traverse(root, depth, neighbors) {
        case Err(error) =>
          TraversalErrorStays(scoring, traverse, depth, neighbors, seeds, seedScores, i + 1);
          return Err(error);
        case Ok(steps) =>
          var rootPaths := BuildTracePathsForRoot(scoring, root, steps, SeedScore(seedScores, root));
          MergeAppends(map[], seen, rootPaths, request, seeds);
          var more;
          candidates, more := MergeTracePathCandidates(candidates, rootPaths, request, seeds);
          suppressed := suppressed + more;
          seen := seen + rootPaths;
      }
    }
    assert seeds[..|seeds|] == seeds;
    return Ok((candidates, suppressed));
  }

  ghost predicate SomeRootFails(traverse: Traversal, depth: int, neighbors: int, roots: seq<Uuid>) {
    exists i :: 0 <= i < |roots| && traverse(roots[i], depth, neighbors).Err?
  }

  lemma LastRootFails(traverse: Traversal, depth: int, neighbors: int, roots: seq<Uuid>)
    requires roots != []
    ensures var n := |roots| - 1;
            SomeRootFails(traverse, depth, neighbors, roots)
            <==> SomeRootFails(traverse, depth, neighbors, roots[..n]) || traverse(roots[n], depth, neighbors).Err?
  {
    var n := |roots| - 1;
    assert forall i :: 0 <= i < n ==> roots[..n][i] == roots[i];
  }

  /** The collection fails exactly when the traversal of some root fails. */
  lemma {:induction false} TraversalFailsIff(scoring: Scoring, traverse: Traversal, depth: int, neighbors: int,
                                             roots: seq<Uuid>, seedScores: map<Uuid, real>)
    ensures TraversedPaths(scoring, traverse, depth, neighbors, roots, seedScores).Err?
       <==> SomeRootFails(traverse, depth, neighbors, roots)
  {
    if roots != [] {
      var n := |roots| - 1;
      TraversalFailsIff(scoring, traverse, depth, neighbors, roots[..n], seedScores);
      LastRootFails(traverse, depth, neighbors, roots);
    }
  }

  /** The collection fails with the error of the first root whose traversal fails. */
  lemma {:induction false} FirstFailingRoot(scoring: Scoring, traverse: Traversal, depth: int, neighbors: int,
                                            roots: seq<Uuid>, seedScores: map<Uuid, real>, i: nat)
    requires i < |roots| && traverse(roots[i], depth, neighbors).Err?
    requires forall k :: 0 <= k < i ==> traverse(roots[k], depth, neighbors).Ok?
    ensures TraversedPaths(scoring, traverse, depth, neighbors, roots, seedScores)
         == Err(traverse(roots[i], depth, neighbors).error)
  {
    var upTo := roots[..i + 1];
    assert upTo[..i] == roots[..i];
    TraversalFailsIff(scoring, traverse, depth, neighbors, roots[..i], seedScores);
    assert TraversedPaths(scoring, traverse, depth, neighbors, upTo, seedScores)
        == Err(traverse(roots[i], depth, neighbors).error);
    TraversalErrorStays(scoring, traverse, depth, neighbors, roots, seedScores, i + 1);
  }

  /** Every path collected is a genuine walk from one of the roots. */
  lemma {:induction false} TraversedPathsAreGenuine(scoring: Scoring, traverse: Traversal, depth: int, neighbors: int,
                                                    roots: seq<Uuid>, seedScores: map<Uuid, real>)
    requires TraversedPaths(scoring, traverse, depth, neighbors, roots, seedScores).Ok?
    ensures forall p :: p in TraversedPaths(scoring, traverse, depth, neighbors, roots, seedScores).value ==>
              p.rootEngramId in roots && traverse(p.rootEngramId, depth, neighbors).Ok?
              && GenuinePath(p, traverse(p.rootEngramId, depth, neighbors).value)
  {
    if roots != [] {
      var n := |roots| - 1;
      TraversedPathsAreGenuine(scoring, traverse, depth, neighbors, roots[..n], seedScores);
      var steps := traverse(roots[n], depth, neighbors).value;
      var t := RootTrace(scoring, roots[n], SeedScore(seedScores, roots[n]), StableSort(CompareTraversalStep, steps));
      RootPathsAreGenuine(t);
      SortPermutes(CompareTraversalStep, steps);
      forall p | p in RootPaths(t)
        ensures GenuinePath(p, steps)
      {
        GenuineOverPermutation(p, t.ordered, steps);
      }
    }
  }

  lemma GenuineOverPermutation(path: EngramTracePath, a: seq<TraversalStep>, b: seq<TraversalStep>)
    requires GenuinePath(path, a) && forall s :: s in a ==> s in b
    ensures GenuinePath(path, b)
  {
  }

  // ----- selecting -----

  /** The candidates, best first. */
  /** The trace of one of the roots over its traversal. */
  ghost function TraceFrom(scoring: Scoring, traverse: Traversal, depth: int, neighbors: int, root: Uuid,
                           seedScores: map<Uuid, real>): RootTrace
    requires traverse(root, depth, neighbors).Ok?
  {
    RootTrace(scoring, root, if root in seedScores then seedScores[root] else 0.0,
              StableSort(CompareTraversalStep, traverse(root, depth, neighbors).value))
  }

  /** The paths collected are the trace paths of the roots, each started with its seed's score: none is lost or added. */
  lemma {:induction false} TraversedPathsAreRootPaths(scoring: Scoring, traverse: Traversal, depth: int, neighbors: int,
                                                      roots: seq<Uuid>, seedScores: map<Uuid, real>, p: EngramTracePath)
    requires TraversedPaths(scoring, traverse, depth, neighbors, roots, seedScores).Ok?
    ensures p in TraversedPaths(scoring, traverse, depth, neighbors, roots, seedScores).value
       <==> && p.rootEngramId in roots && traverse(p.rootEngramId, depth, neighbors).Ok?
            && p in RootPaths(TraceFrom(scoring, traverse, depth, neighbors, p.rootEngramId, seedScores))
  {
    if roots != [] {
      var n := |roots| - 1;
      var before := TraversedPaths(scoring, traverse, depth, neighbors, roots[..n], seedScores);
      TraversedPathsAreRootPaths(scoring, traverse, depth, neighbors, roots[..n], seedScores, p);
      assert p.rootEngramId in roots <==> p.rootEngramId in roots[..n] || p.rootEngramId == roots[n];
      var own := RootPaths(TraceFrom(scoring, traverse, depth, neighbors, roots[n], seedScores));
      assert p in own ==> p.rootEngramId == roots[n] by {
        RootPathsAreGenuine(TraceFrom(scoring, traverse, depth, neighbors, roots[n], seedScores));
      }
      assert TraversedPaths(scoring, traverse, depth, neighbors, roots, seedScores).value == before.value + own;
    }
  }

  /** Every path collected scores what a walk of recorded steps from its root scores, started with the seed's score. */
  lemma TraversedPathScores(scoring: Scoring, traverse: Traversal, depth: int, neighbors: int, roots: seq<Uuid>,
                            seedScores: map<Uuid, real>, p: EngramTracePath) returns (via: seq<nat>)
    requires TraversedPaths(scoring, traverse, depth, neighbors, roots, seedScores).Ok?
    requires p in TraversedPaths(scoring, traverse, depth, neighbors, roots, seedScores).value
    ensures traverse(p.rootEngramId, depth, neighbors).Ok?
    ensures var t := TraceFrom(scoring, traverse, depth, neighbors, p.rootEngramId, seedScores);
            Walk(t, via, p.targetEngramId) && p.score == WalkChain(t, via).score
  {
    TraversedPathsAreRootPaths(scoring, traverse, depth, neighbors, roots, seedScores, p);
    var t := TraceFrom(scoring, traverse, depth, neighbors, p.rootEngramId, seedScores);
    RootPathsAreGenuine(t);
    via := ChainIsWalk(t, |t.ordered|, p.targetEngramId);
  }

  ghost function SortedCandidates(candidates: Candidates): seq<EngramTracePath> {
    StableSort(CompareTracePath, Enumeration(candidates.Values))
  }

  ghost predicate KeyedByTarget(candidates: Candidates) {
    forall id :: id in candidates ==> candidates[id].targetEngramId == id
  }

  lemma CandidateEnumeration(candidates: Candidates)
    requires KeyedByTarget(candidates)
    ensures DistinctTargets(Enumeration(candidates.Values)) && |candidates.Values| == |candidates|
  {
    var e := Enumeration(candidates.Values);
    forall i, j | 0 <= i < j < |e|
      ensures e[i].targetEngramId != e[j].targetEngramId
    {
      assert e[i] in candidates.Values && e[j] in candidates.Values;
    }
    KeyedSizes(candidates);
  }

  lemma {:induction false} KeyedSizes(candidates: Candidates)
    requires KeyedByTarget(candidates)
    ensures |candidates.Values| == |candidates.Keys|
    decreases candidates.Keys
  {
    if candidates.Keys == {} {
      assert candidates.Values == {};
    } else {
      var id :| id in candidates;
      var rest := candidates - {id};
      KeyedSizes(rest);
      assert rest.Keys == candidates.Keys - {id};
      assert candidates.Values == rest.Values + {candidates[id]} by {
        forall p | p in candidates.Values
          ensures p in rest.Values || p == candidates[id]
        {
          var k :| k in candidates && candidates[k] == p;
          assert k != id ==> rest[k] == p;
        }
      }
      assert candidates[id] !in rest.Values;
    }
  }

  /** Whatever order the map is walked in, the sorted candidates are the same. */
  method SortLinkedTraceCandidates(candidates: Candidates) returns (sorted: seq<EngramTracePath>)
    requires KeyedByTarget(candidates)
    ensures sorted == SortedCandidates(candidates)
  {
    var found: seq<EngramTracePath> := [];
    var remaining := candidates.Keys;
    while remaining != {}
      invariant remaining <= candidates.Keys
      invariant DistinctTargets(found)
      invariant forall p :: p in found <==> p in candidates.Values && p.targetEngramId !in remaining
      decreases remaining
    {
      var id :| id in remaining;
      found := found + [candidates[id]];
      remaining := remaining - {id};
    }
    CandidateEnumeration(candidates);
    PathSortUnique(found, Enumeration(candidates.Values));
    sorted := StableSort(CompareTracePath, found);
  }

  function LinkedContextBudget(seedCount: int, maxEngrams: int): int {
    if maxEngrams <= 1 then 0 else maxEngrams - Min(seedCount, maxEngrams - 1)
  }

  function LinkedCandidatePoolLimit(maxEngrams: int, seedCount: int): int {
    if maxEngrams <= 1 then 0
    else Min(Max(LinkedContextBudget(seedCount, maxEngrams) * 2, maxEngrams), MAX_CANDIDATE_POOL)
  }

  /** A request for two or more engrams always leaves room in the pool, and enough to fill the request up to 32. */
  lemma PoolLimitBounds(maxEngrams: int, seedCount: nat)
    requires maxEngrams > 1
    ensures 2 <= LinkedCandidatePoolLimit(maxEngrams, seedCount) <= MAX_CANDIDATE_POOL
    ensures LinkedCandidatePoolLimit(maxEngrams, seedCount) >= Min(maxEngrams, MAX_CANDIDATE_POOL)
    ensures 1 <= LinkedContextBudget(seedCount, maxEngrams) <= maxEngrams
  {
  }

  /** A request for a single engram leaves none. */
  lemma NoPoolForOne(maxEngrams: int, seedCount: nat)
    requires maxEngrams <= 1
    ensures LinkedCandidatePoolLimit(maxEngrams, seedCount) == LinkedContextBudget(seedCount, maxEngrams) == 0
  {
  }

  ghost function Targets(paths: seq<EngramTracePath>): (ids: seq<Uuid>)
    ensures |ids| == |paths| && forall i :: 0 <= i < |paths| ==> ids[i] == paths[i].targetEngramId
  {
    if paths == [] then [] else Targets(paths[..|paths| - 1]) + [paths[|paths| - 1].targetEngramId]
  }

  method SelectLinkedTraceCandidates(candidates: seq<EngramTracePath>, limit: nat)
    returns (ids: seq<Uuid>, paths: seq<EngramTracePath>, truncated: nat)
    ensures paths == candidates[..Min(limit, |candidates|)] && ids == Targets(paths)
    ensures |paths| + truncated == |candidates|
  {
    truncated := Max(|candidates| - limit, 0);
    ids, paths := [], [];
    for i := 0 to |candidates|
      invariant paths == candidates[..i] && i <= limit
      invariant ids == Targets(paths)
    {
      if |ids| >= limit {
        break;
      }
      assert (paths + [candidates[i]])[..|paths|] == paths;
      ids := ids + [candidates[i].targetEngramId];
      paths := paths + [candidates[i]];
    }
  }

  predicate ShouldSelectLinkedContext(request: RecallRequest, traverse: Option<Traversal>, seeds: seq<Uuid>) {
    && request.linkRecallEnabled == Some(true)
    && request.maxEngrams > 1 && seeds != []
    && request.linkRecallDepth.Some? && request.linkRecallMaxNeighbors.Some?
    && traverse.Some?
  }

  /** The top of the pool among merged candidates; nothing is reported, suppression included, when there are none. */
  ghost function PoolTop(request: RecallRequest, seedCount: nat, candidates: Candidates, suppressed: nat)
    : LinkedSelection
  {
    var sorted := SortedCandidates(candidates);
    if sorted == [] then NO_SELECTION
    else
      var size := Min(Max(LinkedCandidatePoolLimit(request.maxEngrams, seedCount), 0), |sorted|);
      LinkedSelection(Targets(sorted[..size]), sorted[..size], suppressed, |sorted| - size)
  }

  /** The selection made from the paths of all roots. */
  ghost function SelectionFrom(request: RecallRequest, seeds: seq<Uuid>, paths: seq<EngramTracePath>): LinkedSelection {
    PoolTop(request, |seeds|, MergedInto(map[], paths, request, seeds), CountFate(request, seeds, paths, Noise))
  }

  ghost function LinkSelectionFor(scoring: Scoring, request: RecallRequest, traverse: Option<Traversal>,
                                  seeds: seq<Uuid>, seedScores: map<Uuid, real>): Result<LinkedSelection>
  {
    if !ShouldSelectLinkedContext(request, traverse, seeds) then Ok(NO_SELECTION)
    else
      match TraversedPaths(scoring, traverse.value, request.linkRecallDepth.value,
                           request.linkRecallMaxNeighbors.value, seeds, seedScores)
      case Err(error) => Err(error)
      case Ok(paths) => Ok(SelectionFrom(request, seeds, paths))
  }

  /**
   * Links are recalled only when that is switched on, there is room for two engrams, some seed, a depth and a number of
   * neighbours, and something to traverse with; then from the traversals of all seeds, or the first error of one.
   */
  lemma LinkedWhenAsked(scoring: Scoring, request: RecallRequest, traverse: Option<Traversal>, seeds: seq<Uuid>,
                        seedScores: map<Uuid, real>)
    ensures var r := LinkSelectionFor(scoring, request, traverse, seeds, seedScores);
            if request.linkRecallEnabled == Some(true) && request.maxEngrams >= 2 && seeds != []
               && request.linkRecallDepth.Some? && request.linkRecallMaxNeighbors.Some? && traverse.Some?
            then
              var found := TraversedPaths(scoring, traverse.value, request.linkRecallDepth.value,
                                          request.linkRecallMaxNeighbors.value, seeds, seedScores);
              if found.Err? then r == Err(found.error) else r == Ok(SelectionFrom(request, seeds, found.value))
            else r == Ok(LinkedSelection([], [], 0, 0))
  {
  }

  /** Sorts the merged candidates and takes the top of the pool. */
  method SelectFromCandidates(request: RecallRequest, seedCount: nat, candidates: Candidates, suppressed: nat)
    returns (selection: LinkedSelection)
    requires request.maxEngrams > 1 && KeyedByTarget(candidates)
    ensures selection == PoolTop(request, seedCount, candidates, suppressed)
  {
    CandidateEnumeration(candidates);
    SortPermutes(CompareTracePath, Enumeration(candidates.Values));
    if |candidates| == 0 {
      return NO_SELECTION;
    }
    var sorted := SortLinkedTraceCandidates(candidates);
    PoolLimitBounds(request.maxEngrams, seedCount);
    var ids, selected, truncated :=
      SelectLinkedTraceCandidates(sorted, LinkedCandidatePoolLimit(request.maxEngrams, seedCount));
    selection := LinkedSelection(ids, selected, suppressed, truncated);
  }

  method SelectLinkedEngramContext(scoring: Scoring, request: RecallRequest, traverse: Option<Traversal>,
                                   seeds: seq<Uuid>, seedScores: map<Uuid, real>)
    returns (r: Result<LinkedSelection>)
    ensures r == LinkSelectionFor(scoring, request, traverse, seeds, seedScores)
  {
    if !ShouldSelectLinkedContext(request, traverse, seeds) {
      return Ok(NO_SELECTION);
    }
    var depth, neighbors := request.linkRecallDepth.value, request.linkRecallMaxNeighbors.value;
    ghost var traversed := TraversedPaths(scoring, traverse.value, depth, neighbors, seeds, seedScores);
    var collected := CollectLinkedTracePathCandidates(scoring, request, traverse.value, depth, neighbors, seeds,
                                                      seedScores);
    if collected.Err? {
      return Err(collected.error);
    }
    MergedTargets(traversed.value, request, seeds);
    var selection := SelectFromCandidates(request, |seeds|, collected.value.0, collected.value.1);
    return Ok(selection);
  }

  lemma MergedCandidatesSorted(request: RecallRequest, seeds: seq<Uuid>, paths: seq<EngramTracePath>)
    ensures var merged := MergedInto(map[], paths, request, seeds);
            var sorted := SortedCandidates(merged);
            && DistinctTargets(sorted) && SortedBy(CompareTracePath, sorted) && |sorted| == |merged|
            && (forall p :: p in sorted <==> p in merged.Values)
  {
    var merged := MergedInto(map[], paths, request, seeds);
    MergedTargets(paths, request, seeds);
    CandidateEnumeration(merged);
    PathSortProperties(Enumeration(merged.Values));
  }

  /** Selected paths are the merged candidates of their targets, and were offered. */
  lemma SelectedAreMerged(request: RecallRequest, seeds: seq<Uuid>, paths: seq<EngramTracePath>)
    ensures var merged, s := MergedInto(map[], paths, request, seeds), SelectionFrom(request, seeds, paths);
            forall p :: p in s.tracePaths ==>
              p.targetEngramId in merged && merged[p.targetEngramId] == p
              && p in paths && FateOf(request, seeds, p) == Offered && p.targetEngramId !in seeds
              && (request.noiseSuppressionEnabled == Some(true) ==> p.score >= NoiseThreshold(request))
  {
    var merged, s := MergedInto(map[], paths, request, seeds), SelectionFrom(request, seeds, paths);
    MergedCandidatesSorted(request, seeds, paths);
    forall p | p in s.tracePaths
      ensures p.targetEngramId in merged && merged[p.targetEngramId] == p
              && p in paths && FateOf(request, seeds, p) == Offered && p.targetEngramId !in seeds
              && (request.noiseSuppressionEnabled == Some(true) ==> p.score >= NoiseThreshold(request))
    {
      assert p in SortedCandidates(merged) && p in merged.Values;
      MergedTargets(paths, request, seeds);
      var i := MergeKeepsFirstBest(paths, request, seeds, p.targetEngramId);
    }
  }

  /** The size of the pool for two engrams or more: what is asked for, or twice the room the seeds leave, up to 32. */
  ghost function PoolSize(maxEngrams: int, seedCount: int): int {
    Min(32, Max(maxEngrams, 2 * (maxEngrams - seedCount)))
  }

  /** Targets are distinct, order is kept, and selected plus truncated are all the targets merged. */
  lemma SelectionCounts(request: RecallRequest, seeds: seq<Uuid>, paths: seq<EngramTracePath>)
    ensures var merged, s := MergedInto(map[], paths, request, seeds), SelectionFrom(request, seeds, paths);
            && s.linkedIds == Targets(s.tracePaths) && DistinctTargets(s.tracePaths)
            && SortedBy(CompareTracePath, s.tracePaths)
            && |s.tracePaths| + s.truncatedTracePathCount == |merged|
  {
    MergedCandidatesSorted(request, seeds, paths);
  }

  /** As many paths are selected as the pool holds, when there are as many candidates. */
  lemma SelectionFillsPool(request: RecallRequest, seeds: seq<Uuid>, paths: seq<EngramTracePath>)
    requires request.maxEngrams >= 2
    ensures |SelectionFrom(request, seeds, paths).tracePaths|
         == Min(PoolSize(request.maxEngrams, |seeds|), |MergedInto(map[], paths, request, seeds)|)
  {
    MergedCandidatesSorted(request, seeds, paths);
  }

  /** The pool is the top of the merged candidates: a selected path is strictly ahead of every unselected one. */
  lemma SelectionIsTopOfMerge(request: RecallRequest, seeds: seq<Uuid>, paths: seq<EngramTracePath>)
    ensures var merged, s := MergedInto(map[], paths, request, seeds), SelectionFrom(request, seeds, paths);
            forall p, id :: p in s.tracePaths && id in merged && id !in s.linkedIds ==>
              AheadOf(p, merged[id])
  {
    var merged, s := MergedInto(map[], paths, request, seeds), SelectionFrom(request, seeds, paths);
    MergedCandidatesSorted(request, seeds, paths);
    MergedTargets(paths, request, seeds);
    forall p, id | p in s.tracePaths && id in merged && id !in s.linkedIds
      ensures AheadOf(p, merged[id])
    {
      BehindTheCut(SortedCandidates(merged), |s.tracePaths|, p, merged[id]);
    }
  }

  lemma TargetsMember(paths: seq<EngramTracePath>)
    ensures forall p :: p in paths ==> p.targetEngramId in Targets(paths)
  {
  }

  lemma BehindTheCut(sorted: seq<EngramTracePath>, cut: nat, p: EngramTracePath, q: EngramTracePath)
    requires SortedBy(CompareTracePath, sorted) && cut <= |sorted|
    requires p in sorted[..cut] && q in sorted && q.targetEngramId !in Targets(sorted[..cut])
    ensures AheadOf(p, q)
  {
    TargetsMember(sorted[..cut]);
    var i :| 0 <= i < cut && sorted[i] == p;
    assert q !in sorted[..cut];
    var j :| cut <= j < |sorted| && sorted[j] == q;
    assert CompareTracePath(sorted[i], sorted[j]) <= 0;
    assert p.targetEngramId != q.targetEngramId;
  }

  // ----- after packing -----

  /** The paths whose target was used, in their order. */
  ghost function PathsTo(paths: seq<EngramTracePath>, used: seq<Uuid>): seq<EngramTracePath> {
    if paths == [] then []
    else
      var n := |paths| - 1;
      PathsTo(paths[..n], used) + if paths[n].targetEngramId in used then [paths[n]] else []
  }

  lemma {:induction false} PathsToProperties(paths: seq<EngramTracePath>, used: seq<Uuid>)
    requires SortedBy(CompareTracePath, paths) && DistinctTargets(paths)
    ensures var kept := PathsTo(paths, used);
            SortedBy(CompareTracePath, kept) && DistinctTargets(kept) && |kept| <= |paths|
            && (forall p :: p in kept <==> p in paths && p.targetEngramId in used)
  {
    if paths != [] {
      var n := |paths| - 1;
      PathsToProperties(paths[..n], used);
      var kept := PathsTo(paths[..n], used);
      forall i | 0 <= i < |kept|
        ensures CompareTracePath(kept[i], paths[n]) <= 0 && kept[i].targetEngramId != paths[n].targetEngramId
      {
        assert kept[i] in paths[..n];
        var k :| 0 <= k < n && paths[k] == kept[i];
      }
      assert forall p :: p in paths <==> p in paths[..n] || p == paths[n];
    }
  }

  method FilterTracePathsForUsedEngrams(paths: seq<EngramTracePath>, usedIds: seq<Uuid>)
    returns (filtered: seq<EngramTracePath>)
    ensures filtered == StableSort(CompareTracePath, PathsTo(paths, usedIds))
  {
    if |paths| == 0 || |usedIds| == 0 {
      NothingUsed(paths, usedIds);
      return [];
    }
    var used: set<Uuid> := {};
    for i := 0 to |usedIds|
      invariant forall id :: id in used <==> id in usedIds[..i]
    {
      assert usedIds[..i + 1] == usedIds[..i] + [usedIds[i]];
      used := used + {usedIds[i]};
    }
    assert usedIds[..|usedIds|] == usedIds;
    filtered := [];
    for i := 0 to |paths|
      invariant filtered == PathsTo(paths[..i], usedIds)
    {
      assert paths[..i + 1][..i] == paths[..i];
      if paths[i].targetEngramId in used {
        filtered := filtered + [paths[i]];
      }
    }
    assert paths[..|paths|] == paths;
    filtered := StableSort(CompareTracePath, filtered);
  }

  lemma {:induction false} NothingUsed(paths: seq<EngramTracePath>, usedIds: seq<Uuid>)
    requires paths == [] || usedIds == []
    ensures PathsTo(paths, usedIds) == []
  {
    if paths != [] {
      NothingUsed(paths[..|paths| - 1], usedIds);
    }
  }

  /** The link ids of all paths, one path after the other. */
  ghost function AllLinkIds(paths: seq<EngramTracePath>): seq<Uuid> {
    if paths == [] then [] else AllLinkIds(paths[..|paths| - 1]) + paths[|paths| - 1].linkIds
  }

  lemma {:induction false} AllLinkIdsMembers(paths: seq<EngramTracePath>)
    ensures forall id :: id in AllLinkIds(paths) <==> exists p :: p in paths && id in p.linkIds
  {
    if paths != [] {
      var n := |paths| - 1;
      AllLinkIdsMembers(paths[..n]);
      assert forall p :: p in paths <==> p in paths[..n] || p == paths[n];
    }
  }

  lemma NextLinkIds(paths: seq<EngramTracePath>, i: nat)
    requires i < |paths|
    ensures AllLinkIds(paths[..i + 1]) == AllLinkIds(paths[..i]) + paths[i].linkIds
  {
    assert paths[..i + 1][..i] == paths[..i];
  }

  lemma UsedLinksAreOnPaths(paths: seq<EngramTracePath>)
    ensures var ids := Deduped(AllLinkIds(paths));
            Distinct(ids) && forall id :: id in ids <==> exists p :: p in paths && id in p.linkIds
  {
    AllLinkIdsMembers(paths);
    DedupedProperties(AllLinkIds(paths));
  }

  /** Used link ids: exactly the links on the paths, without repeats, in order of first use. */
  method CollectUsedLinkIds(paths: seq<EngramTracePath>) returns (ordered: seq<Uuid>)
    ensures ordered == Deduped(AllLinkIds(paths)) && Distinct(ordered)
    ensures forall id :: id in ordered <==> exists p :: p in paths && id in p.linkIds
  {
    ordered := [];
    var seen: set<Uuid> := {};
    for i := 0 to |paths|
      invariant ordered == Deduped(AllLinkIds(paths[..i])) && seen == Elements(AllLinkIds(paths[..i]))
    {
      var links := paths[i].linkIds;
      ghost var before := AllLinkIds(paths[..i]);
      assert before + links[..0] == before;
      for k := 0 to |links|
        invariant ordered == Deduped(before + links[..k]) && seen == Elements(before + links[..k])
      {
        assert before + links[..k + 1] == before + links[..k] + [links[k]];
        DedupedSnoc(before + links[..k], links[k]);
        if links[k] !in seen {
          seen := seen + {links[k]};
          ordered := ordered + [links[k]];
        }
      }
      assert links[..|links|] == links;
      NextLinkIds(paths, i);
    }
    assert paths[..|paths|] == paths;
    UsedLinksAreOnPaths(paths);
  }
}
