/**
 * Trace chains of one root: link traversal steps are folded, in depth order, into the best chain
 * known for every engram, and every chain but the root's becomes a trace path.
 */
module TraceChains {
  import opened Results
  import opened Times
  import opened Uuids
  import opened Ordering
  import opened LinkTemporal

  const CONTRADICTS := "contradicts"

  datatype TraversalStep = TraversalStep(depth: int, link: EngramLink)

  datatype TraceChain = TraceChain(
    engramIds: seq<Uuid>,
    linkIds: seq<Uuid>,
    contradictingLinkIds: seq<Uuid>,
    hasContradiction: bool,
    depth: int,
    score: real)

  datatype EngramTracePath = EngramTracePath(
    rootEngramId: Uuid,
    targetEngramId: Uuid,
    depth: int,
    linkIds: seq<Uuid>,
    engramIds: seq<Uuid>,
    hasContradiction: bool,
    contradictingLinkIds: seq<Uuid>,
    score: real)

  type Chains = map<Uuid, TraceChain>

  /** The decay law and the clock: `clock(root, i)` is read when the i-th ordered step of `root` is scored. */
  datatype Scoring = Scoring(decay: Decay, clock: (Uuid, nat) -> Time)

  /** One root with the ordered steps of its traversal. */
  datatype RootTrace = RootTrace(scoring: Scoring, root: Uuid, seedScore: real, ordered: seq<TraversalStep>)

  // ----- scoring and comparators -----

  function ScoreLinkQuality(decay: Decay, now: Time, link: EngramLink): (score: real)
    ensures 0.0 <= score <= 1.0
  {
    Clamp(0.30 * link.weight + 0.25 * link.confidence
          + 0.30 * DecayedWeight(decay, now, link) + 0.15 * LinkRecency(decay, now, link), 0.0, 1.0)
  }

  function ScoreTracePath(decay: Decay, now: Time, seedScore: real, step: TraversalStep): (score: real)
    ensures 0.0 <= score <= 1.0
  {
    var depthFactor := 1.0 / (if step.depth > 1 then step.depth else 1) as real;
    Clamp(0.42 * seedScore + 0.48 * ScoreLinkQuality(decay, now, step.link) + 0.10 * depthFactor, 0.0, 1.0)
  }

  /** A path scores no less for a better source, a better link or a shallower step. */
  lemma PathScoreIsMonotone(decay: Decay, now: Time, low: real, high: real, worse: TraversalStep, better: TraversalStep)
    requires low <= high && better.depth <= worse.depth
    requires ScoreLinkQuality(decay, now, worse.link) <= ScoreLinkQuality(decay, now, better.link)
    ensures ScoreTracePath(decay, now, low, worse) <= ScoreTracePath(decay, now, high, better)
  {
    var m, n := if better.depth > 1 then better.depth else 1, if worse.depth > 1 then worse.depth else 1;
    ReciprocalOrder(m as real, n as real);
  }

  /** A link between engrams as it is stored: weight and confidence lie in the unit interval. */
  ghost predicate StoredLink(link: EngramLink) {
    0.0 <= link.weight <= 1.0 && 0.0 <= link.confidence <= 1.0
  }

  /** By how much one link is better than another: by shares of its weight, confidence, decayed weight and recency. */
  lemma QualityDiffers(decay: Decay, now: Time, a: EngramLink, b: EngramLink)
    requires StoredLink(a) && StoredLink(b)
    ensures ScoreLinkQuality(decay, now, a) - ScoreLinkQuality(decay, now, b)
         == 0.30 * (a.weight - b.weight) + 0.25 * (a.confidence - b.confidence)
            + 0.30 * (DecayedWeight(decay, now, a) - DecayedWeight(decay, now, b))
            + 0.15 * (LinkRecency(decay, now, a) - LinkRecency(decay, now, b))
  {
  }

  /** A link that is equally good in every respect has that quality. */
  lemma EvenQuality(decay: Decay, now: Time, link: EngramLink)
    requires StoredLink(link) && link.weight == link.confidence
    requires DecayedWeight(decay, now, link) == link.weight == LinkRecency(decay, now, link)
    ensures ScoreLinkQuality(decay, now, link) == link.weight
  {
  }

  lemma ReciprocalOrder(m: real, n: real)
    requires 0.0 < m <= n
    ensures 1.0 / n <= 1.0 / m
  {
  }

  function CompareTraversalStep(left: TraversalStep, right: TraversalStep): int {
    if left.depth != right.depth then left.depth - right.depth
    else if left.link.weight != right.link.weight then (if left.link.weight > right.link.weight then -1 else 1)
    else CompareUuid(left.link.linkId, right.link.linkId)
  }

  function CompareTracePath(left: EngramTracePath, right: EngramTracePath): int {
    if left.score != right.score then (if left.score > right.score then -1 else 1)
    else if left.depth != right.depth then left.depth - right.depth
    else CompareUuid(left.targetEngramId, right.targetEngramId)
  }

  /** Higher scores first, then shorter paths, then smaller targets. */
  ghost predicate AheadOf(p: EngramTracePath, q: EngramTracePath) {
    p.score > q.score
    || (p.score == q.score && (p.depth < q.depth || (p.depth == q.depth && p.targetEngramId < q.targetEngramId)))
  }

  /** Shallower steps first, then heavier links, then smaller link ids. */
  ghost predicate StepAhead(a: TraversalStep, b: TraversalStep) {
    || a.depth < b.depth
    || (a.depth == b.depth
        && (a.link.weight > b.link.weight || (a.link.weight == b.link.weight && a.link.linkId < b.link.linkId)))
  }

  lemma StepOrder()
    ensures TotalPreorder(CompareTraversalStep)
    ensures forall a, b :: CompareTraversalStep(a, b) < 0 <==> StepAhead(a, b)
  {
  }

  lemma PathOrder()
    ensures TotalPreorder(CompareTracePath)
  {
  }

  /** On paths with distinct targets the selection comparator never ties. */
  lemma PathOrderStrict(left: EngramTracePath, right: EngramTracePath)
    requires CompareTracePath(left, right) <= 0 && CompareTracePath(right, left) <= 0
    ensures left.targetEngramId == right.targetEngramId
  {
  }

  // ----- chains -----

  function InitialChain(root: Uuid, seedScore: real): TraceChain {
    TraceChain([root], [], [], false, 0, Clamp(seedScore, 0.0, 1.0))
  }

  /** The chain a step extends: its source's, when that chain is exactly one shorter than the step is deep. */
  function SourceChainForStep(chains: Chains, step: TraversalStep): Option<TraceChain> {
    if step.link.sourceEngramId !in chains then None
    else if chains[step.link.sourceEngramId].depth + 1 != step.depth then None
    else Some(chains[step.link.sourceEngramId])
  }

  function ExtendChain(decay: Decay, now: Time, source: TraceChain, step: TraversalStep): TraceChain {
    var contradicts := step.link.relationType == CONTRADICTS;
    TraceChain(
      source.engramIds + [step.link.targetEngramId],
      source.linkIds + [step.link.linkId],
      source.contradictingLinkIds + if contradicts then [step.link.linkId] else [],
      source.hasContradiction || contradicts,
      step.depth,
      ScoreTracePath(decay, now, source.score, step))
  }

  /** One step: the target's chain is replaced only by a strictly better one. */
  function PromoteTraceChain(decay: Decay, now: Time, chains: Chains, step: TraversalStep): Chains {
    match SourceChainForStep(chains, step)
    case None => chains
    case Some(source) =>
      var candidate := ExtendChain(decay, now, source, step);
      var target := step.link.targetEngramId;
      if target in chains && candidate.score <= chains[target].score then chains
      else chains[target := candidate]
  }

  /** The chains once the first `n` ordered steps are in. */
  function ChainsAfter(t: RootTrace, n: nat): Chains
    requires n <= |t.ordered|
  {
    if n == 0 then map[t.root := InitialChain(t.root, t.seedScore)]
    else PromoteTraceChain(t.scoring.decay, t.scoring.clock(t.root, n - 1), ChainsAfter(t, n - 1), t.ordered[n - 1])
  }

  function FinalChains(t: RootTrace): Chains {
    ChainsAfter(t, |t.ordered|)
  }

  /** The chain step `j` proposes for its target, if it proposes one. */
  ghost function Offer(t: RootTrace, j: nat): Option<TraceChain>
    requires j < |t.ordered|
  {
    match SourceChainForStep(ChainsAfter(t, j), t.ordered[j])
    case None => None
    case Some(source) => Some(ExtendChain(t.scoring.decay, t.scoring.clock(t.root, j), source, t.ordered[j]))
  }

  // ----- every chain is a walk -----

  /** `via` lists, in order, the positions of steps that lead from the root to `target`, one per depth. */
  ghost predicate Walk(t: RootTrace, via: seq<nat>, target: Uuid) {
    && (forall i :: 0 <= i < |via| ==> via[i] < |t.ordered| && t.ordered[via[i]].depth == i + 1)
    && (forall i :: 0 < i < |via| ==>
          t.ordered[via[i]].link.sourceEngramId == t.ordered[via[i - 1]].link.targetEngramId)
    && (if via == [] then target == t.root
        else t.ordered[via[0]].link.sourceEngramId == t.root
             && t.ordered[via[|via| - 1]].link.targetEngramId == target)
  }

  /** The chain obtained by taking the steps of a walk one after the other. */
  ghost function WalkChain(t: RootTrace, via: seq<nat>): TraceChain
    requires forall i :: 0 <= i < |via| ==> via[i] < |t.ordered|
  {
    if via == [] then InitialChain(t.root, t.seedScore)
    else
      var last := via[|via| - 1];
      ExtendChain(t.scoring.decay, t.scoring.clock(t.root, last), WalkChain(t, via[..|via| - 1]), t.ordered[last])
  }

  lemma WalkExtends(t: RootTrace, via: seq<nat>, last: nat)
    requires last < |t.ordered| && t.ordered[last].depth == |via| + 1
    requires Walk(t, via, t.ordered[last].link.sourceEngramId)
    ensures Walk(t, via + [last], t.ordered[last].link.targetEngramId)
    ensures WalkChain(t, via + [last])
         == ExtendChain(t.scoring.decay, t.scoring.clock(t.root, last), WalkChain(t, via), t.ordered[last])
  {
    var longer := via + [last];
    assert longer[..|via|] == via && longer[|via|] == last;
    forall i | 0 < i < |longer|
      ensures t.ordered[longer[i]].link.sourceEngramId == t.ordered[longer[i - 1]].link.targetEngramId
    {
    }
  }

  lemma WalkPrefix(t: RootTrace, via: seq<nat>, target: Uuid)
    requires Walk(t, via, target) && via != []
    ensures var last := via[|via| - 1];
            Walk(t, via[..|via| - 1], t.ordered[last].link.sourceEngramId)
            && t.ordered[last].depth == |via| && t.ordered[last].link.targetEngramId == target
  {
  }

  lemma {:induction false} WalkChainDepth(t: RootTrace, via: seq<nat>, target: Uuid)
    requires Walk(t, via, target)
    ensures WalkChain(t, via).depth == |via|
    ensures 0.0 <= WalkChain(t, via).score <= 1.0
  {
    if via != [] {
      WalkPrefix(t, via, target);
    }
  }

  lemma StepScores(decay: Decay, now: Time, source: real, step: TraversalStep)
    requires 0.0 <= source <= 1.0 && step.depth >= 1
    ensures ScoreTracePath(decay, now, source, step)
         == 0.42 * source + 0.48 * ScoreLinkQuality(decay, now, step.link) + 0.10 * (1.0 / step.depth as real)
  {
    ReciprocalOrder(1.0, step.depth as real);
  }

  /** What a walk scores: it starts with the seed's score, and every step mixes in its link's quality and its depth. */
  lemma WalkScores(t: RootTrace, via: seq<nat>, target: Uuid)
    requires Walk(t, via, target) && 0.0 <= t.seedScore <= 1.0
    ensures if via == [] then WalkChain(t, via).score == t.seedScore
            else
              var last := via[|via| - 1];
              var quality := ScoreLinkQuality(t.scoring.decay, t.scoring.clock(t.root, last), t.ordered[last].link);
              WalkChain(t, via).score
              == 0.42 * WalkChain(t, via[..|via| - 1]).score + 0.48 * quality + 0.10 * (1.0 / |via| as real)
  {
    if via != [] {
      var last, front := via[|via| - 1], via[..|via| - 1];
      WalkPrefix(t, via, target);
      WalkChainDepth(t, front, t.ordered[last].link.sourceEngramId);
      StepScores(t.scoring.decay, t.scoring.clock(t.root, last), WalkChain(t, front).score, t.ordered[last]);
    }
  }

  lemma {:induction false} ScoresOnlyRise(t: RootTrace, m: nat, n: nat, target: Uuid)
    requires m <= n <= |t.ordered| && target in ChainsAfter(t, m)
    ensures target in ChainsAfter(t, n) && ChainsAfter(t, m)[target].score <= ChainsAfter(t, n)[target].score
    decreases n - m
  {
    if m < n {
      ScoresOnlyRise(t, m, n - 1, target);
    }
  }

  /** A chain just put in place of another scores above all that were held before. */
  lemma EarlierChainsScoreLess(t: RootTrace, n: nat, target: Uuid)
    requires 0 < n <= |t.ordered| && target in ChainsAfter(t, n)
    requires target in ChainsAfter(t, n - 1) ==> ChainsAfter(t, n)[target] != ChainsAfter(t, n - 1)[target]
    ensures forall m: nat :: m < n && target in ChainsAfter(t, m) ==>
              ChainsAfter(t, m)[target].score < ChainsAfter(t, n)[target].score
  {
    forall m: nat | m < n && target in ChainsAfter(t, m)
      ensures ChainsAfter(t, m)[target].score < ChainsAfter(t, n)[target].score
    {
      ScoresOnlyRise(t, m, n - 1, target);
    }
  }

  /** Where a walk arrives in the order of the steps: 0 before the first step, else after its last one. */
  ghost function Arrival(via: seq<nat>): nat {
    if via == [] then 0 else via[|via| - 1] + 1
  }

  /**
   * Whatever the steps are, a chain held for an engram is the chain of a walk to it over earlier steps, and
   * scores above every chain that was held for the engram before the walk arrived.
   */
  lemma {:induction false} ChainIsWalk(t: RootTrace, n: nat, target: Uuid) returns (via: seq<nat>)
    requires n <= |t.ordered| && target in ChainsAfter(t, n)
    ensures Walk(t, via, target) && ChainsAfter(t, n)[target] == WalkChain(t, via)
    ensures forall i :: 0 <= i < |via| ==> via[i] < n
    ensures forall m: nat :: m < Arrival(via) && m <= n && target in ChainsAfter(t, m) ==>
              ChainsAfter(t, m)[target].score < WalkChain(t, via).score
    decreases n
  {
    if n == 0 {
      via := [];
    } else if target in ChainsAfter(t, n - 1) && ChainsAfter(t, n)[target] == ChainsAfter(t, n - 1)[target] {
      via := ChainIsWalk(t, n - 1, target);
    } else {
      var step := t.ordered[n - 1];
      var before := ChainIsWalk(t, n - 1, step.link.sourceEngramId);
      WalkChainDepth(t, before, step.link.sourceEngramId);
      WalkExtends(t, before, n - 1);
      via := before + [n - 1];
      EarlierChainsScoreLess(t, n, target);
    }
  }

  // ----- the kept chain is the first best offer -----

  /** No chain ever offered for a target scores above the one finally kept. */
  lemma OfferNeverBeatsKept(t: RootTrace, j: nat)
    requires j < |t.ordered| && Offer(t, j).Some?
    ensures var target := t.ordered[j].link.targetEngramId;
            target in FinalChains(t) && Offer(t, j).value.score <= FinalChains(t)[target].score
  {
    ScoresOnlyRise(t, j + 1, |t.ordered|, t.ordered[j].link.targetEngramId);
  }

  /** The kept chain was offered, and every earlier offer for the target, or its initial chain, scored less. */
  ghost predicate FirstBestOffer(t: RootTrace, n: nat, target: Uuid, j: nat)
    requires n <= |t.ordered| && target in ChainsAfter(t, n)
  {
    && j < n && t.ordered[j].link.targetEngramId == target
    && Offer(t, j) == Some(ChainsAfter(t, n)[target])
    && (forall i :: 0 <= i < j && t.ordered[i].link.targetEngramId == target && Offer(t, i).Some? ==>
          Offer(t, i).value.score < ChainsAfter(t, n)[target].score)
  }

  /** Ties go to the earliest offer; only the root can keep the chain it started with. */
  lemma {:induction false} KeptIsFirstBestOffer(t: RootTrace, n: nat, target: Uuid) returns (j: nat)
    requires n <= |t.ordered| && target in ChainsAfter(t, n)
    ensures (target == t.root && ChainsAfter(t, n)[target] == InitialChain(t.root, t.seedScore))
         || FirstBestOffer(t, n, target, j)
    decreases n
  {
    j := 0;
    if n > 0 {
      if target in ChainsAfter(t, n - 1) && ChainsAfter(t, n)[target] == ChainsAfter(t, n - 1)[target] {
        j := KeptIsFirstBestOffer(t, n - 1, target);
      } else {
        j := n - 1;
        forall i | 0 <= i < j && t.ordered[i].link.targetEngramId == target && Offer(t, i).Some?
          ensures Offer(t, i).value.score < ChainsAfter(t, n)[target].score
        {
          ScoresOnlyRise(t, i + 1, n - 1, target);
        }
      }
    }
  }

  // ----- what a chain records about its walk -----

  /** The link ids of the "contradicts" steps of a walk, in order. */
  ghost function ContradictingIds(walk: seq<TraversalStep>): seq<Uuid> {
    if walk == [] then []
    else
      var last := walk[|walk| - 1].link;
      ContradictingIds(walk[..|walk| - 1]) + if last.relationType == CONTRADICTS then [last.linkId] else []
  }

  /** `engramIds` and `linkIds` spell `walk` node by node and link by link, and `conflicts` its contradictions. */
  ghost predicate Records(root: Uuid, engramIds: seq<Uuid>, linkIds: seq<Uuid>, conflicts: seq<Uuid>,
                          walk: seq<TraversalStep>) {
    && |linkIds| == |walk| && |engramIds| == |walk| + 1
    && engramIds[0] == root
    && (forall i :: 0 <= i < |walk| ==>
          walk[i].depth == i + 1 && walk[i].link.linkId == linkIds[i]
          && walk[i].link.sourceEngramId == engramIds[i] && walk[i].link.targetEngramId == engramIds[i + 1])
    && conflicts == ContradictingIds(walk)
  }

  ghost function StepsOf(t: RootTrace, via: seq<nat>): (walk: seq<TraversalStep>)
    requires forall i :: 0 <= i < |via| ==> via[i] < |t.ordered|
    ensures |walk| == |via| && forall i :: 0 <= i < |via| ==> walk[i] == t.ordered[via[i]]
  {
    if via == [] then [] else StepsOf(t, via[..|via| - 1]) + [t.ordered[via[|via| - 1]]]
  }

  lemma RecordsExtend(root: Uuid, chain: TraceChain, walk: seq<TraversalStep>, step: TraversalStep,
                      decay: Decay, now: Time)
    requires Records(root, chain.engramIds, chain.linkIds, chain.contradictingLinkIds, walk)
    requires step.depth == |walk| + 1 && step.link.sourceEngramId == chain.engramIds[|walk|]
    ensures var next := ExtendChain(decay, now, chain, step);
            Records(root, next.engramIds, next.linkIds, next.contradictingLinkIds, walk + [step])
  {
    assert (walk + [step])[..|walk|] == walk;
  }

  ghost predicate SoundChain(root: Uuid, chain: TraceChain, walk: seq<TraversalStep>) {
    && Records(root, chain.engramIds, chain.linkIds, chain.contradictingLinkIds, walk)
    && chain.depth == |walk|
    && (chain.hasContradiction <==> chain.contradictingLinkIds != [])
    && 0.0 <= chain.score <= 1.0
  }

  lemma {:induction false} WalkChainRecords(t: RootTrace, via: seq<nat>, target: Uuid)
    requires Walk(t, via, target)
    ensures SoundChain(t.root, WalkChain(t, via), StepsOf(t, via))
    ensures WalkChain(t, via).engramIds[|via|] == target
  {
    if via != [] {
      var front, last := via[..|via| - 1], via[|via| - 1];
      WalkPrefix(t, via, target);
      WalkChainRecords(t, front, t.ordered[last].link.sourceEngramId);
      RecordsExtend(t.root, WalkChain(t, front), StepsOf(t, front), t.ordered[last],
                    t.scoring.decay, t.scoring.clock(t.root, last));
    }
  }

  // ----- trace paths -----

  predicate ShouldSkipTraceChain(root: Uuid, engramId: Uuid, chain: TraceChain) {
    engramId == root || chain.linkIds == []
  }

  function TracePathFromChain(root: Uuid, engramId: Uuid, chain: TraceChain): EngramTracePath {
    EngramTracePath(root, engramId, chain.depth, chain.linkIds, chain.engramIds,
                    chain.hasContradiction, chain.contradictingLinkIds, chain.score)
  }

  ghost function PathSet(root: Uuid, chains: Chains): set<EngramTracePath> {
    set id | id in chains && !ShouldSkipTraceChain(root, id, chains[id]) :: TracePathFromChain(root, id, chains[id])
  }

  /** The trace paths of one root, best first. */
  ghost function RootPaths(t: RootTrace): seq<EngramTracePath> {
    StableSort(CompareTracePath, Enumeration(PathSet(t.root, FinalChains(t))))
  }

  /** The path is a walk of the given steps from its root to its target. */
  ghost predicate GenuinePath(path: EngramTracePath, steps: seq<TraversalStep>) {
    && path.targetEngramId != path.rootEngramId && path.depth >= 1
    && |path.linkIds| == path.depth && |path.engramIds| == path.depth + 1
    && path.engramIds[path.depth] == path.targetEngramId
    && (path.hasContradiction <==> path.contradictingLinkIds != [])
    && 0.0 <= path.score <= 1.0
    && exists walk: seq<TraversalStep> ::
         (forall s :: s in walk ==> s in steps)
         && Records(path.rootEngramId, path.engramIds, path.linkIds, path.contradictingLinkIds, walk)
  }

  lemma ChainPathIsGenuine(t: RootTrace, target: Uuid)
    requires target in FinalChains(t) && !ShouldSkipTraceChain(t.root, target, FinalChains(t)[target])
    ensures GenuinePath(TracePathFromChain(t.root, target, FinalChains(t)[target]), t.ordered)
  {
    var via := ChainIsWalk(t, |t.ordered|, target);
    WalkChainRecords(t, via, target);
    var path := TracePathFromChain(t.root, target, FinalChains(t)[target]);
    assert Records(path.rootEngramId, path.engramIds, path.linkIds, path.contradictingLinkIds, StepsOf(t, via));
  }

  /** Distinct paths of one root have distinct targets. */
  ghost predicate DistinctTargets(paths: seq<EngramTracePath>) {
    forall i, j :: 0 <= i < j < |paths| ==> paths[i].targetEngramId != paths[j].targetEngramId
  }

  lemma TargetsDecideTies(paths: seq<EngramTracePath>)
    requires DistinctTargets(paths)
    ensures TiesAreEqual(CompareTracePath, paths)
  {
    forall x, y | x in paths && y in paths && CompareTracePath(x, y) <= 0 && CompareTracePath(y, x) <= 0
      ensures x == y
    {
      PathOrderStrict(x, y);
    }
  }

  /** Two enumerations of one set of paths with distinct targets sort to the same list. */
  lemma PathSortUnique(a: seq<EngramTracePath>, b: seq<EngramTracePath>)
    requires DistinctTargets(a) && DistinctTargets(b)
    requires forall p :: p in a <==> p in b
    ensures StableSort(CompareTracePath, a) == StableSort(CompareTracePath, b)
  {
    PathSortProperties(a);
    PathSortProperties(b);
    SortKeepsMultiset(CompareTracePath, a);
    SortKeepsMultiset(CompareTracePath, b);
    DistinctSameElements(a, b);
    TargetsDecideTies(StableSort(CompareTracePath, a));
    SortedPermutationUnique(CompareTracePath, StableSort(CompareTracePath, a), StableSort(CompareTracePath, b));
  }

  /** Every path is strictly ahead of every later one. */
  ghost predicate BestFirst(paths: seq<EngramTracePath>) {
    forall i, j :: 0 <= i < j < |paths| ==> AheadOf(paths[i], paths[j])
  }

  lemma SortedIsBestFirst(paths: seq<EngramTracePath>)
    requires DistinctTargets(paths) && SortedBy(CompareTracePath, paths)
    ensures BestFirst(paths)
  {
  }

  /** Sorting keeps targets distinct, keeps the same paths and puts better ones first. */
  lemma PathSortProperties(paths: seq<EngramTracePath>)
    requires DistinctTargets(paths)
    ensures var s := StableSort(CompareTracePath, paths);
            DistinctTargets(s) && |s| == |paths| && SortedBy(CompareTracePath, s)
            && (forall p :: p in s <==> p in paths)
  {
    var s := StableSort(CompareTracePath, paths);
    PathOrder();
    SortSorts(CompareTracePath, paths);
    SortPermutes(CompareTracePath, paths);
    assert Distinct(paths);
    DistinctPermutes(paths, s);
    forall i, j | 0 <= i < j < |s|
      ensures s[i].targetEngramId != s[j].targetEngramId
    {
      assert s[i] in paths && s[j] in paths && s[i] != s[j];
    }
  }

  lemma PathSetTargets(root: Uuid, chains: Chains)
    ensures DistinctTargets(Enumeration(PathSet(root, chains)))
  {
    var e := Enumeration(PathSet(root, chains));
    forall i, j | 0 <= i < j < |e|
      ensures e[i].targetEngramId != e[j].targetEngramId
    {
      assert e[i] in PathSet(root, chains) && e[j] in PathSet(root, chains);
    }
  }

  lemma RootPathsEnumerateChains(t: RootTrace)
    ensures forall p :: p in RootPaths(t) <==> p in PathSet(t.root, FinalChains(t))
    ensures DistinctTargets(RootPaths(t)) && SortedBy(CompareTracePath, RootPaths(t))
  {
    PathSetTargets(t.root, FinalChains(t));
    PathSortProperties(Enumeration(PathSet(t.root, FinalChains(t))));
  }

  /** Every trace path of a root is a genuine walk with the kept score; targets are distinct; better paths come first. */
  lemma RootPathsAreGenuine(t: RootTrace)
    ensures forall p :: p in RootPaths(t) ==>
              p.rootEngramId == t.root && GenuinePath(p, t.ordered)
              && p.targetEngramId in FinalChains(t) && p.score == FinalChains(t)[p.targetEngramId].score
    ensures DistinctTargets(RootPaths(t)) && BestFirst(RootPaths(t))
  {
    RootPathsEnumerateChains(t);
    SortedIsBestFirst(RootPaths(t));
    forall p | p in RootPaths(t)
      ensures p.rootEngramId == t.root && GenuinePath(p, t.ordered)
              && p.targetEngramId in FinalChains(t) && p.score == FinalChains(t)[p.targetEngramId].score
    {
      assert p in PathSet(t.root, FinalChains(t));
      ChainPathIsGenuine(t, p.targetEngramId);
    }
  }

  /** Every engram with a chain, but the root, has a trace path. */
  lemma RootPathsAreComplete(t: RootTrace, id: Uuid)
    requires id in FinalChains(t) && id != t.root
    ensures exists p :: p in RootPaths(t) && p.targetEngramId == id
  {
    RootPathsEnumerateChains(t);
    var via := ChainIsWalk(t, |t.ordered|, id);
    WalkChainRecords(t, via, id);
    var p := TracePathFromChain(t.root, id, FinalChains(t)[id]);
    assert p in PathSet(t.root, FinalChains(t)) && p in RootPaths(t);
  }

  // ----- the loops -----

  /** Enumerates the chain map in whatever order it comes and collects the paths. */
  method BuildTracePathsFromChains(root: Uuid, chains: Chains) returns (paths: seq<EngramTracePath>)
    ensures DistinctTargets(paths)
    ensures forall p :: p in paths <==> p in PathSet(root, chains)
  {
    paths := [];
    var remaining := chains.Keys;
    while remaining != {}
      invariant remaining <= chains.Keys
      invariant DistinctTargets(paths)
      invariant forall p :: p in paths <==> p in PathSet(root, chains) && p.targetEngramId !in remaining
      decreases remaining
    {
      var id :| id in remaining;
      ghost var before := paths;
      if !ShouldSkipTraceChain(root, id, chains[id]) {
        paths := paths + [TracePathFromChain(root, id, chains[id])];
      }
      remaining := remaining - {id};
      forall p
        ensures p in paths <==> p in PathSet(root, chains) && p.targetEngramId !in remaining
      {
        assert p in paths <==> p in before || (p == TracePathFromChain(root, id, chains[id]) && p in paths);
      }
    }
  }

  /** The fold over the ordered steps, then the sorted enumeration of what it leaves. */
  method BuildTracePathsForRoot(scoring: Scoring, root: Uuid, steps: seq<TraversalStep>, seedScore: real)
    returns (paths: seq<EngramTracePath>)
    ensures paths == RootPaths(RootTrace(scoring, root, seedScore, StableSort(CompareTraversalStep, steps)))
  {
    var ordered := StableSort(CompareTraversalStep, steps);
    ghost var t := RootTrace(scoring, root, seedScore, ordered);
    SortPermutes(CompareTraversalStep, steps);
    if |steps| == 0 {
      assert Enumeration(PathSet(root, FinalChains(t))) == [] by {
        assert PathSet(root, FinalChains(t)) == {};
      }
      return [];
    }
    var chains: Chains := map[root := InitialChain(root, seedScore)];
    for i := 0 to |ordered|
      invariant chains == ChainsAfter(t, i)
    {
      chains := PromoteTraceChain(scoring.decay, scoring.clock(root, i), chains, ordered[i]);
    }
    var found := BuildTracePathsFromChains(root, chains);
    PathSetTargets(root, chains);
    PathSortUnique(found, Enumeration(PathSet(root, chains)));
    paths := StableSort(CompareTracePath, found);
  }
}
