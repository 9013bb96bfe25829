/**
 * What the greedy fold of the traversal steps makes of all walks: exactly when every step that continues a walk is
 * taken, exactly when every engram always holds its best walk, and a traversal on which neither is so.
 */
module RecallOptimality {
  import opened Results
  import opened Times
  import opened Uuids
  import opened Ordering
  import opened LinkTemporal
  import opened TraceChains
  import opened LinkTraversal

  ghost predicate DepthOrdered(t: RootTrace) {
    forall i, j :: 0 <= i < j < |t.ordered| ==> t.ordered[i].depth <= t.ordered[j].depth
  }

  lemma SortedStepsAreDepthOrdered(t: RootTrace)
    requires SortedBy(CompareTraversalStep, t.ordered)
    ensures DepthOrdered(t)
  {
  }

  /** A walk over the first `n` steps. */
  ghost predicate EarlyWalk(t: RootTrace, via: seq<nat>, target: Uuid, n: nat) {
    Walk(t, via, target) && Arrival(via) <= n
  }

  ghost function SourceOf(t: RootTrace, j: nat): Uuid
    requires j < |t.ordered|
  {
    t.ordered[j].link.sourceEngramId
  }

  ghost function TargetOf(t: RootTrace, j: nat): Uuid
    requires j < |t.ordered|
  {
    t.ordered[j].link.targetEngramId
  }

  /** Step `j` continues the walk `via` over earlier steps. */
  ghost predicate Continues(t: RootTrace, via: seq<nat>, j: nat)
    requires j < |t.ordered|
  {
    EarlyWalk(t, via, SourceOf(t, j), j) && |via| + 1 == t.ordered[j].depth
  }

  ghost predicate Takeable(t: RootTrace, j: nat)
    requires j < |t.ordered|
  {
    exists via :: Continues(t, via, j)
  }

  /** One walk is preferred to another: it scores more, or as much and arrives earlier. */
  ghost predicate Preferred(t: RootTrace, w: seq<nat>, v: seq<nat>)
    requires (forall i :: 0 <= i < |w| ==> w[i] < |t.ordered|) && (forall i :: 0 <= i < |v| ==> v[i] < |t.ordered|)
  {
    WalkChain(t, w).score > WalkChain(t, v).score
    || (WalkChain(t, w).score == WalkChain(t, v).score && Arrival(w) < Arrival(v))
  }

  /** A walk of another length to the source of step `j` is preferred to every walk the step continues. */
  ghost predicate OvertakenBy(t: RootTrace, w: seq<nat>, j: nat)
    requires j < |t.ordered|
  {
    && EarlyWalk(t, w, SourceOf(t, j), j) && |w| + 1 != t.ordered[j].depth
    && forall v :: Continues(t, v, j) ==> Preferred(t, w, v)
  }

  ghost predicate Overtaken(t: RootTrace, j: nat)
    requires j < |t.ordered|
  {
    exists w :: OvertakenBy(t, w, j)
  }

  /** The score of the walk `via` continued by step `j`. */
  ghost function ContinuedScore(t: RootTrace, via: seq<nat>, j: nat): real
    requires j < |t.ordered| && Continues(t, via, j)
  {
    ExtendChain(t.scoring.decay, t.scoring.clock(t.root, j), WalkChain(t, via), t.ordered[j]).score
  }

  /** A walk that step `j` continues to a higher score than any earlier walk to the same engram has. */
  ghost predicate Improves(t: RootTrace, via: seq<nat>, j: nat)
    requires j < |t.ordered|
  {
    && Continues(t, via, j)
    && forall u :: EarlyWalk(t, u, TargetOf(t, j), j) ==> WalkChain(t, u).score < ContinuedScore(t, via, j)
  }

  /** Step `j` is overtaken and would have improved its target. */
  ghost predicate Lost(t: RootTrace, j: nat)
    requires j < |t.ordered|
  {
    Overtaken(t, j) && exists via :: Improves(t, via, j)
  }

  /** After `n` steps every engram that a walk reaches is held with at least the score of every walk to it. */
  ghost predicate OptimalAt(t: RootTrace, n: nat)
    requires n <= |t.ordered|
  {
    forall target, via :: EarlyWalk(t, via, target, n) ==>
      target in ChainsAfter(t, n) && WalkChain(t, via).score <= ChainsAfter(t, n)[target].score
  }

  ghost predicate OptimalUpTo(t: RootTrace, n: nat)
    requires n <= |t.ordered|
  {
    forall m: nat :: m <= n ==> OptimalAt(t, m)
  }

  // ----- one step -----

  /** The steps of a walk come in the order of their depths. */
  lemma FrontIsEarlier(t: RootTrace, via: seq<nat>, target: Uuid)
    requires DepthOrdered(t) && Walk(t, via, target) && via != []
    ensures var last := via[|via| - 1];
            && (forall i :: 0 <= i < |via| - 1 ==> via[i] < last)
            && Continues(t, via[..|via| - 1], last)
  {
    WalkPrefix(t, via, target);
    forall i | 0 <= i < |via| - 1
      ensures via[i] < via[|via| - 1]
    {
      assert t.ordered[via[i]].depth < t.ordered[via[|via| - 1]].depth;
    }
  }

  /** The engram holds the chain of the walk, and held only worse ones before the walk arrived. */
  ghost predicate Holds(t: RootTrace, n: nat, target: Uuid, via: seq<nat>)
    requires n <= |t.ordered| && target in ChainsAfter(t, n)
  {
    && EarlyWalk(t, via, target, n) && ChainsAfter(t, n)[target] == WalkChain(t, via)
    && ChainsAfter(t, n)[target].depth == |via|
    && forall m: nat :: m < Arrival(via) && m <= n && target in ChainsAfter(t, m) ==>
         ChainsAfter(t, m)[target].score < WalkChain(t, via).score
  }

  lemma HeldWalk(t: RootTrace, n: nat, target: Uuid) returns (via: seq<nat>)
    requires n <= |t.ordered| && target in ChainsAfter(t, n)
    ensures Holds(t, n, target, via)
  {
    via := ChainIsWalk(t, n, target);
    WalkChainDepth(t, via, target);
  }

  /** No walk to an engram is preferred to the one it holds. */
  lemma NothingIsPreferred(t: RootTrace, n: nat, target: Uuid, w: seq<nat>, v: seq<nat>)
    requires n <= |t.ordered| && OptimalUpTo(t, n) && target in ChainsAfter(t, n)
    requires Holds(t, n, target, w) && EarlyWalk(t, v, target, n)
    ensures !Preferred(t, v, w)
  {
    assert OptimalAt(t, n);
    if Arrival(v) < Arrival(w) {
      assert OptimalAt(t, Arrival(v)) && EarlyWalk(t, v, target, Arrival(v));
    }
  }

  lemma LengthsArriveApart(t: RootTrace, w: seq<nat>, v: seq<nat>, target: Uuid)
    requires Walk(t, w, target) && Walk(t, v, target) && |w| != |v|
    ensures Arrival(w) != Arrival(v)
  {
    if w != [] && v != [] {
      assert t.ordered[w[|w| - 1]].depth == |w| && t.ordered[v[|v| - 1]].depth == |v|;
    }
  }

  lemma TakenIsNotOvertaken(t: RootTrace, j: nat, w: seq<nat>, x: seq<nat>)
    requires j < |t.ordered| && OptimalUpTo(t, j) && SourceOf(t, j) in ChainsAfter(t, j)
    requires Holds(t, j, SourceOf(t, j), w) && Continues(t, w, j)
    ensures !OvertakenBy(t, x, j)
  {
    if OvertakenBy(t, x, j) {
      NothingIsPreferred(t, j, SourceOf(t, j), w, x);
    }
  }

  lemma HeldIsPreferred(t: RootTrace, j: nat, w: seq<nat>, x: seq<nat>)
    requires j < |t.ordered| && OptimalUpTo(t, j) && SourceOf(t, j) in ChainsAfter(t, j)
    requires Holds(t, j, SourceOf(t, j), w) && |w| + 1 != t.ordered[j].depth
    requires Continues(t, x, j)
    ensures Preferred(t, w, x)
  {
    NothingIsPreferred(t, j, SourceOf(t, j), w, x);
    LengthsArriveApart(t, w, x, SourceOf(t, j));
  }

  /** Where engrams hold their best walks, a step that continues a walk is taken exactly when it is not overtaken. */
  lemma TakenIff(t: RootTrace, j: nat)
    requires j < |t.ordered| && Takeable(t, j) && OptimalUpTo(t, j)
    ensures SourceOf(t, j) in ChainsAfter(t, j)
    ensures Offer(t, j).Some? <==> !Overtaken(t, j)
  {
    SourceIsHeld(t, j);
    var w := HeldWalk(t, j, SourceOf(t, j));
    if |w| + 1 == t.ordered[j].depth {
      forall x
        ensures !OvertakenBy(t, x, j)
      {
        TakenIsNotOvertaken(t, j, w, x);
      }
    } else {
      forall x | Continues(t, x, j)
        ensures Preferred(t, w, x)
      {
        HeldIsPreferred(t, j, w, x);
      }
      assert OvertakenBy(t, w, j);
    }
  }

  lemma SourceIsHeld(t: RootTrace, j: nat)
    requires j < |t.ordered| && Takeable(t, j) && OptimalUpTo(t, j)
    ensures SourceOf(t, j) in ChainsAfter(t, j)
  {
    var v :| Continues(t, v, j);
    assert OptimalAt(t, j);
  }

  /** Where step `j` is taken or cannot improve its target, engrams go on holding their best walks. */
  lemma StepKeepsOptimal(t: RootTrace, j: nat)
    requires DepthOrdered(t) && j < |t.ordered| && OptimalAt(t, j)
    requires Offer(t, j).Some? || forall via :: !Improves(t, via, j)
    ensures OptimalAt(t, j + 1)
  {
    var n := j + 1;
    forall target, via | EarlyWalk(t, via, target, n)
      ensures target in ChainsAfter(t, n) && WalkChain(t, via).score <= ChainsAfter(t, n)[target].score
    {
      if Arrival(via) <= j {
        assert EarlyWalk(t, via, target, j);
        ScoresOnlyRise(t, j, j + 1, target);
      } else {
        FrontIsEarlier(t, via, target);
        ContinuationIsHeld(t, j, via[..|via| - 1]);
      }
    }
  }

  lemma ContinuationIsHeld(t: RootTrace, j: nat, front: seq<nat>)
    requires j < |t.ordered| && OptimalAt(t, j) && Continues(t, front, j)
    requires Offer(t, j).Some? || !Improves(t, front, j)
    ensures TargetOf(t, j) in ChainsAfter(t, j + 1)
            && ContinuedScore(t, front, j) <= ChainsAfter(t, j + 1)[TargetOf(t, j)].score
  {
    var target := TargetOf(t, j);
    if Offer(t, j).Some? {
      PathScoreIsMonotone(t.scoring.decay, t.scoring.clock(t.root, j), WalkChain(t, front).score,
                          ChainsAfter(t, j)[SourceOf(t, j)].score, t.ordered[j], t.ordered[j]);
    } else {
      var u :| EarlyWalk(t, u, target, j) && WalkChain(t, u).score >= ContinuedScore(t, front, j);
      ScoresOnlyRise(t, j, j + 1, target);
    }
  }

  lemma OptimalAtStart(t: RootTrace)
    ensures OptimalAt(t, 0)
  {
    forall target, via | EarlyWalk(t, via, target, 0)
      ensures target in ChainsAfter(t, 0) && WalkChain(t, via).score <= ChainsAfter(t, 0)[target].score
    {
      assert via == [];
    }
  }

  // ----- all steps -----

  ghost predicate AllTaken(t: RootTrace) {
    forall j: nat :: j < |t.ordered| && Takeable(t, j) ==> Offer(t, j).Some?
  }

  ghost predicate NoneOvertaken(t: RootTrace) {
    forall j: nat :: j < |t.ordered| && Takeable(t, j) ==> !Overtaken(t, j)
  }

  ghost predicate NothingLost(t: RootTrace) {
    forall j: nat :: j < |t.ordered| ==> !Lost(t, j)
  }

  lemma NotLostKeepsOptimal(t: RootTrace, j: nat)
    requires DepthOrdered(t) && j < |t.ordered| && OptimalUpTo(t, j) && !Lost(t, j)
    ensures OptimalAt(t, j + 1)
  {
    assert OptimalAt(t, j);
    if via :| Improves(t, via, j) {
      assert Continues(t, via, j);
      TakenIff(t, j);
    }
    StepKeepsOptimal(t, j);
  }

  /** While nothing is lost engrams hold their best walks. */
  lemma {:induction false} OptimalWhileNothingLost(t: RootTrace, n: nat)
    requires DepthOrdered(t) && n <= |t.ordered|
    requires forall j: nat :: j < n ==> !Lost(t, j)
    ensures OptimalUpTo(t, n)
  {
    if n == 0 {
      OptimalAtStart(t);
    } else {
      OptimalWhileNothingLost(t, n - 1);
      NotLostKeepsOptimal(t, n - 1);
    }
  }

  lemma {:induction false} OptimalWhileTaken(t: RootTrace, n: nat)
    requires DepthOrdered(t) && n <= |t.ordered|
    requires forall j: nat :: j < n && Takeable(t, j) ==> Offer(t, j).Some?
    ensures OptimalUpTo(t, n)
  {
    if n == 0 {
      OptimalAtStart(t);
    } else {
      OptimalWhileTaken(t, n - 1);
      StepKeepsOptimal(t, n - 1);
    }
  }

  /** Every step that continues a walk is taken exactly when none of them is overtaken. */
  lemma EveryStepTakenIff(t: RootTrace)
    requires SortedBy(CompareTraversalStep, t.ordered)
    ensures AllTaken(t) <==> NoneOvertaken(t)
  {
    SortedStepsAreDepthOrdered(t);
    if AllTaken(t) {
      OptimalWhileTaken(t, |t.ordered|);
    } else if NoneOvertaken(t) {
      OptimalWhileNothingLost(t, |t.ordered|);
    }
    forall j: nat | j < |t.ordered| && Takeable(t, j) && (AllTaken(t) || NoneOvertaken(t))
      ensures Offer(t, j).Some? <==> !Overtaken(t, j)
    {
      TakenIff(t, j);
    }
  }

  /** A step that is overtaken and would have improved its target leaves it with less than its best walk. */
  lemma LostMeansWorse(t: RootTrace, j: nat)
    requires j < |t.ordered| && OptimalUpTo(t, j) && Lost(t, j)
    ensures !OptimalAt(t, j + 1)
  {
    var via :| Improves(t, via, j);
    TakenIff(t, j);
    HeldIsWorse(t, j, via);
    WalkExtends(t, via, j);
    assert EarlyWalk(t, via + [j], TargetOf(t, j), j + 1);
  }

  lemma HeldIsWorse(t: RootTrace, j: nat, via: seq<nat>)
    requires j < |t.ordered| && Improves(t, via, j) && Offer(t, j).None?
    ensures ChainsAfter(t, j + 1) == ChainsAfter(t, j)
    ensures TargetOf(t, j) in ChainsAfter(t, j) ==> ChainsAfter(t, j)[TargetOf(t, j)].score < ContinuedScore(t, via, j)
  {
    if TargetOf(t, j) in ChainsAfter(t, j) {
      var u := HeldWalk(t, j, TargetOf(t, j));
      assert EarlyWalk(t, u, TargetOf(t, j), j);
    }
  }

  /**
   * After every step every engram is held with the score of its best walk, if and only if no step that would
   * improve its target is overtaken.
   */
  lemma RecallIsOptimalIff(t: RootTrace)
    requires SortedBy(CompareTraversalStep, t.ordered)
    ensures OptimalUpTo(t, |t.ordered|) <==> NothingLost(t)
  {
    SortedStepsAreDepthOrdered(t);
    if NothingLost(t) {
      OptimalWhileNothingLost(t, |t.ordered|);
    }
    if OptimalUpTo(t, |t.ordered|) {
      forall j: nat | j < |t.ordered|
        ensures !Lost(t, j)
      {
        if Lost(t, j) {
          LostMeansWorse(t, j);
        }
      }
    }
  }

  /** Where nothing is lost, what is recalled is what any walk reaches, with a best walk to it. */
  lemma RecallIsOptimal(t: RootTrace, target: Uuid)
    requires NothingLost(t) && SortedBy(CompareTraversalStep, t.ordered)
    ensures target in FinalChains(t) <==> exists via :: Walk(t, via, target)
    ensures forall via :: Walk(t, via, target) ==>
              target in FinalChains(t) && WalkChain(t, via).score <= FinalChains(t)[target].score
    ensures target in FinalChains(t) ==> exists via :: Walk(t, via, target) && WalkChain(t, via) == FinalChains(t)[target]
  {
    RecallIsOptimalIff(t);
    assert OptimalAt(t, |t.ordered|);
    forall via | Walk(t, via, target)
      ensures EarlyWalk(t, via, target, |t.ordered|)
    {
    }
    if target in FinalChains(t) {
      var via := ChainIsWalk(t, |t.ordered|, target);
    }
  }

  /** An engram that a walk reaches and recall misses was lost to an overtaken step. */
  lemma MissedMeansLost(t: RootTrace, via: seq<nat>, target: Uuid)
    requires SortedBy(CompareTraversalStep, t.ordered) && Walk(t, via, target) && target !in FinalChains(t)
    ensures !NothingLost(t) && !NoneOvertaken(t)
  {
    if NothingLost(t) {
      RecallIsOptimal(t, target);
    }
  }

  /**
   * No step arrives at an engram as deep as a step that leaves it: what arrives before the engram is used
   * arrives exactly one level above, and the root is left at depth 1 only.
   */
  ghost predicate SettledBeforeUse(t: RootTrace) {
    && (forall i :: 0 <= i < |t.ordered| && t.ordered[i].link.sourceEngramId == t.root ==> t.ordered[i].depth == 1)
    && (forall i, j :: 0 <= i < |t.ordered| && 0 <= j < |t.ordered|
                       && t.ordered[i].link.targetEngramId == t.ordered[j].link.sourceEngramId ==>
          t.ordered[i].depth == t.ordered[j].depth - 1 || t.ordered[i].depth > t.ordered[j].depth)
  }

  /** Links that settle before use overtake nothing. */
  lemma SettledIsNotOvertaken(t: RootTrace)
    requires SettledBeforeUse(t) && SortedBy(CompareTraversalStep, t.ordered)
    ensures NoneOvertaken(t) && NothingLost(t)
  {
    SortedStepsAreDepthOrdered(t);
    forall j: nat, w | j < |t.ordered|
      ensures !OvertakenBy(t, w, j)
    {
    }
  }

  // ----- breadth-first traversals -----

  /** The trace of one root over a traversal of the repository. */
  ghost function TraceOf(scoring: Scoring, root: Uuid, seedScore: real, steps: seq<TraversalStep>): RootTrace {
    RootTrace(scoring, root, seedScore, StableSort(CompareTraversalStep, steps))
  }

  /** A step that arrives at an engram of the level it leaves. */
  ghost predicate SiblingStep(levels: map<Uuid, nat>, step: TraversalStep)
    requires StepIsLevelled(levels, step)
  {
    levels[step.link.sourceEngramId] == levels[step.link.targetEngramId]
  }

  /**
   * On a breadth-first traversal only a link between engrams of one level overtakes: the overtaking walk is one
   * link longer than the walks it overtakes, and that link is its last.
   */
  lemma OnlySiblingsOvertake(t: RootTrace, levels: map<Uuid, nat>, depth: nat, j: nat, w: seq<nat>)
    requires Levelled(t.root, levels, t.ordered, depth) && DepthOrdered(t)
    requires j < |t.ordered| && OvertakenBy(t, w, j)
    ensures |w| == t.ordered[j].depth
    ensures StepIsLevelled(levels, t.ordered[w[|w| - 1]]) && SiblingStep(levels, t.ordered[w[|w| - 1]])
    ensures TargetOf(t, w[|w| - 1]) == SourceOf(t, j)
  {
    assert StepIsLevelled(levels, t.ordered[j]);
    if w != [] {
      assert StepIsLevelled(levels, t.ordered[w[|w| - 1]]);
    }
  }

  /** A traversal on which no link arrives as deep as a link that leaves its target loses nothing. */
  lemma TraversalWithoutSiblingsIsOptimal(scoring: Scoring, neighbors: Neighbors, root: Uuid, seedScore: real,
                                          maxDepth: int, maxNeighbors: int)
    requires FaithfulNeighbors(neighbors) && Traversed(neighbors, root, maxDepth, maxNeighbors).Ok?
    requires var steps := Traversed(neighbors, root, maxDepth, maxNeighbors).value;
             forall r, s :: r in steps && s in steps && r.link.targetEngramId == s.link.sourceEngramId ==>
               r.depth != s.depth
    ensures var t := TraceOf(scoring, root, seedScore, Traversed(neighbors, root, maxDepth, maxNeighbors).value);
            NoneOvertaken(t) && NothingLost(t)
  {
    var steps := Traversed(neighbors, root, maxDepth, maxNeighbors).value;
    var t := TraceOf(scoring, root, seedScore, steps);
    var levels := TraversalIsLevelled(neighbors, root, maxDepth, maxNeighbors);
    StepOrder();
    SortSorts(CompareTraversalStep, steps);
    SortPermutes(CompareTraversalStep, steps);
    SortedStepsAreDepthOrdered(t);
    assert forall j :: 0 <= j < |t.ordered| ==> t.ordered[j] in steps;
    forall j: nat, w | j < |t.ordered|
      ensures !OvertakenBy(t, w, j)
    {
      if OvertakenBy(t, w, j) {
        OnlySiblingsOvertake(t, levels, NormalizedDepth(maxDepth), j, w);
      }
    }
  }

  /** At the default depth, where links do not join an engram to itself, every traversal is recalled optimally. */
  lemma DefaultDepthIsOptimal(scoring: Scoring, neighbors: Neighbors, root: Uuid, seedScore: real, maxNeighbors: int)
    requires FaithfulNeighbors(neighbors) && Traversed(neighbors, root, 1, maxNeighbors).Ok?
    requires forall s :: s in Traversed(neighbors, root, 1, maxNeighbors).value ==>
               s.link.sourceEngramId != s.link.targetEngramId
    ensures NothingLost(TraceOf(scoring, root, seedScore, Traversed(neighbors, root, 1, maxNeighbors).value))
  {
    var steps := Traversed(neighbors, root, 1, maxNeighbors).value;
    var levels := TraversalIsLevelled(neighbors, root, 1, maxNeighbors);
    forall r, s | r in steps && s in steps && r.link.targetEngramId == s.link.sourceEngramId
      ensures r.depth != s.depth
    {
      assert StepIsLevelled(levels, r) && StepIsLevelled(levels, s);
    }
    TraversalWithoutSiblingsIsOptimal(scoring, neighbors, root, seedScore, 1, maxNeighbors);
  }

  // ----- a traversal that loses an engram -----

  function UniformLink(id: Uuid, source: Uuid, target: Uuid, strength: real): EngramLink {
    EngramLink(id, source, target, "supports", strength, strength, strength, None, 0)
  }

  /** Root 1 links to 3 strongly and to 2 weakly; 3 links to 2; 2 links to 4. */
  function SiblingTrace(scoring: Scoring): RootTrace {
    RootTrace(scoring, 1, 0.0, [
                TraversalStep(1, UniformLink(11, 1, 3, 1.0)), TraversalStep(1, UniformLink(12, 1, 2, 0.0)),
                TraversalStep(2, UniformLink(13, 3, 2, 1.0)), TraversalStep(2, UniformLink(14, 2, 4, 0.5))])
  }

  lemma UniformScore(decay: Decay, now: Time, source: real, depth: int, id: Uuid, from: Uuid, to: Uuid, strength: real)
    requires depth >= 1
    ensures ScoreTracePath(decay, now, source, TraversalStep(depth, UniformLink(id, from, to, strength)))
         == Clamp(0.42 * source + 0.48 * Clamp(0.55 * strength + 0.30 * Clamp(strength, 0.0, 1.0) + 0.075, 0.0, 1.0)
                  + 0.10 * (1.0 / depth as real), 0.0, 1.0)
  {
  }

  lemma SiblingFirstLevel(scoring: Scoring)
    ensures var c := ChainsAfter(SiblingTrace(scoring), 2);
            c.Keys == {1, 2, 3} && c[3].depth == 1 && c[3].score > 0.5 && c[2].score < 0.2
  {
    var t := SiblingTrace(scoring);
    UniformScore(scoring.decay, scoring.clock(1, 0), 0.0, 1, 11, 1, 3, 1.0);
    UniformScore(scoring.decay, scoring.clock(1, 1), 0.0, 1, 12, 1, 2, 0.0);
    var c0, c1 := ChainsAfter(t, 0), ChainsAfter(t, 1);
    assert c0 == map[1 := InitialChain(1, 0.0)];
    assert c1 == PromoteTraceChain(scoring.decay, scoring.clock(1, 0), c0, t.ordered[0]);
    assert c1.Keys == {1, 3} && c1[1] == InitialChain(1, 0.0);
  }

  lemma SiblingSecondLevel(scoring: Scoring)
    ensures var c := FinalChains(SiblingTrace(scoring)); c.Keys == {1, 2, 3} && c[2].depth == 2
  {
    var t := SiblingTrace(scoring);
    SiblingFirstLevel(scoring);
    var c2, c3 := ChainsAfter(t, 2), ChainsAfter(t, 3);
    UniformScore(scoring.decay, scoring.clock(1, 2), c2[3].score, 2, 13, 3, 2, 1.0);
    assert c3 == PromoteTraceChain(scoring.decay, scoring.clock(1, 2), c2, t.ordered[2]);
    assert c3.Keys == {1, 2, 3} && c3[2].depth == 2;
    assert FinalChains(t) == ChainsAfter(t, 4) == c3;
  }

  /** A repository of the four links. */
  function SiblingNeighbors(scoring: Scoring): Neighbors {
    (sources: seq<Uuid>, limit: int) =>
      var steps := SiblingTrace(scoring).ordered;
      if sources == [1] then Ok([steps[0].link, steps[1].link])
      else if sources == [3, 2] then Ok([steps[2].link, steps[3].link])
      else Ok([])
  }

  /** The trace is what a traversal of that repository returns. */
  lemma {:induction false} SiblingTraceIsTraversed(scoring: Scoring)
    ensures FaithfulNeighbors(SiblingNeighbors(scoring))
    ensures Traversed(SiblingNeighbors(scoring), 1, 2, 24) == Ok(SiblingTrace(scoring).ordered)
  {
    var neighbors, steps := SiblingNeighbors(scoring), SiblingTrace(scoring).ordered;
    var v1 := VisitLink(VisitLink(Start(1).(frontier := []), 1, steps[0].link), 1, steps[1].link);
    TwoLinks(Start(1).(frontier := []), 1, steps[0].link, steps[1].link);
    assert v1.frontier == [3, 2] && v1.levels.Keys == {1, 2, 3} && v1.steps == steps[..2];
    assert VisitLevels(neighbors, 24, 1, 0) == Ok(Start(1));
    assert VisitLevels(neighbors, 24, 1, 1) == Ok(v1);
    TwoLinks(v1.(frontier := []), 2, steps[2].link, steps[3].link);
    assert VisitLevels(neighbors, 24, 1, 2).value.steps == steps;
  }

  lemma TwoLinks(v: Visit, depth: nat, a: EngramLink, b: EngramLink)
    ensures VisitLinks(v, depth, [a, b]) == VisitLink(VisitLink(v, depth, a), depth, b)
  {
    assert [a, b][..1] == [a] && [a][..0] == [];
    assert VisitLinks(v, depth, [a]) == VisitLink(v, depth, a);
  }

  /**
   * A strong link between two neighbours of the root replaces the shorter chain of one of them before its own
   * link is taken, and the engram behind that link is lost although a walk leads to it.
   */
  lemma SiblingLinkHidesWalk(scoring: Scoring)
    ensures var t := SiblingTrace(scoring);
            SortedBy(CompareTraversalStep, t.ordered) && Walk(t, [1, 3], 4)
            && 4 !in FinalChains(t) && !NothingLost(t) && !NoneOvertaken(t)
  {
    var t := SiblingTrace(scoring);
    SiblingSecondLevel(scoring);
    assert Walk(t, [1, 3], 4);
    MissedMeansLost(t, [1, 3], 4);
  }
}
