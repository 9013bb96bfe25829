/**
 * Breadth-first traversal of the links from one root: every level asks for the links that leave the engrams first
 * reached on the level before, and every link becomes one step at most.
 */
module LinkTraversal {
  import opened Results
  import opened Uuids
  import opened LinkTemporal
  import opened TraceChains

  const DEFAULT_NEIGHBORS := 30
  const MAX_TRAVERSAL_DEPTH := 6

  /** The links a repository lists for some sources, at most so many. */
  type Neighbors = (seq<Uuid>, int) -> Result<seq<EngramLink>>

  /** Every listed link leaves one of the sources asked for. */
  ghost predicate FaithfulNeighbors(neighbors: Neighbors) {
    forall sources, limit :: neighbors(sources, limit).Ok? ==>
      forall link :: link in neighbors(sources, limit).value ==> link.sourceEngramId in sources
  }

  function NormalizedDepth(maxDepth: int): (depth: nat)
    ensures 1 <= depth <= MAX_TRAVERSAL_DEPTH
    ensures 1 <= maxDepth <= 6 ==> depth == maxDepth
    ensures maxDepth < 1 ==> depth == 1
    ensures maxDepth > 6 ==> depth == 6
  {
    if maxDepth <= 0 then 1 else if maxDepth > MAX_TRAVERSAL_DEPTH then MAX_TRAVERSAL_DEPTH else maxDepth
  }

  function NormalizedLimit(maxNeighbors: int): (limit: int)
    ensures maxNeighbors >= 1 ==> limit == maxNeighbors
    ensures maxNeighbors < 1 ==> limit == 30
  {
    if maxNeighbors <= 0 then DEFAULT_NEIGHBORS else maxNeighbors
  }

  /** What a traversal has visited, the engrams with their levels, and the engrams first reached on the last level. */
  datatype Visit = Visit(levels: map<Uuid, nat>, seen: set<Uuid>, steps: seq<TraversalStep>, frontier: seq<Uuid>)

  function Start(root: Uuid): Visit {
    Visit(map[root := 0], {}, [], [root])
  }

  function VisitLink(v: Visit, depth: nat, link: EngramLink): Visit {
    if link.linkId in v.seen then v
    else
      var noted := v.(seen := v.seen + {link.linkId}, steps := v.steps + [TraversalStep(depth, link)]);
      if link.targetEngramId in v.levels then noted
      else noted.(levels := v.levels[link.targetEngramId := depth], frontier := v.frontier + [link.targetEngramId])
  }

  function VisitLinks(v: Visit, depth: nat, links: seq<EngramLink>): Visit {
    if links == [] then v
    else VisitLink(VisitLinks(v, depth, links[..|links| - 1]), depth, links[|links| - 1])
  }

  /** One more level; an empty frontier has none. */
  function NextLevel(neighbors: Neighbors, limit: int, v: Visit, depth: nat): Result<Visit> {
    if v.frontier == [] then Ok(v)
    else
      match neighbors(v.frontier, limit)
      case Err(error) => Err(error)
      case Ok(links) => Ok(VisitLinks(v.(frontier := []), depth, links))
  }

  function VisitLevels(neighbors: Neighbors, limit: int, root: Uuid, depth: nat): Result<Visit> {
    if depth == 0 then Ok(Start(root))
    else
      match VisitLevels(neighbors, limit, root, depth - 1)
      case Err(error) => Err(error)
      case Ok(v) => NextLevel(neighbors, limit, v, depth)
  }

  function Traversed(neighbors: Neighbors, root: Uuid, maxDepth: int, maxNeighbors: int): Result<seq<TraversalStep>> {
    match VisitLevels(neighbors, NormalizedLimit(maxNeighbors), root, NormalizedDepth(maxDepth))
    case Err(error) => Err(error)
    case Ok(v) => Ok(v.steps)
  }

  /** The traversal a chat context is given, over a repository of links. */
  function TraversalOver(neighbors: Neighbors): (Uuid, int, int) -> Result<seq<TraversalStep>> {
    (root: Uuid, depth: int, limit: int) => Traversed(neighbors, root, depth, limit)
  }

  // ----- the loops -----

  class TraversalState {
    var visited: set<Uuid>
    var seen: set<Uuid>
    var steps: seq<TraversalStep>
    ghost var levels: map<Uuid, nat>

    ghost predicate Valid()
      reads this
    {
      visited == levels.Keys
    }

    constructor (root: Uuid)
      ensures Valid() && Visit(levels, seen, steps, [root]) == Start(root)
    {
      visited, seen, steps := {root}, {}, [];
      levels := map[root := 0];
    }

    /** Records the unseen links of a level and returns the engrams they reach for the first time. */
    method CollectNextFrontier(depth: nat, links: seq<EngramLink>) returns (next: seq<Uuid>)
      requires Valid()
      modifies this
      ensures Valid()
      ensures Visit(levels, seen, steps, next)
           == VisitLinks(Visit(old(levels), old(seen), old(steps), []), depth, links)
    {
      next := [];
      ghost var start := Visit(levels, seen, steps, []);
      for i := 0 to |links|
        invariant Valid()
        invariant Visit(levels, seen, steps, next) == VisitLinks(start, depth, links[..i])
      {
        assert links[..i + 1][..i] == links[..i];
        var link := links[i];
        if link.linkId in seen {
          continue;
        }
        seen := seen + {link.linkId};
        steps := steps + [TraversalStep(depth, link)];
        if link.targetEngramId in visited {
          continue;
        }
        visited := visited + {link.targetEngramId};
        levels := levels[link.targetEngramId := depth];
        next := next + [link.targetEngramId];
      }
      assert links[..|links|] == links;
    }
  }

  method TraverseEngramLinks(neighbors: Neighbors, root: Uuid, maxDepth: int, maxNeighbors: int)
    returns (r: Result<seq<TraversalStep>>)
    ensures r == Traversed(neighbors, root, maxDepth, maxNeighbors)
  {
    var depthLimit, limit := NormalizedDepth(maxDepth), NormalizedLimit(maxNeighbors);
    var state := new TraversalState(root);
    var frontier := [root];
    var depth := 1;
    while depth <= depthLimit && |frontier| > 0
      invariant 1 <= depth <= depthLimit + 1 && state.Valid()
      invariant VisitLevels(neighbors, limit, root, depth - 1)
             == Ok(Visit(state.levels, state.seen, state.steps, frontier))
      decreases depthLimit + 1 - depth
    {
      var links := neighbors(frontier, limit);
      if links.Err? {
        ErrorStays(neighbors, limit, root, depth, depthLimit);
        return Err(links.error);
      }
      frontier := state.CollectNextFrontier(depth, links.value);
      depth := depth + 1;
    }
    if depth <= depthLimit {
      NothingFurther(neighbors, limit, root, depth - 1, depthLimit);
    }
    r := Ok(state.steps);
  }

  lemma {:induction false} ErrorStays(neighbors: Neighbors, limit: int, root: Uuid, m: nat, n: nat)
    requires m <= n && VisitLevels(neighbors, limit, root, m).Err?
    ensures VisitLevels(neighbors, limit, root, n) == VisitLevels(neighbors, limit, root, m)
    decreases n
  {
    if m < n {
      ErrorStays(neighbors, limit, root, m, n - 1);
    }
  }

  /** A traversal fails with the error of the first level whose listing fails, and only then. */
  lemma {:induction false} TraversalFailsAt(neighbors: Neighbors, root: Uuid, maxDepth: int, maxNeighbors: int, depth: nat)
    requires 1 <= depth <= NormalizedDepth(maxDepth)
    requires VisitLevels(neighbors, NormalizedLimit(maxNeighbors), root, depth - 1).Ok?
    requires var frontier := VisitLevels(neighbors, NormalizedLimit(maxNeighbors), root, depth - 1).value.frontier;
             frontier != [] && neighbors(frontier, NormalizedLimit(maxNeighbors)).Err?
    ensures var frontier := VisitLevels(neighbors, NormalizedLimit(maxNeighbors), root, depth - 1).value.frontier;
            Traversed(neighbors, root, maxDepth, maxNeighbors)
            == Err(neighbors(frontier, NormalizedLimit(maxNeighbors)).error)
  {
    ErrorStays(neighbors, NormalizedLimit(maxNeighbors), root, depth, NormalizedDepth(maxDepth));
  }

  lemma {:induction false} NothingFurther(neighbors: Neighbors, limit: int, root: Uuid, m: nat, n: nat)
    requires m <= n && VisitLevels(neighbors, limit, root, m).Ok?
    requires VisitLevels(neighbors, limit, root, m).value.frontier == []
    ensures VisitLevels(neighbors, limit, root, n) == VisitLevels(neighbors, limit, root, m)
    decreases n
  {
    if m < n {
      NothingFurther(neighbors, limit, root, m, n - 1);
    }
  }

  // ----- levels -----

  /** The step leaves an engram one level above its depth and arrives no deeper than its depth. */
  ghost predicate StepIsLevelled(levels: map<Uuid, nat>, step: TraversalStep) {
    && step.link.sourceEngramId in levels && step.link.targetEngramId in levels
    && step.depth == levels[step.link.sourceEngramId] + 1
    && levels[step.link.targetEngramId] <= step.depth
  }

  /** The root alone has level 0, and every step fits the levels and the depth. */
  ghost predicate Levelled(root: Uuid, levels: map<Uuid, nat>, steps: seq<TraversalStep>, depth: nat) {
    && (forall id :: id in levels ==> (levels[id] == 0 <==> id == root))
    && root in levels
    && (forall s :: s in steps ==> StepIsLevelled(levels, s) && s.depth <= depth)
  }

  ghost predicate FrontierAt(v: Visit, depth: nat) {
    forall id :: id in v.frontier ==> id in v.levels && v.levels[id] == depth
  }

  /** Links that leave the level before keep the levels of everything visited. */
  lemma {:induction false} LevelKeepsLevels(root: Uuid, v: Visit, depth: nat, links: seq<EngramLink>)
    requires depth >= 1 && Levelled(root, v.levels, v.steps, depth) && v.frontier == []
    requires forall id :: id in v.levels ==> v.levels[id] < depth
    requires forall link :: link in links ==>
               link.sourceEngramId in v.levels && v.levels[link.sourceEngramId] == depth - 1
    ensures var w := VisitLinks(v, depth, links);
            && Levelled(root, w.levels, w.steps, depth) && FrontierAt(w, depth)
            && (forall id :: id in v.levels ==> id in w.levels && w.levels[id] == v.levels[id])
            && (forall id :: id in w.levels ==> w.levels[id] <= depth)
  {
    if links != [] {
      var n := |links| - 1;
      LevelKeepsLevels(root, v, depth, links[..n]);
      assert links[n] in links;
      LinkKeepsLevels(root, VisitLinks(v, depth, links[..n]), depth, links[n]);
    }
  }

  lemma LinkKeepsLevels(root: Uuid, v: Visit, depth: nat, link: EngramLink)
    requires depth >= 1 && Levelled(root, v.levels, v.steps, depth) && FrontierAt(v, depth)
    requires forall id :: id in v.levels ==> v.levels[id] <= depth
    requires link.sourceEngramId in v.levels && v.levels[link.sourceEngramId] == depth - 1
    ensures var w := VisitLink(v, depth, link);
            && Levelled(root, w.levels, w.steps, depth) && FrontierAt(w, depth)
            && (forall id :: id in v.levels ==> id in w.levels && w.levels[id] == v.levels[id])
            && (forall id :: id in w.levels ==> w.levels[id] <= depth)
  {
    var w := VisitLink(v, depth, link);
    forall s | s in w.steps
      ensures StepIsLevelled(w.levels, s) && s.depth <= depth
    {
      if s in v.steps {
        assert StepIsLevelled(v.levels, s);
      }
    }
  }

  lemma {:induction false} VisitIsLevelled(neighbors: Neighbors, limit: int, root: Uuid, depth: nat)
    requires FaithfulNeighbors(neighbors) && VisitLevels(neighbors, limit, root, depth).Ok?
    ensures var v := VisitLevels(neighbors, limit, root, depth).value;
            && Levelled(root, v.levels, v.steps, depth) && FrontierAt(v, depth)
            && (forall id :: id in v.levels ==> v.levels[id] <= depth)
  {
    if depth > 0 {
      VisitIsLevelled(neighbors, limit, root, depth - 1);
      var v := VisitLevels(neighbors, limit, root, depth - 1).value;
      if v.frontier != [] {
        LevelKeepsLevels(root, v.(frontier := []), depth, neighbors(v.frontier, limit).value);
      }
    }
  }

  /** Every traversal is breadth-first: its steps fit levels, and none is deeper than the depth asked for. */
  lemma TraversalIsLevelled(neighbors: Neighbors, root: Uuid, maxDepth: int, maxNeighbors: int)
    returns (levels: map<Uuid, nat>)
    requires FaithfulNeighbors(neighbors) && Traversed(neighbors, root, maxDepth, maxNeighbors).Ok?
    ensures Levelled(root, levels, Traversed(neighbors, root, maxDepth, maxNeighbors).value, NormalizedDepth(maxDepth))
  {
    VisitIsLevelled(neighbors, NormalizedLimit(maxNeighbors), root, NormalizedDepth(maxDepth));
    levels := VisitLevels(neighbors, NormalizedLimit(maxNeighbors), root, NormalizedDepth(maxDepth)).value.levels;
  }

  /** The ids of the links a traversal has stepped over. */
  ghost predicate StepsAreSeenOnce(v: Visit) {
    && (forall id :: id in v.seen <==> exists i :: 0 <= i < |v.steps| && v.steps[i].link.linkId == id)
    && (forall i, j :: 0 <= i < j < |v.steps| ==> v.steps[i].link.linkId != v.steps[j].link.linkId)
  }

  lemma LinkStepsOnce(v: Visit, depth: nat, link: EngramLink)
    requires StepsAreSeenOnce(v)
    ensures StepsAreSeenOnce(VisitLink(v, depth, link))
  {
    if link.linkId !in v.seen {
      var w := VisitLink(v, depth, link);
      var n := |v.steps|;
      forall id
        ensures id in w.seen <==> exists i :: 0 <= i < |w.steps| && w.steps[i].link.linkId == id
      {
        if id in v.seen {
          var i :| 0 <= i < n && v.steps[i].link.linkId == id;
          assert w.steps[i].link.linkId == id;
        }
        assert w.steps[n].link.linkId == link.linkId;
      }
    }
  }

  lemma {:induction false} LinksStepOnce(v: Visit, depth: nat, links: seq<EngramLink>)
    requires StepsAreSeenOnce(v)
    ensures StepsAreSeenOnce(VisitLinks(v, depth, links))
  {
    if links != [] {
      LinksStepOnce(v, depth, links[..|links| - 1]);
      LinkStepsOnce(VisitLinks(v, depth, links[..|links| - 1]), depth, links[|links| - 1]);
    }
  }

  lemma {:induction false} VisitStepsOnce(neighbors: Neighbors, limit: int, root: Uuid, depth: nat)
    requires VisitLevels(neighbors, limit, root, depth).Ok?
    ensures StepsAreSeenOnce(VisitLevels(neighbors, limit, root, depth).value)
  {
    if depth > 0 {
      VisitStepsOnce(neighbors, limit, root, depth - 1);
      var v := VisitLevels(neighbors, limit, root, depth - 1).value;
      if v.frontier != [] {
        LinksStepOnce(v.(frontier := []), depth, neighbors(v.frontier, limit).value);
      }
    }
  }

  /** No link is stepped over twice. */
  lemma TraversalStepsOnce(neighbors: Neighbors, root: Uuid, maxDepth: int, maxNeighbors: int)
    requires Traversed(neighbors, root, maxDepth, maxNeighbors).Ok?
    ensures var steps := Traversed(neighbors, root, maxDepth, maxNeighbors).value;
            && (forall i, j :: 0 <= i < j < |steps| ==> steps[i].link.linkId != steps[j].link.linkId)
            && (forall r, s :: r in steps && s in steps && r.link.linkId == s.link.linkId ==> r == s)
  {
    VisitStepsOnce(neighbors, NormalizedLimit(maxNeighbors), root, NormalizedDepth(maxDepth));
    var steps := Traversed(neighbors, root, maxDepth, maxNeighbors).value;
    forall r, s | r in steps && s in steps && r.link.linkId == s.link.linkId
      ensures r == s
    {
      var k :| 0 <= k < |steps| && steps[k] == r;
      var l :| 0 <= l < |steps| && steps[l] == s;
    }
  }
}
