/** Completeness of the breadth-first traversal where no listing is cut: which links it steps over, and how deep. */
module LinkReach {
  import opened Results
  import opened Uuids
  import opened Ordering
  import opened LinkTemporal
  import opened TraceChains
  import opened LinkTraversal

  /** The repository lists every link that leaves one of the sources asked for, and nothing else. */
  ghost predicate ListsAll(neighbors: Neighbors, links: set<EngramLink>) {
    forall sources, limit ::
      neighbors(sources, limit).Ok?
      && forall link :: link in neighbors(sources, limit).value <==> link in links && link.sourceEngramId in sources
  }

  ghost predicate DistinctLinkIds(links: set<EngramLink>) {
    forall a, b :: a in links && b in links && a.linkId == b.linkId ==> a == b
  }

  /** The links that leave an engram of `sources`. */
  ghost function Leaving(links: set<EngramLink>, sources: set<Uuid>): set<EngramLink> {
    set link | link in links && link.sourceEngramId in sources
  }

  ghost function Arrived(links: set<EngramLink>): set<Uuid> {
    set link | link in links :: link.targetEngramId
  }

  /** The engrams that a walk of at most `n` links leads to. */
  ghost function Reach(links: set<EngramLink>, root: Uuid, n: nat): set<Uuid> {
    if n == 0 then {root} else Reach(links, root, n - 1) + Arrived(Leaving(links, Reach(links, root, n - 1)))
  }

  /** The engrams reached by `n` links and no fewer. */
  ghost function Ring(links: set<EngramLink>, root: Uuid, n: nat): set<Uuid> {
    if n == 0 then {root} else Reach(links, root, n) - Reach(links, root, n - 1)
  }

  /** The links from engrams that fewer than `n` links lead to. */
  ghost function Within(links: set<EngramLink>, root: Uuid, n: nat): set<EngramLink> {
    if n == 0 then {} else Leaving(links, Reach(links, root, n - 1))
  }

  /** Only the outermost engrams reach anything new. */
  lemma ReachGrowsByRing(links: set<EngramLink>, root: Uuid, n: nat)
    ensures Reach(links, root, n + 1) == Reach(links, root, n) + Arrived(Leaving(links, Ring(links, root, n)))
    ensures Within(links, root, n + 1) == Within(links, root, n) + Leaving(links, Ring(links, root, n))
    ensures Within(links, root, n) !! Leaving(links, Ring(links, root, n))
  {
    if n > 0 {
      assert Reach(links, root, n) == Reach(links, root, n - 1) + Ring(links, root, n);
      assert Arrived(Within(links, root, n)) <= Reach(links, root, n);
    }
  }

  // ----- one level -----

  ghost function Stepped(steps: seq<TraversalStep>): set<EngramLink> {
    set s | s in steps :: s.link
  }

  ghost function Ids(links: set<EngramLink>): set<Uuid> {
    set link | link in links :: link.linkId
  }

  /** What visiting `listed` links, none of them seen before, makes of a visit. */
  ghost predicate VisitsAll(v: Visit, w: Visit, depth: nat, listed: set<EngramLink>) {
    && w.seen == v.seen + Ids(listed)
    && Stepped(w.steps) == Stepped(v.steps) + listed
    && (forall s :: s in w.steps ==> s in v.steps || (s.depth == depth && s.link in listed))
    && w.levels.Keys == v.levels.Keys + Arrived(listed)
    && Elements(w.frontier) == Arrived(listed) - v.levels.Keys
  }

  lemma {:induction false} LevelVisitsAll(v: Visit, depth: nat, listed: seq<EngramLink>)
    requires DistinctLinkIds(Elements(listed)) && Ids(Elements(listed)) !! v.seen && v.frontier == []
    ensures VisitsAll(v, VisitLinks(v, depth, listed), depth, Elements(listed))
  {
    if listed != [] {
      var n := |listed| - 1;
      var front, last := listed[..n], listed[n];
      assert Elements(listed) == Elements(front) + {last} by {
        assert listed == front + [last];
      }
      LevelVisitsAll(v, depth, front);
      LinkIsVisited(v, VisitLinks(v, depth, front), depth, Elements(front), last);
    }
  }

  /** A link that was seen before in this level changes nothing; any other is stepped over. */
  lemma LinkIsVisited(v: Visit, u: Visit, depth: nat, before: set<EngramLink>, link: EngramLink)
    requires VisitsAll(v, u, depth, before) && link.linkId !in v.seen
    requires forall a :: a in before && a.linkId == link.linkId ==> a == link
    ensures VisitsAll(v, VisitLink(u, depth, link), depth, before + {link})
  {
    if link.linkId in u.seen {
      assert link in before;
      assert before + {link} == before;
    } else {
      NewLinkIsVisited(v, u, depth, before, link);
    }
  }

  lemma NewLinkIsVisited(v: Visit, u: Visit, depth: nat, before: set<EngramLink>, link: EngramLink)
    requires VisitsAll(v, u, depth, before) && link.linkId !in u.seen
    ensures VisitsAll(v, VisitLink(u, depth, link), depth, before + {link})
  {
    var w := VisitLink(u, depth, link);
    UnionParts(before, {link});
    OneLink(link);
    NewStep(u.steps, TraversalStep(depth, link));
    assert w.steps == u.steps + [TraversalStep(depth, link)];
    assert Stepped(w.steps) == Stepped(v.steps) + (before + {link});
    NewFrontier(v, u, depth, before, link);
  }

  lemma OneLink(link: EngramLink)
    ensures Ids({link}) == {link.linkId} && Arrived({link}) == {link.targetEngramId}
  {
  }

  lemma NewFrontier(v: Visit, u: Visit, depth: nat, before: set<EngramLink>, link: EngramLink)
    requires u.levels.Keys == v.levels.Keys + Arrived(before) && link.linkId !in u.seen
    requires Elements(u.frontier) == Arrived(before) - v.levels.Keys
    ensures var w := VisitLink(u, depth, link);
            && w.levels.Keys == u.levels.Keys + {link.targetEngramId}
            && Elements(w.frontier) == Arrived(before) + {link.targetEngramId} - v.levels.Keys
  {
    var w := VisitLink(u, depth, link);
    if link.targetEngramId !in u.levels {
      assert Elements(w.frontier) == Elements(u.frontier) + {link.targetEngramId};
    }
  }

  lemma UnionParts(a: set<EngramLink>, b: set<EngramLink>)
    ensures Ids(a + b) == Ids(a) + Ids(b) && Arrived(a + b) == Arrived(a) + Arrived(b)
  {
  }

  lemma NewStep(steps: seq<TraversalStep>, step: TraversalStep)
    ensures forall s :: s in steps + [step] <==> s in steps || s == step
    ensures Stepped(steps + [step]) == Stepped(steps) + {step.link}
  {
    assert step in steps + [step];
    assert forall s :: s in steps + [step] <==> s in steps || s == step;
  }

  // ----- all levels -----

  /** After `n` levels exactly what is within reach has been reached, and every link from what was closer stepped over. */
  ghost predicate VisitedWithin(links: set<EngramLink>, root: Uuid, n: nat, v: Visit) {
    && v.levels.Keys == Reach(links, root, n) && Elements(v.frontier) == Ring(links, root, n)
    && Stepped(v.steps) == Within(links, root, n) && v.seen == Ids(Within(links, root, n))
    && SteppedFromRings(links, root, v.steps)
  }

  /** Every step is as deep as the shortest walk that ends with its link. */
  ghost predicate SteppedFromRings(links: set<EngramLink>, root: Uuid, steps: seq<TraversalStep>) {
    forall s :: s in steps ==> s.depth >= 1 && s.link.sourceEngramId in Ring(links, root, s.depth - 1)
  }

  lemma NothingNewVisited(links: set<EngramLink>, root: Uuid, n: nat, v: Visit)
    requires VisitedWithin(links, root, n, v) && v.frontier == []
    ensures VisitedWithin(links, root, n + 1, v)
  {
    ReachGrowsByRing(links, root, n);
    assert Ring(links, root, n) == {} by {
      assert Elements(v.frontier) == {};
    }
    assert Leaving(links, Ring(links, root, n)) == {};
  }

  lemma RingIsVisited(links: set<EngramLink>, root: Uuid, n: nat, v: Visit, w: Visit)
    requires VisitedWithin(links, root, n, v)
    requires VisitsAll(v.(frontier := []), w, n + 1, Leaving(links, Ring(links, root, n)))
    ensures VisitedWithin(links, root, n + 1, w)
  {
    var listed := Leaving(links, Ring(links, root, n));
    ReachGrowsByRing(links, root, n);
    UnionParts(Within(links, root, n), listed);
    assert Ring(links, root, n + 1) == Arrived(listed) - Reach(links, root, n);
    assert SteppedFromRings(links, root, w.steps) by {
      NewStepsFromRing(links, root, n, v.steps, w.steps);
    }
  }

  lemma NewStepsFromRing(links: set<EngramLink>, root: Uuid, n: nat, before: seq<TraversalStep>,
                         after: seq<TraversalStep>)
    requires SteppedFromRings(links, root, before)
    requires forall s :: s in after ==>
               s in before || (s.depth == n + 1 && s.link in Leaving(links, Ring(links, root, n)))
    ensures SteppedFromRings(links, root, after)
  {
  }

  lemma NextLevelVisits(neighbors: Neighbors, links: set<EngramLink>, limit: int, root: Uuid, n: nat, v: Visit)
    requires ListsAll(neighbors, links) && DistinctLinkIds(links) && VisitedWithin(links, root, n, v)
    ensures NextLevel(neighbors, limit, v, n + 1).Ok?
    ensures VisitedWithin(links, root, n + 1, NextLevel(neighbors, limit, v, n + 1).value)
  {
    if v.frontier == [] {
      NothingNewVisited(links, root, n, v);
    } else {
      var ring, listed := Ring(links, root, n), neighbors(v.frontier, limit).value;
      assert Elements(listed) == Leaving(links, ring) by {
        assert forall id :: id in v.frontier <==> id in ring by {
          assert forall id :: id in v.frontier <==> id in Elements(v.frontier);
        }
      }
      ReachGrowsByRing(links, root, n);
      FreshIds(links, Within(links, root, n), Leaving(links, ring));
      LevelVisitsAll(v.(frontier := []), n + 1, listed);
      RingIsVisited(links, root, n, v, VisitLinks(v.(frontier := []), n + 1, listed));
    }
  }

  lemma FreshIds(links: set<EngramLink>, a: set<EngramLink>, b: set<EngramLink>)
    requires DistinctLinkIds(links) && a <= links && b <= links && a !! b
    ensures Ids(a) !! Ids(b) && DistinctLinkIds(b)
  {
    forall x, y | x in a && y in b
      ensures x.linkId != y.linkId
    {
      assert x in links && y in links && x != y;
    }
  }

  lemma {:induction false} LevelsVisit(neighbors: Neighbors, links: set<EngramLink>, limit: int, root: Uuid, n: nat)
    requires ListsAll(neighbors, links) && DistinctLinkIds(links)
    ensures VisitLevels(neighbors, limit, root, n).Ok?
    ensures VisitedWithin(links, root, n, VisitLevels(neighbors, limit, root, n).value)
  {
    if n > 0 {
      LevelsVisit(neighbors, links, limit, root, n - 1);
      NextLevelVisits(neighbors, links, limit, root, n - 1, VisitLevels(neighbors, limit, root, n - 1).value);
    } else {
      assert Elements([root]) == {root};
    }
  }

  lemma VisitIsComplete(links: set<EngramLink>, root: Uuid, n: nat, v: Visit, link: EngramLink)
    requires n >= 1 && VisitedWithin(links, root, n, v)
    ensures (exists s :: s in v.steps && s.link == link)
            <==> link in links && link.sourceEngramId in Reach(links, root, n - 1)
    ensures forall s :: s in v.steps ==> s.depth >= 1 && s.link.sourceEngramId in Ring(links, root, s.depth - 1)
  {
    assert link in Stepped(v.steps) <==> exists s :: s in v.steps && s.link == link;
  }

  /**
   * Where no listing is cut, a traversal steps over exactly the links that leave an engram closer to the root than its
   * depth, each as deep as the shortest walk through it is long.
   */
  lemma {:induction false} TraversalIsComplete(neighbors: Neighbors, links: set<EngramLink>, root: Uuid, maxDepth: int,
                                               maxNeighbors: int, link: EngramLink)
    requires ListsAll(neighbors, links) && DistinctLinkIds(links)
    ensures Traversed(neighbors, root, maxDepth, maxNeighbors).Ok?
    ensures var steps := Traversed(neighbors, root, maxDepth, maxNeighbors).value;
            && ((exists s :: s in steps && s.link == link)
                <==> link in links && link.sourceEngramId in Reach(links, root, NormalizedDepth(maxDepth) - 1))
            && (forall s :: s in steps ==> s.depth >= 1 && s.link.sourceEngramId in Ring(links, root, s.depth - 1))
  {
    var v := VisitLevels(neighbors, NormalizedLimit(maxNeighbors), root, NormalizedDepth(maxDepth));
    assert v.Ok? && VisitedWithin(links, root, NormalizedDepth(maxDepth), v.value) by {
      LevelsVisit(neighbors, links, NormalizedLimit(maxNeighbors), root, NormalizedDepth(maxDepth));
    }
    VisitIsComplete(links, root, NormalizedDepth(maxDepth), v.value, link);
  }
}
