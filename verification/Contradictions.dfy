/** Warnings for recalled trace paths that cross a "contradicts" link. */
module Contradictions {
  import opened Uuids
  import opened Ordering
  import opened TraceChains

  datatype Severity = High | Medium | Low

  datatype Warning = Warning(
    rootEngramId: Uuid,
    targetEngramId: Uuid,
    contradictingLinkIds: seq<Uuid>,
    severity: Severity,
    message: string)

  function SeverityOf(depth: int): Severity {
    if depth <= 1 then High else if depth == 2 then Medium else Low
  }

  function MessageOf(depth: int): string {
    match SeverityOf(depth)
    case High => "Direct contradiction detected in recalled memory context."
    case Medium => "Contradiction risk detected in linked memory context."
    case Low => "Possible contradiction detected in extended memory trace."
  }

  function SeverityRank(severity: Severity): int {
    match severity
    case High => 0
    case Medium => 1
    case Low => 2
  }

  function CompareWarning(left: Warning, right: Warning): int {
    if left.severity != right.severity then SeverityRank(left.severity) - SeverityRank(right.severity)
    else if left.rootEngramId != right.rootEngramId then CompareUuid(left.rootEngramId, right.rootEngramId)
    else CompareUuid(left.targetEngramId, right.targetEngramId)
  }

  predicate Conflicting(path: EngramTracePath) {
    path.hasContradiction && path.contradictingLinkIds != []
  }

  function WarningFor(path: EngramTracePath): Warning {
    Warning(path.rootEngramId, path.targetEngramId, path.contradictingLinkIds,
            SeverityOf(path.depth), MessageOf(path.depth))
  }

  /** `w` warns of `path`: the shorter the path the more severe. */
  ghost predicate Warns(path: EngramTracePath, w: Warning) {
    && w.rootEngramId == path.rootEngramId && w.targetEngramId == path.targetEngramId
    && w.contradictingLinkIds == path.contradictingLinkIds
    && (if path.depth <= 1 then
          w.severity == High && w.message == "Direct contradiction detected in recalled memory context."
        else if path.depth == 2 then
          w.severity == Medium && w.message == "Contradiction risk detected in linked memory context."
        else
          w.severity == Low && w.message == "Possible contradiction detected in extended memory trace.")
  }

  lemma WarningsWarn(path: EngramTracePath, w: Warning)
    ensures Warns(path, w) <==> w == WarningFor(path)
  {
  }

  /** One warning per conflicting path, in path order. */
  ghost function UnsortedWarnings(paths: seq<EngramTracePath>): seq<Warning> {
    if paths == [] then []
    else
      var last := paths[|paths| - 1];
      UnsortedWarnings(paths[..|paths| - 1]) + if Conflicting(last) then [WarningFor(last)] else []
  }

  ghost function WarningsFor(paths: seq<EngramTracePath>): seq<Warning> {
    StableSort(CompareWarning, UnsortedWarnings(paths))
  }

  method BuildContradictionWarnings(paths: seq<EngramTracePath>) returns (warnings: seq<Warning>)
    ensures warnings == WarningsFor(paths)
  {
    warnings := [];
    for i := 0 to |paths|
      invariant warnings == UnsortedWarnings(paths[..i])
    {
      assert paths[..i + 1][..i] == paths[..i];
      if !paths[i].hasContradiction || |paths[i].contradictingLinkIds| == 0 {
        continue;
      }
      warnings := warnings + [WarningFor(paths[i])];
    }
    assert paths[..|paths|] == paths;
    warnings := StableSort(CompareWarning, warnings);
  }

  lemma WarningOrder()
    ensures TotalPreorder(CompareWarning)
  {
  }

  ghost predicate DistinctWarningTargets(warnings: seq<Warning>) {
    forall i, j :: 0 <= i < j < |warnings| ==> warnings[i].targetEngramId != warnings[j].targetEngramId
  }

  lemma {:induction false} UnsortedWarningsMatch(paths: seq<EngramTracePath>)
    requires DistinctTargets(paths)
    ensures var warnings := UnsortedWarnings(paths);
            DistinctWarningTargets(warnings)
            && forall w :: w in warnings <==> exists p :: p in paths && Conflicting(p) && w == WarningFor(p)
  {
    if paths != [] {
      var n := |paths| - 1;
      UnsortedWarningsMatch(paths[..n]);
      assert forall p :: p in paths <==> p in paths[..n] || p == paths[n];
      var before := UnsortedWarnings(paths[..n]);
      forall i | 0 <= i < |before|
        ensures before[i].targetEngramId != paths[n].targetEngramId
      {
        assert before[i] in before;
        var p :| p in paths[..n] && Conflicting(p) && before[i] == WarningFor(p);
        var k :| 0 <= k < n && paths[k] == p;
      }
    }
  }

  lemma WarningSortKeepsTargets(unsorted: seq<Warning>)
    requires DistinctWarningTargets(unsorted)
    ensures var warnings := StableSort(CompareWarning, unsorted);
            DistinctWarningTargets(warnings) && forall w :: w in warnings <==> w in unsorted
  {
    var warnings := StableSort(CompareWarning, unsorted);
    SortPermutes(CompareWarning, unsorted);
    assert Distinct(unsorted);
    DistinctPermutes(unsorted, warnings);
    forall i, j | 0 <= i < j < |warnings|
      ensures warnings[i].targetEngramId != warnings[j].targetEngramId
    {
      assert warnings[i] in unsorted && warnings[j] in unsorted && warnings[i] != warnings[j];
    }
  }

  /** Exactly one warning for every path with a contradiction, and no other. */
  lemma WarningsMatchConflicts(paths: seq<EngramTracePath>)
    requires DistinctTargets(paths)
    ensures var warnings := WarningsFor(paths);
            && DistinctWarningTargets(warnings)
            && (forall w :: w in warnings <==>
                  exists p :: p in paths && p.hasContradiction && p.contradictingLinkIds != [] && Warns(p, w))
  {
    UnsortedWarningsMatch(paths);
    WarningSortKeepsTargets(UnsortedWarnings(paths));
    forall w
      ensures w in WarningsFor(paths) <==>
              exists p :: p in paths && p.hasContradiction && p.contradictingLinkIds != [] && Warns(p, w)
    {
      if w in WarningsFor(paths) {
        var p :| p in paths && Conflicting(p) && w == WarningFor(p);
        WarningsWarn(p, w);
      }
      if p :| p in paths && p.hasContradiction && p.contradictingLinkIds != [] && Warns(p, w) {
        WarningsWarn(p, w);
        assert Conflicting(p);
      }
    }
  }

  /** More severe warnings first, then smaller roots, then smaller targets. */
  ghost predicate WarnsBefore(a: Warning, b: Warning) {
    || (a.severity == High && b.severity != High)
    || (a.severity == Medium && b.severity == Low)
    || (a.severity == b.severity
        && (a.rootEngramId < b.rootEngramId
            || (a.rootEngramId == b.rootEngramId && a.targetEngramId < b.targetEngramId)))
  }

  lemma CompareWarningOrders(a: Warning, b: Warning)
    ensures CompareWarning(a, b) < 0 <==> WarnsBefore(a, b)
    ensures CompareWarning(a, b) == 0 ==> a.targetEngramId == b.targetEngramId
  {
  }

  /** Every warning comes before every later one. */
  lemma WarningsInOrder(paths: seq<EngramTracePath>)
    requires DistinctTargets(paths)
    ensures var warnings := WarningsFor(paths);
            forall i, j :: 0 <= i < j < |warnings| ==> WarnsBefore(warnings[i], warnings[j])
  {
    WarningOrder();
    SortSorts(CompareWarning, UnsortedWarnings(paths));
    WarningsMatchConflicts(paths);
    var warnings := WarningsFor(paths);
    forall i, j | 0 <= i < j < |warnings|
      ensures WarnsBefore(warnings[i], warnings[j])
    {
      assert CompareWarning(warnings[i], warnings[j]) <= 0;
      CompareWarningOrders(warnings[i], warnings[j]);
    }
  }
}
