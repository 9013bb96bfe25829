/** Scheduled link hygiene: which links are archived automatically, and how often a source engram is worked on. */
module LinkHygiene {
  import opened Results
  import opened Text
  import opened Times
  import opened Uuids
  import opened Ordering
  import opened KeyedRefresh
  import opened CurationStore
  import opened LinkCuration

  const DEFAULT_MAX_AUTO_ARCHIVE: nat := 12

  function AutoArchiveLimit(maxActions: int): (limit: nat)
    ensures limit >= 1
    ensures maxActions >= 1 ==> limit == maxActions
    ensures maxActions < 1 ==> limit == 12
  {
    if maxActions <= 0 then DEFAULT_MAX_AUTO_ARCHIVE else maxActions
  }

  /** The link a recommendation has archived, if any: its first, unless that is nil. */
  function ArchiveLink(r: Recommendation): Option<Uuid> {
    if !ShouldAutoArchive(r) || r.linkIds == [] || r.linkIds[0] == NIL then None else Some(r.linkIds[0])
  }

  function Present(links: seq<Option<Uuid>>): seq<Uuid> {
    if links == [] then []
    else
      var last := links[|links| - 1];
      var before := Present(links[..|links| - 1]);
      if last.Some? then before + [last.value] else before
  }

  function ArchiveLinks(recs: seq<Recommendation>): (links: seq<Option<Uuid>>)
    ensures |links| == |recs| && forall i :: 0 <= i < |recs| ==> links[i] == ArchiveLink(recs[i])
  {
    seq(|recs|, i requires 0 <= i < |recs| => ArchiveLink(recs[i]))
  }

  lemma {:induction false} PresentSplits(links: seq<Option<Uuid>>, i: nat) returns (rest: seq<Uuid>)
    requires i <= |links|
    ensures Present(links) == Present(links[..i]) + rest
  {
    if i == |links| {
      assert links[..i] == links;
      rest := [];
    } else {
      var n := |links| - 1;
      assert links[..n][..i] == links[..i];
      rest := PresentSplits(links[..n], i);
      if links[n].Some? {
        rest := rest + [links[n].value];
      }
    }
  }

  function Take<T>(xs: seq<T>, limit: nat): seq<T> {
    xs[..if limit < |xs| then limit else |xs|]
  }

  /** A list cut when the limit is reached is the beginning of the whole list. */
  lemma CutAtLimit(links: seq<Option<Uuid>>, i: nat, limit: nat)
    requires i <= |links| && |Deduped(Present(links[..i]))| == limit
    ensures Deduped(Present(links[..i])) == Take(Deduped(Present(links)), limit)
  {
    var rest := PresentSplits(links, i);
    DedupedAppend(Present(links[..i]), rest);
  }

  /** The first distinct archivable links, up to the limit. */
  function ArchivedLinks(recs: seq<Recommendation>, maxActions: int): seq<Uuid> {
    Take(Deduped(Present(ArchiveLinks(recs))), AutoArchiveLimit(maxActions))
  }

  /** The loop over the recommendations that archive a link: repeats are skipped until the limit is reached. */
  method SelectDistinct(links: seq<Option<Uuid>>, limit: nat) returns (selected: seq<Uuid>)
    requires limit > 0
    ensures selected == Take(Deduped(Present(links)), limit)
  {
    var seen: set<Uuid> := {};
    selected := [];
    for i := 0 to |links|
      invariant selected == Deduped(Present(links[..i])) && |selected| < limit
      invariant seen == Elements(Present(links[..i]))
    {
      assert links[..i + 1][..i] == links[..i];
      var link := links[i];
      if link.None? {
        continue;
      }
      DedupedSnoc(Present(links[..i]), link.value);
      if link.value in seen {
        continue;
      }
      seen := seen + {link.value};
      selected := selected + [link.value];
      if |selected| >= limit {
        CutAtLimit(links, i + 1, limit);
        return;
      }
    }
    assert links[..|links|] == links;
  }

  method SelectAutoArchiveLinkIds(recs: seq<Recommendation>, maxActions: int) returns (selected: seq<Uuid>)
    ensures selected == ArchivedLinks(recs, maxActions)
  {
    selected := SelectDistinct(ArchiveLinks(recs), AutoArchiveLimit(maxActions));
  }

  // ----- the run tracker -----

  type LastRuns = map<Uuid, Time>

  predicate DueAt(lastRuns: LastRuns, source: Uuid, now: Time, interval: nat) {
    source != NIL && (source !in lastRuns || now - lastRuns[source] >= interval)
  }

  class LinkHygieneRunTracker {
    var lastRuns: LastRuns

    constructor ()
      ensures lastRuns == map[]
    {
      lastRuns := map[];
    }

    method ShouldRun(source: Uuid, now: Time, interval: nat) returns (run: bool)
      ensures run <==> DueAt(lastRuns, source, now, interval)
    {
      if source == NIL {
        return false;
      }
      if source !in lastRuns {
        return true;
      }
      return now - lastRuns[source] >= interval;
    }

    method MarkRun(source: Uuid, now: Time)
      modifies this
      ensures lastRuns == if source == NIL then old(lastRuns) else old(lastRuns)[source := now]
    {
      if source == NIL {
        return;
      }
      lastRuns := lastRuns[source := now];
    }
  }

  /** One execution for a source: skipped when not due, and marked only when its work succeeds. */
  datatype Attempt = Attempt(source: Uuid, now: Time, succeeds: bool)

  function AfterAttempt(lastRuns: LastRuns, attempt: Attempt, interval: nat): LastRuns {
    if DueAt(lastRuns, attempt.source, attempt.now, interval) && attempt.succeeds
    then lastRuns[attempt.source := attempt.now] else lastRuns
  }

  function RunsAfter(attempts: seq<Attempt>, interval: nat): LastRuns {
    if attempts == [] then map[]
    else AfterAttempt(RunsAfter(attempts[..|attempts| - 1], interval), attempts[|attempts| - 1], interval)
  }

  ghost predicate Completed(attempts: seq<Attempt>, interval: nat, i: nat)
    requires i < |attempts|
  {
    DueAt(RunsAfter(attempts[..i], interval), attempts[i].source, attempts[i].now, interval) && attempts[i].succeeds
  }

  /** The tracker remembers a run at least as late as every completed one. */
  lemma {:induction false} LastRunIsLatest(attempts: seq<Attempt>, interval: nat, i: nat)
    requires i < |attempts| && Completed(attempts, interval, i)
    ensures var runs := RunsAfter(attempts, interval);
            attempts[i].source in runs && attempts[i].now <= runs[attempts[i].source]
  {
    var n := |attempts| - 1;
    if i < n {
      assert attempts[..n][..i] == attempts[..i];
      LastRunIsLatest(attempts[..n], interval, i);
    } else {
      assert attempts[..n] == attempts[..i];
    }
  }

  /** Two completed runs for one source are at least the interval apart, whatever was tried in between. */
  lemma CompletedRunsAreSpaced(attempts: seq<Attempt>, interval: nat, i: nat, j: nat)
    requires i < j < |attempts| && attempts[i].source == attempts[j].source
    requires Completed(attempts, interval, i) && Completed(attempts, interval, j)
    ensures attempts[j].now - attempts[i].now >= interval
  {
    assert attempts[..j][..i] == attempts[..i];
    LastRunIsLatest(attempts[..j], interval, i);
  }

  /** What the tracker remembers for a source is the time of a completed run. */
  lemma {:induction false} LastRunWasCompleted(attempts: seq<Attempt>, interval: nat, source: Uuid) returns (i: nat)
    requires source in RunsAfter(attempts, interval)
    ensures i < |attempts| && Completed(attempts, interval, i)
    ensures attempts[i].source == source && attempts[i].now == RunsAfter(attempts, interval)[source]
  {
    var n := |attempts| - 1;
    if Completed(attempts, interval, n) && attempts[n].source == source {
      i := n;
    } else {
      i := LastRunWasCompleted(attempts[..n], interval, source);
      assert attempts[..n][..i] == attempts[..i];
    }
  }

  /**
   * Over any attempts: one is completed exactly when its source is not nil, its work succeeds, and every completed run
   * for the source lies at least the interval back.
   */
  lemma CompletedIff(attempts: seq<Attempt>, interval: nat, j: nat)
    requires j < |attempts|
    ensures Completed(attempts, interval, j)
       <==> && attempts[j].source != 0 && attempts[j].succeeds
            && forall i: nat :: i < j && attempts[i].source == attempts[j].source && Completed(attempts, interval, i) ==>
                 attempts[j].now - attempts[i].now >= interval
  {
    var source, runs := attempts[j].source, RunsAfter(attempts[..j], interval);
    forall i: nat | i < j && attempts[i].source == source && Completed(attempts, interval, i)
                    && Completed(attempts, interval, j)
      ensures attempts[j].now - attempts[i].now >= interval
    {
      CompletedRunsAreSpaced(attempts, interval, i, j);
    }
    if source in runs {
      var i := LastRunWasCompleted(attempts[..j], interval, source);
      assert attempts[..j][..i] == attempts[..i];
      assert Completed(attempts, interval, i);
    }
  }

  // ----- one run -----

  /** The links archived so far. */
  class LinkArchive {
    var archived: seq<Uuid>

    constructor ()
      ensures archived == []
    {
      archived := [];
    }

    method Archive(link: Uuid) returns (ok: bool)
      modifies this
      ensures archived == if ok then old(archived) + [link] else old(archived)
    {
      ok := *;
      if ok {
        archived := archived + [link];
      }
    }
  }

  /** Archives the selected links until an archiving fails; `m` are archived. */
  method ArchiveRecommendedLinks(archive: LinkArchive, recs: seq<Recommendation>, maxActions: int)
    returns (ok: bool, ghost m: nat)
    modifies archive
    ensures m <= |ArchivedLinks(recs, maxActions)| && (ok ==> m == |ArchivedLinks(recs, maxActions)|)
    ensures archive.archived == old(archive.archived) + ArchivedLinks(recs, maxActions)[..m]
  {
    var selected := SelectAutoArchiveLinkIds(recs, maxActions);
    m := 0;
    for i := 0 to |selected|
      invariant m == i && archive.archived == old(archive.archived) + selected[..i]
    {
      ok := archive.Archive(selected[i]);
      if !ok {
        return;
      }
      m := i + 1;
    }
    ok := true;
  }

  /** Without a project nothing is suggested; otherwise the suggestions are those of a scheduled refresh. */
  method PersistLinkCurationSuggestions(table: SuggestionTable, project: Result<Option<string>>, source: Uuid,
                                        recs: seq<Recommendation>, now: Time)
    returns (ok: bool, ghost m: nat, ghost keys: set<string>)
    modifies table
    ensures m <= |recs| && (ok ==> project.Ok?)
    ensures project == Ok(None) ==> ok && table.suggestions == old(table.suggestions)
    ensures project.Ok? && project.value.Some? && ok ==>
              && m == |recs|
              && RefreshedUpTo(Scheduled, old(table.suggestions), table.suggestions,
                               RefreshScope(project.value.value, source, now), recs, keys, m)
    ensures !ok ==> table.suggestions == old(table.suggestions)
                    || (project.Ok? && project.value.Some?
                        && RefreshedUpTo(Scheduled, old(table.suggestions), table.suggestions,
                                         RefreshScope(project.value.value, source, now), recs, keys, m))
  {
    ok, m, keys := false, 0, {};
    if project.Err? {
      return;
    }
    if project.value.None? {
      ok := true;
      return;
    }
    var listed := ListSuggestedKeys(Scheduled, table, project.value.value);
    if listed.Err? {
      return;
    }
    keys := listed.value;
    ok, m := CreatePending(table, RefreshScope(project.value.value, source, now), recs, listed.value);
  }

  /**
   * One run for a source. A run that is not due does nothing. A run is completed, and marked, exactly when the links
   * selected are all archived and the suggestions all gone through; one that fails is not marked, and writes no
   * suggestion before every archiving has succeeded.
   */
  method ExecuteForSource(tracker: LinkHygieneRunTracker, archive: LinkArchive, table: SuggestionTable, source: Uuid,
                          now: Time, interval: nat, maxActions: int, recommended: Result<seq<Recommendation>>,
                          project: Result<Option<string>>)
    returns (completed: bool, ghost a: nat, ghost m: nat, ghost keys: set<string>)
    modifies tracker, archive, table
    ensures completed ==> DueAt(old(tracker.lastRuns), source, now, interval)
    ensures tracker.lastRuns == AfterAttempt(old(tracker.lastRuns), Attempt(source, now, completed), interval)
    ensures !DueAt(old(tracker.lastRuns), source, now, interval) || recommended.Err? ==>
              !completed && archive.archived == old(archive.archived) && table.suggestions == old(table.suggestions)
    ensures recommended.Ok? ==>
              && a <= |ArchivedLinks(recommended.value, maxActions)|
              && archive.archived == old(archive.archived) + ArchivedLinks(recommended.value, maxActions)[..a]
              && (completed || table.suggestions != old(table.suggestions) ==>
                    a == |ArchivedLinks(recommended.value, maxActions)|)
    ensures completed ==> project.Ok?
    ensures completed && project.value.None? ==> table.suggestions == old(table.suggestions)
    ensures completed && project.value.Some? ==>
              && m == |recommended.value|
              && RefreshedUpTo(Scheduled, old(table.suggestions), table.suggestions,
                               RefreshScope(project.value.value, source, now), recommended.value, keys, m)
  {
    completed, a, m, keys := false, 0, 0, {};
    var due := tracker.ShouldRun(source, now, interval);
    if !due || recommended.Err? {
      return;
    }
    var ok;
    ok, a := ArchiveRecommendedLinks(archive, recommended.value, maxActions);
    if !ok {
      return;
    }
    ok, m, keys := PersistLinkCurationSuggestions(table, project, source, recommended.value, now);
    if !ok {
      return;
    }
    tracker.MarkRun(source, now);
    completed := true;
  }

  // ----- the fate of every recommendation -----

  /** What a completed run makes of a recommendation. */
  datatype Fate = Archived | SuggestedNow | AlreadyKnown | Dropped

  ghost function FateOf(recs: seq<Recommendation>, i: nat, keys: set<string>, maxActions: int): Fate
    requires i < |recs|
  {
    var input := AdminInputs(RefreshScope("", 0, 0), recs)[i];
    if ShouldAutoArchive(recs[i]) then
      (if ArchiveLink(recs[i]).Some? && ArchiveLink(recs[i]).value in ArchivedLinks(recs, maxActions) then Archived
       else Dropped)
    else if input.None? then Dropped
    else if input.value.key in After(keys, AdminInputs(RefreshScope("", 0, 0), recs)[..i]).keys then AlreadyKnown
    else SuggestedNow
  }

  /** The suggestions of the recommendations so fated among the first `n`, in order. */
  ghost function SuggestedItems(scope: RefreshScope, recs: seq<Recommendation>, n: nat, keys: set<string>,
                                maxActions: int): seq<Suggestion>
    requires n <= |recs|
  {
    if n == 0 then []
    else
      SuggestedItems(scope, recs, n - 1, keys, maxActions)
      + if FateOf(recs, n - 1, keys, maxActions).SuggestedNow?
        then [SuggestionOf(scope, recs[n - 1], FirstNonNil(recs[n - 1].linkIds))] else []
  }

  /** A run writes exactly the suggestions of the recommendations with that fate, in order. */
  lemma {:induction false} WrittenAreSuggested(scope: RefreshScope, recs: seq<Recommendation>, n: nat,
                                               keys: set<string>, maxActions: int)
    requires n <= |recs|
    ensures var unscoped := AdminInputs(RefreshScope("", 0, 0), recs);
            After(keys, AdminInputs(scope, recs)[..n])
            == Progress(After(keys, unscoped[..n]).keys, SuggestedItems(scope, recs, n, keys, maxActions))
  {
    if n > 0 {
      var inputs, unscoped := AdminInputs(scope, recs), AdminInputs(RefreshScope("", 0, 0), recs);
      WrittenAreSuggested(scope, recs, n - 1, keys, maxActions);
      assert inputs[..n][..n - 1] == inputs[..n - 1] && unscoped[..n][..n - 1] == unscoped[..n - 1];
      FateIsWritten(scope, recs, n - 1, keys, maxActions);
    }
  }

  /** One step writes the suggestion of a recommendation with that fate, and nothing for any other. */
  lemma FateIsWritten(scope: RefreshScope, recs: seq<Recommendation>, i: nat, keys: set<string>, maxActions: int)
    requires i < |recs|
    ensures var unscoped := AdminInputs(RefreshScope("", 0, 0), recs);
            var p := After(keys, unscoped[..i]);
            forall created ::
              Step(Progress(p.keys, created), AdminInputs(scope, recs)[i])
              == Progress(Step(p, unscoped[i]).keys,
                          created + if FateOf(recs, i, keys, maxActions).SuggestedNow?
                                    then [SuggestionOf(scope, recs[i], FirstNonNil(recs[i].linkIds))] else [])
  {
    InputKeyFixed(scope, RefreshScope("", 0, 0), recs[i]);
    ArchivableHasNoInput(RefreshScope("", 0, 0), recs[i]);
    ArchivableHasNoInput(scope, recs[i]);
  }

  /** What is to be archived is suggested by neither copy; anything else is, unless all its links are nil. */
  lemma ArchivableHasNoInput(scope: RefreshScope, r: Recommendation)
    ensures ShouldAutoArchive(r) ==> AdminInput(scope, r).None? && ScheduledInput(scope, r).None?
    ensures !ShouldAutoArchive(r) ==> (AdminInput(scope, r).None? <==> FirstNonNil(r.linkIds) == NIL)
    ensures AdminInput(scope, r).Some? ==>
              AdminInput(scope, r).value.item == SuggestionOf(scope, r, FirstNonNil(r.linkIds))
  {
    InputsAgree(scope, r);
  }

  /** The distinct links among the first `n`. */
  ghost function Named(links: seq<Option<Uuid>>, n: nat): set<Uuid>
    requires n <= |links|
  {
    Elements(Present(links[..n]))
  }

  /** A link is within the limit exactly when fewer distinct links than the limit come before it. */
  lemma WithinLimitIff(links: seq<Option<Uuid>>, j: nat, link: Uuid, limit: nat)
    requires j < |links| && links[j] == Some(link) && link !in Named(links, j)
    ensures link in Take(Deduped(Present(links)), limit) <==> |Named(links, j)| < limit
  {
    var before, after := Present(links[..j]), Present(links[..j + 1]);
    assert links[..j + 1][..j] == links[..j] && after == before + [link];
    DedupedProperties(before);
    DistinctSize(Deduped(before));
    assert Elements(Deduped(before)) == Elements(before);
    DedupedSnoc(before, link);
    var rest := PresentSplits(links, j + 1);
    DedupedAppend(after, rest);
    DedupedProperties(Present(links));
    PlaceOfLink(Deduped(Present(links)), |Deduped(before)|, link, limit);
  }

  lemma PlaceOfLink(all: seq<Uuid>, n: nat, link: Uuid, limit: nat)
    requires Distinct(all) && n < |all| && all[n] == link
    ensures link in Take(all, limit) <==> n < limit
  {
  }

  /** The distinct archivable links named by the first `n` recommendations. */
  ghost function LinksNamed(recs: seq<Recommendation>, n: nat): set<Uuid>
    requires n <= |recs|
  {
    Named(ArchiveLinks(recs), n)
  }

  /** Recommendation `j` is the first to name the link for archiving. */
  ghost predicate FirstToName(recs: seq<Recommendation>, j: nat, link: Uuid) {
    && j < |recs| && ArchiveLinks(recs)[j] == Some(link)
    && link !in LinksNamed(recs, j)
  }

  /** A link is archived exactly when fewer distinct links than the limit were named before it. */
  lemma ArchivedIff(recs: seq<Recommendation>, j: nat, link: Uuid, maxActions: int)
    requires FirstToName(recs, j, link)
    ensures link in ArchivedLinks(recs, maxActions) <==> |LinksNamed(recs, j)| < AutoArchiveLimit(maxActions)
  {
    WithinLimitIff(ArchiveLinks(recs), j, link, AutoArchiveLimit(maxActions));
  }

  /**
   * A recommendation is dropped exactly when it is to be archived but names no link, or a link that comes behind the
   * limit, or when it is not and all its links are nil.
   */
  lemma DroppedIff(recs: seq<Recommendation>, i: nat, j: nat, keys: set<string>, maxActions: int)
    requires i < |recs| && (ArchiveLink(recs[i]).Some? ==> FirstToName(recs, j, ArchiveLink(recs[i]).value))
    ensures FateOf(recs, i, keys, maxActions) == Dropped
       <==> if ShouldAutoArchive(recs[i])
            then recs[i].linkIds == [] || recs[i].linkIds[0] == NIL
                 || |LinksNamed(recs, j)| >= AutoArchiveLimit(maxActions)
            else FirstNonNil(recs[i].linkIds) == NIL
  {
    ArchivableHasNoInput(RefreshScope("", 0, 0), recs[i]);
    if ArchiveLink(recs[i]).Some? {
      ArchivedIff(recs, j, ArchiveLink(recs[i]).value, maxActions);
    }
  }

  /** Whatever link is named for archiving was named first by some recommendation, at or before this one. */
  lemma FirstNamer(recs: seq<Recommendation>, i: nat) returns (j: nat)
    requires i < |recs| && ArchiveLink(recs[i]).Some?
    ensures j <= i && FirstToName(recs, j, ArchiveLink(recs[i]).value)
  {
    j := FirstPlace(ArchiveLinks(recs), i);
  }

  lemma {:induction false} FirstPlace(links: seq<Option<Uuid>>, i: nat) returns (j: nat)
    requires i < |links| && links[i].Some?
    ensures j <= i && links[j] == links[i] && links[i].value !in Named(links, j)
    decreases i
  {
    if links[i].value !in Named(links, i) {
      j := i;
    } else {
      var k := NamedAt(links, i, links[i].value);
      j := FirstPlace(links, k);
    }
  }

  lemma {:induction false} NamedAt(links: seq<Option<Uuid>>, n: nat, link: Uuid) returns (k: nat)
    requires n <= |links| && link in Named(links, n)
    ensures k < n && links[k] == Some(link)
    decreases n
  {
    assert n > 0 && links[..n][..n - 1] == links[..n - 1];
    if links[n - 1] == Some(link) {
      k := n - 1;
    } else {
      k := NamedAt(links, n - 1, link);
    }
  }

  /** A link archived for one recommendation can still be suggested for another. */
  lemma ArchivedLinkIsSuggested(archivable: Recommendation, other: Recommendation, keys: set<string>, maxActions: int)
    requires ArchiveLink(archivable).Some? && !ShouldAutoArchive(other)
    requires FirstNonNil(other.linkIds) == ArchiveLink(archivable).value
    requires AdminInput(RefreshScope("", 0, 0), other).Some?
    requires AdminInput(RefreshScope("", 0, 0), other).value.key !in keys
    ensures FateOf([archivable, other], 0, keys, maxActions) == Archived
    ensures FateOf([archivable, other], 1, keys, maxActions) == SuggestedNow
  {
    var recs := [archivable, other];
    var inputs := AdminInputs(RefreshScope("", 0, 0), recs);
    ArchivableHasNoInput(RefreshScope("", 0, 0), archivable);
    assert ArchiveLinks(recs)[..0] == [] && inputs[..1] == [inputs[0]] && inputs[..1][..0] == [];
    ArchivedIff(recs, 0, ArchiveLink(archivable).value, maxActions);
    assert After(keys, inputs[..1]) == Progress(keys, []);
  }
}
