/** Paging syncs: pending suggestions of one type are deleted and rebuilt from a listing read page by page. */
module CurationSync {
  import opened Results
  import opened Times
  import opened Uuids
  import opened CurationStore

  datatype ConsolidationCandidate = ConsolidationCandidate(
    suggestionId: Uuid,
    projectId: string,
    sourceEngramIds: seq<Uuid>,
    consolidationType: string,
    reason: string,
    consolidationHash: string,
    confidenceScore: real)

  datatype ContradictionAlert = ContradictionAlert(
    alertId: Uuid,
    projectId: string,
    sourceEngramId: Uuid,
    targetEngramId: Uuid,
    contradictionLinkIds: seq<Uuid>,
    reason: string,
    confidenceScore: real)

  function BoundedConfidence(value: real): (bounded: real)
    ensures 0.0 <= bounded <= 1.0
    ensures 0.0 <= value <= 1.0 ==> bounded == value
    ensures value < 0.0 ==> bounded == 0.0
    ensures value > 1.0 ==> bounded == 1.0
  {
    if value < 0.0 then 0.0 else if value > 1.0 then 1.0 else value
  }

  function Decimal(n: nat): string {
    if n < 10 then [('0' as int + n) as char] else Decimal(n / 10) + [('0' as int + n % 10) as char]
  }

  function FromCandidate(c: ConsolidationCandidate, suggestedAt: Time): Suggestion {
    Suggestion(
      c.projectId, Consolidate,
      "Consolidation candidate groups " + Decimal(|c.sourceEngramIds|) + " potentially duplicate engrams",
      "Review consolidation suggestion and merge if duplicates are confirmed.",
      map[ConsolidationSuggestionId := JsonId(c.suggestionId),
          SourceEngramIds := JsonIds(c.sourceEngramIds),
          ConsolidationType := JsonText(c.consolidationType),
          ConsolidationReason := JsonText(c.reason),
          ConsolidationHash := JsonText(c.consolidationHash),
          ConfidenceScore := JsonNumber(c.confidenceScore)],
      BoundedConfidence(c.confidenceScore), Suggested, suggestedAt)
  }

  function FromAlert(a: ContradictionAlert, suggestedAt: Time): Suggestion {
    Suggestion(
      a.projectId, Contradiction,
      "Contradiction detected between engrams " + UuidText(a.sourceEngramId) + " and " + UuidText(a.targetEngramId),
      "Review contradiction evidence and resolve or dismiss the alert.",
      map[ContradictionAlertId := JsonId(a.alertId),
          SourceEngramId := JsonId(a.sourceEngramId),
          TargetEngramId := JsonId(a.targetEngramId),
          Reason := JsonText(a.reason),
          ConfidenceScore := JsonNumber(a.confidenceScore),
          LinkIds := JsonIds(a.contradictionLinkIds)],
      BoundedConfidence(a.confidenceScore), Suggested, suggestedAt)
  }

  lemma CandidatePayload(c: ConsolidationCandidate, suggestedAt: Time)
    ensures var payload := FromCandidate(c, suggestedAt).payload;
            && payload.Keys == {ConsolidationSuggestionId, SourceEngramIds, ConsolidationType, ConsolidationReason,
                                ConsolidationHash, ConfidenceScore}
            && payload[ConsolidationSuggestionId] == JsonId(c.suggestionId)
            && payload[SourceEngramIds] == JsonIds(c.sourceEngramIds)
            && payload[ConsolidationType] == JsonText(c.consolidationType)
            && payload[ConsolidationReason] == JsonText(c.reason)
            && payload[ConsolidationHash] == JsonText(c.consolidationHash)
            && payload[ConfidenceScore] == JsonNumber(c.confidenceScore)
  {
  }

  function FromDigits(digits: string): int {
    if digits == "" then 0 else 10 * FromDigits(digits[..|digits| - 1]) + (digits[|digits| - 1] as int - '0' as int)
  }

  /** The digits of a number spell it. */
  lemma {:induction false} DigitsReadBack(n: nat)
    ensures FromDigits(Decimal(n)) == n
  {
    if n >= 10 {
      DigitsReadBack(n / 10);
    } else {
      assert Decimal(n)[..0] == "";
    }
  }

  /** What a suggestion says of its candidate besides the payload. */
  lemma CandidateSays(c: ConsolidationCandidate, suggestedAt: Time)
    ensures var s := FromCandidate(c, suggestedAt);
            && s.projectId == c.projectId && s.suggestionType == Consolidate && s.status == Suggested
            && s.suggestedAt == suggestedAt && (0.0 <= c.confidenceScore <= 1.0 ==> s.confidenceScore == c.confidenceScore)
            && s.recommendation == "Review consolidation suggestion and merge if duplicates are confirmed."
            && exists digits :: FromDigits(digits) == |c.sourceEngramIds|
                 && s.reason == "Consolidation candidate groups " + digits + " potentially duplicate engrams"
  {
    DigitsReadBack(|c.sourceEngramIds|);
  }

  /** What a suggestion says of its alert besides the payload. */
  lemma AlertSays(a: ContradictionAlert, suggestedAt: Time)
    ensures var s := FromAlert(a, suggestedAt);
            && s.projectId == a.projectId && s.suggestionType == Contradiction && s.status == Suggested
            && s.suggestedAt == suggestedAt && (0.0 <= a.confidenceScore <= 1.0 ==> s.confidenceScore == a.confidenceScore)
            && s.recommendation == "Review contradiction evidence and resolve or dismiss the alert."
            && s.reason == "Contradiction detected between engrams " + UuidText(a.sourceEngramId) + " and "
                           + UuidText(a.targetEngramId)
  {
  }

  /** Different candidates give different suggestions. */
  lemma CandidateRowsDiffer(c: ConsolidationCandidate, d: ConsolidationCandidate, suggestedAt: Time)
    ensures FromCandidate(c, suggestedAt) == FromCandidate(d, suggestedAt) <==> c == d
  {
    CandidatePayload(c, suggestedAt);
    CandidatePayload(d, suggestedAt);
  }

  lemma AlertPayload(a: ContradictionAlert, suggestedAt: Time)
    ensures var payload := FromAlert(a, suggestedAt).payload;
            && payload.Keys == {ContradictionAlertId, SourceEngramId, TargetEngramId, Reason, ConfidenceScore, LinkIds}
            && payload[ContradictionAlertId] == JsonId(a.alertId)
            && payload[SourceEngramId] == JsonId(a.sourceEngramId)
            && payload[TargetEngramId] == JsonId(a.targetEngramId)
            && payload[Reason] == JsonText(a.reason)
            && payload[ConfidenceScore] == JsonNumber(a.confidenceScore)
            && payload[LinkIds] == JsonIds(a.contradictionLinkIds)
  {
  }

  /** Different alerts give different suggestions. */
  lemma AlertRowsDiffer(a: ContradictionAlert, b: ContradictionAlert, suggestedAt: Time)
    ensures FromAlert(a, suggestedAt) == FromAlert(b, suggestedAt) <==> a == b
  {
    AlertPayload(a, suggestedAt);
    AlertPayload(b, suggestedAt);
  }

  /** One page of a listing that does not change while it is read. */
  function Page<T>(all: seq<T>, limit: nat, offset: nat): (page: seq<T>)
    ensures offset <= |all| ==> offset + |page| <= |all| && |page| <= limit
    ensures offset <= |all| && |page| < limit ==> offset + |page| == |all|
  {
    var from := if offset < |all| then offset else |all|;
    all[from..if from + limit < |all| then from + limit else |all|]
  }

  /** Reads one page of the listing, unless that fails. */
  method ListPage<T>(all: seq<T>, offset: nat) returns (r: Result<seq<T>>)
    ensures r.Ok? ==> r.value == Page(all, LIST_LIMIT, offset)
  {
    if * {
      return Err("listing failed");
    }
    r := Ok(Page(all, LIST_LIMIT, offset));
  }

  /** How a sync turns what it lists into suggestions. */
  function CandidateMaker(suggestedAt: Time): ConsolidationCandidate -> Suggestion {
    c => FromCandidate(c, suggestedAt)
  }

  function AlertMaker(suggestedAt: Time): ContradictionAlert -> Suggestion {
    a => FromAlert(a, suggestedAt)
  }

  function Rows<C>(make: C -> Suggestion, listed: seq<C>): (rows: seq<Suggestion>)
    ensures |rows| == |listed| && forall i :: 0 <= i < |listed| ==> rows[i] == make(listed[i])
  {
    seq(|listed|, i requires 0 <= i < |listed| => make(listed[i]))
  }

  /** Writes one suggestion for every entry of a page until a write fails. */
  method WritePage<C>(table: SuggestionTable, page: seq<C>, make: C -> Suggestion) returns (ok: bool, ghost m: nat)
    modifies table
    ensures m <= |page| && (ok ==> m == |page|)
    ensures table.suggestions == old(table.suggestions) + Rows(make, page[..m])
  {
    m := 0;
    for i := 0 to |page|
      invariant m == i && table.suggestions == old(table.suggestions) + Rows(make, page[..i])
    {
      assert Rows(make, page[..i + 1]) == Rows(make, page[..i]) + [make(page[i])];
      ok := table.Create(make(page[i]));
      if !ok {
        return;
      }
      m := i + 1;
    }
    ok := true;
    assert page[..|page|] == page;
  }

  lemma RowsOfPages<C>(make: C -> Suggestion, all: seq<C>, offset: nat, m: nat)
    requires offset <= |all| && m <= |Page(all, LIST_LIMIT, offset)|
    ensures Rows(make, all[..offset]) + Rows(make, Page(all, LIST_LIMIT, offset)[..m]) == Rows(make, all[..offset + m])
  {
  }

  /** Reads the listing page by page until a page is short or fails, writing a suggestion for every entry. */
  method WriteAllPages<C>(table: SuggestionTable, all: seq<C>, make: C -> Suggestion) returns (ok: bool, ghost m: nat)
    modifies table
    ensures m <= |all| && (ok ==> m == |all|)
    ensures table.suggestions == old(table.suggestions) + Rows(make, all[..m])
  {
    m := 0;
    var offset := 0;
    while true
      invariant offset <= |all| && m == offset
      invariant table.suggestions == old(table.suggestions) + Rows(make, all[..offset])
      decreases |all| - offset
    {
      var listed := ListPage(all, offset);
      if listed.Err? {
        return false, m;
      }
      var page := listed.value;
      ghost var written;
      ok, written := WritePage(table, page, make);
      RowsOfPages(make, all, offset, written);
      m := offset + written;
      if !ok || |page| < LIST_LIMIT {
        return;
      }
      offset := offset + |page|;
    }
  }

  /**
   * Deletes the pending suggestions of one type and writes one for every entry of the listing, page after page;
   * `m` entries are written when a write or a page fails, and all of them otherwise.
   */
  method SyncPages<C>(table: SuggestionTable, project: Option<string>, suggestionType: SuggestionType, all: seq<C>,
                      make: C -> Suggestion)
    returns (ok: bool, ghost m: nat)
    modifies table
    ensures m <= |all| && (ok ==> m == |all|)
    ensures (table.suggestions == old(table.suggestions) && !ok)
         || table.suggestions == Without(old(table.suggestions), project, suggestionType) + Rows(make, all[..m])
  {
    m := 0;
    ok := table.ResetSuggested(project, suggestionType);
    if ok {
      ok, m := WriteAllPages(table, all, make);
    }
  }

  method SyncConsolidation(table: SuggestionTable, project: Option<string>, all: seq<ConsolidationCandidate>,
                           suggestedAt: Time)
    returns (ok: bool, ghost m: nat)
    modifies table
    ensures m <= |all| && (ok ==> m == |all|)
    ensures (table.suggestions == old(table.suggestions) && !ok)
         || table.suggestions == Without(old(table.suggestions), project, Consolidate)
                                 + Rows(CandidateMaker(suggestedAt), all[..m])
  {
    ok, m := SyncPages(table, project, Consolidate, all, CandidateMaker(suggestedAt));
  }

  method SyncContradiction(table: SuggestionTable, project: Option<string>, all: seq<ContradictionAlert>,
                           suggestedAt: Time)
    returns (ok: bool, ghost m: nat)
    modifies table
    ensures m <= |all| && (ok ==> m == |all|)
    ensures (table.suggestions == old(table.suggestions) && !ok)
         || table.suggestions == Without(old(table.suggestions), project, Contradiction)
                                 + Rows(AlertMaker(suggestedAt), all[..m])
  {
    ok, m := SyncPages(table, project, Contradiction, all, AlertMaker(suggestedAt));
  }

  /** Rebuilding with rows of one type leaves exactly those rows pending, in order, and nothing else changed. */
  lemma RebuildMirrors(before: seq<Suggestion>, project: Option<string>, t: SuggestionType, rows: seq<Suggestion>)
    requires forall i :: 0 <= i < |rows| ==> Pending(rows[i], project, t)
    ensures var after := Without(before, project, t) + rows;
            PendingIn(after, project, t) == rows && Without(after, project, t) == Without(before, project, t)
  {
    PendingAppends(Without(before, project, t), rows, project, t);
    WithoutLeavesNone(before, project, t);
    AllPending(rows, project, t);
  }

  /** After a sync the pending consolidation suggestions mirror the candidates one to one. */
  lemma ConsolidationMirrors(before: seq<Suggestion>, project: Option<string>, all: seq<ConsolidationCandidate>,
                             suggestedAt: Time)
    requires forall i :: 0 <= i < |all| ==> project.None? || project.value == all[i].projectId
    ensures var rows := Rows(CandidateMaker(suggestedAt), all);
            var after := Without(before, project, Consolidate) + rows;
            && PendingIn(after, project, Consolidate) == rows && |rows| == |all|
            && Without(after, project, Consolidate) == Without(before, project, Consolidate)
            && Without(after, project, Consolidate) + rows == after
  {
    RebuildMirrors(before, project, Consolidate, Rows(CandidateMaker(suggestedAt), all));
  }

  /** After a sync the pending contradiction suggestions mirror the open alerts one to one. */
  lemma ContradictionMirrors(before: seq<Suggestion>, project: Option<string>, all: seq<ContradictionAlert>,
                             suggestedAt: Time)
    requires forall i :: 0 <= i < |all| ==> project.None? || project.value == all[i].projectId
    ensures var rows := Rows(AlertMaker(suggestedAt), all);
            var after := Without(before, project, Contradiction) + rows;
            && PendingIn(after, project, Contradiction) == rows && |rows| == |all|
            && Without(after, project, Contradiction) == Without(before, project, Contradiction)
            && Without(after, project, Contradiction) + rows == after
  {
    RebuildMirrors(before, project, Contradiction, Rows(AlertMaker(suggestedAt), all));
  }

  /** A sync of one type leaves the suggestions of every other type alone. */
  lemma {:induction false} OtherTypesUntouched(before: seq<Suggestion>, project: Option<string>, t: SuggestionType,
                                               other: SuggestionType, otherProject: Option<string>)
    requires t != other
    ensures PendingIn(Without(before, project, t), otherProject, other) == PendingIn(before, otherProject, other)
  {
    if before != [] {
      var n := |before| - 1;
      OtherTypesUntouched(before[..n], project, t, other, otherProject);
      PendingAppends(Without(before[..n], project, t), [before[n]], otherProject, other);
      assert [before[n]][..0] == [];
    }
  }
}
