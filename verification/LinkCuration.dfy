/**
 * Link curation: hygiene recommendations become suggestions, and a key written into each suggestion's payload
 * keeps a later refresh from suggesting the same thing again. Two copies of the code exist.
 */
module LinkCuration {
  import opened Results
  import opened Text
  import opened Times
  import opened Uuids
  import opened CurationStore
  import opened KeyedRefresh

  const AUTO_ARCHIVE_ACTION := "archive_stale_low_value"

  datatype Recommendation = Recommendation(
    targetEngramId: Uuid,
    linkIds: seq<Uuid>,
    suggestedAction: string,
    category: string,
    severity: string,
    detail: string,
    score: real)

  /** The project, source engram and time a refresh works for. */
  datatype RefreshScope = RefreshScope(projectId: string, sourceEngramId: Uuid, suggestedAt: Time)

  // ----- payloads and keys -----

  function PayloadText(payload: Payload, key: Field): Option<string> {
    if key !in payload || !payload[key].JsonText? then None
    else if TrimSpace(payload[key].text) == "" then None
    else Some(TrimSpace(payload[key].text))
  }

  function DedupKey(linkId: string, targetEngramId: string, action: string): string {
    TrimSpace(ToLower(linkId)) + "|" + TrimSpace(ToLower(targetEngramId)) + "|" + TrimSpace(ToLower(action))
  }

  function FirstNonNil(ids: seq<Uuid>): Uuid {
    if ids == [] then NIL else if ids[0] != NIL then ids[0] else FirstNonNil(ids[1..])
  }

  function ReasonOf(r: Recommendation): string {
    if TrimSpace(r.detail) != "" then TrimSpace(r.detail)
    else "Graph hygiene recommendation identified a link quality issue."
  }

  function RecommendationText(r: Recommendation): string {
    if TrimSpace(r.suggestedAction) == "" then "Review link hygiene recommendation."
    else "Review and apply link hygiene action: " + TrimSpace(r.suggestedAction) + "."
  }

  function ConfidenceOf(severity: string): real {
    var level := TrimSpace(ToLower(severity));
    if level == "high" then 0.9 else if level == "medium" then 0.75 else 0.6
  }

  function PayloadOf(scope: RefreshScope, r: Recommendation, linkId: Uuid): Payload {
    map[SourceEngramId := JsonText(UuidText(scope.sourceEngramId)),
        TargetEngramId := JsonText(UuidText(r.targetEngramId)),
        LinkId := JsonText(UuidText(linkId)),
        SuggestedAction := JsonText(r.suggestedAction),
        Category := JsonText(r.category),
        Severity := JsonText(r.severity),
        Score := JsonNumber(r.score),
        Detail := JsonText(r.detail)]
  }

  function SuggestionOf(scope: RefreshScope, r: Recommendation, linkId: Uuid): Suggestion {
    Suggestion(scope.projectId, Link, ReasonOf(r), RecommendationText(r), PayloadOf(scope, r, linkId),
               ConfidenceOf(r.severity), Suggested, scope.suggestedAt)
  }

  lemma PayloadHolds(scope: RefreshScope, r: Recommendation, linkId: Uuid)
    ensures var payload := PayloadOf(scope, r, linkId);
            && payload.Keys == {SourceEngramId, TargetEngramId, LinkId, SuggestedAction, Category, Severity, Score, Detail}
            && payload[SourceEngramId] == JsonText(UuidText(scope.sourceEngramId))
            && payload[TargetEngramId] == JsonText(UuidText(r.targetEngramId))
            && payload[LinkId] == JsonText(UuidText(linkId)) && payload[SuggestedAction] == JsonText(r.suggestedAction)
            && payload[Category] == JsonText(r.category) && payload[Severity] == JsonText(r.severity)
            && payload[Score] == JsonNumber(r.score) && payload[Detail] == JsonText(r.detail)
  {
  }

  /** Two suggestions are the same only when all that went into them is, which links were not chosen apart. */
  lemma SuggestionsAreFaithful(scope: RefreshScope, r: Recommendation, linkId: Uuid, scope': RefreshScope,
                               r': Recommendation, linkId': Uuid)
    ensures SuggestionOf(scope, r, linkId) == SuggestionOf(scope', r', linkId')
       <==> scope == scope' && linkId == linkId' && r.(linkIds := []) == r'.(linkIds := [])
  {
    PayloadHolds(scope, r, linkId);
    PayloadHolds(scope', r', linkId');
    UuidTextInjective(scope.sourceEngramId, scope'.sourceEngramId);
    UuidTextInjective(r.targetEngramId, r'.targetEngramId);
    UuidTextInjective(linkId, linkId');
  }

  /** What a suggestion says: its detail, or a stock reason when that is blank, and the action named, if one is. */
  lemma SuggestionSays(scope: RefreshScope, r: Recommendation, linkId: Uuid)
    ensures var s := SuggestionOf(scope, r, linkId);
            && s.projectId == scope.projectId && s.suggestedAt == scope.suggestedAt
            && s.confidenceScore == ConfidenceOf(r.severity)
            && (if forall i :: 0 <= i < |r.detail| ==> IsSpace(r.detail[i])
                then s.reason == "Graph hygiene recommendation identified a link quality issue."
                else Core(r.detail, s.reason))
            && (if forall i :: 0 <= i < |r.suggestedAction| ==> IsSpace(r.suggestedAction[i])
                then s.recommendation == "Review link hygiene recommendation."
                else s.recommendation == "Review and apply link hygiene action: " + TrimSpace(r.suggestedAction) + ".")
  {
    TrimSpaceIsCore(r.detail);
    TrimSpaceIsCore(r.suggestedAction);
  }

  /** The confidence goes by the severity, in any case and with any outer space. */
  lemma ConfidenceBySeverity(severity: string)
    ensures var level := ToLower(TrimSpace(severity));
            ConfidenceOf(severity) == if level == "high" then 0.9 else if level == "medium" then 0.75 else 0.6
  {
    LowerTrimCommute(severity);
  }

  /** The link chosen is the first that is not nil, and nil when there is none. */
  lemma {:induction false} ChosenLinkIsFirst(ids: seq<Uuid>)
    ensures if forall i :: 0 <= i < |ids| ==> ids[i] == 0 then FirstNonNil(ids) == 0
            else exists k :: 0 <= k < |ids| && ids[k] == FirstNonNil(ids) != 0 && forall i :: 0 <= i < k ==> ids[i] == 0
  {
    if ids != [] && ids[0] == 0 {
      ChosenLinkIsFirst(ids[1..]);
      if k :| 0 <= k < |ids| - 1 && ids[1..][k] == FirstNonNil(ids) != 0
              && forall i :: 0 <= i < k ==> ids[1..][i] == 0 {
        assert forall i :: 1 <= i < k + 1 ==> ids[i] == ids[1..][i - 1];
        assert ids[k + 1] == FirstNonNil(ids);
      } else {
        assert forall i :: 1 <= i < |ids| ==> ids[i] == ids[1..][i - 1];
      }
    }
  }

  // ----- the admin copy -----

  predicate AdminSkips(r: Recommendation) {
    r.linkIds == [] || TrimSpace(ToLower(r.suggestedAction)) == AUTO_ARCHIVE_ACTION
  }

  function AdminInput(scope: RefreshScope, r: Recommendation): Option<Keyed<Suggestion>> {
    if AdminSkips(r) then None
    else
      var linkId := FirstNonNil(r.linkIds);
      if linkId == NIL then None
      else Some(Keyed(SuggestionOf(scope, r, linkId),
                      DedupKey(UuidText(linkId), UuidText(r.targetEngramId), r.suggestedAction)))
  }

  function AdminKey(s: Suggestion): Option<string> {
    PayloadKey(s.payload)
  }

  function PayloadKey(payload: Payload): Option<string> {
    var link, action := PayloadText(payload, LinkId), PayloadText(payload, SuggestedAction);
    var target := PayloadText(payload, TargetEngramId);
    if link.None? || action.None? || target.None? then None
    else Some(DedupKey(link.value, target.value, action.value))
  }

  // ----- the scheduled copy -----

  /** Case-insensitive equality of ASCII text. */
  predicate EqualFold(a: string, b: string) {
    ToLower(a) == ToLower(b)
  }

  predicate ShouldAutoArchive(r: Recommendation) {
    EqualFold(TrimSpace(r.suggestedAction), AUTO_ARCHIVE_ACTION)
  }

  function ScheduledInput(scope: RefreshScope, r: Recommendation): Option<Keyed<Suggestion>> {
    if ShouldAutoArchive(r) then None
    else
      var linkId := FirstNonNil(r.linkIds);
      if linkId == NIL then None
      else Some(Keyed(SuggestionOf(scope, r, linkId),
                      DedupKey(UuidText(linkId), UuidText(r.targetEngramId), r.suggestedAction)))
  }

  function ScheduledKey(s: Suggestion): Option<string> {
    var link, action := PayloadText(s.payload, LinkId), PayloadText(s.payload, SuggestedAction);
    var target := PayloadText(s.payload, TargetEngramId);
    if link.None? || action.None? then None
    else Some(DedupKey(link.value, if target.Some? then target.value else "", action.value))
  }

  /** The two copies of the code. */
  datatype Copy = Admin | Scheduled

  /** The key a copy reads from a stored suggestion. */
  function KeyRead(copy: Copy, s: Suggestion): Option<string> {
    if copy.Admin? then AdminKey(s) else ScheduledKey(s)
  }

  function Reader(copy: Copy): Suggestion -> Option<string> {
    s => KeyRead(copy, s)
  }

  /** The loop over stored suggestions, the same in both copies but for the reading. */
  method ExistingKeys(copy: Copy, suggestions: seq<Suggestion>) returns (keys: set<string>)
    ensures keys == ReadKeys(Reader(copy), suggestions)
  {
    keys := {};
    for i := 0 to |suggestions|
      invariant keys == ReadKeys(Reader(copy), suggestions[..i])
    {
      assert suggestions[..i + 1] == suggestions[..i] + [suggestions[i]];
      ReadKeysAppend(Reader(copy), suggestions[..i], [suggestions[i]]);
      ReadKeysOfOne(Reader(copy), suggestions[i]);
      var key := KeyRead(copy, suggestions[i]);
      if key.None? {
        continue;
      }
      keys := keys + {key.value};
    }
    assert suggestions[..|suggestions|] == suggestions;
  }

  lemma ArchiveActionIsLower()
    ensures ToLower(AUTO_ARCHIVE_ACTION) == AUTO_ARCHIVE_ACTION
  {
  }

  lemma ArchiveTestsAgree(action: string)
    ensures TrimSpace(ToLower(action)) == AUTO_ARCHIVE_ACTION <==> EqualFold(TrimSpace(action), AUTO_ARCHIVE_ACTION)
  {
    LowerTrimCommute(action);
    ArchiveActionIsLower();
  }

  /** Both copies write the same suggestions under the same keys. */
  lemma InputsAgree(scope: RefreshScope, r: Recommendation)
    ensures AdminInput(scope, r) == ScheduledInput(scope, r)
  {
    ArchiveTestsAgree(r.suggestedAction);
  }

  /** The readers agree, but that the scheduled one also reads payloads without a target. */
  lemma ReadersAgree(s: Suggestion)
    ensures KeyRead(Admin, s) == if PayloadText(s.payload, TargetEngramId).Some? then KeyRead(Scheduled, s) else None
    ensures KeyRead(Scheduled, s).Some?
       <==> PayloadText(s.payload, LinkId).Some? && PayloadText(s.payload, SuggestedAction).Some?
  {
  }

  // ----- writing and reading undo each other -----

  predicate BlankAction(r: Recommendation) {
    TrimSpace(r.suggestedAction) == ""
  }

  lemma KeyIgnoresTrim(linkId: string, target: string, action: string)
    ensures DedupKey(TrimSpace(linkId), TrimSpace(target), TrimSpace(action)) == DedupKey(linkId, target, action)
  {
    forall s: string
      ensures TrimSpace(ToLower(TrimSpace(s))) == TrimSpace(ToLower(s))
    {
      LowerTrimCommute(s);
      TrimSpaceTrims(ToLower(s));
    }
  }

  lemma UuidPayloadText(payload: Payload, field: Field, id: Uuid)
    requires field in payload && payload[field] == JsonText(UuidText(id))
    ensures PayloadText(payload, field) == Some(UuidText(id))
  {
    UuidTextCharacters(id);
    TrimSpaceTrims(UuidText(id));
  }

  /** The key either copy reads from a written payload is the key it was written under, unless the action is blank. */
  lemma WrittenKeyReadsBack(copy: Copy, scope: RefreshScope, r: Recommendation)
    requires AdminInput(scope, r).Some?
    ensures var input := AdminInput(scope, r).value;
            KeyRead(copy, input.item) == if BlankAction(r) then None else Some(input.key)
  {
    var linkId := FirstNonNil(r.linkIds);
    PayloadFields(scope, r, linkId);
    PayloadKeyReadsBack(PayloadOf(scope, r, linkId), linkId, r.targetEngramId, r.suggestedAction);
    UuidPayloadText(PayloadOf(scope, r, linkId), TargetEngramId, r.targetEngramId);
    ReadersAgree(SuggestionOf(scope, r, linkId));
  }

  lemma PayloadFields(scope: RefreshScope, r: Recommendation, linkId: Uuid)
    ensures var payload := PayloadOf(scope, r, linkId);
            && LinkId in payload && payload[LinkId] == JsonText(UuidText(linkId))
            && TargetEngramId in payload && payload[TargetEngramId] == JsonText(UuidText(r.targetEngramId))
            && SuggestedAction in payload && payload[SuggestedAction] == JsonText(r.suggestedAction)
  {
  }

  lemma PayloadKeyReadsBack(payload: Payload, link: Uuid, target: Uuid, action: string)
    requires LinkId in payload && payload[LinkId] == JsonText(UuidText(link))
    requires TargetEngramId in payload && payload[TargetEngramId] == JsonText(UuidText(target))
    requires SuggestedAction in payload && payload[SuggestedAction] == JsonText(action)
    ensures PayloadKey(payload) == if TrimSpace(action) == "" then None
                                   else Some(DedupKey(UuidText(link), UuidText(target), action))
  {
    UuidPayloadText(payload, LinkId, link);
    UuidPayloadText(payload, TargetEngramId, target);
    KeyIgnoresTrim(UuidText(link), UuidText(target), action);
    UuidTextCharacters(link);
    UuidTextCharacters(target);
    TrimSpaceTrims(UuidText(link));
    TrimSpaceTrims(UuidText(target));
  }

  lemma UuidKeyPart(id: Uuid)
    ensures TrimSpace(ToLower(UuidText(id))) == UuidText(id)
    ensures |UuidText(id)| == |UuidText(0)|
  {
    UuidTextCharacters(id);
    TrimSpaceTrims(UuidText(id));
    UuidTextLength(id, 0);
  }

  lemma JoinInjective(a: string, b: string, c: string, a': string, b': string, c': string)
    requires |a| == |a'| && |b| == |b'|
    ensures a + "|" + b + "|" + c == a' + "|" + b' + "|" + c' <==> a == a' && b == b' && c == c'
  {
    var k, k' := a + "|" + b + "|" + c, a' + "|" + b' + "|" + c';
    var m, n := |a| + 1, |a| + |b| + 2;
    if k == k' {
      assert a == k[..|a|] && a' == k'[..|a|];
      assert b == k[m..m + |b|] && b' == k'[m..m + |b|];
      assert c == k[n..] && c' == k'[n..];
    }
  }

  /** Two recommendations share a key exactly when link, target and action agree, up to case and outer space. */
  lemma KeysAreFaithful(link: Uuid, target: Uuid, action: string, link': Uuid, target': Uuid, action': string)
    ensures DedupKey(UuidText(link), UuidText(target), action) == DedupKey(UuidText(link'), UuidText(target'), action')
       <==> link == link' && target == target' && TrimSpace(ToLower(action)) == TrimSpace(ToLower(action'))
  {
    UuidKeyPart(link);
    UuidKeyPart(link');
    UuidKeyPart(target);
    UuidKeyPart(target');
    JoinInjective(UuidText(link), UuidText(target), TrimSpace(ToLower(action)),
                  UuidText(link'), UuidText(target'), TrimSpace(ToLower(action')));
    UuidTextInjective(link, link');
    UuidTextInjective(target, target');
  }

  /** A key whose action part is blank is never read back from any payload, by either copy. */
  lemma BlankKeyNeverRead(copy: Copy, s: Suggestion, link: Uuid, target: Uuid, action: string)
    requires TrimSpace(action) == ""
    ensures KeyRead(copy, s) != Some(DedupKey(UuidText(link), UuidText(target), action))
  {
    if KeyRead(copy, s).Some? {
      var l, act := PayloadText(s.payload, LinkId).value, PayloadText(s.payload, SuggestedAction).value;
      var t := PayloadText(s.payload, TargetEngramId);
      TrimSpaceTrims(s.payload[SuggestedAction].text);
      NamedKeyIsNoBlankKey(l, if t.Some? then t.value else "", act, link, target, action);
    }
  }

  lemma NamedKeyIsNoBlankKey(l: string, t: string, act: string, link: Uuid, target: Uuid, action: string)
    requires TrimSpace(action) == "" && act != "" && TrimSpace(act) == act
    ensures DedupKey(l, t, act) != DedupKey(UuidText(link), UuidText(target), action)
  {
    LowerTrimCommute(action);
    LowerTrimCommute(act);
    UuidKeyPart(link);
    UuidKeyPart(target);
    UuidTextCharacters(link);
    UuidTextCharacters(target);
    var l', t', a' := TrimSpace(ToLower(l)), TrimSpace(ToLower(t)), TrimSpace(ToLower(act));
    if l' + "|" + t' + "|" + a' == UuidText(link) + "|" + UuidText(target) + "|" {
      ThirdPartEmpty(UuidText(link), UuidText(target), l', t', a');
    }
  }

  lemma NoBarWithin(front: string, middle: string, back: string)
    requires '|' !in middle
    ensures forall i :: |front| <= i < |front| + |middle| ==> (front + middle + back)[i] != '|'
  {
  }

  /** A text with two bars that ends in the second can only be read with an empty third part. */
  lemma ThirdPartEmpty(u: string, v: string, l: string, t: string, a: string)
    requires '|' !in u && '|' !in v
    requires u + "|" + v + "|" == l + "|" + t + "|" + a
    ensures a == ""
  {
    var k := u + "|" + v + "|";
    NoBarWithin("", u, "|" + v + "|");
    NoBarWithin(u + "|", v, "|");
    assert k == "" + u + ("|" + v + "|") && k == (u + "|") + v + "|";
    assert k[|l|] == '|' && k[|l| + 1 + |t|] == '|';
    assert |k| == |l| + |t| + |a| + 2;
  }

  // ----- a refresh -----

  function AdminInputs(scope: RefreshScope, recs: seq<Recommendation>): (inputs: Inputs<Suggestion>)
    ensures |inputs| == |recs| && forall i :: 0 <= i < |recs| ==> inputs[i] == AdminInput(scope, recs[i])
  {
    if recs == [] then [] else AdminInputs(scope, recs[..|recs| - 1]) + [AdminInput(scope, recs[|recs| - 1])]
  }

  /** What a refresh of `recs` writes when `keys` are known. */
  function Refreshed(keys: set<string>, scope: RefreshScope, recs: seq<Recommendation>): Progress<Suggestion> {
    After(keys, AdminInputs(scope, recs))
  }

  ghost function KnownKeys(copy: Copy, suggestions: seq<Suggestion>, projectId: string): set<string> {
    ReadKeys(Reader(copy), PendingIn(suggestions, Some(projectId), Link))
  }

  ghost predicate Fits(suggestions: seq<Suggestion>, projectId: string) {
    |PendingIn(suggestions, Some(projectId), Link)| <= LIST_LIMIT
  }

  /** Keys a refresh may find: those read from a listing of the pending suggestions, newest first and cut. */
  ghost predicate Listed(copy: Copy, suggestions: seq<Suggestion>, projectId: string, keys: set<string>) {
    exists page :: NewestOf(page, PendingIn(suggestions, Some(projectId), Link)) && keys == ReadKeys(Reader(copy), page)
  }

  /** The table once a refresh that found `keys` has gone through. */
  ghost function AfterRefresh(suggestions: seq<Suggestion>, keys: set<string>, scope: RefreshScope,
                              recs: seq<Recommendation>): seq<Suggestion>
  {
    suggestions + Refreshed(keys, scope, recs).created
  }

  /** Every recommendation that is suggested at all names an action. */
  ghost predicate ActionsNamed(recs: seq<Recommendation>) {
    forall i :: 0 <= i < |recs| && AdminInput(RefreshScope("", 0, 0), recs[i]).Some? ==> !BlankAction(recs[i])
  }

  lemma RefreshStep(keys: set<string>, scope: RefreshScope, recs: seq<Recommendation>, i: nat)
    requires i < |recs|
    ensures Refreshed(keys, scope, recs[..i + 1]) == Step(Refreshed(keys, scope, recs[..i]), AdminInput(scope, recs[i]))
  {
    InputsOfPrefix(scope, recs, i);
    InputsOfPrefix(scope, recs, i + 1);
    assert AdminInputs(scope, recs)[..i + 1][..i] == AdminInputs(scope, recs)[..i];
  }

  lemma InputsOfPrefix(scope: RefreshScope, recs: seq<Recommendation>, m: nat)
    requires m <= |recs|
    ensures AdminInputs(scope, recs[..m]) == AdminInputs(scope, recs)[..m]
  {
  }

  /** Listed keys are known, and are all the known ones when the pending suggestions fit the listing. */
  lemma ListedKeysAreKnown(copy: Copy, suggestions: seq<Suggestion>, projectId: string, keys: set<string>)
    requires Listed(copy, suggestions, projectId, keys)
    ensures keys <= KnownKeys(copy, suggestions, projectId)
    ensures Fits(suggestions, projectId) ==> keys == KnownKeys(copy, suggestions, projectId)
  {
    var rows := PendingIn(suggestions, Some(projectId), Link);
    var page :| NewestOf(page, rows) && keys == ReadKeys(Reader(copy), page);
    NewestAreRows(page, rows);
    if Fits(suggestions, projectId) {
      ShortListingIsComplete(page, rows);
    }
  }

  /** The keys of the pending suggestions listed, unless the listing fails. */
  method ListSuggestedKeys(copy: Copy, table: SuggestionTable, projectId: string) returns (r: Result<set<string>>)
    ensures r.Ok? ==> Listed(copy, table.suggestions, projectId, r.value)
  {
    var listed := table.ListPending(Some(projectId), Link);
    if listed.Err? {
      return Err(listed.error);
    }
    var keys := ExistingKeys(copy, listed.value);
    r := Ok(keys);
  }

  /** Writes what is new until a write fails; `m` recommendations have been dealt with. */
  method WriteNew(table: SuggestionTable, scope: RefreshScope, recs: seq<Recommendation>, keys: set<string>)
    returns (createdCount: nat, ok: bool, ghost m: nat)
    modifies table
    ensures m <= |recs| && (ok ==> m == |recs|)
    ensures table.suggestions == old(table.suggestions) + Refreshed(keys, scope, recs[..m]).created
    ensures |table.suggestions| == |old(table.suggestions)| + createdCount
  {
    var known := keys;
    ghost var p := Refreshed(keys, scope, []);
    createdCount, m := 0, 0;
    for i := 0 to |recs|
      invariant m == i && p == Refreshed(keys, scope, recs[..i])
      invariant known == p.keys && table.suggestions == old(table.suggestions) + p.created
      invariant |table.suggestions| == |old(table.suggestions)| + createdCount
    {
      RefreshStep(keys, scope, recs, i);
      var input := AdminInput(scope, recs[i]);
      if input.Some? && input.value.key !in known {
        var created := table.Create(input.value.item);
        if !created {
          return createdCount, false, m;
        }
        known := known + {input.value.key};
        createdCount := createdCount + 1;
      }
      p := Step(p, input);
      m := i + 1;
    }
    ok := true;
    assert recs[..|recs|] == recs;
  }

  /** The refresh found `keys` in a listing and went through the first `m` recommendations with them. */
  ghost predicate RefreshedUpTo(copy: Copy, before: seq<Suggestion>, after: seq<Suggestion>, scope: RefreshScope,
                                recs: seq<Recommendation>, keys: set<string>, m: nat)
    requires m <= |recs|
  {
    Listed(copy, before, scope.projectId, keys) && after == AfterRefresh(before, keys, scope, recs[..m])
  }

  /**
   * One refresh. When the listing fails nothing is written. Otherwise writes go on until one fails, and what is
   * stored is what a refresh of the recommendations up to that point stores.
   */
  method PersistRecommended(table: SuggestionTable, scope: RefreshScope, recs: seq<Recommendation>)
    returns (createdCount: nat, ok: bool, ghost m: nat, ghost keys: set<string>)
    modifies table
    ensures m <= |recs| && (ok ==> m == |recs|)
    ensures (!ok && table.suggestions == old(table.suggestions))
         || RefreshedUpTo(Admin, old(table.suggestions), table.suggestions, scope, recs, keys, m)
    ensures |table.suggestions| == |old(table.suggestions)| + createdCount
  {
    createdCount, ok, m, keys := 0, false, 0, {};
    var listed := ListSuggestedKeys(Admin, table, scope.projectId);
    if listed.Err? {
      return;
    }
    keys := listed.value;
    createdCount, ok, m := WriteNew(table, scope, recs, listed.value);
  }

  /** The scheduled refresh writes with the keys its caller read; it differs from the other in nothing else. */
  method CreatePending(table: SuggestionTable, scope: RefreshScope, recs: seq<Recommendation>, dedupedKeys: set<string>)
    returns (ok: bool, ghost m: nat)
    modifies table
    ensures m <= |recs| && (ok ==> m == |recs|)
    ensures table.suggestions == old(table.suggestions) + Refreshed(dedupedKeys, scope, recs[..m]).created
  {
    var known := dedupedKeys;
    m := 0;
    for i := 0 to |recs|
      invariant m == i
      invariant known == Refreshed(dedupedKeys, scope, recs[..i]).keys
      invariant table.suggestions == old(table.suggestions) + Refreshed(dedupedKeys, scope, recs[..i]).created
    {
      RefreshStep(dedupedKeys, scope, recs, i);
      InputsAgree(scope, recs[i]);
      m := i + 1;
      var input := ScheduledInput(scope, recs[i]);
      if input.None? || input.value.key in known {
        continue;
      }
      var created := table.Create(input.value.item);
      if !created {
        m := i;
        return false, m;
      }
      known := known + {input.value.key};
    }
    ok := true;
    assert recs[..|recs|] == recs;
  }

  // ----- refreshing again -----

  /** Whether a recommendation is suggested, and under which key, does not depend on project, source or time. */
  lemma InputKeyFixed(scope: RefreshScope, later: RefreshScope, r: Recommendation)
    ensures AdminInput(scope, r).Some? == AdminInput(later, r).Some?
    ensures AdminInput(scope, r).Some? ==> AdminInput(scope, r).value.key == AdminInput(later, r).value.key
  {
  }

  lemma NamedActionsReadBack(copy: Copy, scope: RefreshScope, recs: seq<Recommendation>)
    requires ActionsNamed(recs)
    ensures ReadsBack(Reader(copy), AdminInputs(scope, recs))
  {
    forall i | 0 <= i < |recs| && AdminInput(scope, recs[i]).Some?
      ensures KeyRead(copy, AdminInput(scope, recs[i]).value.item) == Some(AdminInput(scope, recs[i]).value.key)
    {
      InputKeyFixed(scope, RefreshScope("", 0, 0), recs[i]);
      WrittenKeyReadsBack(copy, scope, recs[i]);
    }
  }

  lemma InputIsPending(scope: RefreshScope, r: Recommendation)
    requires AdminInput(scope, r).Some?
    ensures Pending(AdminInput(scope, r).value.item, Some(scope.projectId), Link)
  {
  }

  lemma CreatedArePending(keys: set<string>, scope: RefreshScope, recs: seq<Recommendation>)
    ensures forall s :: s in Refreshed(keys, scope, recs).created ==> Pending(s, Some(scope.projectId), Link)
  {
    var inputs := AdminInputs(scope, recs);
    CreatedComeFrom(keys, inputs);
    forall s | s in Refreshed(keys, scope, recs).created
      ensures Pending(s, Some(scope.projectId), Link)
    {
      var i :| 0 <= i < |inputs| && inputs[i].Some? && inputs[i].value.item == s;
      InputIsPending(scope, recs[i]);
    }
  }

  /** The keys known after a refresh are those known before and those read from what it wrote. */
  lemma KnownKeysAfter(copy: Copy, before: seq<Suggestion>, keys: set<string>, scope: RefreshScope,
                       recs: seq<Recommendation>)
    ensures var created := Refreshed(keys, scope, recs).created;
            KnownKeys(copy, before + created, scope.projectId)
            == KnownKeys(copy, before, scope.projectId) + ReadKeys(Reader(copy), created)
  {
    var created := Refreshed(keys, scope, recs).created;
    CreatedArePending(keys, scope, recs);
    PendingAppends(before, created, Some(scope.projectId), Link);
    AllPending(created, Some(scope.projectId), Link);
    ReadKeysAppend(Reader(copy), PendingIn(before, Some(scope.projectId), Link), created);
  }

  /** Keys read from what a refresh created are keys it ended with. */
  lemma ReadKeysWereWritten(copy: Copy, keys: set<string>, scope: RefreshScope, recs: seq<Recommendation>)
    ensures ReadKeys(Reader(copy), Refreshed(keys, scope, recs).created) <= Refreshed(keys, scope, recs).keys
  {
    var inputs := AdminInputs(scope, recs);
    CreatedComeFrom(keys, inputs);
    AfterKnowsItsKeys(keys, inputs);
    forall s | s in Refreshed(keys, scope, recs).created && KeyRead(copy, s).Some?
      ensures KeyRead(copy, s).value in Refreshed(keys, scope, recs).keys
    {
      var i :| 0 <= i < |inputs| && inputs[i].Some? && inputs[i].value.item == s;
      WrittenKeyReadsBack(copy, scope, recs[i]);
    }
  }

  /** When a refresh leaves a table that fits the listing, the next one finds what was known and what was created. */
  lemma NextKeys(copy: Copy, before: seq<Suggestion>, keys: set<string>, scope: RefreshScope, recs: seq<Recommendation>,
                 again: set<string>)
    requires Listed(copy, before, scope.projectId, keys)
    requires Fits(AfterRefresh(before, keys, scope, recs), scope.projectId)
    requires Listed(copy, AfterRefresh(before, keys, scope, recs), scope.projectId, again)
    ensures again == keys + ReadKeys(Reader(copy), Refreshed(keys, scope, recs).created)
    ensures again <= Refreshed(keys, scope, recs).keys
    ensures ActionsNamed(recs) ==> again == Refreshed(keys, scope, recs).keys
  {
    var created := Refreshed(keys, scope, recs).created;
    PendingAppends(before, created, Some(scope.projectId), Link);
    ListedKeysAreKnown(copy, before, scope.projectId, keys);
    ListedKeysAreKnown(copy, before + created, scope.projectId, again);
    KnownKeysAfter(copy, before, keys, scope, recs);
    ReadKeysWereWritten(copy, keys, scope, recs);
    AfterKnowsItsKeys(keys, AdminInputs(scope, recs));
    if ActionsNamed(recs) {
      NamedActionsReadBack(copy, scope, recs);
      ReadKeysAreWritten(Reader(copy), keys, AdminInputs(scope, recs));
    }
  }

  /** A written recommendation with a blank action leaves a key that no listing gives back. */
  lemma BlankKeyMissing(copy: Copy, suggestions: seq<Suggestion>, projectId: string, keys: set<string>,
                        scope: RefreshScope, recs: seq<Recommendation>)
    returns (key: string)
    requires Listed(copy, suggestions, projectId, keys) && !ActionsNamed(recs)
    ensures key !in keys && !KnowsAll(keys, AdminInputs(scope, recs))
    ensures forall known: set<string> :: KnowsAll(known, AdminInputs(scope, recs)) ==> key in known
  {
    var i :| 0 <= i < |recs| && AdminInput(RefreshScope("", 0, 0), recs[i]).Some? && BlankAction(recs[i]);
    InputKeyFixed(scope, RefreshScope("", 0, 0), recs[i]);
    key := AdminInput(scope, recs[i]).value.key;
    var page :| NewestOf(page, PendingIn(suggestions, Some(projectId), Link)) && keys == ReadKeys(Reader(copy), page);
    BlankKeyUnknown(copy, page, scope, recs[i]);
    assert AdminInputs(scope, recs)[i].value.key == key;
  }

  /** Whatever was listed, a refresh creates nothing exactly when every key it would write is among the keys listed. */
  lemma CreatesNothingIff(listed: set<string>, scope: RefreshScope, recs: seq<Recommendation>)
    ensures Refreshed(listed, scope, recs).created == [] <==> KnowsAll(listed, AdminInputs(scope, recs))
  {
    if KnowsAll(listed, AdminInputs(scope, recs)) {
      NothingNew(listed, AdminInputs(scope, recs));
    } else if Refreshed(listed, scope, recs).created == [] {
      CreatedNothingKnowsAll(listed, AdminInputs(scope, recs));
    }
  }

  /**
   * While the pending suggestions fit the listing, a second refresh, at any later time, creates nothing exactly when
   * no suggested action is blank.
   */
  lemma RefreshIsIdempotentIff(copy: Copy, before: seq<Suggestion>, listed: set<string>, scope: RefreshScope,
                               recs: seq<Recommendation>, later: RefreshScope, again: set<string>)
    requires later.projectId == scope.projectId && Listed(copy, before, scope.projectId, listed)
    requires Fits(AfterRefresh(before, listed, scope, recs), scope.projectId)
    requires Listed(copy, AfterRefresh(before, listed, scope, recs), scope.projectId, again)
    ensures Refreshed(again, later, recs).created == [] <==> ActionsNamed(recs)
  {
    CreatesNothingIff(again, later, recs);
    if ActionsNamed(recs) {
      NextKeys(copy, before, listed, scope, recs, again);
      AfterKnowsItsKeys(listed, AdminInputs(scope, recs));
      SameKeysKnown(again, scope, later, recs);
    } else {
      var key := BlankKeyMissing(copy, AfterRefresh(before, listed, scope, recs), scope.projectId, again, later, recs);
    }
  }

  /**
   * A refresh cut short after `m` recommendations and run again stores what one full refresh stores, nothing twice
   * and nothing lost, exactly when none of the first `m` has a blank action.
   */
  lemma RefreshResumesIff(copy: Copy, before: seq<Suggestion>, listed: set<string>, scope: RefreshScope,
                          recs: seq<Recommendation>, m: nat, again: set<string>)
    requires m <= |recs| && Listed(copy, before, scope.projectId, listed)
    requires Fits(AfterRefresh(before, listed, scope, recs[..m]), scope.projectId)
    requires Listed(copy, AfterRefresh(before, listed, scope, recs[..m]), scope.projectId, again)
    ensures var halfway := AfterRefresh(before, listed, scope, recs[..m]);
            AfterRefresh(halfway, again, scope, recs) == AfterRefresh(before, listed, scope, recs)
            <==> ActionsNamed(recs[..m])
  {
    var inputs := AdminInputs(scope, recs);
    NextKeys(copy, before, listed, scope, recs[..m], again);
    InputsOfPrefix(scope, recs, m);
    if ActionsNamed(recs[..m]) {
      ResumeSkipsDone(listed, inputs, m);
      AppendTwice(before, After(listed, inputs[..m]).created, After(again, inputs).created);
    } else {
      var halfway := AfterRefresh(before, listed, scope, recs[..m]);
      var key := BlankKeyMissing(copy, halfway, scope.projectId, again, scope, recs[..m]);
      AfterKnowsItsKeys(listed, inputs[..m]);
      ForgettingCreatesMore(listed, inputs, m, again, key);
    }
  }

  /** Two refreshes with the same recommendations: what the second one creates, by what it lists. */
  method RefreshTwice(table: SuggestionTable, scope: RefreshScope, later: RefreshScope, recs: seq<Recommendation>)
    returns (first: nat, second: nat, ok: bool, ghost again: set<string>)
    requires later.projectId == scope.projectId
    modifies table
    ensures ok ==> (second == 0 <==> KnowsAll(again, AdminInputs(later, recs)))
    ensures ok && |PendingIn(old(table.suggestions), Some(scope.projectId), Link)| + first <= LIST_LIMIT ==>
              (second == 0 <==> ActionsNamed(recs))
  {
    second, again := 0, {};
    ghost var before := table.suggestions;
    ghost var m, keys;
    first, ok, m, keys := PersistRecommended(table, scope, recs);
    if !ok {
      return;
    }
    assert recs[..m] == recs;
    ghost var between := table.suggestions;
    ghost var n;
    second, ok, n, again := PersistRecommended(table, later, recs);
    if ok {
      assert recs[..n] == recs;
      CreatesNothingIff(again, later, recs);
      CreatedArePending(keys, scope, recs);
      PendingAppends(before, Refreshed(keys, scope, recs).created, Some(scope.projectId), Link);
      AllPending(Refreshed(keys, scope, recs).created, Some(scope.projectId), Link);
      if Fits(between, scope.projectId) {
        RefreshIsIdempotentIff(Admin, before, keys, scope, recs, later, again);
      }
    }
  }

  lemma AppendTwice<T>(a: seq<T>, b: seq<T>, c: seq<T>)
    ensures (a + b) + c == a + (b + c)
  {
  }

  lemma SameKeysKnown(keys: set<string>, scope: RefreshScope, later: RefreshScope, recs: seq<Recommendation>)
    requires KnowsAll(keys, AdminInputs(scope, recs))
    ensures KnowsAll(keys, AdminInputs(later, recs))
  {
    forall i | 0 <= i < |recs| && AdminInput(later, recs[i]).Some?
      ensures AdminInput(later, recs[i]).value.key in keys
    {
      InputKeyFixed(scope, later, recs[i]);
      assert AdminInputs(scope, recs)[i].Some?;
    }
  }

  lemma BlankKeyUnknown(copy: Copy, suggestions: seq<Suggestion>, scope: RefreshScope, r: Recommendation)
    requires AdminInput(scope, r).Some? && BlankAction(r)
    ensures AdminInput(scope, r).value.key !in ReadKeys(Reader(copy), suggestions)
  {
    forall s | s in suggestions
      ensures KeyRead(copy, s) != Some(AdminInput(scope, r).value.key)
    {
      BlankKeyNeverRead(copy, s, FirstNonNil(r.linkIds), r.targetEngramId, r.suggestedAction);
    }
  }
}
