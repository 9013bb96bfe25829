/** Memory curation suggestions and the table that holds them. */
module CurationStore {
  import opened Results
  import opened Times
  import opened Uuids
  import opened Ordering

  datatype Json = JsonText(text: string) | JsonNumber(number: real) | JsonId(id: Uuid) | JsonIds(ids: seq<Uuid>)

  /** The names used in payloads. */
  datatype Field =
    | SourceEngramId | TargetEngramId | LinkId | SuggestedAction | Category | Severity | Score | Detail
    | ConsolidationSuggestionId | SourceEngramIds | ConsolidationType | ConsolidationReason | ConsolidationHash
    | ConfidenceScore | ContradictionAlertId | Reason | LinkIds

  type Payload = map<Field, Json>

  datatype SuggestionType = AutoSave | Consolidate | Contradiction | Link

  datatype Status = Suggested | Accepted | Rejected | Applied

  datatype Suggestion = Suggestion(
    projectId: string,
    suggestionType: SuggestionType,
    reason: string,
    recommendation: string,
    payload: Payload,
    confidenceScore: real,
    status: Status,
    suggestedAt: Time)

  const LIST_LIMIT: nat := 500

  /** Open suggestions of one type, in one project or in all of them. */
  predicate Pending(s: Suggestion, project: Option<string>, suggestionType: SuggestionType) {
    s.status == Suggested && s.suggestionType == suggestionType && (project.None? || project.value == s.projectId)
  }

  function PendingIn(suggestions: seq<Suggestion>, project: Option<string>, suggestionType: SuggestionType): seq<Suggestion> {
    if suggestions == [] then []
    else
      var n := |suggestions| - 1;
      var before := PendingIn(suggestions[..n], project, suggestionType);
      if Pending(suggestions[n], project, suggestionType) then before + [suggestions[n]] else before
  }

  function Without(suggestions: seq<Suggestion>, project: Option<string>, suggestionType: SuggestionType): seq<Suggestion> {
    if suggestions == [] then []
    else
      var n := |suggestions| - 1;
      var before := Without(suggestions[..n], project, suggestionType);
      if Pending(suggestions[n], project, suggestionType) then before else before + [suggestions[n]]
  }

  lemma {:induction false} PendingAppends(a: seq<Suggestion>, b: seq<Suggestion>, project: Option<string>, t: SuggestionType)
    ensures PendingIn(a + b, project, t) == PendingIn(a, project, t) + PendingIn(b, project, t)
    ensures Without(a + b, project, t) == Without(a, project, t) + Without(b, project, t)
  {
    if b == [] {
      assert a + b == a;
    } else {
      PendingAppends(a, b[..|b| - 1], project, t);
      assert (a + b)[..|a + b| - 1] == a + b[..|b| - 1];
    }
  }

  lemma {:induction false} AllPending(a: seq<Suggestion>, project: Option<string>, t: SuggestionType)
    requires forall i :: 0 <= i < |a| ==> Pending(a[i], project, t)
    ensures PendingIn(a, project, t) == a && Without(a, project, t) == []
  {
    if a != [] {
      AllPending(a[..|a| - 1], project, t);
    }
  }

  lemma {:induction false} WithoutLeavesNone(a: seq<Suggestion>, project: Option<string>, t: SuggestionType)
    ensures PendingIn(Without(a, project, t), project, t) == []
    ensures Without(Without(a, project, t), project, t) == Without(a, project, t)
  {
    if a != [] {
      var n := |a| - 1;
      var before := Without(a[..n], project, t);
      WithoutLeavesNone(a[..n], project, t);
      PendingAppends(before, [a[n]], project, t);
      assert [a[n]][..0] == [];
    }
  }

  lemma {:induction false} PendingMembers(a: seq<Suggestion>, project: Option<string>, t: SuggestionType)
    ensures forall s :: s in PendingIn(a, project, t) <==> s in a && Pending(s, project, t)
  {
    if a != [] {
      var n := |a| - 1;
      PendingMembers(a[..n], project, t);
      assert a == a[..n] + [a[n]];
    }
  }

  /** Deleting leaves everything but open suggestions of the type, in one project or all; decided ones stay. */
  lemma {:induction false} OnlyOpenAreDeleted(a: seq<Suggestion>, project: Option<string>, t: SuggestionType)
    ensures forall s :: s in Without(a, project, t) <==>
              s in a && !(s.status == Suggested && s.suggestionType == t
                          && (project == None || project == Some(s.projectId)))
    ensures multiset(a) == multiset(Without(a, project, t)) + multiset(PendingIn(a, project, t))
  {
    if a != [] {
      var n := |a| - 1;
      OnlyOpenAreDeleted(a[..n], project, t);
      assert a == a[..n] + [a[n]];
    }
  }

  // ----- newest first -----

  /** `order` gives the row behind every entry of the page: newer rows come first, and no newer row is left out. */
  ghost predicate ShowsNewest(order: seq<nat>, page: seq<Suggestion>, rows: seq<Suggestion>) {
    && |order| == |page| == (if |rows| < LIST_LIMIT then |rows| else LIST_LIMIT)
    && Distinct(order)
    && (forall i :: 0 <= i < |order| ==> order[i] < |rows| && page[i] == rows[order[i]])
    && (forall i, j :: 0 <= i < j < |page| ==> page[i].suggestedAt >= page[j].suggestedAt)
    && (forall i, k: nat :: 0 <= i < |page| && k < |rows| && k !in order ==> rows[k].suggestedAt <= page[i].suggestedAt)
  }

  /** A listing of at most `LIST_LIMIT` rows, newest first; rows of one instant come in any order. */
  ghost predicate NewestOf(page: seq<Suggestion>, rows: seq<Suggestion>) {
    exists order: seq<nat> :: ShowsNewest(order, page, rows)
  }

  lemma NewestAreRows(page: seq<Suggestion>, rows: seq<Suggestion>)
    requires NewestOf(page, rows)
    ensures |page| <= LIST_LIMIT && forall s :: s in page ==> s in rows
  {
  }

  /** A listing that is not cut shows every row. */
  lemma ShortListingIsComplete(page: seq<Suggestion>, rows: seq<Suggestion>)
    requires NewestOf(page, rows) && |rows| <= LIST_LIMIT
    ensures forall s :: s in rows ==> s in page
  {
    var order: seq<nat> :| ShowsNewest(order, page, rows);
    forall k: nat | k < |rows|
      ensures rows[k] in page
    {
      OrderCovers(order, |rows|, k);
      var i :| 0 <= i < |order| && order[i] == k;
      assert page[i] == rows[k];
    }
  }

  /** As many distinct positions as there are rows are all the positions. */
  lemma OrderCovers(order: seq<nat>, n: nat, k: nat)
    requires Distinct(order) && |order| == n && k < n && forall i :: 0 <= i < n ==> order[i] < n
    ensures k in order
  {
    if k !in order {
      var all := seq(n, i => i);
      assert forall i :: 0 <= i < n ==> all[i] == i;
      assert forall x :: x in order + [k] ==> x < n && all[x] == x;
      DistinctWithin(order + [k], all);
    }
  }

  lemma CutMissesARow(order: seq<nat>, n: nat) returns (k: nat)
    requires Distinct(order) && |order| < n
    ensures k < n && k !in order
  {
    if forall k: nat :: k < n ==> k in order {
      var all := seq(n, i => i);
      assert forall i :: 0 <= i < n ==> all[i] == i;
      assert forall x :: x in all ==> x in order;
      DistinctWithin(all, order);
      assert false;
    }
    k :| k < n && k !in order;
  }

  /** A cut listing leaves out the row that is older than all others. */
  lemma CutLeavesOutOldest(page: seq<Suggestion>, rows: seq<Suggestion>, oldest: nat)
    requires NewestOf(page, rows) && |rows| > LIST_LIMIT && oldest < |rows|
    requires forall k: nat :: k < |rows| && k != oldest ==> rows[k].suggestedAt > rows[oldest].suggestedAt
    ensures forall s :: s in page ==> exists k: nat :: k < |rows| && k != oldest && rows[k] == s
  {
    var order: seq<nat> :| ShowsNewest(order, page, rows);
    var missed := CutMissesARow(order, |rows|);
    forall i | 0 <= i < |page|
      ensures order[i] != oldest
    {
      assert rows[missed].suggestedAt <= page[i].suggestedAt;
      assert order[i] in order;
    }
    forall s | s in page
      ensures exists k: nat :: k < |rows| && k != oldest && rows[k] == s
    {
      var i :| 0 <= i < |page| && page[i] == s;
      assert rows[order[i]] == s;
    }
  }

  /** A row with its place in the table. */
  datatype Row = Row(place: nat, item: Suggestion)

  function CompareRow(a: Row, b: Row): int {
    b.item.suggestedAt - a.item.suggestedAt
  }

  function Numbered(rows: seq<Suggestion>): (numbered: seq<Row>)
    ensures |numbered| == |rows| && forall i :: 0 <= i < |rows| ==> numbered[i] == Row(i, rows[i])
  {
    seq(|rows|, i requires 0 <= i < |rows| => Row(i, rows[i]))
  }

  function Items(rows: seq<Row>): (items: seq<Suggestion>)
    ensures |items| == |rows| && forall i :: 0 <= i < |rows| ==> items[i] == rows[i].item
  {
    seq(|rows|, i requires 0 <= i < |rows| => rows[i].item)
  }

  ghost function Places(rows: seq<Row>): (places: seq<nat>)
    ensures |places| == |rows| && forall i :: 0 <= i < |rows| ==> places[i] == rows[i].place
  {
    seq(|rows|, i requires 0 <= i < |rows| => rows[i].place)
  }

  /** Every row of the table in its place, in some order. */
  ghost predicate Reordered(sorted: seq<Row>, rows: seq<Suggestion>) {
    && Distinct(Places(sorted)) && SortedBy(CompareRow, sorted)
    && (forall i :: 0 <= i < |sorted| ==> sorted[i].place < |rows| && sorted[i].item == rows[sorted[i].place])
    && (forall k: nat :: k < |rows| ==> k in Places(sorted))
  }

  lemma SortReorders(rows: seq<Suggestion>)
    ensures var sorted := StableSort(CompareRow, Numbered(rows)); |sorted| == |rows| && Reordered(sorted, rows)
  {
    var numbered := Numbered(rows);
    var sorted := StableSort(CompareRow, numbered);
    SortSorts(CompareRow, numbered);
    SortPermutes(CompareRow, numbered);
    DistinctPermutes(numbered, sorted);
    forall i | 0 <= i < |sorted|
      ensures sorted[i].place < |rows| && sorted[i] == numbered[sorted[i].place]
    {
      assert sorted[i] in sorted;
      var k :| 0 <= k < |numbered| && numbered[k] == sorted[i];
    }
    forall k: nat | k < |rows|
      ensures k in Places(sorted)
    {
      assert numbered[k] in sorted;
      var m :| 0 <= m < |sorted| && sorted[m] == numbered[k];
      assert Places(sorted)[m] == k;
    }
  }

  lemma CutShowsNewest(sorted: seq<Row>, rows: seq<Suggestion>, cut: nat)
    requires cut == (if |rows| < LIST_LIMIT then |rows| else LIST_LIMIT)
    requires |sorted| == |rows| && Reordered(sorted, rows)
    ensures NewestOf(Items(sorted[..cut]), rows)
  {
    var page, order := Items(sorted[..cut]), Places(sorted[..cut]);
    assert forall i :: 0 <= i < cut ==> order[i] == Places(sorted)[i] && page[i] == sorted[i].item;
    forall i, j | 0 <= i < j < cut
      ensures page[i].suggestedAt >= page[j].suggestedAt
    {
      assert CompareRow(sorted[i], sorted[j]) <= 0;
    }
    forall i, k: nat | 0 <= i < cut && k < |rows| && k !in order
      ensures rows[k].suggestedAt <= page[i].suggestedAt
    {
      assert k in Places(sorted);
      var m :| 0 <= m < |sorted| && Places(sorted)[m] == k;
      assert cut <= m;
      assert CompareRow(sorted[i], sorted[m]) <= 0;
    }
    assert ShowsNewest(order, page, rows);
  }

  /** The suggestion table. A write or a listing may fail; a write that fails changes nothing. */
  class SuggestionTable {
    var suggestions: seq<Suggestion>

    constructor ()
      ensures suggestions == []
    {
      suggestions := [];
    }

    method Create(s: Suggestion) returns (ok: bool)
      modifies this
      ensures suggestions == if ok then old(suggestions) + [s] else old(suggestions)
    {
      ok := *;
      if ok {
        suggestions := suggestions + [s];
      }
    }

    /** Deletes the pending suggestions of one type. */
    method ResetSuggested(project: Option<string>, suggestionType: SuggestionType) returns (ok: bool)
      modifies this
      ensures suggestions == if ok then Without(old(suggestions), project, suggestionType) else old(suggestions)
    {
      ok := *;
      if ok {
        suggestions := Without(suggestions, project, suggestionType);
      }
    }

    /** Lists pending suggestions, newest first, unless the listing fails. */
    method ListPending(project: Option<string>, suggestionType: SuggestionType) returns (r: Result<seq<Suggestion>>)
      ensures r.Ok? ==> NewestOf(r.value, PendingIn(suggestions, project, suggestionType))
    {
      if * {
        return Err("listing failed");
      }
      var rows := PendingIn(suggestions, project, suggestionType);
      var cut := if |rows| < LIST_LIMIT then |rows| else LIST_LIMIT;
      SortReorders(rows);
      CutShowsNewest(StableSort(CompareRow, Numbered(rows)), rows, cut);
      r := Ok(Items(StableSort(CompareRow, Numbered(rows))[..cut]));
    }
  }
}
