/**
 * What a refresh does once more suggestions are pending than a listing shows: for any recommendations, a table on
 * which the second of two refreshes writes again.
 */
module CutListing {
  import opened Results
  import opened Text
  import opened Times
  import opened Uuids
  import opened KeyedRefresh
  import opened CurationStore
  import opened LinkCuration

  /** With more rows than a listing shows, a key that only the oldest carries is not found. */
  lemma PushedOut(read: Suggestion -> Option<string>, rows: seq<Suggestion>, page: seq<Suggestion>, key: string)
    requires NewestOf(page, rows) && |rows| > LIST_LIMIT
    requires forall k: nat :: 0 < k < |rows| ==>
               rows[k].suggestedAt > rows[0].suggestedAt && read(rows[k]) != Some(key)
    ensures key !in ReadKeys(read, page)
  {
    CutLeavesOutOldest(page, rows, 0);
  }

  /**
   * The pending suggestions fill a listing; the first is older than all others and alone with `y`'s key, and no
   * suggestion has `x`'s.
   */
  ghost predicate FullTable(read: Suggestion -> Option<string>, rows: seq<Suggestion>, x: Keyed<Suggestion>,
                            y: Keyed<Suggestion>)
  {
    && |rows| == LIST_LIMIT && read(rows[0]) == Some(y.key)
    && (forall k: nat :: 0 < k < |rows| ==>
          rows[k].suggestedAt > rows[0].suggestedAt && read(rows[k]) != Some(y.key) && read(rows[k]) != Some(x.key))
    && x.key != y.key && read(x.item) == Some(x.key) && x.item.suggestedAt > rows[0].suggestedAt
  }

  lemma WriteIsNew(read: Suggestion -> Option<string>, rows: seq<Suggestion>, x: Keyed<Suggestion>,
                   y: Keyed<Suggestion>, page: seq<Suggestion>)
    requires FullTable(read, rows, x, y) && NewestOf(page, rows)
    ensures After(ReadKeys(read, page), [Some(x), Some(y)]).created == [x.item]
  {
    NewestAreRows(page, rows);
    ShortListingIsComplete(page, rows);
    assert rows[0] in rows;
    OnlyNewIsWritten(ReadKeys(read, page), x, y);
  }

  /** For any reader, the next listing misses the key of the oldest. */
  lemma WriteHidesOldest(read: Suggestion -> Option<string>, rows: seq<Suggestion>, x: Keyed<Suggestion>,
                         y: Keyed<Suggestion>, next: seq<Suggestion>)
    requires FullTable(read, rows, x, y) && NewestOf(next, rows + [x.item])
    ensures y.key !in ReadKeys(read, next)
  {
    PushedOut(read, rows + [x.item], next, y.key);
  }

  /**
   * On every such table a refresh is not idempotent, although the table fits the listing and every action is named:
   * the first writes `x`, that pushes the oldest suggestion out of the next listing, and the second refresh writes
   * `y`, which is still pending, again.
   */
  lemma CutListingWritesAgain(copy: Copy, before: seq<Suggestion>, listed: set<string>, scope: RefreshScope,
                              recs: seq<Recommendation>, later: RefreshScope, again: set<string>,
                              x: Keyed<Suggestion>, y: Keyed<Suggestion>)
    requires later.projectId == scope.projectId && AdminInputs(scope, recs) == [Some(x), Some(y)]
    requires FullTable(Reader(copy), PendingIn(before, Some(scope.projectId), Link), x, y)
    requires Listed(copy, before, scope.projectId, listed)
    requires Listed(copy, AfterRefresh(before, listed, scope, recs), scope.projectId, again)
    ensures Fits(before, scope.projectId) && AfterRefresh(before, listed, scope, recs) == before + [x.item]
    ensures Refreshed(again, later, recs).created != []
  {
    var rows := PendingIn(before, Some(scope.projectId), Link);
    var page :| NewestOf(page, rows) && listed == ReadKeys(Reader(copy), page);
    var after := AfterRefresh(before, listed, scope, recs);
    var next :| NewestOf(next, PendingIn(after, Some(scope.projectId), Link)) && again == ReadKeys(Reader(copy), next);
    FirstWritesOne(copy, before, listed, scope, recs, x, y, page);
    WriteHidesOldest(Reader(copy), rows, x, y, next);
    SecondMisses(again, scope, later, recs, y);
  }

  lemma FirstWritesOne(copy: Copy, before: seq<Suggestion>, listed: set<string>, scope: RefreshScope,
                       recs: seq<Recommendation>, x: Keyed<Suggestion>, y: Keyed<Suggestion>, page: seq<Suggestion>)
    requires AdminInputs(scope, recs) == [Some(x), Some(y)]
    requires FullTable(Reader(copy), PendingIn(before, Some(scope.projectId), Link), x, y)
    requires NewestOf(page, PendingIn(before, Some(scope.projectId), Link)) && listed == ReadKeys(Reader(copy), page)
    ensures AfterRefresh(before, listed, scope, recs) == before + [x.item]
    ensures PendingIn(before + [x.item], Some(scope.projectId), Link)
         == PendingIn(before, Some(scope.projectId), Link) + [x.item]
  {
    var rows := PendingIn(before, Some(scope.projectId), Link);
    WriteIsNew(Reader(copy), rows, x, y, page);
    CreatedArePending(listed, scope, recs);
    assert x.item in Refreshed(listed, scope, recs).created;
    OnePending(before, x.item, scope.projectId);
  }

  lemma OnePending(before: seq<Suggestion>, s: Suggestion, projectId: string)
    requires Pending(s, Some(projectId), Link)
    ensures PendingIn(before + [s], Some(projectId), Link) == PendingIn(before, Some(projectId), Link) + [s]
  {
    PendingAppends(before, [s], Some(projectId), Link);
    AllPending([s], Some(projectId), Link);
  }

  lemma SecondMisses(again: set<string>, scope: RefreshScope, later: RefreshScope, recs: seq<Recommendation>,
                     y: Keyed<Suggestion>)
    requires |recs| == 2 && AdminInputs(scope, recs)[1] == Some(y) && y.key !in again
    ensures Refreshed(again, later, recs).created != []
  {
    InputKeyFixed(scope, later, recs[1]);
    assert AdminInputs(later, recs)[1].Some?;
    CreatesNothingIff(again, later, recs);
  }

  /** The suggestion a refresh at `time` writes for a recommendation reads back, is pending and carries the time. */
  ghost predicate Writes(projectId: string, r: Recommendation, time: Time, x: Keyed<Suggestion>) {
    && AdminInput(RefreshScope(projectId, 0, time), r) == Some(x)
    && !BlankAction(r)
  }

  lemma WrittenReadsBack(copy: Copy, projectId: string, r: Recommendation, time: Time, x: Keyed<Suggestion>)
    requires Writes(projectId, r, time, x)
    ensures KeyRead(copy, x.item) == Some(x.key) && Pending(x.item, Some(projectId), Link) && x.item.suggestedAt == time
  {
    WrittenKeyReadsBack(copy, RefreshScope(projectId, 0, time), r);
  }

  lemma WritesOneKey(projectId: string, r: Recommendation, time: Time, later: Time, x: Keyed<Suggestion>,
                     y: Keyed<Suggestion>)
    requires Writes(projectId, r, time, x) && Writes(projectId, r, later, y)
    ensures x.key == y.key
  {
    InputKeyFixed(RefreshScope(projectId, 0, time), RefreshScope(projectId, 0, later), r);
  }

  lemma Filled(read: Suggestion -> Option<string>, projectId: string, x: Keyed<Suggestion>, y: Keyed<Suggestion>,
               first: Suggestion, others: Suggestion) returns (table: seq<Suggestion>)
    requires Pending(first, Some(projectId), Link) && Pending(others, Some(projectId), Link)
    requires read(first) == Some(y.key) && read(others) != Some(y.key) && read(others) != Some(x.key)
    requires x.key != y.key && read(x.item) == Some(x.key)
    requires first.suggestedAt < others.suggestedAt && first.suggestedAt < x.item.suggestedAt
    ensures PendingIn(table, Some(projectId), Link) == table && FullTable(read, table, x, y)
  {
    table := seq(LIST_LIMIT, i => if i == 0 then first else others);
    AllPending(table, Some(projectId), Link);
  }

  /**
   * There are such tables: for any three recommendations that write under different keys, one suggestion for `r` and
   * newer ones for `f`, as many as a listing shows, make one for a refresh with `a` and `r`.
   */
  lemma FullTableExists(copy: Copy, projectId: string, a: Recommendation, r: Recommendation, f: Recommendation,
                        x: Keyed<Suggestion>, y: Keyed<Suggestion>, oldest: Keyed<Suggestion>, other: Keyed<Suggestion>)
    returns (table: seq<Suggestion>)
    requires Writes(projectId, a, 3, x) && Writes(projectId, r, 3, y)
    requires Writes(projectId, r, 1, oldest) && Writes(projectId, f, 2, other)
    requires x.key != y.key && x.key != other.key && y.key != other.key
    ensures PendingIn(table, Some(projectId), Link) == table && FullTable(Reader(copy), table, x, y)
  {
    WrittenReadsBack(copy, projectId, a, 3, x);
    WrittenReadsBack(copy, projectId, r, 1, oldest);
    WrittenReadsBack(copy, projectId, f, 2, other);
    WritesOneKey(projectId, r, 1, 3, oldest, y);
    table := Filled(Reader(copy), projectId, x, y, oldest.item, other.item);
  }

  /** A recommendation to do something short about one link. */
  function Advice(link: Uuid, target: Uuid, action: string): Recommendation {
    Recommendation(target, [link], action, "", "", "", 0.0)
  }

  ghost predicate ShortAction(action: string) {
    0 < |action| < |AUTO_ARCHIVE_ACTION| && Trimmed(action)
  }

  lemma AdviceIsWritten(projectId: string, link: Uuid, target: Uuid, action: string, time: Time)
    returns (x: Keyed<Suggestion>)
    requires link != NIL && ShortAction(action)
    ensures Writes(projectId, Advice(link, target, action), time, x)
    ensures x.key == DedupKey(UuidText(link), UuidText(target), action)
  {
    var scope, r := RefreshScope(projectId, 0, time), Advice(link, target, action);
    TrimSpaceTrims(action);
    TrimSpaceTrims(ToLower(action));
    assert FirstNonNil(r.linkIds) == link;
    assert !AdminSkips(r);
    x := AdminInput(scope, r).value;
  }

  /** Three recommendations of one action for one link about different engrams give such a table. */
  lemma AdviceFillsTable(projectId: string, link: Uuid, a: Uuid, r: Uuid, f: Uuid, action: string)
    returns (x: Keyed<Suggestion>, y: Keyed<Suggestion>, table: seq<Suggestion>)
    requires link != NIL && ShortAction(action) && a != r && a != f && r != f
    ensures Writes(projectId, Advice(link, a, action), 3, x) && Writes(projectId, Advice(link, r, action), 3, y)
    ensures PendingIn(table, Some(projectId), Link) == table && FullTable(Reader(Admin), table, x, y)
  {
    x := AdviceIsWritten(projectId, link, a, action, 3);
    y := AdviceIsWritten(projectId, link, r, action, 3);
    var oldest := AdviceIsWritten(projectId, link, r, action, 1);
    var other := AdviceIsWritten(projectId, link, f, action, 2);
    KeysAreFaithful(link, a, action, link, r, action);
    KeysAreFaithful(link, a, action, link, f, action);
    KeysAreFaithful(link, r, action, link, f, action);
    table := FullTableExists(Admin, projectId, Advice(link, a, action), Advice(link, r, action),
                             Advice(link, f, action), x, y, oldest, other);
  }
}
