/** References to the sources behind a chat context: citations of the bundles, then the documents, without repeats. */
module SourceReferences {
  import opened Text
  import opened Uuids
  import opened Ordering
  import opened ContextAssembly
  import Documents = DocumentContext

  const CITATIONS_PER_BUNDLE: nat := 3
  const MAX_BUNDLE_REFERENCES: nat := 12
  const MAX_DOCUMENT_REFERENCES: nat := 8
  const MAX_REFERENCES: nat := 16

  const ENGRAM_SOURCE := "engram_source"
  const DOCUMENT_SOURCE := "document_chunk"

  /** `detail` stands for title, snippet and time. */
  datatype Reference = Reference(sourceType: string, subject: Uuid, url: string, detail: string)

  function Take<T>(items: seq<T>, limit: nat): seq<T> {
    if |items| <= limit then items else items[..limit]
  }

  // ----- first occurrences by key -----

  predicate HasKey<T, K(==)>(items: seq<T>, key: T -> K, wanted: K) {
    exists i :: 0 <= i < |items| && key(items[i]) == wanted
  }

  /** Keeps the first item of every key. */
  function FirstByKey<T, K(==)>(items: seq<T>, key: T -> K): seq<T> {
    if items == [] then []
    else
      var n := |items| - 1;
      var before := FirstByKey(items[..n], key);
      if HasKey(items[..n], key, key(items[n])) then before else before + [items[n]]
  }

  ghost predicate DistinctKeys<T, K>(items: seq<T>, key: T -> K) {
    forall i, j :: 0 <= i < j < |items| ==> key(items[i]) != key(items[j])
  }

  lemma {:induction false} FirstByKeyIsDistinct<T, K>(items: seq<T>, key: T -> K)
    ensures DistinctKeys(FirstByKey(items, key), key) && |FirstByKey(items, key)| <= |items|
    ensures forall i :: 0 <= i < |items| ==> HasKey(FirstByKey(items, key), key, key(items[i]))
    ensures forall i :: 0 <= i < |FirstByKey(items, key)| ==> HasKey(items, key, key(FirstByKey(items, key)[i]))
    ensures forall x :: x in FirstByKey(items, key) ==> x in items
  {
    if items != [] {
      var n := |items| - 1;
      FirstByKeyIsDistinct(items[..n], key);
      var before, after := FirstByKey(items[..n], key), FirstByKey(items, key);
      if HasKey(items[..n], key, key(items[n])) {
        var i :| 0 <= i < n && key(items[..n][i]) == key(items[n]);
        assert HasKey(before, key, key(items[..n][i]));
      } else {
        assert after == before + [items[n]] && after[|before|] == items[n];
      }
      forall i | 0 <= i < |items|
        ensures HasKey(after, key, key(items[i]))
      {
        if i < n {
          assert HasKey(before, key, key(items[..n][i]));
          var k :| 0 <= k < |before| && key(before[k]) == key(items[i]);
          assert after[k] == before[k];
        }
      }
      forall i | 0 <= i < |after|
        ensures HasKey(items, key, key(after[i]))
      {
        if i < |before| {
          var k :| 0 <= k < n && key(items[..n][k]) == key(before[i]);
          assert items[k] == items[..n][k];
        }
      }
    }
  }

  lemma {:induction false} FirstByKeyOfDistinct<T, K>(items: seq<T>, key: T -> K)
    requires DistinctKeys(items, key)
    ensures FirstByKey(items, key) == items
  {
    if items != [] {
      FirstByKeyOfDistinct(items[..|items| - 1], key);
    }
  }

  /** What is kept of a beginning is the beginning of what is kept. */
  lemma {:induction false} FirstByKeyGrows<T, K>(items: seq<T>, key: T -> K, i: nat)
    requires i <= |items|
    ensures FirstByKey(items[..i], key) <= FirstByKey(items, key)
  {
    if i == |items| {
      assert items[..i] == items;
    } else {
      assert items[..|items| - 1][..i] == items[..i];
      FirstByKeyGrows(items[..|items| - 1], key, i);
    }
  }

  /** The loop that skips seen keys and stops when the limit is reached. */
  method KeepFirst<T, K(==)>(items: seq<T>, key: T -> K, limit: nat) returns (kept: seq<T>)
    requires limit > 0
    ensures kept == Take(FirstByKey(items, key), limit)
  {
    kept := [];
    var seen: set<K> := {};
    for i := 0 to |items|
      invariant kept == FirstByKey(items[..i], key) && |kept| < limit
      invariant forall k :: k in seen <==> HasKey(items[..i], key, k)
    {
      var k := key(items[i]);
      KeysStep(items, i, key);
      assert k in seen <==> HasKey(items[..i], key, k);
      if k in seen {
        continue;
      }
      seen := seen + {k};
      kept := kept + [items[i]];
      if |kept| >= limit {
        FirstByKeyGrows(items, key, i + 1);
        assert kept <= FirstByKey(items, key);
        return;
      }
    }
    assert items[..|items|] == items;
  }

  lemma KeysStep<T, K>(items: seq<T>, n: nat, key: T -> K)
    requires n < |items|
    ensures forall k :: HasKey(items[..n + 1], key, k) <==> HasKey(items[..n], key, k) || key(items[n]) == k
    ensures FirstByKey(items[..n + 1], key)
         == if HasKey(items[..n], key, key(items[n])) then FirstByKey(items[..n], key)
            else FirstByKey(items[..n], key) + [items[n]]
  {
    var front, all := items[..n], items[..n + 1];
    assert all[..n] == front && all[n] == items[n];
    forall k
      ensures HasKey(all, key, k) <==> HasKey(front, key, k) || key(items[n]) == k
    {
      if HasKey(front, key, k) {
        var i :| 0 <= i < n && key(front[i]) == k;
        assert all[i] == front[i];
      }
      if HasKey(all, key, k) && key(items[n]) != k {
        var i :| 0 <= i < |all| && key(all[i]) == k;
        assert front[i] == all[i];
      }
    }
  }

  // ----- the references -----

  function UrlKey(r: Reference): string {
    ToLower(TrimSpace(r.url))
  }

  function DocumentKey(r: Reference): Uuid {
    r.subject
  }

  function ReferenceKey(r: Reference): string {
    ToLower(TrimSpace(r.sourceType)) + "|" + ToLower(TrimSpace(r.url))
  }

  /** The first citations of every bundle. */
  function Cited(bundles: seq<Bundle>): seq<Reference> {
    if bundles == [] then []
    else
      var b := bundles[|bundles| - 1];
      var citations := Take(b.citations, CITATIONS_PER_BUNDLE);
      Cited(bundles[..|bundles| - 1])
      + seq(|citations|, i requires 0 <= i < |citations| =>
          Reference(ENGRAM_SOURCE, b.engramId, citations[i].url, citations[i].detail))
  }

  function DocumentUrl(id: Uuid): string {
    "document://" + UuidText(id)
  }

  function Chunked(chunks: seq<Documents.Chunk>): (references: seq<Reference>)
    ensures |references| == |chunks|
    ensures forall i :: 0 <= i < |chunks| ==>
              references[i] == Reference(DOCUMENT_SOURCE, chunks[i].documentId, DocumentUrl(chunks[i].documentId),
                                         chunks[i].body)
  {
    seq(|chunks|, i requires 0 <= i < |chunks| =>
      Reference(DOCUMENT_SOURCE, chunks[i].documentId, DocumentUrl(chunks[i].documentId), chunks[i].body))
  }

  function BundleReferences(bundles: seq<Bundle>): seq<Reference> {
    Take(FirstByKey(Cited(bundles), UrlKey), MAX_BUNDLE_REFERENCES)
  }

  function DocumentReferences(chunks: seq<Documents.Chunk>): seq<Reference> {
    Take(FirstByKey(Chunked(chunks), DocumentKey), MAX_DOCUMENT_REFERENCES)
  }

  function ReferencesOf(bundles: seq<Bundle>, chunks: seq<Documents.Chunk>): seq<Reference> {
    Take(FirstByKey(BundleReferences(bundles) + DocumentReferences(chunks), ReferenceKey), MAX_REFERENCES)
  }

  method CollectSourceReferences(bundles: seq<Bundle>, chunks: seq<Documents.Chunk>) returns (references: seq<Reference>)
    ensures references == ReferencesOf(bundles, chunks)
  {
    var cited := KeepFirst(Cited(bundles), UrlKey, MAX_BUNDLE_REFERENCES);
    var chunked := KeepFirst(Chunked(chunks), DocumentKey, MAX_DOCUMENT_REFERENCES);
    references := KeepFirst(cited + chunked, ReferenceKey, MAX_REFERENCES);
  }

  // ----- what the last deduplication does -----

  lemma {:induction false} CitedAreEngramSources(bundles: seq<Bundle>)
    ensures forall r :: r in Cited(bundles) ==> r.sourceType == ENGRAM_SOURCE
  {
    if bundles != [] {
      CitedAreEngramSources(bundles[..|bundles| - 1]);
    }
  }

  lemma DocumentUrlKey(a: Uuid, b: Uuid)
    requires a != b
    ensures ToLower(TrimSpace(DocumentUrl(a))) != ToLower(TrimSpace(DocumentUrl(b)))
  {
    UuidTextInjective(a, b);
    DocumentUrlEnds("document://", a);
    DocumentUrlEnds("document://", b);
  }

  /** Trimming and folding leave the identifier at the end of the address. */
  lemma DocumentUrlEnds(prefix: string, a: Uuid)
    requires prefix != "" && !IsSpace(prefix[0])
    ensures var folded := ToLower(TrimSpace(prefix + UuidText(a)));
            |folded| >= |prefix| && folded[|prefix|..] == UuidText(a)
  {
    var url := prefix + UuidText(a);
    UuidTextCharacters(a);
    assert url[|url| - 1] == UuidText(a)[|UuidText(a)| - 1];
    TrimSpaceTrims(url);
    LowerTail(prefix, UuidText(a));
  }

  lemma LowerTail(prefix: string, text: string)
    ensures ToLower(prefix + text)[|prefix|..] == ToLower(text)
  {
  }

  lemma SameTypeKeys(a: Reference, b: Reference)
    requires a.sourceType == b.sourceType && UrlKey(a) != UrlKey(b)
    ensures ReferenceKey(a) != ReferenceKey(b)
  {
    var front := ToLower(TrimSpace(a.sourceType)) + "|";
    assert ReferenceKey(a)[|front|..] == UrlKey(a) && ReferenceKey(b)[|front|..] == UrlKey(b);
  }

  lemma FoldedStart(s: string)
    requires s != "" && Trimmed(s)
    ensures ToLower(TrimSpace(s)) != "" && ToLower(TrimSpace(s))[0] == LowerChar(s[0])
  {
    TrimSpaceTrims(s);
  }

  lemma StartsDiffer(a: Reference, b: Reference)
    requires a.sourceType != "" && Trimmed(a.sourceType) && b.sourceType != "" && Trimmed(b.sourceType)
    requires LowerChar(a.sourceType[0]) != LowerChar(b.sourceType[0])
    ensures ReferenceKey(a) != ReferenceKey(b)
  {
    FoldedStart(a.sourceType);
    FoldedStart(b.sourceType);
    assert ReferenceKey(a)[0] == LowerChar(a.sourceType[0]) && ReferenceKey(b)[0] == LowerChar(b.sourceType[0]);
  }

  lemma ConcatDistinct(cited: seq<Reference>, chunked: seq<Reference>)
    requires DistinctKeys(cited, UrlKey) && forall i :: 0 <= i < |cited| ==> cited[i].sourceType == ENGRAM_SOURCE
    requires DistinctKeys(chunked, DocumentKey)
    requires forall i :: 0 <= i < |chunked| ==>
               chunked[i].sourceType == DOCUMENT_SOURCE && chunked[i].url == DocumentUrl(chunked[i].subject)
    ensures DistinctKeys(cited + chunked, ReferenceKey)
  {
    var all, n := cited + chunked, |cited|;
    forall i, j | 0 <= i < j < |all|
      ensures ReferenceKey(all[i]) != ReferenceKey(all[j])
    {
      if j < n {
        SameTypeKeys(cited[i], cited[j]);
      } else if i < n {
        StartsDiffer(cited[i], chunked[j - n]);
      } else {
        DocumentsDiffer(chunked[i - n], chunked[j - n]);
      }
    }
  }

  lemma DocumentsDiffer(a: Reference, b: Reference)
    requires a.sourceType == b.sourceType && a.subject != b.subject
    requires a.url == DocumentUrl(a.subject) && b.url == DocumentUrl(b.subject)
    ensures ReferenceKey(a) != ReferenceKey(b)
  {
    DocumentUrlKey(a.subject, b.subject);
    SameTypeKeys(a, b);
  }

  lemma BundleReferenceKeys(bundles: seq<Bundle>)
    ensures var cited := BundleReferences(bundles);
            DistinctKeys(cited, UrlKey) && forall i :: 0 <= i < |cited| ==> cited[i].sourceType == ENGRAM_SOURCE
  {
    FirstByKeyIsDistinct(Cited(bundles), UrlKey);
    CitedAreEngramSources(bundles);
    var kept := FirstByKey(Cited(bundles), UrlKey);
    assert forall i :: 0 <= i < |kept| ==> kept[i] in kept;
  }

  lemma DocumentReferenceKeys(chunks: seq<Documents.Chunk>)
    ensures var chunked := DocumentReferences(chunks);
            && DistinctKeys(chunked, DocumentKey)
            && forall i :: 0 <= i < |chunked| ==>
                 chunked[i].sourceType == DOCUMENT_SOURCE && chunked[i].url == DocumentUrl(chunked[i].subject)
  {
    FirstByKeyIsDistinct(Chunked(chunks), DocumentKey);
    var kept := FirstByKey(Chunked(chunks), DocumentKey);
    assert forall i :: 0 <= i < |kept| ==> kept[i] in kept;
  }

  /** No two of the collected references share a key, so the last deduplication only cuts the list. */
  lemma ReferencesAreOnlyCut(bundles: seq<Bundle>, chunks: seq<Documents.Chunk>)
    ensures var all := BundleReferences(bundles) + DocumentReferences(chunks);
            DistinctKeys(all, ReferenceKey) && ReferencesOf(bundles, chunks) == Take(all, MAX_REFERENCES)
  {
    var cited, chunked := BundleReferences(bundles), DocumentReferences(chunks);
    BundleReferenceKeys(bundles);
    DocumentReferenceKeys(chunks);
    ConcatDistinct(cited, chunked);
    FirstByKeyOfDistinct(cited + chunked, ReferenceKey);
  }

  // ----- how many references, and which -----

  /** What is kept is the first item of its key. */
  lemma {:induction false} KeptIsFirst<T, K>(items: seq<T>, key: T -> K, k: nat) returns (i: nat)
    requires k < |FirstByKey(items, key)|
    ensures i < |items| && items[i] == FirstByKey(items, key)[k]
    ensures forall j :: 0 <= j < i ==> key(items[j]) != key(items[i])
  {
    var n := |items| - 1;
    var before := FirstByKey(items[..n], key);
    if k < |before| {
      i := KeptIsFirst(items[..n], key, k);
      assert forall j :: 0 <= j <= i ==> items[j] == items[..n][j];
    } else {
      i := n;
      assert !HasKey(items[..n], key, key(items[n]));
      forall j | 0 <= j < n
        ensures key(items[j]) != key(items[n])
      {
        assert items[..n][j] == items[j];
      }
    }
  }

  ghost function Keys<T(!new), K>(items: seq<T>, key: T -> K): set<K> {
    set x | x in items :: key(x)
  }

  lemma KeyIsHeld<T(!new), K>(items: seq<T>, key: T -> K, k: K)
    ensures HasKey(items, key, k) <==> k in Keys(items, key)
  {
    if HasKey(items, key, k) {
      var i :| 0 <= i < |items| && key(items[i]) == k;
      assert items[i] in items;
    }
  }

  /** As many items are kept as there are keys. */
  lemma {:induction false} KeptCount<T(!new), K>(items: seq<T>, key: T -> K)
    ensures |FirstByKey(items, key)| == |Keys(items, key)|
  {
    if items == [] {
      assert Keys(items, key) == {};
    } else {
      var n := |items| - 1;
      KeptCount(items[..n], key);
      KeyIsHeld(items[..n], key, key(items[n]));
      assert items == items[..n] + [items[n]];
      assert Keys(items, key) == Keys(items[..n], key) + {key(items[n])};
    }
  }

  /** The citations of bundles come bundle after bundle, the first three of each, with its engram. */
  lemma {:induction false} CitedByBundle(before: seq<Bundle>, b: Bundle)
    ensures var front, all := Cited(before), Cited(before + [b]);
            && front <= all
            && |all| == |front| + (if |b.citations| < 3 then |b.citations| else 3)
            && forall i :: |front| <= i < |all| ==>
                 all[i] == Reference("engram_source", b.engramId, b.citations[i - |front|].url,
                                     b.citations[i - |front|].detail)
  {
    assert (before + [b])[..|before|] == before;
  }

  function Least(a: nat, b: nat): nat { if a < b then a else b }

  /** The different addresses cited, in any case and with any outer space. */
  ghost function Addresses(bundles: seq<Bundle>): set<string> {
    set r | r in Cited(bundles) :: ToLower(TrimSpace(r.url))
  }

  ghost function DocumentIds(chunks: seq<Documents.Chunk>): set<Uuid> {
    set c | c in chunks :: c.documentId
  }

  lemma BundleReferenceCount(bundles: seq<Bundle>)
    ensures |BundleReferences(bundles)| == Least(12, |Addresses(bundles)|)
  {
    KeptCount(Cited(bundles), UrlKey);
    assert Keys(Cited(bundles), UrlKey) == Addresses(bundles);
  }

  lemma DocumentReferenceCount(chunks: seq<Documents.Chunk>)
    ensures |DocumentReferences(chunks)| == Least(8, |DocumentIds(chunks)|)
  {
    var chunked := Chunked(chunks);
    KeptCount(chunked, DocumentKey);
    assert Keys(chunked, DocumentKey) == DocumentIds(chunks) by {
      forall id: Uuid
        ensures id in Keys(chunked, DocumentKey) <==> id in DocumentIds(chunks)
      {
        if r :| r in chunked && DocumentKey(r) == id {
          var i :| 0 <= i < |chunked| && chunked[i] == r;
          assert chunks[i] in chunks;
        }
        if c :| c in chunks && c.documentId == id {
          var i :| 0 <= i < |chunks| && chunks[i] == c;
          assert chunked[i] in chunked;
        }
      }
    }
  }

  /**
   * Sixteen references at most: up to twelve for the different addresses that the bundles cite, then up to eight for
   * the different documents.
   */
  lemma ReferenceCounts(bundles: seq<Bundle>, chunks: seq<Documents.Chunk>)
    ensures var references := ReferencesOf(bundles, chunks);
            var cited, documents := Least(12, |Addresses(bundles)|), Least(8, |DocumentIds(chunks)|);
            && |references| == Least(16, cited + documents)
            && forall i :: 0 <= i < |references| ==>
                 references[i].sourceType == if i < cited then "engram_source" else "document_chunk"
  {
    ReferencesAreOnlyCut(bundles, chunks);
    BundleReferenceCount(bundles);
    DocumentReferenceCount(chunks);
    BundleReferenceKeys(bundles);
    DocumentReferenceKeys(chunks);
    CutOfTwo(BundleReferences(bundles), DocumentReferences(chunks));
  }

  lemma CutOfTwo(a: seq<Reference>, b: seq<Reference>)
    ensures var cut := Take(a + b, MAX_REFERENCES);
            && |cut| == Least(16, |a| + |b|)
            && forall i :: 0 <= i < |cut| ==> cut[i] == if i < |a| then a[i] else b[i - |a|]
  {
  }
}
