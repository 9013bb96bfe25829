/** Selection of document chunks: pinned ones first, then retrieved ones, without repeats and within a budget. */
module DocumentContext {
  import opened Results
  import opened Uuids
  import opened Ordering

  const MAX_DOCUMENT_BUDGET := 12

  datatype Chunk = Chunk(chunkId: Uuid, documentId: Uuid, body: string)

  /** The answers to the pinned listing, to the one-chunk query of each pinned document, and to the open query. */
  datatype DocumentDependencies = DocumentDependencies(
    pinnedDocuments: Result<seq<Uuid>>,
    bestChunks: Uuid -> Result<seq<Chunk>>,
    retrieved: Result<seq<Chunk>>)

  datatype ChunkSelection = ChunkSelection(pinned: seq<Chunk>, selected: seq<Chunk>, usedChunkIds: seq<Uuid>)

  // ----- pinned chunks -----

  /** The best chunk of every document that has one, or the first query error. */
  function BestChunksOf(documents: seq<Uuid>, bestChunks: Uuid -> Result<seq<Chunk>>): Result<seq<Chunk>> {
    if documents == [] then Ok([])
    else
      var n := |documents| - 1;
      match BestChunksOf(documents[..n], bestChunks)
      case Err(error) => Err(error)
      case Ok(before) =>
        match bestChunks(documents[n])
        case Err(error) => Err(error)
        case Ok(found) => Ok(if found == [] then before else before + [found[0]])
  }

  lemma {:induction false} ChunkErrorStays(documents: seq<Uuid>, bestChunks: Uuid -> Result<seq<Chunk>>, i: nat)
    requires i <= |documents| && BestChunksOf(documents[..i], bestChunks).Err?
    ensures BestChunksOf(documents, bestChunks) == BestChunksOf(documents[..i], bestChunks)
  {
    if i == |documents| {
      assert documents[..i] == documents;
    } else {
      assert documents[..|documents| - 1][..i] == documents[..i];
      ChunkErrorStays(documents[..|documents| - 1], bestChunks, i);
    }
  }

  /** The documents whose query finds a chunk, in order. */
  ghost function Answering(documents: seq<Uuid>, bestChunks: Uuid -> Result<seq<Chunk>>): seq<Uuid> {
    if documents == [] then []
    else
      var n := |documents| - 1;
      Answering(documents[..n], bestChunks)
      + if bestChunks(documents[n]).Ok? && bestChunks(documents[n]).value != [] then [documents[n]] else []
  }

  /** The query of the document at `i` is the first to fail. */
  ghost predicate FirstFails(documents: seq<Uuid>, bestChunks: Uuid -> Result<seq<Chunk>>, i: nat) {
    i < |documents| && bestChunks(documents[i]).Err? && forall k :: 0 <= k < i ==> bestChunks(documents[k]).Ok?
  }

  /** The first chunk found for every document that has one, in order, unless some query fails. */
  lemma {:induction false} BestChunksAnswer(documents: seq<Uuid>, bestChunks: Uuid -> Result<seq<Chunk>>)
    ensures var r, answering := BestChunksOf(documents, bestChunks), Answering(documents, bestChunks);
            && (r.Ok? <==> forall k :: 0 <= k < |documents| ==> bestChunks(documents[k]).Ok?)
            && (r.Ok? ==> |r.value| == |answering|)
            && (r.Ok? ==>
                  forall k :: 0 <= k < |answering| ==>
                    bestChunks(answering[k]).Ok? && bestChunks(answering[k]).value != []
                    && r.value[k] == bestChunks(answering[k]).value[0])
  {
    if documents != [] {
      BestChunksAnswer(documents[..|documents| - 1], bestChunks);
    }
  }

  /** The error is that of the first query that fails. */
  lemma {:induction false} FirstFailureIsReported(documents: seq<Uuid>, bestChunks: Uuid -> Result<seq<Chunk>>, i: nat)
    requires FirstFails(documents, bestChunks, i)
    ensures BestChunksOf(documents, bestChunks) == Err(bestChunks(documents[i]).error)
  {
    var n := |documents| - 1;
    if i < n {
      assert FirstFails(documents[..n], bestChunks, i);
      FirstFailureIsReported(documents[..n], bestChunks, i);
    } else {
      BestChunksAnswer(documents[..n], bestChunks);
    }
  }

  method CollectPinnedDocumentChunks(pinnedIds: seq<Uuid>, bestChunks: Uuid -> Result<seq<Chunk>>)
    returns (r: Result<seq<Chunk>>)
    ensures r == BestChunksOf(Deduped(pinnedIds), bestChunks)
  {
    var documents := DedupePreserveOrder(pinnedIds);
    var chunks: seq<Chunk> := [];
    for i := 0 to |documents|
      invariant BestChunksOf(documents[..i], bestChunks) == Ok(chunks)
    {
      assert documents[..i + 1][..i] == documents[..i];
      match bestChunks(documents[i]) {
        case Err(error) =>
          ChunkErrorStays(documents, bestChunks, i + 1);
          return Err(error);
        case Ok(found) =>
          if |found| == 0 {
            continue;
          }
          chunks := chunks + [found[0]];
      }
    }
    assert documents[..|documents|] == documents;
    return Ok(chunks);
  }

  // ----- selection -----

  predicate HasId(chunks: seq<Chunk>, id: Uuid) {
    exists i :: 0 <= i < |chunks| && chunks[i].chunkId == id
  }

  /** Keeps the first chunk of every id. */
  function DedupedChunks(chunks: seq<Chunk>): seq<Chunk> {
    if chunks == [] then []
    else
      var n := |chunks| - 1;
      var before := DedupedChunks(chunks[..n]);
      if HasId(chunks[..n], chunks[n].chunkId) then before else before + [chunks[n]]
  }

  method DedupeDocumentChunks(chunks: seq<Chunk>) returns (ordered: seq<Chunk>)
    ensures ordered == DedupedChunks(chunks)
  {
    var seen: set<Uuid> := {};
    ordered := [];
    for i := 0 to |chunks|
      invariant ordered == DedupedChunks(chunks[..i])
      invariant forall id: Uuid :: id in seen <==> HasId(chunks[..i], id)
    {
      assert chunks[..i + 1][..i] == chunks[..i];
      HasIdSnoc(chunks[..i], chunks[i]);
      assert chunks[..i + 1] == chunks[..i] + [chunks[i]];
      if chunks[i].chunkId in seen {
        continue;
      }
      seen := seen + {chunks[i].chunkId};
      ordered := ordered + [chunks[i]];
    }
    assert chunks[..|chunks|] == chunks;
  }

  lemma HasIdSnoc(chunks: seq<Chunk>, c: Chunk)
    ensures forall id: Uuid :: HasId(chunks + [c], id) <==> HasId(chunks, id) || c.chunkId == id
  {
    assert (chunks + [c])[|chunks|] == c;
    forall id: Uuid | HasId(chunks, id)
      ensures HasId(chunks + [c], id)
    {
      var i :| 0 <= i < |chunks| && chunks[i].chunkId == id;
      assert (chunks + [c])[i].chunkId == id;
    }
  }

  function Min(a: int, b: int): int { if a < b then a else b }

  function ChunkBudget(documentTopK: int, pinnedCount: int): int {
    Min(if documentTopK < pinnedCount then pinnedCount else documentTopK, MAX_DOCUMENT_BUDGET)
  }

  function Truncated(chunks: seq<Chunk>, budget: int): seq<Chunk> {
    if budget <= 0 || |chunks| <= budget then chunks else chunks[..budget]
  }

  function ChunkIds(chunks: seq<Chunk>): (ids: seq<Uuid>)
    ensures |ids| == |chunks| && forall i :: 0 <= i < |chunks| ==> ids[i] == chunks[i].chunkId
  {
    seq(|chunks|, i requires 0 <= i < |chunks| => chunks[i].chunkId)
  }

  function Selected(pinned: seq<Chunk>, retrieved: seq<Chunk>, documentTopK: int): seq<Chunk> {
    Truncated(DedupedChunks(pinned + retrieved), ChunkBudget(documentTopK, |pinned|))
  }

  function SelectionOf(deps: DocumentDependencies, documentTopK: int): Result<ChunkSelection> {
    match deps.pinnedDocuments
    case Err(error) => Err(error)
    case Ok(documents) =>
      match BestChunksOf(Deduped(documents), deps.bestChunks)
      case Err(error) => Err(error)
      case Ok(pinned) =>
        match deps.retrieved
        case Err(error) => Err(error)
        case Ok(retrieved) =>
          var selected := Selected(pinned, retrieved, documentTopK);
          Ok(ChunkSelection(pinned, selected, ChunkIds(selected)))
  }

  method AssembleDocumentContext(deps: DocumentDependencies, documentTopK: int) returns (r: Result<ChunkSelection>)
    ensures r == SelectionOf(deps, documentTopK)
  {
    if deps.pinnedDocuments.Err? {
      return Err(deps.pinnedDocuments.error);
    }
    var pinned := CollectPinnedDocumentChunks(deps.pinnedDocuments.value, deps.bestChunks);
    if pinned.Err? {
      return Err(pinned.error);
    }
    if deps.retrieved.Err? {
      return Err(deps.retrieved.error);
    }
    var selected := DedupeDocumentChunks(pinned.value + deps.retrieved.value);
    selected := Truncated(selected, ChunkBudget(documentTopK, |pinned.value|));
    return Ok(ChunkSelection(pinned.value, selected, ChunkIds(selected)));
  }

  // ----- the split for rendering -----

  method SplitDocumentChunks(selected: seq<Chunk>, pinned: seq<Chunk>)
    returns (pinnedPart: seq<Chunk>, retrievedPart: seq<Chunk>)
    ensures pinnedPart == Part(selected, pinned, true) && retrievedPart == Part(selected, pinned, false)
  {
    var pinnedIds: set<Uuid> := {};
    for i := 0 to |pinned|
      invariant forall id: Uuid :: id in pinnedIds <==> HasId(pinned[..i], id)
    {
      HasIdSnoc(pinned[..i], pinned[i]);
      assert pinned[..i + 1] == pinned[..i] + [pinned[i]];
      pinnedIds := pinnedIds + {pinned[i].chunkId};
    }
    assert pinned[..|pinned|] == pinned;
    pinnedPart, retrievedPart := [], [];
    for i := 0 to |selected|
      invariant pinnedPart == Part(selected[..i], pinned, true) && retrievedPart == Part(selected[..i], pinned, false)
    {
      assert selected[..i + 1][..i] == selected[..i];
      if selected[i].chunkId in pinnedIds {
        pinnedPart := pinnedPart + [selected[i]];
      } else {
        retrievedPart := retrievedPart + [selected[i]];
      }
    }
    assert selected[..|selected|] == selected;
  }

  /** The selected chunks that are, or are not, pinned. */
  function Part(selected: seq<Chunk>, pinned: seq<Chunk>, wanted: bool): seq<Chunk> {
    if selected == [] then []
    else
      var n := |selected| - 1;
      var before := Part(selected[..n], pinned, wanted);
      if HasId(pinned, selected[n].chunkId) == wanted then before + [selected[n]] else before
  }

  ghost predicate DistinctChunks(chunks: seq<Chunk>) {
    forall i, j :: 0 <= i < j < |chunks| ==> chunks[i].chunkId != chunks[j].chunkId
  }

  lemma {:induction false} DedupedChunksDistinct(chunks: seq<Chunk>)
    ensures DistinctChunks(DedupedChunks(chunks)) && |DedupedChunks(chunks)| <= |chunks|
    ensures forall id: Uuid :: HasId(DedupedChunks(chunks), id) <==> HasId(chunks, id)
  {
    if chunks != [] {
      var n := |chunks| - 1;
      var before := DedupedChunks(chunks[..n]);
      DedupedChunksDistinct(chunks[..n]);
      HasIdSnoc(chunks[..n], chunks[n]);
      HasIdSnoc(before, chunks[n]);
      assert chunks == chunks[..n] + [chunks[n]];
      forall i | 0 <= i < |before|
        ensures HasId(chunks[..n], before[i].chunkId)
      {
        assert HasId(before, before[i].chunkId);
      }
    }
  }

  lemma HasIdPrefix(a: seq<Chunk>, b: seq<Chunk>, id: Uuid)
    ensures HasId(a, id) ==> HasId(a + b, id)
  {
    if HasId(a, id) {
      var i :| 0 <= i < |a| && a[i].chunkId == id;
      assert (a + b)[i].chunkId == id;
    }
  }

  /** Deduplicating two lists keeps the first's chunks in front, and adds only chunks whose ids it lacks. */
  lemma {:induction false} DedupedInTwoParts(pinned: seq<Chunk>, retrieved: seq<Chunk>) returns (added: seq<Chunk>)
    ensures DedupedChunks(pinned + retrieved) == DedupedChunks(pinned) + added
    ensures forall i :: 0 <= i < |added| ==> !HasId(pinned, added[i].chunkId)
  {
    if retrieved == [] {
      added := [];
      assert pinned + retrieved == pinned;
    } else {
      var n, last := |retrieved| - 1, retrieved[|retrieved| - 1];
      added := DedupedInTwoParts(pinned, retrieved[..n]);
      var all := pinned + retrieved;
      assert all[..|all| - 1] == pinned + retrieved[..n] && all[|all| - 1] == last;
      HasIdPrefix(pinned, retrieved[..n], last.chunkId);
      if !HasId(pinned + retrieved[..n], last.chunkId) {
        added := added + [last];
      }
    }
  }

  lemma {:induction false} PartOfUniform(chunks: seq<Chunk>, pinned: seq<Chunk>, isPinned: bool)
    requires forall i :: 0 <= i < |chunks| ==> HasId(pinned, chunks[i].chunkId) == isPinned
    ensures Part(chunks, pinned, isPinned) == chunks && Part(chunks, pinned, !isPinned) == []
  {
    if chunks != [] {
      PartOfUniform(chunks[..|chunks| - 1], pinned, isPinned);
    }
  }

  lemma {:induction false} PartAppends(a: seq<Chunk>, b: seq<Chunk>, pinned: seq<Chunk>, wanted: bool)
    ensures Part(a + b, pinned, wanted) == Part(a, pinned, wanted) + Part(b, pinned, wanted)
  {
    if b == [] {
      assert a + b == a;
    } else {
      assert (a + b)[..|a + b| - 1] == a + b[..|b| - 1];
      PartAppends(a, b[..|b| - 1], pinned, wanted);
    }
  }

  /** Any beginning of pinned chunks followed by others splits into a prefix and the rest. */
  lemma BeginningSplits(a: seq<Chunk>, b: seq<Chunk>, pinned: seq<Chunk>)
    requires forall i :: 0 <= i < |a| ==> HasId(pinned, a[i].chunkId)
    requires forall i :: 0 <= i < |b| ==> !HasId(pinned, b[i].chunkId)
    ensures Part(a + b, pinned, true) == a && Part(a + b, pinned, false) == b
  {
    PartOfUniform(a, pinned, true);
    PartOfUniform(b, pinned, false);
    PartAppends(a, b, pinned, true);
    PartAppends(a, b, pinned, false);
  }

  lemma TakeConcat<T>(a: seq<T>, b: seq<T>, k: nat)
    requires k <= |a + b|
    ensures (a + b)[..k] == if k <= |a| then a[..k] + b[..0] else a[..|a|] + b[..k - |a|]
  {
  }

  lemma SelectedIsBeginning(pinned: seq<Chunk>, retrieved: seq<Chunk>, documentTopK: int) returns (a: seq<Chunk>, b: seq<Chunk>)
    ensures Selected(pinned, retrieved, documentTopK) == a + b
    ensures a <= DedupedChunks(pinned)
    ensures forall i :: 0 <= i < |b| ==> !HasId(pinned, b[i].chunkId)
  {
    var front := DedupedChunks(pinned);
    var added := DedupedInTwoParts(pinned, retrieved);
    var k := |Selected(pinned, retrieved, documentTopK)|;
    TakeConcat(front, added, k);
    if k <= |front| {
      a, b := front[..k], added[..0];
    } else {
      a, b := front[..|front|], added[..k - |front|];
    }
  }

  /** Chunk ids are distinct, and the split for rendering is a prefix and the matching suffix of the selection. */
  lemma SelectionSplitsInOrder(pinned: seq<Chunk>, retrieved: seq<Chunk>, documentTopK: int)
    ensures var selected := Selected(pinned, retrieved, documentTopK);
            && DistinctChunks(selected) && Distinct(ChunkIds(selected))
            && Part(selected, pinned, true) + Part(selected, pinned, false) == selected
  {
    var a, b := SelectedIsBeginning(pinned, retrieved, documentTopK);
    DedupedChunksDistinct(pinned + retrieved);
    DedupedChunksDistinct(pinned);
    forall i | 0 <= i < |a|
      ensures HasId(pinned, a[i].chunkId)
    {
      assert a[i] == DedupedChunks(pinned)[i];
      assert HasId(DedupedChunks(pinned), DedupedChunks(pinned)[i].chunkId);
    }
    BeginningSplits(a, b, pinned);
  }

  /** Every pinned chunk is selected whenever there are at most twelve. */
  lemma PinnedChunksSurvive(pinned: seq<Chunk>, retrieved: seq<Chunk>, documentTopK: int, id: Uuid)
    requires |pinned| <= MAX_DOCUMENT_BUDGET && HasId(pinned, id)
    ensures HasId(Selected(pinned, retrieved, documentTopK), id)
  {
    var added := DedupedInTwoParts(pinned, retrieved);
    var front, selected := DedupedChunks(pinned), Selected(pinned, retrieved, documentTopK);
    DedupedChunksDistinct(pinned);
    assert HasId(front, id);
    var i :| 0 <= i < |front| && front[i].chunkId == id;
    assert selected[i] == front[i];
  }

  // ----- which chunks are selected -----

  /** The ids of the chunks kept are all ids, in the order of their first occurrences. */
  lemma {:induction false} DedupedKeepsIds(chunks: seq<Chunk>)
    ensures ChunkIds(DedupedChunks(chunks)) == Deduped(ChunkIds(chunks))
  {
    if chunks != [] {
      var n := |chunks| - 1;
      DedupedKeepsIds(chunks[..n]);
      assert ChunkIds(chunks) == ChunkIds(chunks[..n]) + [chunks[n].chunkId];
      IdsAreHeld(chunks[..n], chunks[n].chunkId);
      DedupedSnoc(ChunkIds(chunks[..n]), chunks[n].chunkId);
    }
  }

  /** Of every id the first chunk is kept. */
  lemma {:induction false} DedupedKeepsFirst(chunks: seq<Chunk>, c: Chunk) returns (i: nat)
    requires c in DedupedChunks(chunks)
    ensures i < |chunks| && chunks[i] == c && forall j :: 0 <= j < i ==> chunks[j].chunkId != c.chunkId
  {
    var n := |chunks| - 1;
    if c in DedupedChunks(chunks[..n]) {
      i := DedupedKeepsFirst(chunks[..n], c);
      assert forall j :: 0 <= j < n ==> chunks[j] == chunks[..n][j];
    } else {
      i := n;
      assert forall j :: 0 <= j < n ==> chunks[j] == chunks[..n][j];
    }
  }

  lemma IdsAreHeld(chunks: seq<Chunk>, id: Uuid)
    ensures HasId(chunks, id) <==> id in ChunkIds(chunks)
  {
    if HasId(chunks, id) {
      var i :| 0 <= i < |chunks| && chunks[i].chunkId == id;
      assert ChunkIds(chunks)[i] == id;
    }
  }

  /**
   * Selected are the first chunks of the ids, pinned before retrieved, as many as asked for or pinned, whichever is
   * more, but no more than twelve; asked for none, with none pinned, everything retrieved is selected.
   */
  lemma SelectedAreFirst(pinned: seq<Chunk>, retrieved: seq<Chunk>, documentTopK: int)
    ensures var all, selected := DedupedChunks(pinned + retrieved), Selected(pinned, retrieved, documentTopK);
            var wanted := if documentTopK > |pinned| then documentTopK else |pinned|;
            && |all| == |set c | c in pinned + retrieved :: c.chunkId|
            && (if wanted <= 0 then selected == all
                else selected <= all
                     && |selected| == if |all| <= wanted && |all| <= 12 then |all| else if wanted <= 12 then wanted else 12)
  {
    var chunks := pinned + retrieved;
    DedupedKeepsIds(chunks);
    DedupedSize(ChunkIds(chunks));
    assert Elements(ChunkIds(chunks)) == set c | c in chunks :: c.chunkId by {
      forall id: Uuid
        ensures id in ChunkIds(chunks) <==> exists c :: c in chunks && c.chunkId == id
      {
        if id in ChunkIds(chunks) {
          var i :| 0 <= i < |chunks| && ChunkIds(chunks)[i] == id;
          assert chunks[i] in chunks;
        }
        if c :| c in chunks && c.chunkId == id {
          var i :| 0 <= i < |chunks| && chunks[i] == c;
          assert ChunkIds(chunks)[i] == id;
        }
      }
    }
  }

  /**
   * Errors come in the order of the calls: the listing of pinned documents, the query of each, the open query. Otherwise
   * the ids reported are those of the chunks selected, and the pinned chunks are the best of the distinct documents.
   */
  lemma SelectionParts(deps: DocumentDependencies, documentTopK: int)
    ensures var r := SelectionOf(deps, documentTopK);
            if deps.pinnedDocuments.Err? then r == Err(deps.pinnedDocuments.error)
            else
              var best := BestChunksOf(Deduped(deps.pinnedDocuments.value), deps.bestChunks);
              if best.Err? then r == Err(best.error)
              else if deps.retrieved.Err? then r == Err(deps.retrieved.error)
              else
                && r.Ok? && r.value.pinned == best.value
                && r.value.selected == Selected(best.value, deps.retrieved.value, documentTopK)
                && |r.value.usedChunkIds| == |r.value.selected|
                && forall i :: 0 <= i < |r.value.selected| ==> r.value.usedChunkIds[i] == r.value.selected[i].chunkId
  {
  }
}
