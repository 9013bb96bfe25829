/** The whole chat context: a normalised request, engrams, document chunks, and a rendering within the budget. */
module ChatContext {
  import opened Results
  import opened Uuids
  import opened Times
  import opened Ordering
  import opened LinkTemporal
  import opened TraceChains
  import opened LinkRecall
  import opened CandidateRanking
  import opened Contradictions
  import opened ContextAssembly
  import Documents = DocumentContext
  import Budget = TokenBudget
  import References = SourceReferences

  const DEFAULT_MAX_ENGRAMS := 6
  const DEFAULT_DOCUMENT_TOP := 4
  const DEFAULT_TOKEN_BUDGET := 1200
  const MIN_TOKEN_BUDGET := 200
  const MAX_TOKEN_BUDGET := 8000
  const DEFAULT_RECALL_DEPTH := 1
  const DEFAULT_MAX_NEIGHBORS := 8
  const MAX_NEIGHBORS := 24
  const INCOMPLETE := "chat context dependencies incomplete"

  datatype ChatRequest = ChatRequest(
    recall: RecallRequest,
    sessionProjectId: string,
    documentTopK: int,
    contextTokenBudget: Option<int>)

  /** How sections are worded. */
  datatype Wording = Wording(bundleSection: Bundle -> string, chunkSection: Documents.Chunk -> string)

  datatype ChatContextResult = ChatContextResult(
    markdown: string,
    engrams: EngramContext,
    usedChunkIds: seq<Uuid>,
    references: seq<References.Reference>,
    tokenBudget: int,
    tokenEstimate: int,
    tokenTruncated: bool)

  function ClampInt(value: int, low: int, high: int): int {
    if value < low then low else if value > high then high else value
  }

  function OrElse<T>(option: Option<T>, fallback: T): T {
    if option.Some? then option.value else fallback
  }

  function NormalizedRecall(r: RecallRequest): RecallRequest {
    RecallRequest(
      if r.maxEngrams <= 0 then DEFAULT_MAX_ENGRAMS else r.maxEngrams,
      Some(OrElse(r.linkRecallEnabled, true)),
      Some(ClampInt(OrElse(r.linkRecallDepth, DEFAULT_RECALL_DEPTH), 1, MAX_LINK_RECALL_DEPTH)),
      Some(ClampInt(OrElse(r.linkRecallMaxNeighbors, DEFAULT_MAX_NEIGHBORS), 1, MAX_NEIGHBORS)),
      Some(OrElse(r.noiseSuppressionEnabled, true)),
      Some(Clamp(OrElse(r.noiseScoreThreshold, DEFAULT_NOISE_THRESHOLD), 0.0, 1.0)))
  }

  function Normalized(request: ChatRequest): (normalized: ChatRequest)
    ensures normalized.recall.maxEngrams >= 1 && normalized.documentTopK >= 1
    ensures normalized.contextTokenBudget.Some?
            && MIN_TOKEN_BUDGET <= normalized.contextTokenBudget.value <= MAX_TOKEN_BUDGET
  {
    ChatRequest(
      NormalizedRecall(request.recall),
      request.sessionProjectId,
      if request.documentTopK <= 0 then DEFAULT_DOCUMENT_TOP else request.documentTopK,
      Some(ClampInt(OrElse(request.contextTokenBudget, DEFAULT_TOKEN_BUDGET), MIN_TOKEN_BUDGET, MAX_TOKEN_BUDGET)))
  }

  /** Normalising changes nothing the second time. */
  lemma NormalizedIsStable(request: ChatRequest)
    ensures Normalized(Normalized(request)) == Normalized(request)
  {
  }

  /** What becomes of an optional setting: the default when absent, and otherwise the nearest value within bounds. */
  ghost predicate Settled(given: Option<int>, fallback: int, low: int, high: int, kept: Option<int>) {
    kept == if given.None? then Some(fallback)
            else if given.value < low then Some(low) else if given.value > high then Some(high) else given
  }

  /** The settings a chat context works with: what is given is kept where it is in range, and nothing is left open. */
  lemma SettingsAreSettled(request: ChatRequest)
    ensures var r, n := request.recall, Normalized(request);
            && n.sessionProjectId == request.sessionProjectId
            && n.recall.maxEngrams == (if r.maxEngrams > 0 then r.maxEngrams else 6)
            && n.documentTopK == (if request.documentTopK > 0 then request.documentTopK else 4)
            && Settled(request.contextTokenBudget, 1200, 200, 8000, n.contextTokenBudget)
            && Settled(r.linkRecallDepth, 1, 1, 3, n.recall.linkRecallDepth)
            && Settled(r.linkRecallMaxNeighbors, 8, 1, 24, n.recall.linkRecallMaxNeighbors)
            && (n.recall.linkRecallEnabled == Some(false) <==> r.linkRecallEnabled == Some(false))
            && (n.recall.noiseSuppressionEnabled == Some(false) <==> r.noiseSuppressionEnabled == Some(false))
            && n.recall.linkRecallEnabled.Some? && n.recall.noiseSuppressionEnabled.Some?
            && n.recall.noiseScoreThreshold.Some? && ThresholdIs(r, n.recall.noiseScoreThreshold.value)
  {
  }

  /** A request with every setting in range is kept as it is. */
  lemma ValidRequestIsKept(request: ChatRequest)
    requires request.recall.maxEngrams > 0 && request.documentTopK > 0
    requires request.recall.linkRecallEnabled.Some? && request.recall.noiseSuppressionEnabled.Some?
    requires request.recall.linkRecallDepth.Some? && 1 <= request.recall.linkRecallDepth.value <= 3
    requires request.recall.linkRecallMaxNeighbors.Some? && 1 <= request.recall.linkRecallMaxNeighbors.value <= 24
    requires request.recall.noiseScoreThreshold.Some? && 0.0 <= request.recall.noiseScoreThreshold.value <= 1.0
    requires request.contextTokenBudget.Some? && 200 <= request.contextTokenBudget.value <= 8000
    ensures Normalized(request) == request
  {
  }

  function Sections<T>(header: string, items: seq<T>, section: T -> string): seq<string> {
    if items == [] then [] else [header] + seq(|items|, i requires 0 <= i < |items| => section(items[i]))
  }

  /** Engram sections, then pinned chunks, then retrieved chunks, each group under its header. */
  function AllSections(bundles: seq<Bundle>, selection: Documents.ChunkSelection, wording: Wording): seq<string> {
    Sections("# Engram Retrieval Context", bundles, wording.bundleSection)
    + Sections("# Pinned Document Context", Documents.Part(selection.selected, selection.pinned, true),
               wording.chunkSection)
    + Sections("# Document Retrieval Context", Documents.Part(selection.selected, selection.pinned, false),
               wording.chunkSection)
  }

  /** A group of sections at its place: a header, then the section of every item in order; nothing for no items. */
  ghost predicate GroupAt<T>(sections: seq<string>, at: nat, header: string, items: seq<T>, section: T -> string) {
    items != [] ==>
      && at + 1 + |items| <= |sections| && sections[at] == header
      && forall i :: 0 <= i < |items| ==> sections[at + 1 + i] == section(items[i])
  }

  ghost function GroupSize<T>(items: seq<T>): nat {
    if items == [] then 0 else |items| + 1
  }

  lemma SectionsAreGroup<T>(before: seq<string>, header: string, items: seq<T>, section: T -> string, after: seq<string>)
    ensures |Sections(header, items, section)| == GroupSize(items)
    ensures GroupAt(before + Sections(header, items, section) + after, |before|, header, items, section)
  {
  }

  /** Engrams come first, then the selected chunks that are pinned, then the others, and there is nothing else. */
  lemma SectionsInPlace(bundles: seq<Bundle>, selection: Documents.ChunkSelection, wording: Wording)
    ensures var sections := AllSections(bundles, selection, wording);
            var pinned := Documents.Part(selection.selected, selection.pinned, true);
            var others := Documents.Part(selection.selected, selection.pinned, false);
            && |sections| == GroupSize(bundles) + GroupSize(pinned) + GroupSize(others)
            && GroupAt(sections, 0, "# Engram Retrieval Context", bundles, wording.bundleSection)
            && GroupAt(sections, GroupSize(bundles), "# Pinned Document Context", pinned, wording.chunkSection)
            && GroupAt(sections, GroupSize(bundles) + GroupSize(pinned), "# Document Retrieval Context", others,
                       wording.chunkSection)
  {
    var pinned := Documents.Part(selection.selected, selection.pinned, true);
    var others := Documents.Part(selection.selected, selection.pinned, false);
    var a := Sections("# Engram Retrieval Context", bundles, wording.bundleSection);
    var b := Sections("# Pinned Document Context", pinned, wording.chunkSection);
    var c := Sections("# Document Retrieval Context", others, wording.chunkSection);
    SectionsAreGroup([], "# Engram Retrieval Context", bundles, wording.bundleSection, b + c);
    SectionsAreGroup(a, "# Pinned Document Context", pinned, wording.chunkSection, c);
    SectionsAreGroup(a + b, "# Document Retrieval Context", others, wording.chunkSection, []);
    assert a + b + c == [] + a + (b + c) && a + b + c == a + b + c + [];
  }

  ghost predicate FaithfulRendering(r: ChatContextResult, selection: Documents.ChunkSelection, wording: Wording) {
    var sections := Budget.WithoutBlank(AllSections(r.engrams.bundles, selection, wording));
    && |r.markdown| <= r.tokenBudget * Budget.CHARS_PER_TOKEN
    && r.tokenEstimate == Budget.EstimateTokens(r.markdown) <= r.tokenBudget
    && (r.tokenTruncated <==> |Budget.JoinSections(sections)| > r.tokenBudget * Budget.CHARS_PER_TOKEN)
    && Budget.LongestPrefix(sections, r.tokenBudget * Budget.CHARS_PER_TOKEN, r.markdown)
  }

  method BuildContextSections(bundles: seq<Bundle>, selection: Documents.ChunkSelection, wording: Wording)
    returns (sections: seq<string>)
    ensures sections == AllSections(bundles, selection, wording)
  {
    var pinnedPart, retrievedPart := Documents.SplitDocumentChunks(selection.selected, selection.pinned);
    sections := Sections("# Engram Retrieval Context", bundles, wording.bundleSection)
                + Sections("# Pinned Document Context", pinnedPart, wording.chunkSection)
                + Sections("# Document Retrieval Context", retrievedPart, wording.chunkSection);
  }

  lemma NothingToRender(bundles: seq<Bundle>, selection: Documents.ChunkSelection, wording: Wording)
    requires bundles == [] && selection.selected == []
    ensures AllSections(bundles, selection, wording) == [] && References.ReferencesOf(bundles, selection.selected) == []
  {
    assert References.Cited(bundles) == [] && References.Chunked(selection.selected) == [];
  }

  /** Renders what was selected; with nothing selected the context is empty. */
  method Rendered(engrams: EngramContext, selection: Documents.ChunkSelection, budget: int, wording: Wording)
    returns (result: ChatContextResult)
    requires budget >= 1
    ensures result.engrams == engrams && result.usedChunkIds == selection.usedChunkIds && result.tokenBudget == budget
    ensures result.references == References.ReferencesOf(engrams.bundles, selection.selected)
    ensures FaithfulRendering(result, selection, wording)
  {
    if |engrams.bundles| == 0 && |selection.selected| == 0 {
      NothingToRender(engrams.bundles, selection, wording);
      Budget.PrefixIsLongest([], budget * Budget.CHARS_PER_TOKEN, 0, "");
      return ChatContextResult("", engrams, selection.usedChunkIds, [], budget, 0, false);
    }
    var sections := BuildContextSections(engrams.bundles, selection, wording);
    var rendering := Budget.BuildBudgetedContextMarkdown(sections, budget);
    var references := References.CollectSourceReferences(engrams.bundles, selection.selected);
    return ChatContextResult(rendering.markdown, engrams, selection.usedChunkIds, references, budget,
                             rendering.tokenEstimate, rendering.truncated);
  }

  /**
   * Nothing is asked of incomplete dependencies; traversal alone may be missing. An error of either part is the
   * error of the whole, engrams first. Otherwise the result reports the engram context, the selected chunks and the
   * references of the normalised request, rendered within its budget.
   */
  method AssembleChatContext(scoring: Scoring, request: ChatRequest, complete: bool, engramDeps: EngramDependencies,
                             documentDeps: Documents.DocumentDependencies, wording: Wording)
    returns (r: Result<ChatContextResult>)
    ensures var n := Normalized(request);
            var engrams := ContextOf(scoring, EngramRequest(n.recall, n.sessionProjectId), engramDeps);
            var chunks := Documents.SelectionOf(documentDeps, n.documentTopK);
            if !complete then r == Err(INCOMPLETE)
            else if engrams.Err? then r == Err(engrams.error)
            else if chunks.Err? then r == Err(chunks.error)
            else r.Ok? && r.value.engrams == engrams.value && r.value.usedChunkIds == chunks.value.usedChunkIds
                 && r.value.references == References.ReferencesOf(engrams.value.bundles, chunks.value.selected)
                 && r.value.tokenBudget == n.contextTokenBudget.value
                 && FaithfulRendering(r.value, chunks.value, wording)
  {
    if !complete {
      return Err(INCOMPLETE);
    }
    var n := Normalized(request);
    var assembled := AssembleEngramContext(scoring, EngramRequest(n.recall, n.sessionProjectId), engramDeps);
    if assembled.Err? {
      return Err(assembled.error);
    }
    var chosen := Documents.AssembleDocumentContext(documentDeps, n.documentTopK);
    if chosen.Err? {
      return Err(chosen.error);
    }
    var result := Rendered(assembled.value, chosen.value, n.contextTokenBudget.value, wording);
    return Ok(result);
  }
}
