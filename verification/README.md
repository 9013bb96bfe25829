# Verified model of the memory recall, limiter and curation core

Dafny 4.11. `dafny verify dfyconfig.toml` checks the project.

The back end answers chat requests from stored memories ("engrams"). This project models and proves four parts of it:

- **Recall.** Links are traversed breadth-first from pinned and retrieved seed engrams (`LinkTraversal`; `LinkReach` says
  which links that covers), the steps are turned into trace chains for each root (`TraceChains`), the best path per
  target is merged over all roots, noise is suppressed and a bounded pool selected (`LinkRecall`), candidates are ranked
  by a fused score with a guaranteed linked one (`CandidateRanking`), bundles are packed under an access check
  (`ContextAssembly`), conflicts become warnings (`Contradictions`), and the whole is rendered within a token budget with
  its references (`DocumentContext`, `SourceReferences`, `TokenBudget`, `ChatContext`). `ContextTheorems` holds the
  end-to-end results; `RecallOptimality` says exactly when greedy promotion finds the best walks.
- **Limiters.** `RequestLimiter` and `LoginGuard`, each with local state and on the shared rows of `RateLimiting`;
  `SharedLoginGuard` says what the shared login guard answers and exactly when that differs from the local one.
- **Curation.** Keyed refresh of link suggestions (`KeyedRefresh`, `LinkCuration`, `CutListing`), paging syncs
  (`CurationSync`) over the suggestion table (`CurationStore`), and scheduled hygiene (`LinkHygiene`).
- **Counters, retention, decay.** `RequestMetrics`, `Retention`, `LinkTemporal`.

`Results`, `Times`, `Text`, `Uuids` and `Ordering` are shared.

How the source is represented:

- An identifier is a number below 2^128. Its canonical text is defined, and comparing numbers is proved to be comparing
  texts. A time is a count of nanoseconds since the zero instant, which is 0.
- A score is a real. Decay by half-life is any function with the laws of one (`HalvingLaws`); the bounds on scores
  hold without the laws. Clock readings during recall are a function of the root and the step.
- Repository calls are parameters: a value per call made once, a function for calls made per id. Any of them may fail.
- Stored rows carry their time; a listing shows the newest first, and rows of one instant come in any order, since the
  model does not hold the identifiers that break such ties.
- A Go map iterated in unknown order is iterated by an arbitrary choice, and the result is proved not to depend on it.
- Code that loops or updates is a method, proved equal to a function of its inputs or of the old state; the properties
  are lemmas about that function.

Where the code does not do what one would expect of it:

- Reinforcing a link can lower its later weight (`LinkTemporal.ReinforcementNeverLowersIff` gives the exact condition):
  when the link has no reference instant, a stored weight above 1, or a reference so far in the future that the weight
  exceeds what the boosted weight decays to by then. The schema rules out the first two (a creation time is required and
  weights are at most 1, db/init/001_schema.sql:223 and 230), so of stored links only those with such a future
  reference lose (`LinkTemporal.StoredLinkLosesIff`, and `LinkTemporal.FarReferenceLoses` for one of them).
- A recommendation with a blank action is written again by every refresh, because its key does not read back
  (`LinkCuration.RefreshIsIdempotentIff`).
- Once more suggestions are pending than a listing shows, a refresh can write again what is already pending
  (`CutListing.CutListingWritesAgain`); it writes nothing exactly when every key is listed
  (`LinkCuration.CreatesNothingIff`).
- The two readers of stored keys differ on payloads without a target (`LinkCuration.ReadersAgree`).
- A better, longer chain through a sibling can hide an engram that a walk reaches
  (`RecallOptimality.SiblingLinkHidesWalk`); `RecallOptimality.RecallIsOptimalIff` says exactly when nothing is lost.
- The suppressed count of the selection is 0 when every path was suppressed (`ContextTheorems.LinkCountsMatchTraversal`).
- A block of the request limiter also ends with its window (`RequestLimiter.BlockEndsAtEarlierBound`), and so does a
  lockout of the shared login guard (`SharedLoginGuard.SharedDiffersIff`).
- A hygiene run drops recommendations: those to be archived behind the limit are neither archived nor suggested
  (`LinkHygiene.DroppedIff`).

## Model

| member | source | states |
|---|---|---|
| ContextTheorems.UsedEngramsAreFirstAccessible | internal/chat/context.go:255-306 | The used engrams are exactly the first `maxEngrams` readable ids of the ranking, in that order and without repeats, for every request, traversal and access answer. |
| ContextTheorems.UsedBundlesAreRehydrated | internal/chat/context.go:584-620 | The bundles of a context are, one for one and in order, what its used engrams rehydrate to. |
| ContextTheorems.SeedsOfContext | internal/chat/context.go:565-582 | The seeds of a context are pinned or retrieved, as many of the distinct ones as it may hold; pinned come before retrieved, either kind in the order of first occurrence, and whatever is left out comes after every seed. |
| ContextTheorems.NearerSeedIsRankedFirst | internal/chat/context_links_candidates.go:296-315 | In the ranking of a context, of two seeds that are not pinned the one whose nearest hit is nearer comes first, a negative distance counting as none. |
| ContextTheorems.LinkedIsRankedBefore | internal/chat/context_links_candidates.go:132-169 | In the ranking of a context a linked engram comes before every seed whose lead in relevance, times 0.58, is at most 0.42 of its path's score plus 0.03. |
| ContextTheorems.PathsScoreTheirWalks | internal/chat/context_links.go:75-118 | Every surviving path scores what a walk over its root's traversal scores that starts with the relevance of its root. |
| ContextTheorems.PathsLeadFromSeedsToUsed | internal/chat/context.go:255-306 | A surviving trace path is exactly a selected path whose target was used; each is a genuine walk from a seed to a non-seed target over links the traversal returned for that seed, and no two share a target. |
| ContextTheorems.PathsStayWithinDepth | internal/repository/engram_links.go:315-342 | Over the repository's own traversal, every surviving path is no longer than the requested depth (as the traversal bounds it) and uses no link twice. |
| ContextTheorems.LinksAndWarningsMatchPaths | internal/chat/context_links.go:238-251 | The used links are exactly the links on surviving paths, once each; there is exactly one warning for each surviving path that crosses a contradicting link, naming its ends and those links, and warnings come in strict order of severity, root and target. |
| ContextTheorems.AuditIdentities | internal/chat/context.go:622-641 | Candidates = seeds + linked engrams; linked candidates = surviving + filtered paths (the clip at 0 never acts); suppressed and truncated are those of the selection; packed + blocked is at most the candidates, and equals them unless the limit was reached. |
| ContextTheorems.AuditOfProjects | internal/chat/context.go:643-696 | The cross-project counts are the numbers of used engrams from other, named projects and of surviving paths to them, the second at most the first; the project list is strictly sorted and exactly those projects. |
| ContextTheorems.LinkCountsMatchTraversal | internal/chat/context_links.go:24-56 | Selected + truncated paths = distinct targets, no seeds, with a path that scores the threshold or with suppression off; the suppressed count is the number of paths below the threshold when suppression is on, except that it is 0 when there is no such target. The threshold is the one given, brought into [0,1], or 0.30. |
| ContextTheorems.LinkCountsOfContext | internal/chat/context.go:308-352 | The same of the links of a context: they are counted from the traversals of its seeds started with their relevance, as many are selected as the pool holds, and there are none unless recall is on, with room, seeds, depth, neighbours and a traversal. |
| ContextTheorems.ForeignCountsAreExact | internal/chat/context.go:653-683 | The counts accumulated over bundles and paths are the sizes of the set of foreign engrams and of the foreign targets. |
| ContextTheorems.PromotedIsPacked | internal/chat/context.go:584-620 | Whatever is readable among the first `maxEngrams` of the ranking, a promoted linked engram included, is always used. |
| ContextTheorems.LinkedMemoryIsUsed | internal/chat/context_links_candidates.go:181-212 | If links were recalled, all of them readable, and there is room for two, some trace path survives into the final context. |
| ContextTheorems.ContextFailsWithFirstError | internal/chat/context.go:255-352 | The error of a context is the first to come: of the pinned listing, the query, or the first ranked engram that cannot be read while there is room for it; without any there is a context. |
| ContextTheorems.CandidatesFailWithFirstRoot | internal/chat/context_links.go:75-118 | With links asked for, the candidates fail if and only if some seed cannot be traversed, with the error of the first such seed. |
| ContextTheorems.CandidatesAreSound | internal/chat/context.go:308-352 | Seeds are distinct and within the limit, the ranking holds each seed and linked id once and nothing else, and with room for two a linked id is inside the limit. |
| ContextAssembly.SelectContextEngramIds | internal/chat/context.go:565-582 | The loop returns pinned then retrieved ids without repeats, cut at the limit. |
| ContextAssembly.SeedsAreFirstOffers | internal/chat/context.go:565-582 | Every seed is pinned or retrieved, there are min(limit, distinct ids) of them, a seed comes before every later seed and before every id left out: pinned before retrieved, each kind in the order of its first occurrences. |
| ContextAssembly.PinnedSeedsComeFirst | internal/chat/context.go:565-582 | A retrieved id that is not pinned is a seed only when every pinned id is, and stands behind them all. |
| ContextAssembly.SelectEngramCandidates | internal/chat/context.go:308-352 | Each repository error is returned as it occurs; otherwise seeds, links and ranking are those of the specification. |
| ContextAssembly.CollectRehydrationBundles | internal/chat/context.go:584-620 | The loop that stops early equals the packing of the whole list: it is left as soon as the limit is reached, and an error beyond that point is never seen. |
| ContextAssembly.PackingIsFirstAccessible | internal/chat/context.go:584-620 | Packing keeps exactly the first readable candidates up to the limit; visited = packed + blocked, and everything is visited when the limit is not reached. |
| ContextAssembly.PackedAreRehydrated | internal/chat/context.go:584-620 | The packed bundles are what the first readable candidates rehydrate to, one for one, min(limit, readable) of them. |
| ContextAssembly.PackingCounts | internal/chat/context.go:584-620 | Visited = packed + blocked, the packed ones are the readable ones visited, and visiting ends with the last candidate or with the readable one that reaches the limit. |
| ContextAssembly.PackingFailsIff | internal/chat/context.go:597-619 | Packing fails if and only if some candidate cannot be read and fewer than the limit of readable ones precede it. |
| ContextAssembly.FirstFailingCandidate | internal/chat/context.go:597-619 | The error is that of the first candidate that cannot be read and whose turn comes. |
| ContextAssembly.EarlyAccessibleIsPacked | internal/chat/context.go:584-620 | A readable candidate ranked inside the limit is packed, whatever is blocked before it. |
| ContextAssembly.SummarizeCrossProjectBundles | internal/chat/context.go:653-669 | The loop yields the project of every engram and the count and set of the foreign ones. |
| ContextAssembly.CountCrossProjectTracePaths | internal/chat/context.go:671-683 | Counts the paths whose target is a foreign engram, one for each path; with distinct targets that is the number of foreign targets (`ContextTheorems.ForeignCountsAreExact`). |
| ContextAssembly.SortedProjectIds | internal/chat/context.go:685-692 | Strictly sorted, with exactly the projects of the set, in whatever order the set is enumerated. |
| ContextAssembly.BuildEngramRetrievalAudit | internal/chat/context.go:622-641 | The audit reports the numbers of the specification about which the identities are proved. |
| ContextAssembly.AssembleEngramContext | internal/chat/context.go:255-306 | The whole assembly equals its specification, for every answer of the repository. |
| ChatContext.AssembleChatContext | internal/chat/context.go:187-253 | Incomplete dependencies are refused before anything is asked; an engram error wins over a chunk error; otherwise the result holds the engram context, chunks and source references of the normalised request, and the rendering is the longest prefix of sections that fits the budget. |
| ChatContext.SettingsAreSettled | internal/chat/context.go:423-466 | Every setting given within its range is kept, one out of range becomes the nearest bound (1 to 3 for the depth, 1 to 24 neighbours, 0 to 1 for the threshold, 200 to 8000 tokens) or the default where only a sign is asked for, and an absent one the default (6 engrams, 4 chunks, 1200 tokens, depth 1, 8 neighbours, threshold 0.30, both switches on). |
| ChatContext.ValidRequestIsKept | internal/chat/context.go:423-466 | A request with every setting given and in range is kept unchanged. |
| SourceReferences.KeepFirst | internal/chat/context.go:884-903 | The loop that skips seen keys and stops at the limit keeps the first item of every key, cut at the limit. |
| SourceReferences.CollectSourceReferences | internal/chat/context.go:798-875 | Citations without repeated addresses, then documents without repeats, each list cut, then both together deduplicated and cut. |
| SourceReferences.ReferencesAreOnlyCut | internal/chat/context.go:220-226 | No two collected references share a key, so the last deduplication never drops one; it only cuts the list at its limit. |
| SourceReferences.CitedByBundle | internal/chat/context.go:798-831 | A bundle contributes its first three citations, with its engram, behind those of the bundles before it. |
| SourceReferences.KeptIsFirst | internal/chat/context.go:884-903 | What is kept of a key is its first item. |
| SourceReferences.ReferenceCounts | internal/chat/context.go:798-903 | There are min(16, min(12, different addresses cited) + min(8, different documents)) references, citations first. |
| ChatContext.BuildContextSections | internal/chat/context.go:921-961 | Engrams, then pinned, then retrieved chunks, each group under its header and none when empty. |
| ChatContext.SectionsInPlace | internal/chat/context.go:921-961 | At which places the headers and the section of each engram and chunk stand, and that there is nothing else. |
| ChatContext.NormalizedIsStable | internal/chat/context.go:423-466 | Normalising a normalised request changes nothing. |
| TraceChains.RootPathsAreGenuine | internal/chat/context_links_trace.go:21-136 | Every path built for a root, from any steps, starts at the root and ends at its target; it has depth links and depth+1 engrams, its i-th link is an input step of depth i joining neighbours, its contradicting links are exactly those of that kind in order, its score is in [0,1]; targets are distinct and come best first. |
| TraceChains.RootPathsAreComplete | internal/chat/context_links_trace.go:104-123 | Every reached engram other than the root has a path. |
| TraceChains.ChainIsWalk | internal/chat/context_links_trace.go:57-102 | Every chain is the record of a walk through earlier steps, although a source may be promoted again after the chain was copied from it, and scores above every chain held for the engram before the walk arrived. |
| TraceChains.WalkChainRecords | internal/chat/context_links_trace.go:84-102 | A walk's chain lists its engrams, links and contradicting links in order. |
| TraceChains.OfferNeverBeatsKept | internal/chat/context_links_trace.go:57-68 | No chain ever offered for a target scores above the one finally kept. |
| TraceChains.KeptIsFirstBestOffer | internal/chat/context_links_trace.go:57-68 | The chain kept for a target is the earliest of its best offers, or the root's own start. |
| TraceChains.PathSortUnique | internal/chat/context_links_trace.go:104-116 | Two enumerations of the same paths, with distinct targets, sort to the same sequence: map order cannot be observed. |
| TraceChains.SortedIsBestFirst | internal/chat/context_links_trace.go:151-162 | The comparator puts a path ahead by score, then depth, then target text, strictly. |
| TraceChains.StepOrder | internal/chat/context_links_trace.go:138-149 | The step comparator is a total preorder: shallower steps first, then heavier links, then smaller link ids. |
| TraceChains.PathScoreIsMonotone | internal/chat/context_links_trace.go:177-190 | A better source, a better link and a smaller depth never lower a path's score. |
| TraceChains.QualityDiffers | internal/chat/context_links_trace.go:184-190 | Of stored links, one is better than another by 0.30 of the difference in weight, 0.25 in confidence, 0.30 in decayed weight and 0.15 in recency: no clip acts. |
| TraceChains.EvenQuality | internal/chat/context_links_trace.go:184-190 | A link equally good in all four respects has that quality. |
| TraceChains.WalkScores | internal/chat/context_links_trace.go:84-102 | A walk starts with the seed's score, and each step makes the score 0.42 of what it was plus 0.48 of the link's quality plus 0.10 over the depth: no clip acts. |
| TraceChains.BuildTracePathsFromChains | internal/chat/context_links_trace.go:104-116 | Any iteration order of the chains yields exactly the set of their paths. |
| TraceChains.BuildTracePathsForRoot | internal/chat/context_links_trace.go:21-36 | The loop returns the paths of the specification, sorted, for any order in which the map is walked. |
| RecallOptimality.EveryStepTakenIff | internal/chat/context_links_trace.go:57-82 | For sorted steps: every step that continues a walk over earlier steps is taken, if and only if none of them is overtaken, that is, no walk of another length to its source is preferred (scores more, or as much and arrives earlier) to every walk the step continues. |
| RecallOptimality.RecallIsOptimalIff | internal/chat/context_links_trace.go:57-82 | For sorted steps: after every step each engram a walk reaches is held with the score of its best walk, if and only if no overtaken step would have improved its target. |
| RecallOptimality.RecallIsOptimal | internal/chat/context_links_trace.go:57-82 | Under that condition what is recalled is what any walk reaches, and the kept chain is one of the best walks. |
| RecallOptimality.SettledIsNotOvertaken | internal/chat/context_links_trace.go:70-82 | When no link arrives at an engram as late as one leaves it, nothing is overtaken. |
| RecallOptimality.OnlySiblingsOvertake | internal/repository/engram_links.go:527-551 | On a breadth-first traversal only a link between two engrams of one level overtakes: the overtaking walk is one link longer and ends with it. |
| RecallOptimality.TraversalWithoutSiblingsIsOptimal | internal/repository/engram_links.go:315-342 | A traversal of the repository on which no link arrives as deep as a link that leaves its target overtakes and loses nothing. |
| RecallOptimality.DefaultDepthIsOptimal | internal/chat/context.go:443-448 | At the default depth of 1, where no link joins an engram to itself (which the schema forbids), recall is always optimal. |
| RecallOptimality.SiblingTraceIsTraversed | internal/repository/engram_links.go:315-342 | The losing trace is what the traversal returns for a repository of four links. |
| LinkTraversal.TraverseEngramLinks | internal/repository/engram_links.go:315-342 | The loop over levels returns the steps of the specification, or the first error. |
| LinkTraversal.TraversalState.CollectNextFrontier | internal/repository/engram_links.go:527-551 | Unseen links become steps of the level, and the engrams they reach for the first time the next frontier. |
| LinkTraversal.TraversalIsLevelled | internal/repository/engram_links.go:315-342 | Every step leaves an engram one level above its depth, arrives no deeper than its depth, and is no deeper than the depth asked for. |
| LinkTraversal.TraversalStepsOnce | internal/repository/engram_links.go:527-551 | No link is stepped over twice. |
| LinkTraversal.TraversalFailsAt | internal/repository/engram_links.go:315-342 | A traversal fails with the error of a level whose listing fails, when that level is reached. |
| LinkReach.TraversalIsComplete | internal/repository/engram_links.go:315-342 | Where no listing is cut, a traversal steps over exactly the links that leave an engram closer to the root than its depth, each at the depth of the shortest walk that ends with it. |
| RecallOptimality.SiblingLinkHidesWalk | internal/chat/context_links_trace.go:70-82 | Greedy promotion is not optimal in general: a link between siblings replaces a chain by a better, longer one, the step behind it is overtaken, and an engram a walk reaches is lost. |
| Uuids.CompareUuidIsTextual | internal/chat/context_links_trace.go:164-175 | Comparing ids as numbers is comparing their canonical texts. |
| Uuids.UuidTextForm | internal/chat/context_links_trace.go:164-175 | A canonical text is 32 hexadecimal digits in groups of 8, 4, 4, 4 and 12 with dashes between. |
| Ordering.SortSorts | internal/chat/context_links_trace.go:51-55 | The stable sort of any total preorder sorts. |
| Ordering.SortIsStable | internal/chat/context_links_trace.go:51-55 | It leaves equal elements in their order. |
| Ordering.SortedPermutationUnique | internal/chat/context_links_trace.go:104-116 | Two sorted permutations are equal when ties are. |
| Ordering.DedupePreserveOrder | internal/chat/context.go:524-535 | The loop keeps the first occurrence of every id, in order. |
| Ordering.DedupedKeepsOrder | internal/chat/context.go:524-535 | Of two ids kept, the one kept first occurs before the other does. |
| LinkRecall.MergeTracePathCandidates | internal/chat/context_links.go:120-137 | The loop leaves the merge of the paths it is given and the number of those suppressed. |
| LinkRecall.MergeKeepsFirstBest | internal/chat/context_links.go:120-156 | After any paths, a target is kept if and only if some path was offered for it, and what is kept is the highest-scoring offer, the earliest among equals. |
| LinkRecall.MergedIffLoudEnough | internal/chat/context_links.go:120-214 | A target has a candidate if and only if it is no seed and some path to it has suppression off or a score of at least the threshold (the one given, brought into [0,1], or 0.30); the candidate is such a path and scores at least every other. |
| LinkRecall.SuppressedAreBelow | internal/chat/context_links.go:120-214 | The suppressed count is the number of paths that score below the threshold when suppression is on, hits on seeds included, and 0 otherwise. |
| LinkRecall.FatesPartition | internal/chat/context_links.go:120-148 | Every path is exactly one of suppressed, seed hit, offered. |
| LinkRecall.CollectLinkedTracePathCandidates | internal/chat/context_links.go:75-100 | Traversing roots one by one with a running merge equals merging all their paths; the suppressed count is that of all of them. |
| LinkRecall.TraversalFailsIff | internal/chat/context_links.go:102-118 | Collection fails if and only if some root cannot be traversed. |
| LinkRecall.FirstFailingRoot | internal/chat/context_links.go:75-118 | The error is that of the first root whose traversal fails. |
| LinkRecall.TraversedPathsAreRootPaths | internal/chat/context_links.go:75-118 | The paths collected are exactly the trace paths of the roots, each root started with its seed's score, or 0 without one. |
| LinkRecall.TraversedPathScores | internal/chat/context_links.go:102-118 | Every path collected scores what a walk over its root's traversal scores. |
| LinkRecall.SortLinkedTraceCandidates | internal/chat/context_links.go:158-165 | The result does not depend on the order in which the map is walked. |
| LinkRecall.SelectLinkedTraceCandidates | internal/chat/context_links.go:167-182 | The first paths up to the limit, their targets, and the number left behind. |
| LinkRecall.SelectedAreMerged | internal/chat/context_links.go:139-156 | A selected path is the merged one of its target, has a target that is no seed and, with suppression on, a score not under the threshold. |
| LinkRecall.SelectionCounts | internal/chat/context_links.go:158-182 | Selected + truncated = distinct merged targets; targets are distinct and sorted. |
| LinkRecall.SelectionFillsPool | internal/chat/context_links.go:167-199 | With room for two, min(32, max(engrams asked for, twice the room the seeds leave)) paths are selected, or all there are. |
| LinkRecall.SelectionIsTopOfMerge | internal/chat/context_links.go:158-182 | Every selected path is strictly ahead of every merged path left behind. |
| LinkRecall.PoolLimitBounds | internal/chat/context_links.go:184-199 | The pool holds at least two and at most the maximum pool, and never less than the engrams asked for within that maximum. |
| LinkRecall.SelectLinkedEngramContext | internal/chat/context_links.go:24-56 | Off, without traversal, without seeds or without room nothing is selected; otherwise errors pass and the selection is that of the merge. |
| LinkRecall.LinkedWhenAsked | internal/chat/context_links.go:24-73 | Links are recalled if and only if recall is on, there is room for two engrams, and seeds, depth, number of neighbours and traversal are there; otherwise the selection is empty. |
| LinkRecall.FilterTracePathsForUsedEngrams | internal/chat/context_links.go:216-236 | Keeps the paths whose target was used, sorted. |
| LinkRecall.PathsToProperties | internal/chat/context_links.go:216-236 | Filtering keeps order and distinct targets and drops exactly the paths to unused engrams. |
| LinkRecall.CollectUsedLinkIds | internal/chat/context_links.go:238-251 | Every link of every path, each once, in order of first use. |
| CandidateRanking.RankEngramContextCandidates | internal/chat/context_links_candidates.go:26-43 | Building, sorting and covering equal the ranking of the specification. |
| CandidateRanking.RankingIsExact | internal/chat/context_links_candidates.go:26-63 | The ranking holds every distinct seed or linked id exactly once. |
| CandidateRanking.LinkedIsCovered | internal/chat/context_links_candidates.go:181-238 | With anything linked and room for two, a linked id is among the first `maxEngrams`. |
| CandidateRanking.AtMostOneMoves | internal/chat/context_links_candidates.go:181-252 | The ranking is score order, or score order with its first linked id moved from behind the limit to second place and the ones it passes closing up; so the best stays first. |
| CandidateRanking.HigherRankComesFirst | internal/chat/context_links_candidates.go:26-43 | An engram whose candidate outranks that of one not linked comes before it, however candidates are moved for coverage. |
| CandidateRanking.MoreRelevantSeedRanksFirst | internal/chat/context_links_candidates.go:132-169 | Of two seeds without a trace the more relevant one comes first. |
| CandidateRanking.NearerSeedRanksFirst | internal/chat/context_links_candidates.go:132-315 | Of two seeds neither pinned nor traced, the one whose nearest hit is nearer comes first. |
| CandidateRanking.SortedByScoreProperties | internal/chat/context_links_candidates.go:149-179 | Score order: exactly the seeds and linked ids, each once; every candidate outranks every later one by score, trace, relevance, depth, being a seed, and id. |
| CandidateRanking.EnsureLinkedCandidateCoverage | internal/chat/context_links_candidates.go:181-252 | Window test, search behind the window and insertion equal the covering of the specification. |
| CandidateRanking.BuildSeedRelevanceScores | internal/chat/context_links_candidates.go:296-308 | The two loops build the relevance map of the specification. |
| CandidateRanking.SeedRelevanceIsBest | internal/chat/context_links_candidates.go:296-315 | Pinned ids score 1; every other hit scores the best relevance of its distances, in (0,1]; no other id is scored. |
| CandidateRanking.RelevanceIsReciprocal | internal/chat/context_links_candidates.go:310-315 | The relevance of a distance d is r with r * (1 + max(d, 0)) = 1. |
| CandidateRanking.SeedScoreIsOfNearest | internal/chat/context_links_candidates.go:296-315 | An id that is not pinned scores the r with r * (1 + d) = 1 for the least distance d of its hits, a negative one counting as none. |
| CandidateRanking.BuildTracePathCandidateStats | internal/chat/context_links_candidates.go:65-96 | The loop builds the statistics of the specification. |
| CandidateRanking.StatsAreBest | internal/chat/context_links_candidates.go:65-96 | A target's statistics are the score of its best path and the least depth among its paths of that score. |
| CandidateRanking.FusedScoreIsMonotone | internal/chat/context_links_candidates.go:132-147 | More relevance, a better trace, or being a seed never lowers the score; so a traced engram is never below itself untraced. |
| CandidateRanking.TracedAheadOfSeedIff | internal/chat/context_links_candidates.go:98-169 | A traced engram that is no seed ranks ahead of an untraced seed if and only if 0.58 of the seed's lead in relevance is at most 0.42 of the trace score plus 0.03. |
| CandidateRanking.TracedSeedAheadIff | internal/chat/context_links_candidates.go:98-169 | A traced seed ranks ahead of an untraced one if and only if 0.58 of the other's lead in relevance is at most 0.42 of the trace score plus 0.08. |
| CandidateRanking.CandidateFields | internal/chat/context_links_candidates.go:98-130 | A candidate carries its seed score, its trace score and depth, or no trace score and depth 4, and whether it is a seed. |
| Contradictions.BuildContradictionWarnings | internal/chat/context_contradictions.go:9-28 | The loop and sort build the warnings of the specification. |
| Contradictions.WarningsMatchConflicts | internal/chat/context_contradictions.go:9-50 | Exactly one warning per path that crosses a contradicting link, with its ends and those links, high at depth 1, medium at 2 and low beyond, each with its message. |
| Contradictions.WarningsInOrder | internal/chat/context_contradictions.go:52-71 | Every warning comes before every later one by severity, then root, then target. |
| TokenBudget.ContextSectionsWithoutEmptyValues | internal/chat/context_token_budget.go:43-53 | Sections that trim to nothing are dropped, the others trimmed, in order. |
| TokenBudget.SectionStaysIff | internal/chat/context_token_budget.go:43-53 | A section of white space is dropped; any other is kept without the white space at its ends, and nothing else of it is lost. |
| TokenBudget.WithoutBlankAppends | internal/chat/context_token_budget.go:43-53 | Filtering two lists one after the other is filtering their concatenation: every section stays in its place. |
| TokenBudget.JoinSplits | internal/chat/context_token_budget.go:76-78 | A join splits at any place into the joins of both parts with an empty line between, down to the single sections. |
| TokenBudget.TrimmedToBudget | internal/chat/context_token_budget.go:81-89 | A section that fits is left alone; of any other what is left is its beginning, with three characters given to an ellipsis and the white space at its ends dropped, or its first characters when there is room for three or fewer. |
| TokenBudget.EstimateIsLeast | internal/chat/context_token_budget.go:95-101 | The estimate is the least number of tokens that cover the text, without its outer white space, at four characters each. |
| TokenBudget.JoinSectionsWithinCharBudget | internal/chat/context_token_budget.go:55-79 | For any sections: the text is within the budget, truncated is set if and only if the full join does not fit (or, without a budget, there is any section), and the text is the join of the longest prefix of sections that fits, or the trimmed first section. |
| TokenBudget.BuildBudgetedContextMarkdown | internal/chat/context_token_budget.go:27-41 | For any sections and budget: at most four characters a token, an estimate within the budget, the truncated flag and the longest prefix as above; untruncated, everything is there. |
| DocumentContext.CollectPinnedDocumentChunks | internal/chat/context.go:494-522 | The loop returns the best chunks of the distinct pinned documents in order, or the first error. |
| DocumentContext.BestChunksAnswer | internal/chat/context.go:494-522 | Unless some query fails, the chunks are the first one found for each document that has any, in order. |
| DocumentContext.FirstFailureIsReported | internal/chat/context.go:494-522 | The error is that of the first query that fails. |
| DocumentContext.DedupeDocumentChunks | internal/chat/context.go:537-548 | The loop keeps the first chunk of every id. |
| DocumentContext.DedupedKeepsFirst | internal/chat/context.go:537-548 | A chunk that is kept is the first of its id. |
| DocumentContext.DedupedKeepsIds | internal/chat/context.go:537-548 | The ids kept are all the ids, in the order of their first occurrences. |
| DocumentContext.AssembleDocumentContext | internal/chat/context.go:354-388 | Errors in order of the calls; otherwise pinned chunks, then retrieved, without repeats, cut at the budget. |
| DocumentContext.SelectionParts | internal/chat/context.go:354-388 | Errors come in the order of the calls; otherwise the ids reported are those of the selected chunks, in order. |
| DocumentContext.SelectedAreFirst | internal/chat/context.go:354-388 | The selection is a beginning of pinned then retrieved chunks without repeats: as many as there are, but no more than asked for or pinned, whichever is more, nor than 12; with neither, it is not cut. |
| DocumentContext.SplitDocumentChunks | internal/chat/context.go:963-981 | The loop splits the selection by membership among the pinned chunks, keeping order. |
| DocumentContext.SelectionSplitsInOrder | internal/chat/context.go:963-981 | Chunk ids are distinct, and the pinned part followed by the retrieved part is the selection: rendering loses and reorders nothing. |
| DocumentContext.PinnedChunksSurvive | internal/chat/context.go:468-471 | With at most 12 pinned chunks every one of them is selected. |
| LinkTemporal.DecayedWeight | internal/chat/link_temporal.go:31-39 | A decayed weight is always in [0,1], whatever is stored. |
| LinkTemporal.ReinforcedWeight | internal/chat/link_temporal.go:42-44 | So is a reinforced weight. |
| LinkTemporal.CountsFromReference | internal/chat/link_temporal.go:16-21 | A link counts from its last reinforcement; one never reinforced, or at the zero instant, from its creation. |
| LinkTemporal.WeightHalves | internal/chat/link_temporal.go:31-39 | 45 days without reinforcement halve a weight. |
| LinkTemporal.ReinforcementAdds | internal/chat/link_temporal.go:42-44 | Reinforcement adds 0.18 to what is left of a weight, up to 1. |
| LinkTemporal.RecencyHalves | internal/chat/link_temporal.go:46-52 | Recency is 1 up to the reference, is halved by every 30 days after it, and is 0.5 without one. |
| LinkTemporal.DecayIsAntitone | internal/chat/link_temporal.go:23-39 | A non-negative weight never rises by waiting. |
| LinkTemporal.DecayComposes | internal/chat/link_temporal.go:23-28 | Decaying to an instant between and then onwards is decaying at once. |
| LinkTemporal.ReinforcementNeverLowersIff | cmd/api/chat_link_reinforcement.go:395-414 | Reinforcing is never a loss at any later time if and only if the link is safe to reinforce: it has no positive weight, or it has a reference instant and, that being past, a decayed weight of at most 1, or, that being in the future, a weight of at most what min(1, weight + 0.18) has decayed to by then. Every other link loses at some later instant. |
| LinkTemporal.StoredLinkLosesIff | cmd/api/chat_link_reinforcement.go:395-414 | Of the links the schema admits, exactly those lose that have a reference in the future and a weight above what min(1, weight + 0.18) has decayed to by then. |
| LinkTemporal.FarReferenceLoses | internal/chat/link_temporal.go:16-44 | Such a link: weight 0.9 and a reference two half lives ahead. |
| LinkTemporal.OrdinaryReinforcementNeverLowers | internal/chat/link_temporal.go:31-44 | A link with a weight in [0,1] and a reference in the past is safe. |
| RateLimiting.RateLimitStore.MutateState | internal/auth/ratelimit_store_pgx.go:29-64 | One atomic step: the row is inserted if absent, given to the mutator, and replaced only when asked; when the mutator or the transaction fails nothing has changed. |
| RateLimiting.RateLimitStore.DeleteState | internal/auth/ratelimit_store_pgx.go:67-75 | Removes exactly one row, or fails and changes nothing. |
| RateLimiting.RateLimitStore.ClearNamespace | internal/auth/ratelimit_store_pgx.go:78-85 | Removes exactly the rows of one namespace, or fails and changes nothing. |
| RateLimiting.RetryAfterIsRemaining | internal/auth/ratelimit.go:69-75 | The announced wait is the whole seconds that remain, and one second when less remains. |
| RequestLimiter.RequestRateLimiter.ConsumeLocal | internal/auth/request_limiter.go:148-164 | The method changes the map, and answers, as the local step. |
| RequestLimiter.RequestRateLimiter.ConsumeDistributed | internal/auth/request_limiter.go:111-146 | The method changes the row, and answers, as the distributed step; when the store fails the rows are unchanged. |
| RequestLimiter.RequestRateLimiter.Consume | internal/auth/request_limiter.go:167-180 | With a store that answers, the distributed step and no local change; otherwise the local step and no change of the store. |
| RequestLimiter.RequestRateLimiter.Reset | internal/auth/request_limiter.go:95-102 | Clears the local windows and, unless the store fails, the rows of the namespace. |
| RequestLimiter.LocalAndDistributedBisimilar | internal/auth/request_limiter.go:111-164 | Every sequence of calls over any keys gets the same answers from both forms, from a store without rows of the namespace, and their states stay equal; not even a forward clock is needed. |
| RequestLimiter.OtherRowsUntouched | internal/auth/request_limiter.go:104-146 | A run leaves every row of another namespace, and of a key without calls, as it was. |
| RequestLimiter.WindowsStaySound | internal/auth/request_limiter.go:148-164 | In every run the count never exceeds the threshold by more than one, a block is set exactly when it does, and a block never ends before the minimum gap. |
| RequestLimiter.BlockEndsAtEarlierBound | internal/auth/request_limiter.go:182-201 | A blocked key is served again exactly from the earlier of its block's end and its window's end. |
| RequestLimiter.ExceedingCallBlocks | internal/auth/request_limiter.go:148-201 | A call in a full window begun at s is refused with the seconds to u, u being the call's time plus the block duration, or s plus the window without one; a later call is refused, with the seconds to u, if and only if it comes before u and before s plus the window. |
| RequestLimiter.BlockFollowsExceedingCall | internal/auth/request_limiter.go:148-201 | Over any run with calls for any keys: from the call that begins a window as many calls for its key as the threshold are served, the next one in the window is refused and sets the block, the key is refused until the block or the window ends, and its first call after that is served and begins a window. |
| RequestLimiter.FirstCallBegins | internal/auth/request_limiter.go:182-194 | The first call for a key begins a window. |
| RequestLimiter.MakeConfig | internal/auth/request_limiter.go:72-85 | Settings below their least value (1 request, 1 second of window, 0 of block) are raised to it; others are kept, seconds in nanoseconds. |
| RequestLimiter.RetryAfterIsHonest | internal/auth/ratelimit.go:69-75 | A refused key is served one second after the announced wait at the latest, and not before it while its window lasts and a second of block is left. |
| RequestLimiter.ThroughputBound | internal/auth/request_limiter.go:148-164 | In every run, an interval of any length that spans no more than g gaps has at most (g+1)*maxRequests-1 allowed calls per key, a gap being the window, or the block if that is shorter; so at most 2*maxRequests-1 within one gap. |
| RequestLimiter.SharedThroughputBound | internal/auth/request_limiter.go:111-146 | The same of the distributed form. |
| RequestLimiter.ThroughputBoundIsReached | internal/auth/request_limiter.go:148-164 | For every configuration with a gap of at least two instants and every number of gaps there is a run that reaches the bound. |
| LoginGuard.LoginAttemptGuard.CheckLocal | internal/auth/login_guard.go:124-142 | The method prunes, deletes and answers as the local check step. |
| LoginGuard.LoginAttemptGuard.CheckDistributed | internal/auth/login_guard.go:102-122 | The method changes the row, and answers, as the shared check step; when the store fails the rows are unchanged. |
| LoginGuard.LoginAttemptGuard.Check | internal/auth/login_guard.go:145-159 | On the trimmed key: the shared step when there is a store that answers, the local step otherwise, and no change of the other state. |
| LoginGuard.LoginAttemptGuard.RegisterFailureLocal | internal/auth/login_guard.go:189-199 | The method prunes, appends and locks as the local failure step. |
| LoginGuard.LoginAttemptGuard.RegisterFailureDistributed | internal/auth/login_guard.go:172-187 | The method counts and blocks as the shared failure step. |
| LoginGuard.LoginAttemptGuard.RegisterFailure | internal/auth/login_guard.go:202-211 | On the trimmed key: the shared step when there is a store that answers, the local step otherwise. |
| LoginGuard.LoginAttemptGuard.RegisterSuccess | internal/auth/login_guard.go:162-170 | Forgets exactly the trimmed key, locally and, unless the store fails, in the store. |
| LoginGuard.LoginAttemptGuard.Reset | internal/auth/login_guard.go:86-93 | Forgets every key locally and, unless the store fails, clears the namespace. |
| LoginGuard.MakeConfig | internal/auth/login_guard.go:62-76 | Settings below 1 are raised to 1; others are kept, seconds in nanoseconds. |
| SharedLoginGuard.OtherNamespacesUntouched | internal/auth/login_guard.go:86-122 | A run on a shared store, resets included, leaves every row of another namespace as it was. |
| SharedLoginGuard.SharedGuardAnswersByWindow | internal/auth/login_guard.go:102-122 | Over any calls for any keys, with a store that does not fail, a check refuses if and only if the running window, which begins with the first call after the last one ended, holds maxAttempts failures and the lockout of the latest has not ended; it gives the remaining time of that lockout. |
| SharedLoginGuard.SharedDiffersIff | internal/auth/login_guard.go:102-142 | The shared and the local guard answer differently if and only if the local one refuses and the running window holds fewer than maxAttempts failures; then the shared one allows. So the shared guard never refuses more. |
| SharedLoginGuard.LockoutEndsWithWindow | internal/auth/ratelimit.go:42-47 | For every configuration: enough failures in the last instant of a window lock the local guard, while the shared one lets the key in when the window ends. |
| SharedLoginGuard.SharedRunStandsFor | internal/auth/login_guard.go:172-187 | In every reachable state each row holds the count of its window and the block of its latest failure. |
| LoginGuard.ActiveFailures | internal/auth/login_guard.go:217-227 | The loop keeps the failures not before the cutoff. |
| LoginGuard.PrunedGuardAgreesWithFullHistory | internal/auth/login_guard.go:124-142 | Over any interleaving of keys and calls with a clock that never goes back, each check answers as a guard that remembers every failure since the last success or reset: refused if and only if some failure completed maxAttempts within a window and its lockout has not ended, with the retry time of the latest such failure. |
| LoginGuard.RunStandsForHistory | internal/auth/login_guard.go:189-199 | In every reachable state the pruned failures and lockout of each key stand for its whole history. |
| LoginGuard.ForgivenKeyIsAllowed | internal/auth/login_guard.go:162-166 | Right after a success or reset the key is allowed. |
| LoginGuard.IdleKeyIsForgotten | internal/auth/login_guard.go:124-142 | An allowed check keeps a key if and only if it has a failure in the window, then without a lockout, and touches no other key. |
| LinkCuration.ExistingKeys | internal/admin/service_link_curation.go:189-203 | The loop reads exactly the keys of the suggestions that have one, as either copy reads them. |
| CurationStore.SuggestionTable.ListPending | internal/repository/memory_curation_suggestions.go:298-325 | A listing shows the newest pending suggestions first, at most 500 of them, and leaves out none that is newer than one it shows; or it fails. |
| LinkCuration.WrittenKeyReadsBack | internal/admin/service_link_curation.go:134-233 | The key either copy reads back from a written payload is the key computed when it was written, except that a blank action reads back as no key. |
| LinkCuration.KeysAreFaithful | internal/admin/service_link_curation.go:205-214 | Two recommendations share a key if and only if link and target are the same and the actions agree up to case and surrounding space. |
| LinkCuration.InputsAgree | cmd/api/chat_link_reinforcement.go:504-531 | The scheduled job and the admin refresh skip the same recommendations and write the same suggestion under the same key. |
| LinkCuration.ReadersAgree | cmd/api/chat_link_reinforcement.go:488-502 | They read the same key, except where a stored payload has no target: the admin copy then reads none, while the scheduled copy needs link and action alone. |
| LinkCuration.SuggestionsAreFaithful | internal/admin/service_link_curation.go:134-170 | Two suggestions are equal if and only if project, engram, time, link, and all of the recommendation but its list of links are. |
| LinkCuration.SuggestionSays | internal/admin/service_link_curation.go:246-264 | The reason is the detail without outer space, or a stock one for a blank detail; the text names the action without outer space, or none for a blank action. |
| LinkCuration.ConfidenceBySeverity | internal/admin/service_link_curation.go:266-275 | The confidence is 0.9 for "high", 0.75 for "medium" and 0.6 for anything else, in any case and with any outer space. |
| LinkCuration.ChosenLinkIsFirst | internal/admin/service_link_curation.go:180-187 | The link chosen is the first that is not nil, and nil if there is none. |
| LinkCuration.ListSuggestedKeys | internal/admin/service_link_curation.go:111-132 | The keys are those read from a listing of the pending suggestions, or the listing's error is returned. |
| LinkCuration.ListedKeysAreKnown | internal/admin/service_link_curation.go:111-132 | Listed keys are keys of pending suggestions, and all of them when these fit the listing. |
| LinkCuration.PersistRecommended | internal/admin/service_link_curation.go:80-109 | When the listing fails nothing is written; otherwise the loop appends exactly the suggestions new to the listed keys, up to a failing write, and counts them. |
| LinkCuration.CreatePending | cmd/api/chat_link_reinforcement.go:287-313 | The scheduled loop appends the same suggestions. |
| LinkCuration.CreatesNothingIff | internal/admin/service_link_curation.go:80-109 | Whatever was listed, a refresh creates nothing if and only if every key it would write is among the keys listed. |
| LinkCuration.RefreshIsIdempotentIff | internal/admin/service_link_curation.go:80-109 | While the pending suggestions fit the listing after the first refresh (and so before it), a second one with the same recommendations, in either copy and from any engram of the project, creates nothing if and only if no written recommendation has a blank action. |
| LinkCuration.RefreshTwice | internal/admin/service_link_curation.go:80-109 | Of two runs of the refresh the second reports 0 created if and only if it lists every key, and, while the pending suggestions fit the listing, if and only if no written action is blank. |
| CutListing.CutListingWritesAgain | internal/admin/service_link_curation.go:111-132 | Without the hypothesis it fails: on a table that fits the listing, whose oldest suggestion is alone with a key, a refresh with a new recommendation and that one writes the new one; the next listing misses the oldest, and a second refresh writes it again. |
| CutListing.FullTableExists | internal/admin/service_link_curation.go:111-132 | Such tables exist for any three recommendations written under different keys. |
| CutListing.AdviceFillsTable | internal/admin/service_link_curation.go:134-170 | In particular for three recommendations of one short action for one link about three engrams: an input on which the second refresh writes again. |
| LinkCuration.RefreshResumesIff | internal/admin/service_link_curation.go:80-109 | While the pending suggestions fit the listing, a refresh that stopped after m recommendations and is run again ends as if it had not stopped, if and only if none of the m has a blank action. |
| LinkCuration.BlankKeyNeverRead | internal/admin/service_link_curation.go:189-203 | No stored suggestion ever reads back, in either copy, as the key of a blank action. |
| KeyedRefresh.ReadKeysAreWritten | internal/admin/service_link_curation.go:80-109 | For any writer and reader that undo each other, the known keys plus those read from what was created are the final key set. |
| KeyedRefresh.ResumeSkipsDone | internal/admin/service_link_curation.go:80-109 | Running again over a finished prefix creates exactly the rest. |
| KeyedRefresh.CreatedNothingKnowsAll | internal/admin/service_link_curation.go:80-109 | Nothing is created only when every key was known. |
| CurationStore.SuggestionTable.ResetSuggested | internal/admin/service_curation_generation.go:19-21 | Deletes exactly the pending suggestions of one type and scope, or fails and changes nothing. |
| CurationStore.OnlyOpenAreDeleted | internal/admin/service_curation_generation.go:19-21 | What is left are exactly the suggestions that are decided, of another type, or of another project than the one given; with the deleted ones they are all there were. |
| CurationSync.SyncConsolidation | internal/admin/service_curation_generation.go:14-81 | The paging loop ends; when all goes well the table holds what was left and one suggestion per candidate of the whole listing, in order, whatever its length; after a failing page or write, those of a prefix. |
| CurationSync.SyncContradiction | internal/admin/service_curation_generation.go:83-151 | The same of alerts. |
| CurationSync.ConsolidationMirrors | internal/admin/service_curation_generation.go:14-81 | Afterwards the pending suggestions of the type are the candidate list one to one, and nothing else changed. |
| CurationSync.ContradictionMirrors | internal/admin/service_curation_generation.go:83-151 | The same of alerts. |
| CurationSync.CandidateRowsDiffer | internal/admin/service_curation_generation.go:14-81 | Different candidates give different suggestions. |
| CurationSync.AlertRowsDiffer | internal/admin/service_curation_generation.go:83-151 | Different alerts give different suggestions. |
| CurationSync.CandidateSays | internal/admin/service_curation_generation.go:44-72 | A candidate's suggestion is open, of its project and the time of the sync, keeps a confidence in [0,1], and names the number of engrams in decimal digits. |
| CurationSync.AlertSays | internal/admin/service_curation_generation.go:113-142 | An alert's suggestion is open, of its project and the time of the sync, keeps a confidence in [0,1], and names both engrams. |
| CurationSync.OtherTypesUntouched | internal/admin/service_curation_generation.go:14-21 | Rebuilding one type leaves the pending suggestions of every other type, in any scope, as they were. |
| LinkHygiene.SelectAutoArchiveLinkIds | cmd/api/chat_link_reinforcement.go:416-441 | The loop returns the first distinct links of archivable recommendations, up to the limit. |
| LinkHygiene.ArchivableHasNoInput | cmd/api/chat_link_reinforcement.go:504-531 | A recommendation to be archived is suggested by neither copy; any other is, unless all its links are nil. |
| LinkHygiene.ArchivedIff | cmd/api/chat_link_reinforcement.go:416-441 | A link is archived if and only if fewer distinct links than the limit were named for archiving before it. |
| LinkHygiene.DroppedIff | cmd/api/chat_link_reinforcement.go:416-531 | A completed run drops a recommendation, neither archiving nor suggesting it nor finding it suggested, if and only if it is to be archived but names no link or one behind the limit, or is not and has only nil links. |
| LinkHygiene.WrittenAreSuggested | cmd/api/chat_link_reinforcement.go:287-313 | A run writes exactly the suggestions of the recommendations fated so, in order. |
| LinkHygiene.ArchivedLinkIsSuggested | cmd/api/chat_link_reinforcement.go:171-192 | A link archived for one recommendation is still suggested for another that names it with another action. |
| LinkHygiene.ArchiveRecommendedLinks | cmd/api/chat_link_reinforcement.go:209-226 | Archives the selected links in order until one fails. |
| LinkHygiene.PersistLinkCurationSuggestions | cmd/api/chat_link_reinforcement.go:228-258 | Without a project nothing is written; otherwise the table is that of a scheduled refresh, up to a failing write, and a failing listing writes nothing. |
| LinkHygiene.LinkHygieneRunTracker.ShouldRun | cmd/api/chat_link_reinforcement.go:36-51 | True if and only if the source is not nil and never ran or ran at least the interval ago. |
| LinkHygiene.LinkHygieneRunTracker.MarkRun | cmd/api/chat_link_reinforcement.go:53-60 | Records the run of a source that is not nil. |
| LinkHygiene.ExecuteForSource | cmd/api/chat_link_reinforcement.go:171-192 | A run that is not due, or without recommendations, changes nothing; a completed one has archived all selected links, gone through all suggestions and been marked; a failing one is not marked, and writes no suggestion before every archiving has succeeded. |
| LinkHygiene.CompletedRunsAreSpaced | cmd/api/chat_link_reinforcement.go:36-60 | Over any sequence of attempts, two completed runs for a source are at least the interval apart. |
| LinkHygiene.CompletedIff | cmd/api/chat_link_reinforcement.go:36-60 | Over any sequence of attempts, one is completed if and only if its source is not nil, its work succeeds, and every completed run for the source lies at least the interval back. |
| RequestMetrics.InMemoryRequestMetrics.Record | internal/api/request_observability.go:104-132 | One record bumps the totals, one status class, one domain and one route, and keeps the conservation laws. |
| RequestMetrics.InMemoryRequestMetrics.RecordStreamHealth | internal/api/request_observability.go:214-232 | One record updates one stream's counters; no stream has more failures than ends. |
| RequestMetrics.InMemoryRequestMetrics.TakeSnapshot | internal/api/request_observability.go:135-155 | A snapshot equals the state when taken, with averages; it is a value, which later records cannot reach. |
| RequestMetrics.CountersConserve | internal/api/request_observability.go:104-132 | Over any run: requests = sum over classes = sum over domains = sum of route counts, and errors = sum of route errors. |
| RequestMetrics.RoutesCountTheirSamples | internal/api/request_observability.go:104-132 | Each route counts exactly its own records and its own errors, so never more errors than records, and adds up its own durations. |
| RequestMetrics.StreamsCountTheirSamples | internal/api/request_observability.go:214-232 | Each stream counts exactly its own ends and those that did not complete. |
| RequestMetrics.StreamsAddUpTheirSamples | internal/api/request_observability.go:214-232 | Each stream adds up its own chunks, a negative number counting as none, and durations. |
| RequestMetrics.AverageIsShare | internal/api/request_observability.go:195-201 | An average times the count is the total. |
| RequestMetrics.StatusClasses | internal/api/request_observability.go:253-258 | Codes from 100 to 599 fall into five classes, and the fifth holds exactly the errors; codes up to 0 are unknown, and as the digit is a byte, classes repeat every 25600 codes. |
| RequestMetrics.NormalizedNames | internal/api/request_observability.go:264-270 | A name loses the white space at its ends and nothing else; a blank one gives way to the fallback. |
| RequestMetrics.RouteKeysAreFaithful | internal/api/request_observability.go:104-132 | Records with one-word methods share a route if and only if method and route agree as normalised. |
| RequestMetrics.StreamKeysAreFaithful | internal/api/request_observability.go:279-284 | Samples with one-word operations and providers share a stream if and only if operation, provider and outcome agree as normalised. |
| RequestMetrics.CountsAreMultiplicities | internal/api/request_observability.go:122-123 | A map bumped once per event holds each key's number of events, and sums to all of them. |
| RequestMetrics.BreakdownsCount | internal/api/request_observability.go:104-132 | The breakdowns by status class and domain of a run are such counts of its classes and normalised domains. |
| Retention.SelectRetentionPruneIds | internal/chat/lifecycle_policy.go:147-164 | The method returns the pruned ids of the specification. |
| Retention.PrunedIff | internal/chat/lifecycle_policy.go:147-294 | With distinct ids, the snapshot at place i is pruned if and only if i >= max(maxSnapshots, 1) or its time is before the reference minus max(retentionDays, 1) days, the reference being `now`, or the clock when that is zero. |
| Retention.PrunedInOrder | internal/chat/lifecycle_policy.go:296-308 | Pruned ids come in the order of their snapshots. |
| Retention.CollectKeepIds | internal/chat/lifecycle_policy.go:270-283 | The loop collects the ids to keep. |
| Retention.KeptAndPrunedPartition | internal/chat/lifecycle_policy.go:270-308 | Survivors and pruned ids partition the snapshots. |
| Retention.PruningIsStable | internal/chat/lifecycle_policy.go:147-164 | At most the limit survives, and pruning the survivors again prunes nothing. |
| Retention.PruningOnlyGrows | internal/chat/lifecycle_policy.go:261-294 | A later cutoff or a tighter limit only adds to what is pruned. |
| Retention.KeptArePrefix | internal/chat/lifecycle_policy.go:285-308 | For newest-first input the survivors are a prefix. |

## Left out

- HTTP handlers, templates, MCP adapters, authentication by OIDC, sessions and passwords: plumbing, or library code.
- SQL; only the atomic read-modify-write of the limiter's store, the table of suggestions with its listing, and the
  listing of links by source are kept.
- RateLimiting.RateLimitStore.MutateState: a commit that reports an error is taken not to have happened.
- Runs in which the shared store fails now and then: single calls are covered, but the two states are then independent.
- RecallOptimality.RecallIsOptimalIff: speaks of recall that is best after every step; a loss that a later step makes
  good counts as a loss.
- LinkCuration.InputsAgree: holds for actions of ASCII letters, the only ones the model folds; the source's two tests
  fold other letters differently.
- Concurrency: methods run one at a time, although the hygiene tracker tests and marks in separate critical sections.
- Listings that change while they are paged; the listing is one sequence for the whole sync.
- Validation and trimming inside the suggestion store; which dependency is missing, since one flag says whether any is.
- Floating-point rounding and NaN (scores are reals), the exact exponential, integer overflow of counters and durations.
- Precision that a database drops from stored times.
- UTF-8 and Unicode: text is a sequence of characters, with ASCII white space and case folding.
- Wording of bundle and chunk sections: a section is any string, and so are title, snippet and time of a reference.
- `mergeContextEngramIDsWithLinked`, which has no caller, and the provider-failure and lifecycle counters, which are one
  increment each.
- The two parallel maps of trace statistics are one map to pairs.
