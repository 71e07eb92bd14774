# Verified model of the core algorithms

This project models the self-contained stateful algorithms of the repository in Dafny and proves what
they promise. Each component has its own module:

| files | component |
|---|---|
| `MemoryGraph`, `GraphRuns`, `GraphBounds`, `GraphMirror`, `GraphJson`, `GraphRoundTrip` | the memory graph: operations, integrity over runs, the bound on edges, edge map against adjacency lists, JSON round trip |
| `GraphEffects`, `GraphEntries`, `GraphMemory` | what each of its operations takes away and what nodes and edges hold, the bound on nodes |
| `Reachability`, `GraphSearch`, `GraphRanking`, `GraphExtract`, `GraphScores`, `PathCache`, `MemoryQR` | its three breadth-first traversals, what scores and paths mean, the path cache, and the class with all its loops |
| `LruCache`, `LruLaws`, `ReadThrough`, `Batches`, `Embeddings`, `RagMetrics`, `MetricLaws` | the LRU cache, its counters and statistics, its use by overlapping calls and batches, cosine similarity, NDCG |
| `JsValues`, `JsonText`, `Corpus`, `Rag`, `RagResults`, `RagBlend`, `RagLaws`, `RagCache`, `RagKeys`, `RagCollisions`, `RagSystem` | values and their JSON text, the inverted index, retrieval, what scores mean, the result cache, the keys that tell queries apart and those that do not, and the class |
| `Dispatch`, `DispatchOrder`, `Scheduler`, `TaskCounts`, `SchedulerRuns`, `SchedulerLoss`, `SchedulerOrder`, `SchedulerLaws`, `SchedulerLoads`, `AgentScheduler` | the task scheduler: one pass against a plain reference, the steps, whole runs, loads, and the class |
| `Pool`, `PoolRuns`, `PoolEffects`, `PoolBounds`, `PoolExclusive`, `AgentPool` | the agent pool: what runs between awaits, every interleaving, what each step changes, the bounds, exclusive use, and the class |
| `AlertQueue`, `AlertEngine`, `AlertLaws`, `AlertDrops`, `RateLimits`, `RateLaws`, `CircuitBreaker` | the alert pipeline and both rate limiters |
| `AuthTokens`, `AuthSessions` | refresh-token rotation, and how long sessions last |
| `RadixScan`, `RadixMeaning`, `RadixFix`, `RadixNested`, `RadixTwice`, `RadixMany` | the source rewriter: its scanners and what they find, one pass, nested calls, and a second pass |
| `Concurrency` | the semaphore |
| `JsCollections`, `StableSort` | Map with insertion order, `slice`, `splice` and the stable `sort`, as the others use them |

An object that the source updates in place is a class here, its methods proved equal to steps on a
value of its state; what the source promises over many calls is then proved about runs of these steps.
Asynchronous operations are cut at their awaits, and a run may interleave the pieces in any order. Time is
a parameter of each step, floating point is modelled by reals, and foreign functions (embedding,
tokenisation, logarithm, decay, signing) are arbitrary functions.

Some properties that a reader would expect do not hold of the code. Each is refuted by a lemma that
gives the input, or the family of inputs, together with the exact condition under which it holds:

- a node's edges can exceed `maxEdgesPerNode`, because reconnecting the weakest neighbour of a full node drops its edge-map entry (`GraphBounds.BoundIsLost` for every bound, `GraphBounds.RunKeepsBoundIff`);
- the graph grows beyond `maxNodes` once the oldest node is that of the empty id (`GraphEffects.EmptyIdBlocksEviction`, `GraphEffects.NodesBoundedIff`);
- edge map and adjacency lists can differ after a removal, an eviction, pruning or such a reconnection (`GraphMirror.RemovalLosesMirror`, `GraphMirror.RunMirrorsIff` and the condition for each operation);
- `getPath` can answer with a path that is gone, or that the options exclude (`PathCaches.HitIsStale`, `PathCaches.RightForAllIff`);
- `fromJSON(toJSON)` loses edges of a node with more than `maxEdgesPerNode` of them, unless its weakest edge leads to a node with the empty id whenever it is full (`GraphRoundTrip.RestoredIffSpared`);
- `search` can be answered wrongly from its cache, as the key leaves out `includeFields` and undefined values, and JSON makes null of NaN, the infinities and undefined list elements (`RagCollisions.LossyFiltersAreStale`, `RagCollisions.EmptyLimitFreshIff`, `RagCollisions.FieldsFreshIff`; right for all other queries by `RagKeys.SurvivorsAreFresh`);
- an entry of the LRU cache that is given its own `ttlMs` expires at the cache's (`LruCaches.TtlsHonouredIff`);
- the access statistics of the LRU cache keep keys that a lookup found expired, without bound (`LruLaws.StatsGrow`, `LruLaws.StatsExactIff`);
- a range filter of `search` lets documents through that do not have the field (`RagBlend.RangeIff`);
- overlapping calls of `generate` leave the LRU cache in the order of completion (`ReadThrough.OverlapReorders`, `Batches.AnyBatchInOrderIff`);
- overlapping calls can take the pool above `maxPoolSize` (`PoolBounds.OverlappingAcquiresReachAnySize`, `PoolBounds.RunKeepsBoundIff` with `PoolBounds.CommittedIsExact`) and below `minPoolSize` (`PoolBounds.UndershootIsReachable`, `PoolBounds.RunKeepsMinimumIff`);
- an agent can be used by two callers, after a stale grant or a second release (`PoolExclusive.StaleGrantShares`, `PoolExclusive.SecondReleaseShares`, `PoolExclusive.ExclusiveIffProper`), and `release` never serves a waiter, as the copies it looks at stay `ACTIVE` (`PoolRuns.PartitionHolds`, `PoolEffects.WaitersOnlyTimeOut`);
- a refresh token from `login` never refreshes: the session is stored under another id than the token names (`AuthTokens.LoginTokensNeverRefresh`, `AuthTokens.RefreshSucceedsIff`), unlike in `register`;
- nested `parseInt` calls are spoilt by the rewriter, and on them it is not idempotent (`RadixTwice.NestedCallsAreSpoilt`, `RadixNested.RewriteIsRightIff`, `RadixMany.IdempotentIffAllSettled`);
- NDCG exceeds 1 with duplicates in the ranking or a negative cut-off (`RagMetrics.BoundIffNoDuplicate`, `RagMetrics.BoundIffComparable`);
- a breaker configured without probe calls stays half-open for ever (`CircuitBreakers.StuckWithoutBudget`, `CircuitBreakers.NeverStuckIffBudget`);
- a breaker can close without enough of its probes having succeeded, as calls from before count as well (`CircuitBreakers.StrangerCloses`, `CircuitBreakers.ClosedByProbesIff`);
- the deduplicator takes a sighting at clock reading 0 for absent (`AlertQueue.ZeroTimeIsForgotten`, `AlertQueue.ApartIffNoneAtZero`), and makes the retry of a dropped alert a duplicate (`AlertDrops.RetryIsRefused`, `AlertDrops.DuplicatesAreBackedIff`);
- a scheduler task submitted under an id that is still around can push the active one out (`SchedulerLoss.SubmittedTwiceIsLost`, `SchedulerLoss.OnePlaceIffPassesFresh`);
- an agent's load can differ from the number of its running tasks, and exceed its maximum (`SchedulerLoads.LoadsExactIff`, `SchedulerLoads.TwoForOne`, `SchedulerLoads.WithinMaxIff`);
- the fixed-window limiter admits up to `2 * max - 1` requests in a window length, sharp for every `max` (`RateLimits.FixedBound`, `RateLimits.FixedBoundIsTight`), and an LRU cache with a maximum below one still holds one entry (`LruCaches.BoundIffPositive`).

## Model

| member | source | states |
|---|---|---|
| `MemoryGraph.IndexContentAdds` | src/analysis/memory-qr.js:688-698 | indexing a node adds its id under exactly its words of three letters or more, behind the ids that are there |
| `MemoryGraph.UnindexContentRemoves` | src/analysis/memory-qr.js:704-709 | unindexing takes the id from each word of the content, and leaves all other ids in their order |
| `MemoryGraph.AddNodeKeepsGraph` | src/analysis/memory-qr.js:121-151 | adding a node, with the eviction of the oldest at capacity, keeps adjacency, indices and edge keys sound |
| `MemoryGraph.RemoveNodeKeepsGraph` | src/analysis/memory-qr.js:172-202 | removing a node leaves no adjacency list that leads to it, and the other nodes indexed |
| `MemoryGraph.ConnectKeepsGraph` | src/analysis/memory-qr.js:214-245 | connecting, with or without an eviction, keeps every adjacency target live and weights within [0, 1] |
| `MemoryGraph.DisconnectKeepsGraph` | src/analysis/memory-qr.js:253-264 | disconnecting keeps the graph sound |
| `MemoryGraph.PruneEdgesKeepsGraph` | src/analysis/memory-qr.js:518-525 | the loop of prune over the edge map keeps the graph sound |
| `MemoryGraph.PruneNodesKeepsGraph` | src/analysis/memory-qr.js:527-534 | the loop of prune over the nodes keeps the graph sound |
| `GraphRuns.RunKeepsGraph` | src/analysis/memory-qr.js:121-264 | after every run adjacency keys equal node keys, every adjacency target is live, and every live node is in its type index and under each of its long words |
| `GraphRuns.ConnectKeepsBoundIff` | src/analysis/memory-qr.js:233-241 | one connect keeps a node within maxEdgesPerNode exactly when there is room, the target is a neighbour already, or the weakest edge is found under its key in the edge map |
| `GraphRuns.ReconnectDropsEntryIff` | src/analysis/memory-qr.js:214-245 | a connection always enters the adjacency list, and is missing from the edge map exactly when it reconnects the weakest neighbour of a full node |
| `GraphBounds.ApplyKeepsBoundIff` | src/analysis/memory-qr.js:214-245 | an operation keeps every node within maxEdgesPerNode exactly when it is no connection, or one that fits |
| `GraphBounds.RunKeepsBoundIff` | src/analysis/memory-qr.js:121-264 | a run keeps every node within maxEdgesPerNode all along exactly when each of its connections fits |
| `GraphBounds.ReconnectingLosesTheBoundIff` | src/analysis/memory-qr.js:233-241 | after the weakest neighbour of a full node was connected again, the next new neighbour takes the node above the bound exactly when that neighbour is still the weakest |
| `GraphBounds.BoundIsLost` | src/analysis/memory-qr.js:214-245 | for every maxEdgesPerNode a run from the empty graph that leaves a node with more edges |
| `GraphRuns.KeyOfPlainIds` | src/analysis/memory-qr.js:629-631 | two pairs of ids without `->` in them never share an edge key |
| `GraphRuns.CarefulRunKeepsBound` | src/analysis/memory-qr.js:121-264 | every run that adds plain ids only and does not reconnect the weakest neighbour of a full node keeps every node within maxEdgesPerNode and every adjacency entry in the edge map |
| `GraphJson.ImportKeepsGraph` | src/analysis/memory-qr.js:576-600 | whatever is imported, adjacency and indices are sound afterwards |
| `GraphRoundTrip.EvictsIff` | src/analysis/memory-qr.js:237-240 | as long as an import has every edge so far, one is evicted for the next exactly when the node is full and its weakest edge does not lead to the node with the empty id, as the export shows |
| `GraphRoundTrip.NextImported` | src/analysis/memory-qr.js:591-596 | an import either has every edge so far, in the order of the export, or is behind for good |
| `GraphRoundTrip.RestoredIffSpared` | src/analysis/memory-qr.js:562-600 | fromJSON(toJSON) restores a mirrored graph, whatever its ids and the bound, exactly when that never happens |
| `GraphJson.BoundedIsRestored` | src/analysis/memory-qr.js:562-600 | fromJSON(toJSON) restores nodes, edges and neighbours, up to edge time stamps, of every mirrored graph in which no node has more than maxEdgesPerNode edges |
| `GraphMirror.ConnectKeepsMirrorIff` | src/analysis/memory-qr.js:214-245 | a connection keeps edge map and adjacency lists the same exactly when it does not reconnect the weakest neighbour of a full node |
| `GraphMirror.RemoveKeepsMirrorIff` | src/analysis/memory-qr.js:172-202 | a removal keeps them the same exactly when no edge leads to the node or from it |
| `GraphMirror.AddNodeKeepsMirrorIff` | src/analysis/memory-qr.js:121-151 | adding a node keeps them the same exactly when the node it replaces has no edge out, and the one evicted for it has none at all |
| `GraphMirror.PruneKeepsMirrorIff` | src/analysis/memory-qr.js:509-537 | pruning keeps them the same exactly when each stale node is without edges once the stale edges have gone |
| `GraphMirror.RunMirrorsIff` | src/analysis/memory-qr.js:121-264 | with plain ids, a run keeps them the same all along exactly when each of its operations does by these conditions |
| `GraphMirror.RemovalLosesMirror` | src/analysis/memory-qr.js:172-202 | add a, add b, connect a to b, removeNode b: the same up to the last call, which leaves the edge in the edge map |
| `GraphMirror.SteadyRunRoundTrips` | src/analysis/memory-qr.js:562-600 | every graph built by such a run is restored by fromJSON(toJSON) up to edge time stamps |
| `GraphEffects.OldestMeans` | src/analysis/memory-qr.js:645-659 | the node that makes room is the one with the least access time, the first of them, and there is none only in an empty graph |
| `GraphEffects.WeakestMeans` | src/analysis/memory-qr.js:665-682 | the neighbour that makes room is the one with the least weight, the first of them |
| `GraphEffects.NodesAfter` | src/analysis/memory-qr.js:121-202 | every operation leaves exactly the node it adds and those it does not take away: the oldest of a full graph, unless its id is empty, the node removed, what pruning finds unused |
| `GraphEffects.PruneIsFilter` | src/analysis/memory-qr.js:509-537 | prune removes exactly the edges that are too old or too light and the nodes that are both too old and too little used, changes no other, and counts them |
| `GraphEffects.NodesBoundedIff` | src/analysis/memory-qr.js:121-125 | a run stays within maxNodes exactly when each new node finds room, or an oldest node whose id is not empty |
| `GraphEffects.EmptyIdBlocksEviction` | src/analysis/memory-qr.js:656-658 | with the node of the empty id added first and nothing read, every node ever added stays, whatever maxNodes |
| `GraphMemory.NodesHoldWhatWasSaid` | src/analysis/memory-qr.js:121-165 | in every run a node holds what it was last added with, the number of reads since, and the time of the last |
| `GraphMemory.EdgesHoldWhatWasSaid` | src/analysis/memory-qr.js:214-245 | in every run an edge, in the adjacency lists and in the edge map, holds what it was last connected with |
| `GraphMemory.ClampIsNearest` | src/analysis/memory-qr.js:222 | the weight of an edge is the one in [0, 1] nearest to what was asked for |
| `GraphEntries.EntriesAfter` | src/analysis/memory-qr.js:121-264 | every operation leaves exactly the adjacency entry it makes and those it does not take away, with the condition for each operation |
| `GraphEntries.KeysAfter` | src/analysis/memory-qr.js:214-264 | likewise for the edge map, from which removing a node takes nothing |
| `Reachability.WalkIsWithin` | src/analysis/memory-qr.js:385-413 | a walk of k nodes ends within k - 1 steps |
| `Reachability.WithinHasWalk` | src/analysis/memory-qr.js:385-413 | whatever is within n steps has a walk of at most n + 1 nodes |
| `Reachability.WorkOff` | src/analysis/memory-qr.js:389-413 | working off the first queued path keeps what a breadth-first queue knows about a level |
| `Reachability.Exhausted` | src/analysis/memory-qr.js:389-415 | with nothing queued, nothing more can be reached |
| `GraphSearch.FewestOf` | src/analysis/memory-qr.js:396-401 | a path to a node at its distance has the fewest nodes of all walks |
| `GraphSearch.NoRoute` | src/analysis/memory-qr.js:392-415 | a node beyond maxDepth - 1 steps has no walk of at most maxDepth nodes |
| `GraphSearch.RecordedIsRelated` | src/analysis/memory-qr.js:331-346 | what the inner loop records is exactly as far away as it says, with a real filtered walk of that length and the score of its last edge |
| `GraphSearch.ExploredAll` | src/analysis/memory-qr.js:312-348 | when the queue is empty, everything within the depth limit has been seen |
| `GraphRanking.MatchesRanked` | src/analysis/memory-qr.js:719-733 | the content matches are every node that shares an indexed word, once, with its number of words, best first |
| `GraphRanking.WordsAreCounted` | src/analysis/memory-qr.js:719-727 | the loops over words and ids count for each node the words of the query it is indexed under |
| `GraphRanking.Ranked` | src/analysis/memory-qr.js:352-355 | the sorted results are every node within depth steps that is no start, once, highest score first |
| `GraphExtract.ClearRound` | src/analysis/memory-qr.js:477-492 | one turn of the subgraph search expands one node, once, and keeps what is known about the level |
| `GraphExtract.RowAppended` | src/analysis/memory-qr.js:485-492 | expanding a node adds each of its edges once |
| `GraphExtract.MirroredPath` | src/analysis/memory-qr.js:742-753 | in a mirrored graph the edges reconstructed for a path are the allowed edges it was found along, in order |
| `GraphScores.AnswerScores` | src/analysis/memory-qr.js:331-346 | each result of findRelated, times the depth of the search, scores the weight of its last edge, decayed, times the levels left; at depth 1 it scores just that weight |
| `GraphScores.NearerFirst` | src/analysis/memory-qr.js:331-355 | when all edges have the same positive weight and age, an answer lists depths in non-decreasing order |
| `GraphScores.HeavierFirst` | src/analysis/memory-qr.js:331-355 | at equal depth, of two edges faded alike the heavier comes first, and of two equally heavy ones the fresher |
| `GraphScores.AnswerIsBest` | src/analysis/memory-qr.js:352-355 | an answer has as many results as the limit allows, and what it leaves out scores no more than anything in it |
| `GraphScores.ResultsObeyFilters` | src/analysis/memory-qr.js:320-329 | every step of a result's path is heavy enough, of a relationship asked for, to a live node of a type asked for, and no such walk is shorter |
| `GraphScores.WalksAreAnswered` | src/analysis/memory-qr.js:311-348 | the end of every such walk within the depth is in the answer, unless the answer is cut off |
| `GraphScores.StartsMean` | src/analysis/memory-qr.js:286-299 | a search starts at the node of that id, or else at the live ones of the five best content matches |
| `GraphScores.FiveMean` | src/analysis/memory-qr.js:719-736 | each of the five shares a long word with the query, and none of the others shares more |
| `GraphScores.RightPathMeans` | src/analysis/memory-qr.js:381-415 | a right answer of getPath in terms of the edges: an allowed walk, no longer than maxDepth and than any other, and null only if there is none |
| `GraphScores.WeightsAdd` | src/analysis/memory-qr.js:742-761 | the total weight of a path is the sum over its edges |
| `MemoryQRs.MemoryQR.AddNode` | src/analysis/memory-qr.js:121-151 | the method, with its eviction, computes the specified step and returns the stored node |
| `MemoryQRs.MemoryQR.EvictOldestNode` | src/analysis/memory-qr.js:645-659 | the loop finds the first node with the least access time; an empty id is not evicted |
| `MemoryQRs.MemoryQR.RemoveNode` | src/analysis/memory-qr.js:172-202 | the loops over outgoing and incoming edges and the index updates amount to the specified step |
| `MemoryQRs.MemoryQR.Connect` | src/analysis/memory-qr.js:214-245 | the method computes the specified step |
| `MemoryQRs.MemoryQR.EvictWeakestEdge` | src/analysis/memory-qr.js:665-682 | the loop finds the first neighbour with the least weight and disconnects it |
| `MemoryQRs.MemoryQR.Prune` | src/analysis/memory-qr.js:509-537 | both loops, deleting as they go, compute the specified step and counts |
| `MemoryQRs.MemoryQR.FromJSON` | src/analysis/memory-qr.js:576-600 | both import loops compute the import of the data |
| `MemoryQRs.MemoryQR.ShortestPath` | src/analysis/memory-qr.js:381-415 | on a cache miss: a walk along edges of allowed types with the fewest nodes of any such walk; null exactly when an end is missing or no walk has at most maxDepth nodes |
| `MemoryQRs.MemoryQR.ReconstructPath` | src/analysis/memory-qr.js:742-761 | the edge types and the total weight found in the edge map along the path |
| `MemoryQRs.MemoryQR.GetPath` | src/analysis/memory-qr.js:367-416 | a live entry of the path cache is the answer, whatever the options; else the shortest allowed walk with its recorded edges, which is cached, or null |
| `PathCaches.RightForAllIff` | src/analysis/memory-qr.js:372-377 | with a given cache, the answer is right for every graph and all options exactly when the cache has no live entry for the two ends |
| `PathCaches.UnchangedIsRight` | src/analysis/memory-qr.js:367-416 | as long as the graph and the options stay the same and ids are plain, every answer is right |
| `PathCaches.HitIsStale` | src/analysis/memory-qr.js:372-377 | connect, getPath, disconnect, getPath: for an hour the second answer is the path that is gone |
| `MemoryQRs.MemoryQR.Explore` | src/analysis/memory-qr.js:301-348 | before the limit: exactly the nodes within depth filtered steps that are no starts, each at its distance with a walk of that length |
| `MemoryQRs.MemoryQR.FindNodesByContent` | src/analysis/memory-qr.js:715-736 | the live ones of the five best content matches, equal counts in the order of the first match |
| `MemoryQRs.MemoryQR.FindRelated` | src/analysis/memory-qr.js:277-356 | the nodes related to the node asked for, or else to the five best content matches, each once, sorted by descending score, cut off at the limit |
| `MemoryQRs.MemoryQR.GetSubgraph` | src/analysis/memory-qr.js:468-499 | the nodes within depth steps, each once, and every edge that leaves a node closer than that, each once |
| `LruCaches.LRUCache.Get` | src/analysis/lru-cache.js:59-90 | get as specified: expiry, counters, and the move to the end |
| `LruCaches.LRUCache.Set` | src/analysis/lru-cache.js:97-117 | set as specified: eviction of the first key at capacity, and no move of an existing key |
| `LruCaches.LRUCache.Cleanup` | src/analysis/lru-cache.js:210-225 | the loop computes the specified step, and counts what it removed |
| `LruCaches.CleanupKeepsOrder` | src/analysis/lru-cache.js:210-225 | cleanup drops exactly the expired entries and leaves the others, in their old order, and the counters |
| `LruCaches.HoldsMostRecent` | src/analysis/lru-cache.js:59-117 | under read-through use without TTL the cache holds exactly the most recently requested distinct keys, oldest first |
| `LruCaches.SmallerIsSuffix` | src/analysis/lru-cache.js:231-243 | the keys of a smaller cache are a suffix of those of a larger one |
| `LruCaches.LargerHitsMore` | src/analysis/lru-cache.js:59-117 | a larger cache never has fewer hits |
| `LruCaches.HitIffStackDistance` | src/analysis/lru-cache.js:59-117 | a request hits exactly when fewer distinct keys than the capacity were requested since its last request |
| `LruCaches.RunKeepsBound` | src/analysis/lru-cache.js:97-117 | whatever the operations, cleanup included, the cache never holds more than maxSize entries, or one if maxSize is below one |
| `LruCaches.BoundIffPositive` | src/analysis/lru-cache.js:97-117 | all runs stay within maxSize exactly when it is at least one |
| `LruCaches.SameExpiryIff` | src/analysis/lru-cache.js:67-70 | an entry expires at its own ttlMs at all times exactly when that is the cache's, or both never expire |
| `LruCaches.TtlsHonouredIff` | src/analysis/lru-cache.js:97-117 | all runs honour the lifetimes that callers give with single entries exactly when these are the cache's own |
| `LruLaws.KeysAfter` | src/analysis/lru-cache.js:59-243 | every operation leaves exactly the key it sets and those it does not take away: the first key of a full cache, or what is stale, deleted or cleared |
| `LruLaws.EntriesHoldWhatWasSaid` | src/analysis/lru-cache.js:59-117 | in every run a cached key holds what was last set, the number of accesses since, and the time of the last |
| `LruLaws.GetIffHas` | src/analysis/lru-cache.js:59-136 | get finds what has finds |
| `LruLaws.CountersCount` | src/analysis/lru-cache.js:59-90 | hits and misses are the lookups since the last clear that found something and that did not; evictions the keys pushed out |
| `LruLaws.StatsExactIff` | src/analysis/lru-cache.js:68-84 | the access statistics have the count of every cached key, and no other key exactly when no lookup ever met a stale entry |
| `LruLaws.StatsGrow` | src/analysis/lru-cache.js:68-73 | however small the cache, they can have any number of keys, with nothing cached |
| `ReadThrough.AnswersAreComputed` | src/analysis/rag-embeddings.js:101-165 | whatever calls overlap, with or without TTL, generate answers with what would be computed for the text |
| `ReadThrough.AloneIsRequest` | src/analysis/rag-embeddings.js:101-165 | a call that runs alone is a read-through request as in the stack theorem |
| `ReadThrough.HoldsLatestArrivals` | src/analysis/rag-embeddings.js:101-165 | under every interleaving the cache holds exactly the distinct keys that were hit or newly stored last, oldest first |
| `Batches.AnyBatchInOrderIff` | src/analysis/rag-embeddings.js:177-200 | after any history, a batch of any texts, repeated and cached ones included, leaves the cache as if they had been requested one after the other exactly when what arrives, at once or as it is stored, comes in the order of the texts as far as the cache can hold it |
| `Batches.DistinctBatchInOrderIff` | src/analysis/rag-embeddings.js:177-200 | for different texts: exactly when the cached ones followed by the others as they finish end like the list of texts |
| `ReadThrough.OverlapReorders` | src/analysis/rag-embeddings.js:177-200 | get a, get b, set b, set a leaves the cache in the order b, a |
| `Embeddings.CauchySchwarz` | src/analysis/rag-embeddings.js:334-352 | the squared dot product is at most the product of the squared lengths |
| `Embeddings.TightIffParallel` | src/analysis/rag-embeddings.js:334-352 | with equality exactly for parallel vectors |
| `Embeddings.CosineSimilarity` | src/analysis/rag-embeddings.js:334-352 | the loop and the quotient: within [-1, 1], no division by zero, 0 for a zero vector, an error for different lengths |
| `Embeddings.ExtremeIffParallel` | src/analysis/rag-embeddings.js:334-352 | the extremes 1 and -1 are reached exactly by parallel vectors |
| `Embeddings.PaddingKeepsSimilarity` | src/analysis/rag-embeddings.js:286-300 | padding two vectors with zeros changes none of the sums the similarity is made of |
| `RagMetrics.CalculateNDCG` | src/analysis/rag-metrics.js:213-232 | the loops compute the discounted gains of the first k and of the ideal order, and their quotient |
| `RagMetrics.BestSum` | src/analysis/rag-metrics.js:213-232 | distinct documents never sum to more than as many from the top of the ranking |
| `RagMetrics.Abel` | src/analysis/rag-metrics.js:213-232 | if the sums of all prefixes are dominated, so is the sum with any positive decreasing discount |
| `RagMetrics.NdcgBound` | src/analysis/rag-metrics.js:213-232 | NDCG is between 0 and 1 for non-negative relevance, a ranking without duplicates in the first k, and every k of at least 0 (for a negative k when the two slices compare) |
| `RagMetrics.PerfectRankingScoresOne` | src/analysis/rag-metrics.js:213-232 | the scored documents in best order score 1 |
| `RagMetrics.BoundIffNoDuplicate` | src/analysis/rag-metrics.js:213-232 | for k at least 0 the bound holds for all relevance scores exactly when the first k have no duplicate |
| `RagMetrics.BoundIffComparable` | src/analysis/rag-metrics.js:213-232 | over all k: the bound holds for all inputs of given sizes exactly when the two slices compare |
| `MetricLaws.SwapLaw` | src/analysis/rag-metrics.js:213-232 | exchanging two documents changes the gain by the difference of their relevance times that of their discounts |
| `MetricLaws.BetterFirstIsBetter` | src/analysis/rag-metrics.js:213-232 | moving the more relevant of two documents forward raises NDCG, where the discount falls |
| `MetricLaws.OneRelevant` | src/analysis/rag-metrics.js:213-232 | one relevant document alone is worth the discount at its position, relative to the first |
| `Corpora.AddTermsLists` | src/analysis/rag.js:535-544 | adding a document lists it under exactly its terms |
| `Corpora.RemoveTermsUnlists` | src/analysis/rag.js:550-556 | removing a document takes it off exactly its terms |
| `Corpora.IndexKeepsCorpus` | src/analysis/rag.js:108-137 | indexing, also over an older version, keeps the inverted index exact and one embedding per document |
| `Corpora.DeleteKeepsCorpus` | src/analysis/rag.js:252-269 | deleting keeps the inverted index exact and the embeddings those of the documents |
| `Corpora.IndexScoresAreScans` | src/analysis/rag.js:406-421 | scoring through the inverted index finds the same documents with the same scores as scanning every document |
| `RagCache.CacheIsCoherent` | src/analysis/rag.js:96-269 | in every interleaving of search, index, delete and clear the index is exact and what is cached under a key is what retrieval from the present corpus gives for some query of that key |
| `RagCache.HitsFreshIffKeyIdentifies` | src/analysis/rag.js:172-180 | over all runs, every answer from the cache is what a fresh retrieval would give exactly when queries of one key retrieve alike from every corpus that can come about |
| `JsonText.RenderUnique` | src/analysis/rag.js:608 | the JSON text of a value can be told from that of any other, whatever follows |
| `JsonText.TaggedUnique` | src/analysis/rag.js:608 | a query text, a colon and the JSON text of an object: both can be read off, even when the query text looks like JSON |
| `RagKeys.InjectiveIsFresh` | src/analysis/rag.js:172-180 | answers are fresh whenever the key tells the queries apart that are asked |
| `RagKeys.SurvivingKeysDiffer` | src/analysis/rag.js:600-609 | two queries of the same includeFields, all of whose values survive JSON (no undefined in filters, no NaN, no infinity), have different keys |
| `RagKeys.SurvivorsAreFresh` | src/analysis/rag.js:600-609 | so as long as all values survive JSON and includeFields stays the same, every answer from the cache is fresh |
| `RagKeys.IntegralQueriesAreFresh` | src/analysis/rag.js:600-609 | an instance with nothing left to assume: numbers that are safe integers, written in decimal |
| `RagCollisions.FiltersCollideIff` | src/analysis/rag.js:477-501 | two filter objects of one JSON text are answered rightly in all runs exactly when they accept the same metadata |
| `RagCollisions.LossyFiltersAreStale` | src/analysis/rag.js:600-609 | inputs for which they do not: undefined against nothing, an undefined list element against null, NaN and infinities against null |
| `RagCollisions.EmptyLimitFreshIff` | src/analysis/rag.js:166 | limits null, NaN and the infinities share a key; NaN or minus infinity finds nothing, so that answers are right exactly when the other finds nothing either |
| `RagCollisions.NullIsInfinityIff` | src/analysis/rag.js:166 | null stands for ten: without filters it retrieves the same as infinity exactly when infinity finds at most ten |
| `RagCollisions.FieldsCollideIff` | src/analysis/rag.js:506-530 | two queries that differ in includeFields only, in whatever way, have one key, and retrieve alike exactly when there are no results or both show the same of what a result has |
| `RagCollisions.FieldsFreshIff` | src/analysis/rag.js:600-609 | over all runs two such queries are answered rightly exactly when both show the same |
| `RagResults.MergedIsSum` | src/analysis/rag.js:440-467 | every id of either result list is merged once, its score the sum of its weighed scores |
| `RagResults.SemanticIsBest` | src/analysis/rag.js:386-400 | semantic results are live documents with their similarity, at least the threshold, best first; one that is left out is no better than any that is kept, and none is left out below the limit |
| `RagResults.KeywordIsBest` | src/analysis/rag.js:406-434 | keyword results are documents that share a term with the query, each once, with the normalised score that scanning would give, best first; one that is left out is no better than any that is kept |
| `RagResults.ResultsArePresentable` | src/analysis/rag.js:210-227 | what is presented are live documents, each once, best first, passing the filters, at most the limit, and nothing merged that passes and is left out scores higher |
| `RagResults.ResultsShowTop` | src/analysis/rag.js:506-530 | each result shows the id, and where they are asked for the score and the content of its own document |
| `RagSystems.RAGSystem.FinishIndexing` | src/analysis/rag.js:108-149 | indexDocument after its await computes the specified step and clears the cache; empty ids and contents are refused |
| `RagSystems.RAGSystem.DeleteDocument` | src/analysis/rag.js:252-269 | the method computes the specified step and clears the cache exactly when it deleted |
| `RagSystems.RAGSystem.FindSimilar` | src/analysis/rag.js:386-400 | the loop over the embeddings, sorted and cut off |
| `RagSystems.RAGSystem.FindByKeyword` | src/analysis/rag.js:406-434 | the loops over terms, ids and scores, normalised, sorted and cut off |
| `RagSystems.RAGSystem.Merge` | src/analysis/rag.js:440-471 | both merging loops, sorted |
| `RagSystems.RAGSystem.FinishSearch` | src/analysis/rag.js:182-238 | search after its await retrieves from the corpus as it then is, and caches that |
| `RagBlend.ResultsBlend` | src/analysis/rag.js:166-230 | each result of a search scores w times its semantic score plus 1 - w times its keyword score, w being semanticWeight or 0.7; its semantic score is its similarity or 0; and the result shows these in the fields asked for |
| `RagBlend.WhatCounts` | src/analysis/rag.js:191-211 | similarity counts exactly when it reaches the threshold (0.5) and is not cut off at twice the limit (10), and the search is hybrid or similarity has weight; terms likewise |
| `RagBlend.EndsOfTheScale` | src/analysis/rag.js:202-207 | with w = 1 results are ordered by similarity, with w = 0 by terms |
| `RagBlend.MoreIsBetter` | src/analysis/rag.js:202-207 | between: the better of two results in one score and no worse in the other comes first |
| `RagBlend.SimilarityAlone` | src/analysis/rag.js:164-222 | not hybrid, w = 1, no filters: the documents most similar to the query, all of them or as many as the limit |
| `RagBlend.TermsAlone` | src/analysis/rag.js:164-222 | not hybrid, w = 0: the documents that score most by terms |
| `RagBlend.RangeIff` | src/analysis/rag.js:488-493 | a numeric range accepts exactly the numbers in it, and whatever no number can be made of, such as a missing field |
| `RagLaws.DocumentsAreAsIndexed` | src/analysis/rag.js:96-269 | under every interleaving a document is there exactly when it was indexed and not deleted since, with what was last indexed; its version counts how often |
| `RagLaws.RarerWeighsMore` | src/analysis/rag.js:415 | the fewer documents have a term the more it weighs |
| `RagLaws.RarerTermWins` | src/analysis/rag.js:410-421 | of two documents with one term of the query each, the one with the rarer term scores more |
| `RagLaws.KeywordsAreNormalised` | src/analysis/rag.js:423-430 | no keyword score exceeds 1, and some document scores exactly 1 if any raw score exceeds 1 |
| `Dispatch.SelectFinds` | src/agents/scheduler.js:584-622 | an agent is selected exactly when a capable one is available, and the preferred one if it is among them |
| `Dispatch.SelectLeastLoaded` | src/agents/scheduler.js:642-648 | LOAD_BASED selects an agent with the least load ratio |
| `Dispatch.RoundRobinIsFair` | src/agents/scheduler.js:630-634 | over unchanged candidates round robin takes each once before it comes back to one, wherever its position was left |
| `Dispatch.QueueIsWorked` | src/agents/scheduler.js:540-562 | the inner loop takes a prefix of its queue, soundly, and stops only when it must |
| `Dispatch.PassIsSound` | src/agents/scheduler.js:525-564 | over all priorities: prefixes taken, no agent twice, capabilities met, nothing more to do |
| `SchedulerRuns.PassIsWorkConserving` | src/agents/scheduler.js:525-564 | in the state of the scheduler: different registered, free, capable agents for the tasks taken, and afterwards no free agent left for the first task of any queue |
| `DispatchOrder.PassIsOneByOne` | src/agents/scheduler.js:525-564 | a pass assigns tasks one by one, each time the first of the most urgent queue whose first task a free agent can take, as in a plain reference; and it leaves what is then left |
| `DispatchOrder.PassIsUrgentFirst` | src/agents/scheduler.js:537-563 | no agent that went to a less urgent queue could have taken the task with which a more urgent one still waits |
| `DispatchOrder.SelectFirst` | src/agents/scheduler.js:607-621 | without a preference, and with neither ROUND_ROBIN nor LOAD_BASED: the first capable agent |
| `TaskCounts.ScheduledCount` | src/agents/scheduler.js:669-675 | scheduling moves each task into the active tasks, as long as their ids are different and new there |
| `TaskCounts.RoundCount` | src/agents/scheduler.js:537-563 | what a pass takes comes out of the queues, task by task |
| `SchedulerRuns.RunConserves` | src/agents/scheduler.js:210-424 | every run with fresh ids keeps the partition of tasks, the counters, and the bookkeeping of ids and priorities |
| `SchedulerRuns.OnePlaceEach` | src/agents/scheduler.js:210-424 | each submitted task is in exactly one of queue, active and ended; the counters sum to tasksSubmitted |
| `SchedulerRuns.ReassignKeepsConserved` | src/agents/scheduler.js:698-712 | reassigning a departing agent's tasks loses and doubles none |
| `SchedulerLoss.PassKeepsNumberIff` | src/agents/scheduler.js:525-564 | a pass keeps the number of waiting and active tasks exactly when the ids it schedules are different and not active |
| `SchedulerLoss.OnePlaceIffPassesFresh` | src/agents/scheduler.js:210-424 | after any run each submitted task is in exactly one of queue, active and ended if and only if every pass of the run was of that kind |
| `SchedulerLoss.FreshRunPassesFresh` | src/agents/scheduler.js:210-255 | it is enough that no id is submitted while its task waits or is active |
| `SchedulerLoss.SubmittedTwiceIsLost` | src/agents/scheduler.js:674 | an id submitted twice to a scheduler with one worker: the first task is nowhere |
| `SchedulerOrder.FirstInFirstOut` | src/agents/scheduler.js:240-290 | tasks of one priority that were never requeued are scheduled in the order of submission, and what waits was submitted after what was scheduled |
| `SchedulerLaws.TasksCarryRequests` | src/agents/scheduler.js:210-240 | in every run each task, wherever it is, is the request of its serial, with its id, priority, strategy, capability and preference; what waits is pending in the queue of its priority, what is active has an agent |
| `SchedulerLaws.SubmitAnswers` | src/agents/scheduler.js:210-233 | submit refuses what has no id, no room or no queue, and then changes nothing; else it answers with the task asked for |
| `SchedulerLaws.HistoryIsLastHundred` | src/agents/scheduler.js:732-746 | the history is the last hundred tasks that ended since it was cleared, in that order |
| `SchedulerLaws.AgentsAreAsRegistered` | src/agents/scheduler.js:155-193 | in every run an agent is there exactly from its registration to its departure, as registered, and counts the tasks it completed since |
| `SchedulerLaws.CancelTakesFirst` | src/agents/scheduler.js:264-290 | cancel takes the first waiting task of that id, exactly when there is one and none is active, and nothing else |
| `SchedulerLaws.UnregisterGivesBack` | src/agents/scheduler.js:698-712 | unregisterAgent gives back exactly the agent's tasks that were not started, pending, to the fronts of their queues |
| `SchedulerLaws.NobodyLeftIdle` | src/agents/scheduler.js:525-577 | after each accepted request, each end of an active task and each tick of a running scheduler no agent below its maximum that was given nothing could take the first task of any queue |
| `SchedulerLoads.LoadsExactIff` | src/agents/scheduler.js:297-424 | where no pass pushes a task out: loads are the numbers of running tasks all along exactly when no task is started twice, none ends unstarted while its agent is loaded, none runs on the agent with the empty id, and no agent registers anew while it runs something |
| `SchedulerLoads.WithinMaxIff` | src/agents/scheduler.js:297-318 | no load ever exceeds its maximum exactly when every start finds room |
| `SchedulerLoads.TwoForOne` | src/agents/scheduler.js:571-577 | an agent for one task at a time is given two, and runs both once they are started as scheduled |
| `AgentSchedulers.AgentScheduler.SelectAgent` | src/agents/scheduler.js:584-634 | the method, with its round-robin position, selects as specified |
| `AgentSchedulers.AgentScheduler.LoadBasedSelect` | src/agents/scheduler.js:642-648 | the reduction keeps the least loaded so far |
| `AgentSchedulers.AgentScheduler.ProcessQueues` | src/agents/scheduler.js:525-564 | the nested loops over priorities and queues compute the specified pass |
| `AgentSchedulers.AgentScheduler.Submit` | src/agents/scheduler.js:210-255 | the three errors, the new task at the end of its queue, and the pass that follows |
| `AgentSchedulers.AgentScheduler.Cancel` | src/agents/scheduler.js:264-290 | the first queue with the id loses it; an active task is not cancelled |
| `AgentSchedulers.AgentScheduler.AddToCompletedHistory` | src/agents/scheduler.js:732-739 | the history keeps the last hundred |
| `AgentSchedulers.AgentScheduler.MarkTaskStarted` | src/agents/scheduler.js:297-318 | the task runs and its agent's load rises |
| `AgentSchedulers.AgentScheduler.MarkTaskCompleted` | src/agents/scheduler.js:325-355 | the task ends, its agent's load drops, and a pass follows |
| `AgentSchedulers.AgentScheduler.MarkTaskFailed` | src/agents/scheduler.js:362-390 | likewise for a failure |
| `AgentSchedulers.AgentScheduler.MarkTaskTimeout` | src/agents/scheduler.js:396-424 | likewise for a timeout |
| `AgentSchedulers.AgentScheduler.UnregisterAgent` | src/agents/scheduler.js:179-193 | tasks not yet started go back to the front of their queues, and the agent leaves |
| `PoolRuns.PartitionHolds` | src/agents/pool.js:139-317 | at every await point of every interleaving the agents are partitioned into available and acquired, idle timers exist only for available agents, and no waiter was handed an agent |
| `PoolRuns.ReleaseKeepsPool` | src/agents/pool.js:187-240 | releasing keeps the partition in each of its branches |
| `PoolBounds.StepKeepsBoundIff` | src/agents/pool.js:155-158 | a call keeps the pool committed to at most maxPoolSize agents exactly when there is room besides the agents on their way |
| `PoolBounds.CommittedIsExact` | src/agents/pool.js:412-434 | in a reachable state the pool is committed to at most maxPoolSize agents exactly when the creations under way cannot take its size above that |
| `PoolBounds.NoRoomExceeds` | src/agents/pool.js:155-158 | a call without room leads to a size above maxPoolSize by creations alone |
| `PoolBounds.RunKeepsBoundIff` | src/agents/pool.js:139-279 | a run stays committed to at most maxPoolSize agents exactly when each of its calls has room |
| `PoolBounds.RoomKeepsBound` | src/agents/pool.js:139-279 | under every interleaving in which each call has that room the size never exceeds maxPoolSize |
| `PoolBounds.SequentialUpperBoundIff` | src/agents/pool.js:103-279 | one call at a time, the bound is kept exactly when each initialize finds room for minPoolSize more; acquire and scaleUp need no condition |
| `PoolBounds.SequentialLowerBound` | src/agents/pool.js:287-318 | one call at a time, neither scaleDown nor an idle timeout goes below minPoolSize |
| `PoolBounds.OverlappingAcquiresReachAnySize` | src/agents/pool.js:155-158 | overlapping acquires alone take a fresh pool to any size |
| `PoolBounds.StepKeepsMinimumIff` | src/agents/pool.js:287-318 | in a pool of minPoolSize agents or more a step leaves as many exactly when it passes the check: above the minimum, or nothing to remove |
| `PoolBounds.RunKeepsMinimumIff` | src/agents/pool.js:187-318 | under every interleaving the pool keeps minPoolSize agents exactly when each step passes that check |
| `PoolBounds.UndershootIsReachable` | src/agents/pool.js:287-318 | whenever minPoolSize is at least 1 and maxPoolSize leaves room for two more, some run takes a pool below minPoolSize |
| `PoolBounds.RemovalStopsAtMinimum` | src/agents/pool.js:287-298 | scaleDown sets out to destroy different free agents: as many as asked for, or all that are free, or down to minPoolSize |
| `PoolExclusive.StepKeepsExclusiveIff` | src/agents/pool.js:155-240 | a step keeps agents in exclusive use exactly when a created agent is nobody's as it is granted, and a released one is the releaser's |
| `PoolExclusive.ExclusiveIffProper` | src/agents/pool.js:139-240 | under every interleaving agents are in exclusive use throughout exactly when each step is of that kind |
| `PoolExclusive.UsedAvailableGetsShared` | src/agents/pool.js:467-520 | an agent that is available while somebody uses it comes to be shared after enough calls of acquire |
| `PoolExclusive.StaleGrantShares` | src/agents/pool.js:155-158 | a run in which an agent created for one caller is acquired by another first, and both use it |
| `PoolExclusive.SecondReleaseShares` | src/agents/pool.js:187-240 | a run in which a caller releases its agent twice, and two later callers share it |
| `PoolEffects.AcquireAnswers` | src/agents/pool.js:139-179 | acquire grants the agent that has been available longest; else creates one below the maximum; else waits |
| `PoolEffects.AgentsAfter` | src/agents/pool.js:187-434 | every step leaves exactly the agent born in it and those it does not take away, with the condition for each step |
| `PoolEffects.ScaleUpPlans` | src/agents/pool.js:248-260 | scaleUp sets out to create as many agents as asked for, or as many as there is room for |
| `PoolEffects.AcquiredAfter` | src/agents/pool.js:139-240 | an agent is acquired from its grant to its release, and available otherwise |
| `PoolEffects.ReleasedIsLast` | src/agents/pool.js:187-236 | a released agent is the last in line to be granted, with a timer and one more task |
| `PoolEffects.WaitersStandInLine` | src/agents/pool.js:176-178 | in every run those who wait stand in line by priority, first come first among equals |
| `PoolEffects.WaitersOnlyTimeOut` | src/agents/pool.js:206-223 | no step takes a waiter from the line but its timeout or the shutdown |
| `AgentPools.AgentPool.GetAvailableAgent` | src/agents/pool.js:473-488 | the first usable agent, its idle timer cleared |
| `AgentPools.AgentPool.Acquire` | src/agents/pool.js:139-179 | acquire up to its first await: a free agent, a creation, a place in the queue, or an error |
| `AgentPools.AgentPool.Release` | src/agents/pool.js:187-240 | release as specified |
| `AgentPools.AgentPool.DestroyAgent` | src/agents/pool.js:440-456 | _destroyAgent up to its await |
| `AgentPools.AgentPool.Shutdown` | src/agents/pool.js:356-391 | shutdown up to its await: no timers, no waiters, no agents |
| `AlertQueue.InsertAt` | src/alerts/engine.js:64-79 | the newcomer is put at one place, everything else stays in order |
| `AlertQueue.InsertKeepsOrder` | src/alerts/engine.js:64-79 | behind its equals and before everything less urgent |
| `AlertQueue.PriorityQueue.Enqueue` | src/alerts/engine.js:64-79 | the loop and the splice insert as specified |
| `AlertQueue.PriorityQueue.DequeueUpTo` | src/alerts/engine.js:85-88 | several calls of dequeue take the front, in order |
| `AlertQueue.HashCode` | src/alerts/engine.js:217-225 | the wrapping loop is the base-31 polynomial reduced once at the end |
| `AlertQueue.CleanupIsInvisible` | src/alerts/engine.js:232-257 | cleanup never changes a verdict |
| `AlertQueue.AcceptedSightingsAreApart` | src/alerts/engine.js:232-245 | two accepted sightings of a fingerprint are at least windowMs apart, when the clock reads 1 or more |
| `AlertQueue.ZeroTimeIsForgotten` | src/alerts/engine.js:236 | at clock reading 0 the stored time is taken for absent and a repeat is accepted |
| `AlertQueue.RepeatIsCaught` | src/alerts/engine.js:232-245 | in every run a repeat is caught exactly when the last accepted sighting of its fingerprint was stored at a time other than 0 and less than windowMs ago |
| `AlertQueue.ApartIffNoneAtZero` | src/alerts/engine.js:232-245 | over every run, accepted sightings of a fingerprint are at least windowMs apart exactly when none that was stored at time 0 is followed by another within its window |
| `AlertQueue.ApartIffNotAgain` | src/alerts/engine.js:232-245 | as no clock reads less than 0: exactly when no fingerprint seen at time 0 is seen again within its window |
| `AlertQueue.Deduplicator.IsDuplicate` | src/alerts/engine.js:232-245 | the verdict and the map as specified, cleanup included |
| `AlertEngine.AlertsAreConserved` | src/alerts/engine.js:357-494 | received = deduplicated + dropped + queued and queued = waiting + in flight + processed + cleared, by identity and in the counters, with overlapping batches |
| `AlertEngine.AlertsLeaveInOrder` | src/alerts/engine.js:419-442 | alerts leave most urgent first, first come first served among equals |
| `AlertEngine.AlertEngine.Submit` | src/alerts/engine.js:357-382 | submit as specified: duplicate, full queue, insertion |
| `AlertEngine.AlertEngine.StartBatch` | src/alerts/engine.js:419-432 | processBatch up to its first await |
| `AlertLaws.UrgentLeaveFirst` | src/alerts/engine.js:357-442 | in every run HIGH alerts stand before all others and LOW ones behind, and equals in the order of submission |
| `AlertLaws.SubmitAnswers` | src/alerts/engine.js:357-382 | submit answers with a duplicate exactly for a fingerprint accepted within the window, with a full queue exactly without room, and else queues the alert |
| `AlertLaws.QueueIsBounded` | src/alerts/engine.js:366-371 | the queue never holds more than its maximum |
| `AlertLaws.DrainedIff` | src/alerts/engine.js:419-432 | n batches leave nothing waiting exactly when they have room for everything; without a batch size none ever do |
| `AlertDrops.DuplicatesAreRefused` | src/alerts/engine.js:357-371 | in every run a submission is a duplicate exactly when the deduplicator alone would refuse it, whatever was dropped, batched or cleared |
| `AlertDrops.DuplicatesAreBackedIff` | src/alerts/engine.js:357-371 | every duplicate of a run has a queued predecessor in its window exactly when no alert dropped for a full queue is submitted again within the window |
| `AlertDrops.RetryIsRefused` | src/alerts/engine.js:357-371 | with a queue of one: the second alert is dropped, and its retry refused as a duplicate of nothing that was queued |
| `RateLimits.SlidingVerdict` | src/alerts/engine.js:150-176 | a request is let through exactly when fewer than maxRequests were accepted in the window that ends now |
| `RateLimits.SlidingBound` | src/alerts/engine.js:150-176 | no half-open interval of length windowMs holds more than maxRequests accepted requests, with two clock reads per request |
| `RateLimits.RateLimiter.TryRequest` | src/alerts/engine.js:169-176 | the filter and the push as specified |
| `RateLimits.FixedBound` | src/auth/multi-actor-middleware.js:361-386 | any interval of one window length admits at most 2 * max - 1 requests of one key (max at least 1) |
| `RateLimits.FixedBoundIsTight` | src/auth/multi-actor-middleware.js:361-386 | that bound is reached |
| `RateLimits.FixedBoundNeedsPositiveMax` | src/auth/multi-actor-middleware.js:376-382 | with max below 1 the first request of an entry still passes |
| `RateLaws.FixedVerdict` | src/auth/multi-actor-middleware.js:372-385 | a request is admitted exactly when it opens a window, or when with it no more than max have come since that was opened, refused ones included |
| `RateLimits.FixedWindowLimiter.CheckKey` | src/auth/multi-actor-middleware.js:372-385 | one key's entry and verdict as specified |
| `RateLimits.FixedWindowLimiter.CheckUnauthenticated` | src/auth/multi-actor-middleware.js:392-408 | twenty requests a minute per client address |
| `CircuitBreakers.FullBreakerHasAProbe` | src/alerts/channels.js:67-140 | a full half-open breaker has an unfinished probe whose end moves it |
| `CircuitBreakers.NeverStuckIffBudget` | src/alerts/channels.js:77-83 | over all runs the breaker is never full with nothing in flight, and so never stuck, exactly when halfOpenMaxCalls is at least 1 |
| `CircuitBreakers.StuckWithoutBudget` | src/alerts/channels.js:77-83 | without a probe budget a half-open breaker refuses everything for ever |
| `CircuitBreakers.CountersMeanHistory` | src/alerts/channels.js:98-124 | failureCount is the number of failures since the last success, and lastFailureTime the time of the last failure |
| `CircuitBreakers.ClosedIsBelowIff` | src/alerts/channels.js:113-123 | over all runs a closed breaker has failureCount below the threshold exactly when the threshold is at least 1 |
| `CircuitBreakers.OpensOnStreak` | src/alerts/channels.js:113-123 | a closed breaker opens exactly at the failure that completes a streak of the threshold's length |
| `CircuitBreakers.OpenWaitsForTimeout` | src/alerts/channels.js:67-75 | while open, no call runs before resetTimeout since the latest failure |
| `CircuitBreakers.ClosedByProbesIff` | src/alerts/channels.js:98-107 | when a half-open breaker closes, halfOpenMaxCalls successes were counted, all of them of probes of the present period exactly when no call admitted before it succeeded in it |
| `CircuitBreakers.ClosesOnProbesIff` | src/alerts/channels.js:98-107 | over all runs a breaker closes only after halfOpenMaxCalls probes of its period succeeded exactly when that is less than one |
| `CircuitBreakers.StrangerCloses` | src/alerts/channels.js:98-107 | a run in which all probes but one succeed, and a call from before: the breaker closes |
| `CircuitBreakers.TransitionsAre` | src/alerts/channels.js:67-140 | the next state, for every state and event, in terms of the history: an open breaker goes half-open at a call resetTimeout after the last failure, and in no other way anywhere else |
| `CircuitBreakers.StaysOpen` | src/alerts/channels.js:67-75 | once open, a breaker stays open and runs nothing until a call comes resetTimeout after the last failure, whatever ends meanwhile |
| `CircuitBreakers.ProbesAreCounted` | src/alerts/channels.js:77-83 | the probe counter is the number of calls admitted in the present half-open period |
| `CircuitBreakers.RunsIff` | src/alerts/channels.js:67-83 | exactly which calls run |
| `CircuitBreakers.CircuitBreaker.ExecuteStart` | src/alerts/channels.js:67-83 | execute up to the call of the function |
| `CircuitBreakers.CircuitBreaker.Succeed` | src/alerts/channels.js:98-107 | onSuccess as specified |
| `CircuitBreakers.CircuitBreaker.Fail` | src/alerts/channels.js:113-122 | onFailure as specified |
| `AuthTokens.ExchangedAtMostOnce` | src/auth/auth-service.js:405-440 | in every interleaving a refresh token is exchanged at most once |
| `AuthTokens.OneLiveTokenPerSession` | src/auth/auth-service.js:405-440 | of the tokens issued for a session at most one was not exchanged |
| `AuthTokens.RefreshSucceedsIff` | src/auth/auth-service.js:405-440 | exactly when a refresh succeeds: its session is live and the token was never exchanged |
| `AuthTokens.NoRefreshOnceGone` | src/auth/auth-service.js:405-440 | once a session is gone none of its tokens is exchanged again |
| `AuthTokens.NoRefreshAfterEnding` | src/auth/auth-service.js:355-372 | in every run, after a logout or an invalidation no token of that session is exchanged |
| `AuthTokens.LogoutAndInvalidationAreFinal` | src/auth/auth-service.js:355-372 | after logout or invalidation the session is gone for good |
| `AuthTokens.LoginTokensNeverRefresh` | src/auth/auth-service.js:337-345 | a token from login names a session that never exists, so it never refreshes |
| `AuthTokens.CleanupDropsOnlyExpired` | src/auth/auth-service.js:1130-1146 | a revocation is only dropped once the token it blocks has expired, with `exp` in floored seconds (section 4.1.4 of RFC 7519) |
| `AuthSessions.CleanupLeaves` | src/auth/auth-service.js:1130-1146 | a cleanup leaves exactly the sessions and revocations that have not run out, as they are |
| `AuthSessions.CleanupIsInvisible` | src/auth/auth-service.js:405-428 | a refresh ends after a cleanup as it would without one |
| `AuthSessions.CleanupLeavesNoTrace` | src/auth/auth-service.js:1130-1146 | an earlier cleanup leaves no trace after a later one, whatever is exchanged between them |
| `AuthSessions.RegisteredSessionLasts` | src/auth/auth-service.js:809-824 | in every run a registered session is there exactly until it is logged out or invalidated, or a cleanup finds that its lifetime has passed |
| `AuthSessions.RefreshWorksTillThen` | src/auth/auth-service.js:405-440 | till then a token of it that was not exchanged can be |
| `AuthSessions.EndedTokensAreRevoked` | src/auth/auth-service.js:355-372 | ending a live session revokes the token that could still be exchanged, for its whole lifetime |
| `AuthTokens.AuthService.StartRefresh` | src/auth/auth-service.js:405-428 | refreshTokens up to the generation of new tokens |
| `AuthTokens.AuthService.InvalidateSession` | src/auth/auth-service.js:635-646 | invalidateSession as specified |
| `AuthTokens.AuthService.Logout` | src/auth/auth-service.js:355-372 | logout as specified |
| `AuthTokens.AuthService.Cleanup` | src/auth/auth-service.js:1130-1146 | both cleanup loops as specified |
| `RadixScan.HasRadix` | scripts/fix-parseint-radix.js:39-74 | the scanning loop for a comma at the top level |
| `RadixScan.FindInsertionPoint` | scripts/fix-parseint-radix.js:81-120 | the scanning loop for the place behind the last argument |
| `RadixScan.IsInString` | scripts/fix-parseint-radix.js:147-171 | the scanning loop for an open string |
| `RadixMeaning.HasRadixIff` | scripts/fix-parseint-radix.js:39-74 | a call has a radix exactly when there is a comma at its top level, outside strings, before it closes |
| `RadixMeaning.InsertionIff` | scripts/fix-parseint-radix.js:81-120 | the place found is behind the last character of the call that is no space, and there is one exactly when the call closes |
| `RadixMeaning.InCommentIff` | scripts/fix-parseint-radix.js:125-142 | a position is in a comment exactly when two slashes stand before it on the line, or a comment was opened and none closed since |
| `RadixMeaning.InStringIff` | scripts/fix-parseint-radix.js:147-171 | a position is in a string exactly when a quote, with an even number of backslashes before it, opened one that no such quote has closed |
| `RadixMeaning.CallIsFixedIff` | scripts/fix-parseint-radix.js:177-237 | the script fixes exactly the calls that are in no comment and no string, have no comma of their own, and close |
| `RadixFix.InsertionIsRadix` | scripts/fix-parseint-radix.js:39-120 | inserting at the point found gives a call without radix a radix, for any text |
| `RadixFix.InsertRemovesLast` | scripts/fix-parseint-radix.js:238-242 | inserting at the last of increasing points removes exactly that fix |
| `RadixFix.ProcessFile` | scripts/fix-parseint-radix.js:177-242 | the search loop and the reverse rewriting loop as specified |
| `RadixFix.IncreasingLeavesNothing` | scripts/fix-parseint-radix.js:238-242 | with increasing points one pass leaves nothing to fix |
| `RadixFix.RewriteIdempotent` | scripts/fix-parseint-radix.js:238-242 | the rewriter is idempotent on such files |
| `RadixTwice.IdempotentIffNothingLeft` | scripts/fix-parseint-radix.js:238-242 | a second pass changes nothing exactly when the first left nothing to fix |
| `RadixNested.RewriteIsRightIff` | scripts/fix-parseint-radix.js:238-242 | for any number of calls, reverse-order insertion equals insertion at all original offsets at once exactly when no point lies behind that of a later call |
| `RadixMany.IdempotentIffAllSettled` | scripts/fix-parseint-radix.js:238-242 | for any number of calls to fix and any others: if no radix lands where it splits an escape or a comment mark, a second pass changes nothing exactly when for every call to fix some radix lands within its name or at the top level of its arguments |
| `RadixMany.SettlesUnmapped` | scripts/fix-parseint-radix.js:238-242 | whether an insertion settles a call can be told from where it lands in the text before the other insertions |
| `RadixMany.CallAfter` | scripts/fix-parseint-radix.js:39-120 | such an insertion leaves a call to fix exactly when it was one and is not settled |
| `RadixTwice.TwoCallsIdempotentIff` | scripts/fix-parseint-radix.js:238-242 | a file with two calls is left alone by a second pass exactly when the second is not nested in the first, or the first call's radix settles it where it lands in the original text |
| `RadixTwice.SettledIffTop` | scripts/fix-parseint-radix.js:39-120 | which means that it lands at the top level of that call, outside any string, unless it lands between a backslash and a quote of the string |
| `RadixTwice.NestedCallsAreSpoilt` | scripts/fix-parseint-radix.js:238-242 | a nested call is spoilt, the outer radix landing inside the inner one, and a second pass changes it again |
| `Concurrency.LimitIsRespected` | src/engine/concurrency.js:25-97 | held permits equal `current`, at most maxConcurrency; waiters imply all permits held; grants are first in, first out |
| `Concurrency.NoDeadlock` | src/engine/concurrency.js:25-97 | as long as a call has not finished, some step can be taken |
| `Concurrency.EveryBatchDrains` | src/engine/concurrency.js:90-97 | a run that cannot be extended has finished every call, after three steps each |
| `Concurrency.Semaphore.Acquire` | src/engine/concurrency.js:25-34 | acquire as specified |
| `Concurrency.Semaphore.Release` | src/engine/concurrency.js:39-46 | release as specified: the permit passes to the first waiter |
| `StableSort.SortIff` | src/analysis/memory-qr.js:353 | Array.prototype.sort, descending: the only list that is sorted and keeps the elements of each key in their old order |
| `Concurrency.NewLimiter` | src/engine/concurrency.js:56-62 | a limiter, or the error for a maximum below one |

## Left out

- MemoryQRs.MemoryQR.FindRelated: queued entries carry their path only, node and depth being its end and its length; the decay factor is an arbitrary function of the edge; which of several shortest walks is recorded, and the order of equal scores, are left open.
- GraphScores.AnswerScores: the decay itself, half to the power of the age in half-lives, is the arbitrary function `fade`; the defaults of the options of findRelated and getPath are the caller's.
- MemoryQRs.MemoryQR.VisitNeighbors: leaves out the comparison with an older score, since a node that was not visited has no result yet.
- GraphRuns.RunKeepsGraph: ids that an index lists beyond the live nodes are possible and not excluded.
- LruCaches.HoldsMostRecent: without TTL, and for requests that do not overlap (ReadThrough has those); expiry is part of the steps and of the transparency result, not of the stack theorem.
- RagKeys.SurvivorsAreFresh: numbers are reals, of which those that the language has are written differently from one another; a filter value is a scalar, a list of scalars, or an object with scalar bounds; the embedder is deterministic.
- RagCache.HitsFreshIffKeyIdentifies: a semantic weight is a finite number, as the order of a sort that compares with NaN is not specified; metadata values are scalars; field names that every object inherits are not asked for.
- RagCollisions.EmptyLimitFreshIff: and the two filter and field results beside it: for a query that has some similar text, without which nothing is ever found.
- RagCollisions.NullIsInfinityIff: for queries without filters; with filters, that more than ten results of infinity are not all found with null is immediate, the converse is not claimed.
- SchedulerRuns.RunConserves: for runs in which no id is submitted while a task of that id waits or is active, and before dispose (SchedulerLoss has all other runs).
- SchedulerLoads.LoadsExactIff: for runs in which no pass pushes an active task out, as one that is pushed out while running stays counted.
- RagLaws.RarerWeighsMore: of the logarithm only that it grows and is 0 at 1.
- MetricLaws.SwapLaw: the discount is an arbitrary function of the position.
- SchedulerOrder.FirstInFirstOut: says nothing about tasks given back by a departing agent, which go to the front; the order of submission is a serial number on each task, which the source does not keep.
- AgentSchedulers.AgentScheduler.Submit: takes the strategy that applies to the task, so that setStrategy needs no step.
- PoolRuns.PartitionHolds: health checks are left out, as the state of a pooled copy never becomes ERROR; automatic scaling is a scaleUp or scaleDown call with some count; a caller is one call of acquire, and may call release for any agent at any time.
- AuthTokens.ExchangedAtMostOnce: token signing and verification are foreign; a token is its identifier, session and expiry, and identifiers are never drawn twice.
- AlertDrops.DuplicatesAreBackedIff: the clock reads 1 or more; what happens at 0 is in AlertQueue.ApartIffNoneAtZero.
- Batches.AnyBatchInOrderIff: without TTL; every computation of the batch succeeds.
- AlertEngine.AlertsAreConserved: channels and listeners are left out; a send ends in success or failure.
- AlertQueue.HashCode: the text rendering of the hash is left out, and characters are UTF-16 code units below 0x10000.
- RadixMany.IdempotentIffAllSettled: a radix that lands just behind a backslash, before a quote or another backslash, or between the two characters of a comment mark changes what other calls' scans see; such files are not covered, but for those with two calls and no other.
- RadixTwice.TwoCallsIdempotentIff: for files with two matches and no other, whatever is around the landing; RadixMany has any number.
- RadixTwice.SettledIffTop: likewise.
- RateLimits.FixedBound: one key at a time, with the limits of one actor type.
- Embeddings.CosineSimilarity: over real numbers, with a square root that is exact.
- Event listeners, on the assumption that they do not call back into the object that emits: the scheduler emits `taskScheduled` synchronously inside its pass (src/agents/scheduler.js:677-681), and a listener that submits or marks a task there would start a nested pass.
- Statistics and wait or execution times of all components; they change nothing that is modelled.
- calculateRecallAtK, calculatePrecisionAtK, calculateMRR and the percentile: they would only add easy members.
- getContext, getStats and toJSON's statistics of the memory graph: groupings of what findRelated and the Maps return.
- updateDocument, import and export of the RAG system: sequences of the modelled steps.
- Lifecycle, supervisor, alert manager and rules, retrieval quality heuristics, email, webhook, console and WebSocket channels, API keys, companies, passwords and the server wiring.
