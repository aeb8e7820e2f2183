# OmniWeave: a verified model of the code graph

OmniWeave indexes a project into a graph of symbols and typed edges, keeps the
graph in SQLite, brings it up to date when files change, and answers questions
about it: the shortest path between two symbols, who calls what, what a change
could break, which files depend on each other in a circle, which tests to run.
This project models that machinery in Dafny and proves what it is for.

Four groups of modules, each the size and shape of the code it models:

- Graph queries. `CodeGraph` holds the graph and its lookups, `Reach` the notion
  of a walk and the bookkeeping every breadth-first search here shares.
  `FindPath`, `Traversal`, `CallGraph`, `Impact`, `Cycles` and `Affected` are the
  searches, each a loop or a recursion over mutable worklists, proved against
  reachability. `ImpactLimit` shows what a depth limit costs, and `FileDependencies`
  projects the symbol graph onto files.
- The store. `Store` gives the tables and what each statement does to them,
  `Statements` and `ScipFacts` what that means for rows and edges;
  `NodeCache` is the `QueryBuilder` object with its node cache, `KeyOrder` the
  theory of its key order, `KeyRecord` that of the record of use, `CacheRuns` every
  run of it and `CacheRecency` what a run evicts; `Reindex` says what
  storing one file's extraction does, `Records` what the tables then say of the
  file; `Sync` says when a database is faithful to the files it was built from, `Layers` what indexing files one after the other
  leaves; `Orchestrator`, `SourceSync` and `ContentIndex` are the loops that keep
  the database in line, `FullIndex` is the main loop of a full index, which
  `FromScratch` compares them with, and `IndexCounters` its bookkeeping.
- Protocols. `Mutex` and `FileLocks` are state machines over all interleavings of
  clients and processes, with the lock objects proved to take their steps;
  `ParseRequests` is the table between the indexer and its parse worker, and
  `RequestRuns` reads its runs off the order of events.
- Installing and assembling. `SnapshotInstall` replaces the graph files or puts
  them back; `ContextGathering`, `ContextTrimming` and `ContextAssembly` gather a
  search result and cut it to its budgets.

## How to read the model

- A query without ORDER BY returns rows in no promised order. The lookups promise
  which rows come back, never in which order, so every result about a search
  holds for each order. Where the source relies on the insertion order of a
  JavaScript `Map`, that order is modelled.
- A node row is the node as it reads back. JSON columns and normalisation of
  values on the way in are not looked at.
- `INSERT OR REPLACE` deletes the old row first, and the foreign keys of the edge
  table cascade (src/db/schema.sql:44-56, switched on in src/db/index.ts:37): an
  overwritten node loses its edges.
- A content digest is taken to be free of collisions. Extraction and language
  detection are arbitrary functions of path and content. The file system stands
  still during one sync. Scanning, ignore rules and git are inputs.
- JavaScript is not preempted between awaits: a step of the mutex is one such
  segment. A step of the lock file is either the check with the clearing of a
  stale file or the exclusive create; processes may die between any two steps and
  ids are not reused. Issuing a parse request is one step.
- A depth limit is an integer or unlimited, a set of kinds that is empty filters
  nothing.
- The per-file, non-production and hierarchy budgets of the context are
  parameters, because the source derives them from `maxNodes` in floating point;
  so are the tests for test files, low-signal files and content-only files, and
  the moments at which a file operation throws.

## What came out differently from what the code says of itself

Each of these has its exact condition, for all inputs, and a lemma or a method at
one concrete input that shows the failure.

- Re-indexing a file is meant to leave other files alone. It does exactly when the
  file extracts no id that another file's symbol already has
  (`Reindex.OthersKeptIffNoTheft`). The nodes for external tools and data artifacts
  have ids made from the name alone (src/resolution/frameworks/workflow.ts:111-150),
  so two workflow files that mention one tool take its node from each other, and the
  first loses its own edge to it (`Reindex.ToolTaken`). A whole sync keeps the graph
  faithful exactly when no two recorded files share an id (`SourceSync.FaithfulIff`),
  and agrees with indexing from nothing exactly when the files that do come in the
  same precedence (`FromScratch.SameGraphIff`, `FromScratch.SharedToolDiffers`).
- A size and modification time that did not move hide a change. `SourceSync.SyncSources`
  ends up to date if and only if there was no such change, as the comment at
  src/extraction/index.ts:1846-1850 concedes (`FromScratch.UnseenChange`).
- The node cache is meant to be a least-recently-used one. A batch lookup that is given
  an uncached id twice can fetch its row in two chunks; the second time the cache makes
  room first and then finds the key already there, which it leaves in its place
  (src/db/queries.ts:478-485, 515-524). So over a run the keys are those of a cache that
  keeps to least recent use exactly when no batch fetches a row again too soon
  (`CacheRecency.LruIff`): with a full cache one repeated id costs a second entry for
  nothing (`CacheRecency.FetchTwice`, `CacheRecency.RefetchOnFullCache`). What is left
  there still was used after all that is gone. That fails, over a run, exactly when a
  batch fetches a row again with between 1 and 998 other rows in between
  (`CacheRecency.MostRecentIff`, `CacheRecency.FetchedOutOfTurn`). Neither happens
  when each id that is missed stays within one chunk, so not when a call lists each id
  once, or at most 500 (`CacheRecency.OnceIsLru`, `CacheRecency.EachOnceIsLru`); for a
  full cache and a batch too small to fill it the former is exact
  (`CacheRecency.FullBatchIff`).
- A depth limit on callers, callees and impact reads like a distance. The searches are
  depth first over one visited set, and expand a symbol where they first meet it:
  one met at the limit is not expanded again by a shorter way
  (src/graph/traversal.ts:264-298, 533-595). The answer holds everything within the limit
  exactly when each symbol met at the limit that also lies nearer has what is next to it
  in the answer all the same (`Impact.CompleteIff`, `CallGraph.CompleteIff`); in a graph
  of five functions one of two symbols two calls away is always missing, in whatever
  order the rows come (`ImpactLimit.OneIsMissed`).
- If the backup of the old graph files itself fails midway, the clean-up deletes
  the files not yet moved: `SnapshotInstall.Install` restores the directory in that
  case exactly when there was no graph file to lose (src/snapshot.ts:1600-1608;
  `SnapshotInstall.FileLost`).
- The count of errored files can drop below zero, since a file that was indexed
  with a retryable error in its result is retried as if it had failed
  (`IndexCounters.NegativeIff`, `IndexCounters.CountBelowZero`;
  src/extraction/index.ts:1336-1436).
- The mirror of documentation files is exact if and only if none of them is
  tracked as a source file as well (`ContentIndex.Outcomes`,
  `ContentIndex.DocumentTracked`). After the source half of a sync that is always so.
- The budget for type hierarchies is checked before each one is merged whole, so
  the first pass can overshoot it; only the second pass keeps to it
  (src/context/index.ts:1071-1112; `ContextGathering.OvershootIff`,
  `ContextGathering.OneTypeTooMany`).
- Trimming prefers entry points and, so the comment says, their direct neighbours. The
  pass over the edges also passes on what it has just added, so that a node two edges
  away can be kept and a neighbour dropped (src/context/index.ts:1152-1180;
  `ContextTrimming.NeighboursFirstIff`, `ContextTrimming.NeighbourDropped`).
- Edge recovery compares source, target and kind joined by colons, and ids have colons
  in them: two different edges can have one key, and then one is dropped
  (src/context/index.ts:1258-1266; `ContextAssembly.RecoveredAllIff`,
  `ContextAssembly.CollidingKeys`).
- A failing exit of a worker already replaced rejects the requests of the new one
  (src/extraction/index.ts:1088-1099): with requests awaited one by one, a failing exit
  rejects another worker's request exactly when the worker that ended is not the one in
  use, which the handler tests only afterwards (`ParseRequests.ForeignRejectionIff`,
  `ParseRequests.ReplacedWorkerRejects`).

## Model

| member | source | states |
|---|---|---|
| `CodeGraph.GetIncomingEdges` | src/db/queries.ts:1443-1456 | Exactly the edge rows into the symbol of an allowed kind, each as often as the table holds it; no order is promised. |
| `CodeGraph.GetOutgoingEdges` | src/db/queries.ts:1414-1438 | The same for edges out of the symbol; the empty filter admits every kind. |
| `FindPath.FindPath` | src/graph/traversal.ts:605-662 | The answer is a path of allowed edges from source to target through existing symbols, no path has fewer hops, and there is no answer exactly when no path exists or an end is missing; it terminates on cyclic graphs. |
| `FindPath.HeadIsShortest` | src/graph/traversal.ts:620-661 | While the target has not been dequeued every path to it is at least as long as the head of the queue, although nodes are marked visited only on dequeue; an empty queue rules out every path. |
| `FindPath.PathIsWalk` | src/graph/traversal.ts:605-609 | A path as returned is a walk in the graph with one hop per element after the first, whatever edge rows it uses. |
| `Reach.FrontierVisit` | src/graph/traversal.ts:636-658 | Visiting the head of a first-in first-out queue and appending its unvisited successors keeps every depth honest and forgets no step. |
| `Reach.FrontierDone` | src/graph/traversal.ts:84-134 | A breadth-first search that marks on dequeue ends having visited exactly the nodes within the depth limit, each at its distance. |
| `Traversal.TraverseBFS` | src/graph/traversal.ts:61-138 | Below the node budget the result is exactly the nodes within `maxDepth` admissible steps of the start (node-kind filter waived on bridge edges, start left out on request); always, the edges form a spanning tree in which each node hangs by an admissible edge one level below an earlier one, at its true distance, in the order of the sorted edges; and whatever was visited above the depth limit has all its neighbours in the result. |
| `Traversal.SearchDone` | src/graph/traversal.ts:84-137 | What holds when the loop stops for either reason, budget or exhaustion. |
| `Traversal.Neighbours` | src/graph/traversal.ts:84-137 | When the node budget cuts the search short too: whatever was visited above the depth limit has all its neighbours in the answer, and the answer holds nothing else. |
| `Traversal.LinedMeans` | src/graph/traversal.ts:98-104 | Nodes are visited in the order of the visits to those they hang from, and of those that hang from one node, members before callees before the rest: what a budget cuts off is what comes later in this order. |
| `Traversal.SortByPriority` | src/graph/traversal.ts:98-104 | Reordering by structure, calls, rest loses and repeats no edge. |
| `Traversal.GetAdjacentEdges` | src/graph/traversal.ts:228-245 | Exactly the edges leading out of, into, or either way at the symbol, by direction. |
| `CallGraph.GetCalls` | src/graph/traversal.ts:254-343 | Every entry is a call-like edge from a symbol in range; the expanded symbols have levels below the limit, the start 0 and each other one more than the symbol of an entry that brought it in, everything one call from each of them is listed, and each entry is of one of them, and is one itself unless the limit forbids it; at depth 1 the answer is every such edge row to another existing symbol, as often as it occurs; with the limit at least the number of symbols it lists each symbol of the transitive closure once and nothing else. |
| `CallGraph.NearestListed` | src/graph/traversal.ts:264-298 | Whatever the limit, everything one call from the symbol is listed. |
| `CallGraph.CompleteIff` | src/graph/traversal.ts:264-298 | Everything within the limit is listed if and only if each symbol met at the limit that also lies nearer has all its calls listed. |
| `CallGraph.CallersCalleesConverse` | src/graph/traversal.ts:254-343 | Callers and callees are inverse to each other, row by row at depth 1 and as closures. |
| `CallGraph.TurnAround` | src/graph/traversal.ts:311-343 | A chain of calls found from one end is found from the other in as many steps. |
| `CallGraph.ClosureAnswer` | src/graph/traversal.ts:275-298 | A visited set closed under calls, listed without its root, is the transitive closure. |
| `CallGraph.CallSearch.Visit` | src/graph/traversal.ts:264-298 | The recursion on shared `visited` and `result`: entries stay sound, what it visits ends with everything one call away listed, each entry it adds ends expanded or at the limit, and nothing happens at the limit. |
| `Impact.GetImpactRadius` | src/graph/traversal.ts:499-531 | For every limit, the symbols of the answer have levels: the focal one 0, each other brought in by a listed edge from a symbol one level up, or on the same level if it is a member; and each symbol above the limit has all its dependents and members in the answer. `truncated` is never false while a transitive dependent is missing; without dangling edges `deeperCount` is exactly the number of direct dependents left out, all of them genuine; everything listed is in range; with the limit at least the number of symbols the answer is the least set closed under dependents and container members. |
| `Impact.NearestFound` | src/graph/traversal.ts:533-595 | Whatever the limit, if there is any depth at all every dependent and every member of the focal symbol is found. |
| `Impact.CompleteIff` | src/graph/traversal.ts:533-595 | The answer holds everything in range if and only if each symbol met at the limit that also lies nearer has everything next to it in the answer. |
| `ImpactLimit.OneIsMissed` | src/graph/traversal.ts:533-595 | Two symbols call the focal one and each other, and one more calls each: at depth 2 one of the last two is missing, although both are in range. |
| `Impact.FrontierIsLeftOut` | src/graph/traversal.ts:518-523 | What stays on the frontier is exactly the set of dependents the answer lacks. |
| `Impact.HoldsDependents` | src/graph/traversal.ts:525-531 | An answer no symbol outside depends on holds every transitive dependent of the focal symbol. |
| `Impact.HoldsEverything` | src/graph/traversal.ts:533-595 | An answer closed under dependents and members is precisely what can be reached. |
| `Impact.LeftOutIsReachable` | src/graph/traversal.ts:509-523 | Every dependent counted as left out exists and is reachable from the focal symbol. |
| `Impact.InRangeIsReached` | src/graph/traversal.ts:533-595 | Counting depth only on dependency edges finds nothing that is not reachable. |
| `Impact.ImpactSearch.Visit` | src/graph/traversal.ts:533-595 | The recursion on shared state only adds, keeps the levels of visited symbols, and leaves nothing it adds undone: a symbol is visited and has everything next to it in the answer, or lies at the limit with what it leaves out on the frontier; it terminates on cycles. |
| `Impact.CountOmitted` | src/graph/traversal.ts:520-523 | The count is the number of frontier symbols not in the answer. |
| `FileDependencies.GetDependencyFilePaths` | src/db/queries.ts:1535-1545 | Each other file that a symbol of the file has a non-`contains` edge into, once. |
| `FileDependencies.GetDependentFilePaths` | src/db/queries.ts:1493-1503 | The inverse relation, from the same edges. |
| `Cycles.FindCircularDependencies` | src/graph/queries.ts:225-263 | Each list reported is a cycle of two or more distinct files reachable from a tracked one; nothing is reported exactly when no such file lies on a cycle; and no component is missed: every file reachable from a tracked one that lies on a cycle shares one with the start of a reported cycle. |
| `Cycles.OrderedFindsAll` | src/graph/queries.ts:230-263 | Finishing order falls along every dependency but those a reported cycle closes, so every finished file on a cycle meets the start of a reported one. |
| `Cycles.OrderedIsAcyclic` | src/graph/queries.ts:230-253 | With no cycle reported the finishing order rules cycles out. |
| `Cycles.OrderedDescends` | src/graph/queries.ts:230-253 | A walk of k dependencies goes down at least k places in finishing order, or passes the start of a reported cycle. |
| `Cycles.CycleReturns` | src/graph/queries.ts:232-239 | A reported list leads back to its first file and has at least two members. |
| `Cycles.CycleSearch.Dfs` | src/graph/queries.ts:230-253 | The recursion keeps path and recursion stack in step, reports only real cycles, ends with the file finished or the edge to it closed by a reported cycle, and restores the stack. |
| `Affected.FindAffected` | src/bin/omniweave.ts:1958-1991 | The tests selected are the changed test files and exactly those tests that a changed non-test file reaches within the limit through non-test files; the files traversed are those reached, tests or not. |
| `Affected.SearchDone` | src/bin/omniweave.ts:1971-1990 | Marking on discovery in queue order finds every file within the limit, because each is first met at its least depth. |
| `Affected.SettledReach` | src/bin/omniweave.ts:1971-1990 | Whatever is k dependent steps away is met at depth at most k. |
| `Mutex.MutualExclusion` | src/utils.ts:355-400 | In every interleaving, at every moment, barging included: at most one client owns the lock or runs its body, `locked` says whether one does, the queue holds each waiter once, and with the lock free and clients queued some woken client can run. |
| `Mutex.StepKeeps` | src/utils.ts:364-394 | Each segment between awaits keeps all of that. |
| `Mutex.SomeoneCanStep` | src/utils.ts:355-400 | No deadlock: until all clients are done one of them can move. |
| `Mutex.FirstComeFirstWoken` | src/utils.ts:364-379 | In every interleaving waiters are woken in the order in which they began to wait. |
| `Mutex.EveryoneGetsIn` | src/utils.ts:364-394 | Every run of finitely many clients ends within seven steps a client, and a run that cannot go on has let every client through. |
| `Mutex.Mutex.TryAcquire` | src/utils.ts:364-371 | One pass of the loop in `acquire` is the state machine's attempt. |
| `Mutex.Mutex.Release` | src/utils.ts:373-379 | `release` is the state machine's last step and wakes the longest waiter. |
| `FileLocks.NoTwoBodies` | src/index.ts:362-449 | In every run of any number of processes, dying at any point, at most one `indexAll` or `sync` body runs in all of them together. |
| `FileLocks.FileIsRespected` | src/utils.ts:219-275 | While a live process owns the file, no other process clears it, creates it or releases it. |
| `FileLocks.DeadHolderBlocksNobody` | src/utils.ts:219-258 | Undisturbed, acquiring succeeds if and only if no live process owns the file; a stale or unreadable one never blocks. |
| `FileLocks.StepKeeps` | src/index.ts:476-560 | Every step of every process keeps: a live process is inside its locked section exactly when the file names it. |
| `FileLocks.SomeoneCanStep` | src/index.ts:476-560 | While a client of a live process has not returned, some live process can go on. |
| `FileLocks.EveryCallEnds` | src/index.ts:362-449 | Whatever the schedule and whoever dies, runs are bounded, and when no live process can go on every client of the live ones has returned: mutex and file are let go of by all. |
| `FileLocks.FileLock.Acquire` | src/utils.ts:219-258 | The object's two calls are the two steps; it holds the lock afterwards if and only if no live process owned the file. |
| `FileLocks.FileLock.Release` | src/utils.ts:263-275 | Removes the file only when this process holds it. |
| `Store.PutSane` | src/db/queries.ts:249-311 | Inserting over an existing row leaves no edge without an end, since the old row takes its edges along. |
| `Store.ReplaceScipSane` | src/db/queries.ts:1327-1349 | Replacing all imported facts leaves no edge dangling. |
| `Statements.ReadsWhatWasWritten` | src/db/queries.ts:249-435 | After each statement that writes, a lookup answers the row written last, nothing for what was deleted, and the old row for every other id. |
| `Statements.EdgesFollow` | src/db/queries.ts:249-413 | How many rows of each edge there are after each statement: those with a deleted or overwritten end go, inserted ones come where both ends exist, all others stay. |
| `Statements.RecordsFollow` | src/db/queries.ts:402-413 | File records and raw content change with the removal of a file and the emptying of the graph only. |
| `ScipFacts.Imported` | src/db/queries.ts:1327-1375 | The whole tables after an import, with multiplicities: imported symbols replace the SCIP ones; of the old edges those stay that are not SCIP's and touch no symbol that went or came; the imported edges are added where both ends exist; files and raw content stay. |
| `ScipFacts.ImportTwice` | src/db/queries.ts:1322-1349 | Importing the same SCIP facts again changes nothing at all, not even the order of the rows. |
| `CacheRuns.RunCached` | src/db/queries.ts:249-531 | The cache is transparent: over every run of inserts, updates, deletes, file removals, replacements of imported facts, clears and lookups, all answers and the final tables are those of a table without a cache, nothing dangles, the cache never exceeds its maximum, and its keys in order are those of the specification for whatever rows the queries returned first. |
| `CacheRecency.LruIff` | src/db/queries.ts:249-531 | Least recently used, over every run of mutators and lookups: at every moment, also in the middle of a batch, the keys in order are those of a cache that puts whatever is used last and drops the first key only for a new one, if and only if no batch fetches a row again too soon. |
| `CacheRecency.MostRecentIff` | src/db/queries.ts:249-531 | Over every such run: at every moment whatever the cache lacks of what was used since its row last changed was used before all it holds, if and only if no batch fetches a row again with 1 to 998 others in between. |
| `CacheRecency.OnceIsLru` | src/db/queries.ts:473-488 | Both hold of every run whose batches miss no existing id in two chunks, whatever order the rows come in. |
| `CacheRecency.EachOnceIsLru` | src/db/queries.ts:456-491 | In particular if every batch lists each id once or has at most 500 ids. |
| `CacheRecency.FullBatchIff` | src/db/queries.ts:473-488 | With the cache full, a batch of fewer different ids than it holds keeps to least recent use if and only if no existing id is missed in two chunks. |
| `CacheRecency.FetchedOutOfTurn` | src/db/queries.ts:515-524 | Two rows fetched in turn and the first once more in the next chunk: the run ends with the keys in the order opposite to their use. |
| `KeyRecord.CachedEndOfIff` | src/db/queries.ts:515-524 | Caching a row keeps what is cached more recent than what is not exactly when its key is not in the cache, is the last, or is the first of a full one. |
| `KeyRecord.EndsIff` | src/db/queries.ts:478-485 | While a batch of missed ids is cached, the cache stays the end of the record of use exactly when none is cached again out of turn. |
| `CacheRecency.LookUpAll` | src/db/queries.ts:418-435 | When existing rows are looked up one by one, the cache holds exactly the 1000 used last, the least recently used first in line for eviction. |
| `KeyOrder.CachedIsUse` | src/db/queries.ts:515-524 | Caching a row counts as a use of it exactly when its key is not in the cache, or is at the front of a full one, or at the end of one with room. |
| `KeyOrder.PromptIff` | src/db/queries.ts:478-485 | A batch of missed ids is cached as if each were used in turn exactly when none is repeated too soon, by the number of other ids between its two occurrences and the room there was. |
| `CacheRecency.BatchIsUses` | src/db/queries.ts:456-488 | A batch lookup leaves the keys that using its hits and then its rows would, and does so at every step exactly when nothing is fetched again too soon. |
| `CacheRecency.FetchedOnceIff` | src/db/queries.ts:473-488 | No row is fetched twice in a batch exactly when each missed id that exists stays within one chunk. |
| `CacheRecency.FetchTwice` | src/db/queries.ts:473-488 | One missed id, wanted 501 times, with the cache full: two entries go instead of one, the second of which a use would have kept. |
| `CacheRecency.RefetchOnFullCache` | src/db/queries.ts:515-524 | The same at one concrete input: a thousand lookups, then that batch, leave 999 entries. |
| `KeyOrder.UsedLatest` | src/db/queries.ts:515-524 | Evicting the first key when full keeps, after each use, what a cache without a limit would list last. |
| `KeyOrder.RecentByUse` | src/db/queries.ts:418-435 | The list of ids at their latest use holds each id looked up once, in order of last use. |
| `NodeCache.QueryBuilder.GetNodeById` | src/db/queries.ts:418-435 | The row as it stands in the table; the entry becomes the most recently used. |
| `NodeCache.QueryBuilder.GetNodesByIds` | src/db/queries.ts:456-491 | Exactly the rows that exist among the wanted ids, cached or not, however many chunks it takes; the keys afterwards are those after using the hits in turn and caching the rows of each chunk in the order the query gave them. |
| `NodeCache.QueryBuilder.CacheNode` | src/db/queries.ts:515-524 | Makes room by dropping the first key of a full cache, and appends the new key unless it is there still, in which case it stays in its place. |
| `NodeCache.QueryBuilder.DeleteNodesByFile` | src/db/queries.ts:402-413 | Deletes the file's nodes with their edges and every cached copy of them, leaving the order of the other keys. |
| `NodeCache.QueryBuilder.ReplaceScipFacts` | src/db/queries.ts:1327-1375 | Takes the tables where `ScipFacts.Imported` says, leaving no stale cache entry and the other keys in order. |
| `Reindex.StoredSane` | src/extraction/index.ts:1672-1784 | Re-indexing a file, whatever was extracted, leaves no edge without an end. |
| `Reindex.OthersKeptIffNoTheft` | src/extraction/index.ts:1690-1707 | Every other file keeps its symbols if and only if the new extraction has no id that another file's symbol has. |
| `Reindex.ToolTaken` | src/resolution/frameworks/workflow.ts:131-150 | Two workflow files that run one tool: re-indexing the one takes the tool's node from the other, and the other's own edge to it is lost. |
| `Reindex.RestOfGraphKept` | src/extraction/index.ts:1684-1750 | The whole edge table after re-indexing, edge by edge with multiplicity and whatever was extracted: the rows that touch neither an old symbol of the file nor an extracted id, plus the extracted ones between extracted symbols, plus the replayed ones. |
| `Reindex.SurvivesIff` | src/db/queries.ts:249-311 | An edge that touches none of the file's old symbols survives the insertion exactly when the extraction has neither of its ends' ids. |
| `Reindex.RestKeptUnlessTaken` | src/extraction/index.ts:1684-1750 | When the extraction takes no other file's id: unchanged between other files, exactly the replayed rows into the file, exactly the extracted rows inside it, none out of it. |
| `Reindex.ReplayIsRetargeting` | src/db/queries.ts:1505-1527 | Cross-file incoming edges survive one by one exactly when the file still has a symbol of the old target's kind and name, with only the target changed, to such a symbol. |
| `Reindex.FindTarget` | src/extraction/index.ts:1720-1729 | A target is found if and only if some new node has the kind and name, and then it is such a node. |
| `Reindex.TargetIsLast` | src/extraction/index.ts:1720-1729 | Of several new nodes with the kind and the name the target is the last. |
| `Reindex.RegraphedNodes` | src/extraction/index.ts:1684-1709 | The symbols after re-indexing are the other files' with the extracted rows laid over them. |
| `Sync.FaithfulDetermines` | src/extraction/index.ts:1794-1928 | The symbols of a database in which every tracked file has exactly what its recorded content yields are fixed by the recorded files and digests. |
| `Sync.StoreKeepsFaithful` | src/extraction/index.ts:1672-1784 | Storing an extraction that names its own file records the content and touches no other record; it keeps the database faithful if the content was recorded already, and else exactly when it takes no other file's symbol. |
| `Sync.FaithfulIsCompatible` | src/extraction/index.ts:1794-1928 | A database can be faithful only if the contents it records name their own files and share no id. |
| `Sync.FaithfulIffNoTheft` | src/extraction/index.ts:1672-1784 | For extraction that may share ids: storing a changed file keeps the database faithful if and only if it takes no other file's symbol. |
| `Sync.RemoveKeepsFaithful` | src/db/queries.ts:1684-1693 | Removing a file keeps the rest faithful. |
| `Layers.LayeredByOwner` | src/extraction/index.ts:1897-1908 | After indexing files one after the other, the row of an id is that of the last file indexed that has it. |
| `Orchestrator.StoreExtractionResult` | src/extraction/index.ts:1672-1784 | The method takes the database, through the cache, to the state the specification `Stored` gives, in all branches: unchanged, new and changed content. What that state is, is said by `Reindex.RestOfGraphKept`, `Reindex.RegraphedNodes` and `Records.StoredDocumented`. |
| `Records.StoredDocumented` | src/extraction/index.ts:1760-1783 | Storing keeps of every tracked file: its record has the language and the number of nodes of the content recorded, and its raw text can be searched exactly when its language allows it and it is not too big, and then it is the text recorded. |
| `Records.RemovedDocumented` | src/db/queries.ts:1684-1694 | Removing a file keeps that of all others. |
| `Orchestrator.RunRecords` | src/extraction/index.ts:1897-1908 | Whatever is indexed, readable or not, that is kept, and each record is an old one or has the digest, language, size and time of the file on disk. |
| `Sync.OutcomeIs` | src/extraction/index.ts:1628-1668 | What is stored for a file is all that extraction makes of it, if it is small enough, its language supported, and anything made. |
| `Sync.RowsAre` | src/extraction/index.ts:1698-1710 | The symbols of a file are, of each id, the last usable node extracted. |
| `Orchestrator.Reinserted` | src/extraction/index.ts:1720-1745 | The lookup by kind and name built by the loop re-creates exactly the specified replay. |
| `Orchestrator.IndexAllOf` | src/extraction/index.ts:1897-1908 | The files go in one after the other. When every file can be extracted, the file table gains exactly their current digests, whatever ids they extract; and the symbols are those of the other files with each file's rows laid over those before it. |
| `SourceSync.SyncSources` | src/extraction/index.ts:1794-1908 | Removed, added and modified are counted exactly; on a workable disk the file table ends up to date if and only if no change hid behind an unmoved size and time, whatever was extracted; a faithful database ends faithful if and only if the contents then recorded go together; with every row belonging to a tracked file, which stays so, the symbols are those of the files left alone with the rows of each changed file laid over, also after ids were taken; records and raw text of source files stay right, and each record is an old one or says what is on disk; a second sync finds nothing to do, and where there is nothing to do nothing changes. |
| `SourceSync.FaithfulIff` | src/extraction/index.ts:1794-1908 | A sync of a faithful database ends faithful exactly when every recorded content names its own file and no two recorded files share an id. |
| `SourceSync.Reconciled` | src/extraction/index.ts:1838-1885 | Kept, dropped and re-indexed files together are the present ones with current digests, exactly when no change was not seen; and in either case nothing looks gone or changed any more. |
| `FromScratch.SyncEqualsScratch` | src/extraction/index.ts:1183-1331 | Syncing a faithful index and the main loop of `indexAll` on empty tables always end with the same files and digests; each graph is faithful exactly when the contents on disk go together, and then they are the same; records and raw text are right in both; and when each content names its own file they are the same exactly when files that share ids come in the same precedence. |
| `FullIndex.IndexEverything` | src/extraction/index.ts:1183-1331 | The main loop of `indexAll`, unreadable, oversized and failed files included, takes the database through the cache to the specified tables; records and raw text of source files stay right, and each record is an old one or says what is on disk. |
| `FullIndex.SameOutcomeIff` | src/extraction/index.ts:1640-1668 | `indexAll` and `indexFile` store the same for a file unless its language is unsupported and extraction makes something of it all the same: `indexAll` does not ask. |
| `FullIndex.BulkIsRun` | src/extraction/index.ts:1265-1293 | Then, from any tables, `indexAll` leaves the tables that indexing the readable files one by one, as `sync` does, would. |
| `FromScratch.SameGraphIff` | src/extraction/index.ts:1794-1928 | Incremental and from-scratch symbols agree exactly when, of the files that have an id some changed file has, the last scanned is the last changed one. |
| `FromScratch.SharedToolDiffers` | src/resolution/frameworks/workflow.ts:131-150 | Adding a workflow file that runs a known tool: everything is up to date, neither graph is faithful, and the two differ. |
| `FromScratch.UnseenChange` | src/extraction/index.ts:1846-1858 | A file rewritten in place, with its length and time stamp kept, stays recorded with its old content. |
| `FromScratch.SameDiskSameGraph` | src/extraction/index.ts:1794-1928 | Two faithful databases up to date with one disk hold the same graph of symbols, however each got there. |
| `Orchestrator.GetChangedSourceFiles` | src/extraction/index.ts:1935-1990 | Reports exactly the files a sync would add, modify and remove; nothing when up to date. |
| `Orchestrator.RemoveGone` | src/extraction/index.ts:1828-1837 | Exactly the tracked files that are no longer scanned or no longer there go, and are counted. |
| `ContentIndex.PurgeUnsafe` | src/extraction/index.ts:1511-1520 | Exactly the rows of source files that must not be searchable go, and are counted. |
| `ContentIndex.SyncContentOnly` | src/extraction/index.ts:1466-1509 | The non-source rows end as the current readable files with their current text if and only if none of those is tracked as source; the counts say exactly what was added, changed and removed, and balance the number of rows; a mirror is left alone. |
| `ContentIndex.Outcomes` | src/extraction/index.ts:1466-1509 | When the mirror is exact, and how many rows it is short of otherwise. |
| `ContentIndex.DocumentTracked` | src/extraction/index.ts:1466-1509 | A document that is tracked as a source file is added on every pass and never mirrored. |
| `ContentIndex.SyncAll` | src/extraction/index.ts:1794-1928 | The whole of `sync`: from any database an exact mirror and no unsafe row; on a workable disk the source files up to date unless a change could not be seen, and a faithful graph faithful unless the contents do not go together; every source file that may be searched can be, with the text recorded, if that was so before; all counters; nothing changes when in sync. |
| `ContentIndex.SyncTwice` | src/extraction/index.ts:1794-1928 | A second sync of an unchanged disk changes nothing and reports nothing, whatever is extracted and also after a change that could not be seen; the first leaves all in line with the disk exactly when there was none. |
| `ContentIndex.NothingUnsafe` | src/extraction/index.ts:1915-1918 | Where records and raw text are right there is nothing to purge. |
| `ParseRequests.Run` | src/extraction/index.ts:1061-1180 | For every order of issues, results, timeouts, errors, exits, recycles and the shutdown: each request is settled exactly once, by the first event that concerns it, later ones being ignored, and nothing stays pending. |
| `RequestRuns.RunByEvents` | src/extraction/index.ts:1061-1180 | The same by positions: a request is resolved exactly when the first event after its issue that can end its wait is its result, timed out exactly when it is its timer, and rejected exactly when it is a worker's error, a failing exit or the end. |
| `RequestRuns.RetiredIsNotUsed` | src/extraction/index.ts:1104-1178 | A worker whose request timed out, that ended, or that was recycled is never sent another request. |
| `RequestRuns.WorkerShare` | src/extraction/index.ts:1149-1158 | No worker is ever sent more than 250 requests. |
| `RequestRuns.KeepsItsWorker` | src/extraction/index.ts:1149-1158 | The next request goes to the worker of the last one, as long as that is in use, exactly when it has had fewer than 250. |
| `ParseRequests.RequestTable.Handle` | src/extraction/index.ts:1071-1178 | After every event the pending entries are exactly the unsettled requests, each with its timer armed, and no worker has been sent more than 250. |
| `ParseRequests.OnlyIssuedHaveFates` | src/extraction/index.ts:1150-1178 | Nothing is settled that was not issued. |
| `ParseRequests.ForeignRejectionIff` | src/extraction/index.ts:1088-1099 | With requests awaited one by one, a failing exit rejects a request that was sent to another worker exactly when a request is open and the worker that ended is not the one in use. |
| `ParseRequests.OpenIsCurrent` | src/extraction/index.ts:1150-1178 | With requests awaited one by one, the open request was sent to the worker in use, unless that one has ended. |
| `ParseRequests.ReplacedWorkerRejects` | src/extraction/index.ts:1088-1099 | After a recycle the old worker's failing exit settles the request sent to the new one. |
| `IndexCounters.IndexAll` | src/extraction/index.ts:1182-1436 | Indexed, skipped and errored add up to the files scanned through the main loop and both retry passes; each recovery moves one from errored to indexed; errored stays non-negative under the stated condition. |
| `IndexCounters.CountedAsWhatTheyAre` | src/extraction/index.ts:1222-1318 | The main loop counts as errored the files that cannot be read or parsed, or yield nothing but an error; as skipped the oversized and the empty; as indexed the rest. |
| `IndexCounters.ErrorsListed` | src/extraction/index.ts:1222-1300 | What went wrong with each file is listed under its kind of error. |
| `IndexCounters.RetryableAre` | src/extraction/index.ts:1336-1339 | What is retried are the parse errors for which the worker's memory was to blame, each as often as listed. |
| `IndexCounters.RecoveredOrFailing` | src/extraction/index.ts:1340-1385 | No retry counts both as recovered and as failing again. |
| `IndexCounters.ErroredCoversRetries` | src/extraction/index.ts:1336-1339 | When no result carries a retryable error, the files errored cover the entries to retry. |
| `IndexCounters.NegativeIff` | src/extraction/index.ts:1336-1379 | Some outcome of the retries makes a full index report a negative errored count if and only if it has a worker and the main loop left more entries to retry than files errored. |
| `IndexCounters.IndexedFileCanBeRetried` | src/extraction/index.ts:1286-1317 | One file indexed with such an error in its result is enough: none is errored and one is retried. |
| `IndexCounters.CountBelowZero` | src/extraction/index.ts:1336-1379 | Of that one file a full index then reports two indexed and minus one errored. |
| `SnapshotInstall.Install` | src/snapshot.ts:1594-1612 | On success the graph files are exactly the listed artifacts as `afterInstall` left them, no old sidecar surviving; after any failure once the backup is complete, with clean-up and restore done, the directory is exactly as before; when the backup itself fails, only graph files are missing, and some are if there were any; where a single failing operation leads, by its place in the sequence; with a reliable file system it succeeds exactly when the artifacts are there and `afterInstall` accepts; other files are never touched. |
| `SnapshotInstall.RollBack` | src/snapshot.ts:1605-1609 | The catch block restores everything but the graph files that had not reached the backup. |
| `SnapshotInstall.FileLost` | src/snapshot.ts:1600-1608 | Moving the second of two graph files away throws, and that file is gone. |
| `SnapshotInstall.Disk.MoveKnown` | src/snapshot.ts:1624-1632 | Moves the graph files that exist; on failure, source and backup still partition them. |
| `ContextAssembly.Assemble` | src/context/index.ts:1061-1268 | Everything searched for is gathered, the type hierarchies of both passes exactly as far as their budget goes, and nothing else; the nodes are the budget's share of these and each later stage drops no more than its budget asks for; the final graph keeps all three budgets at once; its edges join final nodes, no two share source, target and kind, no gathered edge with both ends is lost, and every recoverable triple is there if and only if joined keys tell the new ones apart. |
| `ContextGathering.Gather` | src/context/index.ts:1061-1150 | Holds the entry points, what each traversal found, and all type hierarchies unless their budget is used up; how many nodes the first pass over them added, and when that is more than the budget; the second pass ends with the rest of the budget used up or the hierarchy of every type found; every node and edge comes from one of these searches; ids and edge triples are unique. |
| `ContextGathering.OvershootIff` | src/context/index.ts:1071-1094 | The first pass exceeds the hierarchy budget exactly when the hierarchy that first reaches it brings more than is left, and always by less than that hierarchy's size. |
| `ContextGathering.OneTypeTooMany` | src/context/index.ts:1071-1094 | One class with two supertypes adds two nodes to a budget of one. |
| `ContextGathering.ExpandSiblings` | src/context/index.ts:1096-1122 | The second pass adds at most what the hierarchy budget has left, and exactly that much unless it holds the whole hierarchy of every type found by then, with the edges inside it; and it adds nothing else. |
| `ContextTrimming.Trim` | src/context/index.ts:1152-1188 | The loops compute the budget's share as specified: the first of the preferred nodes, in the order the pass over the edges lists them, then the others in order. |
| `ContextTrimming.TrimmedFits` | src/context/index.ts:1152-1188 | The share has exactly as many nodes as the budget allows, each once, and the entry points whenever they fit. |
| `ContextTrimming.NeighboursFirstIff` | src/context/index.ts:1154-1180 | No other node is kept while an entry point or a neighbour of one is dropped, exactly when everything fits or the budget does not lie between the first preferred node that is not one and the last that is. |
| `ContextTrimming.NeighbourDropped` | src/context/index.ts:1154-1180 | With room for three, edges r-a, a-b and r-c keep b, two edges away from the entry point r, and drop its neighbour c. |
| `ContextAssembly.CapFiles` | src/context/index.ts:1190-1221 | Of every file as many nodes as allowed; no entry point goes before another node of its file, and within either group no type before a callable, and neither before the rest. |
| `ContextAssembly.RankMeans` | src/context/index.ts:1205-1217 | Ranking as high means just that. |
| `ContextAssembly.CapNonProd` | src/context/index.ts:1222-1243 | Of the low-signal nodes the first ones, in order, and all others; each node dropped leaves the roots where it was listed. |
| `ContextAssembly.Recover` | src/context/index.ts:1249-1266 | Adds, of each joined key not among the kept edges, the first found edge; keeps triples unique; and ends with every found triple if and only if no other triple shares the key of a new one. |
| `ContextAssembly.RecoveredAllIff` | src/context/index.ts:1256-1266 | Every found triple is there in the end exactly when joined keys tell the new triples apart from all others. |
| `ContextAssembly.CollidingKeys` | src/context/index.ts:1256-1266 | Edges from `a:b` to `c` and from `a` to `b:c` have one key, and the second is dropped. |
| `ContextAssembly.Budgets` | src/context/index.ts:1190-1243 | Later stages undo no earlier budget. |
| `ContextGathering.WhereFewer` | src/context/index.ts:1190-1243 | Dropping nodes never raises the count of any file. |

## Left out

- Members of a container met at the depth limit: the code neither opens it nor counts them as left out, so `truncated` speaks of dependents only.
- `traverseDFS`, `getTypeHierarchy`, `getCallGraph` and the other queries: variants of the searches modelled, or, for the type hierarchy, a second pass that its shared visited set makes empty.
- Which of several cycles through the same files are reported: the search visits each file once, so it need not list every cycle, only some in each component.
- Edges in the comparison of incremental and from-scratch indexing: they come from reference resolution, which is not modelled. Re-indexing itself is, edge by edge (`Reindex.RestOfGraphKept`).
- `unresolved_refs`, the per-file error list and timestamps of a stored file: written beside the graph and read by parts not modelled.
- `insertScipFacts`, which skips edges already there: `replaceScipFacts` is the harder case for the cache.
- `getChangedFiles` for documentation files: it does not mirror `sync` there.
- Raw-content rows as an index: matching, ranking and full-text search over them, and all other search.
- `indexFiles`, which lets go of its file lock early, and the parts of the lock's callers after the body begins.
- The lock file by single system calls: with check and clear taken apart, two processes can clear each other's fresh file. The two-step granularity is a hypothesis of `FileLocks`.
- Starvation of the mutex by newcomers without end: `Mutex.EveryoneGetsIn` is about finitely many clients.
- A parse worker that dies between being chosen and being sent its request: issuing is one step here.
- What a full index stores for a file only a retry gets through: the comparison with `sync` is about the main loop with every parse answered. The counters of the retries are modelled.
- Abort signals in the main loop of a full index, and a throwing `stat` in a retry pass: both leave the loop without the final tally.
- What an index directory holds when clean-up or restore itself throws in `installSnapshotArtifacts`, and a failing removal of the backup directory: `SnapshotInstall.Install` promises only that other files are untouched.
- Checks on a snapshot before it is installed, the manifest parser, digests, pragmas.
- Ranking and choice of the entry points of `findRelevantContext`, its confidence flag, and how its traversals find what they find: their results are arbitrary inputs.
- Parsing, grammars, framework detection, language tables, git, ignore rules, the command line, the server, telemetry, migrations.
