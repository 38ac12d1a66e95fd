# docpipe, verified

A Dafny model of docpipe's stateful middle layer: the bounded cache and limiter, the concurrent
schedulers, and the ingestion, retrieval and identity algorithms between the network clients and the
model wrappers. `dafny verify dfyconfig.toml` checks everything.

Code that updates objects in place is a class whose methods are proved equal to a function of the old
state; loops are methods with invariants; concurrent code is a step system whose scheduler, encoders,
models, workers, reviewers and callers are adversaries. The theorems are about whole runs or scripts.

| file | what it models |
|---|---|
| `Basics.dfy`, `Text.dfy` | small vocabulary; white space, numerals, UTF-8, ideal digests |
| `Json.dfy`, `Python.dfy`, `WrittenForm.dfy` | JSON text; Python values and what is written for them |
| `KVCache.dfy`, `Eviction.dfy` | the LRU and TTL cache behind response caching; exactly when a key is still there |
| `RateLimit.dfy`, `ClientLaws.dfy` | the sliding-window limiter and the forwarded-address walk |
| `Blocking.dfy`, `BlockingLaws.dfy` | the bounded runner of blocking calls |
| `VectorStore.dfy`, `StoreLaws.dfy` | the in-memory reference vector store |
| `Ingestion.dfy`, `Upserts.dfy`, `Linearization.dfy`, `Outcome.dfy`, `Provenance.dfy` | concurrent batch writing into that store, what it leaves and where that came from |
| `Progress.dfy`, `Schedules.dfy`, `Repetition.dfy` | that it ends, when it can succeed, and exactly when schedules and repeats make no difference |
| `Documents.dfy`, `Identity.dfy`, `DocumentLaws.dfy`, `Chunking.dfy`, `Fingerprint.dfy` | parsed documents; names of documents, chunks and contents |
| `Retrieval.dfy` | fusion, expansion, capping and source lists |
| `RagCache.dfy`, `CacheLaws.dfy` | the identity of cached answers and queries over a shared, unreliable cache |
| `ToolAgent.dfy`, `ToolLaws.dfy` | the agent graph with approvals, verification and budgets |
| `Lifecycle.dfy`, `Replies.dfy` | nested plugin scopes and what acquiring from them answers |
| `Download.dfy`, `DownloadLaws.dfy` | redirect-following bounded downloads |
| `ApiVersion.dfy` | plugin API versions and their ranges |

The second file of a pair tells the same operations without their own vocabulary: from the settings, the
chunks, the script or the journal alone.

Assumptions shared by several files: clock readings are reals and do not decrease where that is stated;
scores and vectors are reals; a digest is a hexadecimal text that determines the bytes fed to it; a
character is a Unicode scalar value, so texts with lone surrogates, which Python refuses to encode in
these places, do not occur. What an encoder answers is arbitrary for each batch of a run (a field of
`Plan`), and it may raise at any time; only where two runs share a plan does it answer both alike. Whether
the semaphore is fair, as `asyncio`'s is, is another field: nothing but the exact conditions depends on it.

## Where the code and its documentation part

- `_ScopeNode.acquire` says it constructs a resource once. A factory that raises, or a resource that
  fails to enter, is constructed again: on every run that has not provided a key, by the next two
  acquires (`Lifecycle.FailedBuildIsRepeated`). An acquire constructs exactly when nothing in the scope
  provided the key before (`Lifecycle.BuiltExactlyUntilProvided`).
- `ParentDocumentStrategy.retrieve` says duplicates keep the highest score. Its seed comprehension keeps
  the last duplicate (`Retrieval.LowerDuplicateIsKept`); the claim holds exactly when, for each key, the last
  seed scores as high as any (`Retrieval.HighestScoreKeptIff`).
- `download_source` cleans up only after `_temporary_artifact` returned, and with one `unlink`. A failed
  download leaves a file exactly when the last request was answered 2xx, unencoded and with no declared
  length or an acceptable one, and either closing or `chmod` failed on the new file, or the body did not
  arrive as it should and `unlink` failed (`Download.FileIsLeftIff`; `Download.FileIsLeft` has one download
  of each kind). The `raise` after the loop is reached exactly when `max_redirects` is negative
  (`Download.RedirectsAreSafe`).
- A query promises that its cache cannot make it fail. It does when the settings cannot be written as a
  key (a dictionary inside them has keys of two kinds), when the backend raises something that is no
  `Exception`, or when the result has no JSON form; `RagCache.BackendFailureIsInvisibleIff` says exactly
  when it does not. A hit has lost the structured answer (`RagCache.HitLosesStructure`).
- Different settings share a namespace when they are written alike: a number key and the text it prints
  as, a foreign object and its `str` (`Python.ForeignValuesMerge`). JSON settings never do
  (`Python.JsonIsTold`).
- The forwarding header is meant to identify a client behind trusted proxies. What the client itself
  writes in front can still move it: an item that is no address sends it to the peer's bucket, and in
  front of proxies alone an address of its choice is believed (`RateLimit.PrefixCanChangeKey`);
  `RateLimit.PrefixKeepsKeyIff` says exactly when it cannot.
- A chunk or document name is ambiguous when a parent or source contains a NUL in the wrong place;
  `Identity.ChunkNamesAreUniqueIff` and `Identity.DocumentNamesAreUniqueIff` give the exact condition.
- Identifiers are stripped when a record is made and not before, so documents "x" and "x " are distinct
  until they overwrite each other in the store: two are reported and one is kept
  (`Schedules.SpacedIdsMerge`). In a new collection the number reported is the number of records exactly
  when identifiers differ once stripped (`Outcome.CountIsExactIff`); names the adapter gives always do.
- Batches after the first may overtake each other. Which of two such documents is kept can depend on
  the schedule (`Schedules.SpacedIdsRace`); `Schedules.ConfluentIff` says exactly when it cannot.
- The verify node judges the `str` of an answer's content while the caller gets its plain text, which
  differs for an answer in blocks (`ToolAgent.BlocksPrintOtherwise`); `ToolAgent.ReturnedIsVerifiedIff`
  says exactly when the text returned is the text verified.

## Model

| member | source | states |
|---|---|---|
| KVCache.InMemoryKVCache.Lookup | src/docpipe/rag/cache_backends.py:75-90 | A get answers an unexpired entry and makes it most recent, deletes an expired one, and otherwise changes nothing |
| KVCache.InMemoryKVCache.Store | src/docpipe/rag/cache_backends.py:92-104 | A set with a valid lifetime makes the key most recent and evicts the oldest beyond capacity; an invalid lifetime changes nothing |
| KVCache.InMemoryKVCache.Clear | src/docpipe/rag/cache_backends.py:106-109 | Close forgets every entry |
| KVCache.AfterKeepsBound | src/docpipe/rag/cache_backends.py:92-104 | After any script the keys are distinct and no more than the capacity |
| KVCache.HitIsLatestStore | src/docpipe/rag/cache_backends.py:81-104 | A hit returns exactly the value last set for the key since the last close, still unexpired |
| KVCache.RecentKeyHits | src/docpipe/rag/cache_backends.py:75-109 | An unexpired key must hit if fewer than `max_entries` distinct other keys were set or hit since its own last use |
| KVCache.Inclusion | src/docpipe/rag/cache_backends.py:75-109 | Under one script a smaller cache's entries stay a subsequence of a larger one's, the sizes differing by at most the capacity difference |
| KVCache.LargerCacheAnswersEveryHit | src/docpipe/rag/cache_backends.py:75-109 | A larger cache answers every hit of a smaller one with the same value |
| Eviction.GetLeavesOnlyHits | src/docpipe/rag/cache_backends.py:81-90 | Right after a get, after any script, the key is in the cache exactly if that get hit: an expired entry gives up its slot |
| Eviction.HitsExactlyWhenRoomWasLeft | src/docpipe/rag/cache_backends.py:75-109 | The exact guarantee: a stored key hits if and only if it has not expired and at every moment since its last use fewer than `max_entries` other keys had been set or hit since then without a later get missing them |
| RateLimit.Limiter.CheckLimit | src/docpipe/server/rate_limit.py:105-137 | The loops over expired buckets and old hits leave the table that the specification function says, with its decision |
| RateLimit.LimiterIsExact | src/docpipe/server/rate_limit.py:112-137 | After any serialized script the pruned queues decide as the full history does; tracked keys are the active keys, none is dropped, and capacity refusal happens exactly for a new key beside 8192 active ones |
| RateLimit.SameDecision | src/docpipe/server/rate_limit.py:123-137 | One call: a table that tracks a history decides like the history |
| RateLimit.WindowSafety | src/docpipe/server/rate_limit.py:112-137 | With a fixed limit per key, no closed interval of 60 seconds, wherever it lies, has more admitted hits of a key than its limit |
| RateLimit.AdmissionIsSafe | src/docpipe/server/rate_limit.py:132-137 | An admitted hit cannot overfill any window that contains it |
| RateLimit.ClientKey | src/docpipe/server/rate_limit.py:43-102 | The index-decrementing walk computes the specified key, with every fallback to the direct peer |
| RateLimit.NearestUntrustedIs | src/docpipe/server/rate_limit.py:95-101 | The chosen hop is untrusted and all hops nearer to the server are trusted; none is chosen exactly when all are trusted |
| RateLimit.PrefixKeepsKeyIff | src/docpipe/server/rate_limit.py:80-102 | What a client writes in front of the items its proxies append leaves its key alone exactly when nothing forwarded counts or is readable, or the chosen appended hop stands because the prefix is readable or prints as the peer, or, behind proxies alone, the prefix names nobody new |
| RateLimit.PrefixCanChangeKey | src/docpipe/server/rate_limit.py:86-102 | Two concrete headers on which a prefix changes the key: an unreadable item, and an address in front of proxies alone |
| RateLimit.SplitOfJoin | src/docpipe/server/rate_limit.py:87 | Appending to the header with a comma appends to its items |
| ClientLaws.DirectPeersAreThemselves | src/docpipe/server/rate_limit.py:55-81 | A peer without a host is unknown, and one that is no address or no configured proxy is its own client whatever it forwards |
| ClientLaws.ForwardedKeyIsExact | src/docpipe/server/rate_limit.py:83-102 | Behind a configured proxy the key is the text of the one header item that is no proxy and has only proxies after it, if the whole header is readable and has one, and the peer otherwise |
| ClientLaws.SplittingIsExact | src/docpipe/server/rate_limit.py:87 | The items hold no comma and joining them gives the header back |
| VectorStore.MemoryVectorPlugin.EnsureCollection | examples/plugin-package/src/example_docpipe_plugin/__init__.py:44-51 | Both dictionaries after the call, and each refusal |
| VectorStore.MemoryVectorPlugin.DeleteCollection | examples/plugin-package/src/example_docpipe_plugin/__init__.py:53-56 | Both dictionaries lose the name |
| VectorStore.MemoryVectorPlugin.UpsertBatch | examples/plugin-package/src/example_docpipe_plugin/__init__.py:58-66 | Records are put in order up to the first of the wrong width, which is reported |
| VectorStore.MemoryVectorPlugin.Search | examples/plugin-package/src/example_docpipe_plugin/__init__.py:68-93 | The answer is the `limit`-prefix of a ranking of exactly the stored records by descending score and then identifier; each match has identifier, text, metadata and source of the record under its identifier, and every listed record beats every unlisted one; errors exactly for filters, missing vectors and differing widths |
| VectorStore.MemoryVectorPlugin.AggregateSources | examples/plugin-package/src/example_docpipe_plugin/__init__.py:95-102 | Sorted non-empty sources, each with exactly the number of its records |
| VectorStore.MemoryVectorPlugin.DeleteBySource | examples/plugin-package/src/example_docpipe_plugin/__init__.py:104-110 | Removes the source's records and returns how many there were |
| VectorStore.AlwaysWellFormed | examples/plugin-package/src/example_docpipe_plugin/__init__.py:44-110 | Over all command sequences, width errors in mid-batch included, collections and dimensions have equal key sets and each record sits under its own identifier with the right width |
| VectorStore.RankingIsUnique | examples/plugin-package/src/example_docpipe_plugin/__init__.py:83 | A set of matches has only one ranking |
| VectorStore.SmallerLimitIsPrefix | examples/plugin-package/src/example_docpipe_plugin/__init__.py:83-93 | The answer for a smaller limit is a prefix of the answer for a larger one |
| VectorStore.DeletionIsExact | examples/plugin-package/src/example_docpipe_plugin/__init__.py:95-110 | Deleting a source removes as many records as were counted, leaves none of it, and leaves every other count and record alone |
| StoreLaws.DotIsDetermined | examples/plugin-package/src/example_docpipe_plugin/__init__.py:75-78 | Whatever is additive, homogeneous and reads coordinate `k` of a record's vector from the unit vector `k` is the score |
| StoreLaws.DotIsLinear | examples/plugin-package/src/example_docpipe_plugin/__init__.py:75-78 | The score is all that |
| StoreLaws.DotIsSymmetric | examples/plugin-package/src/example_docpipe_plugin/__init__.py:75-78 | Record and query may change places |
| StoreLaws.EnsuringIsExact | examples/plugin-package/src/example_docpipe_plugin/__init__.py:46-51 | A new name gets an empty collection of the width, an existing one of that width stays, and each refusal leaves the store alone |
| StoreLaws.DroppingIsExact | examples/plugin-package/src/example_docpipe_plugin/__init__.py:53-56 | The name is gone, others stay, and ensuring it again gives an empty collection of any width |
| StoreLaws.UpsertingIsLocal | examples/plugin-package/src/example_docpipe_plugin/__init__.py:58-66 | An upsert reaches one collection, leaves all widths and counts the whole batch exactly when all of it fits |
| StoreLaws.DeletionIsLocal | examples/plugin-package/src/example_docpipe_plugin/__init__.py:104-110 | Deleting a source leaves other collections and all widths |
| StoreLaws.HistoryTellsStore | examples/plugin-package/src/example_docpipe_plugin/__init__.py:44-110 | Over all command sequences, failing ones included, the collections, their widths and the record under each identifier are what the history tells: the first valid width since the last drop, and the record last written, unless its collection or source was removed since |
| StoreLaws.WrittenIsPrefix | examples/plugin-package/src/example_docpipe_plugin/__init__.py:62-65 | What an upsert writes is the longest part of the batch, from its start, that has the width |
| Schedules.ConfluentIff | src/docpipe/ingestion/coordinator.py:178-211 | Every schedule that succeeds leaves the store that ensuring the collection and upserting all chunks in order leaves, exactly when no schedule can succeed, or no two later batches disagree on the last record under one identifier, or a fair semaphore has one permit |
| Outcome.Confluence | src/docpipe/ingestion/coordinator.py:178-211 | Under that condition a success leaves the in-order store of the records actually encoded and reports exactly the number of chunks |
| Linearization.RunIsLinear | src/docpipe/ingestion/coordinator.py:183-205 | While nothing has gone wrong, what was written is whole batches one after the other, the first one first; with a fair semaphore of one permit, in order |
| Outcome.DistinctIdsAgree | src/docpipe/ingestion/coordinator.py:223-231 | Identifiers distinct once stripped leave no two batches anything to disagree about |
| Outcome.CountIsExactIff | src/docpipe/plugins/contracts/vectorstore/models.py:52-61 | A success stores one record per stripped identifier; in a new collection there are as many as it reports exactly when the stripped identifiers are distinct |
| Schedules.SpacedIdsMerge | src/docpipe/ingestion/document_builder.py:23-26 | Two chunks named "x" and "x " are counted as two and leave one record |
| Schedules.SpacedIdsRace | src/docpipe/ingestion/coordinator.py:203 | With those two in later batches some schedule leaves another store than writing in order |
| Outcome.RecoveryIsComplete | src/docpipe/ingestion/coordinator.py:203-211 | Whatever a failed, cancelled or unfinished run left behind, with whatever vectors, a later run over at least its names that succeeds leaves the in-order store of its own chunks over the original one |
| Repetition.RepeatChangesNothingIff | src/docpipe/ingestion/coordinator.py:178-257 | After a success, no state of any second run of the same chunks with the same vectors, failing and cancelled ones included, differs from the store, exactly when no two batches disagree on the last record under one identifier |
| Repetition.RepeatChangesNothing | src/docpipe/ingestion/coordinator.py:178-257 | Under that condition a repeat leaves the whole store alone in every state, and one that succeeds reports the same number |
| Repetition.LogIsWhole | src/docpipe/ingestion/coordinator.py:203-211 | Where every batch fits the collection, runs write whole batches only, even those that fail |
| Outcome.EveryStateIsSafe | src/docpipe/ingestion/coordinator.py:183-211 | In every reachable state, failing and cancelled runs included: at most `max_in_flight` batches in flight, the collection ensured with the first batch's width before any write, the first batch complete before any other, all tasks over before the run ends, and every stored record old or intended |
| Provenance.EveryRecordIsAChunk | src/docpipe/ingestion/coordinator.py:217-232 | Every record any run puts is that of one chunk: its stripped identifier and source, its own text and metadata, and the vector at its place among those the encoder gave for its batch's texts |
| Provenance.StoredIsOldOrAChunk | src/docpipe/ingestion/coordinator.py:178-211 | In every reachable state a stored record is an old one or that of a chunk, under its own identifier |
| Provenance.EveryChunkIsStored | src/docpipe/ingestion/coordinator.py:178-257 | After a success with identifiers distinct once stripped each chunk's identifier holds exactly that chunk's record |
| Provenance.BatchIsSlice | src/docpipe/ingestion/coordinator.py:179-182 | Batch `i` is the slice of the chunks from `i` times the size, and there are no others |
| Outcome.FailuresHaveCauses | src/docpipe/ingestion/coordinator.py:203-211 | What a run fails with happened: a cancellation, or the failure of one of its batches; a success has no failed batch |
| Ingestion.RunKeepsInv | src/docpipe/ingestion/coordinator.py:178-257 | The invariant behind these: the store is always the old one with the logged records put in order, and permits plus holders are constant |
| Upserts.PutIsLast | examples/plugin-package/src/example_docpipe_plugin/__init__.py:62-65 | After an upsert each identifier holds the last record put under it, and what it held before if there is none |
| Upserts.PutIgnoresOrder | examples/plugin-package/src/example_docpipe_plugin/__init__.py:62-65 | Without rivals under one identifier only the set of records put matters, not order or repetition |
| Ingestion.BatchesAreFull | src/docpipe/ingestion/coordinator.py:179-182 | The batches concatenate to the chunks, and none is empty or too long |
| Ingestion.NamedIffNotBlank | src/docpipe/plugins/contracts/vectorstore/models.py:52-61 | Stripping leaves a chunk an identifier and a source exactly when neither is blank |
| Progress.RunsAreBounded | src/docpipe/ingestion/coordinator.py:183-211 | No run goes on forever, failing ones included |
| Progress.SuccessIsPossibleIff | src/docpipe/ingestion/coordinator.py:183-231 | Some schedule succeeds exactly when no chunk has a blank identifier or source and each gets a vector, all of one positive width that an existing collection shares |
| Progress.NeverStuck | src/docpipe/ingestion/coordinator.py:190-211 | Every reachable state that has not ended has a next step in which nothing is cancelled and no encoding raises: permits cannot deadlock |
| Progress.RunsCanBeCancelled | src/docpipe/ingestion/coordinator.py:203-211 | A run that has not ended and is not draining may be cancelled in every reachable state, keeping what is stored |
| Progress.EncodersCanRaise | src/docpipe/ingestion/coordinator.py:183-205 | Every encoding in flight may raise; a later batch then gives its permit back |
| Progress.DrainedTasksCanBeCancelled | src/docpipe/ingestion/coordinator.py:206-209 | While draining every unfinished batch may be cancelled where it stands |
| Blocking.ConcurrencyIsBounded | src/docpipe/core/blocking.py:85-128 | In every reachable state at most `max_concurrency` functions run and permits plus holders are `max_concurrency`, though deadlines release permits while threads still run |
| Blocking.NoPermitIsLost | src/docpipe/core/blocking.py:117-121 | Once every call is settled all permits are back |
| Blocking.OutcomesAreFinal | src/docpipe/core/blocking.py:85-128 | A call has at most one outcome, no late result reaches a call that timed out, and nothing queued starts after close |
| Blocking.NothingStartsAfterClose | src/docpipe/core/blocking.py:92-93 | No call made after close ever runs its function |
| Blocking.EveryCallCanSettle | src/docpipe/core/blocking.py:117-128 | From every reachable state, after any abandoned calls and even after close, the runner's own finitely many steps settle every call without giving one up |
| BlockingLaws.OpenRunnersReturn | src/docpipe/core/blocking.py:92-128 | While the runner is open a settled call returned its own function's value, or was given up by its caller or deadline |
| BlockingLaws.ClosedRunnersRefuse | src/docpipe/core/blocking.py:92-93 | A call made after close is refused at once and for good |
| BlockingLaws.CallsCanBeMade | src/docpipe/core/blocking.py:92-101 | In every reachable state of an open runner a call can be made, which waits, or is refused if it comes after its deadline |
| BlockingLaws.ClosingCancelsQueued | src/docpipe/core/blocking.py:123-128 | Over every run, closing cancels exactly the functions that have not started, leaves everything else, and does nothing the second time |
| BlockingLaws.ClosedByClose | src/docpipe/core/blocking.py:123-128 | The runner is open until it is closed |
| ToolAgent.ScreenCalls | src/docpipe/agents/_runtime/tool_agent.py:189-205 | The loop reports a block exactly when some call repeats too often, and otherwise collects exactly the flagged calls with their reasons |
| ToolAgent.FlaggedCallsNeedApproval | src/docpipe/agents/_runtime/tool_agent.py:174-242 | For every model and reviewer, a flagged call is executed only directly after an approval that lists it, itself directly after the request that showed the same list |
| ToolLaws.ReasonsAreTheirs | src/docpipe/agents/_runtime/tool_agent.py:158-170 | A call is flagged exactly when the policy gives a non-empty reason or the tool's rule is `True`, a non-empty text or computes one; the policy's reason comes first, then the rule's |
| ToolLaws.GuardedCallsWait | src/docpipe/agents/_runtime/tool_agent.py:158-242 | Told from policy and rules alone: a batch with such a call is executed only directly after the approval, requested directly before, of exactly such calls of the batch |
| ToolLaws.OthersAreNeverListed | src/docpipe/agents/_runtime/tool_agent.py:158-242 | No other call is ever put before the reviewer |
| ToolAgent.PendingCannotBeReplaced | src/docpipe/agents/_runtime/tool_agent.py:318-332 | Once a request is shown the session stays exactly as it is, whatever is asked, until a decision on that very request, which is next in the history |
| ToolAgent.QueriesAreBounded | src/docpipe/agents/_runtime/tool_agent.py:177-181 | At most `MAX_TOTAL_STEPS + 1` agent visits, `MAX_VERIFY_RETRIES` feedback rounds and 27 node visits per question, so the graph's recursion limit is never met |
| ToolLaws.QuestionsTakeBoundedSteps | src/docpipe/agents/_runtime/tool_agent.py:174-298 | No more than 27 node steps follow each other without a question in any run, of the 40 the graph allows |
| ToolLaws.ResponsesAreScreened | src/docpipe/agents/_runtime/tool_agent.py:174-205 | A response is dropped and the loop stopped exactly after eight responses, without progress in the turn, or if a call repeats in it; else it joins the transcript |
| ToolLaws.TurnBeginsAtQuestion | src/docpipe/agents/_runtime/tool_agent.py:174-176 | The turn judged begins at the latest real question |
| ToolAgent.NodeStepsDescend | src/docpipe/agents/_runtime/tool_agent.py:274-298 | Every node step lowers a lexicographic measure, whatever the model answers |
| ToolAgent.EveryQuestionCanEnd | src/docpipe/agents/_runtime/tool_agent.py:274-298 | From every reachable session the nodes alone lead out of the graph: none is ever stuck |
| ToolAgent.VerifiedAnswersAreGrounded | src/docpipe/agents/_runtime/tool_agent.py:244-270 | Leaving through verify returns an answer that, as printed, passes the verifier against the final transcript's sources, or removes it and reports what was ungrounded; no feedback remains |
| ToolLaws.SourcesAreToolsAndQuestions | src/docpipe/agents/_runtime/tool_agent.py:251-257 | The sources are what the tool results and real questions print as, all of them and in order |
| ToolLaws.OnlyScaffoldingIsDropped | src/docpipe/agents/_runtime/tool_agent.py:246-248 | Leaving drops the feedback of the current turn and nothing else |
| ToolLaws.RetryTakesAnswerBack | src/docpipe/agents/_runtime/tool_agent.py:261-269 | The one retry replaces the failed answer by feedback |
| ToolLaws.EveryCallIsAnswered | src/docpipe/agents/_runtime/tool_agent.py:228-242 | Over every run, running the tools answers each call of the response and a rejection answers each listed call as failed |
| ToolLaws.RejectionsQuoteNotes | src/docpipe/agents/_runtime/tool_agent.py:235-242 | A rejection quotes the reviewer's notes to each listed call, by identifier and name, and closes with an answer without calls |
| ToolAgent.ReturnedIsVerifiedIff | src/docpipe/agents/_runtime/tool_agent.py:258 | The text returned to the caller passes every verifier its content passed exactly when the content prints as that text |
| Lifecycle.ScopeNode.Target | src/docpipe/plugins/lifecycle.py:48-55 | The upward loop finds the nearest scope of the kind |
| Lifecycle.ScopeNode.Acquire | src/docpipe/plugins/lifecycle.py:57-69 | The node's cache and exit stack after the call and everything that happened, in order |
| Lifecycle.ScopeNode.Close | src/docpipe/plugins/lifecycle.py:71-86 | The node's state after closing and the exits, in order; closing twice exits nothing |
| Lifecycle.EnteredOnceExitedInReverse | src/docpipe/plugins/lifecycle.py:57-96 | Over every run a scope enters a key at most once, exits nothing early, and on closing exits exactly what it entered in reverse order |
| Lifecycle.ServedResourceIsUnique | src/docpipe/plugins/lifecycle.py:61-69 | All acquires of a key in a scope's lifetime are served the same object |
| Lifecycle.RebuiltOnlyAfterFailure | src/docpipe/plugins/lifecycle.py:57-69 | Of two constructions of a key in a scope the earlier one failed |
| Lifecycle.BuiltExactlyUntilProvided | src/docpipe/plugins/lifecycle.py:57-69 | Over every run, an acquire from an open scope constructs exactly when nothing in the scope provided the key before, and then every earlier construction failed |
| Lifecycle.FailedBuildIsRepeated | src/docpipe/plugins/lifecycle.py:57-69 | Every run that has not provided a key goes on to construct it twice, the first time in vain |
| Replies.AnswersAreExact | src/docpipe/plugins/lifecycle.py:48-69 | Over every run an acquire answers: no such scope exactly without an owner, closed exactly when the owner is, the attempt's failure exactly when the key was never provided and the attempt raises, and otherwise the object just served, which is the one provided before or else the one made |
| Replies.AcquireIsToldByJournal | src/docpipe/plugins/lifecycle.py:57-69 | What an acquire makes happen, told from the journal before it |
| Replies.AcquiresAgree | src/docpipe/plugins/lifecycle.py:61-69 | Any two acquires of a key in a scope's lifetime that answer an object answer the same one, whatever their factories make |
| Replies.ScopesNestByKind | src/docpipe/plugins/lifecycle.py:116-124 | Over every run requests are under the process scope and operations under requests |
| Replies.ScopesCanOpen | src/docpipe/plugins/lifecycle.py:116-141 | In every run an open process scope opens requests and an open request opens operations, fresh and empty |
| Replies.EveryScopeCanClose | src/docpipe/plugins/lifecycle.py:71-86 | From every reachable state structured closing can go on until every scope is closed |
| Replies.ClosedByClose | src/docpipe/plugins/lifecycle.py:71-86 | A scope is closed only by its own close |
| Lifecycle.AncestorsOutlive | src/docpipe/plugins/lifecycle.py:116-150 | Under structured nesting nothing happens in a scope after an ancestor has exited a resource |
| Lifecycle.OwnerIsNearest | src/docpipe/plugins/lifecycle.py:48-55 | The owner is of the requested kind, at or above the handle, and no such scope is nearer |
| Retrieval.MultiQuery | src/docpipe/rag/retrieval/multi_query.py:34-42 | The nested loops and sort produce the fusion: one best chunk per source and content, by descending score, ties in first-seen order |
| Retrieval.FusionIsUnique | src/docpipe/rag/retrieval/multi_query.py:34-42 | That description determines the output |
| Retrieval.FusionIsCorrect | src/docpipe/rag/retrieval/multi_query.py:36-41 | Merging the results one at a time and stably sorting meets that description |
| Retrieval.FusionKeepsPassages | src/docpipe/rag/retrieval/multi_query.py:34-42 | Told by source and content alone: every passage found is there once, as the first of its best chunks, ties in the order in which passages were first found |
| Retrieval.ParentDocument | src/docpipe/rag/retrieval/parent_document.py:26-42 | The fusion of the seed dictionary and one expansion per distinct source; of all seeds and expansions when seed keys are distinct |
| Retrieval.HighestScoreKeptIff | src/docpipe/rag/retrieval/parent_document.py:21-40 | The documented highest-score rule holds for all expansions exactly when the last seed of every key is one of its highest |
| Retrieval.SeedDictKeepsOrder | src/docpipe/rag/retrieval/parent_document.py:27-29 | The seeds kept are in the order in which their keys first appear, which decides ties |
| Retrieval.ExpansionsAreInOrder | src/docpipe/rag/retrieval/parent_document.py:30-36 | Expansions are merged source by source |
| Retrieval.LowerDuplicateIsKept | src/docpipe/rag/retrieval/parent_document.py:26-31 | Two seeds of one key of which the lower is kept |
| Retrieval.CapBySource | src/docpipe/rag/coordinator.py:133-144 | The counting loop keeps what the specification keeps; zero means no cap |
| Retrieval.CapKeepsFirst | src/docpipe/rag/coordinator.py:138-143 | Each source keeps exactly its first chunks up to the cap, in order |
| Retrieval.CapKeepsOrder | src/docpipe/rag/coordinator.py:138-144 | The kept chunks are a subsequence of the input |
| Retrieval.CapLength | src/docpipe/rag/coordinator.py:133-144 | Their number is the sum over sources of the smaller of count and cap |
| Retrieval.Prepare | src/docpipe/rag/coordinator.py:75-97 | Rerank, cap, truncate; with a positive cap the length is exactly the smaller of `top_k` and that sum |
| Retrieval.DedupKeepsFirstOrder | src/docpipe/rag/coordinator.py:119 | Reported sources appear once each, at the position of their first chunk |
| Download.FileSystem.WriteBody | src/docpipe/sources/http_download.py:67-88 | The writing loop leaves the whole body or, if removing works, no file, with its size and digest input, and each refusal in the code's order; else what was written stays |
| Download.FileSystem.DownloadSource | src/docpipe/sources/http_download.py:37-89 | The redirect loop's outcome, requests and file system for every site and whichever of close, `chmod` and `unlink` fail |
| Download.FileIsLeftIff | src/docpipe/sources/http_download.py:60-88 | A failure leaves a file exactly when the last request was answered and the file could not be made private, or not be removed after its body did not arrive; the requests do not depend on it |
| Download.FileIsLeft | src/docpipe/sources/http_download.py:64-88 | Two concrete downloads that leave a file: an empty one without `chmod`, a part of the body without `unlink` |
| Download.RedirectsAreSafe | src/docpipe/sources/http_download.py:37-59 | At most `max_redirects + 1` requests, all to distinct approved URLs, each where the response pointed, never from https to another scheme; the loop is exhausted exactly for a negative limit |
| Download.SuccessIsDelivery | src/docpipe/sources/http_download.py:60-85 | Success means exactly that the file could be made private and the last request was answered in full with an unencoded 2xx body within the limit and of any declared length |
| DownloadLaws.EndsAreExplained | src/docpipe/sources/http_download.py:37-89 | Every end has its reason; in particular a redirect with a location, within the limit, to an approved and fresh URL that is no downgrade never ends a download but is requested next |
| Text.Utf8Unique | src/docpipe/ingestion/legacy.py:273 | Encoding texts as UTF-8 loses nothing |
| Text.Utf8CharIsStandard | src/docpipe/ingestion/legacy.py:273 | Lead and continuation bytes are those of RFC 3629, section 3, and spell the character |
| Text.NumberOfDecimal | src/docpipe/ingestion/legacy.py:272 | Printing a number and reading it gives it back |
| Text.DecimalOfNumber | src/docpipe/plugins/api_version.py:6 | Reading a numeral without leading zeros and printing it gives it back |
| Json.TextIsCanonical | src/docpipe/ingestion/incremental.py:127 | What is written is equal exactly when the compact texts are, with or without ASCII escaping |
| Python.JsonIsTold | src/docpipe/ingestion/incremental.py:124-137 | JSON values are equal exactly when they are written alike, whatever order their dictionaries are in |
| Python.NamedAreTold | src/docpipe/rag/cache.py:71 | Dictionaries with text keys are written alike exactly when their keys agree and each field is written alike |
| Json.EscapePrefixFree | src/docpipe/rag/cache.py:71 | No character's escape begins another's, surrogate pairs included |
| Json.NoControlCharacters | src/docpipe/ingestion/incremental.py:127 | No control character appears in any text |
| WrittenForm.TextsAreJson | src/docpipe/rag/cache.py:71 | The compact text of each value: literals, quoted strings, and parts joined with commas |
| WrittenForm.EscapesAreStandard | src/docpipe/ingestion/incremental.py:127 | Escapes are those of RFC 8259, section 7: letters where there are any, code units in hexadecimal, surrogate pairs beyond the basic plane |
| WrittenForm.DictionariesAreSorted | src/docpipe/rag/cache.py:71 | A dictionary with text keys is written with each field once, in the order of keys |
| WrittenForm.ScalarsAreWritten | src/docpipe/ingestion/incremental.py:124-137 | What is written for each kind of value, and which values are metadata |
| Text.LessIsLexicographic | src/docpipe/rag/cache.py:71 | The order of keys is that of their first difference |
| Identity.DigestFields | src/docpipe/ingestion/document_builder.py:121-124 | Feeding fields and NULs in turn names the framed text |
| Identity.ChunkNamesAreUniqueIff | src/docpipe/ingestion/legacy.py:270-275 | Chunk names determine parent, ordinal and text, for two parents, exactly when neither continues the other with a NUL and a numeral; NUL-free parents never do |
| Identity.DocumentNamesAreUniqueIff | src/docpipe/ingestion/document_builder.py:113-130 | The same for source, kind, ordinal and text |
| Identity.DocumentsAreDistinct | src/docpipe/ingestion/document_builder.py:47-110 | One parse's documents have distinct names exactly when no two non-blank pages share number and text |
| DocumentLaws.DocumentsAreTold | src/docpipe/ingestion/document_builder.py:47-130 | In every mode: one document for each page with text in order, or one for the text if no page has any, then one for each extraction, each with its name, text, source and metadata |
| DocumentLaws.RefusalsAreExact | src/docpipe/ingestion/document_builder.py:23-30 | A parse is refused exactly when something is ingested under a blank source, or else when an extraction's attributes are not JSON |
| Chunking.Split | src/docpipe/ingestion/legacy.py:97-120 | Every chunk named in order, with its own text, its source and its metadata without the identities, or the first that cannot be is reported: identities that are no text, a blank source, metadata that is not JSON |
| Chunking.RefusalsAreExact | src/docpipe/ingestion/legacy.py:105-119 | Which of the three refusals a chunk meets |
| Chunking.ChunksAreDistinct | src/docpipe/ingestion/legacy.py:104-120 | Chunks of one split have distinct names even if parents and texts repeat |
| Chunking.IdentityKeepsParentsApart | src/docpipe/ingestion/legacy.py:102-109 | A chunker that passes identities on, or drops them, cannot make parents ambiguous |
| Chunking.AdapterRunsAreConfluent | src/docpipe/ingestion/coordinator.py:145-162 | End to end: with chunks from the adapter every successful interleaving stores what writing in order would, and in a new collection one record for each chunk |
| Fingerprint.ParsedFingerprint | src/docpipe/ingestion/incremental.py:105-121 | Reading a file block by block digests the same bytes as digesting it whole |
| Fingerprint.FingerprintsAreExact | src/docpipe/ingestion/incremental.py:95-102 | There is a fingerprint exactly when the metadata is JSON, and fingerprints are equal exactly when content bytes and metadata are, though content may contain NULs |
| Fingerprint.ParsesAreTold | src/docpipe/ingestion/incremental.py:105-121 | Parses are told apart exactly by bytes, format and metadata, whichever way the bytes were obtained |
| Fingerprint.SkipMeansSameInput | src/docpipe/ingestion/incremental.py:64-92 | An ingestion is skipped exactly when the lookup worked and an equal input was stored; a failed lookup never skips, and is an error exactly in the mode that fails closed |
| RagCache.NamespaceExistsIff | src/docpipe/rag/cache.py:39-72 | A namespace can be derived exactly when every behaviour field and the redacted store options can be written |
| RagCache.NamespacesAreExact | src/docpipe/rag/cache.py:39-72 | Namespaces are equal exactly when behaviour fields and redacted store options are written alike and tenant, output model and credentials agree |
| RagCache.KeysAreExact | src/docpipe/rag/cache.py:75-79 | Cache keys are equal exactly when question and namespace are, a namespace being hexadecimal |
| CacheLaws.KeysTellQueries | src/docpipe/rag/cache.py:11-79 | Two queries share a key exactly when question, tenant, the 24 settings by their names, store, index directory, output model and credentials agree, each as it is written |
| CacheLaws.UnnamedAreTold | src/docpipe/rag/cache.py:46-70 | What stands in the namespace under each further name |
| CacheLaws.StoresAreTold | src/docpipe/rag/cache.py:50-59 | Stores are told apart exactly by provider, option names and what enters for each option |
| CacheLaws.SecretsAreDigested | src/docpipe/rag/cache.py:101-107 | An option whose key holds one of the six words enters as a digest or, empty, as nothing |
| CacheLaws.TargetsAreDigested | src/docpipe/rag/cache.py:108-116 | A connection text enters as the digests of its target and of its whole text |
| CacheLaws.InsidesAreRedacted | src/docpipe/rag/cache.py:117-124 | Items and fields are redacted as options of their own, leaves are kept |
| RagCache.SecretsAreTold | src/docpipe/rag/cache.py:82-85 | Credentials are told apart, except that an empty one is none |
| RagCache.PlainOptionsAreKept | src/docpipe/rag/cache.py:117-124 | A store option with text keys and without secrets or targets at any depth enters the namespace unchanged |
| RagCache.RedactedOptionsAreTold | src/docpipe/rag/cache.py:101-116 | Redacted options still differ whenever a secret prints differently or a target's whole text differs |
| RagCache.ContainsIsOccurrence | src/docpipe/rag/cache.py:103-106 | The substring test behind secret names is occurrence |
| RagCache.RAGPipeline.QueryWithRuntime | src/docpipe/rag/pipeline.py:111-176 | Result, offered payload and recorded usage for every combination of settings, backend replies and coordinator outcome, key derivation included |
| CacheLaws.ReadablePayloadIsServed | src/docpipe/rag/pipeline.py:111-127 | With caching on and a key, a readable payload within the size limit is the answer, apart from timing and usage, and nothing is offered |
| CacheLaws.OthersAreProduced | src/docpipe/rag/pipeline.py:128-176 | In every other case the coordinator's result is the answer, offered exactly if caching is on and its JSON form is within the limit, and the failures are exactly those named |
| CacheLaws.FailingLookups | src/docpipe/rag/pipeline.py:145-160 | Without a key, or when reading is interrupted, the query fails and offers nothing |
| CacheLaws.OfferedAnswersNext | src/docpipe/rag/pipeline.py:150-171 | What one query offered, read by another, answers it with the same body and no structured answer |
| RagCache.AnswersAreProduced | src/docpipe/rag/pipeline.py:111-176 | Whatever pipelines share a backend and however it misbehaves, every returned answer was produced by a coordinator for the same question in the same scope, tenant included; on a hit its loose metadata has been reread from JSON |
| RagCache.BackendFailureIsInvisibleIff | src/docpipe/rag/pipeline.py:111-176 | Without a hit the query gives what it gives with caching off exactly when the settings can be written, the backend fails only with exceptions, and a produced result has a JSON form |
| RagCache.MixedSettingFails | src/docpipe/rag/pipeline.py:149 | A behaviour field holding a dictionary of text and number keys makes the query fail before the coordinator is asked |
| RagCache.InMemoryBackendIsHonest | src/docpipe/rag/cache_backends.py:75-109 | The in-memory cache meets what that theorem asks of a backend, at any capacity and under any overlap of calls |
| ApiVersion.ParseMatches | src/docpipe/plugins/api_version.py:23-29 | A text is accepted exactly when the regular expression matches, and stands for its numbers |
| ApiVersion.ParseRendered | src/docpipe/plugins/api_version.py:23-33 | Printing then parsing gives the version back |
| ApiVersion.RenderParsed | src/docpipe/plugins/api_version.py:23-33 | Parsing then printing gives the text back |
| ApiVersion.OrderIsPrecedence | src/docpipe/plugins/api_version.py:9-15 | Comparing the fields as a tuple is the precedence of section 11 of Semantic Versioning 2.0.0 |
| ApiVersion.OrderIsTotal | src/docpipe/plugins/api_version.py:9-15 | The order is total |
| ApiVersion.BoundsAreRead | src/docpipe/plugins/manifest.py:48-49 | Declared bounds are the versions they print as; without an upper bound, missing or empty, it is the lower one |
| ApiVersion.DefaultsAndErrors | src/docpipe/plugins/manifest.py:48-49 | Without a lower bound it is 1.0.0, and an unreadable bound is no range |
| ApiVersion.RangesFollowPrecedence | src/docpipe/plugins/descriptors.py:77-91 | A range is accepted exactly when not inverted, supports exactly what precedes neither bound the wrong way, and from one version to itself supports that version only |

## Left out

- Parsers, extractors, chunkers, rerankers, embeddings, language models and speech: arbitrary functions or results.
- FastAPI routers, the CLI, HTTP clients, MCP, templates, logging, tracing, metrics and the control database.
- Redis, pgvector, TurboVec and S3 backends; a cache backend is only asked to return what was offered to it under the same key.
- The semantic list cache and its cosine similarity, whose rounding is the point.
- Floating-point rounding of scores, vectors and times; Python's limit on the number of digits it converts.
- The early exits of an ingestion without documents or chunks, contextualizing, and result summaries.
- Writers with partial accounting: the reference store accepts a batch or raises. A store call is one step because that store never suspends in one.
- Further cancellations while cancelled tasks are being drained.
- An incremental skip of a document whose earlier ingestion failed halfway.
- Failures of `mkstemp`, of opening and of writing a download's file.
- The order of the limiter's bucket dictionary, which nothing observes.
- Address parsing, URL joining and URL policy: arbitrary functions. Media type, display name and version token of a download.
- The loop guard's two tests are arbitrary functions of the turn. Resuming a run whose node crashed, and tool-call records for display.
- A transcript in which a rejected batch also holds unflagged calls keeps those calls unanswered, as in the code.
- An acquire that races with the close of its own scope, and factories that acquire from the same scope; a raising exit.
- The worker's dequeue and the cancellation of a queued function are atomic steps.
- Variant selection of multi-query, prompts, and the generated answer.
- Credentials do not appear in a real digest; an ideal one that determines its input cannot say so.
- Blocking.ConcurrencyIsBounded: modelled on values, not as an object, because its steps belong to an event loop and several threads.
- VectorStore.MemoryVectorPlugin.Search: requires a store that ran only its own operations, which `VectorStore.AlwaysWellFormed` shows is every store.
- KVCache.RecentKeyHits: needs clock readings that do not decrease, as a monotonic clock gives.
- RateLimit.WindowSafety: needs serialized calls, because the clock is read before the lock is taken.
- RagCache.AnswersAreProduced: assumes that a result read back from its JSON form is the one written, apart from the structured answer and an arbitrary rereading of metadata (a tuple comes back as a list).
- Store options whose keys share one `str`: which wins depends on insertion order, which the model settles by the order of keys. Circular settings and non-finite dictionary keys.
