# Verified models of the agent runtime's protocol and data cores

A Dafny model of the parts of the repository whose correctness is hardest to
see by reading them: the stdio JSON-RPC app-server with its streaming turns,
the server-sent-event readers, the shared bridge slot, the glob matcher, the
layered model catalog with its cache and URL fingerprint, the model registry
with provider inference, the HTML stripper and the metrics rollup.

`dafny verify dfyconfig.toml` checks everything.

| file | what it models |
|---|---|
| `StdioProtocol.dfy` | the stdio loop as a step system: requests, state, steps; the environment picks the interleaving and the runtime's answers |
| `StdioSafety.dfy` | the invariant every step keeps, and with it every run |
| `StdioTheorems.dfy` | what follows for logs, interrupts and progress |
| `StdioWire.dfy` | the same promises by method names and error codes, without the model's own classification |
| `StdioServer.dfy` | the same loop as a class with nested loops, proved to be a run of the step system |
| `RuntimeBridge.dfy`, `TurnStream.dfy` | one turn: its event stream, its deltas, the per-thread sequence numbers |
| `TurnRefinement.dfy` | a bridge's turn as a run of the step system |
| `SseFraming.dfy`, `SseFrame.dfy` | cutting bytes into frames, reading a frame |
| `BridgeSlot.dfy` | the cached bridge under any number of concurrent callers |
| `SdkEventStream.dfy` | the JavaScript SDK's event reader |
| `Glob.dfy` | the single-star-backtracking matcher against the glob relation |
| `CatalogCompiler.dfy`, `CatalogCache.dfy`, `BaseUrl.dfy` | layer compilation, the cache state machine, base-URL normalisation and fingerprint input |
| `ModelRegistry.dfy` | the alias index, the resolver, provider inference |
| `HtmlStripper.dfy` | reducing a page to prompt text |
| `Metrics.dfy` | the usage rollup |
| `Framing.dfy`, `Text.dfy`, `Wrappers.dfy` | searching for delimiters, trimming and case folding, `Option` |

## What the code does differently from what is written about it

Each promise below fails for some input. The members named say when it holds,
in both directions, and for which inputs it fails.

- **Glob.** The literal test comes before the `*` test, so pattern `*` rejects
  `*a`. Every value that holds a `*` is misread by some pattern, and no other
  value by any (`Glob.StarInValueIsMisread`, `Glob.ExactIffNoStar`).
- **Frame cutting.** `\r\n\r\n` anywhere in the buffer beats an earlier `\n\n`,
  so the frames of a stream that mixes the two depend on how it was chunked.
  They do not exactly when no `\r\n\r\n` frame holds a `\n\n`
  (`SseFraming.ChunkIndependentIffNeverMixed`).
- **Frame size.** The 16 MiB check runs before frames are taken out, so a large
  first chunk trips it whatever it holds (`TurnStream.LargeChunkTripsTheLimit`),
  even one made of complete frames only (`TurnStream.FullFramesTripTheLimit`).
  The error is raised exactly when some chunk overfills the buffer and no stop
  came before it (`TurnStream.FrameTooLongIff`). Its message, that there is no
  frame delimiter, is true exactly when that chunk completed no frame
  (`TurnStream.LimitMessageIsTrueIff`).
- **Fresh bridges.** The comment on invalidation promises a fresh child. Every
  spawn that an invalidation or a shutdown overtakes can be cached all the same
  (`BridgeSlot.OvertakenSpawnIsCachedStale`); after such a step every cached
  bridge is fresh, up to the next one, exactly when nobody was spawning
  (`BridgeSlot.FreshAfterClearingIff`).
- **Userinfo.** The fingerprint's documentation says that userinfo never
  enters. Of an address without any `://` it does, its letters lower-cased
  (`BaseUrl.UnmarkedUserinfoIsKept`): two userinfos then give one input exactly
  when they agree up to letter case and leading white space. What userinfo says
  never matters exactly when the address holds a `://`: in front of it, where it
  is dropped, or behind it, where the whole input is redacted
  (`BaseUrl.UserinfoNeverMattersIff`).
- **Base URLs.** Normalising is not idempotent for every URL
  (`BaseUrl.IdempotentIff`): a doubled default port, an authority that is
  nothing but a default port, and white space behind which only slashes follow
  are changed once more (`BaseUrl.DoubledPortIsUnsettled`,
  `BaseUrl.BarePortIsUnsettled`, `BaseUrl.SpaceBehindSlashIsUnsettled`).
- **Runtime logs.** They count the start of a call and its outcome apart, so
  with them a tool's calls need not equal its approvals, prompts and outcomes
  (`Metrics.ToolBalancesIff`, `Metrics.RuntimeLogUnbalances`).
- **Server-sent events** (section 9.2 of the WHATWG HTML Standard). All leading
  white space of a data line goes, not one space; `SseFrame.RoundTripIff` says
  which frames survive.

Where the code departs from JSON-RPC 2.0 the model follows the code: a request
without an id (section 4.1, a notification) is answered, with `id: null`.

## Model

| member | source | states |
|---|---|---|
| StdioSafety.StepKeeps | crates/app-server/src/lib.rs:308-482 | every step keeps the loop's invariant: arrived lines are answered, current, then pending, in that order; only a shutdown's answer is final; the registry is the streaming turn; starts belong to turn requests |
| StdioSafety.ReachableInvariant | crates/app-server/src/lib.rs:308-482 | hence the invariant holds after every run, whatever the interleaving |
| StdioTheorems.RepliesAnswerAPrefix | crates/app-server/src/lib.rs:319-390 | at any time the responses written answer a prefix of the non-blank lines, one each, in arrival order, with their ids and outcomes of their kind |
| StdioTheorems.FinishedRunAnswersAll | crates/app-server/src/lib.rs:322-392 | a run that ends has answered every line up to and with the first shutdown, or every line at end of input |
| StdioTheorems.ScheduleDoesNotReorder | crates/app-server/src/lib.rs:349-379 | any two finished runs of one input write their responses under the same ids in the same order |
| StdioTheorems.StartsAreBracketed | crates/app-server/src/lib.rs:1126-1222 | in every well-formed log a response start is followed by its own deltas only, then its end, then a JSON-RPC response |
| StdioTheorems.EventsFollowTheirStart | crates/app-server/src/lib.rs:1126-1222 | every delta and every end lies behind the start with its id, with nothing but deltas in between |
| StdioTheorems.TurnsAreBracketed | crates/app-server/src/lib.rs:348-388 | in every run each response start has its end, and the next line is the response to the turn request it was opened for; a finished run leaves none open |
| StdioTheorems.RegistryHoldsTheStreamingTurn | crates/app-server/src/lib.rs:1158-1180 | the in-flight registry holds at most one turn, exactly while that turn streams |
| StdioTheorems.InterruptReachesTheStreamingTurn | crates/app-server/src/lib.rs:442-471 | an interrupt read during a turn answers true exactly when its thread's turn streams at that step and the runtime took it, and it names that turn |
| StdioTheorems.ShutdownReachesTheStreamingTurn | crates/app-server/src/lib.rs:473-478 | a shutdown read during a turn sends that turn an interrupt at once if it streams, and none otherwise, and waits last in the queue; phase, log and registry stay |
| StdioTheorems.OnlyMessagesRead | crates/app-server/src/lib.rs:349-379 | input is read during a turn exactly if a `thread/message` began it |
| StdioTheorems.QueuedInterruptFindsNothing | crates/app-server/src/lib.rs:944-952 | an interrupt dispatched from the queue always answers false and sends nothing |
| StdioTheorems.InterruptsAreNeverStray | crates/app-server/src/lib.rs:944-968 | every interrupt ever sent named the turn whose response was open then, and every `interrupted: true` written had its interrupt sent |
| StdioTheorems.NeverStuck | crates/app-server/src/lib.rs:322-392 | until it is done the loop always has a step to take |
| StdioTheorems.RunsAreShort | crates/app-server/src/lib.rs:322-392 | apart from streamed deltas a run takes at most 12 steps a line and 2 more |
| StdioWire.MethodsByName | crates/app-server/src/lib.rs:1425-1757 | which method names mean a turn, an interrupt, a shutdown, a constant answer, a served request, and that all others are unknown |
| StdioWire.RunsRespondInOrder | crates/app-server/src/lib.rs:308-440 | in every run the responses written answer the first non-blank lines, one each, in order: parse error for what is no request, invalid request for another version, and otherwise what the named method may answer, under the line's own id or `null` |
| StdioWire.FinishedRunsRespondToAll | crates/app-server/src/lib.rs:322-392 | a run that ends at end of input has answered every non-blank line, none a call of `shutdown`; any other ends with the first such call |
| StdioWire.StartsBelongToMessages | crates/app-server/src/lib.rs:348-388 | a response that opens belongs to a line that calls `thread/message`, or `thread/request` with kind `message` |
| StdioWire.ResponseIdsTellTurnsApart | crates/app-server/src/lib.rs:1126-1157 | response ids are equal exactly for the same thread and turn, as long as thread ids hold no colon |
| StdioServer.StdioServer.RunStdioLoop | crates/app-server/src/lib.rs:308-393 | the nested loops, for any interleaving and any finite stream, end in a reachable final state that has answered exactly the expected ids in order |
| StdioServer.StdioServer.HandleLineDuringTurn | crates/app-server/src/lib.rs:442-482 | the triage of a line read during a turn is the step system's |
| StdioServer.StdioServer.InterruptStdioTurn | crates/app-server/src/lib.rs:944-968 | sends an interrupt exactly for a registered thread; true, false or an error as the runtime answers |
| StdioServer.StdioServer.InterruptLiveTurns | crates/app-server/src/lib.rs:473-478 | the loop over the registry interrupts every turn in it |
| StdioServer.StdioServer.PollTurn | crates/app-server/src/lib.rs:1126-1222 | a dispatched turn takes one enabled step of its own, ends exactly if that step answers it, and uses up a delta or work |
| StdioServer.StdioServer.AwaitTurn | crates/app-server/src/lib.rs:358-371 | the race between a turn and the input is a run of the turn's steps and of reading steps from the state it began in, and its last step answers the turn |
| StdioServer.StdioServer.DispatchRequest | crates/app-server/src/lib.rs:1425-1757 | any other request takes exactly the one step that answers it, with an outcome it may have; a shutdown interrupts every live turn in it |
| StdioServer.StdioServer.TakeUpWork | crates/app-server/src/lib.rs:322-346 | an idle loop takes the step of its queued work if it has any, else of the next line, and stops only when the queue is empty and the input at its end |
| TurnStream.StreamTurnEvents | crates/app-server/src/lib.rs:1224-1299 | the nested loops over chunks and frames emit the deltas and return the result of reading the chunks |
| TurnStream.HandleEvent | crates/app-server/src/lib.rs:1255-1293 | one event's handling: emits exactly the event's own delta if it has one, ends the turn exactly at a stop, with the status and error its payload says, and otherwise raises the sequence number to the event's |
| TurnStream.TerminalStatusMeaning | crates/app-server/src/lib.rs:1353-1366 | a turn failed, was interrupted or canceled exactly as its payload's status says up to letter case, and is completed if that is missing or says anything else |
| TurnStream.FramesAreDecoded | crates/app-server/src/lib.rs:1385-1402 | a frame gives an event exactly if it is text with an event name and data, and then that name with the data read as JSON |
| TurnStream.ReadEventsMeaning | crates/app-server/src/lib.rs:1255-1293 | after any events: the deltas before the turn's first stop, the largest sequence number up to it, and a verdict exactly if there was a stop |
| TurnStream.TurnIgnoresChunking | crates/app-server/src/lib.rs:1237-1254 | within the size limit, a never-mixed stream is read alike under every chunking |
| TurnStream.TurnEmitsItsDeltas | crates/app-server/src/lib.rs:1224-1299 | for every stream and every chunking: a turn emits exactly its own non-empty message deltas before its first stop, in order; it finishes exactly if that stop is its completion, with the maximum of since and every number seen and the status and error of that event's payload, and is otherwise broken, for the stated reason |
| TurnStream.TurnEmitsItsStreamsDeltas | crates/app-server/src/lib.rs:1224-1299 | of a never-mixed stream within the limit, these are the deltas of the whole stream, however it is chunked |
| TurnStream.FrameTooLongIff | crates/app-server/src/lib.rs:1241-1250 | a turn breaks with an overlong frame exactly when some chunk overfills the buffer and no stop came before it |
| TurnStream.LargeChunkTripsTheLimit | crates/app-server/src/lib.rs:1241-1250 | any first chunk over 16 MiB breaks a turn before it emits anything, whatever it holds and whatever follows |
| TurnStream.FullFramesTripTheLimit | crates/app-server/src/lib.rs:1241-1250 | so does one made of complete frames only, of any length over the limit |
| TurnStream.LimitMessageIsTrueIff | crates/app-server/src/lib.rs:1241-1250 | the overfilled buffer holds no frame delimiter, as the error says, exactly when the chunk that overfilled it completed no frame |
| TurnStream.MaxSeqIsMaximum | crates/app-server/src/lib.rs:1265-1270 | the returned number bounds since and every number seen, and is one of them |
| TurnStream.ReadChunksRaisesSeq | crates/app-server/src/lib.rs:1224-1299 | the sequence number never falls, for any chunks at all |
| TurnStream.SmallStreamsStayWithinLimit | crates/app-server/src/lib.rs:1241-1250 | a stream of at most 16 MiB never trips the size check |
| RuntimeBridge.RuntimeBridge.MessageThread | crates/app-server/src/lib.rs:1126-1222 | a turn writes start, deltas and end whatever becomes of its stream; only a finished one moves its thread's number; it is accepted exactly if the event that ended it says completed, and each failure is reported as what it was, in the stated words |
| RuntimeBridge.FinishedMeans | crates/app-server/src/lib.rs:1195-1222 | status and error of a finished turn are those of its stream's first own terminal event, and of no other |
| RuntimeBridge.RuntimeBridge.EnsureRuntimeThread | crates/app-server/src/lib.rs:1081-1096 | a known thread keeps its runtime thread; a new one is entered only if its creation succeeded; no sequence number changes |
| RuntimeBridge.SeqNumbersNeverDecrease | crates/app-server/src/lib.rs:1173-1193 | over any sequence of turns no thread's sequence number falls |
| RuntimeBridge.NumberOfLastFinished | crates/app-server/src/lib.rs:1173-1193 | after any sequence of turns a thread's number is the one its last finished turn returned; other threads' turns and broken streams leave it alone |
| TurnRefinement.TurnIsARun | crates/app-server/src/lib.rs:349-388 | however input is read while it runs, a bridge's turn writes exactly the turn's events and then the response, which succeeds exactly when the turn completed, and leaves the registry as it was |
| TurnRefinement.UndisturbedTurnRuns | crates/app-server/src/lib.rs:872-905 | with no input read meanwhile the turn's own steps are such a run, and nothing else changes |
| TurnRefinement.ReadingIsInvisible | crates/app-server/src/lib.rs:442-482 | leaving out the steps that read input leaves a run with the same phase, log and registry |
| SseFraming.SseBuffer.TakeFrame | crates/app-server/src/lib.rs:1375-1383 | takes the prefix up to the next cut out of the buffer and leaves the rest, or nothing when there is no cut |
| SseFraming.DrainConserves | crates/app-server/src/lib.rs:1241-1254 | frames taken plus buffer left are the buffer there was |
| SseFraming.ReceiveConserves | crates/app-server/src/lib.rs:1241-1254 | over all chunks no byte is lost, invented or reordered |
| SseFraming.OneDelimiterNeverMixes | crates/app-server/src/lib.rs:1375-1383 | a stream that lacks one of the two delimiters is never mixed |
| SseFraming.DrainSplits | crates/app-server/src/lib.rs:1241-1254 | draining early and draining late agree on a never-mixed stream |
| SseFraming.MixedStreamDiffers | crates/app-server/src/lib.rs:1375-1383 | every mixed stream has a prefix whose frames are no prefix of the stream's |
| SseFraming.ChunkIndependentIffNeverMixed | crates/app-server/src/lib.rs:1241-1254 | the frames are the same for every chunking if and only if the stream is never mixed |
| SseFraming.ReferenceSplitIsUnique | crates/app-server/src/lib.rs:1375-1383 | at most one way of cutting a stream at its first delimiters exists |
| SseFraming.DrainIsReferenceIffNeverMixed | crates/app-server/src/lib.rs:1375-1383 | the frames taken are that reference split if and only if the stream is never mixed |
| SseFrame.ParseSseFrame | crates/app-server/src/lib.rs:1385-1402 | for any text the frame is the trimmed value of its last event line with the values of all its data lines, joined, and there is none unless it has both |
| SseFrame.RenderedFrameParses | crates/app-server/src/lib.rs:1385-1402 | any frame as a server writes it reads back as its trimmed name and its cleaned data lines; without data there is none |
| SseFrame.RoundTripIff | crates/app-server/src/lib.rs:1385-1402 | writing then reading is the identity exactly for a trimmed name and data lines without leading white space or trailing carriage returns |
| BridgeSlot.CallersAgree | crates/app-server/src/lib.rs:922-942 | under any interleaving, all acquires that return between two clearings of the slot return the same bridge, the slot's |
| BridgeSlot.LookupTakesTheCached | crates/app-server/src/lib.rs:922-927 | an acquire that finds a cached bridge hands it out at once and changes neither slot nor any bridge |
| BridgeSlot.LookupOfNothingSpawns | crates/app-server/src/lib.rs:922-932 | one that finds none hands out nothing and begins a spawn |
| BridgeSlot.CachedBridgeIsUsed | crates/app-server/src/lib.rs:922-942 | in every continuation an acquire that began with a full slot holds that bridge and never spawns, publishes or fails |
| BridgeSlot.FirstPublishIsCached | crates/app-server/src/lib.rs:934-941 | the first spawn to be published is cached and handed out |
| BridgeSlot.OneTurnAtATime | crates/app-server/src/lib.rs:886-892 | a bridge runs one turn at a time in every reachable state |
| BridgeSlot.TurnLeavesNoTrace | crates/app-server/src/lib.rs:886-892 | locking a bridge for a turn and unlocking it changes nothing, and in between nobody else can lock it |
| BridgeSlot.FailedSpawnLeavesNothing | crates/app-server/src/lib.rs:928-932 | a failed spawn leaves no living child, changes nobody's bridge nor the slot, and its caller may ask again |
| BridgeSlot.InvalidateOnlyEmptiesTheSlot | crates/app-server/src/lib.rs:970-977 | an invalidation takes a bridge from nobody and kills the cached one exactly if nobody holds it |
| BridgeSlot.ShutdownWaitsThenKills | crates/app-server/src/lib.rs:1737-1757 | a shutdown empties the slot and leaves the bridge alive, and kills it exactly when no turn uses it |
| BridgeSlot.LosingSpawnIsDropped | crates/app-server/src/lib.rs:934-941 | a caller that loses the race gets the cached bridge, and its own is killed in that step without having been handed out |
| BridgeSlot.DeadUnpublishedStaysOut | crates/app-server/src/lib.rs:934-941 | such a bridge is handed out to nobody however the run goes on |
| BridgeSlot.TurnsKeepTheirBridge | crates/app-server/src/lib.rs:886-892 | no step kills a bridge a turn is using |
| BridgeSlot.DeadIffUnreferenced | crates/app-server/src/lib.rs:1331-1335 | a bridge no shutdown took is dead exactly when nobody refers to it |
| BridgeSlot.CachedBridgeIsAlive | crates/app-server/src/lib.rs:922-942 | the cached bridge is alive in every reachable state |
| BridgeSlot.OvertakenSpawnIsCachedStale | crates/app-server/src/lib.rs:970-977 | every spawn that a clearing of the slot overtakes, by an invalidation or a shutdown, can be cached after it |
| BridgeSlot.FreshAfterClearingIff | crates/app-server/src/lib.rs:970-977 | after a clearing every cached bridge is fresh, in all continuations up to the next clearing, exactly when no caller was spawning at that step |
| BridgeSlot.CachedBridgeIsFresh | crates/app-server/src/lib.rs:970-977 | so over a whole run in which no clearing overtakes a spawn the cached bridge is always fresh |
| SdkEventStream.ParseEventStream | npm/runtime-sdk/index.js:166-186 | for every chunking the reader yields what the whole text gives: its frames in order, the remainder last, nothing after invalid JSON |
| SdkEventStream.FrameLineByLine | npm/runtime-sdk/index.js:188-194 | a frame's data are what follows `data:` on each line that begins so, trimmed in front, one carriage return before a newline dropped; no other line adds anything |
| SdkEventStream.FrameOutcome | npm/runtime-sdk/index.js:188-198 | a frame is no event exactly without data or with the end mark, and otherwise its data as JSON |
| SdkEventStream.ReadFramesMeaning | npm/runtime-sdk/index.js:166-186 | reading frames yields the events in front of the first frame that is no JSON, in order, and fails exactly if there is one |
| SdkEventStream.SplitExtends | npm/runtime-sdk/index.js:172-182 | text still to come does not move a blank line already seen |
| SdkEventStream.SplitRejoins | npm/runtime-sdk/index.js:172-182 | the frames with their blank lines put back and the remainder are the text, each frame ends at its first blank line, and the remainder holds none |
| Glob.WildcardCharsMatch | crates/config/src/harness.rs:222-247 | the loop over four indices ends; true implies a match; on a value without `*` it decides the glob relation |
| Glob.Soundness | crates/config/src/harness.rs:222-247 | acceptance from any loop state exhibits a match of the rest at hand or of a later restart |
| Glob.Completeness | crates/config/src/harness.rs:222-247 | rejection from any loop state rules out a match at hand and at every later restart, on a value without `*` |
| Glob.StarInValueIsMisread | crates/config/src/harness.rs:227-241 | for every value that holds a `*` there is a matching pattern the loop rejects |
| Glob.ExactIffNoStar | crates/config/src/harness.rs:222-247 | the loop decides the glob relation for all patterns if and only if the value holds no `*` |
| CatalogCompiler.Compile | crates/config/src/catalog.rs:651-664 | the insertion loop gives rows strictly ordered by provider, then wire id; a row is kept exactly when no later row of bundled, live, overrides has its provider and wire id; every such pair occurs exactly once |
| CatalogCompiler.CompiledRows | crates/config/src/catalog.rs:651-664 | a row is compiled exactly when it is the last of its provider and wire id: overrides beat live beats bundled, no pair lost, none invented |
| CatalogCompiler.BeforeMeaning | crates/config/src/catalog.rs:172-175 | keys sort by the first character in which they differ, a prefix first |
| CatalogCompiler.MergeMeaning | crates/config/src/catalog.rs:651-664 | merging keeps rows sorted and under each key the later row wins |
| CatalogCompiler.SortedIsDetermined | crates/config/src/catalog.rs:651-664 | sorted catalogs with the same row under every key are equal |
| CatalogCompiler.CompilingIsIncremental | crates/config/src/catalog.rs:622-664 | a compiled catalog fed back as the bundled layer gives what compiling everything at once gives |
| CatalogCompiler.CompilingTwice | crates/config/src/catalog.rs:622-664 | compiling a compiled catalog changes nothing |
| CatalogCompiler.CompiledAlikeIff | crates/config/src/catalog.rs:651-664 | two row lists compile alike exactly when every key's last row agrees |
| CatalogCompiler.ReorderingAcrossKeysIsHarmless | crates/config/src/catalog.rs:651-664 | reordering that keeps each key's rows in order changes nothing |
| CatalogCache.ProviderCatalogCache.RecordSuccess | crates/config/src/catalog.rs:441-476 | a success replaces its scope's entry with its rows, their provenance rewritten, and touches no other |
| CatalogCache.ProviderCatalogCache.RecordFailure | crates/config/src/catalog.rs:478-506 | a failure marks its scope's entry and keeps its rows, or enters an empty failed one |
| CatalogCache.CacheReflectsHistory | crates/config/src/catalog.rs:414-506 | after any history a key's entry is the one its own refreshes should give |
| CatalogCache.EntriesAreHonest | crates/config/src/catalog.rs:371-397 | every entry sits under the key of its fields, its rows carry its fingerprint and fetch time, and its status is fresh exactly when it may be served |
| CatalogCache.ServedRows | crates/config/src/catalog.rs:508-548 | fresh rows are those of the scope's last refresh if it succeeded and is within its time to live; a failure keeps the last success's rows but serves none |
| CatalogCache.FreshOfferingsAreServed | crates/config/src/catalog.rs:536-548 | in a cache with any history the fresh offerings of a scope are exactly those rows |
| CatalogCache.StatusIsOfLastRefresh | crates/config/src/catalog.rs:503-530 | a scope's status is unknown before any refresh, the reason of a failed last one, else fresh within the time to live and stale with its age from then on |
| CatalogCache.KeysSeparateScopes | crates/config/src/catalog.rs:420-425 | with fingerprints free of the unit separator, keys are equal exactly for the same trimmed provider and fingerprint |
| CatalogCache.RefreshesStayInScope | crates/config/src/catalog.rs:441-506 | so a refresh leaves every other scope as it was |
| CatalogCache.ScopeIsPrivateIff | crates/config/src/catalog.rs:420-425 | without that assumption, a scope shares its key with no other exactly when its key splits in one place only |
| BaseUrl.NormalForm | crates/config/src/catalog.rs:717-743 | every well-formed spelling normalises to lower-cased scheme and host without default port and trailing slashes, path unchanged |
| BaseUrl.CoreIsWithoutNoise | crates/config/src/catalog.rs:717-718 | what is normalised is the URL without outer white space and, inside it, trailing slashes |
| BaseUrl.MarkedNormalForm | crates/config/src/catalog.rs:720-739 | whatever the scheme, a URL with `://` only loses the letter case of scheme and authority, and `:443` behind https or `:80` behind http |
| BaseUrl.SameNormalFormIff | crates/config/src/catalog.rs:717-743 | two well-formed spellings share a normal form exactly when they differ only in case of scheme and host, default port or trailing slashes |
| BaseUrl.IdempotentIff | crates/config/src/catalog.rs:717-743 | normalising twice is normalising once exactly for settled spellings |
| BaseUrl.DoubledPortIsUnsettled | crates/config/src/catalog.rs:717-743 | a default port behind a default port is stripped only by a second normalisation, for every http or https host |
| BaseUrl.BarePortIsUnsettled | crates/config/src/catalog.rs:717-743 | so is what is left of an authority that is nothing but a default port |
| BaseUrl.SpaceBehindSlashIsUnsettled | crates/config/src/catalog.rs:717-743 | and white space that only a trailing slash keeps from being trimmed |
| BaseUrl.FingerprintInputIsEndpoint | crates/config/src/catalog.rs:689-715 | the fingerprint input of an http or https URL, with or without a path, is the normal form of its scheme, host and path |
| BaseUrl.SecretsNeverMatter | crates/config/src/catalog.rs:689-715 | two choices of userinfo, query and fragment give the same fingerprint input, except exactly that without a path it shows whether there was a query or fragment |
| BaseUrl.MarkedUserinfoIsDropped | crates/config/src/catalog.rs:689-715 | behind a first `://` userinfo never enters the input, whatever the scheme and whatever follows |
| BaseUrl.UnmarkedUserinfoIsKept | crates/config/src/catalog.rs:689-715 | without a `://` the input is the userinfo and what is left behind it, lower-cased |
| BaseUrl.UnmarkedUserinfosAlikeIff | crates/config/src/catalog.rs:689-715 | two userinfos without a `://` give one input exactly when they agree up to letter case and leading white space |
| BaseUrl.UserinfoBeforeMarkIsRedacted | crates/config/src/catalog.rs:689-715 | userinfo in front of a `://` makes an unknown scheme, and the whole input is the redaction text |
| BaseUrl.UserinfoNeverMattersIff | crates/config/src/catalog.rs:689-715 | for every remainder, with a `://` in front or nothing: all non-empty userinfos give one input exactly when a `://` stands in front of them or behind |
| BaseUrl.QueryWithoutPathIsRedacted | crates/config/src/catalog.rs:689-715 | with no path a query or fragment makes the whole input the redaction text |
| BaseUrl.RedactedIff | crates/config/src/catalog.rs:689-712 | a URL with `://` is redacted exactly when its scheme is neither http nor https, its authority holds `?` or `#`, or it has no host |
| ModelRegistry.New | crates/agent/src/lib.rs:1144-1154 | the nested loops build an index that holds, for every normalised name, the least index whose model goes by it |
| ModelRegistry.IndexIsTheScan | crates/agent/src/lib.rs:1371-1378 | a lookup hits exactly when a linear scan finds a model, and finds the same one |
| ModelRegistry.FindIsFirst | crates/agent/src/lib.rs:1219-1262 | every scan over the models finds the first that satisfies its query, and nothing exactly when none does |
| ModelRegistry.MatchingIsBeingCalled | crates/agent/src/lib.rs:1371-1432 | a model goes by its id and its aliases, up to letter case and outer white space |
| ModelRegistry.AliasBranchIsDeadUnderAHint | crates/agent/src/lib.rs:1219-1281 | with a provider hint the alias-map strategy never decides |
| ModelRegistry.HintedAnswerIs | crates/agent/src/lib.rs:1173-1309 | which model answers under a hint: the provider's first that goes by the name; for OpenCode Go its first with the allowed id; for Ollama and the passthroughs the trimmed name; only if there is none the fallback, the provider's first model, else the registry's first |
| ModelRegistry.HintedAnswerIsInScopeIff | crates/agent/src/lib.rs:1173-1309 | any hinted answer is of that provider exactly when it is no fallback, or the registry holds one of its models, or it is the built-in default's |
| ModelRegistry.AttemptsTellTheAnswer | crates/agent/src/lib.rs:1173-1309 | the fallback chain names the request, then the provider's default exactly for a fallback, then the global default exactly when no model of the provider exists |
| ModelRegistry.OrdinaryHintResolvesIff | crates/agent/src/lib.rs:1219-1262 | for a provider without its own strategy a hinted name is answered exactly when one of its models goes by it, and by the first such |
| ModelRegistry.UnhintedAnswerIs | crates/agent/src/lib.rs:1173-1309 | without a hint a name is answered exactly when some model goes by it, by the first such, under the requested spelling if that is its id up to letter case; otherwise by the fallback |
| ModelRegistry.InferredProviderIs | crates/app-server/src/chat_completions.rs:167-185 | which provider is inferred: the configured one if it serves the name or is OpenCode Go, else that of the first model that goes by it, else none |
| ModelRegistry.InferenceIsStable | crates/app-server/src/chat_completions.rs:167-185 | a configured provider that serves the name is returned, and inferring from the result gives it again |
| ModelRegistry.NothingInferredIff | crates/app-server/src/chat_completions.rs:167-185 | nothing is inferred exactly when the configured provider does not serve the name and no model goes by it, OpenCode Go apart |
| HtmlStripper.StripTags | web/lib/content-watch.ts:217-242 | the loop always advances and computes the stripped text |
| HtmlStripper.FindClosingRawTextTag | web/lib/content-watch.ts:191-200 | ends behind the first `>` at or behind the name of the first closing tag, and at the end of the input exactly when there is no such tag or no such `>` |
| HtmlStripper.CollapseWhitespace | web/lib/content-watch.ts:202-215 | joins the input's words with single spaces and trims |
| HtmlStripper.CollapsingKeepsTheWords | web/lib/content-watch.ts:202-215 | spacing words out keeps them all; trimming then changes nothing exactly unless white space of the language that is none of HTML is at an end |
| HtmlStripper.WordsArePartedBySpace | web/lib/content-watch.ts:202-215 | white space parts words: a text's words are those in front of any white space and those behind it |
| HtmlStripper.RawTextNames | web/lib/content-watch.ts:169-200 | raw text opens and closes with `<script`, `<style` and their closing forms, up to letter case, where the name ends |
| HtmlStripper.TextIsKept | web/lib/content-watch.ts:217-224 | text without `<` is kept as it is |
| HtmlStripper.TagLeavesASpace | web/lib/content-watch.ts:237-240 | a complete tag that opens no raw text leaves one space |
| HtmlStripper.OpenTagTakesTheRest | web/lib/content-watch.ts:226-240 | a tag never completed leaves one space and takes the rest of the page along |
| HtmlStripper.StripLeavesNoTag | web/lib/content-watch.ts:217-242 | no `<` is left |
| HtmlStripper.PromptTextIsClean | web/lib/content-watch.ts:202-243 | before capping, the text has no `<`, no outer white space and single spaces only, for every page |
| HtmlStripper.StripAppends | web/lib/content-watch.ts:217-242 | a text that ends between tags is stripped on its own, whatever follows |
| HtmlStripper.ElementLeavesASpace | web/lib/content-watch.ts:191-240 | a script or style element leaves one space whatever its body, closed or left open to the end of the page |
| HtmlStripper.BodyNeverMatters | web/lib/content-watch.ts:191-240 | replacing such a body, reached between tags, by any other without a closing tag changes nothing, even in an element left open |
| Metrics.Rollup.Record | crates/cli/src/metrics.rs:216-237 | adding one record leaves every counter equal to a count over all records so far |
| Metrics.Rollup.TouchTs | crates/cli/src/metrics.rs:217-228 | earliest and latest stay the minimum and maximum of all stamps |
| Metrics.Rollup.ReadLog | crates/cli/src/metrics.rs:258-389 | reading a log adds exactly the records and stamps of its kept lines, and counts lines read and parsed |
| Metrics.LogAddsItsEvents | crates/cli/src/metrics.rs:258-282 | a log counts all its lines, parses exactly those neither blank nor malformed nor too old, and adds their records and stamps in order |
| Metrics.AuditMarkMeaning | crates/cli/src/metrics.rs:284-386 | which record an audit event stands for, by its name, tool, outcome and category, and that no other event stands for one |
| Metrics.RuntimeMarkMeaning | crates/cli/src/metrics.rs:618-668 | the same for runtime events |
| Metrics.Rollup.ReadSession | crates/cli/src/metrics.rs:418-540 | reading a session adds a verdict for each result with an open call, then its compactions, unless the session is too old |
| Metrics.OpenAtIsOpen | crates/cli/src/metrics.rs:471-524 | the call paired with a result is the last one under its id with no other block under that id since |
| Metrics.VerdictMeaning | crates/cli/src/metrics.rs:471-524 | a result is a verdict exactly on the call open under its id, a success unless it is flagged as an error |
| Metrics.SessionCounts | crates/cli/src/metrics.rs:418-470 | a readable session is one line, parsed if it is JSON; its time counts and records are added only if it is not too old |
| Metrics.CallsAreJudgedOnce | crates/cli/src/metrics.rs:471-524 | no two results judge the same call |
| Metrics.CountingIsOrderless | crates/cli/src/metrics.rs:393-416 | counts depend on which records were read, not on the order directories list them |
| Metrics.RollupAddsUp | crates/cli/src/metrics.rs:184-242 | whatever was read: categories add up to the total, tools to all calls, samples stay within events, parsed within total lines, earliest and latest are extremes |
| Metrics.ToolBalancesIff | crates/cli/src/metrics.rs:579-670 | a tool's calls equal its approvals, prompts, successes and failures exactly when its runtime starts equal its runtime ends |
| Metrics.WithoutRuntimeLogsToolsBalance | crates/cli/src/metrics.rs:258-540 | after any audit logs and session files every tool balances |
| Metrics.RuntimeLogUnbalances | crates/cli/src/metrics.rs:618-638 | one started call in a runtime log already breaks the balance |

## Left out

- StdioServer.StdioServer.RunStdioLoop: the runtime streams finitely many deltas over the whole run; a stream without end keeps the source's loop going for ever too, which `StdioTheorems.RunsAreShort` bounds otherwise.
- I/O errors on stdin and stdout: the source leaves the loop on the first one.
- Output the stdout hook sink may write beside the loop's writer.
- JSON and UTF-8 decoding: lines, frames and event fields arrive decoded or rejected; `TextDecoder` likewise hands the SDK reader whole text and a flushed rest.
- HTTP serving, CORS, bearer tokens, child processes and readiness polling: the runtime is a nondeterministic environment.
- What `ConfigSet`, `ConfigUnset` and reload do to the configuration: they are requests served in one step. They release the configuration lock between their halves, so only runs one at a time would keep it coherent.
- Parameters of requests that the loop does not look at, and the payload of results.
- Two turns at a time on one bridge: the stdio loop runs one; `BridgeSlot` covers any number of callers and the bridge mutex.
- Unsigned 64-bit and 128-bit widths: the models only take maxima, saturating differences and increments of them.
- SHA-256: the fingerprint results are about the digest's input.
- BaseUrl.SecretsNeverMatter: takes a host and path free of `@`, `?` and `#` as far as these would make them userinfo, query or fragment, and a host that is not blank when there is no path.
- `all_fresh_offerings`, `all_visible_offerings` and the conversion to provider offerings: they concatenate and project entries.
- `provider_routes_equal`, `matches_route` and the built-in posture table around the glob matcher.
- The literal table of built-in models: the registry results hold for every list. `model_family` only classifies names.
- OpenCode Go's chat allowlist is a parameter; `ProviderKind::parse` is not part of this model.
- `upstream_url` and the version-segment helpers: short string functions.
- HtmlStripper.FindClosingRawTextTag: folds ASCII letters only; no other character lower-cases to a letter of its needles and keeps their length.
- Metrics.Rollup.ReadLog: JSON pointers with their fallbacks are resolved before an event reaches the model, and ratios are added as real numbers, without rounding.
- `parse_duration_secs` and `fmt_num`.
- The web UI, localisation, other clients, release scripts.
