# Verified model of the Tork web framework

Tork is a Rust web framework. This project models the parts of it that are state machines,
codecs and bounded readers, and proves what they promise:

| file | what it models |
|---|---|
| `Prelude.dfy` | results, bytes, UTF-8, `split` |
| `SseCodec.dfy`, `SseClient.dfy` | Server-Sent Events: the encoder, and the reference client of the WHATWG HTML Living Standard (sections 9.2.5 and 9.2.6) |
| `SseWire.dfy`, `SseRoundTrip.dfy`, `SseComments.dfy` | what a client reads of written lines, what survives the wire, and exactly which comments are harmless |
| `SseStream.dfy` | the polled SSE response body: source, size limit, heartbeat, timeout, done event |
| `HubMachine.dfy`, `BroadcastHub.dfy` | the broadcast hub: as interleaved steps of any number of threads, and as an object |
| `JsonDepth.dfy` | the JSON nesting guard, against values and texts of RFC 8259 |
| `BodyReaders.dfy` | the two capped body readers, the body limit in front of an extractor, the capped response stream |
| `Multipart.dfy`, `FormData.dfy` | multipart parsing under five budgets with spooled files, and taking fields out of the form |
| `WsLimiter.dfy`, `WsLifecycle.dfy` | the per-address WebSocket cap, and when disconnect hooks run |
| `Lifespan.dfy` | startup with rollback, and shutdown |
| `Settings.dfy` | nested settings inserted along key paths |
| `Escaping.dfy` | HTML and document text escaping |
| `Placeholders.dfy` | the two scanners for route placeholders |

Code that updates objects is a class whose methods are proved against functions on values
(`SseBody.PollFrame` against `Polled`, `WebSocketConn.Recv` against `AfterRecv`, and so on);
the theorems over whole runs are then lemmas about those functions. What the outside world
decides (poll results, arriving frames, elapsed timers, the results of user code) is a
parameter, so each theorem holds for every choice of it. Methods such as `Serve`,
`DeliverCapped`, `RunConnection` and `RunLimiter` drive one object through a whole schedule and
state the theorem about it. `dafny verify dfyconfig.toml` checks the project.

Where the code does less than its description suggests, the model follows the code and the
exact condition is proved:

* Event data and comments are split on LF only, while the protocol also ends lines at CR.
  A client therefore reads every written line cut at its CRs (`StreamIsRead`). Data with a CR
  never arrives as it was sent (`OnlyCrFreeDataSurvives`); with harmless comments, messages
  survive exactly when no data holds a CR (`MessagesSurviveIffDataIsCrFree`). A comment is
  harmless in every stream exactly when the lines its CRs start set nothing and leave no event
  type but the default (`CommentIsHarmlessIff`); otherwise it can, for one, make an event without data
  send data (`CommentCarriageReturnSendsData`).
* The two body readers refuse the same bodies at the same frame, but an oversized one as a 400
  by the extractors' reader and as a 413 by the limit middleware's (`ReadersAgree`).
* A take of form values that fails has already removed the fields up to the one it failed on,
  and they are gone. Takes conserve the parsed entries exactly when every value asked for
  parses where it is first asked for (`TakesConserveIff`, `FailedTakeDropsFields`).
* Secrets do not depend on the order of the directory listing exactly when no key is a proper
  prefix of another and files with the same key agree (`SecretsDoNotDependOnOrderIff`).
* A capped stream keeps its cap except with the largest `u64` as the limit and more data than
  that (`CapHoldsIff`): the saturating counter then never exceeds the limit.
* The per-address table holds exactly the addresses with live permits unless the cap is zero,
  where every refused address stays for good (`KeysAreHoldersIff`).

## Model

| member | source | states |
|---|---|---|
| SseCodec.PushSingleLine | crates/tork-core/src/sse.rs:183-190 | the value is appended with line terminators (and NUL for ids) dropped, nothing else |
| SseCodec.SingleLineClean | crates/tork-core/src/sse.rs:180-190 | no dropped character is left, so a name or id cannot start another field |
| SseCodec.SingleLineKeeps | crates/tork-core/src/sse.rs:183-190 | a value without line terminators (and NUL for ids) is written whole |
| SseCodec.SingleLineDrops | crates/tork-core/src/sse.rs:183-190 | CR and LF (and NUL for ids) are dropped wherever they stand, every other character is kept in place |
| SseCodec.IntoRawIs | crates/tork-core/src/sse.rs:109-125 | a value goes before a text and is serialized, a failure is passed on, and name, id, retry and comment are kept |
| SseCodec.EncodeEvent | crates/tork-core/src/sse.rs:140-178 | the text written is that of the event's lines: comments, name or default, id, retry, data, blank line |
| SseCodec.WireFormat | crates/tork-core/src/sse.rs:140-178 | the wire text field by field for single-line data and comment, the event's own name going before the default |
| SseClient.DispatchedDataIsCrFree | crates/tork-core/src/sse.rs:136-139 | whatever the stream, a client never dispatches data with a carriage return |
| SseWire.LinesOfWritten | crates/tork-core/src/sse.rs:143-172 | lines written with LF are read back as those lines cut at their carriage returns, one at the very end of a line being part of its terminator |
| SseRoundTrip.StreamIsRead | crates/tork-core/src/sse.rs:140-178 | for every stream, whatever its data and comments, the client's state is that of reading the written lines cut at their carriage returns |
| SseRoundTrip.EventIsDelivered | crates/tork-core/src/sse.rs:140-178 | between events, an event with CR-free data and a harmless comment dispatches at most one message: its data, name or default, and last id; without data none, but its id and retry take effect |
| SseRoundTrip.MessageIs | crates/tork-core/src/sse.rs:150-163 | the message of an event has its data, its own name or else the default or else "message", and its own id or else the last one |
| SseRoundTrip.StreamRoundTrip | crates/tork-core/src/sse.rs:140-190 | for every stream of CR-free data and harmless (in particular CR-free) comments, the client ends with exactly one message per event with data, in order, the last id and the last retry, and empty buffers |
| SseRoundTrip.CrFreeIsHarmless | crates/tork-core/src/sse.rs:143-148 | a comment without carriage returns is harmless |
| SseRoundTrip.OnlyCrFreeDataSurvives | crates/tork-core/src/sse.rs:169-172 | whatever the comments, messages arrive as sent only if no data holds a CR |
| SseRoundTrip.MessagesSurviveIffDataIsCrFree | crates/tork-core/src/sse.rs:169-172 | with harmless comments the dispatched messages are the sent ones if and only if no data holds a CR |
| SseComments.CommentIsHarmlessIff | crates/tork-core/src/sse.rs:143-148 | a comment changes nothing a client sees, in every stream and at every event, if and only if the lines its CRs start add no data, set no id and no retry, and leave no event type but the default |
| SseComments.CommentCarriageReturnSendsData | crates/tork-core/src/sse.rs:143-148 | for any line of data there is a comment with a CR that makes an event without data dispatch it |
| SseStream.SseBody.constructor | crates/tork-core/src/sse.rs:367-392 | a new body holds the source and the encoded done event, unfinished |
| SseStream.SseBody.Finish | crates/tork-core/src/sse.rs:424-430 | finishing sends the done event at most once and marks the body finished |
| SseStream.SseBody.DrainReady | crates/tork-core/src/sse.rs:453-478 | the drain loop consumes ready items up to the first that fits, fails or ends the source, and encodes it |
| SseStream.SseBody.PollFrame | crates/tork-core/src/sse.rs:436-488 | one poll does exactly what `Polled` says: timeout first, then ready events with oversized ones skipped, then a due heartbeat |
| SseStream.PollLaw | crates/tork-core/src/sse.rs:452-488 | a poll uses up the ready items over the limit, their bytes counted, and then sends the first event within it, or finishes at an error or the end, or, with nothing ready, sends a heartbeat exactly if it is due |
| SseStream.TimeoutFinishes | crates/tork-core/src/sse.rs:445-450 | an elapsed timeout finishes the body and takes nothing from the source |
| SseStream.SentIffItFits | crates/tork-core/src/sse.rs:457-468 | a consumed event is sent if and only if there is no limit or its encoding has at most that many bytes |
| SseStream.NoFrameOverTheLimit | crates/tork-core/src/sse.rs:457-468 | in no run is an event frame with more bytes than the limit sent |
| SseStream.OtherFramesAre | crates/tork-core/src/sse.rs:36-39 | the bytes of a heartbeat, and the done event as an event of the marker alone |
| SseStream.DrainAccount | crates/tork-core/src/sse.rs:453-478 | the drain loop consumes a prefix of the source of which at most the last item is sendable or an error |
| SseStream.RunAccount | crates/tork-core/src/sse.rs:436-488 | over every run and schedule, frames without heartbeats are the encodings of the fitting events of the consumed prefix, in order, then at most the done frame; an error is the last item consumed |
| SseStream.NothingAfterFinish | crates/tork-core/src/sse.rs:441-443 | once finished, every later poll yields the end of the stream |
| SseStream.HeartbeatsOnlyWhenIdle | crates/tork-core/src/sse.rs:480-488 | in every run a heartbeat is sent only by a poll that used up all ready items, none of them sendable, with the tick due |
| SseStream.RunIsUnderstood | crates/tork-core/src/sse.rs:436-488 | over every run of a source with CR-free data and harmless comments, heartbeats included, the client's messages, last id and retry are those of the events sent and the done event |
| SseStream.TypedRunIsUnderstood | crates/tork-core/src/sse.rs:107-125 | the same from handler results to client: an error, or a value that does not serialize, ends the stream as the last result used; the messages, in terms of the handler's events, are those of the fitting results before it and the done event |
| SseStream.Serve | crates/tork-core/src/sse.rs:436-488 | polling a body through any schedule gives the run's answers, and what was sent is accounted for by what was consumed |
| SseStream.Respond | crates/tork-core/src/sse.rs:367-488 | a body built and polled through any schedule makes the client see exactly the events sent |
| HubMachine.StepCounts | crates/tork-core/src/realtime.rs:55-106 | each step changes the handles and receivers of every channel by exactly what it hands out and takes back |
| HubMachine.RunCounts | crates/tork-core/src/realtime.rs:55-106 | in every interleaving a channel's handles are its creation, lookups and clones less its drops, its receivers its subscriptions less theirs |
| HubMachine.StrongCountsAreExact | crates/tork-core/src/realtime.rs:55-96 | in every interleaving the strong count is the handles so counted plus the map's own reference |
| HubMachine.UsersNeverWait | crates/tork-core/src/realtime.rs:84-96 | handles and receivers are used outside the lock: these steps are possible exactly when there is one |
| HubMachine.StepKeepsInv | crates/tork-core/src/realtime.rs:55-71 | every step of every thread keeps: exact strong counts, live channels mapped, and an entry past the first test without handles |
| HubMachine.AlwaysSafe | crates/tork-core/src/realtime.rs:55-71 | in every interleaving, a channel with a live handle or receiver is the one the map holds for its id |
| HubMachine.UsersAreMapped | crates/tork-core/src/realtime.rs:55-71 | in every interleaving, while more handles or receivers of a channel were given out than dropped, the map holds it for its id |
| HubMachine.LiveUsersShareTheChannel | crates/tork-core/src/realtime.rs:52-54 | live users of one id are never on two channels |
| HubMachine.BroadcastReachesEverySubscriber | crates/tork-core/src/realtime.rs:98-106 | in every interleaving the receivers of a live handle's channel are all receivers of that id |
| HubMachine.OtherOrderIsUnsafe | crates/tork-core/src/realtime.rs:61-64 | with the two counts read in the other order, a run exists that evicts a subscribed room |
| HubMachine.LookupIsNeverStuck | crates/tork-core/src/realtime.rs:55-71 | in every reachable state the thread holding the lock has a step to take |
| HubMachine.LookupIsBounded | crates/tork-core/src/realtime.rs:55-71 | in every interleaving a lookup completes within twice the number of rooms plus two locked steps |
| HubMachine.LookupCanComplete | crates/tork-core/src/realtime.rs:55-71 | from every state of a lookup its own steps alone release the lock, within that bound |
| BroadcastHub.BroadcastHub.Room | crates/tork-core/src/realtime.rs:55-71 | an existing id leaves the map alone and returns its channel; a new id leaves exactly the rooms in use plus the new one; the call is a run of the machine |
| BroadcastHub.BroadcastHub.Retain | crates/tork-core/src/realtime.rs:61-64 | `retain` keeps exactly the rooms with a live handle or receiver, in any visiting order |
| BroadcastHub.BroadcastHub.Decide | crates/tork-core/src/realtime.rs:61-64 | the test of one entry, strong count first, removes it exactly when nobody uses it |
| BroadcastHub.BroadcastHub.CloneHandle | crates/tork-core/src/realtime.rs:84-90 | one more handle and one more strong reference on that channel, every other channel and the map unchanged |
| BroadcastHub.BroadcastHub.DropHandle | crates/tork-core/src/realtime.rs:80-82 | one handle and one strong reference less, nothing else |
| BroadcastHub.BroadcastHub.Subscribe | crates/tork-core/src/realtime.rs:93-96 | one more receiver on the handle's channel, nothing else changed |
| BroadcastHub.BroadcastHub.Broadcast | crates/tork-core/src/realtime.rs:98-101 | reaches every receiver of the room's id |
| JsonDepth.EnsureJsonDepthWithinLimit | crates/tork-core/src/extract/body.rs:60-93 | accepts exactly when the byte automaton does not reject |
| JsonDepth.ScanString | crates/tork-core/src/extract/body.rs:65-76 | nothing inside a string counts, whatever its brackets and escapes |
| JsonDepth.ScanText | crates/tork-core/src/extract/body.rs:78-90 | after any text of a value the depth is back where it was, or the text was rejected because it nests too deep |
| JsonDepth.AcceptsIffShallow | crates/tork-core/src/extract/body.rs:59-93 | for every JSON value and every RFC 8259 text of it, accepted if and only if it nests at most 128 deep |
| JsonDepth.EveryValueIsDecided | crates/tork-core/src/extract/body.rs:59-93 | every value JSON can hold has a text, accepted if and only if it nests at most 128 deep |
| JsonDepth.NestedArrays | crates/tork-core/src/extract/body.rs:16-17 | the boundary is met on both sides by nested arrays |
| BodyReaders.ReadBodyCappedWith | crates/tork-core/src/extract/body.rs:101-116 | succeeds exactly when no frame fails and the total fits, with the whole payload; otherwise the first thing to go wrong, an oversized body being a bad request |
| BodyReaders.ReadBodyWithLimit | crates/tork-core/src/middleware/body_limit.rs:80-102 | the same, for the middleware's reader, an oversized body being a payload too large |
| BodyReaders.PayloadAppend | crates/tork-core/src/extract/body.rs:107-112 | the payload of a body is that of its beginning followed by that of its rest, so the data frames one after the other |
| BodyReaders.SlicesNeverWrap | crates/tork-core/src/extract/body.rs:108-109 | with a limit a buffer can reach, frames of any size a slice can have, and any number of them, no length addition wraps |
| BodyReaders.ReadersAgree | crates/tork-core/src/middleware/body_limit.rs:80-102 | the two readers succeed together with the same bytes or stop at the same frame: with the same error if it failed, with 400 against 413 if it is over the limit |
| BodyReaders.ReadThroughLimit | crates/tork-core/src/middleware/body_limit.rs:50-70 | reading behind the limit middleware succeeds exactly within the smaller limit and an admissible declared length; otherwise the middleware's error, or a 400 for what only the extractor refuses |
| BodyReaders.CappedBody.PollFrame | crates/tork-core/src/body.rs:97-118 | one poll adds the data length with saturation and passes or refuses the frame |
| BodyReaders.CapRunAt | crates/tork-core/src/body.rs:97-118 | in every run, which answer passes and which is refused, in terms of the data so far |
| BodyReaders.CapHoldsIff | crates/tork-core/src/body.rs:63-71 | every frame is delivered exactly while it fits if and only if the limit is below the `u64` maximum or the data is not above it |
| BodyReaders.DeliversLongestPrefix | crates/tork-core/src/body.rs:55-71 | below that limit, the longest fitting prefix passes and every later data frame is an error |
| BodyReaders.RefusalIsFinal | crates/tork-core/src/body.rs:102-113 | after one refusal every later data frame is refused, polling on or not |
| BodyReaders.DeliverCapped | crates/tork-core/src/body.rs:97-118 | polling a capped body through any answers delivers each frame exactly while it fits, precisely in the cases of `CapHoldsIff` |
| Multipart.SpoolHoldsTheFile | crates/tork-core/src/multipart.rs:621-649 | after every chunk, spooled bytes then buffer are the file so far, the buffer is below the threshold, and the final flush leaves the whole file rewound |
| Prelude.Utf8LenIs | crates/tork-core/src/multipart.rs:650-656 | a text counts with its bytes |
| Prelude.Utf8IsWellFormed | crates/tork-core/src/sse.rs:457-459 | a character has one to four bytes by its code point, which they encode |
| Multipart.ReadFile | crates/tork-core/src/multipart.rs:621-642 | a file part is accepted exactly within the file and body limits and stored whole; otherwise the first chunk over a limit decides the error |
| Multipart.ReadPart | crates/tork-core/src/multipart.rs:611-661 | one part extends the form by itself, or its first failed check is the error |
| Multipart.WithinLimitsIff | crates/tork-core/src/multipart.rs:603-661 | the five budgets in terms of the bytes sent: parts, files, bytes of each file, of each text, and of all parts |
| Multipart.OffenceIsTrue | crates/tork-core/src/multipart.rs:603-658 | the error reported names a budget that the body exceeds |
| Multipart.Parse | crates/tork-core/src/multipart.rs:598-665 | succeeds if and only if all five budgets hold, with exactly the parts in order; otherwise the first offending part decides the error |
| Multipart.SlicesFit | crates/tork-core/src/multipart.rs:599-632 | with limits a buffer can reach, no counter overflows, however many parts or bytes arrive |
| Multipart.ChunkingIsInvisible | crates/tork-core/src/multipart.rs:625-641 | bodies that differ only in chunking are accepted alike and give the same form |
| FormData.TakesCommute | crates/tork-core/src/multipart.rs:685-757 | takes of different names hand out and leave the same in either order, even if one or both fail |
| FormData.TakeAccount | crates/tork-core/src/multipart.rs:687-702 | every entry is handed out, left, or, when the take fails, dropped: exactly those under the name up to the one it failed on |
| FormData.TakesAccount | crates/tork-core/src/multipart.rs:685-757 | the same over any sequence of takes, failing ones included |
| FormData.TakesConserveIff | crates/tork-core/src/multipart.rs:685-757 | taken and remaining entries are the parsed ones if and only if every value asked for parses where it is first asked for |
| FormData.FailedTakeDropsFields | crates/tork-core/src/multipart.rs:691-698 | a take that fails on its second field returns neither field and leaves neither |
| FormData.TakenIsGone | crates/tork-core/src/multipart.rs:685-757 | after a take that succeeded, another of the same name finds nothing and changes nothing |
| FormData.TakeEach | crates/tork-core/src/multipart.rs:685-702 | takes run on one form leave what the run says, and all succeed exactly in the conserving cases |
| FormData.MultipartForm.TakeFormValues | crates/tork-core/src/multipart.rs:687-702 | succeeds exactly when every value of the name parses, with all of them in order and exactly the others left; on an invalid value the fields up to it are gone and the later ones remain |
| FormData.MultipartForm.TakeFileBytesList | crates/tork-core/src/multipart.rs:720-735 | the files of the name in order, with their contents, and exactly the others left |
| FormData.MultipartForm.TakeUploadFileList | crates/tork-core/src/multipart.rs:746-757 | the same, each file in its spool |
| FormData.TakeParsedFiles | crates/tork-core/src/multipart.rs:584-735 | parsing then taking gives exactly the contents of the file parts of the name |
| FormData.TakeParsedTexts | crates/tork-core/src/multipart.rs:598-702 | parsing then taking a name gives the values of exactly the text parts of that name, the nameless ones being under the empty name |
| FormData.TakeParsedUploads | crates/tork-core/src/multipart.rs:598-757 | parsing then taking a name gives its file parts with file name, content type, size and a spool holding the file from its start |
| WsLimiter.WsIpLimiter.TryAcquire | crates/tork-core/src/ws.rs:349-360 | a permit is given exactly when the address holds fewer than the cap, and counted |
| WsLimiter.WsIpLimiter.Release | crates/tork-core/src/ws.rs:369-379 | dropping a permit frees its slot and never takes a count below zero |
| WsLimiter.StepKeepsBalance | crates/tork-core/src/ws.rs:349-379 | every acquire and drop keeps counts equal to live permits |
| WsLimiter.PermitsAreConserved | crates/tork-core/src/ws.rs:331-379 | in every reachable state counts are live permits, within the cap; with a positive cap the keys are exactly the holders |
| WsLimiter.CountsAreLedger | crates/tork-core/src/ws.rs:349-379 | over any run the stored count of an address is the permits given out for it less those dropped |
| WsLimiter.NextStepIsExact | crates/tork-core/src/ws.rs:349-379 | in every reachable state an acquire fails exactly at the cap and a drop never underflows |
| WsLimiter.RunLimiter | crates/tork-core/src/ws.rs:331-379 | one limiter driven through any interleaving answers every attempt by the permits then out, and ends balanced |
| WsLimiter.KeysAreHoldersIff | crates/tork-core/src/ws.rs:351-354 | the keys are the holders if and only if the cap is positive or nobody has tried |
| WsLifecycle.WebSocketConn.FireDisconnectHooks | crates/tork-core/src/ws.rs:796-816 | runs all hooks once, or only records that the table was gone |
| WsLifecycle.WebSocketConn.Recv | crates/tork-core/src/ws.rs:733-786 | the receive loop ends where `AfterRecv` says, recording a peer's close code before the hooks |
| WsLifecycle.ReceivedIs | crates/tork-core/src/ws.rs:733-786 | the answer is the first message that is no raw frame, the end exactly on shutdown, idle or a closed stream, and an error on an error |
| WsLifecycle.WebSocketConn.Close | crates/tork-core/src/ws.rs:897-907 | the local close code is recorded and no hook runs |
| WsLifecycle.WebSocketConn.Drop | crates/tork-core/src/ws.rs:667-691 | the drop runs the hooks only as a fallback, with table and runtime alive |
| WsLifecycle.HooksRunExactlyWhen | crates/tork-core/src/ws.rs:667-816 | for every connection, exactly when the hooks run and with which close code |
| WsLifecycle.HooksRunOnce | crates/tork-core/src/ws.rs:651-654 | each hook runs exactly once while table and runtime are alive, and never twice otherwise |
| WsLifecycle.CallsAre | crates/tork-core/src/ws.rs:796-816 | call i is hook i with the close code last recorded |
| WsLifecycle.RunConnection | crates/tork-core/src/ws.rs:651-816 | a connection driven through any ops and dropped returns what arrived from its receives and makes exactly the expected calls |
| Lifespan.LifespanCell.Startup | crates/tork-core/src/lifespan.rs:109-120 | success registers and keeps the container, failure changes nothing |
| Lifespan.LifespanCell.Shutdown | crates/tork-core/src/lifespan.rs:122-129 | the container is given away at most once, even when its shutdown fails |
| Lifespan.Rollback | crates/tork-core/src/app.rs:825-827 | the containers already produced are stopped in reverse order and no cell keeps one |
| Lifespan.RunStartup | crates/tork-core/src/app.rs:820-838 | on failure of startup i the earlier ones are rolled back and its error is returned; otherwise every cell holds its container |
| Lifespan.RunShutdown | crates/tork-core/src/app.rs:880-890 | every held container is stopped in reverse order whatever fails |
| Lifespan.RunLifecycle | crates/tork-core/src/app.rs:755-815 | in every run that fails in startup or reaches shutdown, the containers stopped are exactly those produced, last first, and a second shutdown stops nothing |
| Settings.LookupInserted | crates/tork-core/src/settings.rs:274-292 | a value is found where it was inserted |
| Settings.LookupElsewhere | crates/tork-core/src/settings.rs:274-292 | lookups on incomparable paths are unchanged, scalars replaced on the way included |
| Settings.LastInsertWins | crates/tork-core/src/settings.rs:274-292 | a second insert on a path overrides the first |
| Settings.InsertsCommute | crates/tork-core/src/settings.rs:274-292 | inserts on incomparable paths commute |
| Settings.ScalarInsertsCommuteIff | crates/tork-core/src/settings.rs:274-292 | two scalars on different paths commute if and only if neither path extends the other |
| Settings.OrderDoesNotMatter | crates/tork-core/src/settings.rs:250-271 | settings on pairwise incomparable paths, identical duplicates aside, give one tree in any order |
| Settings.EverySettingIsFound | crates/tork-core/src/settings.rs:250-271 | after all of them each is found where it was put |
| Settings.SecretsDoNotDependOnOrderIff | crates/tork-core/src/settings.rs:250-271 | every order of the directory listing gives the same secrets if and only if any two files have incomparable keys or are the same setting |
| Settings.SplitOnPairCuts | crates/tork-core/src/settings.rs:266-267 | joining the pieces of a secret's name with double underscores gives the name, no piece holds one, and each cut is the leftmost |
| Settings.SecretIsFound | crates/tork-core/src/settings.rs:250-271 | every secret is found, with its contents, at its name so cut |
| Settings.ReadSecrets | crates/tork-core/src/settings.rs:250-271 | the secrets are the inserts of all files, names split at double underscores |
| Settings.SettingsLoader.OverrideValue | crates/tork-core/src/settings.rs:151-157 | the dotted key gives the value and incomparable keys are untouched |
| Prelude.SplitJoins | crates/tork-core/src/settings.rs:151-157 | joining the pieces of a dotted key with dots gives the key |
| Escaping.SixPassesAreOne | crates/tork-openapi/src/docs.rs:76-84 | the six ordered passes equal one simultaneous substitution on every text |
| Escaping.UnescapeInvertsHtmlEscape | crates/tork-openapi/src/docs.rs:76-84 | unescaping the six entities gives the text back |
| Escaping.EscapedIsInert | crates/tork-openapi/src/docs.rs:75-84 | escaped text holds no markup character |
| Escaping.SanitizeDocText | crates/tork-openapi/src/spec.rs:361-377 | each character becomes its entity, a blank for other controls, or itself |
| Escaping.SanitizedOne | crates/tork-openapi/src/spec.rs:361-377 | what becomes of one character, with the control ranges spelled out |
| Escaping.EscapersAgreeIff | crates/tork-openapi/src/spec.rs:361-377 | the two escapers agree if and only if no control character is blanked |
| Escaping.SanitizedIsInert | crates/tork-openapi/src/spec.rs:361-377 | document text holds no markup and no control but line ends and tabs |
| Placeholders.PathParamNames | crates/tork-macros/src/common.rs:23-41 | the scanner ends on every text with the names `Names` defines |
| Placeholders.PlaceholderNames | crates/tork-openapi/src/spec.rs:392-410 | the second scanner gives the same names on every text |
| Placeholders.ScanInvertsPrint | crates/tork-macros/src/common.rs:19-41 | the names of a printed path come back exactly, in order, wildcard markers stripped |
| Placeholders.StarsAreTrimmed | crates/tork-macros/src/common.rs:31-32 | all leading stars of a name are trimmed and nothing else |
| Placeholders.UnclosedHasNoNames | crates/tork-macros/src/common.rs:28-38 | opening braces that are never closed give no name |

## Left out

- SseRoundTrip.StreamRoundTrip: the client's byte decoding is not modelled; texts are sequences of Unicode scalar values.
- SseStream.SseBody.PollFrame: each poll sees finitely many ready items; a source that is ready for ever with oversized events keeps a poll busy without end. Timers and wakers are parameters of a poll, and logging and the connection permit are not modelled.
- HubMachine.AlwaysSafe: memory is sequentially consistent, dropping the hub itself is not a step, and lag in a channel's message buffer is not modelled. Poisoning of the lock changes nothing in the source and is not modelled.
- BodyReaders.ReadBodyCappedWith: requires that no length addition wraps; by `SlicesNeverWrap` only a limit above the longest possible buffer (2^63 - 1 bytes) could break that, and such a buffer cannot be allocated.
- Multipart.Parse: requires the same of its counters (`SlicesFit`). Header and boundary parsing, stream errors and spool I/O errors are not modelled, and a text part arrives decoded. Which of two limits a file part reports first may depend on its chunking; whether it is accepted does not.
- FormData.MultipartForm.TakeFileBytesList: I/O errors while reading a spool back are not modelled.
- WsLifecycle.HooksRunOnce: cancelling `recv` while hooks are running is not modelled, and a hook task spawned by the drop is taken to run; cancelling while `recv` waits for a frame is covered.
- Lifespan.RunLifecycle: a failure to build, bind or become ready after a successful startup returns without shutdown in the source and is outside this claim. Applications with event hooks instead of lifespans, and logging, are left out.
- Settings.ReadSecrets: lower-casing of names, trimming of contents and reading of files happen before the model; the in-place update of the tree is modelled on values.
- Placeholders.PathParamNames: paths are sequences of characters where the source walks bytes; the braces and the star are single bytes that occur in no other character.
- The single-value takes (`take_form_value`, `take_file_bytes`, `take_upload_file`), configuration merging, and the receive wrappers for text and JSON would only add easy members.
- Sockets, TLS, routing, throttling, caching, middleware other than the body limit, generated code of the macros, and document generation beyond text escaping.
