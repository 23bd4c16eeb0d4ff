# AgentUE in Dafny

A model of the parts of AgentUE where several pieces share one event log, with proofs of what they promise together.
`dafny verify dfyconfig.toml` checks the whole project.

- **Model and reducer** (Json, Masks, Model, Reducer, Snapshot, ModelInvariants, ModelValidity, ReducerLaws, ApplyLaws).
  Events are validated and applied to a JSON snapshot. `SnapshotState.Snapshot` changes one snapshot in place and refines
  the function `Reducer.Apply`; `ApplyLaws` says what each kind of event does in terms of the snapshot before and after. Two rejections and acceptances that look harmless are stated as they are: a rejected event
  can give a snapshot without a block list an empty one, and an accepted event can put a value of the wrong type into
  `type`, `parent_id` or `group_id`.
- **Event log** (LuaNumbers, EventLog, BridgeLaws, Bridge). The three Redis scripts, which compare sequence numbers as rounded
  doubles, over every interleaving of producers. `BridgeState.Bridge` refines them.
- **Replay** (Replay, Replayer, ResumeLaws, Reconnects). A client follows the log while producers append, breaks off
  anywhere, and resumes from a rebuilt `start`. A producer may act before every read and before every look at the
  state. `ReplayerState.Stream` is the loop; `ResumeLaws` says what its deliveries mean to the client.
- **Framing** (Utf8, Frames, FrameLaws, JsonReader, Framing). A block's bytes are cut into frames under a byte limit, at character
  boundaries (section 4 of RFC 3629) and measured with JSON escapes (section 7 of RFC 8259, and the further characters
  Go escapes), and put together again in any order. The encoding is read back by a JSON reader that knows nothing of
  how it was written.
- **Runner** (Emitter, RunSpec, Runner, RunLaws, RunOutcomes, RunOrder, RunFold). One run of the Python Runner. Everything
  outside its control is a `Script`: what the callbacks take from the emitter and whether they raise, what the stream
  yields, and how every publish ends. A publish may be refused, stored and acknowledged, stored although it raises, or
  cut by cancellation on either side of the store.
- **Recovery** (Recovery, RecoveryLaws, Recoverer, SweepLaws). Any number of scanners recover a stopped task, one Redis command
  at a time in any interleaving.
- **Server-sent events** (Sse, SseLaws, SseClient). The TypeScript encoder and decoder at text level, and a client
  that follows section 9.2.6 of the WHATWG HTML Living Standard.

Where the code and its documentation differ, the model follows the code. `docs/runner.md` says that `complete` is called
on every path the Runner controls; `RunOutcomes.CompleteIsCalledOnce` says exactly when it is not. The claims
that fail in general carry a lemma with inputs that break them, and a lemma with the exact condition under which they
hold: `AcceptedEventCanInvalidate` and `ValidityStep`, `GreaterCanBeRefused` and `AcceptedExactly`, `OwnNumberCanRepeat`
and `RunClimbsExactly`, `SelfNumberedBreaksOrder` and `SeqOrder`, `RaisedPublishRepeatsError` and
`RaiseIsHarmlessExactly`, `UnmarkedRunIsRecoveredAgain` and `RecoveredLogExactly`, `CompleteCanBeSkipped` and
`CompleteIsCalledOnce`, `StartCanBeStoredTwice` and `LogShape`, `CrLfIsLost` and `RoundTrip`.

## Model

| member | source | states |
|---|---|---|
| Model.ValidateModel | sdks/go/ui/model.go:43-77 | The loop over blocks with its set of seen ids accepts exactly the valid models: envelope, every block, references only in 1.1, no id twice. |
| ApplyLaws.ValidModelExactly | sdks/go/ui/model.go:43-95 | Valid models in terms of their fields alone: version, biz, meta, and inline blocks or bare references with distinct ids. |
| SnapshotState.ReadPath | sdks/go/ui/reducer.go:170-186 | The walk along a path finds what strict lookup finds, else the flat last segment, and nothing else. |
| ApplyLaws.LookupExactly | sdks/go/ui/reducer.go:170-186 | A lookup gives a value exactly when a walk from object to object, one segment each, ends at it. |
| ApplyLaws.NestedBeforeFlat | sdks/go/ui/reducer.go:170-186 | Where such a walk exists its end is what is read; only where none exists is the flat last segment read. |
| SnapshotState.Snapshot.UpsertBlock | sdks/go/ui/reducer.go:54-80 | In place: the block replaces the first one with its id or is appended; outcome and state are those of the reducer function, also on rejection. |
| ApplyLaws.UpsertMeans | sdks/go/ui/reducer.go:54-80 | An upsert is accepted exactly for a valid block on a readable block list (a reference only under 1.1); the block then stands at the first place with its id, or last, and every other block and key is as it was. |
| SnapshotState.Snapshot.AppendByMask | sdks/go/ui/reducer.go:82-125 | In place: string and list deltas are concatenated or create the block; outcome and state are those of the reducer function, also on rejection. |
| ApplyLaws.AppendMeans | sdks/go/ui/reducer.go:82-125 | Exactly when an append is accepted; the field then holds exactly the old text or items followed by the added ones, and every other field, block and key is as it was; without the block, the payload is added last. |
| SnapshotState.Snapshot.SetByMask | sdks/go/ui/reducer.go:127-168 | In place: a masked value reaches the metadata or one inline block; outcome and state are those of the reducer function, also on rejection. |
| ApplyLaws.MetaSetMeans | sdks/go/ui/reducer.go:127-168 | A masked set of the metadata is accepted exactly when the payload carries the value; it is read back at the path, incomparable paths and other keys are as they were. |
| ApplyLaws.BlockSetMeans | sdks/go/ui/reducer.go:127-168 | A masked set of a block is accepted exactly for a path off id and ref, a value the payload carries, and a first block with that id which is inline; it is read back there and nothing else changes. |
| ApplyLaws.ErrorMeans | sdks/go/ui/reducer.go:30-31 | An error is accepted on every snapshot, puts its payload at meta.error, and changes nothing else. |
| ApplyLaws.AcceptedShape | sdks/go/ui/reducer.go:12-37 | An accepted event carries the one payload its kind and mask call for, and no other. |
| SnapshotState.Snapshot.TakeBlocks | sdks/go/ui/reducer.go:201-220 | Reading the block list of a snapshot without one gives it an empty one, and fails on anything but a list of objects. |
| ApplyLaws.BlocksAre | sdks/go/ui/reducer.go:201-220 | What is read as the block list: the objects of a list of objects, in order, and nothing for an absent key. |
| ModelInvariants.IdentityStep | sdks/go/ui/reducer.go:12-37 | Every accepted event but a start keeps ids unique and non-empty and references bare and in 1.1 only, fixes version and biz, and neither removes nor reorders blocks. |
| ModelInvariants.NoStartsRun | sdks/go/ui/reducer.go:39-48 | The same over every accepted run between starts. |
| ModelInvariants.ReachableIsIdentified | sdks/go/ui/reducer.go:12-48 | Every model reached by an accepted run that begins with a start has that identity, whatever state it began in. |
| ModelValidity.ValidityStep | sdks/go/ui/model.go:79-88 | An accepted event keeps a valid model valid if and only if it puts no wrongly typed value into type, parent_id or group_id. |
| ModelValidity.ReachableIsValid | sdks/go/ui/model.go:43-95 | Every accepted run from a start whose events keep those types ends in a valid model, so a start rebuilt from it validates. |
| ModelValidity.UntypedMasksKeepTypes | sdks/go/ui/model.go:79-88 | No event whose masks stay off those three fields breaks their types. |
| ModelValidity.AcceptedEventCanInvalidate | sdks/go/ui/model.go:83-86 | In every valid model, every inline block can be given a null type by one accepted event. |
| ReducerLaws.RejectionResidue | sdks/go/ui/reducer.go:201-220 | A rejected event changes a snapshot if and only if the snapshot has no blocks key and the event reaches the block list; the change is then an empty list and nothing else. |
| ReducerLaws.WriteThenLookup | sdks/python/src/agentue/apply.py:155-163 | A value written at a path is read back at that path. |
| ReducerLaws.WriteElsewhere | sdks/python/src/agentue/apply.py:155-163 | A write leaves lookup at every incomparable path unchanged. |
| ReducerLaws.WritesCommute | sdks/python/src/agentue/apply.py:155-163 | Writes at incomparable paths commute. |
| ReducerLaws.MaskedSetIsReadBack | sdks/python/src/agentue/apply.py:115-136 | An accepted masked set of a block is found at the mask, changes nothing at incomparable paths of the block, and leaves every other block alone. |
| ReducerLaws.ChunkedAppend | sdks/python/src/agentue/apply.py:59-96 | Appending a value cut into any number of pieces equals appending it whole, on any snapshot and when the first piece creates the block, with the exact case in which only the whole is accepted. |
| LuaNumbers.DoubleIsMonotone | sdks/go/runner/redis_bridge.go:52-60 | Rounding to a 53-bit significand, half to even, is monotone over all naturals. |
| LuaNumbers.DoubleIsExact | sdks/go/runner/redis_bridge.go:52-60 | It is the identity up to 2^53. |
| LuaNumbers.DoubleIsNearest | sdks/go/runner/redis_bridge.go:52-60 | The rounded number has a 53-bit significand, and no number that has one is nearer; at equal distance its significand is even. |
| EventLogLaws.RunKeepsLogInv | sdks/go/runner/redis_bridge.go:31-68 | Over every interleaving of producers the log only grows, numbers and cursors strictly increase, and last_seq, last_event and last_cursor describe its last entry. |
| EventLogLaws.TerminalIsFrozen | sdks/go/runner/redis_bridge.go:57-82 | Once a task is terminal, no sequence of calls changes status or log. |
| EventLogLaws.AcceptedExactly | sdks/go/runner/redis_bridge.go:47-68 | While a task runs, a publish stores its event if and only if its rounded number is greater than the rounded last number, and otherwise changes nothing. |
| EventLogLaws.AcceptedExactlyBelow53Bits | sdks/go/runner/redis_bridge.go:52-62 | Up to 2^53 that is: if and only if the number is greater. |
| EventLogLaws.GreaterCanBeRefused | sdks/go/runner/redis_bridge.go:52-62 | At 2^53 + 1 after 2^53, a greater number is refused. |
| EventLogLaws.RetriesRefine | sdks/go/runner/redis_bridge.go:31-82 | From any state, any run with repeated calls, however many and however late, reaches the same log and status as the run with the repeats removed; a call counts as made unless it was answered before the task existed. |
| EventLogLaws.RepeatedPublishAnswersSame | sdks/go/runner/redis_bridge.go:54-56 | Repeating the last accepted publish at once answers its cursor again, also after the task became terminal. |
| BridgeState.Bridge.Initialize | sdks/go/runner/redis_bridge.go:31-45 | In place: the state and the reply of the initialize script. |
| BridgeLaws.InitializeMeans | sdks/go/runner/redis_bridge.go:31-45 | The first initialization stores the start under the next cursor and sets every field of the hash; any later one is refused and changes nothing. |
| BridgeState.Bridge.Publish | sdks/go/runner/redis_bridge.go:47-68 | In place: the state and the reply of the publish script, in every branch; a repeat is the same stored text, not the same event. |
| BridgeLaws.PublishMeans | sdks/go/runner/redis_bridge.go:47-68 | Every reply with its exact condition, and the whole state after it: a fresh event is stored and noted, status and model untouched; anything else changes nothing. |
| BridgeLaws.CursorMeansStored | sdks/go/runner/redis_bridge.go:47-68 | A cursor in a reply is the cursor of that very event in the log, for a repeat too. |
| BridgeLaws.NextIdMeans | sdks/go/runner/redis_bridge.go:35-35 | A generated cursor is the least one past the last that is not before the clock. |
| BridgeState.Bridge.MarkTerminal | sdks/go/runner/redis_bridge.go:70-82 | In place: the state and the reply of the terminal script, in every branch. |
| BridgeLaws.MarkTerminalMeans | sdks/go/runner/redis_bridge.go:70-82 | Every reply with its exact condition; success stores the very status asked for, and nothing else changes. |
| BridgeLaws.FinalStatus | sdks/go/runner/redis_bridge.go:70-82 | Over any interleaving, a task ends terminal exactly when a call to mark it succeeded, and under the status of every call that did. |
| BridgeState.Bridge.EventsThrough | sdks/go/runner/redis_bridge.go:181-190 | On a log in cursor order, a prefix: exactly the entries whose cursor is not after the given one, or all of them. |
| BridgeState.Bridge.Read | sdks/go/runner/redis_bridge.go:192-211 | A prefix of what follows the cursor, at most the read count, and not empty when something follows. |
| ReplayerState.SnapshotThrough | sdks/go/runner/replay.go:118-146 | Finds the cursor exactly when an entry has it, and folds exactly the entries up to and including that one. |
| ReplayerState.DeliverBatch | sdks/go/runner/replay.go:74-92 | A batch is delivered in order without gap or duplicate, later starts aside on resume, up to its first end, the first undecodable entry or the client's disconnect. |
| ReplayerState.Stream | sdks/go/runner/replay.go:29-116 | While producers append: deliveries are each later entry once and in order, with pings between; the return is normal only after one final end, the first stored one or a synthetic one once a terminal task's whole log was consumed; every error return has its cause (the very next entry, or one the cursor covers, does not decode; the cursor is unknown; its model cannot be rebuilt; the client refused a delivery); on a terminal task with decodable entries and a willing client it does return normally, within as many rounds as entries remain; and on a live one it keeps delivering: when its rounds run out, each has brought it an entry further or the log it found is consumed, no consumed terminal task is left behind, and a ping went out in exactly the rounds where one was due. |
| ResumeLaws.StoredExactly | sdks/go/runner/replay.go:74-92 | Entry by entry, what is delivered of a log: each once, as stored and in its place, except starts on a resume and nothing but those. |
| ReplayerState.FailureHasItsEntry | sdks/go/runner/replay.go:118-146 | A rebuild that fails does so at the first entry that does not decode or is refused by the reducer, and reports which of the two. |
| ResumeLaws.RebuildIsTheFold | sdks/go/runner/replay.go:118-146 | A snapshot handed to a resuming client is the fold of all entries its cursor covers. |
| ResumeLaws.RebuiltNumber | sdks/go/runner/replay.go:118-146 | The number of a rebuilt start is that of the last covered entry that is not a ping. |
| ResumeLaws.RebuildIsApplyAll | sdks/go/runner/replay.go:126-140 | Rebuilding succeeds exactly when the reducer accepts the decoded entries in order, and gives its result. |
| ResumeLaws.ConnectionKeepsSync | sdks/go/runner/replay.go:43-92 | One connection, cut after any delivery, leaves the client's model equal to the fold of the log up to its last cursor. |
| ResumeLaws.ResumeRefinesUninterrupted | sdks/go/runner/replay.go:43-92 | After any number of disconnects and resumes from the last cursor received, and after every delivery of one more connection, the client's model is the fold of the whole log up to its cursor. |
| ResumeLaws.SessionsAgree | sdks/go/runner/replay.go:43-92 | Two clients with the same last cursor hold the same model, however often each reconnected. |
| ResumeLaws.ResumeIsNeverRejected | sdks/go/runner/replay.go:46-53 | On a log that starts with a start, is accepted and keeps the typed fields, a resume from every cursor gets a start that validates. |
| ResumeLaws.ResumeSafeExactly | sdks/go/runner/replay.go:79-82 | Skipping starts on resume gives the fold from every valid model if and only if no start follows the cursor. |
| Reconnects.KeepReconnecting | sdks/go/runner/replay.go:29-116 | Connecting again and again through the loop itself, while producers append, is such a session, and its client is in step with the final log when that has no later start; every attempt that ran out of rounds got as many entries further or to the end, and one that broke off delivered all the client would take. |
| Reconnects.ReconnectToTheEnd | sdks/go/runner/replay.go:29-116 | However the earlier attempts broke off, a last one with rounds and room enough finishes if the task is terminal by then and its log well typed; and whenever the last attempt finished, the client stands at the end of a terminal task's log or right after a stored end, so that where no entry follows a stored end its model is the fold of the whole log. |
| JsonText.EscapingGrows | sdks/go/storage/frame.go:53-54 | The escaped size of valid UTF-8 is never below its byte length. |
| Utf8.ValidIsEncoded | sdks/go/storage/frame.go:117-119 | Valid UTF-8 is exactly what sequences of Unicode scalar values encode to. |
| ReadingLaws.QuotedReadsBack | sdks/go/storage/frame.go:62-63 | A string reader that undoes escapes up to the first unescaped quote returns the quoted text and what follows it. |
| ReadingLaws.CostTable | sdks/go/storage/frame.go:62-63 | What each character costs once escaped: two, six or its own length, by the characters JSON, HTML and line separators need escaped. |
| ReadingLaws.EscapedIsSafe | sdks/go/storage/frame.go:62-63 | No escaped text holds a control character, an HTML character or a line separator. |
| Frames.LongestFitIsLongest | sdks/go/storage/frame.go:55-69 | No boundary past the prefix taken is within the budget. |
| Framing.TakePrefix | sdks/go/storage/frame.go:55-72 | The binary search over byte offsets, rounding down to character starts, returns the longest character-aligned prefix whose escaped length fits. |
| FrameLaws.GreedyFailsExactly | sdks/go/storage/frame.go:70-72 | The greedy loop fails if and only if some character of the text does not fit on its own. |
| FrameLaws.GreedyIsFewest | sdks/go/storage/frame.go:51-79 | Otherwise no character-aligned split that fits has fewer parts. |
| FrameLaws.FramesWithinLimit | sdks/go/storage/frame.go:40-50 | Every frame, with its final seq, total and escaped data, encodes to at most maxBytes. |
| FrameLaws.LimitExactly | sdks/go/storage/frame.go:40-50 | A frame is within maxBytes if and only if its escaped data is within the budget plus the digits its numbers leave unused. |
| FrameLaws.FramingRefusesExactly | sdks/go/storage/frame.go:35-50 | Exactly when a block is refused as no block, and exactly when the limit cannot hold the envelope. |
| ReadingLaws.FrameReadsBack | sdks/go/storage/frame.go:23-30 | The encoding of a frame of valid strings is read as that very frame, with nothing left over. |
| ReadingLaws.FramesReadBack | sdks/go/storage/frame.go:73-83 | The frames of a block carry the drawn random bytes as id, its id, their position and number, and data that joins to the block; and each reads back from its encoding. |
| FrameLaws.FramingIsBestPossible | sdks/go/storage/frame.go:35-84 | Past the envelope, framing fails exactly for an oversized character and otherwise uses the fewest frames. |
| Framing.Frame | sdks/go/storage/frame.go:35-84 | The loops compute the framing those laws are about, in every branch. |
| FrameLaws.PositionsAreAll | sdks/go/storage/frame.go:96-105 | n distinct positions below n are all of them. |
| FrameLaws.AcceptedGroups | sdks/go/storage/frame.go:89-115 | For any frame list, acceptance means positions 0..n-1 once each, distinct ids, one block id, and the data joined in position order, whose own id is that block id. |
| FrameLaws.UnframeExactly | sdks/go/storage/frame.go:89-115 | Reassembly gives a block if and only if the frames can be put in position order so that types, totals, ids and data are right and the joined data is that block under their block id. |
| FrameLaws.UnframeIsUnordered | sdks/go/storage/frame.go:86-115 | Acceptance and result are unchanged by permuting the frames. |
| FrameLaws.RoundTrip | sdks/go/storage/frame.go:34-115 | For every block, every limit at which framing succeeds and every permutation of the frames, reassembly returns the original bytes. |
| Framing.FillSlots | sdks/go/storage/frame.go:93-105 | The loop with its seen ids and its empty-string slots accepts exactly the well-formed groups and fills every slot. |
| Framing.Unframe | sdks/go/storage/frame.go:89-115 | Reassembly computes what those laws are about, in every branch. |
| Emitter.PatchEmitter.Start | sdks/python/src/agentue/emitter.py:28-47 | The offset advances by one or jumps to a given number, never back; a number below the offset raises and changes nothing. |
| Emitter.PatchEmitter.Patch | sdks/python/src/agentue/emitter.py:49-120 | A set, append or error takes the next number whether or not the event validates. |
| Emitter.PatchEmitter.Ping | sdks/python/src/agentue/emitter.py:126-130 | A ping repeats the offset and leaves it. |
| Emitter.PatchEmitter.End | sdks/python/src/agentue/emitter.py:132-134 | An end takes the next number. |
| Emitter.CallMeans | sdks/python/src/agentue/emitter.py:28-134 | What each call gives: a start that brings a number not below the offset gets that very number and moves the offset to it, a smaller one raises and moves nothing; a patch keeps its content under the next number. |
| Emitter.NumbersNeverGoBack | sdks/python/src/agentue/emitter.py:24-134 | Over any calls, numbers never decrease and lie within the offsets; they strictly increase if no call is a ping or a start that brings its own number. |
| Emitter.CallClimbsExactly | sdks/python/src/agentue/emitter.py:28-134 | A returned event is numbered past the offset if and only if its call takes a fresh number or is a start that brings a greater one; and past the last number returned, exactly then or when a number in between was taken and never returned. |
| Emitter.RunClimbsExactly | sdks/python/src/agentue/emitter.py:28-134 | The numbers of a run of calls strictly increase if and only if every call does so. |
| Emitter.OwnNumberCanRepeat | sdks/python/src/agentue/emitter.py:34-39 | A start that brings the current offset repeats the last number. |
| RunnerState.Runner.PublishStartEvent | sdks/python/src/agentue/runner/runner.py:284-289 | In place: a start takes a fresh number, is applied, then published, and counts as published only once acknowledged. |
| RunnerState.Runner.RunBusiness | sdks/python/src/agentue/runner/runner.py:252-263 | In place: the stream loop, with each way an item can end it. |
| RunnerState.Runner.FinalizeRun | sdks/python/src/agentue/runner/runner.py:297-346 | In place: complete, then the error of a failed run, then an end unless the error was not stored, then the status. |
| RunnerState.Runner.Execute | sdks/python/src/agentue/runner/runner.py:98-250 | In place: the whole run is the function the following laws are about, an execute task that never reaches finalize included. |
| RunLaws.RunLog | sdks/python/src/agentue/runner/runner.py:297-346 | A run stores what its lead-up stored and then exactly its control events: an error first in a failed run, an end after it only if the error was acknowledged, an end alone otherwise, each only if its publish stores. |
| RunLaws.FinalizeLog | sdks/python/src/agentue/runner/runner.py:303-336 | Finalize adds exactly those events, hands complete the snapshot once, and marks failed or completed by whether anything raised, unless it is cut short or the marking fails. |
| RunOutcomes.FailedStart | sdks/python/src/agentue/runner/runner.py:131-134 | When the first start is not acknowledged, exactly the tries that store are in the log, under different numbers, and the snapshot is the model if it validates. |
| RunOutcomes.LogShape | sdks/python/src/agentue/runner/runner.py:128-346 | Whichever callbacks raise and publishes fail, the log reads start? (set or append)* error? end?, patches only after a start, if and only if no start was stored unacknowledged and then stored again; a failed run stores end only after error, a completed one no error, and control events only after complete was called. |
| RunOutcomes.StartCanBeStoredTwice | sdks/python/src/agentue/runner/runner.py:131-133 | For every valid model, a run that stores a start, a second start, an error and an end. |
| RunOutcomes.CompleteIsCalledOnce | sdks/python/src/agentue/runner/runner.py:111-250 | complete is called exactly once in every run, except when a valid start is not acknowledged and its second try is cancelled, or when the start is acknowledged and the execute task never reaches finalize; then never. |
| RunOutcomes.CompleteCanBeSkipped | sdks/python/src/agentue/runner/runner.py:131-250 | For every valid model, a run of either kind that never calls complete. |
| RunFold.CompleteSeesTheFold | sdks/python/src/agentue/runner/runner.py:252-311 | When complete is called the log holds exactly the start, every item reached, and the item that ended the loop if its publish stored it (or the stored tries at a start); the snapshot handed over is the fold of that log and of the item, or second start, applied after it and not stored, if there is one; without initialize it is absent and nothing is stored; a run that never finalizes stores that much and no more. |
| RunFold.ReachedIsLongest | sdks/python/src/agentue/runner/runner.py:254-263 | The items reached are the longest prefix whose patches are delivered, numbered upwards and accepted one after another. |
| RunFold.ControlsAreNumberedOn | sdks/python/src/agentue/runner/runner.py:297-346 | The events finalize stores are numbered on from the sum of all numbers that start, callbacks and stream took, and an error among them carries the failure. |
| RunFold.TailIsNumberedOn | sdks/python/src/agentue/runner/runner.py:313-346 | The same of the events handed to the live consumer, stored or not. |
| RunOrder.SeqOrder | sdks/python/src/agentue/runner/runner.py:252-346 | Start, retry and patches are stored with increasing numbers; the whole log increases if and only if no control event follows them or their last number is not past the emitter's offset after complete; it does whenever every yield carries a number the emitter has issued. |
| RunOrder.SelfNumberedBreaksOrder | sdks/python/src/agentue/runner/runner.py:256-263 | For every model and every number from 2 on, a stream that yields one block under that number completes with a log out of order. |
| RunOrder.CompletedExactly | sdks/python/src/agentue/runner/runner.py:207-336 | A run is marked completed if and only if the start and every yield were acknowledged, yields were numbered upwards and accepted in order, nothing raised, was stopped or abandoned, and the marking succeeded; its log then holds the start, every yield in order, and the end if stored. |
| RunOrder.LiveTail | sdks/python/src/agentue/runner/runner.py:313-336 | A finalize that returns hands over an end, last, after the error of a failed run; an event is flagged persisted exactly if its publish and any before it was acknowledged, it is then in the log, and none flagged follows one that is not. |
| RecoveryState.RedisBridge.Initialize | sdks/python/src/agentue/runner/redis_bridge.py:57-63 | In place: status, number, model and heartbeat are set; the stream is not. |
| RecoveryState.RedisBridge.ClaimRecovery | sdks/python/src/agentue/runner/redis_bridge.py:96-103 | The claim is won exactly when it was free, and is taken either way. |
| RecoveryState.RedisBridge.RecoverTask | sdks/python/src/agentue/runner/runner.py:388-411 | In place: complete is called, then start if no number is known, error and end are appended and the task is marked failed; an invalid stored model raises before anything is appended. |
| RecoveryState.RedisBridge.RecoverTimeouts | sdks/python/src/agentue/runner/runner.py:145-160 | In place: the whole effect of one sweep, in every branch. |
| SweepLaws.LiveTaskIsLeftAlone | sdks/python/src/agentue/runner/redis_bridge.py:91-103 | A task that beat less than the timeout ago, has no heartbeat or is claimed is left exactly as it is. |
| SweepLaws.OverdueTaskIsRecovered | sdks/python/src/agentue/runner/runner.py:145-160 | An unclaimed task whose heartbeat is at least the timeout old is recovered if and only if it runs and has a number, no model or a valid one; the other outcomes with their exact effect. |
| SweepLaws.RecoveredEvents | sdks/python/src/agentue/runner/runner.py:388-411 | What recovery appends: numbered on from the last number, the stored model first if there was none, then an error for the timeout and an end. |
| SweepLaws.RecoveredModel | sdks/python/src/agentue/runner/runner.py:400-411 | Applied to any model, those events leave it, or the stored model, with the timeout at meta.error and otherwise unchanged. |
| SweepLaws.SweepingTwice | sdks/python/src/agentue/runner/runner.py:145-160 | After a sweep of an overdue task that did not raise, no later sweep does anything. |
| SweepLaws.BeatingTaskIsUntouched | sdks/python/src/agentue/runner/redis_bridge.py:91-94 | Over any interleaving, as long as every look is within the timeout of the heartbeat, idle scanners stay idle and the task stays as it is. |
| SweepLaws.OverdueTaskIsClaimed | sdks/python/src/agentue/runner/runner.py:148-150 | Past it, an idle scanner lists the task and wins its free claim. |
| SweepLaws.ErrorCarriesFailure | sdks/python/src/agentue/emitter.py:97-120 | An error event puts its failure at meta.error of whatever model it meets, and changes nothing else. |
| RecoveryState.SweepIsAlone | sdks/python/src/agentue/runner/runner.py:145-160 | That sweep is what a scanner of the interleaving model does when it takes all its commands by itself. |
| RecoveryState.AloneIsARun | sdks/python/src/agentue/runner/runner.py:145-160 | And those commands are a run of that model in which no other scanner moves. |
| RecoveryLaws.AtMostOneHolder | sdks/python/src/agentue/runner/runner.py:152-159 | Over any interleaving of any number of scanners, even when bridge calls raise, at most one is past the claim. |
| RecoveryLaws.RecoverySafety | sdks/python/src/agentue/runner/runner.py:145-160 | If the executor has stopped and bridge calls raise only at harmless stages: at most one scanner is past the claim, the log is the executor's and a prefix of one plan, complete is called before anything is appended and once more at most for every raise, and the task is failed only once the whole plan is stored. |
| RecoveryLaws.RaiseIsHarmlessExactly | sdks/python/src/agentue/runner/runner.py:400-411 | When a call of the claim's holder raises, the next recovery's log reads start?, patches, error, end if and only if the holder was before its first append, right after a noted start, or past the marking; its numbers increase if and only if it was not between an append and its note. |
| RecoveryLaws.RecoveredLogExactly | sdks/python/src/agentue/runner/runner.py:400-411 | The recovered log reads start?, patches, error, end if and only if no terminal event was stored and no stored start is unknown to the hash; its numbers increase if and only if the hash's number has caught up with the stream. |
| RecoveryLaws.StoppedRunRecovers | sdks/python/src/agentue/runner/runner.py:388-411 | A run stopped between any two turns of its stream loop and recovered by any scanners ends as its own log, error and end, in order. |
| RecoveryLaws.HolderFinishes | sdks/python/src/agentue/runner/runner.py:156-159 | From every state of a recovery, the claim's holder left to itself finishes within a bounded number of commands: the task is recovered and the claim free; one whose call raised gives the claim back at once. |
| RecoveryLaws.RaisedPublishRepeatsError | sdks/python/src/agentue/runner/runner.py:158-159 | If the publish of end raises, the claim is released over a running task and the next recovery appends a second error. |
| RecoveryLaws.UnmarkedRunIsRecoveredAgain | sdks/python/src/agentue/runner/runner.py:329-336 | A run that stored a terminal event but is still marked as running, because the marking failed or was cut off: over any interleaving of scanners, once the task is failed its log has grown and lost its shape. |
| RecoveryState.UnmarkedRunIsSweptAgain | sdks/python/src/agentue/runner/runner.py:145-160 | One sweep after its heartbeat expired does that. |
| Sse.EncodeSse | sdks/typescript/src/ui/sse.ts:12-22 | The loop over lines produces the encoded message, and refuses exactly an id with a line break. |
| Sse.DecodeSse | sdks/typescript/src/ui/sse.ts:24-41 | The loop over lines gathers the last id and every data line, and fails exactly when there is no data. |
| SseLaws.LineMeans | sdks/typescript/src/ui/sse.ts:28-36 | What any one line adds: a data line a value, an id line the id, with one space or none after the colon or no colon at all; blank lines, comments and other fields nothing. |
| SseLaws.DecodeMeans | sdks/typescript/src/ui/sse.ts:28-41 | A message of any lines decodes to its data values joined and its last id, and fails exactly without a data line. |
| SseLaws.TrimmedIsReceived | sdks/typescript/src/ui/sse.ts:20-28 | What two line splittings leave of a payload, read off the payload alone. |
| SseLaws.RoundTrip | sdks/typescript/src/ui/sse.ts:12-41 | For every payload and id: encoding fails only for an id with a line break; decoding returns the very id, and the very payload if and only if it has no CR LF and no CR at its end, so always without a CR. |
| SseLaws.CrLfIsLost | sdks/typescript/src/ui/sse.ts:20-20 | A JSON text with a CR LF comes back with an LF. |
| SseClient.ClientReceivesExactly | sdks/typescript/src/ui/sse.ts:12-22 | A standard client reading any stream of encoded messages dispatches exactly those messages, each under the latest id sent, if and only if no payload holds a CR and no id a NUL. |

## Left out

- ReplayerState.Stream: the source's loop has no bound; the model takes a finite schedule of rounds and says when it is long enough. A client is modelled by how many deliveries it accepts, and a failing bridge call by the schedule ending.
- RecoveryLaws.RecoverySafety: assumes that no claim expires while its holder works and that the executor does not come back; the Python bridge does not fence a revived executor. A call that raises has no effect of its own here, except that a publish may raise between its append and its note; a claim whose release raises stays taken until it expires, which is not modelled.
- RunOrder.LiveTail: which stored events a live consumer has seen by then is not modelled (`_stream_live` ends without a last read of the log).
- Emitter.PatchEmitter.Patch: the payloads of block_set, meta_set and block_append are given as an event to number; dumping typed blocks into JSON is not part of this model.
- SnapshotState.Snapshot.SetByMask: the snapshot changes in place, but blocks and nested objects are values, so aliasing between a payload and the stored model is not captured (the Python reducer copies deeply).
- In Go, appending an empty list to an absent or null field stores a nil slice; the model keeps the empty list, as the Python reducer does.
- The Runner's run uses the same reducer and validation as the Go parts. Python's own checks differ in details: an empty mask string, metadata that is not an object, and the stricter types of pydantic models.
- JSON parsing and printing: events are values, numbers keep their literal text, and a stored payload either decodes or does not. The texts of one event are told apart by a number, and 0 is the text that Marshal writes. For framing, whether bytes are a block and what its id is comes from a parameter.
- `stream_id`, `ts` and `event_type` of events, and routing by `stream_id`.
- Redis networking, key names, expiry, `Delete`, malformed cursor text, and the text of error messages.
- Sequence numbers and cursors are unbounded naturals; the source's are 64-bit and wrap nowhere in these operations.
- The random bytes of frame ids are a parameter assumed distinct in the round trip; a failing random source is not modelled.
- asyncio scheduling, the watchdog thread and the pulse and heartbeat loops: they appear as a run being stopped or abandoned, a publish being cut, or a heartbeat that has expired. A cancellation during `mark_terminal` is not modelled.
- RunnerState.Runner.Execute: a run whose `initialize` raises leaves no status in the model; in Redis the hash may have been written before a later command of `initialize` raised, and then it says running.
- Changes that callbacks make to `context.snapshot` directly.
- Scanners are modelled for one task; the keys of distinct tasks are distinct, and a scanner works on one task at a time.
- Parsing of the event inside `decodeSse`, the Python SSE encoder, and the TypeScript reducer, model, event and emitter files, which repeat the algorithms above.
