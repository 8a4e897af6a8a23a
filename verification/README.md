# Verified models of the wallpaper engine's stateful cores

This project models the parts of the wallpaper engine that keep state, parse untrusted bytes or speak a
protocol, and proves what each of them promises over every input and every run.

| file | models |
|---|---|
| `Playlist.dfy`, `PlaylistRuntime.dfy` | playlists, the choice of the next entry, and the playlist state machine |
| `PlaylistRuns.dfy`, `PlaylistTime.dfy` | what holds over runs of that machine; play time; snapshot and restore |
| `Codec.dfy`, `Transport.dfy`, `ReadBudget.dfy`, `Delivery.dfy` | the NUL-framed remote-debugging pipe, from `send` to the peer's decoder |
| `Connection.dfy` | request/response correlation and the event queue on top of it |
| `KeyValues.dfy`, `KeyValuesGrammar.dfy`, `KeyValuesExact.dfy`, `KeyValuesPrint.dfy` | the VDF reader, its grammar, its spellings and errors, and a printer for it |
| `Pkg.dfy`, `PkgProofs.dfy`, `Utf8.dfy` | the `scene.pkg` table reader and writer, and its text |
| `ApplyLane.dfy` | the manager's serialized request lane |
| `Capture.dfy`, `CaptureRuns.dfy` | the PCM capture ring, and what holds between its windows |
| `GeneralIr.dfy`, `Policy.dfy`, `Effects.dfy` | the IR's general block, playback policies, effect chains |

Objects that the source updates in place are classes, and loops are loops. Each method is proved equal to
a function of the old state, and the theorems are about those functions, over arbitrary sequences of
calls. The operating system, the socket and the timers are adversaries: every call takes as parameters
the answers its system calls get, and runs range over all of them.

`dafny verify dfyconfig.toml` checks the project. Lemmas carry `{:induction false}` so that each proof is
the one written down, and proofs `hide` the definitions they do not need.

## Where the code and its comments differ

The model follows the code. Each item names the lemma that settles it.

- The write backlog is documented as bounded (`transport.rs:7-9`). Pending bytes are, but the stored
  buffer is emptied only when nothing at all is pending. It is exactly the pending bytes and everything
  written since nothing was last pending (`Delivery.StoredExactly`), and a peer that always leaves one byte
  unread makes it grow without limit (`Delivery.StoredBacklogUnbounded`).
- Reads are documented as capped at 64 KiB a call (`transport.rs:9`). The budget stops a call only when reads
  meet it to the byte; when they step over it, the subtraction wraps and the call goes on:
  `ReadBudget.KeepsToBudgetExactly`, `ReadBudget.BudgetSteppedOver`.
- A body with a NUL byte passes `send` and reaches the peer as several messages. Delivery is exact if, and
  only if, no accepted body has one: `Delivery.DrainedLinkDeliversAll`, `Delivery.NulBodySplits`.
- A bad message loses the rest of its batch: `ConnectionRuns.BatchStopsAtBad`,
  `ConnectionRuns.GoodMessageLost`.
- The VDF tokenizer never returns on a form feed outside quoted text and comments, because that byte ends
  bare text but is not skipped as a blank; `KeyValuesGrammar.ReturnsExactly` has the exact condition.
- Quoted VDF text is read byte by byte as Latin-1, so a printed tree reads back unchanged if, and only if,
  all its keys and texts are ASCII: `KeyValuesPrint.PrintedReadsBack`, `KeyValuesPrint.AccentMisread`. The
  trailing-token check after the root object (`keyvalues.rs:75-83`) can never fail:
  `KeyValuesGrammar.GrammarExact`.
- A stored payload that starts like an LZ4 frame is read decoded when it decodes:
  `PkgProofs.EntryReadsBack`, `PkgProofs.PayloadReadDecoded`. An entry's own path can be ambiguous:
  `PkgProofs.OwnPathResolves`, `PkgProofs.OwnPathAmbiguous`.
- The IR's promised round trip (`ir.rs:1543-1553`) holds for the general block exactly when colour and
  frame rate stay finite in 32 bits and both dimensions survive 32-bit floats:
  `GeneralIrs.GeneralRoundTripExact`, `GeneralIrs.HalfPixelLost`.
- The capture ring says a bad sample is dropped with its pair partner (`main.rs:569-573`). It is dropped
  with the sample after it, which is the partner exactly when the bad one is a left sample
  (`CaptureRuns.BadSampleTakesNext`, `CaptureRuns.PartnersParted`). Every kept sample keeps its channel, but
  a window starts on the wrong one exactly when an odd number of samples was kept
  (`CaptureRuns.WindowAlignedExactly`, `CaptureRuns.WindowOnRightSample`).
- An override's `textures` win over its `usertextures`, and a material's own `usertextures` are not read,
  against `sceneeffect.rs:16-19`. The names agree with the documented order exactly when no slot is
  contested (`Effects.DocumentedNamesExact`); when the resolved slots do, and when a dropped pass would be
  dropped, is settled by `Effects.DocumentedOrderExact`, `Effects.OverrideTexturesWin` and
  `Effects.DroppedForTextures`.

## Model

| member | source | states |
|---|---|---|
| Playlists.Validate | crates/kwe-core/src/playlist.rs:190-214 | Accepts exactly the valid playlists (identity, entry limit, distinct well-formed entries, timing), else reports the first check that fails; invalid input is an error, never excluded |
| Playlists.LimitsExact | crates/kwe-core/src/playlist.rs:190-214 | The limits of a valid playlist, in numbers |
| Playlists.FaultExact | crates/kwe-core/src/playlist.rs:190-214 | The fault reported is that of the first check that fails; a repeated or badly named entry is one |
| Playlists.NextEligibleIndex | crates/kwe-core/src/playlist.rs:220-258 | The loops compute the selection function, shuffled or sequential, for any current index, seed and exclusions |
| Playlists.ScanExact | crates/kwe-core/src/playlist.rs:246-258 | From any point of the scan on, the result is the candidate nearest in playing order, and nothing is skipped |
| Playlists.SelectionExact | crates/kwe-core/src/playlist.rs:220-258 | With at most 1024 exclusions: nothing is chosen iff no permitted entry is eligible; sequential play takes the nearest one in (cyclic or linear) order; shuffle stays on the current entry only when no other is left |
| Playlists.ShuffleExact | crates/kwe-core/src/playlist.rs:236-245 | A shuffle takes, of the other eligible entries, the one with exactly `mix mod count` of them before it |
| Playlists.MixExact | crates/kwe-core/src/playlist.rs:241-242 | Bit k of the mixed seed is bit k of the seed against bit k - 17, around the 64 bits |
| PlaylistRuntimes.PlaylistRuntime.constructor | crates/kwe-core/src/playlist_runtime.rs:117-127 | A new runtime has no current entry, no time and no history |
| PlaylistRuntimes.PlaylistRuntime.Start | crates/kwe-core/src/playlist_runtime.rs:129-144 | Leaves exactly the state of `Runtime.Start`: history cleared, first entry selected; nothing changes on an error |
| PlaylistRuntimes.PlaylistRuntime.Tick | crates/kwe-core/src/playlist_runtime.rs:146-182 | Leaves exactly the state of `Runtime.Tick`: stays paused, waits, or selects when the deadline passed or the entry became unavailable; nothing changes on an error |
| PlaylistRuntimes.PlaylistRuntime.Pause | crates/kwe-core/src/playlist_runtime.rs:184-200 | Freezes the remaining time once; pausing again keeps it |
| PlaylistRuntimes.PlaylistRuntime.Resume | crates/kwe-core/src/playlist_runtime.rs:202-218 | Turns the frozen remainder into a deadline from now |
| PlaylistRuntimes.PlaylistRuntime.TakeSnapshot | crates/kwe-core/src/playlist_runtime.rs:230-262 | Captures durations and position, validates them, and reads without changing anything |
| PlaylistRuntimes.PlaylistRuntime.Restore | crates/kwe-core/src/playlist_runtime.rs:268-290 | Re-anchors the stored remainder at the given time and reconciles; an invalid or foreign snapshot changes nothing |
| PlaylistRuntimes.PlaylistRuntime.Select | crates/kwe-core/src/playlist_runtime.rs:292-341 | Excludes unavailable entries and, without repeat, played ones; advances seed, deadline and bounded history together |
| PlaylistRuntimes.PlaylistRuntime.ObserveTime | crates/kwe-core/src/playlist_runtime.rs:351-357 | Time is recorded iff it does not regress |
| PlaylistRuntimes.PlaylistRuntime.ReconcileCurrent | crates/kwe-core/src/playlist_runtime.rs:359-379 | The current wallpaper is found again in an edited playlist, or position and timing are cleared |
| PlaylistRuntimes.ReconcileExact | crates/kwe-core/src/playlist_runtime.rs:359-379 | A wallpaper the playlist still has keeps position and timing, at an index that names it; a lost one takes both with it; nothing else changes |
| PlaylistRuntimes.Exclusions | crates/kwe-core/src/playlist_runtime.rs:299-307 | The exclusions are exactly the entries that are unavailable or, without repeat, already played, and never more than the entries |
| PlaylistRuns.SelectKeepsSound | crates/kwe-core/src/playlist_runtime.rs:292-341 | A selection keeps the reachable-state invariant |
| PlaylistRuns.StepKeepsSound | crates/kwe-core/src/playlist_runtime.rs:129-290 | Every call keeps the invariant: a current entry has an id and a deadline or remainder at most 24 h from the last time, history is bounded and well-formed |
| PlaylistRuns.ReachableSound | crates/kwe-core/src/playlist_runtime.rs:129-290 | Every state reachable by any calls with any playlists and snapshots satisfies the invariant |
| PlaylistRuns.AnswersNameEntries | crates/kwe-core/src/playlist_runtime.rs:129-218 | A decision's index is in range and names its wallpaper id; a refused call leaves the state unchanged |
| PlaylistRuns.SnapshotAlwaysValid | crates/kwe-core/src/playlist_runtime.rs:230-262 | After any run, a snapshot at a non-regressing time never fails its own validation |
| PlaylistRuns.SnapshotValidationExact | crates/kwe-core/src/playlist_runtime.rs:35-75 | Exactly the snapshots with a known schema, valid names, a bounded history, and a position and one remaining time together pass |
| PlaylistRuns.SnapshotFaultExact | crates/kwe-core/src/playlist_runtime.rs:35-75 | The fault reported for a snapshot is that of its first failing check |
| PlaylistRuns.SelectExact | crates/kwe-core/src/playlist_runtime.rs:292-349 | A selection plays some entry the mode allows, available and unplayed unless repeating, in full from now, iff there is one; else nothing plays and the answer says exhausted or nothing eligible |
| PlaylistRuns.StartExact | crates/kwe-core/src/playlist_runtime.rs:129-144 | `start` selects as if nothing had been played |
| PlaylistRuns.TickExact | crates/kwe-core/src/playlist_runtime.rs:146-182 | A tick in time keeps a paused entry paused, waits on an available one with time left, and otherwise selects; an entry reported unavailable is left at once |
| PlaylistRuns.NothingPlaying | crates/kwe-core/src/playlist_runtime.rs:184-218 | With no current entry left, pausing and resuming answer exhausted or nothing eligible and change nothing but the time |
| PlaylistRuns.RefusedExactly | crates/kwe-core/src/playlist_runtime.rs:129-290 | A call is refused iff a check fails, with the first failing one, changing nothing; an accepted one records its time |
| PlaylistRuns.SelectPlaysNew | crates/kwe-core/src/playlist_runtime.rs:292-341 | Without repeat a selection takes an unplayed entry, and neither the 1024-entry eviction nor the exclusion cut takes effect |
| PlaylistRuns.NoEntryPlaysTwice | crates/kwe-core/src/playlist_runtime.rs:292-341 | From `start` with a fixed non-repeating playlist, in any run, shuffled or not, history is the list of selections, free of duplicates and no longer than the playlist |
| PlaylistRuns.SelectTakesNext | crates/kwe-core/src/playlist.rs:246-258 | With everything available, repeating sequential selection takes the entry after the current one, modulo the length |
| PlaylistRuns.StepTakesNext | crates/kwe-core/src/playlist_runtime.rs:146-218 | A call keeps the current entry or advances to the next in the cycle |
| PlaylistRuns.PlaysRoundRobin | crates/kwe-core/src/playlist_runtime.rs:292-341 | Over any run, selection k of a repeating sequential playlist is entry k mod n |
| PlaylistTime.StepConserves | crates/kwe-core/src/playlist_runtime.rs:146-218 | Each tick, pause or resume agrees with an independent stopwatch; an entry is left exactly by the tick at which its unpaused time has reached the duration |
| PlaylistTime.RunConserves | crates/kwe-core/src/playlist_runtime.rs:146-218 | The same over any sequence of calls that keeps the entry |
| PlaylistTime.PlayTimeConserved | crates/kwe-core/src/playlist_runtime.rs:146-218 | From the selection of an entry, every answer reports max(0, duration - unpaused time), and a tick leaves the entry iff it plays and that time is used up; the playlist may be edited meanwhile |
| PlaylistTime.RestoreSimilar | crates/kwe-core/src/playlist_runtime.rs:230-290 | Restoring a snapshot gives a state similar to the reconciled original, moved to the new clock |
| PlaylistTime.StepSimilar | crates/kwe-core/src/playlist_runtime.rs:129-218 | Similar states stay similar and answer alike, deadlines equal up to the shift |
| PlaylistTime.RunSimilar | crates/kwe-core/src/playlist_runtime.rs:129-218 | Hence over any sequence of calls |
| PlaylistTime.ReconcileEarly | crates/kwe-core/src/playlist_runtime.rs:359-379 | Reconciling at restore time rather than at the next call is invisible to calls with the same playlist |
| PlaylistTime.RestoredRunsAlike | crates/kwe-core/src/playlist_runtime.rs:146-290 | Snapshot at t, restore at t' into any runtime: every later run answers as on the original with deadlines shifted by t' - t, expired deadlines and paused entries included |
| Codec.FirstNul | crates/kwe-cdp/src/codec.rs:56-57 | The first NUL, or none in the whole input |
| Codec.Decoder.constructor | crates/kwe-cdp/src/codec.rs:39-47 | A new decoder has buffered and produced nothing |
| Codec.Decoder.Push | crates/kwe-cdp/src/codec.rs:51-73 | Resuming at the remembered position gives the messages, remainder and verdict of scanning the whole buffer from its start |
| Codec.Decoder.TakeMessages | crates/kwe-cdp/src/codec.rs:76-78 | Hands over the messages once and keeps the buffer |
| Codec.ResumeScan | crates/kwe-cdp/src/codec.rs:56-57 | The bytes before the resume position never hold the first NUL |
| Codec.DrainMeaning | crates/kwe-cdp/src/codec.rs:51-73 | Nothing is lost or invented; messages are NUL-free and within the bound; failure means exactly that some NUL-free run is too long |
| Codec.DrainInSteps | crates/kwe-cdp/src/codec.rs:51-73 | Decoding a stream in two parts is decoding it whole |
| Codec.PoisonStays | crates/kwe-cdp/src/codec.rs:58-71 | A buffer starting with an over-long run yields nothing ever again |
| Codec.SplitUnique | crates/kwe-cdp/src/codec.rs:17-22 | A stream splits into NUL-terminated bodies in one way only |
| Codec.ChunksDoNotMatter | crates/kwe-cdp/src/codec.rs:51-73 | However a stream is cut into pushes, messages and buffer are those of the whole stream |
| Codec.DecoderExact | crates/kwe-cdp/src/codec.rs:51-78 | Some push fails iff some NUL-free run exceeds the bound; otherwise the messages are the NUL-split of the stream |
| Codec.FailureIsFinal | crates/kwe-cdp/src/codec.rs:51-73 | After the first failure no message is produced and every later non-empty push fails |
| Transport.PipeTransport.constructor | crates/kwe-cdp/src/transport.rs:53-67 | A new transport has an empty backlog, an empty decoder and no end of stream |
| Transport.PipeTransport.FlushWrites | crates/kwe-cdp/src/transport.rs:131-176 | For any answers of `write` and `poll`: exactly the accepted prefix of the pending bytes reaches the wire, and the result is that of `Flush` |
| Transport.PipeTransport.Send | crates/kwe-cdp/src/transport.rs:94-109 | Refuses oversized bodies and a full backlog without a change; otherwise queues the framed body and ignores the flush's outcome |
| Transport.PipeTransport.ReadAvailable | crates/kwe-cdp/src/transport.rs:178-211 | For any arrivals: what was read is decoded in order until blocked, end of stream, an error, an oversized message, or a budget of exactly zero |
| Transport.PipeTransport.Poll | crates/kwe-cdp/src/transport.rs:76-88 | Flush, read, hand over messages; after the end of stream only an error |
| Transport.FlushTurn | crates/kwe-cdp/src/transport.rs:132-175 | One answer of `write` does to the pipe what one turn of the flush loop does, in every branch |
| Transport.ReceiveTurn | crates/kwe-cdp/src/transport.rs:187-211 | The same for one answer of `read` |
| ReadBudget.BudgetCuts | crates/kwe-cdp/src/transport.rs:187-196 | The budget ends a call at the first answer after which the bytes offered come to exactly the budget, and otherwise does nothing |
| ReadBudget.KeepsToBudgetExactly | crates/kwe-cdp/src/transport.rs:187-196 | A call reads at most 64 KiB iff some first answers offer 64 KiB to the byte, or it would read no more without a budget |
| ReadBudget.BudgetSteppedOver | crates/kwe-cdp/src/transport.rs:187-196 | Seventeen reads of 4095 bytes are all taken in one call |
| Delivery.FlushKeepsOutbound | crates/kwe-cdp/src/transport.rs:131-176 | Flushing moves bytes from pending to the wire without loss or reordering |
| Delivery.SendKeepsOutbound | crates/kwe-cdp/src/transport.rs:94-109 | Wire plus pending is always the encoding of the accepted bodies, with at most 4 MiB pending |
| Delivery.PollKeepsBoth | crates/kwe-cdp/src/transport.rs:76-88 | A poll keeps both directions' accounts, and reports the end of stream only after everything read was handed over |
| Delivery.PrefixFits | crates/kwe-cdp/src/transport.rs:94-109 | No prefix of what was accepted holds an over-long run |
| Delivery.HappenKeepsLinked | crates/kwe-cdp/src/transport.rs:76-211 | Every send, poll or peer read keeps the link invariant |
| Delivery.AlwaysLinked | crates/kwe-cdp/src/transport.rs:76-211 | The link invariant holds after every run |
| Delivery.PeerDecodesPrefix | crates/kwe-cdp/src/transport.rs:94-176 | In every interleaving the peer's decoder never rejects a message, its messages are a prefix of the accepted NUL-free bodies, and at most 4 MiB is pending |
| Delivery.DrainedLinkDeliversAll | crates/kwe-cdp/src/transport.rs:94-176 | Once all is flushed and read, the peer has exactly the accepted bodies iff none contains a NUL |
| Delivery.InboundInOrder | crates/kwe-cdp/src/transport.rs:76-88 | Received messages are delivered in order, once each, all of them before the end of stream is reported |
| Delivery.PollDeliversAll | crates/kwe-cdp/src/transport.rs:76-88 | Every poll that succeeds has handed over all messages read so far |
| Delivery.PollReads | crates/kwe-cdp/src/transport.rs:76-88 | A poll flushes, then waits, then reads, each failure ending it with its own error; after the end of stream it does nothing |
| Delivery.SendExact | crates/kwe-cdp/src/transport.rs:94-109 | `send` takes exactly the bodies within the message bound and the backlog bound, and puts body and NUL behind what is pending |
| Delivery.OneWrite | crates/kwe-cdp/src/transport.rs:131-176 | A partial write takes that many bytes from the front and leaves the rest pending |
| Delivery.WillingSystem | crates/kwe-cdp/src/transport.rs:131-176 | A system that takes all it is offered leaves nothing pending |
| Delivery.StoredBacklogUnbounded | crates/kwe-cdp/src/transport.rs:94-109 | A concrete run for every n after which the stored buffer holds n + 1 bytes with one pending |
| Delivery.StoredExactly | crates/kwe-cdp/src/transport.rs:94-176 | In every run the stored buffer is the pending bytes plus everything written since nothing was last pending, and empty iff nothing is; so it passes 4 MiB by no more than what was written in between |
| Delivery.NulBodySplits | crates/kwe-cdp/src/transport.rs:94-109 | An accepted body of one NUL byte, all written and read, arrives as two empty messages |
| Connections.Connection.constructor | crates/kwe-cdp/src/connection.rs:84-92 | A new connection has no ids, slots or events |
| Connections.Connection.SendRequest | crates/kwe-cdp/src/connection.rs:96-121 | Refuses a 65th request; otherwise allocates an id, sends, and registers the slot only if the transport accepted |
| Connections.Connection.Poll | crates/kwe-cdp/src/connection.rs:125-130 | Routes the polled messages in order until the first bad one |
| Connections.Connection.RouteMessage | crates/kwe-cdp/src/connection.rs:179-222 | A reply fills only the slot with its id and session; an unmatched one changes nothing; a notice is queued |
| Connections.Connection.EnqueueEvent | crates/kwe-cdp/src/connection.rs:224-230 | Drops the oldest event and counts it when 64 are queued |
| Connections.Connection.TakeResponse | crates/kwe-cdp/src/connection.rs:135-140 | Hands out an answered slot and removes it |
| Connections.Connection.DiscardPending | crates/kwe-cdp/src/connection.rs:144-148 | Removes the slot of the id, if any |
| Connections.Connection.PopEvent | crates/kwe-cdp/src/connection.rs:151-153 | Pops the oldest event |
| Connections.Position | crates/kwe-cdp/src/connection.rs:135-148 | The position of the id's slot, or none has it |
| ConnectionRuns.IdCounts | crates/kwe-cdp/src/connection.rs:170-177 | The last id equals the number allocated, below 2^32 allocations |
| ConnectionRuns.IdsDistinct | crates/kwe-cdp/src/connection.rs:170-177 | In any run of fewer than 2^32 allocations ids are non-zero and increasing |
| ConnectionRuns.IdCycles | crates/kwe-cdp/src/connection.rs:170-177 | In every run, however long, the last id is the number allocated, cycling through 1 to 2^32 - 1 |
| ConnectionRuns.IdsRepeatExactly | crates/kwe-cdp/src/connection.rs:170-177 | In every run ids are non-zero, and two requests share one iff a multiple of 2^32 - 1 allocations lies between them |
| ConnectionRuns.AlwaysTracked | crates/kwe-cdp/src/connection.rs:96-222 | Every slot is the trace of one request, untouched since, and an answered slot of one matching message routed after it |
| ConnectionRuns.PendingBounded | crates/kwe-cdp/src/connection.rs:96-121 | At most 64 slots are pending in every run |
| ConnectionRuns.PendingDistinct | crates/kwe-cdp/src/connection.rs:96-121 | Pending slots have distinct ids while fewer than 2^32 are allocated |
| ConnectionRuns.ResponseCorrelates | crates/kwe-cdp/src/connection.rs:135-222 | A response handed out was routed after the request with its id and session, with no take or discard between |
| ConnectionRuns.TakenOnce | crates/kwe-cdp/src/connection.rs:135-140 | No two responses handed out in a run answer the same request |
| ConnectionRuns.NothingAfterDiscard | crates/kwe-cdp/src/connection.rs:144-148 | After `discard_pending` no response for the id is handed out |
| ConnectionRuns.SentExactly | crates/kwe-cdp/src/connection.rs:96-121 | A request is registered iff fewer than 64 wait and the transport accepts it |
| ConnectionRuns.RouteThenTake | crates/kwe-cdp/src/connection.rs:135-222 | Routing a reply that carries a pending id and session makes the next take of that id return exactly its payload |
| ConnectionRuns.StepKeepsSlot | crates/kwe-cdp/src/connection.rs:135-222 | A slot survives every operation but its own take or discard, and changes only by a reply with its id and session |
| ConnectionRuns.AnswerReaches | crates/kwe-cdp/src/connection.rs:96-222 | In any run, a take of a request not taken or discarded since returns the last reply routed for its id and session, and nothing iff there was none |
| ConnectionRuns.EnqueueExact | crates/kwe-cdp/src/connection.rs:224-230 | An arriving event pushes one out iff 64 are queued, and then the oldest |
| ConnectionRuns.EventsConserved | crates/kwe-cdp/src/connection.rs:224-230 | The queue is the most recent part of all arrived events, at most 64; popped + dropped + queued = arrived |
| ConnectionRuns.PopsInOrder | crates/kwe-cdp/src/connection.rs:151-153 | Each pop returns the event right after all popped and dropped ones |
| ConnectionRuns.BatchStopsAtBad | crates/kwe-cdp/src/connection.rs:125-130 | A batch is routed message by message up to exactly the first bad one; the rest is lost |
| ConnectionRuns.GoodMessageLost | crates/kwe-cdp/src/connection.rs:125-130 | An event behind an unreadable message is lost, though alone it is queued |
| KeyValues.Tokenize | crates/kwe-core/src/keyvalues.rs:146-232 | The nested loops compute the lexical function on every input, its endless case included |
| KeyValues.ReadQuoted | crates/kwe-core/src/keyvalues.rs:173-215 | Quoted text with its escapes, or where it is unterminated or ends in an escape |
| KeyValues.ParseObject | crates/kwe-core/src/keyvalues.rs:87-144 | The recursive parser with its moving cursor returns the fields of the derived pairs and the cursor after them, or the same first error |
| KeyValues.ParseKeyValues | crates/kwe-core/src/keyvalues.rs:68-85 | The reader as a whole, size limit first |
| KeyValues.TurnAt | crates/kwe-core/src/keyvalues.rs:149-230 | Every turn of the tokenizer moves on, except at a form feed |
| KeyValuesGrammar.ParsedIsDerived | crates/kwe-core/src/keyvalues.rs:87-144 | What is accepted derives from the grammar, ends where reported, and keeps to the depth |
| KeyValuesGrammar.DerivedIsParsed | crates/kwe-core/src/keyvalues.rs:87-144 | Every derivation within the depth is found |
| KeyValuesGrammar.GrammarExact | crates/kwe-core/src/keyvalues.rs:68-144 | Tokens are accepted with a tree iff the grammar (Text Text or Text Open pairs Close)* derives them from it within 32 levels; acceptance consumes all tokens |
| KeyValuesGrammar.LastDuplicateWins | crates/kwe-core/src/keyvalues.rs:135 | A key has the value written last |
| KeyValuesGrammar.KeysAreWritten | crates/kwe-core/src/keyvalues.rs:135 | The keys are exactly those written |
| KeyValuesGrammar.FormFeedNeverPasses | crates/kwe-core/src/keyvalues.rs:216-228 | At a form feed any number of turns emits as many empty tokens and does not move |
| KeyValuesGrammar.HangsExactly | crates/kwe-core/src/keyvalues.rs:146-232 | The tokenizer fails to return iff a byte-by-byte scan meets a form feed outside quotes and comments |
| KeyValuesGrammar.ReturnsExactly | crates/kwe-core/src/keyvalues.rs:68-85 | The reader returns on every input but those within the limit, such as a lone form feed |
| KeyValuesPrint.QuotedReads | crates/kwe-core/src/keyvalues.rs:173-215 | Escaped text reads back as its bytes, each taken as a character |
| KeyValuesExact.Decomposes | crates/kwe-core/src/keyvalues.rs:173-215 | Everything after an opening quote is a sequence of spelled pieces up to a quote, the end, or a backslash at the end |
| KeyValuesExact.QuotedExact | crates/kwe-core/src/keyvalues.rs:173-215 | Every spelling reads back to its text, with the four escapes and the kept backslash; unclosed text and a cut-off escape are told apart |
| KeyValuesExact.QuoteExact | crates/kwe-core/src/keyvalues.rs:146-232 | A quote begins the token of the text spelled, or the error at its place |
| KeyValuesExact.BytesExact | crates/kwe-core/src/keyvalues.rs:146-228 | The separating bytes, those that end bare text, and what a brace and a double slash begin |
| KeyValuesExact.CommentExact | crates/kwe-core/src/keyvalues.rs:152-157 | A comment ends at the first line feed or with the input |
| KeyValuesExact.EscapedLineFeed | crates/kwe-core/src/keyvalues.rs:193-194 | A concrete text with an escaped line feed |
| KeyValuesExact.FaultExact | crates/kwe-core/src/keyvalues.rs:87-144 | The recursive parser rejects exactly what one pass with a depth and a waiting key does, with the same error, key and place |
| KeyValuesExact.TooLargeExactly | crates/kwe-core/src/keyvalues.rs:68-71 | The size error is given to inputs over 8 MiB and to no others |
| KeyValuesPrint.GapsAreIgnored | crates/kwe-core/src/keyvalues.rs:151-157 | Any run of blanks and whole-line comments between tokens changes nothing |
| KeyValuesPrint.BareWordReads | crates/kwe-core/src/keyvalues.rs:216-228 | Unquoted text up to white space, a brace or the end is taken byte for byte |
| KeyValuesPrint.LexPrinted | crates/kwe-core/src/keyvalues.rs:146-232 | Printed pairs lex to the tokens the grammar derives from them |
| KeyValuesPrint.MisreadExact | crates/kwe-core/src/keyvalues.rs:173-215 | Byte-wise reading leaves a tree unchanged iff all its text is ASCII |
| KeyValuesPrint.TreeMisreadExact | crates/kwe-core/src/keyvalues.rs:68-232 | The map read from misread pairs is the original map iff that map is all ASCII, overridden pairs not counting |
| KeyValuesPrint.PrintedReadsBack | crates/kwe-core/src/keyvalues.rs:68-232 | Reading printed pairs within the limits returns their tree with text misread byte by byte; what is returned is the printed tree iff that tree is all ASCII |
| KeyValuesPrint.AccentMisread | crates/kwe-core/src/keyvalues.rs:173-215 | One accented letter comes back as two other letters |
| KeyValuesPrint.ListingMeans | crates/kwe-core/src/keyvalues.rs:68-144 | Every tree can be written down as pairs with its fields, depth and text |
| KeyValuesPrint.TreesReadBack | crates/kwe-core/src/keyvalues.rs:68-232 | Every listing of a tree that fits the limits reads back to it iff the tree is all ASCII, and every ASCII tree of at most 32 nested levels has a listing |
| Pkg.ParseTable | crates/kwe-core/src/pkg.rs:413-556 | The three passes compute the table function or its first error, on any bytes |
| Pkg.ReadEntries | crates/kwe-core/src/pkg.rs:457-505 | The entry loop with its running total of declared sizes |
| Pkg.RangesInside | crates/kwe-core/src/pkg.rs:507-535 | True iff every payload lies inside the file |
| Pkg.FlagEntries | crates/kwe-core/src/pkg.rs:537-555 | Each entry is flagged by the magic of its stored bytes |
| Pkg.MatchingEntries | crates/kwe-core/src/pkg.rs:684-718 | Exactly the matching entries, in table order |
| Pkg.PkgWriter.Add | crates/kwe-core/src/pkg.rs:952-955 | Appends a raw file |
| Pkg.PkgWriter.AddLz4 | crates/kwe-core/src/pkg.rs:959-962 | Appends a file stored as a frame |
| Pkg.PkgWriter.Build | crates/kwe-core/src/pkg.rs:966-997 | Header, table with prefix-sum offsets, then the payloads in order |
| Pkg.PkgWriter.BuildTable | crates/kwe-core/src/pkg.rs:971-992 | The table loop collects the payloads and writes exactly the table's bytes |
| PkgProofs.EntryExact | crates/kwe-core/src/pkg.rs:457-505 | An entry is read iff its exact bytes stand there and its path is valid |
| PkgProofs.EntriesExact | crates/kwe-core/src/pkg.rs:457-505 | A table of entries is read iff exactly its bytes stand there and its sizes total at most 512 MiB |
| PkgProofs.HeaderExact | crates/kwe-core/src/pkg.rs:413-454 | A header is accepted with a count iff it is one of the format's headers for it |
| PkgProofs.HeaderErrorExact | crates/kwe-core/src/pkg.rs:413-455 | Which error a refused header gets, in the order it is read |
| PkgProofs.EntryErrorExact | crates/kwe-core/src/pkg.rs:457-505 | Which error a refused entry gets, in the order it is read |
| PkgProofs.FirstFailureWins | crates/kwe-core/src/pkg.rs:457-505 | The first unreadable entry, or the first to take the total past 512 MiB, decides the error |
| PkgProofs.TableErrorExact | crates/kwe-core/src/pkg.rs:413-555 | A refused package gets the error of its size, its header, its first bad entry, or a payload outside the file, in that order |
| PkgProofs.TableExact | crates/kwe-core/src/pkg.rs:413-556 | A byte string parses to a table iff it is that table's bytes followed by data holding every entry, within all limits, flags included |
| PkgProofs.StoredInBuilt | crates/kwe-core/src/pkg.rs:966-997 | Each written payload stands at its entry's range |
| PkgProofs.WrittenReadsBack | crates/kwe-core/src/pkg.rs:339-369 | For all files within the limits, parsing the written package returns their paths with prefix-sum offsets, and `read_payload` returns every payload |
| PkgProofs.EntryReadsBack | crates/kwe-core/src/pkg.rs:293-334 | Reading an entry returns its stored payload iff it does not decode to something else as a frame; over the cap is an error |
| PkgProofs.PayloadReadDecoded | crates/kwe-core/src/pkg.rs:293-334 | An accepted package whose payload is the empty LZ4 frame, byte for byte, read as nothing by a decoder that decodes it |
| PkgProofs.FrameReadsBack | crates/kwe-core/src/pkg.rs:293-334 | A payload stored as a frame reads back decoded, or fails when it exceeds the cap |
| PkgProofs.ComponentsExact | crates/kwe-core/src/pkg.rs:559-591 | Splitting a path gives the slash-free components that join to it again |
| PkgProofs.SafePathExact | crates/kwe-core/src/pkg.rs:559-591 | A path is safe iff it is relative, has no NUL or backslash, and no two dots stand as a whole component |
| Utf8.ValidUtf8Exact | crates/kwe-core/src/pkg.rs:470-476 | A path's bytes pass as text iff they are the UTF-8 encoding of some sequence of scalar values |
| Utf8.LengthIsEncoded | crates/kwe-core/src/playlist.rs:190-214 | The byte length of a name is that of its encoding |
| PkgProofs.MatchesExact | crates/kwe-core/src/pkg.rs:684-718 | A path matches a reference iff the reference is a tail of whole components, up to ASCII case |
| PkgProofs.ResolveExact | crates/kwe-core/src/pkg.rs:684-718 | A reference resolves to an entry iff it stays inside and that entry alone matches |
| PkgProofs.OwnPathResolves | crates/kwe-core/src/pkg.rs:684-718 | An accepted entry's own path finds it iff no other entry matches that path |
| PkgProofs.OwnPathAmbiguous | crates/kwe-core/src/pkg.rs:684-718 | An accepted package with `a` and `b/a` in which `a` does not resolve to itself |
| ApplyLane.ApplyClient.Send | apps/kwe-manager/src/applyclient.cpp:154-179 | Begins when idle, queues up to 64, otherwise drops (silently for assignment refreshes) |
| ApplyLane.ApplyClient.Begin | apps/kwe-manager/src/applyclient.cpp:181-206 | Takes the operation in flight with a deadline; a connection refused on the spot requeues it |
| ApplyLane.ApplyClient.Receive | apps/kwe-manager/src/applyclient.cpp:260-290 | Waits for the whole line, requeues on an unusable one, finishes on an answer and resets the back-off |
| ApplyLane.ApplyClient.Finish | apps/kwe-manager/src/applyclient.cpp:292-377 | Settles the operation, asks for assignments after a change, and starts the next |
| ApplyLane.ApplyClient.FailCurrent | apps/kwe-manager/src/applyclient.cpp:379-430 | Requeues at the front, evicting the last of a full queue, or gives up and starts the next |
| ApplyLane.ApplyClient.PutBack | apps/kwe-manager/src/applyclient.cpp:389-403 | The operation in flight goes to the front; a full queue loses its last one, which is settled as evicted |
| ApplyLane.ApplyClient.DrainQueue | apps/kwe-manager/src/applyclient.cpp:451-456 | Begins the first queued operation |
| ApplyLane.ApplyClient.RetryLater | apps/kwe-manager/src/applyclient.cpp:458-463 | Arms the timer once and doubles the delay up to 30 s |
| ApplyLane.ApplyClient.WriteRequest | apps/kwe-manager/src/applyclient.cpp:208-258 | Writes the operation in flight; with nothing in flight, a request for the assignments that belongs to no operation |
| ApplyLane.ApplyClient.DeadlineFires | apps/kwe-manager/src/applyclient.cpp:39-49 | Gives up the operation in flight |
| ApplyLane.ApplyClient.RetryFires | apps/kwe-manager/src/applyclient.cpp:50-58 | Begins the first queued operation unless one is in flight |
| ApplyLane.ApplyClient.ResetStatus | apps/kwe-manager/src/applyclient.cpp:126-135 | Returns to idle unless busy |
| ApplyLane.ApplyClient.Retry | apps/kwe-manager/src/applyclient.cpp:137-152 | Sends a new operation like the last failed one |
| ApplyLaneRuns.RequeueSound | apps/kwe-manager/src/applyclient.cpp:379-430 | Requeueing, with or without an eviction, keeps the lane invariant |
| ApplyLaneRuns.HappenSound | apps/kwe-manager/src/applyclient.cpp:39-463 | Every API call, socket event and timer keeps it |
| ApplyLaneRuns.AlwaysSound | apps/kwe-manager/src/applyclient.cpp:39-463 | After any events: at most 64 queued, work queued means something in flight or an armed timer, a deadline iff something is in flight, and the log accounts for every ticket |
| ApplyLaneRuns.LogGrows | apps/kwe-manager/src/applyclient.cpp:39-463 | No event rewrites the log |
| ApplyLaneRuns.SettledNeverResent | apps/kwe-manager/src/applyclient.cpp:292-430 | An operation that was answered, abandoned at its deadline or evicted is never begun, written or settled again |
| ApplyLaneRuns.EveryTicketAccounted | apps/kwe-manager/src/applyclient.cpp:154-430 | Every accepted operation is held or settled, never both; replies and missed deadlines settle in order of acceptance |
| ApplyLaneRuns.NeverStalls | apps/kwe-manager/src/applyclient.cpp:50-58 | Queued work with nothing in flight has an armed timer that starts its first operation |
| ApplyLaneRuns.AttemptServes | apps/kwe-manager/src/applyclient.cpp:292-377 | An attempt that is answered settles the first operation held and keeps the others in order, also when a change adds a refresh |
| ApplyLaneRuns.EveryHeldIsAnswered | apps/kwe-manager/src/applyclient.cpp:39-463 | From every reachable lane, once connections are accepted and attempts answered, each operation held is settled by the answer of its place in line, so within 65 answers |
| ApplyLaneRuns.HeldExact | apps/kwe-manager/src/applyclient.cpp:39-463 | The lane is one queue: what each event adds, takes off, evicts and settles, for every event and every sound lane, and that nothing else changes |
| ApplyLaneRuns.DeadlineSettles | apps/kwe-manager/src/applyclient.cpp:39-49 | A missed deadline settles the operation in flight as abandoned |
| ApplyLaneRuns.MissedNeverResent | apps/kwe-manager/src/applyclient.cpp:39-49 | An operation whose deadline was missed is never begun, written or settled again in any later run |
| ApplyLaneRuns.FlightIsMarked | apps/kwe-manager/src/applyclient.cpp:181-258 | Whatever goes into flight is logged as begun, and what is sent on connecting as written |
| ApplyLaneRuns.QuietExact | apps/kwe-manager/src/applyclient.cpp:126-135 | Clearing the status acts only when nothing is held; a refused call and a stray connection touch nothing held |
| ApplyLaneRuns.DelayDoubles | apps/kwe-manager/src/applyclient.cpp:458-463 | While connections are refused the retry delay doubles up to 30 s and nothing held is lost |
| ApplyLaneRuns.AnswerShows | apps/kwe-manager/src/applyclient.cpp:292-377 | The state an answer leaves, what it records for Try Again, and the delay set back |
| ApplyLaneRuns.FlightShows | apps/kwe-manager/src/applyclient.cpp:181-206 | The state while an operation is in flight, and what a missed deadline leaves for Try Again |
| Captures.Capture.PushBytes | crates/kwe-audio-worker/src/main.rs:574-608 | Decodes, filters and trims in place exactly as `Ring.Push` |
| Captures.Capture.DecodeTail | crates/kwe-audio-worker/src/main.rs:576-599 | The loop keeps what the drop rule keeps, counts what it drops, and stops at the last whole sample |
| Captures.Capture.Trim | crates/kwe-audio-worker/src/main.rs:602-607 | The ring keeps the latest samples up to its capacity |
| Captures.Capture.TakeNonFiniteDropped | crates/kwe-audio-worker/src/main.rs:612-616 | Hands the count over once |
| Captures.Capture.TakeWindow | crates/kwe-audio-worker/src/main.rs:621-637 | The last full window split into alternating samples, or nothing and no change |
| Captures.PushTwice | crates/kwe-audio-worker/src/main.rs:574-608 | Two pushes are one push of their bytes together |
| Captures.FilterCounts | crates/kwe-audio-worker/src/main.rs:577-598 | Kept plus dropped equals decoded |
| CaptureRuns.RingHoldsStream | crates/kwe-audio-worker/src/main.rs:574-637 | After any pushes, windows and hand-overs, however the stream is split: the ring is the last `cap` of the samples kept since the last full window, under four bytes wait, kept + dropped = decoded, and the counts handed over and held equal the dropped ones below saturation |
| CaptureRuns.IsFiniteExact | crates/kwe-audio-worker/src/main.rs:592-593 | A sample is finite iff the eight exponent bits of its 32 are not all set |
| CaptureRuns.KeptKeepTheirChannel | crates/kwe-audio-worker/src/main.rs:577-598 | Every kept sample keeps its channel parity |
| CaptureRuns.BadSampleTakesNext | crates/kwe-audio-worker/src/main.rs:584-597 | A bad sample takes the next one along, which is its pair partner iff the bad one is a left sample; the partner of a bad right sample stays unless it had gone along with an earlier one |
| CaptureRuns.PartnersParted | crates/kwe-audio-worker/src/main.rs:584-597 | A stream of two frames that keeps the left sample of one and the right sample of the other |
| CaptureRuns.WindowAlignedExactly | crates/kwe-audio-worker/src/main.rs:621-637 | Every window of every run holds the last samples kept, none of them handed out before, and starts on a left sample iff an even number was kept |
| CaptureRuns.WindowOnRightSample | crates/kwe-audio-worker/src/main.rs:621-637 | A chunk of three good samples gives a window that starts on a right one |
| Policies.Validate | crates/kwe-core/src/policy.rs:92-121 | The first fault in rule order, or none |
| Policies.Evaluate | crates/kwe-core/src/policy.rs:123-157 | The highest-precedence action among the matching rules, or the default; matched ids in order; errors in the order checked |
| Policies.ValidationExact | crates/kwe-core/src/policy.rs:92-121 | Accepts exactly the valid policies, whatever the order of their rules |
| Policies.LimitsExact | crates/kwe-core/src/policy.rs:92-121 | The limits of a valid policy, in numbers |
| Policies.FaultExact | crates/kwe-core/src/policy.rs:92-121 | The fault reported is the first one of the first faulty rule; a repeated id is a fault of the later rule |
| Policies.IdCharsExact | crates/kwe-core/src/policy.rs:193-199 | An application is named in ASCII letters, digits, dots, underscores and hyphens |
| Policies.OrderDoesNotMatter | crates/kwe-core/src/policy.rs:123-157 | Reordering the rules changes neither the matches nor the action |
| Policies.DecisionExact | crates/kwe-core/src/policy.rs:16-25 | Stop over pause over mute over keep running over the default, by what the matching rules ask for |
| Policies.FlagsExact | crates/kwe-core/src/policy.rs:160-170 | Each state trigger matches on its own flag alone |
| Policies.FocusExact | crates/kwe-core/src/policy.rs:160-176 | An application rule matches the focused application by name, up to ASCII case |
| Policies.DaysAreBits | crates/kwe-core/src/policy.rs:189-191 | The selected days are the bits of the mask |
| Policies.WindowOnDay | crates/kwe-core/src/policy.rs:160-187 | Per day, the two branches of the code are the arithmetic of the week |
| Policies.WindowIsWeekArithmetic | crates/kwe-core/src/policy.rs:160-191 | A window matches iff the minute of the 10080-minute week lies within (end - start) mod 1440 of the start on a selected day |
| GeneralIrs.ParseGeneralIr | crates/kwe-core/src/ir.rs:301-365 | Marking keys consumed one by one leaves exactly the unread keys unknown |
| GeneralIrs.AliasWinner | crates/kwe-core/src/ir.rs:117-127 | The winning spelling if present, else the other, else none |
| GeneralIrs.ColorAgain | crates/kwe-core/src/ir.rs:367-385 | A re-emitted colour reads back iff finite; a malformed one stays malformed |
| GeneralIrs.ResolutionAgain | crates/kwe-core/src/ir.rs:387-410 | A re-emitted resolution reads back iff both dimensions survive; a shadowed alias stays shadowed |
| GeneralIrs.FpsAgain | crates/kwe-core/src/ir.rs:337-347 | A re-emitted frame rate reads back unless it overflowed to infinity |
| GeneralIrs.EmittedEntry | crates/kwe-core/src/ir.rs:1570-1587 | A key that was not consumed is written back as it was, any other as its typed field says |
| GeneralIrs.UnknownAgain | crates/kwe-core/src/ir.rs:98-106 | The unknown bag reads back entry by entry |
| GeneralIrs.GeneralRoundTripExact | crates/kwe-core/src/ir.rs:1570-1587 | Parsing the re-emitted block gives the same block iff it is finite and its dimensions survive |
| GeneralIrs.HalfPixelLost | crates/kwe-core/src/ir.rs:387-396 | A block with dimensions of one half is read as 0 by 0 and does not come back |
| GeneralIrs.ExactDimensions | crates/kwe-core/src/ir.rs:387-410 | Where floats are exact a dimension survives iff it is at least 1 |
| GeneralIrs.ToU32Exact | crates/kwe-core/src/ir.rs:387-410 | A positive number is cut down to a whole one and held at the largest of 32 bits |
| GeneralIrs.ProjectionExact | crates/kwe-core/src/ir.rs:398-410 | Width and height come each from its own key, as positive numbers or text of them |
| GeneralIrs.FpsExact | crates/kwe-core/src/ir.rs:337-347 | A frame rate is a finite number, or text of one, rounded to 32 bits |
| GeneralIrs.ColorTextExact | crates/kwe-core/src/ir.rs:367-385 | A colour in text is three components in their places with full opacity |
| GeneralIrs.ColorArrayExact | crates/kwe-core/src/ir.rs:367-385 | A colour in an array is four components in their places |
| Effects.ParseIndexNames | crates/kwe-core/src/sceneeffect.rs:260-321 | All three JSON shapes fill the same slot map as their list of claims |
| Effects.NamedExact | crates/kwe-core/src/sceneeffect.rs:260-321 | A slot is named iff some entry claims it, by the last one that does |
| Effects.ClaimsExact | crates/kwe-core/src/sceneeffect.rs:260-321 | Which slot each entry names, in each of the three JSON shapes, with its cap |
| Effects.LayersAreClaims | crates/kwe-core/src/sceneeffect.rs:390-433 | Layering the four sources is one list of claims in which the last wins |
| Effects.ResolveMaterialPass | crates/kwe-core/src/sceneeffect.rs:357-493 | Merges and resolves in place exactly as the pass function |
| Effects.SlotsExact | crates/kwe-core/src/sceneeffect.rs:217-493 | A pass resolves iff no winning claim is unresolvable; bind over override textures over user textures over material; slot 0 defaults to the previous stage, others to empty |
| Effects.DocumentedNamesExact | crates/kwe-core/src/sceneeffect.rs:385-433 | The slot names are those of the documented order iff no unbound slot is named differently by `textures` and `usertextures`, in the override or else in the material |
| Effects.DocumentedOrderExact | crates/kwe-core/src/sceneeffect.rs:385-493 | A pass the code resolves has the slots of the documented order iff the only slot the orders name differently is an unnamed slot 0 that the other calls the previous stage; a pass it drops is dropped in both iff the documented order, too, names something unresolvable |
| Effects.OverrideTexturesWin | crates/kwe-core/src/sceneeffect.rs:417-428 | An override that names slot 1 both ways gets its `textures` name, where the documented order gives the other |
| Effects.DroppedForTextures | crates/kwe-core/src/sceneeffect.rs:417-428 | An override whose `textures` name is missing drops the pass, where the documented order would resolve it |
| Effects.ParsePasses | crates/kwe-core/src/sceneeffect.rs:521-585 | All of the first 16 passes in order, or nothing if any fails |
| Effects.PassesExact | crates/kwe-core/src/sceneeffect.rs:562-585 | An effect resolves iff each of its first 16 passes does, in its place |
| Effects.CommandExact | crates/kwe-core/src/sceneeffect.rs:495-513 | A copy or a swap with both buffers named, and nothing else, is a command |
| Effects.MaterialExact | crates/kwe-core/src/sceneeffect.rs:357-493 | An override's combos and constants win key by key; everything else comes from the material or the pass |
| Effects.ResolveNameExact | crates/kwe-core/src/sceneeffect.rs:217-242 | What a slot name stands for: the previous stage, a runtime target, or a texture that exists and decodes within 256 MiB |
| Effects.FilesExact | crates/kwe-core/src/sceneeffect.rs:203-210 | Files count only up to 1 MiB |
| Effects.ParseFbos | crates/kwe-core/src/sceneeffect.rs:532-560 | The named ones of the first 16 frame buffers, in order, with their defaults |
| Effects.FboOf | crates/kwe-core/src/sceneeffect.rs:535-559 | An entry counts iff it is a named object, and its scale is always positive |
| Effects.FboExact | crates/kwe-core/src/sceneeffect.rs:535-561 | The defaults of a frame buffer |
| Effects.OverridesFollowMaterials | crates/kwe-core/src/sceneeffect.rs:521-585 | Among the first 16 passes of any effect the j-th material pass takes the j-th override however command passes are interleaved |
| Effects.ResolveObjectEffects | crates/kwe-core/src/sceneeffect.rs:596-643 | The resolvable ones of the first 32 entries, in order |
| Effects.EffectsExact | crates/kwe-core/src/sceneeffect.rs:596-643 | An unresolvable entry is left out and changes nothing about the others or their order |
| Effects.EffectExact | crates/kwe-core/src/sceneeffect.rs:600-641 | An entry resolves iff its file and passes do, and what it keeps of both |

## Left out

- PlaylistTime.PlayTimeConserved: is stated for calls at least 24 h before the end of the 64-bit millisecond clock, where its sums cannot saturate.
- PlaylistTime.RestoredRunsAlike: likewise, on both clocks; later calls use the playlist given at restore time unless that one still holds the current entry.
- ConnectionRuns.ResponseCorrelates: and the other statements about one request's response cover runs of at most 2^32 - 1 allocations; after that ids repeat as `IdsRepeatExactly` says.
- Transport.PipeTransport.ReadAvailable: the read budget wraps around as on a 64-bit build without overflow checks; with them the same reads would panic.
- ApplyLane.ApplyClient.Retry: an operation is its kind and target; the wallpaper, scaling, frame rate and quarantine flag that go with it are not tracked.
- KeyValuesPrint.TreesReadBack: covers text in quotes; bare words and gaps are covered by `BareWordReads` and `GapsAreIgnored`.
- Pkg.PkgWriter.AddLz4: encodes when the file is added rather than when the package is built; the bytes written are the same.
- Effects.EffectsExact: asset lookup is a function of the reference.
- `PlaylistStore`, `Playlist::add` and `set_timing`: plain setters and file plumbing.
- The 64 KiB read budget of the capture poll: any bytes may be pushed.
- Endless interruptions: when a call's answers run out the next one is "would block" with the deadline passed.
- File descriptors, `poll(2)`, clocks and byte-level JSON: parameters. The JSON reader and writer of a connection are function parameters, as are the LZ4 encoder and decoder.
- ApplyClient texts and timeouts in milliseconds are not tracked. Handlers run one after the other, except that a connection may be refused from inside the call that makes it.
- A package's open checks (symbolic links, file type) and its metadata racing with reads: the file is one byte string. `read_entry_raw` and `scene_json_entry` are easy filters.
- Stable ids, scene objects and the rest of the IR round trip: they need classifiers outside the general block. Floating point is a rounding function on exact numbers; values that are not numbers are one value, so their inequality to themselves is not modelled.
- User-interface models, previews, the shared-frame seqlock, the installer and network calls.
