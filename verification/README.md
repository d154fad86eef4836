# rt-llm-proxy: a verified model of its state machines

rt-llm-proxy bridges browsers to realtime speech models. This project models the parts of it
whose correctness depends on order, timing and bookkeeping, and proves what they keep over every
run: the cascade's turn orchestrator and reply pipeline, the reconnect chain, the replay index,
the provider circuit breaker, the Doubao frame codec, the side-channel publisher's shutdown, and
the audio framing, resampling and load-control loops.

The source's objects with mutable fields are classes here and its loops are loops. Each method is
tied by its postcondition to a function on values, and the theorems are about those functions,
over arbitrary sequences of calls. Concurrent code is a step system: a step is one channel
operation, critical section or timer event, and every interleaving of enabled steps is a run.
Clocks are integers, read by the caller and passed in. Random and external choices (the scheduler,
map iteration order, the ASR, LLM and TTS stages, hooks, encoder, track, broker) are parameters or
steps.

| file | component |
|---|---|
| `Turn.dfy`, `Dialogue.dfy`, `Timers.dfy`, `Answers.dfy`, `Text.dfy` | the orchestrator's inputs and history, what it makes of a conversation, its timers and pending signal, whether a confirmed turn is answered, text similarity |
| `Segments.dfy`, `Generation.dfy`, `BargeIn.dfy`, `BargeInProgress.dfy`, `Returning.dfy` | sentence segmentation and TTS worker, one generation as interleaved steps, barge-in across generations, its progress, and exactly when it returns |
| `Transcript.dfy`, `Sessions.dfy`, `Replay.dfy`, `Reconnect.dfy` | recorder, hub and archive, reconnect resolution, the whole chain |
| `Events.dfy`, `ReplayIndex.dfy`, `ReplayRuns.dfy`, `CrossNode.dfy` | one indexed session, the index store, the store over runs, a log's way to another node |
| `Breaker.dfy`, `Kafka.dfy`, `Adaptive.dfy`, `Doubao.dfy` | circuit breaker, publisher shutdown, encoder controllers, frame codec |
| `Framing.dfy`, `Outbound.dfy`, `Resample.dfy`, `Xtts.dfy` | 960-sample frames, outbound pump, linear resampling, TTS byte stream |
| `Common.dfy` | options, last-n, flattening |

## What the proofs found

Nine expectations one might have of the code do not hold in general. Each is settled by an exact
condition or a concrete run.

- A model reply, typed turn or restored turn that lands while a speculation is open breaks it:
  the turn removed later is the reply, not the tentative one. Speculation is invisible if and
  only if every input was clean when it arrived (`Turn.SpeculationIsInvisible`,
  `Turn.ReplyDuringSpeculationIsLost`).
- `scheduleSpeculative` drains and then sends blockingly on a channel only `run` reads. A timer
  already past its outer select can signal in between, and then `run` never moves again
  (`Timers.SendCanBlockExactly`, `Timers.StuckForever`, `Timers.DeadlockIsReachable`).
- A final that confirms a speculation before the loop has selected a pending signal drains that
  signal; the confirmed turn can then go without any answer (`Answers.ForgottenExactly`,
  `Answers.UnansweredIsReachable`).
- `bargeIn` waits for a generation that may itself be waiting for a slot in `modelTurnCh`, which
  only the waiting loop drains. It returns in every schedule exactly when that generation has no
  reply to hand back or all replies, unread and still possible, fit the channel
  (`Returning.ReturnsExactly`); an endless wait is reachable (`BargeIn.BargeInCanHang`).
- `bargeIn` reaches only the generation that installed its handle last. Any other that still has
  something to say can be heard afterwards (`BargeIn.AudibleExactly`,
  `BargeIn.UninstalledSurvives`, `BargeIn.DisplacedSurvives`).
- A short even-sized read while a byte is carried is joined inside the carry slice's own array and
  damages that byte in `xtts.go` (`Xtts.ExactForAllContents`).
- With equal or decreasing clock readings the replay index can evict the session it has just
  created (`ReplayRuns.NewSessionSafety`, `ReplayRuns.TieEvictsNewSession`).
- A slow dial's failure, recorded with the time it started, can reopen the breaker in the past;
  the grants keep their distance exactly when reopenings are late enough
  (`Breaker.SpacingExactly`, `Breaker.StaleTimeDefeatsSpacing`).
- Two reconnects of one archived session that overlap hand out the same seqs
  (`Reconnect.OverlappingReconnects`).

Where code and comment disagree the code is modelled: `jaccard` of two texts without words is 1.0
(`internal/model/cascade/text.go:26-28`), its comment says 0.0.

## Model

| member | source | states |
|---|---|---|
| `Turn.Cascade.constructor` | internal/model/cascade/model.go:103-129 | A new orchestrator holds only the system prompt, if there is one, and no speculation |
| `Turn.Cascade.RemoveSpeculative` | internal/model/cascade/turn.go:143-148 | An open speculation loses exactly the last entry; afterwards none is open |
| `Turn.Cascade.IsPotentialSentence` | internal/model/cascade/turn.go:117-139 | True exactly when the text has a sentence ender and was seen for the third time in a row within the window; the tracker is updated accordingly |
| `Turn.Cascade.HandleASR` | internal/model/cascade/turn.go:70-112 | For each ASR event: the new history, last user text, speculation flag and stability tracker, and the channel and timer operations in order |
| `Turn.Cascade.HandleFinal` | internal/model/cascade/turn.go:89-109 | A final is a duplicate, confirms the speculation by patching its text, or replaces it by a new scheduled turn |
| `Turn.Cascade.RunOne` | internal/model/cascade/turn.go:21-48 | The same for every kind of input the loop selects on, with the snapshot each respond gets |
| `Turn.Cascade.Run` | internal/model/cascade/turn.go:17-50 | The loop over any inputs, until its context ends or the event channel closes: history, last user text and all effects are those of exactly the inputs selected before |
| `Turn.PromptIsNeverRemoved` | internal/model/cascade/turn.go:17-194 | For every input sequence, clean or not, the prompt stays first and an open speculation has an entry after it, so indexing the last entry is safe |
| `Turn.StepInvisible` | internal/model/cascade/turn.go:70-148 | One input keeps the orchestrator with speculation in step with the one without if and only if it is clean |
| `Turn.SpeculationIsInvisible` | internal/model/cascade/turn.go:17-148 | Over every run: history minus an open tentative turn, and the last user text, agree at every moment with the orchestrator that never speculates, if and only if every input was clean when it arrived |
| `Turn.SpeculationResolves` | internal/model/cascade/turn.go:76-109 | Discarding a speculation restores the history before it; a final of any kind leaves exactly what it would have appended alone |
| `Turn.ReplyDuringSpeculationIsLost` | internal/model/cascade/turn.go:43-47 | A reply landing during speculation is removed or overwritten by the next new final while the tentative turn stays |
| `Dialogue.HistoryIsTheConversation` | internal/model/cascade/turn.go:21-48 | Over every run without speculation the history is the one before followed by the conversation: restored turns, replies under the model's role, and user texts that do not repeat the last one |
| `Dialogue.TurnsArePublished` | internal/model/cascade/turn.go:35-47 | Every turn that is not restored is published once, under its role, in order; besides captions nothing else is |
| `Dialogue.LoopDoesWhatIsWanted` | internal/model/cascade/turn.go:21-48 | Over every run, with or without speculation, the loop barges in exactly when speech starts and starts a reply exactly for each signal taken and each typed turn that is no repetition, in the order of the inputs |
| `Dialogue.OneBargeInPerSpeech` | internal/model/cascade/turn.go:84-87 | There are as many barge-ins as times that speech started |
| `Dialogue.SnapshotIsTheHistory` | internal/model/cascade/turn.go:56-67 | Whatever is asked of the LLM is the full history at that moment, ending with the typed turn if there is one |
| `Dialogue.RepliesAnswerTheLastTurn` | internal/model/cascade/turn.go:29-30 | From a turn on, as long as only signals are taken, every reply is asked for with that turn last |
| `Dialogue.TurnOnTop` | internal/model/cascade/turn.go:73-109 | An opened speculation, a typed turn and an accepted final leave their text as the last entry |
| `Dialogue.HearingClears` | internal/model/cascade/turn.go:73-94 | A partial, the start of speech and a final that is no repetition first cancel the pending turn and drain its signal; nothing else does |
| `Dialogue.SpeculationSignals` | internal/model/cascade/turn.go:77-82 | A speculation is signalled exactly when it opens, right after a stale signal is drained |
| `Dialogue.PauseAfterFinal` | internal/model/cascade/turn.go:106-109 | A pause is waited for after exactly the accepted finals that no speculation anticipated, with their text |
| `Dialogue.TrackerCountsRepetitions` | internal/model/cascade/turn.go:117-139 | The tracker counts the latest repetitions of a finished text within the window of the first of them |
| `Dialogue.StableMeansRepeated` | internal/model/cascade/turn.go:114-139 | A speculation opens only on a finished text heard three times in a row within the window |
| `Dialogue.ThirdTimeExactly` | internal/model/cascade/turn.go:117-139 | The third time in a row opens it exactly when second and third are within 200 ms of the first; first and second never do |
| `Dialogue.OneEnder` | internal/model/cascade/text.go:8-10 | The four characters that finish a text |
| `Timers.StepBalances` | internal/model/cascade/turn.go:150-194 | Each step of run or of a timer accounts for every typed turn, scheduled final and speculation exactly once |
| `Timers.StartsArePaidFor` | internal/model/cascade/turn.go:17-194 | In every interleaving responds started plus queued signals never exceed typed turns, scheduled finals and speculations, and the difference is exactly what is pending or was dropped |
| `Timers.HistoryIsTheInputs` | internal/model/cascade/turn.go:14-50 | However timers interleave, the history is decided by the inputs taken, so the results about input sequences hold in every interleaving |
| `Timers.AlwaysAnchored` | internal/model/cascade/turn.go:89-148 | The prompt and the tentative entry survive every interleaving of run with its timers |
| `Timers.OneArmedTimer` | internal/model/cascade/turn.go:161-194 | From the start, in every interleaving, at most one timer waits uncancelled, and it is the one the next cancelPending cancels |
| `Timers.CancelPendingClears` | internal/model/cascade/turn.go:182-194 | However timers interleave with its two operations, cancelPending leaves no signal queued, no current timer and no armed one |
| `Timers.SendCanBlockExactly` | internal/model/cascade/turn.go:152-159 | Between drain and send of a speculation run can be blocked for ever if and only if some earlier timer has not exited |
| `Timers.StuckForever` | internal/model/cascade/turn.go:158 | Once the send finds the channel full nothing run owns ever changes again |
| `Timers.DeadlockIsReachable` | internal/model/cascade/turn.go:164-194 | There is a run from the start, for any prompt, final with words and finished partial, to that deadlock |
| `Answers.ForgottenExactly` | internal/model/cascade/turn.go:89-101 | With any number of timers running: after the confirming final the speculated turn can remain without a respond and with nothing under way that could start one, if and only if the final was taken before the loop had selected a pending signal |
| `Answers.StartsAreFires` | internal/model/cascade/turn.go:29-30 | While a speculation is open the responds started are exactly the pending signals selected |
| `Answers.ConfirmedTurnIsAnsweredExactly` | internal/model/cascade/turn.go:94-101 | If the signal was taken before the final a respond was started; with no timer running the turn is unanswered in every continuation without new speech or typed turn if and only if the signal is still queued when the final is taken |
| `Answers.UnansweredIsReachable` | internal/model/cascade/turn.go:77-101 | Three equal finished partials and then that text as the final lead from the start to a confirmed turn with no respond ever started and nothing under way |
| `Text.TokenSet` | internal/model/cascade/text.go:42-48 | The set of lower-cased whitespace-separated words |
| `Text.CountCommon` | internal/model/cascade/text.go:29-34 | The number of common words, in whatever order the map is traversed |
| `Text.Jaccard` | internal/model/cascade/text.go:23-40 | The exact fraction of common words, 1 for two texts without words; at least 0.9 exactly when 10 times the intersection reaches 9 times the union |
| `Text.SimilarityLaws` | internal/model/cascade/text.go:20-40 | Similarity is symmetric and reflexive; texts without words are similar only to each other |
| `Text.WordsSplit` | internal/model/cascade/text.go:42-48 | The words on both sides of a space are those of the sides |
| `Text.OneWord` | internal/model/cascade/text.go:42-48 | A text without spaces is one word, and an empty one none |
| `Text.TokensOfJoined` | internal/model/cascade/text.go:20-48 | The words of texts joined by a space are all their words, so order and repetition do not matter |
| `Text.CaseDoesNotMatter` | internal/model/cascade/text.go:21 | Texts that differ by case only are similar |
| `Text.DifferentWords` | internal/model/cascade/text.go:23-40 | Two different single words are not |
| `Text.ShortTextsMatchExactly` | internal/model/cascade/turn.go:12 | At the threshold used, texts with fewer than ten distinct words in all are duplicates exactly when their word sets are equal |
| `Segments.EndsSentenceScan` | internal/model/cascade/text.go:13-18 | Finds whether some character ends a sentence |
| `Segments.SentenceEnds` | internal/model/cascade/text.go:12-18 | A text ends a sentence if a part of it does; of single characters the four enders and other punctuation do |
| `Segments.Segment` | internal/model/cascade/respond.go:60-91 | The delta loop yields the texts of the only sentence partition of the rewritten tokens, and the reply is the original deltas joined |
| `Segments.SpokenNextDelta` | internal/model/cascade/respond.go:64-76 | What is said for a delta is the hook's replacement if it gives one, nothing if that is empty, else the delta; the hook sees the original reply so far |
| `Segments.PassingHookSaysTheReply` | internal/model/cascade/model.go:30-40 | A hook that lets everything through changes nothing that is said |
| `Segments.GroupsPartition` | internal/model/cascade/respond.go:78-87 | Groups keep all tokens in order, are non-empty, and every one but the last ends on its only sentence-ending token |
| `Segments.OnlyGroups` | internal/model/cascade/respond.go:78-87 | A list of groups is such a partition if and only if it is the one the segmenter produces |
| `Segments.NextToken` | internal/model/cascade/respond.go:78-82 | What one more token does to the finished segments and the open one |
| `Segments.SegmentsSpellTheTokens` | internal/model/cascade/respond.go:64-88 | Every segment is non-empty and together they spell the rewritten tokens, for every delta stream and hook |
| `Segments.Speak` | internal/model/cascade/respond.go:47-58 | Segments are synthesised in order, only the first quick; cancelled or not the audio sent is a prefix of the whole, and all of it if not cancelled |
| `Segments.AudioIsOfTheSegments` | internal/model/cascade/respond.go:49-57 | The audio is that of the segments in order, the first alone asked for quickly, a failing one silent |
| `Generation.StepKeepsSegmenter` | internal/model/cascade/respond.go:41-91 | Every step of segmenter, worker or stage keeps: segments spoken, drained, queued and being sent, in that order, are those cut from the tokens received |
| `Generation.StepKeepsWorker` | internal/model/cascade/respond.go:47-58 | Every step keeps: only the first segment was quick, draining only after a cancel, the worker leaves only when the channel is closed and empty |
| `Generation.PipelineOrder` | internal/model/cascade/respond.go:29-128 | In every interleaving, cancelled at any point or not, what was synthesised is a prefix of the sentence segments, only the first quick, and the deltas received are a prefix of the stream |
| `Generation.UncancelledIsComplete` | internal/model/cascade/respond.go:84-99 | A generation that ends uncancelled has handed every segment to synthesis and received every delta, so its reply is the whole stream |
| `Generation.StepShrinks` | internal/model/cascade/respond.go:29-128 | Every step but a repeated cancel lowers a lexicographic measure of phase, deltas, segments and audio left |
| `Generation.NoEndlessRun` | internal/model/cascade/respond.go:29-128 | No generation takes steps for ever, whatever the stages answer |
| `Generation.CancelledNeverStuck` | internal/model/cascade/respond.go:104-128 | A cancelled generation always has a step that needs no room in recvCh and keeps the reply; only a non-empty hand-back needs a slot in modelTurnCh |
| `BargeIn.StepKeepsInv` | internal/model/cascade/respond.go:29-34 | Over any number of generations every step keeps: the handle belongs to an installed generation, the one waited for is cancelled, the one drained after has ended, channels stay within capacity |
| `BargeIn.HandedBackIsTheReply` | internal/model/cascade/respond.go:91-99 | In every reachable state the reply handed back is the original text received: the whole stream unless cancelled, a beginning of it otherwise |
| `BargeIn.Barrier` | internal/model/cascade/respond.go:139-159 | In every interleaving, from the return of bargeIn on, no audio of the generation it cancelled is or ever gets into recvCh |
| `BargeIn.OneInFlightIsSilenced` | internal/model/cascade/respond.go:130-159 | With one generation in flight and its handle installed, recvCh is empty from the return of bargeIn until the next generation starts |
| `BargeIn.WaitEndsExactly` | internal/model/cascade/respond.go:94-99 | From every reachable wait, some continuation ends it if and only if the generation has ended, has no text yet, or modelTurnCh has a free slot; when every schedule ends it is Returning.ReturnsExactly |
| `BargeInProgress.BusyStepShrinks` | internal/model/cascade/respond.go:139-159 | Until bargeIn returns, every step of any goroutine lowers a measure over loop position, phases, deltas, segments and PCM left of all generations, and recvCh, and keeps room for all replies |
| `BargeInProgress.NoEndlessBargeIn` | internal/model/cascade/respond.go:139-159 | No run takes steps in bargeIn for ever, with any number of generations in flight; it may still come to a stop there when a reply has no room |
| `BargeInProgress.OneInFlightHasRoom` | internal/model/cascade/model.go:120 | With one generation in flight and its handle installed, one free slot of modelTurnCh is that room |
| `Returning.StepKeepsReplyRoom` | internal/model/cascade/respond.go:94-97 | Until bargeIn returns every step keeps room in modelTurnCh for the unread replies and those that may still come |
| `Returning.RoomNeverStuck` | internal/model/cascade/respond.go:148-158 | With that room run or the generation it waits for always has a step, even with recvCh full and unread |
| `Returning.ReturnsExactly` | internal/model/cascade/respond.go:139-159 | From every reachable wait, with any number of generations in flight: bargeIn returns in every maximal schedule if and only if the generation it waits for can hand back no text any more, or unread replies and those that may still come fit modelTurnCh |
| `Returning.BargeInReturns` | internal/model/cascade/respond.go:139-159 | From every reachable state in which unread replies plus unfinished generations are at most eight, every maximal schedule brings the loop back to its select |
| `BargeIn.BargeInCanHang` | internal/model/cascade/respond.go:148-150 | For any delta that is spoken there is a run from the start into a wait that no continuation ends |
| `BargeIn.AudibleExactly` | internal/model/cascade/respond.go:29-58 | From every reachable state with no audio of a generation queued, some continuation without a new start lets it be heard if and only if it has, or may still get, something to say: so generations not yet installed, or displaced as handle, outlive a barge-in |
| `BargeIn.UninstalledSurvives` | internal/model/cascade/respond.go:29-32 | There is a run in which bargeIn returns and a generation that was started before, but had not installed its handle, can still be heard |
| `BargeIn.DisplacedSurvives` | internal/model/cascade/respond.go:29-32 | The same for a generation whose handle a later one displaced |
| `Transcript.Recorder.constructor` | internal/transcript/recorder.go:18-29 | Starts at the given seq and history |
| `Transcript.Recorder.Record` | internal/transcript/recorder.go:32-46 | Assigns the next seq, appends the line, keeps the last 256 |
| `Transcript.Recorder.Snapshot` | internal/transcript/recorder.go:49-59 | The retained lines newer than a seq |
| `Transcript.CollectNewer` | internal/rtc/archive.go:67-71 | The lines newer than a seq, in order |
| `Transcript.RecordExtendsLog` | internal/transcript/recorder.go:32-46 | A recorder that stands for a log stands for the log plus one turn after recording it: seqs 1, 2, 3, ... and the last 256 lines |
| `Transcript.MissingSuffix` | internal/transcript/recorder.go:48-59 | What a client holding the first k lines is sent, for every k |
| `Transcript.MissingSuffixExactly` | internal/rtc/bridge.go:183-187 | It is exactly the missing suffix if and only if the history reaches back to k |
| `Sessions.SessionArchiveStore.Store` | internal/rtc/archive.go:37-53 | Drops exactly the expired archives and files this one with its expiry |
| `Sessions.SessionArchiveStore.Resume` | internal/rtc/archive.go:55-73 | Answers only owner, provider and time matches, with full history, missing lines and max seq |
| `Sessions.SessionArchiveStore.State` | internal/rtc/archive.go:75-83 | Answers provider and max seq to the owner before expiry |
| `Sessions.Hub.Commit` | internal/rtc/scope.go:41-45 | The session becomes visible under its id; nothing else changes |
| `Sessions.Hub.AbortIfUncommitted` | internal/rtc/scope.go:48-52 | Closes an uncommitted session without any trace in hub or archive |
| `Sessions.Hub.Close` | internal/rtc/scope.go:55-64 | Idempotent; a committed session is archived once and whatever is registered under its id is removed |
| `Sessions.Hub.Remove` | internal/rtc/bridge.go:137-146 | Unlinks the session and archives it unless its history is empty |
| `Sessions.Hub.Resume` | internal/rtc/bridge.go:161-191 | Answers from the live session, taking it over, or else from the archive; otherwise changes nothing |
| `Sessions.Hub.SessionState` | internal/rtc/bridge.go:197-215 | Provider and max seq, to the owner only |
| `Sessions.DisconnectIsInvisible` | internal/rtc/bridge.go:137-215 | Within the TTL Resume and SessionState answer every caller the same after a disconnect as before, if something was recorded |
| `Sessions.ArchiveExpires` | internal/rtc/archive.go:55-83 | The owner gets an answer from an archive exactly until its TTL is over |
| `Sessions.OnlyExpiredAreDropped` | internal/rtc/archive.go:37-53 | Filing an archive drops exactly the expired others and leaves the rest untouched |
| `Sessions.OnlyTheOwnerResumes` | internal/rtc/bridge.go:155-191 | Whoever gets lines or takes a session over is its owner on its provider, before expiry |
| `Replay.ResolveReplay` | internal/offer/replay.go:124-218 | Session id, start seq, history, lines to resend, status or protocol error, for every combination of headers, owner, provider, memory and index answer; and what the hub looks like afterwards |
| `Replay.ResolveFromIndex` | internal/offer/replay.go:177-217 | The cross-node part: status per index answer, and the seed built from a page |
| `Replay.StatusesExactly` | internal/offer/replay.go:124-218 | For every offer: when it is refused, resumes from memory, hits, misses or fails at the index; a session not resumed is new and empty |
| `Replay.HighestIsMaximum` | internal/offer/replay.go:206-215 | The start seq is the maximum of the client's seq and all events' |
| `Replay.RecordingContinues` | internal/transcript/recorder.go:18-46 | A recorder seeded with an increasing history not above its seq keeps it increasing and gives each later line a higher seq |
| `Replay.PageIsNewer` | internal/replayindex/store.go:115-124 | A query page is strictly ascending and newer than asked for |
| `Replay.IndexHitContinues` | internal/offer/replay.go:204-217 | An index hit gives a strictly increasing history newer than the client's, a start seq equal to its last line, and later lines above all of it |
| `CrossNode.OnLine` | internal/sidechannel/tap.go:25-41 | The event the tap publishes for a line |
| `CrossNode.LineSurvives` | internal/sidechannel/tap.go:25-59 | A line published and replayed is the line: seq, speaker and text |
| `CrossNode.CrossNodeReplay` | internal/offer/replay.go:188-217 | End to end: a log whose events reached the index in any order and repetition, queried after k and resolved, resends exactly the next missing lines that are kept, up to the page limit, and goes on from the last of them |
| `CrossNode.CrossNodeReplayOverRuns` | internal/replayindex/store.go:58-127 | The same over every run of ingests of any sessions that never drops this one |
| `Reconnect.HandleOffer` | internal/offer/intake.go:138-197 | Resolve, dial, serve and commit on the real hub equal one step of the chain; a failed dial or setup registers nothing |
| `Reconnect.OwnerReconnects` | internal/offer/replay.go:156-175 | The owner's reconnect, live or archived: rejected if it claims unassigned lines, otherwise the same id and seq, the retained history and exactly the missing lines; the log is safe in the archive afterwards |
| `Reconnect.StepKeepsTracked` | internal/rtc/bridge.go:131-215 | Any operation on any session keeps the log of the tracked one |
| `Reconnect.OneLog` | internal/rtc/bridge.go:131-215 | Over every interleaving of records, disconnects, reconnects and failed dials within TTL one session id has one growing log with seqs 1, 2, 3, ..., none reused, the last 256 retained |
| `Reconnect.OverlappingReconnects` | internal/offer/intake.go:138-197 | Two reconnects of an archived session that both resolve before either commits give their next lines the same seq, and the first to close removes the other's registration and archives only its own line |
| `Reconnect.FreshSessionIsTracked` | internal/offer/intake.go:114-197 | A first offer starts such a log, empty |
| `Reconnect.EmptySessionIsForgotten` | internal/rtc/bridge.go:143-145 | A session that recorded nothing cannot be resumed after it disconnects |
| `Events.SortBySeq` | internal/replayindex/store.go:89-91 | An ascending list with the same members |
| `Events.StreamingTopN` | internal/replayindex/store.go:83-94 | For every arrival order and redelivery, trimmed lines included, the kept lines are the last n of the deduplicated, sorted batch |
| `Events.BatchIsFirstArrivals` | internal/replayindex/store.go:83-91 | The batch is ascending and holds exactly the first arrival of each seq |
| `Events.OrderIndependence` | internal/replayindex/store.go:83-94 | The kept seqs depend only on which seqs arrived |
| `Events.SuffixIsTail` | internal/replayindex/store.go:116-120 | The events after a seq are a tail of the ascending list |
| `Events.PageIsFull` | internal/replayindex/store.go:115-124 | A page holds the oldest newer events, as many as limit and supply allow |
| `Events.ResumeAfterPage` | internal/replayindex/store.go:115-124 | A page and what follows its last seq make up the whole suffix, and less is left |
| `Events.PagingIsComplete` | internal/replayindex/store.go:101-127 | Asking again with the last seq received ends and yields the stored suffix without gap or repeat |
| `ReplayIndex.Store.constructor` | internal/replayindex/store.go:37-54 | Empty, with every bound positive |
| `ReplayIndex.EffectiveBounds` | internal/replayindex/store.go:37-54 | Bounds are those given if positive, else 10000 sessions, 512 lines and a day |
| `ReplayIndex.Store.EvictExpired` | internal/replayindex/store.go:144-150 | Removes exactly the expired sessions |
| `ReplayIndex.Store.EvictOldest` | internal/replayindex/store.go:152-166 | Removes one session of least expiry, in whatever order the map is traversed |
| `ReplayIndex.Store.Ingest` | internal/replayindex/store.go:58-98 | The whole store afterwards: expiry, creation, a legal victim, deduplication, sorted insertion and trim on shared session objects |
| `ReplayIndex.LatestEventOwns` | internal/replayindex/store.go:79-81 | A session belongs to whoever its latest event came from and lives one TTL from then; the others are untouched |
| `ReplayIndex.TakenInExactly` | internal/replayindex/store.go:58-78 | Events without session or user change nothing; any other makes its session live unless that is the victim |
| `ReplayIndex.Store.LookUpOrCreate` | internal/replayindex/store.go:65-78 | The session object to update, which eviction may just have unlinked |
| `ReplayIndex.Store.Update` | internal/replayindex/store.go:79-97 | Owner, provider and expiry refreshed; the event kept in order unless its seq is known; max seq raised only then |
| `ReplayIndex.Added` | internal/replayindex/store.go:88-94 | Append, sort and trim together are a sorted insertion cut to the limit |
| `ReplayIndex.Store.Query` | internal/replayindex/store.go:101-127 | The first `limit` (256 by default) events after the seq, to owner and provider before expiry |
| `ReplayIndex.OnlyTheOwnerIsAnswered` | internal/replayindex/store.go:101-127 | A query is answered if and only if it comes from the session's user on its provider, before expiry, and something newer is stored; then with the oldest newer events up to the limit |
| `ReplayIndex.FirstNewer` | internal/replayindex/store.go:115-124 | The loop collects exactly the first page of newer events |
| `ReplayRuns.SizeBound` | internal/replayindex/store.go:73-78 | The number of sessions never exceeds the bound, under any clock |
| `ReplayRuns.SessionHoldsTopN` | internal/replayindex/store.go:58-98 | A session never evicted holds the last MaxLinesPerSess of its deduplicated, sorted input |
| `ReplayRuns.HasLatestOwner` | internal/replayindex/store.go:79-81 | Over every run a session never evicted belongs to its latest event's user and provider |
| `ReplayRuns.RemembersHighestSeq` | internal/replayindex/store.go:95-97 | Its max seq is the highest of all arrivals, trimmed ones included |
| `ReplayRuns.RecencyOrder` | internal/replayindex/store.go:79-81 | Under a strictly increasing clock recency of last ingest is the order of expiry |
| `ReplayRuns.FullOrNot` | internal/replayindex/store.go:75-77 | The index is full exactly when its oldest slot is occupied by a live session |
| `ReplayRuns.LruStep` | internal/replayindex/store.go:62-81 | One ingest keeps the index a least-recently-used cache with TTL |
| `ReplayRuns.LruWithTtl` | internal/replayindex/store.go:62-81 | After every ingest under a strictly increasing clock the ids indexed are exactly those among the MaxSessions most recent whose last ingest is within TTL, the one just ingested included |
| `ReplayRuns.LruForAllEvents` | internal/replayindex/store.go:58-61 | The same for runs with anonymous or unnamed events, which change nothing |
| `ReplayRuns.NewSessionSafety` | internal/replayindex/store.go:152-166 | Under any clock: the session ingested survives every map order if and only if it was known, there was room, or another expires strictly earlier |
| `ReplayRuns.TieEvictsNewSession` | internal/replayindex/store.go:75-77 | From the empty index, with room for one session, a second session ingested at the same clock reading can evict itself and lose its event |
| `Breaker.EffectiveConfig` | internal/modelcb/breaker.go:312-341 | Merged and normalised configuration is positive, stable and keeps explicit settings |
| `Breaker.Breaker.Allow` | internal/modelcb/breaker.go:178-207 | Decision and new state for every state and time |
| `Breaker.Breaker.RecordSuccess` | internal/modelcb/breaker.go:209-227 | New state for every state, closing after enough half-open successes |
| `Breaker.Breaker.RecordDialFailure` | internal/modelcb/breaker.go:229-259 | New state for every state and reason; an open breaker is untouched |
| `Breaker.Breaker.RecordStreamFailure` | internal/modelcb/breaker.go:261-282 | New state for every state; an open breaker is untouched |
| `Breaker.Breaker.OpenCircuit` | internal/modelcb/breaker.go:284-291 | Open with all counters zero |
| `Breaker.CountersRefineLog` | internal/modelcb/breaker.go:178-291 | In every reachable state the closed counters are the failures in the log since its last success, below the threshold; otherwise they are zero, and a probe is only in flight half-open |
| `Breaker.OpensExactlyWhen` | internal/modelcb/breaker.go:229-282 | From closed it opens exactly when a count reaches OpenAfter or an auth failure arrives |
| `Breaker.NothingBeforeOpenUntil` | internal/modelcb/breaker.go:185-193 | Whatever is recorded, nothing is granted before openUntil and the timer does not move |
| `Breaker.HalfOpenBudget` | internal/modelcb/breaker.go:194-227 | Grants left in a half-open state are bounded by successes still missing, less the probe in flight |
| `Breaker.HalfOpenPeriodBound` | internal/modelcb/breaker.go:185-227 | A half-open period grants at most HalfOpenSuccess dials, whatever stray or missing outcomes |
| `Breaker.RecoversExactly` | internal/modelcb/breaker.go:194-227 | Once the opening is over one dial after another is granted as long as they succeed, and exactly the HalfOpenSuccess-th success closes the breaker with all counters clear |
| `Breaker.RetryAfterExactly` | internal/modelcb/breaker.go:186-192 | A refused caller that asks again is granted exactly from the time it was told on |
| `Breaker.DecisionNamesTheState` | internal/modelcb/breaker.go:178-207 | The state told is the one the breaker is left in; when each state grants; a refusal changes nothing |
| `Breaker.RefusalsNameTheFailure` | internal/modelcb/breaker.go:229-291 | The failure that opens the breaker decides how long and which reason every refusal gives |
| `Breaker.LostProbeBlocks` | internal/modelcb/breaker.go:198-203 | After a granted probe whose outcome is never recorded, every later request is refused and nothing changes |
| `Breaker.GrantNeedsOutcome` | internal/modelcb/breaker.go:198-203 | With a probe in flight the next grant comes only after some outcome was recorded |
| `Breaker.ReopeningSpacesExactly` | internal/modelcb/breaker.go:229-291 | After a probe granted at g, every later grant keeps the shorter opening's distance if and only if the reopening failure's time plus its opening is not before g plus that distance |
| `Breaker.SpacingExactly` | internal/modelcb/breaker.go:178-291 | Over whole runs without a success: at every moment the next grant keeps the distance if and only if every reopening so far was late enough |
| `Breaker.DialRateBound` | internal/modelcb/breaker.go:178-282 | Without successes and with late enough reopenings, k grants span at least (k-1) times the shorter opening and consecutive ones are that far apart; nothing is assumed of the order of other call times |
| `Breaker.ProbeTimesAreLate` | internal/offer/intake.go:127-160 | A reopening recorded with a time not before its probe's, as an offer records its own dial, is always late enough, however long the dial took |
| `Breaker.TimedIsLate` | internal/modelcb/breaker.go:178-282 | Under call times that never go back all reopenings are late enough |
| `Breaker.StaleTimeDefeatsSpacing` | internal/offer/intake.go:127-160 | From the start, with every dial recorded at the time it asked: a slow earlier dial's failure reopens the breaker in the past and two grants fall on the same instant |
| `Kafka.Publisher.Publish` | internal/sidechannel/kafka.go:62-74 | Enqueues, or counts a drop when full or closed |
| `Kafka.Publisher.BeginClose` | internal/sidechannel/kafka.go:107-115 | Only the first call closes the channel |
| `Kafka.PublishIsItsSteps` | internal/sidechannel/kafka.go:62-74 | The steps of Publish run alone are the method, and the event is accepted exactly when no drop was counted |
| `Kafka.CloseIsItsSteps` | internal/sidechannel/kafka.go:107-115 | The steps of Close run alone are the method; only the first caller goes on to wait |
| `Kafka.StepKeepsInv` | internal/sidechannel/kafka.go:62-119 | Every step of publishers, closers and drain keeps lock discipline and event accounting |
| `Kafka.ShutdownSafety` | internal/sidechannel/kafka.go:62-119 | From any such state and in every interleaving: no send on or second close of a closed channel, drained events a prefix of the accepted, calls = accepted + dropped, a returned Close means all drained |
| `Kafka.ShutdownSafetyFromStart` | internal/sidechannel/kafka.go:50-119 | The same for every run from the start |
| `Kafka.ShutdownProgress` | internal/sidechannel/kafka.go:76-119 | After the close nothing more is accepted, the drain always has a step until it exits, after exactly the queued number plus one, and then a waiting Close is released |
| `Adaptive.SessionController.constructor` | internal/adaptive/adaptive.go:41-46 | Starts at the best level and applies it |
| `Adaptive.SessionController.Step` | internal/adaptive/adaptive.go:49-61 | At most one level per decision; the applied complexity is always that of the level |
| `Adaptive.HeavyLoadDegrades` | internal/adaptive/adaptive.go:49-61 | A load at or above all thresholds costs one level per decision, down to the last |
| `Adaptive.LightLoadRestores` | internal/adaptive/adaptive.go:49-61 | A load below all thresholds restores one level per decision, up to the best |
| `Adaptive.NoFlapping` | internal/adaptive/adaptive.go:49-61 | For every load sequence, reversals times (smallest gap + 1) are at most the load's total variation |
| `Adaptive.VariationPaysForReversals` | internal/adaptive/adaptive.go:49-61 | The variation pays for every reversal so far and for the distance from the load of the last move |
| `Adaptive.ConstantLoadSettles` | internal/adaptive/adaptive.go:49-61 | Without a trap for the load, at any number of levels, the level moves one way only and stands still within one less decision than there are levels |
| `Adaptive.TrapFlaps` | internal/adaptive/adaptive.go:49-61 | A load between inverted thresholds of a boundary, not held by the next boundary, makes the level alternate across it for ever |
| `Adaptive.SettlesExactly` | internal/adaptive/adaptive.go:49-61 | A constant load settles from every level if and only if no boundary traps it |
| `Adaptive.SafeThresholdsExactly` | internal/adaptive/adaptive.go:23-25 | Every constant load settles if and only if each boundary has its thresholds in the documented order or the next boundary takes over no later |
| `Adaptive.DocumentedOrderSettles` | internal/adaptive/adaptive.go:23-25 | With thresholds in the documented order every constant load moves the level one way only and settles |
| `Adaptive.InvertedThresholdsFlap` | internal/adaptive/adaptive.go:23-25 | With two levels and inverted thresholds a load between them reverses at every decision (a case of Adaptive.TrapFlaps) |
| `Adaptive.DriftController.Step` | internal/adaptive/adaptive.go:110-127 | At most one level, not before the dwell is over, and the new level is applied |
| `Adaptive.DriftMovesExactly` | internal/adaptive/adaptive.go:110-127 | The level moves exactly when the dwell is over and a watermark is crossed with a level left that way |
| `Adaptive.HighDriftDegrades` | internal/adaptive/adaptive.go:108-127 | Under high drift quality falls one level every dwell ticks |
| `Adaptive.DwellBoundsChanges` | internal/adaptive/adaptive.go:108-127 | Changes times dwell never exceed ticks; each change is one level in the direction of the watermark crossed |
| `Adaptive.SumDeltas` | internal/adaptive/adaptive.go:143-146 | The 64-bit sum of the histogram differences, whatever the map order |
| `Adaptive.DeltaIsGrowth` | internal/adaptive/adaptive.go:143-150 | A bucket's difference is what it grew by, even across a 64-bit wrap |
| `Adaptive.RecentDrift` | internal/adaptive/adaptive.go:141-151 | The exact share of late frames, between 0 and 1 when the bucket is present and the true total fits |
| `Doubao.BuildFrame` | internal/model/doubao/protocol.go:72-86 | Header, event, session if any, length and payload, 32-bit fields truncated as in the source |
| `Doubao.ParseEvent` | internal/model/doubao/protocol.go:122-141 | Event and session id, or short, with the cursor behind them |
| `Doubao.ParseFrame` | internal/model/doubao/protocol.go:101-163 | Total on all bytes with every slice in bounds; short inputs are the only error |
| `Doubao.GetPut32` | internal/model/doubao/protocol.go:79 | Reading a written integer gives it modulo 2^32 |
| `Doubao.PutGet32` | internal/model/doubao/protocol.go:117 | Writing what was read gives the same four bytes |
| `Doubao.ParseBuild` | internal/model/doubao/protocol.go:72-163 | Every encodable request parses back unchanged, whatever follows, and parsing stops at the frame's end |
| `Doubao.RoundTripExactly` | internal/model/doubao/protocol.go:72-163 | A request survives the round trip if and only if it is encodable |
| `Doubao.ParseIsLocal` | internal/model/doubao/protocol.go:101-163 | On arbitrary bytes the result depends only on the bytes up to the frame's end |
| `Doubao.ShorterIsShort` | internal/model/doubao/protocol.go:99-163 | Every shorter prefix of any accepted input is rejected as short |
| `Doubao.PrefixIsShort` | internal/model/doubao/protocol.go:72-163 | Every strict prefix of a built frame is rejected as short |
| `Doubao.BuildParseExactly` | internal/model/doubao/protocol.go:72-163 | An accepted input is a built frame plus trailing bytes if and only if header, reserved byte and flags are the builder's and the content is encodable |
| `Doubao.ParsesWhatServerSends` | internal/model/doubao/protocol.go:101-163 | Every frame of the format parses back, for any flags, header size, sequence number and error code, whatever follows |
| `Doubao.BigEndian` | internal/model/doubao/protocol.go:79 | 32-bit fields are big-endian |
| `Doubao.NibbleLayout` | internal/model/doubao/protocol.go:12-16 | Which half of a header byte holds which field |
| `Doubao.FlagBits` | internal/model/doubao/protocol.go:32-35 | Which flag bits ask for a sequence number and which for an event |
| `Doubao.HeaderIsCounted` | internal/model/doubao/protocol.go:111 | The low half of the first byte counts the header in units of four bytes |
| `Doubao.ConnectionEventsHaveNoSession` | internal/model/doubao/protocol.go:61-83 | Exactly events 1, 2, 50, 51 and 52 go without a session id |
| `Doubao.StartConnectionBytes` | internal/model/doubao/protocol.go:72-86 | The bytes of a start of connection |
| `Doubao.AudioRequestBytes` | internal/model/doubao/protocol.go:72-86 | The bytes of an audio chunk in a session |
| `Framing.FramesPartition` | internal/rtc/bridge.go:526-529 | Frames and rest lose and reorder nothing, every frame is full, the rest is shorter than one |
| `Framing.FramesResume` | internal/rtc/bridge.go:526-529 | Framing a concatenation resumes from the rest |
| `Outbound.WriteOutboundLoop` | internal/rtc/bridge.go:494-553 | For every chunking and every pattern of encode, write and cancel outcomes: what is encoded, written, kept and reported, and where it stops |
| `Outbound.ChunkInvariance` | internal/rtc/bridge.go:517-552 | Undisturbed runs over differently cut copies of one stream are identical, and encode exactly its frames |
| `Outbound.WrittenFrames` | internal/rtc/bridge.go:528-538 | At most one write per frame; all frames are written exactly when no encode fails |
| `Outbound.WrittenAreTheEncoded` | internal/rtc/bridge.go:527-538 | Exactly the frames whose encode succeeded are written, each in its turn |
| `Resample.ResampleLinear` | internal/audio/resample.go:7-29 | Every index is in bounds, and each element is the truncated interpolation at its position |
| `Resample.TruncatesTowardZero` | internal/audio/resample.go:26 | The conversion to an integer truncates toward zero for both signs |
| `Resample.Between` | internal/audio/resample.go:17-26 | Every output sample lies between its two neighbouring inputs, at any rates |
| `Resample.Doubled` | internal/audio/resample.go:17-26 | 24 to 48 kHz: inputs at even places, truncated midpoints at odd ones |
| `Resample.DoubleThenHalve` | internal/audio/resample.go:3-6 | 24 to 48 and back to 24 kHz is the identity |
| `Resample.ThirdsDistributeExactly` | internal/audio/resample.go:3-6 | 48 to 16 kHz distributes over concatenation for all contents if and only if the first chunk is whole triples or no sample is completed by the second |
| `Xtts.HandleRead` | internal/model/cascade/tts/xtts.go:224-238 | One read with the carry slice's own backing array: what is decoded, aliasing included, and what is carried |
| `Xtts.DecodesWhatWasEncoded` | internal/model/cascade/tts/xtts.go:235-238 | Samples sent low byte first come back, sign included |
| `Xtts.Stream` | internal/model/cascade/tts/xtts.go:209-254 | The frames sent are the full 960-sample frames of the resampled stream and a shorter non-empty tail; a cancelled run sent a prefix |
| `Xtts.StreamLength` | internal/model/cascade/tts/xtts.go:222-246 | For any split the output has 2*floor(bytes/2) samples and the carried byte is the true last one |
| `Xtts.EvenSamples` | internal/model/cascade/tts/xtts.go:235-239 | Even-indexed output samples are the decoded input samples, wherever reads were cut |
| `Xtts.ShortReadDamages` | internal/model/cascade/tts/xtts.go:226-232 | A short even read with a byte carried damages some content of that shape |
| `Xtts.ExactForAllContents` | internal/model/cascade/tts/xtts.go:222-238 | The decoded bytes are right for all contents if and only if no such read occurs |
| `Xtts.SplitInvariance` | internal/model/cascade/tts/xtts.go:222-246 | Two safe splits of one byte stream decode to the same bytes, lengths and even-indexed samples |

## Left out

- Reconnect.OneLog: resolving, dialling and committing one reconnect are one step, as are the reads of a live Resume and its takeover, so one live session exists per id (Reconnect.OverlappingReconnects shows what overlap breaks), and the page-limited index is assumed to know nothing of a session for users other than its own, and a session is not dropped before its first line (see Reconnect.EmptySessionIsForgotten); an index hit has the weaker property Replay.IndexHitContinues.
- BargeIn.AudibleExactly: says what a run can do, not how likely a scheduler is to do it.
- Returning.ReturnsExactly: an LLM or TTS stage that ignores cancellation and never closes its channel is not modelled; shutdown by context is not a step.
- Turn.Cascade.Run: emitting a transcript never blocks and barge-in is one effect; Timers and BargeIn each interleave their own part of run.
- Resample.ResampleLinear: exact rationals instead of float64, which agree at the ratios used (3, 2, 1/2); returning the input slice itself is not told apart from returning a copy.
- Xtts.Stream: read errors and end of stream both end the list of reads; the HTTP request is not modelled.
- Outbound.WriteOutboundLoop: metrics, logging and realized frame intervals are not modelled.
- Adaptive.RecentDrift: the quotient is an exact real.
- Breaker.EffectiveConfig: the manager's map of breakers, error classification, statistics and the early-fault window of stream reports are left out; they are single branches around the breaker.
- ReplayIndex.Store.Ingest: nil events are not represented and the read-write lock makes each call one step; Stats is left out.
- Segments.EndsSentenceScan: the Unicode class Po is a parameter, as is lower-casing in Text.
- Doubao.BuildFrame: session ids are byte strings.
- ParseReplayHeaders: trimming and decimal parsing of headers only; the parsed headers are the input of ResolveReplay.
- Sequence numbers do not wrap at 2^64.
- Real Kafka production, marshalling and partition keys; the drain goroutine takes events in order.
- The AudioSource seam, Close and its wait group in the cascade, CloseAll and Count in the hub, transcript listeners.
- WebRTC, SDP, Opus, WebSockets, HTTP handlers, Redis, gzip, protobuf, the Gemini and Doubao session wiring, configuration, authentication, rate limiting and metrics.
