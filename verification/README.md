# Realtime chat message stream: a verified model

A stream is one append-only log of messages, numbered 1, 2, 3, … It is written by concurrent
sends, edits and deletions; read in pages that fit into an envelope; and shown by a client that merges
pages, live messages and the acceptances of its own sends, in whatever order they arrive. This
project models each of these parts and proves that they agree.

- `Messages`, `Contracts`: messages, targets, ranks, and the response contracts of the wire.
- `TimelineSpec`, `TimelineRuns`, `TimelineCoverage`, `TimelineArrivals`, `OlderHistory`: the client's timeline
  on values, what every run of it keeps, what it shows when it is fed from one log, and what each single
  input does to it, also before its first page.
  `StreamMessagesTimeline` is the same timeline as a class over maps, sets and a list updated in place,
  proved equal to the specification operation by operation, also where it throws.
- `MessageStore`, `StoreInvariants`, `StoreAnswers`, `MessageTables`, `SendRuns`: the transactions on values, the
  invariants of the store, what each transaction answers and writes field by field, the tables updated in
  place, and sends interleaved step by step (the lookup before the transaction is a step of its own).
- `StreamReaders`, `PagePolicy`, `PagePipeline`, `ServedAnswers`, `StreamLog`: snapshot reads, the window check,
  fitting, who is answered what, and chains of pages seen as stretches of the log.
- `EndToEnd`: store, pages, wire and timeline as one system; `EveryRunShowsTheLog` is its theorem.
- `CursorStorage`, `GapBuffer`, `RecoverySpec`, `RecoveryRuns`, `RecoveryExits`, `RecoveryOutcomes`,
  `RecoveryPhases`, `RecoveryLives`, `RecoveryLimits`, `StreamMessagesSession`: how far arrivals move the cursor,
  the recovery loop, its termination, how each turn ends, what a recovery achieves, in which phase an attempt
  ends and what it saves, and where recovery does not get.
- `RecoveryInWorld`: recovery within a run of `EndToEnd`.
- `TokenBucket`, `TokenBucketRuns`: the rate limiter's script and its bounds.
- `ChatKeys`, `ChatRuns`, `ChatLives`, `RealtimeChatSession`: optimistic sends, aliases, the displayed keys, and
  what becomes of each send.
- `GatewayRelay`, `GatewayAnswers`: request slots in the gateway, and who is told what.
- `AuthenticatedRealtimeSession`, `LinkLives`: matching answers to requests across reconnects, and what becomes
  of each connection and request.

`dafny verify dfyconfig.toml` checks everything.

## What turned out not to hold

- Recovery does not always reach the head. Resumed under a stored watermark below the head, with nothing
  buffered that tells of more, it ends ready short of it (`RecoveryLimits.OlderWatermarkStopsShort`);
  `RecoveryOutcomes.QuietRecovery` gives the exact condition.
- A session can get its cursor beyond the watermark it keeps, and is stuck then: no page can answer its
  requests, and no rate limit can be waited for. Live messages or acceptances do it in four ways: while a
  page is under way, which then is a cursor mismatch and leaves its watermark behind
  (packages/realtime-chat-stream-messages-client/src/session-model.ts:218-230,
  `RecoveryLimits.LiveMessagesGetItStuck`); while any other request is under way, for example one refused for
  its rate, after which the cursor cannot be saved (session-model.ts:204-206, 267-282,
  `RecoveryLimits.RateLimitGetsItStuck`); in a wait of the loop, the delay of a rate limit or the pause of a full
  batch (session-model.ts:207, 257, `RecoveryLimits.DelayGetsItStuck`); and while no recovery runs, before the
  first one or after one that failed and left its watermark in place (session-model.ts:135-160,
  packages/realtime-chat-stream-messages-client/src/realtime-chat-session.ts:498, 583,
  `RecoveryLimits.BetweenAttemptsGetsItStuck`). `RecoveryExits.TurnExits` says exactly when a turn does it,
  `RecoveryExits.WaitSticksExactly` when a wait between recoveries does, and `RecoveryLives.GetsStuckExactly`
  that nothing else does, over the whole life of a session. Every later recovery of that session fails
  (`RecoveryLimits.StuckForGood`). Reloading helps, since a saved cursor is never beyond its watermark
  (`RecoveryLimits.ReloadingGetsUnstuck`).
- That no message moves the cursor during a request is not enough for a recovery to succeed: the waits count
  too. `RecoveryOutcomes.Friendly` is the exact condition on a round
  (`RecoveryOutcomes.SucceedsExactlyWhenFriendly`), `RecoveryOutcomes.FriendlyRecovery` what it gives.
- With a rate limiter the gateway can have two upstream calls for one session and target
  (`GatewayRelay.TwoAtWorkWithLimiter`).
- With a rate limiter, a request that waits for it when its session closes takes its slot and calls upstream
  if it is let through later (packages/realtime-chat-stream-messages-gateway/src/gateway-relay.ts:182-215,
  `GatewayRelay.ClosedRequestIsLetThrough`).
- The bucket's bound over an interval needs a clock that does not go back (`TokenBucketRuns.ClockStepsBack`);
  for any clock the forward steps take the place of the interval (`TokenBucketRuns.AdmitsAtMostForward`).

## Assumptions

- A transaction is one atomic step; a repeatable-read query is a function of one store; what a page is
  read for is resolved by an earlier query, on a store of its own. Stream ids are generated from targets, so
  streams are kept by target.
- The client's cursor is restored only on a fresh timeline, from its constructor. The transport answers the
  older request that was asked.
- `RecoveryRuns.HonestSetting` states what recovery assumes of its surroundings: pages are those of
  `EndToEnd.ServedPagesAreHonest`, arrivals are messages of the log and the older pages that
  are asked for, the log is bounded, and rate limits end.
- Fingerprints and measurers are arbitrary, times are integers, ids are opaque.

## Model

| member | source | states |
|---|---|---|
| `EndToEnd.EveryRunShowsTheLog` | packages/realtime-chat-stream-messages-client/src/session-model.ts:121-265 | Over every interleaving of transactions, served pages and arrivals (late, lost, repeated, reordered), the displayed list ends with exactly the stored messages from the lower end to the cursor, each once, in order; with no older history left it is the whole log up to the cursor |
| `EndToEnd.RunKeeps` | packages/realtime-chat-stream-messages-client/src/timeline-model.ts:123-201 | Every such run keeps store, wire and timeline sound, and the cursor never goes back |
| `EndToEnd.ArrivalIsGood` | packages/realtime-chat-stream-messages-client/src/timeline-model.ts:142-201 | Whatever arrives is taken without a protocol error, except a sync page that no longer fits the cursor, which changes nothing |
| `EndToEnd.TransactKeeps` | packages/realtime-chat-message-send/src/usecases/send-message/send-message.kysely.ts:90-165 | No send, edit or deletion breaks what has already been shown or is still on the wire |
| `EndToEnd.ServesKeeps` | apps/realtime-chat-api/src/features/stream-messages/page-policy.ts:44-116 | Every page served from any reachable store is a contract-abiding stretch of the log |
| `EndToEnd.ServedPagesAreHonest` | packages/realtime-chat-stream-messages/src/usecases/sync-after/sync-after.usecase.ts:59-122 | A served sync page is what recovery relies on: from the requested cursor, under the requested watermark or else the head, all from the log |
| `EndToEnd.EveryRecordWasSent` | packages/realtime-chat-stream-messages-client/src/timeline-model.ts:234-249 | In every such run, whatever the client knows of a message has been on the wire in just that form |
| `TimelineRuns.ApplyKeeps` | packages/realtime-chat-stream-messages-client/src/timeline-model.ts:123-214 | Each operation, also when it throws, keeps the id/sequence bijection, the buffer strictly above the cursor and disjoint from the display, and acceptances buffered; nothing displayed or accepted is lost |
| `TimelineRuns.RunKeeps` | packages/realtime-chat-stream-messages-client/src/timeline-model.ts:123-327 | The same over any sequence of operations; without direct replacements no record goes back in its life cycle |
| `TimelineRuns.AcceptedIsNeverLost` | packages/realtime-chat-stream-messages-client/src/timeline-model.ts:186-201 | From acceptance on, after any further operations, a message is in exactly one of buffer and display, and stays on display once there |
| `TimelineRuns.JumpProgress` | packages/realtime-chat-stream-messages-client/src/timeline-model.ts:294-308 | When a page jumps the cursor, exactly the accepted messages it passes go on display, and exactly what is beyond it stays buffered |
| `TimelineRuns.InsertHistoryMaximises` | packages/realtime-chat-stream-messages-client/src/timeline-model.ts:234-249 | Merging a history message leaves the greater of the two ranks (plain, edited at, deleted) and touches no other record |
| `TimelineRuns.InsertAllReachesTopRank` | packages/realtime-chat-stream-messages-client/src/timeline-model.ts:234-249 | After a page, each record has the greatest rank of all versions seen of it |
| `TimelineRuns.FinalRankIgnoresOrder` | packages/realtime-chat-stream-messages-client/src/timeline-model.ts:234-249 | The final rank does not depend on the order in which history arrives, nor on repeats |
| `TimelineCoverage.LiveTracks` | packages/realtime-chat-stream-messages-client/src/timeline-model.ts:166-184 | A live message of the log never conflicts, keeps the displayed stretch gapless and the cursor from going back |
| `TimelineCoverage.AcceptedTracks` | packages/realtime-chat-stream-messages-client/src/timeline-model.ts:186-201 | The same for an accepted message |
| `TimelineCoverage.LatestTracks` | packages/realtime-chat-stream-messages-client/src/timeline-model.ts:123-132 | The latest page establishes the gapless stretch from its oldest message to the cursor |
| `TimelineCoverage.OlderTracks` | packages/realtime-chat-stream-messages-client/src/timeline-model.ts:134-140 | An older page strictly lowers the lower end and keeps the stretch gapless; the cursor stays |
| `TimelineCoverage.SyncTracks` | packages/realtime-chat-stream-messages-client/src/timeline-model.ts:142-164 | A sync page is taken exactly if it starts at the cursor, which then reaches its end; otherwise it is a cursor mismatch and nothing changes |
| `TimelineCoverage.ReplaceTracks` | packages/realtime-chat-stream-messages-client/src/timeline-model.ts:203-214 | Replacing a known message keeps the stretch and the cursor |
| `TimelineCoverage.DisplayedListEndsWithLog` | packages/realtime-chat-stream-messages-client/src/timeline-model.ts:108-110 | The displayed ids end with the log from the lower end to the cursor |
| `TimelineCoverage.DisplayedListIsTheLog` | packages/realtime-chat-stream-messages-client/src/timeline-model.ts:108-110 | With no older history left the displayed ids are the log up to the cursor |
| `TimelineArrivals.RefusedExactly` | packages/realtime-chat-stream-messages-client/src/timeline-model.ts:314-350 | A message passes the checks exactly if it is of this stream and contradicts no known id or place; a mismatch of stream or target is told apart |
| `TimelineArrivals.LiveIsLearnt` | packages/realtime-chat-stream-messages-client/src/timeline-model.ts:166-184 | A live message becomes known as it came, unless it is known already or the cursor has passed it |
| `TimelineArrivals.AcceptedIsLearnt` | packages/realtime-chat-stream-messages-client/src/timeline-model.ts:186-201 | An accepted message becomes known as it came, unless it is known already, and is on display if the cursor has passed it |
| `TimelineArrivals.HistoryIsLearnt` | packages/realtime-chat-stream-messages-client/src/timeline-model.ts:234-249 | A page message becomes known as it came; it replaces what is known unless that is deleted or has a later edit |
| `TimelineArrivals.InputIsLearnt` | packages/realtime-chat-stream-messages-client/src/timeline-model.ts:123-214 | Whatever comes in, no record holds anything but what was known before or has just come in |
| `TimelineArrivals.ReplacedExactly` | packages/realtime-chat-stream-messages-client/src/timeline-model.ts:203-214 | A replacement puts exactly that record in place of a known one, ignores an unknown one, and is refused unchanged if it does not fit |
| `TimelineArrivals.SyncIsRefused` | packages/realtime-chat-stream-messages-client/src/timeline-model.ts:142-157 | Which sync pages are refused, with which error, and that they change nothing |
| `TimelineArrivals.HistoryIsRefused` | packages/realtime-chat-stream-messages-client/src/timeline-model.ts:123-140 | The same for latest and older pages, which only have to be of this stream |
| `TimelineArrivals.InsertedUpToConflict` | packages/realtime-chat-stream-messages-client/src/timeline-model.ts:123-140 | A page is inserted up to the first message that does not fit what is known by then, and no further |
| `TimelineArrivals.LiveWaits` | packages/realtime-chat-stream-messages-client/src/timeline-model.ts:166-172 | Before the first page a live message waits in the buffer unless it is on display, and nothing else changes |
| `TimelineArrivals.AcceptedWaits` | packages/realtime-chat-stream-messages-client/src/timeline-model.ts:186-199 | Before the first page an accepted message waits too, and is noted as accepted |
| `TimelineArrivals.ArrivalsWait` | packages/realtime-chat-stream-messages-client/src/timeline-model.ts:166-199 | Over any run of arrivals before the first page: exactly what arrived live or was accepted waits, and nothing is on display |
| `TimelineArrivals.FirstPageShowsArrivals` | packages/realtime-chat-stream-messages-client/src/timeline-model.ts:123-132 | The latest page after such a run: the cursor ends where the unbroken run of what arrived beyond the page ends, exactly the rest beyond it waits on, and nothing is lost |
| `OlderHistory.OlderRequestStaysAsked` | packages/realtime-chat-stream-messages-client/src/session-model.ts:77-105 | While an older request is under way nothing else moves the lower end, so its page still fits |
| `OlderHistory.OlderPagesRunOut` | packages/realtime-chat-stream-messages-client/src/session-model.ts:77-105 | Each older page lowers the lower end by one at least, and there is more history exactly while it is above 1 |
| `OlderHistory.NothingOlderIsLeft` | packages/realtime-chat-stream-messages-client/src/timeline-model.ts:134-140 | When no older history is left the visible sequences are exactly 1 to the cursor |
| `StreamMessagesTimeline.StreamMessagesTimelineModel.constructor` | packages/realtime-chat-stream-messages-client/src/timeline-model.ts:66-77 | A fresh timeline is empty |
| `StreamMessagesTimeline.StreamMessagesTimelineModel.RestoreCursor` | packages/realtime-chat-stream-messages-client/src/timeline-model.ts:116-121 | Sets the cursor of a fresh timeline |
| `StreamMessagesTimeline.StreamMessagesTimelineModel.InsertionIndex` | packages/realtime-chat-stream-messages-client/src/timeline-model.ts:259-265 | The backward walk finds the place that keeps the list ascending |
| `StreamMessagesTimeline.StreamMessagesTimelineModel.InsertLoadedMessage` | packages/realtime-chat-stream-messages-client/src/timeline-model.ts:251-274 | Refines the specification: registers, splices, clears acceptance and buffer entry |
| `StreamMessagesTimeline.StreamMessagesTimelineModel.DrainContiguousBuffer` | packages/realtime-chat-stream-messages-client/src/timeline-model.ts:283-292 | The loop shows buffered messages for as long as the next one is there |
| `StreamMessagesTimeline.StreamMessagesTimelineModel.DiscardBufferedAtOrBeforeCursor` | packages/realtime-chat-stream-messages-client/src/timeline-model.ts:294-308 | The loop empties the buffer up to the cursor in any visiting order, displaying what was accepted |
| `StreamMessagesTimeline.StreamMessagesTimelineModel.InsertHistoryMessages` | packages/realtime-chat-stream-messages-client/src/timeline-model.ts:123-140 | A page is inserted message by message and left partly inserted on a conflict |
| `StreamMessagesTimeline.StreamMessagesTimelineModel.ApplyLatest` | packages/realtime-chat-stream-messages-client/src/timeline-model.ts:123-132 | Inserts the page (partly, on a conflict), moves the cursor to its watermark, remembers the lower end, clears the buffer up to the cursor and drains it |
| `StreamMessagesTimeline.StreamMessagesTimelineModel.ApplyOlder` | packages/realtime-chat-stream-messages-client/src/timeline-model.ts:134-140 | Inserts the page (partly, on a conflict) and then lowers the lower end; cursor and buffer stay |
| `StreamMessagesTimeline.StreamMessagesTimelineModel.ApplySync` | packages/realtime-chat-stream-messages-client/src/timeline-model.ts:142-164 | Refuses a page that does not start at the cursor or does not move on, unchanged; otherwise inserts it, moves the cursor to its end, clears the buffer up to there, and drains it only if the page is final |
| `StreamMessagesTimeline.StreamMessagesTimelineModel.ApplyLive` | packages/realtime-chat-stream-messages-client/src/timeline-model.ts:166-184 | Ignores what the cursor has passed, shows what comes next together with what it releases, buffers the rest |
| `StreamMessagesTimeline.StreamMessagesTimelineModel.ApplyAccepted` | packages/realtime-chat-stream-messages-client/src/timeline-model.ts:186-201 | Shows an accepted message the cursor has passed, else delivers it like a live one and remembers it until it is shown; a known record wins over the accepted copy |
| `StreamMessagesTimeline.StreamMessagesTimelineModel.ReplaceKnownMessage` | packages/realtime-chat-stream-messages-client/src/timeline-model.ts:203-214 | Replaces a known record and nothing else |
| `StreamMessagesTimeline.StreamMessagesTimelineModel.AssertMessage` | packages/realtime-chat-stream-messages-client/src/timeline-model.ts:314-352 | Target and identity checks: mismatch of target, or of id and sequence, and nothing else, is an error |
| `StreamMessagesTimeline.StreamMessagesTimelineModel.HasBufferedGap` | packages/realtime-chat-stream-messages-client/src/timeline-model.ts:112-114 | True exactly if something is buffered |
| `StreamMessagesTimeline.StreamMessagesTimelineModel.Shown` | packages/realtime-chat-stream-messages-client/src/timeline-model.ts:108-110 | The displayed messages are strictly ascending, without duplicates, and exactly the visible ones |
| `GapBuffer.DrainStopsAtGap` | packages/realtime-chat-stream-messages-client/src/timeline-model.ts:283-292 | Draining moves the cursor through the unbroken run of buffered messages, stops at the first gap and keeps exactly what lies beyond |
| `RecoveryRuns.RunTracks` | packages/realtime-chat-stream-messages-client/src/timeline-model.ts:123-201 | Whatever arrives while the session waits (live messages, acceptances, replacements, older pages) moves the cursor exactly through the unbroken run of what is buffered and what arrives, and leaves exactly the rest in the buffer |
| `RecoveryRuns.RecoveryEnds` | packages/realtime-chat-stream-messages-client/src/session-model.ts:164-265 | Against an honest server with a bounded log and finitely many rate limits the recovery loop ends, whatever arrives live, is accepted, or comes in as an older page |
| `RecoveryRuns.TurnIsGood` | packages/realtime-chat-stream-messages-client/src/session-model.ts:173-264 | Every turn keeps the timeline tracking the log and the saved cursor behind the display, and lowers (distance to the bound, watermark pending, rate limits left) unless it is the last |
| `RecoveryOutcomes.RecoverySucceeds` | packages/realtime-chat-stream-messages-client/src/session-model.ts:236-252 | A recovery that succeeds is ready, has no gap, has saved its cursor without a watermark, and shows at least what was stored when it began, provided it was not resumed under an older watermark |
| `RecoveryExits.TurnExits` | packages/realtime-chat-stream-messages-client/src/session-model.ts:173-264 | How a turn ends, and whether it leaves the session stuck (its cursor beyond the watermark it keeps), for every honest round: stuck exactly if the unbroken run of buffered and arrived messages, during the request or in the pause after it, goes past that watermark |
| `RecoveryExits.WaitSticksExactly` | packages/realtime-chat-stream-messages-client/src/realtime-chat-session.ts:583-585 | While no recovery runs, what arrives gets the session stuck exactly if the unbroken run of buffered and arrived messages goes past the watermark it keeps |
| `RecoveryExits.StuckTurnFails` | packages/realtime-chat-stream-messages-client/src/session-model.ts:173-230 | A turn that begins stuck fails, whatever it meets, and leaves the session stuck |
| `RecoveryOutcomes.TurnFailsExactly` | packages/realtime-chat-stream-messages-client/src/session-model.ts:173-264 | Every cause of a failing turn and exactly when it applies: cancellation, malformed length or delay, refusal, a cursor moved while the page was under way, a cursor that cannot be saved; identity and target errors never |
| `RecoveryOutcomes.BatchesStayWithinLimits` | packages/realtime-chat-stream-messages-client/src/session-model.ts:250-263 | No turn of the loop begins with a full batch: once pages, messages or bytes reach their limit it pauses and starts a new one |
| `RecoveryPhases.AttemptEndsAs` | packages/realtime-chat-stream-messages-client/src/session-model.ts:121-162 | An attempt ends ready, or: cancelled exactly if it was cancelled; else in the phase of its own for an unavailable stream or an invalid cursor, retryable for any other refusal that says so, and as a protocol failure, which alone is thrown, for everything else |
| `RecoveryPhases.FailedRecoveryEndsAs` | packages/realtime-chat-stream-messages-client/src/session-model.ts:135-160 | For a whole recovery that is decided by the refusal, if any, in its last round |
| `RecoveryPhases.TurnCancelled` | packages/realtime-chat-stream-messages-client/src/session-model.ts:204-264 | A turn that fails has been cancelled exactly if that happened during its request, or in a pause or delay that it came to |
| `RecoveryPhases.EarlierCancellationIsForgotten` | packages/realtime-chat-stream-messages-client/src/session-model.ts:60-75 | Only its own rounds cancel a recovery: one of which no round is cancelled does not end as cancelled, whatever was cancelled before it |
| `RecoveryPhases.PageFailsExactly` | packages/realtime-chat-stream-messages-client/src/session-model.ts:215-228 | Of any page, honest or not: one under another watermark is not applied; one that the timeline refuses fails with its error and saves nothing; no other page is a protocol failure |
| `RecoveryPhases.NumbersAreChecked` | packages/realtime-chat-stream-messages-client/src/session-model.ts:192-216 | A rate limit makes no sense exactly without a delay of 1 to 2^53-1 milliseconds, and a page with a size outside 0 to 2^53-1 is an error |
| `RecoveryPhases.TurnCounts` | packages/realtime-chat-stream-messages-client/src/session-model.ts:168-264 | Pages, messages and bytes of a batch are counted up, and from zero after a pause or a final page |
| `RecoveryPhases.TurnSaves` | packages/realtime-chat-stream-messages-client/src/session-model.ts:204-282 | What is saved after a turn: the cursor, its watermark and whether it waits, for a page that was applied or a delay that was begun, and otherwise what was saved before |
| `RecoveryPhases.FirstLoadEnds` | packages/realtime-chat-stream-messages-client/src/session-model.ts:123-133 | Against an honest server a first load fails only if refused, cancelled or of a malformed size, and keeps what arrived; otherwise it is ready with its cursor, at the end of the unbroken run of page and arrivals, saved |
| `RecoveryOutcomes.FriendlyRecovery` | packages/realtime-chat-stream-messages-client/src/session-model.ts:164-265 | Under traffic and a growing log: with pages or valid delays only, no cancellation, no live message right after the cursor while a page is under way, and no wait that takes the cursor past the watermark, recovery ends ready, without a gap, saved without a watermark, at or above the head that its last fresh watermark saw |
| `RecoveryOutcomes.SucceedsExactlyWhenFriendly` | packages/realtime-chat-stream-messages-client/src/session-model.ts:164-265 | Recovery ends, and it succeeds if and only if every round that it runs into is such a round |
| `RecoveryOutcomes.QuietRecovery` | packages/realtime-chat-stream-messages-client/src/session-model.ts:164-265 | When nobody writes or sends, recovery always succeeds, and reaches the head if and only if it had no older watermark, or one at the head, or something buffered told of more |
| `RecoveryLimits.OlderWatermarkStopsShort` | packages/realtime-chat-stream-messages-client/src/session-model.ts:218-252 | Resumed at 1 under a stored watermark of 2 while 3 messages are stored, recovery ends ready with one of them unseen |
| `RecoveryLimits.StuckStays` | packages/realtime-chat-stream-messages-client/src/session-model.ts:164-216 | A stuck session fails in the first round of its next recovery and stays stuck |
| `RecoveryLimits.StuckForGood` | packages/realtime-chat-stream-messages-client/src/session-model.ts:60-75 | However often recovery is tried, and whatever arrives between two attempts, a stuck session does not get ready again |
| `RecoveryLimits.LiveMessagesGetItStuck` | packages/realtime-chat-stream-messages-client/src/session-model.ts:164-230 | The next two messages come live while the first page is under way: a cursor mismatch, and the session is stuck |
| `RecoveryLimits.RateLimitGetsItStuck` | packages/realtime-chat-stream-messages-client/src/session-model.ts:190-208 | They come while a request is refused for its rate: the cursor cannot be saved, there is no mismatch, and the session is stuck |
| `RecoveryLimits.DelayGetsItStuck` | packages/realtime-chat-stream-messages-client/src/session-model.ts:204-209 | They come during the delay after it: nothing fails yet, and the session is stuck |
| `RecoveryLimits.BetweenAttemptsGetsItStuck` | packages/realtime-chat-stream-messages-client/src/session-model.ts:135-160 | They come while no recovery runs: before the first one, or after one that failed because the stream was unavailable and left nothing wrong behind; no turn did it, and the session is stuck |
| `RecoveryLives.GetsStuckExactly` | packages/realtime-chat-stream-messages-client/src/session-model.ts:60-265 | Over the whole life of a session, whenever recoveries start and whatever arrives during or between them, it becomes stuck if and only if some turn leaves it so or some wait between turns passes its watermark |
| `RecoveryLives.RecoveryIsLived` | packages/realtime-chat-stream-messages-client/src/session-model.ts:164-265 | The turns of such a life, one after the other, are the recovery loop, with what its error makes of the phase |
| `RecoveryInWorld.WorldsAreHonest` | packages/realtime-chat-stream-messages-client/src/session-model.ts:173-265 | Every run of the whole system, of bounded length and with finitely many rate limits, is an honest setting to a client that recovers in it: pages from its store, arrivals off its wire |
| `RecoveryInWorld.RecoveryShowsTheLog` | packages/realtime-chat-stream-messages-client/src/session-model.ts:164-265 | There a recovery ends, succeeds if and only if all its rounds are friendly, and however it ends, the displayed list ends with exactly the messages stored by then from its lower end to its cursor |
| `RecoveryLimits.ReloadingGetsUnstuck` | packages/realtime-chat-stream-messages-client/src/session-model.ts:40-58 | A new session built from what a stuck one had saved is not stuck: it is at work again, no further than the old one was |
| `StreamMessagesSession.StreamMessagesSessionModel.constructor` | packages/realtime-chat-stream-messages-client/src/session-model.ts:40-58 | Takes up cursor, watermark and pending state from storage if they can be read, and starts afresh otherwise |
| `StreamMessagesSession.StreamMessagesSessionModel.PersistCursor` | packages/realtime-chat-stream-messages-client/src/session-model.ts:267-282 | Saves cursor, watermark and state, and fails exactly if the cursor is beyond the watermark or one of them is no safe integer |
| `StreamMessagesSession.StreamMessagesSessionModel.Turn` | packages/realtime-chat-stream-messages-client/src/session-model.ts:173-264 | One turn: what arrives during the request comes first, then the page, rate limit or error, the saved cursor, and the pause or the end |
| `StreamMessagesSession.StreamMessagesSessionModel.RecoverAfterCursor` | packages/realtime-chat-stream-messages-client/src/session-model.ts:164-265 | The loop does turn after turn until one ends it, with that outcome and state (its rounds are what RecoveryRuns and RecoveryOutcomes speak of) |
| `StreamMessagesSession.StreamMessagesSessionModel.LoadLatest` | packages/realtime-chat-stream-messages-client/src/session-model.ts:123-133 | A timeline without a cursor starts from the latest page and is ready with its cursor saved |
| `StreamMessagesSession.StreamMessagesSessionModel.Bootstrap` | packages/realtime-chat-stream-messages-client/src/session-model.ts:121-162 | Latest page or recovery; then ready, or the phase and the throw that the cancellation or the last refusal calls for |
| `StreamMessagesSession.StreamMessagesSessionModel.BeginLoadOlder` | packages/realtime-chat-stream-messages-client/src/session-model.ts:77-90 | Asks for the page before the lower end, only if there is one and none is under way |
| `StreamMessagesSession.StreamMessagesSessionModel.FinishLoadOlder` | packages/realtime-chat-stream-messages-client/src/session-model.ts:96-104 | Applies an answer that came in time and frees the request in any case |
| `CursorStorage.StreamMessagesCursorStorage.Load` | packages/realtime-chat-stream-messages-client/src/cursor-storage.ts:41-61 | Only valid cursors come out; anything else is removed |
| `CursorStorage.StreamMessagesCursorStorage.Save` | packages/realtime-chat-stream-messages-client/src/cursor-storage.ts:62-76 | Refuses a cursor beyond its watermark and keeps what it had |
| `MessageTables.Tables.AppendTextMessage` | packages/realtime-chat-message-send/src/usecases/send-message/send-message.kysely.ts:90-165 | The transaction on the tables is the one on values, whose answers and rows StoreAnswers.AppendAnswers tells field by field. A valid store stays valid, nothing stored before is taken back, and only a reused id makes it fail |
| `MessageTables.Tables.EnsureMessageStream` | packages/realtime-chat-message-send/src/usecases/send-message/send-message.kysely.ts:167-185 | Creates the stream of a channel or DM if it is missing |
| `MessageTables.Tables.EnsureThreadMessageStream` | packages/realtime-chat-message-send/src/usecases/send-message/send-message.kysely.ts:187-236 | A thread needs an existing root outside threads; a new one also a root that is not deleted |
| `MessageTables.Tables.AdvanceSequence` | packages/realtime-chat-message-send/src/usecases/send-message/send-message.kysely.ts:250-274 | The place handed out is taken by no row, and no other stream moves |
| `MessageTables.Tables.EditOwnMessage` | packages/realtime-chat-message-mutation/src/usecases/edit-message/edit-message.kysely.ts:45-120 | No row but a live one of the actor in the given target changes, and no stream or receipt; a valid store stays valid, nothing in it is taken back, and a life-cycle failure cannot happen |
| `MessageTables.Tables.DeleteOwnMessage` | packages/realtime-chat-message-mutation/src/usecases/delete-message/delete-message.kysely.ts:36-108 | The same for a deletion, and the tombstone that is returned is the one that stays |
| `StoreInvariants.AppendKeeps` | packages/realtime-chat-message-send/src/usecases/send-message/send-message.kysely.ts:90-165 | Appending keeps dense sequences, one receipt per message, rooted threads and life cycles, whatever it answers; a created message takes the next place; each answer is characterised exactly |
| `StoreInvariants.LookupIsExact` | packages/realtime-chat-message-send/src/usecases/send-message/send-message.kysely.ts:60-88 | A receipt is found exactly for stored keys, its message missing exactly if deleted, never broken |
| `StoreInvariants.NextPlaceIsFree` | packages/realtime-chat-message-send/src/usecases/send-message/send-message.kysely.ts:250-274 | The next sequence of a stream is never taken |
| `StoreInvariants.EditKeeps` | packages/realtime-chat-message-mutation/src/usecases/edit-message/edit-message.kysely.ts:45-139 | Editing changes only the content, version and edit time of a live message of the actor, keeps all invariants, and cannot raise a life-cycle error |
| `StoreInvariants.DeleteKeeps` | packages/realtime-chat-message-mutation/src/usecases/delete-message/delete-message.kysely.ts:36-125 | Deleting leaves a tombstone one version on, or the one already there; all invariants stay and no life-cycle error can be raised |
| `StoreAnswers.EnsureExactly` | packages/realtime-chat-message-send/src/usecases/send-message/send-message.kysely.ts:167-236 | A channel or DM always gets a stream; a thread has or gets one exactly if its root is a message outside threads that stands, or the thread has one already |
| `StoreAnswers.LookupTells` | packages/realtime-chat-message-send/src/usecases/send-message/send-message.kysely.ts:60-88 | A lookup answers with the stored fingerprint and with id, place, sender, time and present text of its message, or without a message once that is deleted |
| `StoreAnswers.AppendAnswers` | packages/realtime-chat-message-send/src/usecases/send-message/send-message.kysely.ts:90-165 | Decided by key, target and id in this order; a created row holds the text, sender, target and time that were sent, at the next place, unedited, and the answer repeats them; a receipt with the fingerprint is all else that is written |
| `StoreAnswers.EditAnswers` | packages/realtime-chat-message-mutation/src/usecases/edit-message/edit-message.kysely.ts:45-139 | Only the sender edits, at the place of the message: the live row gets exactly the text and time, a tombstone is answered with itself, anybody else is refused; nothing else changes |
| `StoreAnswers.DeleteAnswers` | packages/realtime-chat-message-mutation/src/usecases/delete-message/delete-message.kysely.ts:36-125 | Only the sender deletes: the live row loses its text and gets the time, its edit time stays, an earlier tombstone stays as it is |
| `SendRuns.ExecuteSendMessage` | packages/realtime-chat-message-send/src/usecases/send-message/send-message.usecase.ts:70-159 | An uninterrupted send is its three steps: lookup, clearance, transaction |
| `SendRuns.EveryRunIsGood` | packages/realtime-chat-message-send/src/usecases/send-message/send-message.usecase.ts:70-184 | Every interleaving of sends, edits and deletions from the empty store keeps the store valid, every answer justified for good, one creation per key, and versions counting accepted edits and the deletion |
| `SendRuns.RunKeeps` | packages/realtime-chat-message-mutation/src/usecases/edit-message/edit-message.kysely.ts:45-120 | No run takes back a row: its id, stream, sequence, sender and creation time stay, versions do not fall, tombstones and receipts never change |
| `SendRuns.OneMessagePerKey` | packages/realtime-chat-message-send/src/usecases/send-message/send-message.usecase.ts:161-184 | All accepted answers for a sender and key name the same message and sequence; at most one created it |
| `SendRuns.ConflictExactlyOnOtherFingerprint` | packages/realtime-chat-message-send/src/usecases/send-message/send-message.usecase.ts:161-170 | Among answers that a receipt decides, conflicts are exactly the requests with another fingerprint than the stored one |
| `SendRuns.OnlyReusedIdsCrash` | packages/realtime-chat-message-send/src/usecases/send-message/send-message.kysely.ts:288-300 | A send throws only on a reused message id: the life-cycle errors are unreachable |
| `SendRuns.TombstoneStays` | packages/realtime-chat-message-mutation/src/usecases/delete-message/delete-message.kysely.ts:69-75 | After a deletion, any later edit or deletion answers with the same tombstone, whatever ran in between |
| `SendRuns.LookUpAnswers` | packages/realtime-chat-message-send/src/usecases/send-message/send-message.usecase.ts:70-100 | The first step rejects a text that is none, answers a known key from its receipt and the message as it stands, and lets exactly the other requests on |
| `SendRuns.ClearanceAnswers` | packages/realtime-chat-message-send/src/usecases/send-message/send-message.usecase.ts:100-130 | An unresolved target and a denied write are answered each with its own reason and write nothing; only an allowed one goes on |
| `SendRuns.StoreAnswersRequest` | packages/realtime-chat-message-send/src/usecases/send-message/send-message.usecase.ts:100-184 | The last step stores the text that was asked for, or answers why not: the key is known, the target takes no message, the id is used |
| `SendRuns.TextsAreKept` | packages/realtime-chat-message-send/src/usecases/send-message/send-message.usecase.ts:70-184 | In every run a message that stands has the text of the send that created it, or of its last accepted edit |
| `StreamReaders.ResolutionLasts` | packages/realtime-chat-stream-messages/src/resolve-read-target.kysely.ts:17-98 | What a target has resolved to stays so, whatever is stored later |
| `StreamReaders.ThreadsResolve` | packages/realtime-chat-stream-messages/src/resolve-read-target.kysely.ts:17-98 | In a valid store an existing thread is read on the authority of exactly the channel or DM of its root, any other target on its own, and the invalid-origin error is unreachable |
| `Contracts.ValidatePageMessages` | packages/realtime-chat-stream-messages-contracts/src/common.ts:64-103 | The loop accepts exactly the unbroken ascending stretches of the one stream |
| `Messages.CanonicalStreamIdIsInjective` | packages/realtime-chat-stream-messages/src/stream-messages.ts:299-301 | Two targets never share a canonical stream id |
| `StreamReaders.AssertExpectedSequenceWindow` | packages/realtime-chat-stream-messages/src/stream-messages.ts:303-335 | The check accepts exactly the rows that carry first to last, one by one |
| `StreamReaders.RowsBetweenSelects` | packages/realtime-chat-stream-messages/src/usecases/sync-after/sync-after.kysely.ts:78-82 | The query selects all rows of the stream within the bounds and no others, strictly ascending |
| `PagePipeline.ReadAfterIsStretch` | packages/realtime-chat-stream-messages/src/usecases/sync-after/sync-after.kysely.ts:54-103 | On a valid store the sync reader reports no gap and reads the next rows under the watermark |
| `PagePipeline.ReadOlderIsStretch` | packages/realtime-chat-stream-messages/src/usecases/load-older/load-older.kysely.ts:49-92 | On a valid store the older reader reports no gap and reads the rows right before the cursor |
| `PagePipeline.ReadLatestIsStretch` | packages/realtime-chat-stream-messages/src/usecases/load-latest/load-latest.kysely.ts:47-82 | On a valid store the latest reader reports no gap and reads the last five rows |
| `PagePipeline.GapExactlyWhenMissing` | packages/realtime-chat-stream-messages/src/usecases/sync-after/sync-after.kysely.ts:83-101 | On any store the sync reader reports a gap exactly if a place in the window it asks for is empty |
| `PagePolicy.FitContiguousMessages` | apps/realtime-chat-api/src/features/stream-messages/page-policy.ts:140-179 | The loop equals the specification of fitting |
| `PagePolicy.FitIsLongest` | apps/realtime-chat-api/src/features/stream-messages/page-policy.ts:140-187 | For any measurer the longest cut that fits is returned, a page is never emptied, and an oversized row is raised exactly if no non-empty cut fits |
| `ServedAnswers.MeasuredFirst` | apps/realtime-chat-api/src/features/stream-messages/page-policy.ts:140-187 | The whole page is measured first, and served if that fits; a size outside 0 to 2^53-1 is an error |
| `PagePipeline.SyncCandidates` | packages/realtime-chat-stream-messages-contracts/src/sync-after.ts:122-209 | Every sync response the fitting loop can measure satisfies the response contract |
| `PagePipeline.OlderCandidates` | packages/realtime-chat-stream-messages-contracts/src/older.ts:41-109 | Every older response the fitting loop can measure satisfies the response contract |
| `PagePipeline.LatestCandidates` | packages/realtime-chat-stream-messages-contracts/src/latest.ts:36-91 | Every latest response the fitting loop can measure satisfies the response contract |
| `PagePipeline.SyncServed` | packages/realtime-chat-stream-messages/src/usecases/sync-after/sync-after.usecase.ts:59-122 | No integrity error on a valid store; a served page meets the contract, starts at the request and moves on unless it is final (who is served at all: ServedAnswers.SyncAnswers) |
| `PagePipeline.OlderServed` | packages/realtime-chat-stream-messages/src/usecases/load-older/load-older.usecase.ts:56-111 | No integrity error on a valid store; a served older page meets the contract |
| `PagePipeline.LatestServed` | packages/realtime-chat-stream-messages/src/usecases/load-latest/load-latest.usecase.ts:52-97 | No integrity error on a valid store; a served latest page meets the contract and ends at the head |
| `ServedAnswers.PublicFormShows` | apps/realtime-chat-api/src/features/stream-messages/page-policy.ts:200-222 | A message on the wire has id, place, sender, target and time of its row, and its text with its last edit, or when it was deleted |
| `ServedAnswers.SyncAnswers` | packages/realtime-chat-stream-messages/src/usecases/sync-after/sync-after.usecase.ts:59-122 | On a valid store: bad request exactly for a malformed request, unavailable exactly if the target does not resolve or is denied, invalid exactly if cursor or watermark lie beyond the head; otherwise the longest page that fits is served, exactly if one does |
| `ServedAnswers.CaughtUpIsTold` | packages/realtime-chat-stream-messages/src/usecases/sync-after/sync-after.usecase.ts:59-122 | A client that has caught up gets the empty, final page |
| `ServedAnswers.OlderAnswers` | packages/realtime-chat-stream-messages/src/usecases/load-older/load-older.usecase.ts:56-111 | The same for an older page, whose cursor may lie one place beyond the head |
| `ServedAnswers.LatestAnswers` | packages/realtime-chat-stream-messages/src/usecases/load-latest/load-latest.usecase.ts:52-97 | The same for the latest page: unavailable, or the longest page of the last five messages that fits |
| `PagePipeline.SyncAsIfAtOnce` | packages/realtime-chat-stream-messages/src/usecases/sync-after/sync-after.usecase.ts:73-101 | Target and snapshot are read by two queries: whatever is stored in between, the answer is one that the later store alone gives, under some verdict of the authoriser |
| `PagePipeline.OlderAsIfAtOnce` | packages/realtime-chat-stream-messages/src/usecases/load-older/load-older.usecase.ts:56-111 | The same for an older page |
| `PagePipeline.LatestAsIfAtOnce` | packages/realtime-chat-stream-messages/src/usecases/load-latest/load-latest.usecase.ts:52-97 | The same for a latest page |
| `StreamLog.LogGrows` | packages/realtime-chat-message-send/src/usecases/send-message/send-message.kysely.ts:250-274 | No transaction rewrites the log of a stream; it can only add to its end |
| `StreamLog.SyncPagesConcatenate` | packages/realtime-chat-stream-messages/src/usecases/sync-after/sync-after.usecase.ts:105-122 | Sync pages under one watermark, each answered by the store as it is by then, concatenate to the log from the first cursor on, gapless and without repeats, up to the watermark |
| `TokenBucket.Redis.ReadStates` | apps/realtime-chat-api/src/features/stream-messages/distributed-rate-limiter.ts:15-34 | The first loop computes all levels, whether all pass, and the greatest waiting time |
| `TokenBucket.Redis.WriteStates` | apps/realtime-chat-api/src/features/stream-messages/distributed-rate-limiter.ts:36-43 | The second loop writes every level, charged only if all passed |
| `TokenBucket.Redis.EvalTokenBucket` | apps/realtime-chat-api/src/features/stream-messages/distributed-rate-limiter.ts:8-45 | The two loops of the script on the store are the transaction on values that the bounds of TokenBucketRuns speak of |
| `TokenBucketRuns.ConsumeKeepsRange` | apps/realtime-chat-api/src/features/stream-messages/distributed-rate-limiter.ts:20-40 | Tokens stay between zero and the capacity, whatever the clock does |
| `TokenBucketRuns.AdmitsAtMostForward` | apps/realtime-chat-api/src/features/stream-messages/distributed-rate-limiter.ts:15-45 | Whatever the clock does, a bucket admits at most its capacity plus what it gains over the forward steps of the clock |
| `TokenBucketRuns.AdmitsAtMost` | apps/realtime-chat-api/src/features/stream-messages/distributed-rate-limiter.ts:15-45 | Over any interval of a clock that does not go back, that is its capacity plus what it gains in that time |
| `TokenBucketRuns.AdmitsAsConfigured` | apps/realtime-chat-api/src/features/stream-messages/distributed-rate-limiter.ts:108-126 | In configured numbers: over any interval a bucket of each kind admits at most the number for its own kind and what that number a minute gains |
| `TokenBucketRuns.UnusedBucketAdmits` | apps/realtime-chat-api/src/features/stream-messages/distributed-rate-limiter.ts:108-126 | An unused bucket asked n times at one time admits exactly the lesser of n and the number configured for its kind |
| `TokenBucketRuns.TokenComesBack` | apps/realtime-chat-api/src/features/stream-messages/distributed-rate-limiter.ts:15-31 | An empty bucket admits again exactly from the time that one token takes at its configured rate |
| `TokenBucketRuns.TokensAreConserved` | apps/realtime-chat-api/src/features/stream-messages/distributed-rate-limiter.ts:15-45 | With any clock, what is admitted and what is left comes from what was there and what the forward steps gained |
| `TokenBucketRuns.DenialChargesNothing` | apps/realtime-chat-api/src/features/stream-messages/distributed-rate-limiter.ts:36-43 | A denial by any bucket leaves every later level of every bucket as it was |
| `TokenBucketRuns.RetryAfterIsLeast` | apps/realtime-chat-api/src/features/stream-messages/distributed-rate-limiter.ts:27-31 | On denial the delay is positive, and an undisturbed retry passes exactly from then on |
| `TokenBucketRuns.AnswerIsReadable` | apps/realtime-chat-api/src/features/stream-messages/distributed-rate-limiter.ts:174-192 | The answer of the script always has the form its caller accepts |
| `TokenBucketRuns.ExpiryChangesNothing` | apps/realtime-chat-api/src/features/stream-messages/distributed-rate-limiter.ts:41-42 | Dropping entries idle for two windows gives the same decisions as never dropping them |
| `TokenBucketRuns.ClockStepsBack` | apps/realtime-chat-api/src/features/stream-messages/distributed-rate-limiter.ts:23-25 | With a clock that steps back, two requests at one time pass a bucket of capacity one, as many as the bound for any clock allows |
| `ChatRuns.KeysDisplayTheChat` | packages/realtime-chat-stream-messages-client/src/realtime-chat-session.ts:440-460 | After a refresh in any run, the keys are the timeline's messages in order (each as the send that stands for it), then the other undiscarded sends in send order; no key twice, each leading to its object |
| `ChatRuns.TimelineShowsMore` | packages/realtime-chat-stream-messages-client/src/timeline-model.ts:108-110 | Whatever reaches the timeline, what it displays afterwards contains all that it displayed before, without duplicates: what a chat takes for granted of its timeline |
| `ChatRuns.EverySendHasItsKey` | packages/realtime-chat-stream-messages-client/src/realtime-chat-session.ts:383-400 | An undiscarded send has its own key on display, a discarded one has none |
| `ChatLives.EverySendLives` | packages/realtime-chat-stream-messages-client/src/realtime-chat-session.ts:383-590 | In every run each send is where its own events have taken it, told by a machine without indexes: on its way, failed when rejected, disconnected or not transmitted, on its way again by a retry, dropped, or standing for the message it was accepted as |
| `ChatLives.ReportsAreRight` | packages/realtime-chat-stream-messages-client/src/realtime-chat-session.ts:383-515 | A send is new, an acceptance conflicts or is refused, exactly as these lives say |
| `ChatRuns.EitherOrderDisplaysTheSame` | packages/realtime-chat-stream-messages-client/src/realtime-chat-session.ts:484-515 | Shown first or accepted first, the same keys are displayed in the end |
| `ChatRuns.KeysDependOnSends` | packages/realtime-chat-stream-messages-client/src/realtime-chat-session.ts:440-460 | The keys depend on the sends and on what the timeline shows only |
| `ChatRuns.AliasesAreShort` | packages/realtime-chat-stream-messages-client/src/realtime-chat-session.ts:188-195 | Alias chains have length one at most, from a server message to the send that stands for it |
| `ChatRuns.ConflictExactly` | packages/realtime-chat-stream-messages-client/src/realtime-chat-session.ts:484-494 | An acceptance conflicts exactly if another send stands for the message, or this one for another |
| `ChatRuns.RunKeeps` | packages/realtime-chat-stream-messages-client/src/realtime-chat-session.ts:383-515 | Indexes, aliases, order and keys stay consistent over every run |
| `RealtimeChatSession.RealtimeChatTargetSession.SendMessage` | packages/realtime-chat-stream-messages-client/src/realtime-chat-session.ts:383-400 | A new key gets a pending object at the end of the order, failed at once if the transport throws; a reused key changes nothing |
| `RealtimeChatSession.RealtimeChatTargetSession.RetryMessage` | packages/realtime-chat-stream-messages-client/src/realtime-chat-session.ts:461-472 | Only a failed, undiscarded send is sent again, and is pending unless the transport throws |
| `RealtimeChatSession.RealtimeChatTargetSession.DiscardMessage` | packages/realtime-chat-stream-messages-client/src/realtime-chat-session.ts:473-483 | Only a failed send is discarded: it leaves order and keys, its idempotency key stays known |
| `RealtimeChatSession.RealtimeChatTargetSession.AcceptMessage` | packages/realtime-chat-stream-messages-client/src/realtime-chat-session.ts:484-515 | The send takes over the server message, whose object becomes its alias; nothing changes on a conflict, if the timeline refuses, or for a discarded send |
| `RealtimeChatSession.RealtimeChatTargetSession.ConnectionLost` | packages/realtime-chat-stream-messages-client/src/realtime-chat-session.ts:576-581 | Every send still on its way fails |
| `RealtimeChatSession.RealtimeChatTargetSession.MessageRejected` | packages/realtime-chat-stream-messages-client/src/realtime-chat-session.ts:588-590 | The rejected send fails if it is still pending |
| `RealtimeChatSession.RealtimeChatTargetSession.RefreshMessageKeys` | packages/realtime-chat-stream-messages-client/src/realtime-chat-session.ts:440-460 | The first loop collects the objects on display, the second keeps in order exactly what is not among them |
| `GatewayRelay.ExclusiveUnlessOvertaken` | packages/realtime-chat-stream-messages-gateway/src/gateway-relay.ts:171-219 | At most one request at work for each session and target: lost exactly when one that waited for the limiter overtakes another |
| `GatewayRelay.ExclusiveWithoutLimiter` | packages/realtime-chat-stream-messages-gateway/src/gateway-relay.ts:171-219 | Without a rate limiter there is never a second one |
| `GatewayRelay.TwoAtWorkWithLimiter` | packages/realtime-chat-stream-messages-gateway/src/gateway-relay.ts:180-219 | With a rate limiter two can be at work |
| `GatewayRelay.RunKeeps` | packages/realtime-chat-stream-messages-gateway/src/gateway-relay.ts:121-278 | In every run a slot is held by a request of its own at work and not aborted, and each request is answered once, save a failure after a page that could not be sent |
| `GatewayRelay.EveryRunIsGood` | packages/realtime-chat-stream-messages-gateway/src/gateway-relay.ts:121-278 | So it is in every run from the start, and without a limiter each slot is exclusive throughout |
| `GatewayRelay.OnlyCurrentRequestsAreTold` | packages/realtime-chat-stream-messages-gateway/src/gateway-relay.ts:376-389 | Only the holder of its slot on the live connection generation is told of an outcome |
| `GatewayAnswers.StepSays` | packages/realtime-chat-stream-messages-gateway/src/gateway-relay.ts:121-278 | For each kind of answer, exactly which event makes the relay give it, and in which state |
| `GatewayAnswers.EveryAnswerHasItsReason` | packages/realtime-chat-stream-messages-gateway/src/gateway-relay.ts:121-278 | Every answer of a run was given by such an event, where the relay stood by then |
| `GatewayAnswers.FramesAreTaken` | packages/realtime-chat-stream-messages-gateway/src/gateway-relay.ts:121-216 | A frame becomes a request exactly if its session is connected and ready, it can be read, and its slot is free; it holds the slot at once unless it waits for the limiter |
| `GatewayAnswers.RequestsMove` | packages/realtime-chat-stream-messages-gateway/src/gateway-relay.ts:180-278 | Every request goes from stage to stage as its own answers say, and is aborted exactly when its connection or the relay ends while it holds its slot |
| `GatewayRelay.ReleasedStaysReleased` | packages/realtime-chat-stream-messages-gateway/src/gateway-relay.ts:180-219 | A request without a slot gets one exactly if it waits for the limiter and is let through |
| `GatewayRelay.ClosedRequestsHoldNothing` | packages/realtime-chat-stream-messages-gateway/src/gateway-relay.ts:391-402 | Once its session has closed, a request never holds a slot again over the rest of any run, unless it was waiting for the limiter then and is let through later |
| `GatewayRelay.ClosedForGoodWithoutLimiter` | packages/realtime-chat-stream-messages-gateway/src/gateway-relay.ts:391-402 | Without a limiter, never |
| `GatewayRelay.ClosedRequestIsLetThrough` | packages/realtime-chat-stream-messages-gateway/src/gateway-relay.ts:182-219 | With one, a request of a closed session that is let through takes the slot and calls upstream, not aborted |
| `GatewayRelay.StreamMessagesRelay.HandleStreamSync` | packages/realtime-chat-stream-messages-gateway/src/gateway-relay.ts:121-219 | A frame is answered at once or gets a request of its own, never both; no slot changes hands, no other request or earlier answer changes, and the relay stays valid |
| `GatewayRelay.StreamMessagesRelay.LimiterAnswered` | packages/realtime-chat-stream-messages-gateway/src/gateway-relay.ts:180-219 | The request holds its slot afterwards exactly if it was let through; no other request changes |
| `GatewayRelay.StreamMessagesRelay.UpstreamAnswered` | packages/realtime-chat-stream-messages-gateway/src/gateway-relay.ts:235-278 | An answer goes out exactly if the request is current and was not cancelled, and then it is not aborted; a request that is over holds nothing; no other request changes |
| `GatewayRelay.StreamMessagesRelay.SendEnded` | packages/realtime-chat-stream-messages-gateway/src/gateway-relay.ts:244-278 | A second answer goes out exactly if a page could not be sent and its request is current still; a request that is over holds nothing |
| `GatewayRelay.StreamMessagesRelay.AbortSessionRequests` | packages/realtime-chat-stream-messages-gateway/src/gateway-relay.ts:391-402 | The sweep aborts and frees exactly the requests of the closed connection, in any order |
| `AuthenticatedRealtimeSession.RequestsAreMatched` | packages/realtime-chat-stream-messages-client/src/authenticated-realtime-session.ts:151-190 | In every run nothing is pending unless ready, each request is settled at most once, and an answer resolves only a request sent over its own socket |
| `AuthenticatedRealtimeSession.SupersededSocketsSettleNothing` | packages/realtime-chat-stream-messages-client/src/authenticated-realtime-session.ts:384-426 | In every run, the outcome of a request comes from one event, is never changed later, and that event is not one of a socket that is no longer in use |
| `LinkLives.EveryRequestHasItsFate` | packages/realtime-chat-stream-messages-client/src/authenticated-realtime-session.ts:151-190 | In every run each request is under way, answered over its own socket, or rejected, exactly as its own events and those of its socket say, and none is forgotten |
| `LinkLives.ConnectionChangesExactly` | packages/realtime-chat-stream-messages-client/src/authenticated-realtime-session.ts:127-478 | State, socket, generation and the flags of giving up change for the stated reasons and for no other |
| `LinkLives.ConnectExactly` | packages/realtime-chat-stream-messages-client/src/authenticated-realtime-session.ts:127-149 | Connecting starts a loop exactly if there is none and the connection is not ready, and forgets an earlier disconnect |
| `LinkLives.ReconnectsExactly` | packages/realtime-chat-stream-messages-client/src/authenticated-realtime-session.ts:414-419 | A connection that was lost and not given up starts a loop unless one is at it |
| `LinkLives.TicketExactly` | packages/realtime-chat-stream-messages-client/src/authenticated-realtime-session.ts:276-288 | A ticket opens a socket with a number of its own, unless the connection was given up; a failing one ends the attempt |
| `LinkLives.ConnectedExactly` | packages/realtime-chat-stream-messages-client/src/authenticated-realtime-session.ts:352-372 | The connected event counts exactly if it comes from the awaited socket, still in use; one that cannot be read is fatal |
| `LinkLives.AttemptEndsExactly` | packages/realtime-chat-stream-messages-client/src/authenticated-realtime-session.ts:299-381 | Time, the closing of its own socket and a disconnect end an attempt |
| `LinkLives.GivesUpExactly` | packages/realtime-chat-stream-messages-client/src/authenticated-realtime-session.ts:249-274 | A failed attempt drops its socket; the connection is closed exactly after the fourth, a fatal or an aborted one, and otherwise tries again after a delay |
| `LinkLives.DelayEndsExactly` | packages/realtime-chat-stream-messages-client/src/authenticated-realtime-session.ts:262-266 | After the delay comes the next attempt, or the end if it was aborted |
| `LinkLives.LoopStaysExactly` | packages/realtime-chat-stream-messages-client/src/authenticated-realtime-session.ts:240-297 | No other event moves the loop |
| `LinkLives.FourAttemptsAtMost` | packages/realtime-chat-stream-messages-client/src/authenticated-realtime-session.ts:240-297 | No loop makes more than four attempts |
| `LinkLives.GivenUpStays` | packages/realtime-chat-stream-messages-client/src/authenticated-realtime-session.ts:231-238 | Once given up, the connection stays closed until it is asked for again, whatever its sockets still report |
| `AuthenticatedRealtimeSession.StepKeeps` | packages/realtime-chat-stream-messages-client/src/authenticated-realtime-session.ts:127-478 | Every event of connection, requests and sockets keeps the correlation |
| `AuthenticatedRealtimeSession.AuthenticatedRealtimeSessionModel.RequestStreamSync` | packages/realtime-chat-stream-messages-client/src/authenticated-realtime-session.ts:151-190 | Sent and pending only over a ready socket with an unused id; otherwise, or if sending fails, rejected at once |
| `AuthenticatedRealtimeSession.AuthenticatedRealtimeSessionModel.RejectPending` | packages/realtime-chat-stream-messages-client/src/authenticated-realtime-session.ts:458-462 | The loop rejects every pending request once, in any order |
| `AuthenticatedRealtimeSession.AuthenticatedRealtimeSessionModel.HandleAnswer` | packages/realtime-chat-stream-messages-client/src/authenticated-realtime-session.ts:385-400 | Resolves the pending request of that id, only if it comes from the socket in use |
| `AuthenticatedRealtimeSession.AuthenticatedRealtimeSessionModel.HandleClose` | packages/realtime-chat-stream-messages-client/src/authenticated-realtime-session.ts:402-421 | Closing the socket in use rejects everything pending and starts connecting; any other socket only fails its own wait |
| `AuthenticatedRealtimeSession.AuthenticatedRealtimeSessionModel.DisconnectLink` | packages/realtime-chat-stream-messages-client/src/authenticated-realtime-session.ts:231-238 | Rejects everything pending, drops the socket and stops the connection loop |
| `AuthenticatedRealtimeSession.AuthenticatedRealtimeSessionModel.Proceed` | packages/realtime-chat-stream-messages-client/src/authenticated-realtime-session.ts:240-297 | Ready only if the awaited socket is still in use; a failed attempt drops its socket and retries unless it was fatal, aborted or the last |

## Left out

- Notifications, subscriptions and batching of model changes: callbacks that do not affect the indexes.
- Field checks of the schemas, JSON, UTF-8, hashing, SQL and locking: foreign code. Contracts are predicates, the measurer an arbitrary function.
- Check constraints on timestamps in the tables, and the order of `now()` values: only equality and order of given times matter here.
- The throws for a resolver that returns another stream id, and for a stream row under another target: excluded by keeping streams by target.
- `sentAtClient` in pages: the readers never set it. `sentAtClient` of live messages is arbitrary.
- StreamMessagesTimeline.StreamMessagesTimelineModel.DiscardBufferedAtOrBeforeCursor: visits the map in an arbitrary order, because the result does not depend on insertion order.
- TimelineRuns.RunKeeps: the life-cycle claim leaves out direct replacements after edits and deletions, because `replaceKnown` has no life-cycle guard.
- StreamMessagesSession.StreamMessagesSessionModel.Bootstrap: the shared promise of concurrent callers, and `cancel` and `dispose` outside an await, are not modelled; a cancellation during an await is.
- Phases that the chat sets itself (disconnected, ticket rejected) and the queue of connection recoveries in realtime-chat-session.ts: small branch logic around `Bootstrap`.
- TokenBucket.Redis.EvalTokenBucket: window and cost are the constants that every caller passes, because no other values reach the script; real arithmetic stands for Lua numbers and their text form.
- RealtimeChatSession.RealtimeChatTargetSession.SendMessage: message objects are records in a map under their key, because a key names one object for life; aliasing through references is not captured. Trimming and disposal are left out.
- MessageTables.Tables.AppendTextMessage: the advisory lock and row locks are the atomicity of the step.
- AuthenticatedRealtimeSession.AuthenticatedRealtimeSessionModel.Proceed: delays and timers are events; the number of immediate retries is the default; application events are not modelled.
- GatewayRelay.StreamMessagesRelay.HandleStreamSync: frames are classified (too long, unreadable, a sync), not parsed.
- Abort errors that a browser throws without the session having been cancelled: they would lead to the phase cancelled.
- HTTP routes, socket and browser adapters, OAuth, gateway tickets, media, voice, React views and deployment are not part of this model.
