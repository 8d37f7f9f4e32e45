# Polaris: a verified model of sessions, events and the Codex transport

Polaris runs coding agents on behalf of users. A user's message becomes a *session*; a worker takes the session off a
Redis stream, runs a chain of agents on it, writes what they do to Postgres as *events*, and publishes a frame for every
change, which the web page folds into the chat. This project models that machinery in Dafny and proves what it keeps.

The files follow the program:

| file | component |
|---|---|
| `EventSink.dfy`, `EventRows.dfy`, `SessionView.dfy`, `LiveReload.dfy`, `StreamedText.dfy`, `SelfHealing.dfy` | the worker's event sink and its table, the page's reducer, live view against reload, streamed text, recovery from lost frames |
| `StatsCounters.dfy` | the two StatusBar counters through both debouncers |
| `JsonText.dfy`, `JsonReader.dfy` | JSON encoding and the deletion of NUL escapes, and a reader of JSON text that knows nothing of them |
| `JsonRpc.dfy`, `CodexTurn.dfy`, `Replay.dfy` | the JSON-RPC client, the turn loop with its three clocks, the replay twin |
| `Orchestrator.dfy`, `QuotaSlots.dfy`, `Runner.dfy` | one session job, the quota slots over all interleavings, the worker's main loop |
| `Clarification.dfy` | waiting for answers and posting them |
| `ProjectDeletion.dfy`, `EnvFile.dfy`, `Slug.dfy`, `PagedHistory.dfy`, `MessageGrouping.dfy` | data kernels |
| `Prelude.dfy`, `Text.dfy`, `Strings.dfy` | options, numerals, Python's string methods |

How it is modelled. Objects that change in place are classes whose methods are proved equal to a step of a state machine
on values; loops are loops with invariants; the concurrent parts are transition systems in which every step of every
party can come at any time, so that a result about a run is a result about every interleaving. Requests to other systems
either work or raise, and where it matters they may raise after having worked. Postgres is a map of rows, Redis publish
and subscribe a sequence of messages, the quota two kinds of sets under an atomic acquire. What storing a payload as
`jsonb` does to it is a parameter (`EventSink.Storage`), so every result holds whatever the database makes of it,
refusals included. Clocks are real numbers, timers ideal.

## Where the code does not do what it is meant to

Each of these is proved, as a statement about every input or run of its kind or by a concrete one, next to the exact
condition under which the code does do what it is meant to.

- A backslash directly before `u0000` in a payload makes the deletion of NUL escapes, which works on the encoded text, cut
  into the escaped backslash. What is then stored is not the stripped payload, or the text is not JSON any more, the insert
  is refused and the call raises: `NulStripping.HazardWitness` leaves an unclosed string. `NulStripping.SafeDumpsCommutes`
  is the exact condition.
- An event without an external id shows twice once it completes, whatever the view; a start and its completion keep the
  view faithful if and only if the id is present and fresh (`LiveReload.NullIdShowsTwice`, `StartAndCompletionExactly`).
  A reused or changed id breaks it at once (`RepeatedIdBreaksView`, `ChangedIdBreaksView`); so does a payload delta that
  names another event or, as its parameter defaults to, none, unless it changes nothing (`StrayDeltaExactly`).
- A counter bump that arrives while an UPDATE is under way starts no new flush. What is pending is stranded exactly since
  such a bump, until a bump after that UPDATE or the teardown (`StatsCounters.StrandedRuns`).
- The page misses some of the counters' gain exactly when an UPDATE that took effect is not published: because it raised
  all the same and its delta is logged as dropped, because the teardown cancelled it too late, or because publishing
  failed, which is swallowed (`StatsCounters.UnannouncedExactly`, `SilentUpdateHidesGain`).
- `run_turn` asks Codex to interrupt a turn it gave up on and waits for the answer without a timeout; the completion is
  reported if and only if Codex answers or the reader or the connection ends (`CodexTurn.RunTurn`,
  `InterruptReturnsExactly`).
- An agent's output that cannot be written as JSON, or a call to Postgres that raises, can leave a run in progress and a
  `run_started` frame without its `run_completed` (`Orchestrator.FinishedJob`). A session whose whole chain ran is
  announced as failed when writing `completed` raises, even if the write took effect, and stays active without any
  announcement when writing `failed` raises too (`Orchestrator.SessionJob.ProcessSessionJob`).
- An interrupt that commits after a job has read its session's status and before it marks the session as running is
  overwritten by that mark: the chain is found interrupted exactly by a later one (`Orchestrator.SessionJob.RunChain`,
  `StartSession`).
- A quota slot is orphaned by a death of whoever is the last to account for it: a request cut off after it acquired a
  slot, a worker that raises before its `try` or in its `finally`, where the query for the owner is not guarded and a
  failed release is suppressed, an interrupt handler whose broadcast fails. `QuotaSlots.OrphansExactly` says from which
  states, `WorkerDeathLeaksASlot` and its two siblings are runs. A slot still held when everything has drained was
  orphaned by such a death (`LeakedSlotsAreOrphans`). Not every orphan leaks: a later interrupt of a session that is still
  active gives the slot back.
- A page size above the server's limit of 100 makes the chat believe that its history is complete
  (`PagedHistory.BeyondTheClampHistoryIsCut`). Below it, the list stays consistent exactly while every step is harmless
  (`RunsExactly`): a failed fetch of details on opening leaves a chat that never loads more, a failed fetch of a last, short
  page hides the rest, and a session whose creation failed after its row was written leaves a gap, each until the project
  is opened again (`FailedDetailsHideTheHistory`, `FailedLastPageHidesTheRest`, `LostAnswersLeaveAGap`).
- A post of answers selects the clarification row by its request id alone, and access is checked only for the project in
  the path. A post to one project that carries another's request id overwrites that project's answers and marks the round
  as answered, though they never reach the session that asked (`Clarification.ForeignRowIsAnswered`); a post stays in its
  project if and only if the row it changes is the project's (`RowsStayInTheirProject`).
- Any message on the control channel ends a pending clarification, a steer as much as an interrupt
  (`Clarification.EmptyMeansStopped`); an answer payload that is not an object raises out of the wait.
- A project whose rows another project's rows refer to cannot be deleted cleanly
  (`ProjectDeletion.DeletionIsExact`, `EveryProjectIsDeletable`).
- A comment in `scripts/lib/env_io.py` (line 65) says that a blank line is added before new keys only if the file does not
  end with one; the code always adds it, and the model follows the code.

## Model

| member | source | states |
|---|---|---|
| EventSink.DbEventSink.EmitEventStarted | apps/worker/src/polaris_worker/sink.py:91-122 | inserts the row and publishes the frame of the sink's state machine, or raises exactly when the insert is refused; the sequence number is used up either way |
| EventSink.DbEventSink.EmitEventCompleted | apps/worker/src/polaris_worker/sink.py:124-164 | merges the payload over the stored one, keeps an external id that is not given anew, and publishes the whole merged row; raises, with nothing changed, exactly when storage refuses the payload |
| EventSink.DbEventSink.EmitEventPayloadDelta | apps/worker/src/polaris_worker/sink.py:166-210 | merges into an open row and publishes the full payload under the id the caller gave; raises, with nothing changed, exactly when storage refuses the delta |
| EventSink.DbEventSink.EmitMessageText | apps/worker/src/polaris_worker/sink.py:212-215 | publishes a delta and writes no row |
| EventRows.RowStartsOnce | apps/worker/src/polaris_worker/sink.py:91-122 | over any calls, an event has a row if and only if one call started it; its kind is that call's, its run the number of runs begun by then, its sequence the number of events tried in that run |
| EventRows.StatusIsTheLast | apps/worker/src/polaris_worker/sink.py:124-151 | a row is open exactly until a completion reaches it, and then says failed or completed as the last one did |
| EventRows.PayloadIsTheLast | apps/worker/src/polaris_worker/sink.py:135-191 | under every key a row holds what the last call that gave one stored, and it has no other keys |
| EventRows.NameIsTheLast | apps/worker/src/polaris_worker/sink.py:135-151 | a row has the external id given last; a completion without one leaves it |
| SessionView.FindStreamTarget | apps/web/src/hooks/useSessionEventHandler.ts:180-188 | the backward loop finds the newest open agent message |
| SessionView.SessionsAreIndependent | apps/web/src/hooks/useSessionEventHandler.ts:176-178 | frames of two sessions commute: neither touches the other's entry |
| SessionView.EntriesFollowTheirOwn | apps/web/src/hooks/useSessionEventHandler.ts:176-345 | however the frames of all sessions interleave, each entry keeps its place and shows the items its own frames make and the status the last of them set |
| SessionView.TextStreamsInOrder | apps/web/src/hooks/useSessionEventHandler.ts:170-205 | after any number of deltas the newest open agent message shows its earlier text and then the deltas in order; no other key and no other item changes |
| SessionView.TextWithoutTarget | apps/web/src/hooks/useSessionEventHandler.ts:188 | without an open agent message deltas change nothing |
| SessionView.LocateIsUnique | apps/web/src/hooks/useSessionEventHandler.ts:289-294 | with distinct external ids, looking an item up by its id finds that item |
| SessionView.ApplyKeepsDistinct | apps/web/src/hooks/useSessionEventHandler.ts:231-325 | no frame gives two items the same external id |
| SessionView.DuplicateCompleted | apps/web/src/hooks/useSessionEventHandler.ts:285-325 | a completed frame delivered twice changes nothing more, exactly when it carries an external id |
| SessionView.CompletedWithoutStart | apps/web/src/hooks/useSessionEventHandler.ts:295-309 | a completed frame for an event the view does not know puts it last, complete and numbered by its place |
| LiveReload.LoadSession | apps/web/src/ProjectAppShell.tsx:326-334 | the page's concatenation of the runs' events shows the rows of the flattened listing |
| LiveReload.FlattenIsListing | apps/api/src/polaris_api/routes/sessions.py:238-265 | the route's run-by-run listing is the listing of all rows by run, then sequence |
| LiveReload.ListingIsUnique | apps/api/src/polaris_api/routes/sessions.py:246-251 | a table has only one such listing |
| LiveReload.StepSimulates | apps/worker/src/polaris_worker/sink.py:91-215 | every sink call keeps the relation between the rows and the live view, by the frame it publishes |
| LiveReload.RunKeepsStarted | apps/worker/src/polaris_worker/sink.py:135-151 | over any calls, a row keeps every key that storage made of the payload its event was started with |
| LiveReload.LiveViewEqualsReload | apps/web/src/hooks/useSessionEventHandler.ts:170-325 | after any keyed sink calls over any runs, live view and reload have the same items in the same order, closed ones with equal payloads, open ones equal but for streamed text whenever storage keeps the started payload as it is, and otherwise differing by that payload only |
| StreamedText.OpenMessagesShowTheirText | apps/web/src/hooks/useSessionEventHandler.ts:170-205 | after any keyed calls every open agent message shows the text it was started with, or its last payload frame set, and then the deltas sent since while it was the newest open one |
| LiveReload.CleanOpenEventIsExact | apps/worker/src/polaris_worker/sink.py:113-121 | an open event whose started payload storage kept is shown exactly, streamed text aside |
| LiveReload.RepeatedIdBreaksView | apps/web/src/hooks/useSessionEventHandler.ts:231-256 | a second event under a used id breaks the view at once, so distinct ids are needed |
| LiveReload.ChangedIdBreaksView | apps/worker/src/polaris_worker/sink.py:136-164 | completing an event under another id breaks the view at once, so ids must be kept |
| LiveReload.StrayDeltaExactly | apps/worker/src/polaris_worker/sink.py:166-210 | a payload delta that names another event or none keeps the view faithful if and only if it changes nothing in its own row and nothing in the event it names |
| LiveReload.NullIdShowsTwice | apps/web/src/hooks/useSessionEventHandler.ts:295-309 | from any view, an event without an id shows twice once it completes |
| LiveReload.StartAndCompletionExactly | apps/web/src/hooks/useSessionEventHandler.ts:231-325 | from a faithful view, a start and its completion leave it faithful if and only if the id is present and fresh |
| SelfHealing.ViewHeals | apps/web/src/hooks/useSessionEventHandler.ts:258-325 | from a reload at any point and with any frames dropped: an event with an external id of its own that was closed at the reload, or whose completed frame arrived at some call, and of which no change went untold since, is shown with exactly the row's kind and payload |
| SelfHealing.HealedAreTold | apps/web/src/hooks/useSessionEventHandler.ts:258-325 | the events tracked as healed are exactly those the page was so told of |
| SelfHealing.CompletedHeals | apps/worker/src/polaris_worker/sink.py:147-164 | a completed frame repairs its event whatever was lost before |
| SelfHealing.OtherItemsStay | apps/web/src/hooks/useSessionEventHandler.ts:317-324 | a frame leaves an exactly shown event it does not name alone |
| SelfHealing.PayloadFrameKeepsExact | apps/worker/src/polaris_worker/sink.py:192-210 | a payload frame on an exactly shown event keeps it exact, since it carries the whole row |
| StatsCounters.DebouncedCounters.BumpFileDelta | apps/worker/src/polaris_worker/sink.py:219-226 | a positive bump is added to the pending delta and schedules a flush unless one is waiting |
| StatsCounters.DebouncedCounters.BumpPlaywrightDelta | apps/worker/src/polaris_worker/sink.py:228-233 | the same for the other counter |
| StatsCounters.DebouncedCounters.ScheduleFlush | apps/worker/src/polaris_worker/sink.py:235-238 | a flush task that is not done is left alone; else a new one starts |
| StatsCounters.BumpExactly | apps/worker/src/polaris_worker/sink.py:219-238 | a positive bump is pending at once and starts a task exactly when there is none or the current one is over; any other bump does nothing |
| StatsCounters.TimerExactly | apps/worker/src/polaris_worker/sink.py:240-256 | a debounce that ends takes all that is pending into one UPDATE, or ends its task when nothing is |
| StatsCounters.TeardownExactly | apps/worker/src/polaris_worker/sink.py:295-303 | a teardown waits for the task it cancelled, whose timer no longer fires, and then takes what is pending |
| StatsCounters.DebouncedCounters.FlushAfterDebounce | apps/worker/src/polaris_worker/sink.py:240-256 | the pending deltas are taken and zeroed together; nothing pending, no UPDATE |
| StatsCounters.DebouncedCounters.UpdateEnds | apps/worker/src/polaris_worker/sink.py:257-285 | an UPDATE that returns is published with its totals and deltas; one that took effect and raised, was cancelled late or could not be published adds to the row in silence; one without effect drops its delta |
| StatsCounters.DebouncedCounters.EndUpdate | apps/worker/src/polaris_worker/sink.py:257-285 | the same for the UPDATE of a task and of the teardown's own flush |
| StatsCounters.DebouncedCounters.Finalize | apps/worker/src/polaris_worker/sink.py:295-301 | the teardown cancels the current task and waits for it, or takes what is pending at once; until the task is over no bump starts another |
| StatsCounters.DebouncedCounters.StopsInItsSleep | apps/worker/src/polaris_worker/sink.py:240-246 | a task cancelled in its sleep ends and leaves what is pending to the teardown |
| StatsCounters.DebouncedCounters.ResumeFinalize | apps/worker/src/polaris_worker/sink.py:301-303 | once the cancelled task is over, after which bumps can start one anew, the teardown forgets the current task and takes what is pending |
| StatsCounters.StatsThrottle.FlushStats | apps/web/src/hooks/useSessionEventHandler.ts:82-102 | flashes the buffered deltas with the newest counts, or does nothing when there are none |
| StatsCounters.StatsThrottle.OnStatsUpdated | apps/web/src/hooks/useSessionEventHandler.ts:145-168 | leading-edge throttle: buffers, and flushes at once only when no timer runs |
| StatsCounters.StatsThrottle.OnTimeout | apps/web/src/hooks/useSessionEventHandler.ts:162-165 | the timer clears itself and flushes what was buffered meanwhile |
| StatsCounters.OneThrottlePeriod | apps/web/src/hooks/useSessionEventHandler.ts:145-168 | in one period the first frame is flashed at once, and all that follow are only gathered |
| StatsCounters.TrailingFlash | apps/web/src/hooks/useSessionEventHandler.ts:162-165 | the timer flashes all that was gathered at once, with the newest counts, or nothing |
| StatsCounters.PagesDrain | apps/web/src/hooks/useSessionEventHandler.ts:82-168 | from every reachable state deliveries and one tick drain the page |
| StatsCounters.CountersAreConserved | apps/worker/src/polaris_worker/sink.py:219-303 | at every step of every interleaving, orphaned tasks, a teardown under way and UPDATEs that raise with or without effect included, bumps equal database gain, in flight, pending and what took no effect; in the browser flashed plus buffer equal received, and no timer means an empty buffer |
| StatsCounters.DrainedCountsAgree | apps/web/src/hooks/useSessionEventHandler.ts:82-168 | once all frames are delivered and the timer is off, the page shows the last published totals, and the flashes add up to the gain if and only if no UPDATE took effect unannounced |
| StatsCounters.UnannouncedExactly | apps/worker/src/polaris_worker/sink.py:257-303 | some gain stays unannounced exactly in the runs in which an UPDATE, of a task or of the teardown, takes effect and is not published |
| StatsCounters.SilentUpdateHidesGain | apps/worker/src/polaris_worker/sink.py:257-275 | such a run, without any cancellation |
| StatsCounters.StrandedExactly | apps/worker/src/polaris_worker/sink.py:235-256 | from any state, exactly the steps that strand what is pending and exactly those that end it |
| StatsCounters.StrandedRuns | apps/worker/src/polaris_worker/sink.py:219-256 | a run ends stranded if and only if a bump came while the current UPDATE was under way and neither a bump after that UPDATE nor the teardown followed |
| StatsCounters.BumpDuringUpdateIsStranded | apps/worker/src/polaris_worker/sink.py:235-256 | such runs exist: a bump is left pending with no task to flush it |
| NulStripping.SafeDumpsCommutes | apps/worker/src/polaris_worker/sink.py:32-52 | deleting the escapes from the encoded text equals encoding the stripped value if and only if no string or key holds a backslash before `u0000` |
| NulStripping.SafeDumpsLength | apps/worker/src/polaris_worker/sink.py:48-52 | otherwise the stored text is short by six characters per such place |
| NulStripping.HazardWitness | apps/worker/src/polaris_worker/sink.py:52 | a payload of one string on which the two differ |
| JsonReader.TextSaysTheValue | apps/worker/src/polaris_worker/sink.py:48 | a reader written from the grammar of RFC 8259 reads the encoded text of every value back as that value |
| JsonReader.StoredTextSaysTheStripped | apps/worker/src/polaris_worker/sink.py:48-52 | without a hazard, what is handed to the database reads as the payload without its NULs |
| JsonReader.ValueReads | apps/worker/src/polaris_worker/sink.py:48 | the same inside a longer text: nothing after the value is touched |
| JsonRpc.JsonRpcWebSocketClient.StartRequest | packages/agent-core/src/polaris_agent_core/codex_app_server.py:211-222 | a request gets a fresh id and a waiting future, or raises when not connected |
| JsonRpc.JsonRpcWebSocketClient.Dispatch | packages/agent-core/src/polaris_agent_core/codex_app_server.py:274-289 | one inbound frame does what the reader's state machine says |
| JsonRpc.JsonRpcWebSocketClient.FailPending | packages/agent-core/src/polaris_agent_core/codex_app_server.py:293-297 | the loop fails every future that is not done and forgets them all |
| JsonRpc.JsonRpcWebSocketClient.EndReader | packages/agent-core/src/polaris_agent_core/codex_app_server.py:290-297 | the reader's end fails what is pending |
| JsonRpc.JsonRpcWebSocketClient.CloseClient | packages/agent-core/src/polaris_agent_core/codex_app_server.py:196-209 | close ends the reader and fails what is still pending |
| JsonRpc.Demultiplexing | packages/agent-core/src/polaris_agent_core/codex_app_server.py:264-297 | over any interleaving, a resolved future holds a received response whose id is its own number, written as an integer, a float or a truth value; notifications and server requests are exactly the received ones, in order |
| JsonRpc.DoneIsFinal | packages/agent-core/src/polaris_agent_core/codex_app_server.py:283-287 | a future completes at most once |
| JsonRpc.NothingWaitsAfterTheEnd | packages/agent-core/src/polaris_agent_core/codex_app_server.py:196-209 | after the reader's end or close every waiting future has failed and the others are untouched |
| JsonRpc.ServerRequestResolvesNothing | packages/agent-core/src/polaris_agent_core/codex_app_server.py:280-282 | a server request resolves no future, even when its id collides with a pending one |
| JsonRpc.ExactlyItsAnswerResolves | packages/agent-core/src/polaris_agent_core/codex_app_server.py:283-287 | while the reader runs, a frame resolves a waiting request if it is a response with that id, fails it if its id cannot be looked up, and else leaves it waiting |
| JsonRpc.KeyExactly | packages/agent-core/src/polaris_agent_core/codex_app_server.py:283-284 | an id is looked up as request `n` if and only if it is `n`, `n.0`, or the truth value that equals it |
| JsonRpc.NamesOne | packages/agent-core/src/polaris_agent_core/codex_app_server.py:283-284 | so a response answers at most one request |
| JsonRpc.RequestsAreNumbered | packages/agent-core/src/polaris_agent_core/codex_app_server.py:211-222 | requests are numbered 1, 2, 3 and so on while the connection is open, each waiting from then on |
| JsonRpc.ClientLives | packages/agent-core/src/polaris_agent_core/codex_app_server.py:264-297 | reader and connection live exactly until closed, ended, or sent a response with a list or an object for an id |
| JsonRpc.CancelledRequestsStayCancelled | packages/agent-core/src/polaris_agent_core/codex_app_server.py:283-287 | cancelling marks that future alone, and its answer is then passed over |
| JsonRpc.SettledExactly | packages/agent-core/src/polaris_agent_core/codex_app_server.py:211-228 | over any continuation, a waiting request returns or raises if and only if its answer arrives, the reader ends or the client closes while it waits |
| CodexTurn.ConsumeTurn | packages/agent-core/src/polaris_agent_core/codex_app_server.py:622-719 | the loop makes one turn's sink calls in order, up to the first notification that ends the turn; it overruns neither budget by a tick, gives each verdict only with its reason, no notification that came in time being passed over, and notices a dead silent socket within a check interval, of its death or of the start |
| CodexTurn.PunctualTurnsComplete | packages/agent-core/src/polaris_agent_core/codex_app_server.py:622-719 | a turn whose end comes within the budget, after short gaps only and on a live socket, completes |
| CodexTurn.ShortGapsAreNotSilence | packages/agent-core/src/polaris_agent_core/codex_app_server.py:638-645 | a turn whose end does come is never killed for inactivity, on any socket, when all gaps are shorter than that |
| CodexTurn.WaitFor | packages/agent-core/src/polaris_agent_core/codex_app_server.py:652-666 | a wait ends with the next notification if it comes by the timeout, and else at the timeout |
| CodexTurn.NextWait | packages/agent-core/src/polaris_agent_core/codex_app_server.py:646-650 | the wait is the nearest gate, and at least a tick |
| CodexTurn.Deliver | packages/agent-core/src/polaris_agent_core/codex_app_server.py:668-719 | one notification makes the sink call of its method, next in the turn's calls, and says whether the turn ends |
| CodexTurn.OtherThreadsAreInvisible | packages/agent-core/src/polaris_agent_core/codex_app_server.py:673-675 | notifications about other threads change nothing: without them the turns make the same calls |
| CodexTurn.BareNotifications | packages/agent-core/src/polaris_agent_core/codex_app_server.py:668-719 | without parameters, `turn/completed` alone does anything: it completes the turn |
| CodexTurn.OneCompletionPerTurn | packages/agent-core/src/polaris_agent_core/codex_app_server.py:703-719 | a turn's notifications make one completion call if one of them ends it, and none otherwise |
| CodexTurn.RunTurn | packages/agent-core/src/polaris_agent_core/codex_app_server.py:573-581 | exactly one completion is reported, which says what went wrong when the turn did not complete, unless the interrupt of a timed-out turn never returns, and then none |
| CodexTurn.InterruptReturnsExactly | packages/agent-core/src/polaris_agent_core/codex_app_server.py:575-579 | in every life of the JSON-RPC client, that interrupt returns if and only if it is answered or the reader or connection ends |
| Replay.EffectsAgreeExactly | packages/agent-core/src/polaris_agent_core/replay_codex_session.py:223-259 | on notifications of the thread the two dispatches agree if and only if shape, status and error are plain |
| Replay.CompletionsAgreeExactly | packages/agent-core/src/polaris_agent_core/replay_codex_session.py:248-255 | completions agree if and only if the status is known and an error message comes with `failed` only |
| Replay.HandlersAgree | packages/agent-core/src/polaris_agent_core/replay_codex_session.py:275-329 | server requests reach the same handler with the same arguments |
| Replay.RequestsReachTheirHandler | packages/agent-core/src/polaris_agent_core/replay_codex_session.py:275-329 | a recorded request reaches the handler of its method, if there is one, with its own questions, tool and arguments, and no other handler |
| Replay.CrashesExactly | packages/agent-core/src/polaris_agent_core/replay_codex_session.py:203-259 | the replay raises at exactly the frames that are no object, or lack one where the turn's data should be |
| Replay.ReplayCodexSession.RunTurn | packages/agent-core/src/polaris_agent_core/replay_codex_session.py:149-169 | advances the shared cursor over one recorded turn |
| Replay.Walk | packages/agent-core/src/polaris_agent_core/replay_codex_session.py:203-273 | the cursor loop makes the calls of the recursive reading of the log |
| Replay.OneTurnAgrees | packages/agent-core/src/polaris_agent_core/replay_codex_session.py:203-255 | one replayed turn walks over exactly one turn and makes its calls |
| Replay.ReplayCompletesEveryTurn | packages/agent-core/src/polaris_agent_core/replay_codex_session.py:261-273 | on any log and from any cursor, every replayed turn reports one completion if and only if none of the frames it reads makes it raise |
| Replay.WellFormedLogsComplete | packages/agent-core/src/polaris_agent_core/replay_codex_session.py:203-273 | on a well-formed log, however truncated, any number of turns is replayed without raising, each with one completion |
| Replay.TruncatedTurnFails | packages/agent-core/src/polaris_agent_core/replay_codex_session.py:261-273 | a replayed turn that finds no end in the log reports `failed` if one of the entries it read opens a turn, and else `completed` |
| Replay.ScheduleKeepsTotals | packages/agent-core/src/polaris_agent_core/codex_app_server.py:264-297 | under every schedule of reader and consumer, calls made plus calls to come never change |
| Replay.ReplayRefinesLive | packages/agent-core/src/polaris_agent_core/replay_codex_session.py:189-329 | on any well-formed log and for any number of turns, replay makes the sink calls of the live session under any schedule that finishes the turns, and its handler calls are the first of those the live session has made by then; they are the same once all is read |
| Orchestrator.SessionJob.ProcessSessionJob | apps/worker/src/polaris_worker/orchestrator.py:356-634 | whatever the agents return, wherever interrupts commit and whichever call to Postgres or Redis raises, having worked or not: it passes a session over exactly when its row is neither queued nor running; else its last frame says `interrupted`, `failed` or `completed` exactly as the last run's row, a crash, or the interrupt found on record do, `failed` if only the second write works, and nothing if none does; the row says the same, or an interrupt since; the last message and the slot are written and given back exactly when those calls take effect |
| Orchestrator.SessionJob.RunChain | apps/worker/src/polaris_worker/orchestrator.py:451-601 | the loop's rows and frames are those of a chain that ran whole, was found interrupted, stopped or crashed, the last exactly when an access raised or an output could not be written; no run is added once an interrupt is on record, and it is found exactly when one is at the read before the next run |
| Orchestrator.SessionJob.LoopBody | apps/worker/src/polaris_worker/orchestrator.py:459-592 | one pass extends the chain by one run, or ends it, and does nothing but its read exactly when that finds the interrupt |
| Orchestrator.SessionJob.RunAgent | apps/worker/src/polaris_worker/orchestrator.py:484-559 | numbers the run, threads the brief forward, records the outcome, or crashes with its row absent, in progress or ended and at most its first frame sent |
| Orchestrator.SessionJob.FinalizeSession | apps/worker/src/polaris_worker/orchestrator.py:192-224 | writes the status, whatever the row held, and publishes it, or raises with the write undone or done and nothing published |
| Orchestrator.ClosedFramesCloseRightly | apps/worker/src/polaris_worker/orchestrator.py:561-612 | the closing frame read off the last run's row and the way the chain ended |
| Orchestrator.SessionJob.StartSession | apps/worker/src/polaris_worker/orchestrator.py:364-440 | up to the `try`: passes over, dies, or marks the session as running, whatever interrupt came before that |
| Orchestrator.RunsAsAsked | apps/worker/src/polaris_worker/orchestrator.py:41-108 | discovery runs first exactly when asked for, its brief, if any, stands in for the user's message, and Codex plans first unless told to build directly |
| Orchestrator.FinishedJob | apps/worker/src/polaris_worker/orchestrator.py:451-612 | rows numbered 1..k along a prefix of the mode's agents, all but the last neither failed nor interrupted, `completed` only after the whole chain, frames alternating, and only when a run crashes a row without frames or a lone `run_started` |
| QuotaSlots.HeldSlotsAreAccountedFor | apps/api/src/polaris_api/routes/sessions.py:153-195 | over all interleavings a held slot belongs to a session being created, queued and active, being processed or with an unfinished interrupt, or to one that a death orphaned; no cap is ever passed |
| QuotaSlots.OrphansExactly | apps/worker/src/polaris_worker/orchestrator.py:613-634 | for each kind of death, exactly the session states in which it leaves a slot with nobody to give it back |
| QuotaSlots.LeakedSlotsAreOrphans | apps/api/src/polaris_api/routes/sessions.py:364-412 | when everything has drained, a slot still held was orphaned by such a death at some step of the run |
| QuotaSlots.NoSlotLeaks | apps/api/src/polaris_api/routes/sessions.py:364-412 | so a drained run without orphaning deaths holds no slot, whatever else failed in it |
| QuotaSlots.WorkerDeathLeaksASlot | apps/worker/src/polaris_worker/orchestrator.py:434-451 | a run in which a worker raises before its `try` and a slot stays held |
| QuotaSlots.CreatorDeathLeaksASlot | apps/api/src/polaris_api/routes/sessions.py:173-194 | so does a creation cut off after its commit |
| QuotaSlots.HandlerDeathLeaksASlot | apps/api/src/polaris_api/routes/sessions.py:376-412 | so does an interrupt whose broadcast fails |
| QuotaSlots.LiveSessionsStayWithinQuota | apps/api/src/polaris_api/services/run_quota.py:36-94 | in every run at most `max_global_runs` sessions, and `max_user_runs` of one user, are queued or worked on, not counting those whose slot expired, was given back by an interrupt or by an enqueue that failed after the fact |
| QuotaSlots.StepKeepsInv | apps/worker/src/polaris_worker/orchestrator.py:370-380 | every step of every party keeps the accounting of held slots, the admission of live sessions and the caps |
| QuotaSlots.TouchStaysWithinCaps | apps/api/src/polaris_api/services/run_quota.py:36-43 | acquire, roll back and release keep both sets within their caps |
| QuotaSlots.GlobalAdmissionExactly | apps/api/src/polaris_api/services/run_quota.py:36-43 | a request takes a global slot if and only if fewer than the cap are held, expired ones aside; refused, it leaves with none |
| QuotaSlots.UserAdmissionExactly | apps/api/src/polaris_api/services/run_quota.py:77-94 | the same for the user's slot; refused, it keeps the global one to give back |
| QuotaSlots.RefusedExactly | apps/api/src/polaris_api/services/run_quota.py:46-94 | in every run a request is refused exactly where the set it tries is full |
| QuotaSlots.SessionsStartAsking | apps/api/src/polaris_api/routes/sessions.py:153-172 | a session that was never asked for takes no step, and starts with nothing |
| QuotaSlots.DroppedExactly | apps/api/src/polaris_api/services/run_quota.py:36-43 | the sessions not counted against the quota are exactly those whose slot expired, was given back by an interrupt, or by an enqueue that failed after the fact |
| QuotaSlots.OrphanedExactly | apps/worker/src/polaris_worker/orchestrator.py:613-634 | a session counts as orphaned if and only if a death at some step orphaned a slot of it |
| QuotaSlots.CreatorCommits | apps/api/src/polaris_api/routes/sessions.py:173-194 | with both slots the row is written and the job queued; if queueing raises, the request goes on to undo |
| QuotaSlots.CreatorRollsBack | apps/api/src/polaris_api/services/run_quota.py:88-94 | a request refused by its user's set gives back the global slot and leaves |
| QuotaSlots.CreatorFailsToCommit | apps/api/src/polaris_api/routes/sessions.py:173-194 | if the commit raises, whether it took effect or not, nothing is queued and the request goes on to undo |
| QuotaSlots.CreatorUndoes | apps/api/src/polaris_api/routes/sessions.py:184-194 | undoing gives back both slots and no other |
| QuotaSlots.WorkerTakesTheJob | apps/worker/src/polaris_worker/orchestrator.py:370-380 | a queued job starts if its session is active then, and is passed over if not |
| QuotaSlots.WorkerRunsTheChain | apps/worker/src/polaris_worker/orchestrator.py:430-612 | the worker marks the session as running, and as final, whatever the row said |
| QuotaSlots.WorkerGivesBack | apps/worker/src/polaris_worker/orchestrator.py:613-634 | the worker gives back both slots and no other |
| QuotaSlots.HandlerInterrupts | apps/api/src/polaris_api/routes/sessions.py:364-384 | an interrupt of an active session makes it final |
| QuotaSlots.HandlerGivesBack | apps/api/src/polaris_api/routes/sessions.py:398-412 | and then gives back both its slots |
| QuotaSlots.HandlerRaisesEarly | apps/api/src/polaris_api/routes/sessions.py:364-384 | an interrupt that raises before its commit leaves no trace |
| QuotaSlots.NothingOutOfTurn | apps/api/src/polaris_api/routes/sessions.py:153-195 | a step out of its party's turn changes nothing |
| QuotaSlots.DeathsTouchNoSlot | apps/api/src/polaris_api/routes/sessions.py:173-194 | a death removes its party and touches no slot |
| Runner.WorkerLoop.RunWorker | apps/worker/src/polaris_worker/runner.py:198-247 | whatever the tasks do at each await, the loop's state is that of a run of the transition system, its in-flight set stays within the cap, and the pool is closed only when every task is over |
| Runner.WorkerLoop.WaitForPlace | apps/worker/src/polaris_worker/runner.py:209-216 | the inner loop lets a read happen only with a place free |
| Runner.WorkerLoop.TakeAnswer | apps/worker/src/polaris_worker/runner.py:218-235 | a new message becomes one task in flight; a single-shot worker stops on an empty answer with nothing in flight |
| Runner.WorkerLoop.TaskStep | apps/worker/src/polaris_worker/runner.py:155-169 | a task gets a connection, processes, gives it back and acknowledges |
| Runner.WorkerLoop.DrainAndClose | apps/worker/src/polaris_worker/runner.py:236-247 | what is in flight is drained before the pool is closed |
| Runner.RunningJobsAreBounded | apps/worker/src/polaris_worker/runner.py:208-233 | unfinished jobs never exceed `max_global_runs`, and the pool has a connection for each of them and two to spare |
| Runner.EachMessageLivesOnce | apps/worker/src/polaris_worker/runner.py:155-169 | a message is taken, processed and acknowledged in that order, each at most once, and acknowledged exactly when Redis took it |
| Runner.ThePoolClosesLast | apps/worker/src/polaris_worker/runner.py:236-247 | when the pool closes every message taken has been processed to its end |
| Runner.ClosedIsFinal | apps/worker/src/polaris_worker/runner.py:246-247 | nothing moves after that, but for callbacks |
| Runner.TasksGetThrough | apps/worker/src/polaris_worker/runner.py:155-169 | in every reachable state a waiting task gets a connection at once, processes, gives it back, acknowledges and is forgotten |
| Runner.FailedConnectionsEndTheJob | apps/worker/src/polaris_worker/runner.py:155-169 | a job that gets no connection ends as failed and is acknowledged all the same |
| Runner.TheGateOpens | apps/worker/src/polaris_worker/runner.py:208-216 | the loop reads again as soon as a place is free or a job in flight is over |
| Runner.ReadingTakes | apps/worker/src/polaris_worker/runner.py:218-233 | a message that is read becomes one waiting task in flight, and the loop is back at its gate |
| Runner.ReapingForgetsTheOver | apps/worker/src/polaris_worker/runner.py:208-216 | reaping, done only when no place is free, forgets exactly the jobs that are over |
| Runner.IdleWorkersStop | apps/worker/src/polaris_worker/runner.py:218-235 | an empty answer ends a single-shot worker with nothing in flight, and no other |
| Runner.TheDrainEnds | apps/worker/src/polaris_worker/runner.py:236-247 | wherever the loop is left, the pool is then closed exactly when all that was in flight is over |
| Clarification.WaitForAnswers | apps/worker/src/polaris_worker/clarification.py:123-191 | the polling loop returns what the first decisive message says, and ends by its deadline |
| Clarification.AnswersAreRouted | apps/worker/src/polaris_worker/clarification.py:146-188 | a wait returns given answers if and only if they are those of the first message after its subscription with its request id and a null or equal run id, in time and before any control message |
| Clarification.EmptyMeansStopped | apps/worker/src/polaris_worker/clarification.py:129-151 | a wait comes back empty if and only if time runs out or a control message comes first |
| Clarification.NoAnswerReachesAnother | apps/worker/src/polaris_worker/clarification.py:163-170 | a message answers two waiters only if they share the request, and a pinned one only if they are the same |
| Clarification.OtherTrafficIsInvisible | apps/worker/src/polaris_worker/clarification.py:152-170 | messages for others leave no trace on a wait |
| Clarification.ClarifyRoute.Submit | apps/api/src/polaris_api/routes/clarify.py:262-322 | refuses with nothing changed, or stores the answers, publishes them on one session's channel and acknowledges them to the page |
| Clarification.PostsStayInTheirProject | apps/api/src/polaris_api/routes/clarify.py:262-297 | what a post publishes reaches only a session of its project, pinned only to a run of it; it changes only the row under its request id; 409 only when nothing runs |
| Clarification.RefusalsExactly | apps/api/src/polaris_api/routes/clarify.py:262-282 | 404 exactly for a session or run that is not the project's, 409 exactly when no session is named and nothing runs, and else the newest run answers for it |
| Clarification.RowsStayInTheirProject | apps/api/src/polaris_api/routes/clarify.py:289-297 | a post changes only rows of its project if and only if the row it changes is the project's, and answers the session that asked if and only if that is the one it publishes to |
| Clarification.ForeignRowIsAnswered | apps/api/src/polaris_api/routes/clarify.py:289-297 | a post to one project that answers another project's round |
| Clarification.StoredKeepsBothKeys | apps/api/src/polaris_api/routes/clarify.py:282-288 | what is stored keeps each question's choice and free text |
| Clarification.PostedAnswersArrive | apps/api/src/polaris_api/routes/clarify.py:299-308 | from post to wait: the posted answers are the returned ones, and a post for another request or run is passed over |
| Clarification.FlattenAnswers | apps/worker/src/polaris_worker/clarification.py:263-270 | the loop yields one pair a question, free text before choice |
| Clarification.FreeTextWins | apps/worker/src/polaris_worker/clarification.py:263-270 | free text before choice before nothing, and other values as text |
| ProjectDeletion.Store.Delete | apps/api/src/polaris_api/models.py:358-378 | a statement removes its rows and the least set of rows that cascades from them, or fails as a whole, with nothing changed, exactly when a row that would be left refers to one of them |
| ProjectDeletion.StatementTakesTheCascade | apps/api/src/polaris_api/models.py:121-125 | the closure that is computed round by round is that least set, and what is left keeps every foreign key satisfied |
| ProjectDeletion.Store.DeleteProject | apps/api/src/polaris_api/routes/projects.py:357-373 | on a consistent database in which no other project's row refers to this one's, succeeds and removes exactly the project's rows; rolls back otherwise |
| ProjectDeletion.Store.DeleteProjectCascade | scripts/seed/load.py:156-184 | the same statements, committed one by one: a failure keeps those before it |
| ProjectDeletion.DeletionIsExact | apps/api/src/polaris_api/routes/projects.py:346-373 | the six statements succeed and leave every other row unchanged if and only if no other row refers to one of the project's; foreign keys hold afterwards |
| ProjectDeletion.EveryProjectIsDeletable | apps/api/src/polaris_api/models.py:247-257 | every project can be so deleted if and only if the denormalised project ids agree with their parents' |
| ProjectDeletion.AnySuccessfulOrderAgrees | scripts/seed/load.py:167-173 | every order of the same statements that succeeds gives the same result |
| ProjectDeletion.OrderSucceeds | apps/api/src/polaris_api/routes/projects.py:346-356 | every order that empties blocking tables first succeeds |
| ProjectDeletion.OrderIsSafe | apps/api/src/polaris_api/routes/projects.py:346-356 | the order in the code does |
| ProjectDeletion.DeleteStaysIntegral | apps/api/src/polaris_api/models.py:121-125 | a statement that succeeds leaves every foreign key satisfied |
| EnvFile.Parse | scripts/lib/env_io.py:21-38 | the loop reads the last value of each well-formed line |
| EnvFile.IterMerged | scripts/lib/env_io.py:48-69 | the loop with its `seen` set rewrites lines in place and appends new keys after a blank line |
| EnvFile.MergeLaw | scripts/lib/env_io.py:86-90 | for every text and well-formed updates, parsing the written body gives the old parse overridden by the updates |
| EnvFile.MergeLawIsExact | scripts/lib/env_io.py:48-90 | and if and only if all updates are well formed |
| EnvFile.WritesCompose | scripts/lib/env_io.py:72-90 | successive writes compose as map override |
| EnvFile.OtherLinesStay | scripts/lib/env_io.py:51-62 | a line without an updated key keeps text and place; only a blank last line can be lost |
| EnvFile.SplitBody | scripts/lib/env_io.py:88-90 | the written text splits back into its lines |
| EnvFile.ParsedIsWellFormed | scripts/lib/env_io.py:27-38 | every entry that is read is well formed, so what is read can be written |
| Strings.SplitTerminated | scripts/lib/env_io.py:27 | splitting newline-terminated lines gives them back, under all of Python's line breaks |
| Strings.SplitExactly | scripts/lib/env_io.py:27 | the lines of a text are those that, each with its line end, make it up: a carriage return and its newline are one end, and only a last line that is not empty can lack one |
| Strings.BreaksExactly | scripts/lib/env_io.py:27 | the characters at which Python ends a line |
| Strings.SpacesExactly | scripts/lib/env_io.py:28-37 | the characters Python strips |
| Strings.StripExactly | scripts/lib/env_io.py:28-37 | stripping takes such characters from both ends and nothing else |
| Slug.SlugifyJoinsTheWords | apps/api/src/polaris_api/routes/projects.py:42-44 | the slug is the alphanumeric runs of the lower-cased name joined by hyphens, or `project` |
| Slug.SlugifyYieldsASlug | apps/api/src/polaris_api/routes/projects.py:42-44 | non-empty lower-case words joined by single hyphens, for every name |
| Slug.SlugsAreTheFixedPoints | apps/api/src/polaris_api/routes/projects.py:42-44 | slugify leaves exactly the slugs alone, and is idempotent |
| Slug.ClassesExactly | apps/api/src/polaris_api/routes/projects.py:42-44 | the two character classes, spelled out |
| Slug.AllocateSlug | apps/api/src/polaris_api/routes/projects.py:47-58 | the loop ends at the first free candidate, after at most one query more than slugs taken |
| Slug.FirstFreeIsUnique | apps/api/src/polaris_api/routes/projects.py:50-58 | that candidate is unique, and a slug |
| Slug.CandidatesDiffer | apps/api/src/polaris_api/routes/projects.py:57-58 | no two candidates are equal |
| Text.DecimalInjective | apps/api/src/polaris_api/routes/projects.py:57 | distinct suffixes have distinct numerals |
| Text.ValueOfDecimal | apps/api/src/polaris_api/routes/projects.py:57 | a numeral stands for its number |
| PagedHistory.ListProjectSessions | apps/api/src/polaris_api/routes/sessions.py:215-227 | the route answers the newest sessions below the bound, oldest first, at most the clamped limit |
| PagedHistory.ReverseInPlace | apps/api/src/polaris_api/routes/sessions.py:225-227 | the list is reversed in place |
| PagedHistory.PagesAreAsLongAsAsked | apps/api/src/polaris_api/routes/sessions.py:215-227 | a page is a suffix of what lies below the bound, as long as asked for between 1 and 100 |
| PagedHistory.SessionsAreNumbered | apps/api/src/polaris_api/routes/sessions.py:140-149 | a project's sessions are numbered 1, 2, 3 and so on |
| PagedHistory.FailedListingsAreRetried | apps/web/src/ProjectAppShell.tsx:381-413 | a failed listing changes nothing, so that scrolling tries it again |
| PagedHistory.PageJoins | apps/web/src/ProjectAppShell.tsx:387-405 | an older page ends exactly where the loaded list begins |
| PagedHistory.StepExactly | apps/web/src/ProjectAppShell.tsx:381-413 | from a consistent list, exactly the harmless steps keep it so: not a creation whose answer is lost, a failed opening of a project with a history, or a failed fetch of a last, non-empty page |
| PagedHistory.RunsExactly | apps/web/src/ProjectAppShell.tsx:318-342 | a run stays consistent throughout if and only if all its steps are harmless |
| PagedHistory.ChatHistory.LoadOlderSessions | apps/web/src/ProjectAppShell.tsx:381-413 | does the steps of loading one page, with sessions created in between |
| PagedHistory.ChatHistory.CreateSession | apps/web/src/ProjectAppShell.tsx:739-743 | a created session is appended when its answer arrives |
| PagedHistory.HistoryIsASuffix | apps/web/src/ProjectAppShell.tsx:318-342 | through any harmless steps, failed fetches of full pages included, the list is a gap-free ascending suffix, and `hasMore` is false only when everything is loaded |
| PagedHistory.ScrollingBackLoadsAll | apps/web/src/ProjectAppShell.tsx:381-413 | enough loads reach the whole history |
| PagedHistory.BeyondTheClampHistoryIsCut | apps/api/src/polaris_api/routes/sessions.py:220-222 | above the server's limit `hasMore` is always false, and true to fact exactly for at most 100 sessions |
| PagedHistory.FailedDetailsHideTheHistory | apps/web/src/ProjectAppShell.tsx:320-338 | on opening any project with a history, a failed fetch of details leaves an empty chat that never loads more; it also claims completeness if and only if the history is shorter than a page |
| PagedHistory.FailedLastPageHidesTheRest | apps/web/src/ProjectAppShell.tsx:388-409 | a failed fetch of a last, short page hides it whatever follows but opening anew |
| PagedHistory.LostAnswersLeaveAGap | apps/api/src/polaris_api/routes/sessions.py:184-192 | from any list, a session created by a failed request leaves a gap that no later step closes but opening anew |
| MessageGrouping.GroupMessages | apps/web/src/chat/messageGrouping.ts:41-65 | the groups flatten to the messages and are canonical: clusters of at least two, all noise, no two neighbours that could be one |
| MessageGrouping.NoiseExactly | apps/web/src/chat/messageGrouping.ts:18-33 | commands, tool calls and reasoning with nothing to read are noise, and nothing else |
| MessageGrouping.FlushNoise | apps/web/src/chat/messageGrouping.ts:45-53 | a buffered run becomes one group |
| MessageGrouping.CanonicalIsUnique | apps/web/src/chat/messageGrouping.ts:41-65 | there is only one canonical grouping |
| MessageGrouping.CountByKind | apps/web/src/chat/messageGrouping.ts:78-90 | each kind with its count, in the order first seen |
| MessageGrouping.CountsAddUp | apps/web/src/chat/messageGrouping.ts:78-90 | kinds are listed once, with counts above zero that add up to the items |
| MessageGrouping.ClusterIsAllItems | apps/web/src/chat/messageGrouping.ts:24-35 | in a cluster, to its length |

## Left out

- Sockets, Redis, Postgres, Docker and the file system: requests are steps that work or raise.
- The LangGraph clarifier, the review, compiler, Pinterest and mood-board nodes, `publish.py` and `runtime.py` are not part of this model; nor are rendering, login, panes, the wizard and the scripts around the program.
- Calls into one sink at the same time: event calls come one after the other, as the agents make them, and only the counter tasks interleave with them.
- LiveReload.LiveViewEqualsReload: streamed text is left out of the comparison of open events, since no row holds it until they complete; where storage changes a started payload the two differ by that, because the started frame carries the payload before storage does.
- EventSink.DbEventSink.EmitEventStarted: a raise means here that storage refused and nothing changed. An INSERT that raises after it took effect leaves a row without a frame, and so do the UPDATEs of EmitEventCompleted and EmitEventPayloadDelta and a publication that fails; to the page these are lost frames, which `SelfHealing.ViewHeals` covers and `LiveReload.LiveViewEqualsReload` leaves out.
- SelfHealing.ViewHeals: frames are dropped but never reordered, as on a Redis channel.
- StatsCounters.CountersAreConserved: a returned UPDATE and its publication are one step, so two publications that overtake each other are not modelled; a session row that is gone drops its delta like a failed UPDATE.
- NulStripping.SafeDumpsCommutes: values that `json.dumps` hands to `default=str` count as strings already; a float is the text Python writes for it; Python's lone surrogates, which Dafny's characters exclude, do not occur.
- JsonRpc.Demultiplexing: float ids other than a numeral ending in `.0` match no request; duplicate keys read as their last value; what a server-request handler writes back is not modelled.
- CodexTurn.ConsumeTurn: timers are ideal, handlers take no time, and a notification at the very end of a wait is taken; the elapsed seconds in a failure text are left out.
- Replay.ReplayRefinesLive: handlers run for their call only, their results and errors are not fed back; entries of a recording are objects.
- Orchestrator.SessionJob.ProcessSessionJob: cancellation of the job, redelivery of a message, a session row that is gone, the merging of earlier messages on a resumed discovery and what is in the seed intent are not modelled; the two statements that insert a run count as one access, and an agent's exception is an outcome. Frames are those handed to Redis, which may lose them unnoticed.
- An interrupt is not absorbing: the worker's own final write replaces it, and the model does the same.
- QuotaSlots.NoSlotLeaks: a message is delivered once and projects are not deleted meanwhile; expiry may strike any slot at any acquire, which is more than the clock allows; a negative limit counts as 0.
- QuotaSlots.StepKeepsInv: the handlers are sequences of steps, not methods, because what is proved is about their interleaving.
- Runner.WorkerLoop.RunWorker: what the tasks do during each await is an argument, and the loop ends when its arguments are used up; a second cancellation during the drain, a pool that cannot be created and the idle scavenger's own work are not modelled.
- Clarification.WaitForAnswers: a message is timed by when polling hands it over; a failing publication is not modelled; an answer posted before the waiter has subscribed is lost, as in the code.
- Clarification.PostsStayInTheirProject: access checks come before it and are not modelled; a request id names at most one row, as its unique key has it.
- ProjectDeletion.DeletionIsExact: NO ACTION is checked at the end of each statement, after its cascades; unique keys and columns that refer to nothing are part of a row's rest; stopping runtimes and removing files is not modelled.
- EnvFile.MergeLaw: the text is what `read_text` returns, after its translation of line ends; the temporary file and its replacement are not modelled. Writing twice need not give the same text twice, since a blank last line can be dropped.
- Slug.AllocateSlug: the set of taken slugs does not change during the loop; two requests at once are settled by the table's unique key.
- Slug.SlugifyYieldsASlug: lower-casing is a parameter, character by character; the context-dependent final sigma yields no ASCII letter either way.
- PagedHistory.HistoryIsASuffix: one client, one project; opening a project is one step, and a stale closure that starts two loads at once, or a load that outlives a switch to another project, is not modelled.
- MessageGrouping.GroupMessages: labels and translations of kinds are not modelled.
- The status shown on a project's card or in the switcher, and the guard that keeps a replay off the network and apart from recording, are not part of this model.
