# Formal model of the amoCRM synchronisation and its companions

A Dafny model of the parts of the repository whose correctness is hard to see
from one function: the copy protocol that keeps the local database equal to
amoCRM, the rate-limited client under it, and four algorithms beside them.

- `Reconcile` and `Paging`: the recent-changes pass. Bounded windows behind a
  persisted cursor, page loops with shrinking limits, and a parity guard, over
  every run of source changes, failures and successes.
- `EventBackfill`, `EventCursor`, `Decimal`: the event back-fill. A server that
  may refuse any window, bisection, a cursor written as text, crashes between
  any two writes.
- `AmoClient`: slot reservations, cooldowns, retries, aborts and token refresh
  as a machine over a monotone clock, and the client object whose methods are
  its steps.
- `SyncJobs`, `PullStages`, `WebhookInbox`, `WebhookWorkers`: the job table, the
  resumption of pull stages, and the inbox of webhook rows, worked by one job or
  by several at once.
- `FullSnapshot`, `StageHistory`: certification of the full deal copy, and the
  history table filled live and again from stored events.
- `Calendar`, `BusinessTime`, `LeadSla`, `ReportPeriod`: civil dates, Moscow
  working time, the deadline of a lead, and the report presets.
- `StableJson`: the canonical printer of cache keys, with a parser as witness.
- `Extraction`, `Docx`, `Transcript`: bounded document extraction, the walk over
  WordprocessingML, and channel splitting and merging of transcripts.
- `Base`: options, minimum and maximum, lists without repeats.

Each class has the fields that the program updates, and its methods are proved
against functions of the old state; the properties of those functions are
lemmas. Adversarial choices (a server's refusal, a failing write, a crash, the
deadline) are nondeterministic branches, so every claim holds for all of them.
A parameter (`mayFail`, `faulty`, `late`, `refuses`) says where they may be
taken, so that every operation is also proved to succeed where nothing breaks.

## Findings

Some promises hold only under a condition. The code is modelled as it is, and
the exact condition is proved.

- The deal loop of a pass counts fetched records, not distinct ones, while its
  last pages restart earlier in the listing. It finishes a listing exactly up to
  `Paging.DealCapacity` of the limit, which is below the limit when the limit is
  above 250 and no multiple of it (`Paging.DealCapacityIsCapIff`): a limit of 450
  fails on 420 leads. The event
  loop counts distinct records and is exact.
- The parity guard counts live rows, not versions. A stored deal that moved to a
  stage missing from the maps stays stale behind an advanced cursor
  (`Reconcile.FreshnessAfterPass`, `Reconcile.ParityMissesUnknownStage`).
- `runPullJob` and `runWebhookJob` write RUNNING without looking at the row again.
  The job table keeps one active job of each kind exactly in the runs whose
  claims are of active jobs, or of closed ones while no other of the kind is
  active (`SyncJobs.EveryRunIsUniqueIff`, `SyncJobs.LateClaimBreaks`).
- A webhook worker whose job was closed as stale goes on beside its successor, and
  marking a row does not look at it. An applied row can become ready again and
  gain two attempts. Finished rows stay finished exactly in the runs without an
  error mark on one; reads apart from other workers' rows are enough
  (`WebhookWorkers.EveryRunKeepsDoneIff`, `WebhookWorkers.ApartRunsLeaveDone`,
  `WebhookWorkers.AppliedRowIsReadyAgain`).
- The settings of a connection are read and written back whole, so another writer
  can put an older cursor back. The stored data stay sound and the cursor is
  monotone exactly apart from such writes (`Reconcile.CursorAdvance`).
- A window that the server refuses down to one single second fails for good, and
  with it the stream: the back-fill ends exactly apart from such seconds and from
  broken calls (`EventBackfill.EventSync.IngestWindow`).
- Webhook group keys join entity and id with a colon and are unambiguous exactly
  when no entity continues another with a colon (`WebhookInbox.KeysAreUniqueIff`);
  the five known entities do not (`WebhookInbox.KnownEntitiesAreUnambiguous`).
- The back-fill of stage history selects one event type and a lower bound in
  time, the live path neither. It completes the history exactly when every event
  it passes over has its row from elsewhere (`StageHistory.BackfillCompletesIff`,
  `StageHistory.BackfillCanMiss`).
- A note that is not referred to but stands inside a paragraph is skipped by the
  walk and still gathered into the paragraph's text; apart from it the walk emits
  exactly the visible text (`Docx.WalkEmitsVisibleIff`, `Docx.StrayNote`,
  `Docx.WalkReadsPart`).
- A card whose business time rounds to zero seconds is not overdue at its
  deadline (`LeadSla.OverdueAtDeadline`).
- A restarted full back-fill moves its lower bound forward with the clock, so
  completeness is stated from the bound of the run that finishes, up to a bound
  fixed before the first run (`EventBackfill.EventSync.Recover`).

## Model

| member | source | states |
|---|---|---|
| `Reconcile.EveryRunIsSound` | apps/api/src/amo/amo-sync.service.ts:428-471 | in every state of every run of source changes, clock ticks, failed and successful passes, and older cursors put back, each lead and each stage change stamped from the first window up to the cursor's second is stored, leads of a known stage at their source version, with any overlap, 0 included |
| `Reconcile.PassCovers` | apps/api/src/amo/amo-sync.service.ts:434-440 | from the configured times alone: a successful pass has stored every lead and stage change stamped from the second of cursor - overlap, or of now - lookback on the first pass, through the second of min(now, cursor + lookback), has changed no other row, and sets the first second and the cursor accordingly |
| `Reconcile.PassSucceedsKeepsInv` | apps/api/src/amo/amo-sync.service.ts:434-440 | the window of a successful pass, floored to seconds, leaves no second out before the new cursor |
| `Reconcile.PassFailsKeepsInv` | apps/api/src/amo/amo-sync.service.ts:464-471 | a pass that broke off anywhere, some leads and events copied, leaves the promise of the unchanged cursor true |
| `Reconcile.SourceKeepsInv` | apps/api/src/amo/amo-sync.service.ts:438-440 | a change stamped with the present second never falls under what the cursor already promised |
| `Reconcile.PutBackKeepsInv` | apps/api/src/amo/amo-sync.service.ts:831-850 | an earlier or empty cursor that another writer of the settings puts back promises nothing that is not stored |
| `Reconcile.CursorAdvance` | apps/api/src/amo/amo-sync.service.ts:436-437 | no step moves the cursor past the clock, one moves it back if and only if another writer puts an older one back, and a success moves it by min(lag, lookback) |
| `Reconcile.CursorNeverGoesBack` | apps/api/src/amo/amo-sync.service.ts:428-471 | the cursor is monotone over any stretch of any run in which no other writer puts an older one back |
| `Reconcile.OutageIsCaughtUp` | apps/api/src/amo/amo-sync.service.ts:1122-1129 | after a long outage the k-th pass reaches min(now, cursor + k * lookback): bounded windows, none skipped |
| `Reconcile.FreshnessAfterPass` | apps/api/src/amo/amo-sync.service.ts:2583-2586 | a lead of the window is current after a successful pass if and only if its stage is in the maps or the stored copy already was current |
| `Reconcile.ParityMissesUnknownStage` | apps/api/src/amo/amo-sync.service.ts:2303-2310 | a concrete world in which the parity guard passes and the cursor moves over a deal that stays stale |
| `Reconcile.CountTellsSubset` | apps/api/src/amo/amo-sync.service.ts:2303-2310 | the count that the parity guard compares tells exactly whether every fetched id is live in the store |
| `Reconcile.LiveAfterCopyIff` | apps/api/src/amo/amo-sync.service.ts:2303-2310 | after the copy all listed leads are live, as the parity guard asks, if and only if each is of a known stage or was live before |
| `Reconcile.Reconciler.UpsertDeal` | apps/api/src/amo/amo-sync.service.ts:2583-2586 | a lead of a known stage is stored at its source version, one of an unknown stage is passed over |
| `Reconcile.Reconciler.UpsertLeads` | apps/api/src/amo/amo-sync.service.ts:2286-2289 | a batch stores the leads up to a failing write, those of a known stage at their source version, and touches no other row |
| `Reconcile.Reconciler.CopyRecentDeals` | apps/api/src/amo/amo-sync.service.ts:2275-2301 | a normal return saw every listed lead and only happens up to DealCapacity, a truncated one copied exactly the first DealCapacity leads of a longer listing, and only a broken request or write ends it otherwise, with a prefix copied |
| `Reconcile.Reconciler.SyncRecentDeals` | apps/api/src/amo/amo-sync.service.ts:2261-2311 | done means all copied and all live; a truncated or failed call has copied a prefix and says so |
| `Reconcile.CollectStageEvents` | apps/api/src/amo/amo-sync.service.ts:2331-2345 | a normal return holds exactly the whole listing, which is then no longer than the limit; truncation is reported exactly beyond the limit, with the first events up to it |
| `Reconcile.Reconciler.SyncRecentStageEvents` | apps/api/src/amo/amo-sync.service.ts:2313-2363 | done means every listed event is stored; a truncated call stored the first events up to the limit; otherwise only listed events were added |
| `Reconcile.Reconciler.ReconcileRecentChanges` | apps/api/src/amo/amo-sync.service.ts:428-471 | every way a pass can end is a step of the run model, and when nothing breaks it succeeds if and only if there is a snapshot, the cursor is not in the future, both listings are within their limits, and each listed lead is of a known stage or live before |
| `Paging.FetchBounds` | apps/api/src/amo/amo-client.ts:80-97 | a page is full when a next link follows, empty exactly past the end, and the last one ends at the listing's end |
| `Paging.PrefixGrows` | apps/api/src/amo/amo-sync.service.ts:2282-2300 | whatever its page size, a page that starts inside what was seen keeps the ids seen a contiguous prefix |
| `Paging.DealPage` | apps/api/src/amo/amo-sync.service.ts:2282-2300 | one page of the deal loop with a shrunken limit: contiguity, progress, and the end of the listing reached only within capacity |
| `Paging.DealStep` | apps/api/src/amo/amo-sync.service.ts:2282-2300 | one page of the deal loop in terms of the ids seen: they stay a prefix of the listing, and a page without a next link completes it |
| `Paging.CapUsedUp` | apps/api/src/amo/amo-sync.service.ts:2298-2301 | a used up limit means a listing beyond capacity, of which exactly the first DealCapacity records were seen |
| `Paging.DealCapacityIsCapIff` | apps/api/src/amo/amo-sync.service.ts:2268-2301 | the listing sizes the deal loop can finish: never above the limit, equal to it if and only if the limit is at most 250 or a multiple of 250, and 400 for a limit of 450 |
| `Paging.EventPage` | apps/api/src/amo/amo-sync.service.ts:2333-2345 | one page of the event loop: it starts inside what was seen, progress is measured by the page number, and the end is reached only within the limit |
| `EventCursor.StepReadsBack` | apps/api/src/amo/amo-sync.service.ts:3061-3061 | the persisted step reads back as the same stream and window, whatever the counters beside it |
| `EventCursor.LegacyReadsBack` | apps/api/src/amo/amo-sync.service.ts:3135-3137 | a step of the older form reads as stream 0 at its window |
| `EventCursor.CursorReadsBack` | apps/api/src/amo/amo-sync.service.ts:3129-3138 | only a written position is resumed from; the stage marker and an empty column give none |
| `Decimal.DigitsValue` | apps/api/src/amo/amo-sync.service.ts:3061-3061 | a printed numeral is made of digits and reads back as its number |
| `EventBackfill.EventTimeWindows` | apps/api/src/amo/amo-sync.service.ts:3099-3122 | the window loop yields the daily windows, or a single open one for a range that ends before it starts |
| `EventBackfill.DailyWindowsTile` | apps/api/src/amo/amo-sync.service.ts:3111-3120 | the daily windows tile the range without gap or overlap, all but the last exactly 86400 seconds long, the last no longer |
| `EventBackfill.EachSecondInOneWindow` | apps/api/src/amo/amo-sync.service.ts:3111-3120 | every second of the range lies in exactly one window |
| `EventBackfill.EventSync.IngestPage` | apps/api/src/amo/amo-sync.service.ts:3044-3057 | a page adds exactly its events unless a write breaks; the fetch counter grows by its distinct events, the insert counter by the growth of the store even if it breaks off |
| `EventBackfill.EventSync.PaginateWindow` | apps/api/src/amo/amo-sync.service.ts:3043-3062 | only events of the window were added, a normal end added all of them and left the cursor at the window; it ends otherwise only where the server refuses that very window or something broke |
| `EventBackfill.EventSync.IngestWindow` | apps/api/src/amo/amo-sync.service.ts:3039-3070 | bisection is exact and complete: done means store = old store plus all events of [from, to]; it is done unless something broke or the server refuses some single second of [from, to], whatever windows it refuses besides |
| `EventBackfill.EventSync.IngestWindows` | apps/api/src/amo/amo-sync.service.ts:3073-3075 | window after window, up to the present, with the persisted positions in order, unless something broke or a single second is refused |
| `EventBackfill.EventSync.SyncStream` | apps/api/src/amo/amo-sync.service.ts:3083-3089 | a resumed or fresh stream ends with everything due in it stored, and no position is persisted before the resumed one |
| `EventBackfill.EventSync.SyncEvents` | apps/api/src/amo/amo-sync.service.ts:3020-3089 | one run from a cursor text is done, all streams complete, unless something broke or a single second is refused; broken off anywhere, the persisted position has everything before it stored and is not before the one it resumed from |
| `EventBackfill.EventSync.Recover` | apps/api/src/amo/amo-sync.service.ts:3020-3138 | any number of runs, each resumed from the cursor left behind: done means every event of every stream is stored, and they are done if at least one run did not break and no single second is refused |
| `EventBackfill.StreamIdsMeans` | apps/api/src/amo/amo-sync.service.ts:3077-3089 | what "all streams" means: an id is due exactly when some stream has an event of that id in the range |
| `EventBackfill.SafeLater` | apps/api/src/amo/amo-sync.service.ts:3028-3033 | a lower bound that moved forward between two runs keeps the persisted position safe |
| `AmoClient.EveryRunIsPaced` | apps/api/src/amo/amo-client.ts:99-247 | in every state of every interleaving: granted slots at least max(160, interval) apart, at most 4 fetches a request, at most one refresh call out, no token spent or replaced by two successful refreshes, and however many 401 answers one access token gets, at most one successful refresh due to them, which replaces that token |
| `AmoClient.AnswerEndsIff` | apps/api/src/amo/amo-client.ts:133-167 | an answer ends its request if and only if it is final, a 401 after the first fetch, or a failure (429, 5xx, none) of the fourth; after any other failure the request backs off for 1, 2 or 4 seconds or longer by the server's word, keeping its attempt |
| `AmoClient.UnauthorizedRefreshes` | apps/api/src/amo/amo-client.ts:147-151 | after a 401 to the first fetch the request waits for a refresh under way, started with the current refresh token unless one was, or goes straight back into the chain when its token was replaced meanwhile |
| `AmoClient.ComesBackIff` | apps/api/src/amo/amo-client.ts:133-138 | a backing-off request comes back exactly from the end of its backoff on, at the end of the chain and with one attempt more |
| `AmoClient.EveryRunRetries` | apps/api/src/amo/amo-client.ts:111-167 | in every state of every run: a request under way has fetched once for each attempt, and one that ended other than by an abort or a failed refresh got a final answer, a 401 to a later fetch, or after a failure has fetched exactly four times |
| `AmoClient.BackoffIs` | apps/api/src/amo/amo-client.ts:136-157 | the delay after the n-th failure: 1, 2, 4 and 8 seconds, or the server's word if longer, up to a minute |
| `AmoClient.TurnMeans` | apps/api/src/amo/amo-client.ts:233-238 | a turn of the slot loop sleeps until exactly when spacing and cooldown are over, or goes to the token check, which starts a refresh exactly within a minute of expiry |
| `AmoClient.FreshMeans` | apps/api/src/amo/amo-client.ts:239-244 | after the token check the head takes the slot exactly if no cooldown holds, and else stays in line |
| `AmoClient.FetchMeans` | apps/api/src/amo/amo-client.ts:117-131 | a fetch carries the access token of its moment |
| `AmoClient.RefreshMeans` | apps/api/src/amo/amo-client.ts:185-222 | a successful refresh replaces both tokens by newer ones and sets the expiry, and only its end makes room for another |
| `AmoClient.NoSlotInCooldownOrAfterAbort` | apps/api/src/amo/amo-client.ts:226-247 | from any state on, no slot is granted before that state's cooldown is over, and none to a request aborted by then |
| `AmoClient.RateIsBounded` | apps/api/src/amo/amo-client.ts:228-247 | any j - i consecutive slots span at least (j - i) delays |
| `AmoClient.StepIsCareful` | apps/api/src/amo/amo-client.ts:231-244 | a step that grants a slot grants it to the unaborted head of the chain, after both the spacing and the cooldown |
| `AmoClient.SlotStep` | apps/api/src/amo/amo-client.ts:226-247 | every step keeps the slot chain in order and the grants spaced |
| `AmoClient.RefreshStep` | apps/api/src/amo/amo-client.ts:180-224 | every step keeps the refresh single-flight, the unsaved call on the current refresh token, and the token whose rejection started it the current access token |
| `AmoClient.AttemptStep` | apps/api/src/amo/amo-client.ts:110-167 | every step keeps attempts, fetches, refreshes on 401 and aborts of a request consistent |
| `AmoClient.ThrottlingPauses` | apps/api/src/amo/amo-client.ts:152-158 | an answer 429 pauses all requests for at least its backoff of 1, 2, 4 or 8 seconds and the server's delay, and at most a minute |
| `AmoClient.ApiClient.SlotTurn` | apps/api/src/amo/amo-client.ts:233-238 | a turn of the slot loop is the model's step: sleep, or go to the token check |
| `AmoClient.ApiClient.SlotTaken` | apps/api/src/amo/amo-client.ts:239-244 | after the token check the slot is taken exactly if no cooldown began meanwhile |
| `AmoClient.ApiClient.EnsureFreshToken` | apps/api/src/amo/amo-client.ts:180-183 | a call is started only within a minute of expiry |
| `AmoClient.ApiClient.RefreshToken` | apps/api/src/amo/amo-client.ts:185-190 | a refresh joins the call in flight or starts one with the current refresh token |
| `AmoClient.ApiClient.SaveTokens` | apps/api/src/amo/amo-client.ts:219-222 | a successful refresh replaces both tokens and the expiry in one step |
| `AmoClient.ApiClient.BackOff` | apps/api/src/amo/amo-client.ts:133-161 | a failure is the model's step: wait longer after each, give up after the fourth |
| `AmoClient.ApiClient.HandleAnswer` | apps/api/src/amo/amo-client.ts:133-167 | every kind of answer, on every attempt, is the model's step |
| `SyncJobs.EveryRunIsUniqueIff` | apps/api/src/amo/amo-sync.service.ts:54-304 | for runs in which any row may be claimed at any time, as the code does: at most one pull and one webhook job are active in every state if and only if every claim is of an active job or finds no other of its kind active |
| `SyncJobs.StepKeepsUniqueIff` | apps/api/src/amo/amo-sync.service.ts:880-885 | a step keeps at most one active job of each kind if and only if it is no claim or a safe one, for pull and webhook jobs alike |
| `SyncJobs.LateClaimBreaks` | apps/api/src/amo/amo-sync.service.ts:880-885 | a reachable run in which a job is read, closed as stale, replaced and only then claimed, and two pulls are active |
| `SyncJobs.EveryRunKnowsItsSnapshot` | apps/api/src/amo/amo-sync.service.ts:970-988 | whatever is claimed, in every state of every run lastFullSyncAt is set only after a full pull has succeeded, and no other job writes an empty value back |
| `SyncJobs.StepSettlesIff` | apps/api/src/amo/amo-sync.service.ts:279-304 | a step leaves closed jobs closed if and only if it does not claim one: no late touch, finish or expiry makes a job active again |
| `SyncJobs.ClosedStaysClosed` | apps/api/src/amo/amo-sync.service.ts:279-304 | over any stretch of a run without the claim of a closed job, closed jobs stay closed, none disappears, and a snapshot once known stays known |
| `SyncJobs.WebhooksWaitForSnapshot` | apps/api/src/amo/amo-sync.service.ts:202-225 | a webhook job appears only after a full pull succeeded and while no full or webhook job is queued or running |
| `SyncJobs.FirstPullIsFull` | apps/api/src/amo/amo-sync.service.ts:347-351 | a pull job can be created exactly while no other pull is queued or running, and is full if and only if that was asked for or no pull of the connection was ever recorded |
| `SyncJobs.FullPullOpensWebhooks` | apps/api/src/amo/amo-sync.service.ts:970-988 | a full pull whose end was recorded opens the webhook queue, exactly if no other full or webhook job is under way |
| `SyncJobs.UnrecordedEndChangesNoConnection` | apps/api/src/amo/amo-sync.service.ts:970-1000 | an end that failed or was not recorded leaves the connection as it was; an incremental or webhook job writes back the lastFullSyncAt it loaded, and only pulls record a pull |
| `SyncJobs.RacingInsertsAreCovered` | apps/api/src/amo/amo-sync.service.ts:175-186 | a full pull inserted under its own lock between a webhook's check and its insert gives a table that the one-step model reaches |
| `SyncJobs.ExpiryFreesTheQueue` | apps/api/src/amo/amo-sync.service.ts:279-321 | after closing stale jobs a pull can be created if and only if every active pull had been silent too long |
| `SyncJobs.ExpiryClosesSilentJobs` | apps/api/src/amo/amo-sync.service.ts:279-345 | expiry closes a queued or running job exactly when its heartbeat, or else its start, or else its creation, is older than the limit of its type |
| `SyncJobs.HeartbeatKeepsJob` | apps/api/src/amo/amo-sync.service.ts:279-345 | a heartbeat, or the claim itself, keeps a job for exactly the limit of its type |
| `SyncJobs.JobQueue.EnqueuePullSync` | apps/api/src/amo/amo-sync.service.ts:117-173 | under its lock the transaction creates a job only from a table without an active pull, and otherwise only closes stale jobs and names the active one |
| `SyncJobs.JobQueue.TriggerWebhookQueue` | apps/api/src/amo/amo-sync.service.ts:175-268 | a webhook job is created exactly from a table that allows it, under the lock and with rows pending; each refusal names its reason |
| `SyncJobs.JobQueue.ExpireStaleJobs` | apps/api/src/amo/amo-sync.service.ts:279-304 | exactly the stale active jobs are closed, and the count is 0 exactly when nothing changed |
| `SyncJobs.JobQueue.StartJob` | apps/api/src/amo/amo-sync.service.ts:880-885 | the claim writes RUNNING and both times whatever the row holds |
| `SyncJobs.JobQueue.FinishJob` | apps/api/src/amo/amo-sync.service.ts:970-1000 | the end of a job writes its row and then, unless the worker dies between the two, the connection, late or not, as the model's step does |
| `PullStages.StepNamesItsStage` | apps/api/src/amo/amo-sync.service.ts:1131-1137 | every step a stage writes, with or without a detail after a colon, names that stage |
| `PullStages.EventStepResumesEvents` | apps/api/src/amo/amo-sync.service.ts:1131-1137 | the step text of the event back-fill both names the events stage for the pull job and gives its stream and window back |
| `PullStages.BegunNext` | apps/api/src/amo/amo-sync.service.ts:922-968 | beginning a stage keeps the order of the stages begun and the cursor at the latest of them |
| `PullStages.PullJob.RunStage` | apps/api/src/amo/amo-sync.service.ts:922-968 | a stage begins only after all earlier applicable ones have ended and never before the resumed one, the cursor names it while it runs, and a skipped one is already behind the resumed cursor |
| `PullStages.PullJob.RunPullJob` | apps/api/src/amo/amo-sync.service.ts:880-973 | SUCCESS, unless something breaks, after every stage of the pull ran to its end in some run of the job (metadata and entity links only in a full one), without one before the resumed stage begun again; any break leaves the cursor at the latest stage begun |
| `PullStages.PullJob.Restart` | apps/api/src/amo/amo-sync.service.ts:1131-1142 | the same over any number of restarted runs, which succeed once one of them does not break |
| `WebhookInbox.GroupWebhookEvents` | apps/api/src/amo/amo-sync.service.ts:1228-1273 | one group per distinct key, holding exactly the rows with that key in order, with the entity and id of one of them |
| `WebhookInbox.EachRowInOneGroup` | apps/api/src/amo/amo-sync.service.ts:1228-1273 | every row of the batch is in the group of its key and in no other |
| `WebhookInbox.KeysAreUniqueIff` | apps/api/src/amo/amo-sync.service.ts:1253-1253 | keys tell (entity, target) pairs apart if and only if no entity continues another with a colon |
| `WebhookInbox.KnownEntitiesAreUnambiguous` | apps/api/src/amo/amo-sync.service.ts:1275-1284 | leads, tasks, contacts, companies and customers satisfy that condition |
| `WebhookInbox.SameTargetTogether` | apps/api/src/amo/amo-sync.service.ts:1253-1267 | rows of one entity and one external id lie in the same group, whatever the entities |
| `WebhookInbox.TogetherIff` | apps/api/src/amo/amo-sync.service.ts:1250-1267 | where keys are unambiguous, two rows lie in one group if and only if they have one entity and one external id or are one row |
| `WebhookInbox.GroupCount` | apps/api/src/amo/amo-sync.service.ts:1250-1272 | there, there are exactly as many groups as distinct (entity, external id) pairs and rows without an id |
| `WebhookInbox.Inbox.ProcessGroup` | apps/api/src/amo/amo-sync.service.ts:1040-1062 | a group ends skipped without an id, applied with one, or, only where something breaks, as an error, all its rows alike; a failed mark changes nothing |
| `WebhookInbox.Inbox.RunWebhookJob` | apps/api/src/amo/amo-sync.service.ts:1020-1062 | a finished batch, and every batch finishes unless something breaks, has marked the rows of every group once; a broken one those of the groups before the break; no other row changed |
| `WebhookInbox.MarkMeans` | apps/api/src/amo/amo-sync.service.ts:1356-1385 | a mark counts one attempt and leaves what the row is about alone; one as an error makes it ready again exactly a minute later, any other ends it for good |
| `WebhookInbox.BatchMovesItsRows` | apps/api/src/amo/amo-sync.service.ts:1356-1369 | every row of a finished batch that no other worker reads moved to exactly one of applied, skipped or error, with one more attempt, and to error only where something broke |
| `WebhookInbox.RowEndsByItsId` | apps/api/src/amo/amo-sync.service.ts:1040-1062 | where a group is one target, a row that did not fail was skipped exactly if it names no external id and applied if it names one |
| `WebhookInbox.OtherRowsStay` | apps/api/src/amo/amo-sync.service.ts:1356-1369 | no row outside the batch changes |
| `WebhookWorkers.BatchIsActions` | apps/api/src/amo/amo-sync.service.ts:1020-1062 | a webhook job's query is a read of its worker, and each group it ends a mark of rows it read |
| `WebhookWorkers.StepKeepsDoneIff` | apps/api/src/amo/amo-sync.service.ts:1356-1369 | with any number of workers: a step keeps applied and skipped rows so if and only if it is no error mark on one, and unchanged if and only if it is no mark on one |
| `WebhookWorkers.EveryRunKeepsDoneIff` | apps/api/src/amo/amo-sync.service.ts:1356-1385 | over every run of interleaved workers, finished rows stay finished if and only if no worker marks one as an error |
| `WebhookWorkers.EveryRunLeavesDoneIff` | apps/api/src/amo/amo-sync.service.ts:1356-1385 | and they never change if and only if no worker marks one at all |
| `WebhookWorkers.DoneForever` | apps/api/src/amo/amo-sync.service.ts:1371-1385 | over any stretch of a run without an error mark on a finished row, an applied or skipped row is never ready again |
| `WebhookWorkers.AttemptsCountMarks` | apps/api/src/amo/amo-sync.service.ts:1356-1369 | in every run a row's attempts grow by exactly the marks it got, from whichever workers |
| `WebhookWorkers.ApartRunsLeaveDone` | apps/api/src/amo/amo-sync.service.ts:1020-1062 | where every read is apart from the rows other workers hold, no finished row is ever marked |
| `WebhookWorkers.ReadRowIsMarkedOnce` | apps/api/src/amo/amo-sync.service.ts:1020-1062 | there, the mark of a row by the worker that read it is its only change since the read: one end, one more attempt |
| `WebhookWorkers.OverlapCanReopen` | apps/api/src/amo/amo-sync.service.ts:1356-1369 | two workers that hold one row can apply it and then open it again |
| `WebhookWorkers.AppliedRowIsReadyAgain` | apps/api/src/amo/amo-sync.service.ts:1356-1385 | a run of five actions in which an applied row is ready again a minute later, with two attempts |
| `StageHistory.HistoryConverges` | apps/api/src/amo/amo-sync.service.ts:3289-3344 | any two lists of the same events, in any order and with any repeats, give the same rows, each once |
| `StageHistory.RowOf` | apps/api/src/amo/amo-sync.service.ts:3289-3300 | no row goes from a stage to itself |
| `StageHistory.RowIsMoveIff` | apps/api/src/amo/amo-sync.service.ts:3289-3309 | an event gives a row if and only if the row is its deal, at its moment, into the stage that the value after names, out of the one that the value before names if it names a known one, and the two differ |
| `StageHistory.ApplyAllMeans` | apps/api/src/amo/amo-sync.service.ts:3320-3344 | earlier rows stay, exactly the rows of the events are added, and no key is repeated |
| `StageHistory.SelectedMeans` | apps/api/src/amo/amo-sync.service.ts:3251-3271 | the back-fill selects exactly the stored status changes of stored deals from its lower bound on |
| `StageHistory.BackfillCompletesIff` | apps/api/src/amo/amo-sync.service.ts:3246-3287 | whatever part of the stored events was applied live, the back-fill completes the history, each row once, if and only if every event it passes over, by type or by date, has its row from elsewhere |
| `StageHistory.BackfillCanMiss` | apps/api/src/amo/amo-sync.service.ts:3251-3257 | two concrete stage moves it passes over, one of another event type and one older than its bound, that leave the history incomplete |
| `StageHistory.History.ApplyEventToStageHistory` | apps/api/src/amo/amo-sync.service.ts:3289-3309 | the method adds the event's row if it has one and the table does not |
| `StageHistory.History.BackfillStageHistoryFromStoredEvents` | apps/api/src/amo/amo-sync.service.ts:3246-3287 | the method applies exactly the selected stored events |
| `FullSnapshot.DealStore.SyncDeals` | apps/api/src/amo/amo-sync.service.ts:2205-2258 | unless something breaks, a listing of fewer than 80 % of a hundred or more live deals is refused and deletes nothing, and any other is certified if and only if every lead is of a known stage or was live; then the live ids are the source ids; a parity failure leaves a proper subset live |
| `FullSnapshot.DealStore.CopyAllLeads` | apps/api/src/amo/amo-sync.service.ts:2219-2233 | a normal end saw every listed lead; a broken one stored only listed leads of known stages |
| `FullSnapshot.DealStore.DeleteMissing` | apps/api/src/amo/amo-sync.service.ts:2242-2250 | slices of 500 cover exactly the missing ids |
| `FullSnapshot.MissingMeans` | apps/api/src/amo/amo-sync.service.ts:2242-2244 | the missing ids are those live before and not listed |
| `Base.SubsetIsWholeIff` | apps/api/src/amo/amo-sync.service.ts:2252-2258 | the final count suffices because the live set is a subset of the source by then |
| `BusinessTime.MoscowBusinessElapsedMs` | apps/web/src/App.tsx:5664-5681 | the skipping loop terminates and its total is the number of milliseconds of [start, end) in Mon-Fri 10:00-19:00 Moscow |
| `BusinessTime.NextMoscowBusinessStartMs` | apps/web/src/App.tsx:5683-5701 | the least business instant at or after the argument |
| `BusinessTime.PartsMean` | apps/web/src/App.tsx:5703-5735 | parts and back: weekday, minutes and instant agree with the day number, whatever month or year the day overflows into |
| `BusinessTime.Additive` | apps/web/src/App.tsx:5664-5681 | the count is additive over any split point |
| `BusinessTime.Monotone` | apps/web/src/App.tsx:5664-5681 | the count is monotone in its end |
| `BusinessTime.AnyWeek` | apps/web/src/App.tsx:5661-5681 | any seven days in a row hold exactly 45 hours |
| `BusinessTime.BusinessIff` | apps/web/src/App.tsx:5703-5735 | an instant is business time exactly when Moscow's clock shows 10 to 18 hours on a Monday to Friday |
| `BusinessTime.FirstDay` | apps/web/src/App.tsx:5661-5663 | on 1970-01-01 business time was from 7 to 16 hours UTC |
| `LeadSla.OnlyMovesOn` | apps/web/src/App.tsx:5627-5658 | as time passes a card only moves on from waiting to overdue, its clock and progress never run back, and progress stays within 0-100 |
| `LeadSla.OverdueAtDeadline` | apps/web/src/App.tsx:5640-5649 | a card is overdue at its deadline if and only if it was given at least half a second of business time |
| `LeadSla.StandsStillOffHours` | apps/web/src/App.tsx:5640-5658 | time outside working hours changes nothing |
| `LeadSla.CardShows` | apps/web/src/App.tsx:5640-5649 | elapsed and given time are the nearest whole seconds, one at least given; the card waits before its start, is overdue from the end of its time on, and warns in the last five minutes |
| `LeadSla.CardProgress` | apps/web/src/App.tsx:5643-5643 | progress is the nearest whole percentage of the time given, and 100 at most |
| `LeadSla.UndatedCardStays` | apps/web/src/App.tsx:5630-5638 | a card whose dates do not parse shows the values it came with |
| `Calendar.DayOfCivil` | apps/web/src/App.tsx:5703-5731 | the civil date of a day, with any number of days added, makes that day again |
| `Calendar.CivilOfDay` | apps/web/src/App.tsx:5703-5731 | every valid date is the civil date of the day it makes |
| `Calendar.NextMonth` | apps/web/src/report-period.ts:40-47 | the day after the last of a month is the first of the next, across the end of the year |
| `Calendar.LeapYears` | apps/web/src/App.tsx:5729-5731 | consecutive years are 365 or 366 days apart by the leap year rule |
| `Calendar.MonthDaysAre` | apps/web/src/report-period.ts:40-47 | how long the months are |
| `Calendar.Epoch` | apps/web/src/App.tsx:5703-5731 | day 0 is 1970-01-01, a Thursday |
| `ReportPeriod.PresetsTile` | apps/web/src/report-period.ts:13-45 | for every instant each last_ period ends one millisecond before its this_ period starts, and every current period contains the instant |
| `ReportPeriod.LastMonthDates` | apps/web/src/report-period.ts:40-50 | last_month prints as the first and the true last day of the month before, across January and leap years |
| `ReportPeriod.WeeksStartOnMonday` | apps/web/src/report-period.ts:21-36 | weeks run from Monday to Sunday, across months and years |
| `ReportPeriod.PresetSpansItsDays` | apps/web/src/report-period.ts:13-45 | every preset runs from the midnight of its first civil day to the last millisecond of its last |
| `ReportPeriod.CurrentPeriodsEndToday` | apps/web/src/report-period.ts:13-45 | every current period ends with the last millisecond of today; today and yesterday are one day long |
| `ReportPeriod.ThisMonthStartsOnFirst` | apps/web/src/report-period.ts:36-38 | this month starts on the first of the month that today is in |
| `StableJson.PrintsAreCanonical` | apps/web/src/App.tsx:1481-1489 | two JSON values print equally if and only if they are equal up to object key order |
| `StableJson.ReadsBack` | apps/web/src/App.tsx:1481-1489 | a parser reads every printed value back, keys sorted, and leaves what follows it |
| `StableJson.StringReadsBack` | apps/web/src/App.tsx:1482-1482 | quoted strings read back for all UTF-16 code units, lone surrogates and controls included |
| `StableJson.PlainTextStays` | apps/web/src/App.tsx:1482-1482 | text without quotes, backslashes, control characters and surrogates is printed as it is |
| `StableJson.Surrogates` | apps/web/src/App.tsx:1482-1482 | a lone surrogate is escaped by its number, and the two of a pair never are |
| `StableJson.EscapesAre` | apps/web/src/App.tsx:1482-1482 | the short escapes, a hexadecimal one, a lone surrogate and a pair, unit by unit |
| `StableJson.Punctuation` | apps/web/src/App.tsx:1482-1488 | words, brackets, commas, colons and quotes of the printed text, unit by unit |
| `StableJson.SortSorts` | apps/web/src/App.tsx:1485-1486 | object keys are printed in strict code unit order |
| `StableJson.OneSorting` | apps/web/src/App.tsx:1485-1486 | one set of keys has one sorted order |
| `StableJson.LessIff` | apps/web/src/App.tsx:1485-1485 | keys are in order by the first code unit that differs, or a proper prefix first |
| `Extraction.NothingIsLostSilently` | scripts/crm-control-local/extract.py:69-113 | what is kept is a prefix of what an unlimited extraction keeps, within both limits, and all of it if and only if no problem was recorded, which is if and only if the whole is at most 50000 units and 200000 characters |
| `Extraction.LimitsAreReported` | scripts/crm-control-local/extract.py:81-98 | the limit that a refused or clipped text met is the one reported |
| `Extraction.Result.Add` | scripts/crm-control-local/extract.py:81-98 | the method refuses, clips or appends as the content function says, and tells whether more may follow |
| `Extraction.Result.Payload` | scripts/crm-control-local/extract.py:100-113 | COMPLETE exactly when there is text and no problem was recorded |
| `Docx.WalkConserves` | scripts/crm-control-local/extract.py:378-452 | the walk and the paragraph text together emit the visible text nodes once each, and besides them exactly the text of unwanted notes inside paragraphs |
| `Docx.WalkEmitsVisibleIff` | scripts/crm-control-local/extract.py:378-452 | the walk emits exactly the text nodes under a paragraph, outside deletions and unreferenced notes, if and only if no such note holds text inside a paragraph |
| `Docx.StrayNote` | scripts/crm-control-local/extract.py:378-390 | a concrete paragraph around an unreferenced footnote, whose text is emitted although the walk passes the note over |
| `Docx.EachTextOnce` | scripts/crm-control-local/extract.py:378-452 | when text nodes can be told apart, each visible or stray one is emitted exactly once and no other is emitted |
| `Docx.WalkReadsPart` | scripts/crm-control-local/extract.py:378-452 | the walk's paragraphs hold, text by text, what one reading of the part from its first to its last character finds: each w:t's text, a tab for w:tab and a newline for w:br and w:cr, given to the innermost paragraph |
| `Docx.WholeIsRead` | scripts/crm-control-local/extract.py:378-452 | the same over all parts: the units that an unlimited extraction keeps tell the texts that are not empty, in order, with their parts |
| `Docx.PlainIff` | scripts/crm-control-local/extract.py:425-431 | a part is plain exactly when none of its nodes is a tracked change, unsupported content or a field |
| `Docx.LocatorsDiffer` | scripts/crm-control-local/extract.py:433-452 | no two paragraphs of a part have the same path |
| `Docx.PathStepCounts` | scripts/crm-control-local/extract.py:445-450 | a path step numbers a child among the children up to it with its local name |
| `Docx.UnitLocatorsDiffer` | scripts/crm-control-local/extract.py:440-443 | the units of a part have different paths, each that of a paragraph |
| `Docx.Walk` | scripts/crm-control-local/extract.py:433-451 | the recursive walk adds exactly the paragraphs due, in order, up to a refusal or, where it is late, the deadline |
| `Docx.ExtractDocx` | scripts/crm-control-local/extract.py:422-452 | whatever is kept is a prefix of all paragraphs within the limits; a complete result tells exactly what a reader of the parts finds; and unless it is late it is complete if and only if every part is plain and there is some text but no more than fits |
| `Transcript.SplitChannel` | scripts/crm-control-local/transcribe.py:249-262 | striding chunk by chunk equals striding the whole recording, and it ends unless the time runs out |
| `Transcript.InterleaveRestores` | scripts/crm-control-local/transcribe.py:261-262 | interleaving the split channels restores the recording, for any number of channels |
| `Transcript.NormalizeSegments` | scripts/crm-control-local/transcribe.py:265-296 | it accepts exactly the lists in order, within the duration and the text limits, and keeps the spoken segments |
| `Transcript.AcceptableIff` | scripts/crm-control-local/transcribe.py:265-296 | a list is acceptable exactly when each item lies within the duration, after the one before it, with at most 16000 characters and, if spoken, some length, and all texts have at most 200000 characters |
| `Transcript.KeptIff` | scripts/crm-control-local/transcribe.py:283-295 | a segment is kept exactly when it is some spoken item's, on this channel |
| `Transcript.KeptAreInOrder` | scripts/crm-control-local/transcribe.py:275-295 | kept segments are strictly ordered, disjoint and within the duration |
| `Transcript.SortSorts` | scripts/crm-control-local/transcribe.py:407-407 | the merged list is sorted and a permutation of the channels' lists |
| `Transcript.SortedIff` | scripts/crm-control-local/transcribe.py:407-407 | sorted means by start, then by channel, then by end |
| `Transcript.MergeKeepsChannels` | scripts/crm-control-local/transcribe.py:377-407 | the merged list restricted to a channel is that channel's own list |
| `Transcript.FitsIff` | scripts/crm-control-local/transcribe.py:377-407 | a transcript fits exactly when each channel is acceptable and all together are within 10000 segments and 200000 characters |
| `Transcript.Transcribe` | scripts/crm-control-local/transcribe.py:377-407 | unless something breaks, complete if and only if every channel fits, and otherwise ended at the first that does not, with the ones before it merged |

## Left out

- Prisma, PostgreSQL, HTTP, NestJS wiring, logging and audit rows: tables are maps, sets and sequences, and requests are nondeterministic choices.
- Field-by-field copying of deals, contacts, companies, customers, tags and catalogs: a version number stands for all other fields of a lead.
- Source changes during one pass or one paginated read, and writers racing on one deal row: the code does not protect these.
- Events that arrive in streams already passed between a crash and the restart, and a clock that runs backwards, which would give the single window without an upper end.
- EventBackfill.EventSync.IngestWindows: the loop over the daily windows is written as a recursion on the rest of them, with the same order and the same early end.
- Fractional milliseconds and non-finite or fractional configuration values; a request interval that is not finite is taken as 160.
- AmoClient.EveryRunIsPaced: a request may go on from the token refresh before the refresh has settled, so the machine allows more interleavings than the event loop does; tokens are numbered as if the server never issued one twice. The claims are for one client object; every job and pass has a client of its own, and two of them can spend one refresh token.
- URL building, headers, response bodies, and the 30-second fetch timeout, which is one way of getting no answer.
- The job scheduler's intervals and busy flags: any order of its calls is allowed. Audit, connection status and error texts of jobs.
- SyncJobs.WebhooksWaitForSnapshot: the check and the insert of a job are one step, although the pull and the webhook transactions hold different advisory locks; a full pull inserted between the webhook's check and its insert gives the table of inserting it right after the webhook job (`SyncJobs.RacingInsertsAreCovered`).
- SyncJobs.EveryRunIsUniqueIff: that the worker which claims a job had read it as queued; the model lets it claim any row.
- SyncJobs.JobQueue.EnqueuePullSync: the audit row and the start of the worker after the transaction; `trigger` differs from `enqueuePullSync` only in them.
- PullStages.PullJob.RunPullJob: the bodies of the stages; a stage either runs to its end, with any number of page touches, or breaks off.
- Optional stages that swallow their errors count as run to their end.
- Reconcile.EveryRunIsSound: amoCRM is taken to stamp a change with the second of the local clock and to list it from then on.
- WebhookInbox.Inbox.RunWebhookJob: other workers between its groups, which `WebhookWorkers` has.
- WebhookWorkers.DoneForever: the order and size of a query's result, beyond the limit of a hundred rows.
- WebhookInbox.GroupWebhookEvents: entities arrive normalised and ids already taken from the payload; a mark that reports failure is assumed to have had no effect.
- StageHistory.RowOf: events carry `created_at`, and stage ids are pairs of pipeline and status, as numeric ids cannot blur the underscore between them.
- Calendar.CivilOfDay: years 0 to 99, which Date.UTC moves to the 20th century, and instants beyond the range of Date.
- BusinessTime.PartsMean: Moscow is UTC+3 throughout; earlier offsets of the zone database are not modelled.
- LeadSla.OnlyMovesOn: seconds and percentages are rounded exactly, not in binary floating point.
- ReportPeriod.LastMonthDates: dates are triples; their text of zero-padded digits is not spelled out.
- StableJson.PrintsAreCanonical: undefined, functions, and numbers that are not finite; a number is the text that JavaScript prints for it.
- FullSnapshot.DealStore.SyncDeals: no other writer during the snapshot; the comparison with 80 % is exact rather than in binary floating point.
- Docx.ExtractDocx: ZIP handling, relationship targets and active content; the parts to walk and the referenced note ids are given, and whether a note is wanted is decided as the code does.
- Docx.LocatorsDiffer: element names contain no bracket, as in any XML document.
- Transcript.NormalizeSegments: the engine's output is already decoded, and whether a text is only white space is given with it; text hashes and speaker roles are not kept.
- PDF and XLSX extraction, OCR, audio decoding, caches and file fingerprints.
- User interface components, and services that are only called: they are no part of this model.
