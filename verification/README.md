# termduty: verified model of the backend's stateful core

termduty collects readings from service terminals, raises alerts when a reading breaches a rule, and lets
handlers and a duty desk work those alerts off. Five parts of its backend keep state whose correctness is only
settled over whole runs. This project models those five, as the Go code writes them, and proves what they keep.

* **Sharded reading store.** One append-only file of JSON lines per day, written under a begin/append/commit-or-rollback
  lease with a cached line count; an SQL index with one row per line; an SQL manifest with a line count and a running
  hash fold per shard. Files are byte sequences. Three separate byte loops (`countLines`, `ReadLine`, `Scan`) read them.
  Modules `Lines`, `Checksum`, `ReadingState`, `ReadingAgreement`, `ReadingLegible`, `ReadingTheorems`, `ReadingTorn`,
  `ReadingHeld`, `ReadingRuns`, `ReadingColumns`, `ShardStore`, `ReadingRepo`.
* **Alert and assignment protocol.** An explicit transition table, assignment rows that change in the same
  transaction, optimistic versions, and an evaluator that finds and creates (or reads and updates) in separate steps.
  Modules `AlertState`, `AlertStore`, `AlertProtocol`, `AlertRuns`, `AlertColumns`; one whole evaluator sweep in
  `Rules`, `RecentReadings`, `Evaluation`, `SweepTheorems`, `SweepReadings`.
* **Lease queue for ingest.** Items are leased with an expiry, stored through the reading store, and then completed,
  failed, reclaimed or requeued. Modules `IngestQueue`, `LeaseRuns`, `IngestProtocol`, `IngestSafety`,
  `IngestCounting`, `IngestConservation`, `IngestService`, `IngestBatches`, `IngestDeadLetters`.
* **Batches with compensation.** Steps capture what they are about to change and compensations run in reverse.
  Modules `Saga`, `SagaTheorems`, `SagaTrouble`, `SagaFields`, `SagaReports`, `SagaRunner`, `BatchService`.
* **Retry arithmetic, the scheduler's failure counter and the migration splitter.** Modules `Int64`, `Retry`,
  `Scheduler`, `SqlSplit`, `SqlCuts`.

The Go objects that mutate fields, files or tables are classes here; each method is the source's sequence of steps and
is proved to have exactly the effect of a function on values. The theorems are about those functions and about runs of
them. What lands in which column, out of which argument, is stated once more without those functions, column by column
and with the source's own constants.

JSON, SHA-256 and the date format are parameters (`World`): encodings are non-empty, newline-free and can be undone, as
section 7 of RFC 8259 makes them, and digests are non-empty hex. No injectivity of the hash is assumed: statements that
need it name the two inputs, hashed while folding these very lines, that would have to share a digest.

The store is described by two invariants. In *agreement*, files, cache, index and manifest tell one story. A *legible*
store is weaker: its files are whole lines that know their own place, the cache is right and every index row fits its
line, but there may be lines that no table knows of, such as a whole line left by a process that died before indexing
it. Which steps keep which invariant is settled exactly, for every combination of failures. What torn writes cannot
touch is stated apart from both: a reading is *held* when its row names a line that a newline has ended and that decodes
to it. Files never get a blank line and otherwise only grow, in any run whatever, so a held reading reads the same for
ever after, unless a rebuild skips its shard.

## Where the code falls short of its intent

Each of these is the code as it stands, with the exact condition under which the promise holds.

* A failing recount is taken for an empty file (`internal/store/shard/shard.go:98-102`): the next line is given number
  zero, the append reports success, and `Get` of its id answers with the first reading of the shard
  (`ReadingTheorems.MiscountMisreads`). A success reads back exactly when this did not happen
  (`ReadingTheorems.SuccessReadsBackIff`).
* A rollback that is cancelled, or whose stat or truncate fails, leaves the bytes of the failed append on disk
  (`internal/store/shard/shard.go:156-170`); one whose sync fails leaves the cache one too high
  (`internal/store/shard/shard.go:171-179`). Which appends
  keep the agreement in spite of all this is `ReadingTheorems.AppendKeepsAgreementIff`.
* After a death in the middle of a line and a restart, the next append to that shard reports success and its record is
  lost: its line is glued to the torn one. It reads back exactly when the file is empty or ends in a newline
  (`ReadingTorn.AppendAfterCrashReadsBackIff`), which a caller could check before appending. From then on the manifest
  counts as many lines as there are, so that only the checksum still tells (`ReadingTorn.VerifyAfterCrashAndAppend`).
* A rebuild restores agreement exactly when no two lines share an id and no shard with lines is skipped
  (`ReadingTheorems.RebuildRestoresIff`), and after a torn write only when the write left nothing or a whole line
  (`ReadingTheorems.RebuildAfterCrashIff`).
* `internal/store/start_assignment_test.go:11-20` expects starting to be reserved to the assignee; the code only trims
  the handler's name (`internal/store/alerts.go:195-197`). The model follows the code: the name decides about nothing but
  a resolve (`AlertRuns.OnlyResolvingChecksHandler`), and no other result depends on that check.
* Undoing a disable step makes its collector active whatever it was before
  (`SagaTheorems.RollbackActivatesBystander`); and a status that was written but cannot be
  read back is reported as a failure (`internal/store/collectors.go:111`), so its step is left out of the compensations
  and the collector stays disabled (`SagaTheorems.LateErrorLeavesDisabled`). A failed batch restores the statuses it
  found exactly when the completed prefix was all active and the failing step wrote nothing
  (`SagaTheorems.DisableRestoresIff`). A retry need not stop where a first try would
  (`SagaTheorems.RetryStopsAlikeIff`), and leaves the statuses a first try would have left only under the exact
  condition of `SagaTheorems.RetryLeavesSameStatusesIff`.
* A compensation whose read fails counts as done (`internal/orchestration/batch.go:94-96` and
  `internal/orchestration/batch.go:159-161`), so a pass that reports no error need not have restored anything; and one
  whose write cannot be read back is reported although it was made. What is restored depends on the trouble met, exactly
  (`SagaTrouble.TroubledDisableRestoresIff`, `SagaTrouble.FailedTuneLeaves`). A later pass without trouble restores every
  rule, whatever the earlier one met (`SagaTrouble.RepeatedPassRestoresRules`).
* A worker drops the error of the statement that fails an item (`internal/orchestration/ingest.go:81` and
  `internal/orchestration/ingest.go:91`), and one that cannot complete an item goes on to the next
  (`internal/orchestration/ingest.go:98-100`). Such an item stays leased, to be leased and stored again, although its
  reading may have been stored (`IngestBatches.BatchAccountsForItems`).
* A completion that arrives after its lease ran out is accepted or refused depending on whether the reaper ran; one such
  completion in any run is enough to change what a later lease hands out (`LeaseRuns.UntimelyCompletionShows`).
* The backoff doubling overflows 64 bits for a limit above the base delay's last fitting doubling; the delay then turns
  negative (`Retry.BackoffIsIdealIff`). The default policy is far below that.
* One evaluator keeps alerts unique per collector and rule. The server starts one (`internal/scheduler/scheduler.go:46-54`);
  a second can only be another process, and its late create duplicates a pair exactly when the pair has an active alert
  by then (`AlertRuns.LateCreateKeepsOneIff`).

## Model

| member | source | states |
|---|---|---|
| Lines.CountLines | internal/store/shard/shard.go:106-118 | the byte loop counts the newline bytes, which are one less than the stretches between them |
| Lines.FindLine | internal/store/shard/shard.go:186-215 | the loop finds exactly the slice that line number stands for, including an unterminated tail, and nothing beyond |
| Checksum.Scan | internal/store/shard/shard.go:228-262 | the callback sees the non-empty lines in order until it first fails; a full pass returns their number and fold, a failing one no checksum |
| Lines.JoinSegments | internal/store/shard/shard.go:106-118 | every byte sequence is the newline-join of its newline-free stretches |
| Lines.SegmentsJoin | internal/store/shard/shard.go:106-118 | and that is its only such decomposition |
| Lines.ScannersAgreeIffNoBlankLine | internal/store/shard/shard.go:186-262 | Scan's k-th payload is the slice ReadLine decodes, for all k and no more, exactly when the file has no blank line; Scan counts one more than countLines exactly when there is an unterminated tail |
| Lines.RenderRoundTrip | internal/store/shard/shard.go:124-145 | lines written with a newline each come back from all three scanners |
| Lines.TornWrite | internal/store/shard/shard.go:124-145 | what Scan sees after any prefix of a line was written |
| Checksum.SeparatorUnique | internal/store/shard/shard.go:300-306 | previous checksum, zero byte, line: the concatenation decodes in one way |
| Checksum.FoldIdentifiesLines | internal/store/shard/shard.go:300-306 | equal folds mean equal line sequences of any lengths, or an input hashed while folding the one and a different one hashed while folding the other share a digest |
| ShardStore.Store.Begin | internal/store/shard/shard.go:64-104 | takes the lock and hands out size and next line number: zero without a file, the cached count if there is one, else the newlines of the file, which it caches; a file that cannot be recounted counts as empty; a failing Begin changes nothing |
| ShardStore.Store.AppendLine | internal/store/shard/shard.go:124-145 | the file grows by the line and byte 10, or by the prefix that was written; the cache moves on only on success |
| ShardStore.Store.Rollback | internal/store/shard/shard.go:154-183 | how far the cut and the reset of the cache get: nowhere, past the truncate, or through |
| ShardStore.Store.Recompute | internal/store/shard/shard.go:265-267 | count and fold of all lines of the file |
| ReadingRepo.Repo.Append | internal/store/readings.go:57-89 | lease, encode, write, index, commit or roll back: together the one state change AppendSpec, for every combination of a failing begin, recount, encoding, write, transaction and rollback |
| ReadingRepo.Repo.CommitIndex | internal/store/readings.go:95-131 | one transaction: index row and manifest row both, or neither; the row shows the reading column by column, the count grows by one and the checksum is the hash of the previous one, a zero byte and the line |
| ReadingRepo.Repo.Get | internal/store/readings.go:141-156 | follows the index row to its line and decodes it, with each way that can fail |
| ReadingRepo.Repo.VerifyShard | internal/store/readings.go:233-257 | compares the manifest with a full rescan |
| ReadingRepo.Repo.RebuildIndex | internal/store/readings.go:262-303 | replaces both tables by what the readable files say, and leaves them alone exactly when two lines carry one id or the transaction fails; it reports an error then, and when the rows cannot be counted after the commit |
| ReadingRepo.RebuildShardRows | internal/store/readings.go:305-333 | loads one shard's decodable lines, or meets an id already loaded |
| ReadingTheorems.AppendKeepsAgreementIff | internal/store/readings.go:57-131 | an append keeps files, cache, index and manifest in agreement exactly when it leaves no bytes behind, does not miscount a shard that has lines, and leaves no line cut off but still cached (the last two can cancel out over one line) |
| ReadingLegible.AppendKeepsLegibleIff | internal/store/readings.go:57-131 | it keeps the store legible exactly when what it leaves behind, if anything, is a whole line that knows its place |
| ReadingLegible.CrashKeepsLegibleIff | internal/store/shard/shard.go:124-145 | a death inside an append keeps it legible exactly when nothing or such a line was written |
| ReadingColumns.CrashShows | internal/store/shard/shard.go:124-145 | a death inside an append leaves a prefix of the line and byte 10, no cache, and everything else as it was |
| ReadingTheorems.MiscountMisreads | internal/store/shard/shard.go:94-104 | a miscounted append reports success and Get of its id answers with another reading |
| ReadingTheorems.SuccessReadsBackIff | internal/store/readings.go:57-156 | in agreement an append that reports success reads back exactly when it was not miscounted |
| ReadingTorn.AppendReadsGlued | internal/store/shard/shard.go:124-215 | on any file, Get of an append's id decodes what followed the last newline together with the new line |
| ReadingTorn.AppendReadsBackIfWhole | internal/store/shard/shard.go:124-215 | which is the appended record when the file was empty or ended in a newline |
| ReadingTorn.AppendAfterCrashReadsBackIff | internal/store/shard/shard.go:124-215 | after any crash and a restart an append reads back exactly then, given a decoder that rejects glued objects |
| ReadingRuns.StepKeepsAgreementIff | internal/store/readings.go:57-303 | any append, death inside one, restart or rebuild keeps the agreement exactly when it is clean |
| ReadingRuns.RunsAgree | internal/store/readings.go:57-303 | over every run whose failures and deaths leave nothing or whole lines, agreement holds in every state whose steps were clean since the last rebuild that went through: files are exactly their lines, index rows match them one to one, manifest count and checksum are their count and fold, cached counts are right |
| ReadingRuns.RunsCanBeRebuilt | internal/store/readings.go:262-333 | from any state of such a run a rebuild brings back agreement exactly when no two lines carry one id |
| ReadingRuns.IndexCountsAppends | internal/store/readings.go:57-131 | in a clean run the index holds as many rows as appends succeeded |
| ReadingHeld.LandedHolds | internal/store/readings.go:57-131 | an append that reports success and found its file so is held: its row names an ended line that decodes to it, whatever else is in the file |
| ReadingHeld.LegibleLandsWholeIff | internal/store/shard/shard.go:64-104 | in a legible store an append finds its file so exactly when it is not miscounted |
| ReadingRuns.StepKeepsHeldIff | internal/store/readings.go:57-303 | in any store without blank lines, whatever a step leaves behind, a held reading keeps its row exactly when the step is not a rebuild that goes through without reading its shard, and is then still held |
| ReadingRuns.HeldReadingsStay | internal/store/readings.go:57-303 | over any run, a reading held in one state keeps its row and is what Get returns in every later state, as long as no rebuild drops its shard |
| ReadingRuns.RebuiltRunsRead | internal/store/readings.go:262-333 | from any state of any run, after a rebuild that goes through Get follows every row to the line it describes |
| ReadingRuns.GetReturnsWhatWasAppended | internal/store/readings.go:57-156 | Get returns what an append returned ever after, whatever other steps the run takes, torn writes and glued lines on any shard included, if the append found its file empty or ending in a newline and rightly counted, and no rebuild drops its shard |
| ReadingColumns.AppendShows | internal/store/readings.go:57-131 | a successful append stores the submitted values, with an id and times only where none were given, in the shard of the day, and every column of its row shows the value of that name |
| ReadingColumns.SubmittedIsShown | internal/store/readings.go:57-156 | over any run, row and Get of an append that found its file whole and rightly counted show the submitted values, each in its own column, until a rebuild drops its shard |
| ReadingColumns.LegibleShows | internal/store/readings.go:141-156 | in a legible store every row shows, column by column, what Get returns for its id |
| ReadingColumns.RebuiltRunsShow | internal/store/readings.go:262-333 | from any state of any run, after a rebuild that goes through every row does |
| ReadingColumns.RowsComeFromReadings | internal/store/readings.go:57-333 | every row of every state of every run shows a reading appended in an earlier step, as it was submitted, or one an earlier rebuild decoded at the place the row names |
| ReadingTheorems.IndexUnique | internal/store/readings.go:262-333 | the files determine the index |
| ReadingTheorems.RebuildEqualsIncremental | internal/store/readings.go:262-333 | in agreement a rebuild meets no clash and yields the rows, counts and checksums the appends built |
| ReadingTheorems.RebuildRestoresIff | internal/store/readings.go:262-333 | over good files, from any stale, missing or extra rows, a rebuild restores agreement exactly when no two lines share an id and every shard with lines is read |
| ReadingTheorems.RebuildAfterCrashIff | internal/store/readings.go:262-333 | after a crash at byte n of a line, the rebuild restores agreement exactly when nothing was written, or the whole line with the right number and a new id, which it then indexes; it meets no clash in these cases |
| ReadingTheorems.VerifyNoticesCrash | internal/store/readings.go:233-257 | verification passes after a crash exactly when no byte was written |
| ReadingTorn.VerifyAfterCrashAndAppend | internal/store/readings.go:233-257 | after a crash, a restart and one more successful append: the shard verifies if nothing was left, does not if a whole line was, and if part of one was its count agrees again and it verifies only where two different inputs of these folds share a digest |
| ReadingTheorems.HealthyShardVerifies | internal/store/readings.go:233-257 | in agreement every shard verifies |
| ReadingTheorems.VerifyNoticesTampering | internal/store/readings.go:233-257 | whatever replaces the files, a shard whose non-empty lines are those recorded verifies, and one that verifies has those lines, or scanning it and folding the recorded ones hash two different inputs to one digest |
| ReadingLegible.GetAfterAppend | internal/store/readings.go:57-156 | a whole append that reports success reads back at once |
| ReadingRuns.StepKeepsRows | internal/store/readings.go:57-303 | no whole step, of whatever kind, takes a row or a line away |
| AlertState.ListedIffResolved | internal/domain/state.go:42-61 | LegalTransitions lists an event exactly when NextState resolves it |
| AlertState.TableIsLifecycle | internal/domain/state.go:27-49 | the table is exactly the lifecycle stated independently of it |
| AlertState.NeverReactivated | internal/domain/state.go:27-37 | no entry leads from an inactive state to an active one |
| AlertStore.Repo.AcceptAlert | internal/store/assignments.go:84-152 | claims exactly an open alert nobody holds, writing one active assignment and the assignee; names the winner otherwise; a database error before the commit changes nothing, one while reading back reports failure for a claim that was made |
| AlertStore.Repo.Transition | internal/store/alerts.go:171-232 | moves along the table and settles the active assignment with it, or refuses for the first reason that applies and changes nothing; database errors before and after the commit |
| AlertStore.Repo.Update | internal/store/alerts.go:68-85 | the versioned write goes through exactly on an equal version |
| AlertStore.Repo.FindActive | internal/store/alerts.go:87-99 | a newest active alert of the pair, or nothing when there is none |
| AlertProtocol.AcceptKeepsMatch | internal/store/assignments.go:88-152 | a claim keeps alerts and assignments matched |
| AlertProtocol.MoveKeepsMatch | internal/store/alerts.go:171-232 | so does every transition but accept |
| AlertRuns.EveryRunIsSafe | internal/store/alerts.go:171-232 | over every interleaving: assigned and handling alerts have exactly one active assignment, by the assignee; open and revoked ones none and no assignee; resolved and closed ones exactly one completed; at most one active alert per collector and rule |
| AlertRuns.AcceptsAreRows | internal/store/assignments.go:88-152 | successful accepts are the assignment rows, each active, completed or cancelled |
| AlertRuns.StepKeepsExclusive | internal/orchestration/alert.go:57-85 | between the evaluator's find and its create nothing makes a second alert active |
| AlertRuns.CreateKeepsOneIff | internal/orchestration/alert.go:57-86 | a create keeps alerts unique per pair exactly when the pair has no active alert by then or the id is taken |
| AlertRuns.LateCreateKeepsOneIff | internal/orchestration/alert.go:57-86 | the same for a second evaluator at any point of a run after it looked; it is safe whenever the first has not created one in between |
| AlertRuns.EveryWriteRaisesVersion | internal/store/alerts.go:223-224 | every write to an alert raises its version by one |
| AlertRuns.VersionNamesRow | internal/store/alerts.go:68-85 | over a run an equal version means an equal row |
| AlertRuns.RefreshOnlyTouches | internal/orchestration/alert.go:57-66 | the evaluator's late write changes last_seen, updated_at and version of the row it read, to now and one more, or conflicts, and undoes nothing that ran in between |
| AlertRuns.OnlyResolvingChecksHandler | internal/store/alerts.go:195-222 | while alerts and assignments match, whose name a transition carries makes no difference but to a resolve, which goes through exactly for the assignee or an unnamed caller |
| AlertColumns.ClaimSucceedsIff | internal/store/assignments.go:88-152 | on any tables that keep the unique index, a claim under a new id goes through exactly when the alert is open and the index admits the row it adds |
| AlertColumns.ClaimColumns | internal/store/assignments.go:88-152 | what a claim writes, column by column: state, assignee, last_seen, updated_at and version of the alert, and a new row with the handler, the time of acceptance, no completion and no note |
| AlertColumns.MoveColumns | internal/store/alerts.go:171-232 | what a transition writes: the state of the lifecycle, the assignee cleared by revoke and release alone, both times, the version; the active row completed with the caller's note and the time of the resolve, or cancelled without either; every other column and row as before |
| AlertColumns.UpdateColumns | internal/store/alerts.go:68-85 | which columns of a versioned write are the caller's and which the row's own |
| AlertColumns.CreateColumns | internal/store/alerts.go:26-52 | which columns of a new alert are filled in, and from what |
| AlertColumns.RefusalTells | internal/store/alerts.go:184-213 | while alerts and assignments match, which of unknown alert, illegal move and wrong handler refuses a transition, in terms of the alert's row |
| AlertColumns.RowsTellTheirStory | internal/store/alerts.go:171-232 | in every state of every run an assignment row names the one claim that wrote it, and is completed, with the note and time of the resolve, or cancelled, without either, exactly by the first later move that took the alert out of its handler's hands |
| AlertColumns.VersionCountsWrites | internal/store/alerts.go:68-85 | over every run the version of an alert is one more than the claims, transitions and refreshes that landed on it |
| Rules.BreachIffNotAgreed | internal/domain/rule.go:71-98 | an enabled rule is breached exactly when the guarded value is outside its range, or the fault code is its trigger |
| Rules.BreachIff | internal/domain/rule.go:71-98 | which breach is reported: above the maximum or, only where that is kept, below the minimum, with the rule's metric, its guarded value and that limit; or the trigger code itself |
| RecentReadings.Recent | internal/store/readings.go:163-182 | the newest rows of the collector, at most the limit, 50 when it is not positive, newest first, leaving out nothing newer |
| RecentReadings.LatestWithin | internal/orchestration/alert.go:94-108 | the loop returns the first row not before the threshold |
| RecentReadings.FirstSinceIsNewest | internal/orchestration/alert.go:94-108 | on that list the early exit yields the newest of all indexed readings in the window, and none only when there is none |
| RecentReadings.WindowIsExactIff | internal/orchestration/alert.go:98-101 | the 64-bit window length, a minute when none is given, is exact exactly up to 9223372036 seconds |
| Evaluation.BreachingIff | internal/store/rules.go:89-104 | the pairs a sweep acts on: listed collector, enabled rule governing it, newest in-window reading not as agreed |
| Evaluation.AlertService.Evaluate | internal/orchestration/alert.go:26-92 | for a sweep whose context may end early and whose loads, lookups and writes may each fail: the active pairs are the old ones and the breaching ones it could look up and write; new alerts are one per newly breaching pair, with its reading, severity and message; old ones are at most refreshed; the four counters |
| Evaluation.CalmSweep | internal/orchestration/alert.go:26-92 | without trouble these are all breaching pairs, and suppressed are exactly those that were active |
| SweepTheorems.RepeatedSweepOnlyTouches | internal/orchestration/alert.go:26-92 | repeating a sweep raises nothing, suppresses created plus suppressed, and changes only last_seen, updated_at and version |
| SweepTheorems.CreatedCountsRows | internal/orchestration/alert.go:67-86 | the created counter is the number of rows added |
| SweepTheorems.TroubledSweep | internal/orchestration/alert.go:26-92 | with any trouble a sweep takes no pair off the active ones, adds only breaching ones, creates as many alerts as it adds rows and suppresses no more than the breaching pairs that were active |
| SweepTheorems.SweepKeepsOneActive | internal/orchestration/alert.go:57-85 | a sweep, whatever trouble it meets, leaves at most one active alert per pair where there was at most one |
| SweepTheorems.RaisedTells | internal/orchestration/alert.go:67-86 | a raised alert is about the newest indexed reading in its rule's window, and its message puts into words how that row passes the rule's limits |
| SweepReadings.SweepJudgesSubmitted | internal/orchestration/alert.go:26-108 | over any run, where the newest reading a rule sees of a collector was appended by some step, the rule breaches exactly when it is enabled and objects to the values submitted there |
| IngestQueue.Repo.LeaseBatch | internal/store/ingest.go:36-81 | grants the batch: status, lease time, expiry and attempts of exactly those rows, at most the limit or 50 when it is not positive, handed out as they now stand; or nothing when the transaction fails |
| IngestQueue.Repo.Complete | internal/store/ingest.go:83-90 | finishes the item exactly when it is still leased and the database lets it |
| IngestQueue.Repo.ReclaimExpired | internal/store/ingest.go:97-103 | returns exactly the expired leases to pending and counts them |
| IngestQueue.Repo.Requeue | internal/store/failures.go:88-112 | resolves the failure and returns an ingest item to pending whatever its state |
| IngestQueue.OldestAreOldest | internal/store/ingest.go:51-53 | the ordered LIMIT query: distinct, oldest first, nothing older left out |
| LeaseRuns.BatchIsOldest | internal/store/ingest.go:36-81 | a batch is the oldest of the pending items and of those whose lease ended strictly before, oldest first: as many as the limit, 50 when it is not positive, or all there are |
| LeaseRuns.StepShows | internal/store/ingest.go:36-103 | what enqueue, lease, complete, fail, reclaim and requeue write into each item, and that they write into no other |
| LeaseRuns.NewItemShows | internal/store/ingest.go:17-31 | only an enqueue adds an item: pending, without a lease, never tried |
| LeaseRuns.RequeuedIsLeased | internal/store/failures.go:88-112 | a requeued item, whatever its state was, is in the next batch that is large enough |
| LeaseRuns.LeaseIsExclusive | internal/store/ingest.go:36-103 | an item is granted again only after its last lease ended strictly before, or an operator requeued it in between |
| LeaseRuns.AttemptsCountGrants | internal/store/ingest.go:36-81 | attempts is the number of grants |
| LeaseRuns.ReaperIsTransparent | internal/store/ingest.go:97-103 | reaper steps inserted anywhere leave every batch unchanged |
| LeaseRuns.UntimelyCompletionShows | internal/store/ingest.go:83-103 | conversely, after any run one completion past its lease is enough for a reaper step before it to change a later batch |
| IngestSafety.FinishedItemsAreStored | internal/orchestration/ingest.go:76-104 | in every run with deaths at any byte, failed appends of any kind, appends from elsewhere, expiries, requeues and rebuilds that skip no shard with rows, as long as a worker whose append succeeds found its file whole and rightly counted, a finished item points at an indexed line that decodes to its submission and Get finds it there |
| IngestSafety.StoredNeverExceedsAttempts | internal/orchestration/ingest.go:60-104 | over every run whatever, counted over its steps, the lines and parts of lines left in the store on behalf of an item are no more than its attempts |
| IngestCounting.RowsAreAccountedFor | internal/orchestration/ingest.go:60-104 | in a clean run the indexed readings are those lines, summed over the items, and the successful appends from elsewhere |
| IngestConservation.RowsEqualFinished | internal/orchestration/ingest.go:60-104 | without crash, requeue or a lease running out in hand, index rows are as many as finished items |
| IngestService.Service.ProcessOne | internal/orchestration/ingest.go:76-125 | decode, append, report: store, queue, dead letters and counters together, for every outcome of each, the report and the dead letter included |
| IngestService.Service.ProcessBatch | internal/orchestration/ingest.go:60-74 | the leased batch worked off in order until the context ends; nothing when it cannot be leased |
| IngestBatches.WorkerFollowsProtocol | internal/orchestration/ingest.go:76-104 | what the worker does to an item is an append and the report that fits it, or a crash where the report fails, as the run theorems assume |
| IngestBatches.BatchAccountsForItems | internal/orchestration/ingest.go:60-104 | left alone, a worker leases at most the limit, 50 when it is not positive; an item it came to is still leased exactly when its report failed, and else finished or failed, with the error, as its reading was stored or not; the index grows by the successful appends, reported or not; processed items are those finished, errors all others it came to |
| IngestBatches.StoresSubmission | internal/orchestration/ingest.go:76-125 | what a worker stores for an item: the submitted values, at their own time or that of the lease, in the shard of that day, with the finished item pointing there |
| IngestDeadLetters.BatchDeadLetters | internal/orchestration/ingest.go:76-125 | over any batch, as many dead letters are counted as items whose payload does not decode or whose append failed with this attempt reaching the limit, and with unused ids the rows added are exactly theirs, as far as they could be written |
| IngestDeadLetters.DeadLetterSays | internal/orchestration/ingest.go:108-125 | each such row is for ingest, names the item, its payload, its error and its attempts, and is unresolved |
| IngestDeadLetters.DeadLetterComesBack | internal/store/failures.go:88-112 | requeueing it makes its item pending, and a later batch that is large enough leases it |
| BatchService.DisableCollectors | internal/orchestration/batch.go:61-75 | on success the listed collectors are disabled; on failure one of the completed prefix is active exactly when the compensation of a step of its own landed, and the one whose new status could not be read back is left disabled; nothing else changes; and exactly when the batch reports a failed compensation |
| BatchService.UpdateRules | internal/orchestration/batch.go:124-138 | on success each of the five fields of a rule is what the last update of that rule that gives it says, or as it was; on failure the same over the updates before its first step whose compensation landed, so none of them when that of its first step did; versions count every write; and exactly when the batch reports a failed compensation |
| SagaRunner.RunBatch | internal/orchestration/batch.go:33-43 | forward to the first failure, before or after its write, and, if there is one, compensations of the completed prefix in reverse, with whatever trouble they meet |
| SagaRunner.Compensate | internal/orchestration/batch.go:45-56 | the reverse pass over the completed steps: all of them run, and it is clean when none reports an error |
| SagaRunner.Step.Do | internal/orchestration/batch.go:77-167 | what each kind of step writes and captures, when it fails, and what it has written then |
| SagaRunner.Step.Compensate | internal/orchestration/batch.go:77-167 | what each kind of step undoes, from what it captured and the row as it is now, and what it reports |
| SagaRunner.Database.UpdateRule | internal/store/rules.go:61-79 | the versioned rule write: the caller's columns, with the version, the creation time and updated_at the row's own |
| SagaRunner.Database.SetStatus | internal/store/collectors.go:93-112 | the versioned status write of three columns, and the read-back that may report an error after it |
| Saga.BackwardRestores | internal/orchestration/batch.go:140-167 | reverse compensation over repeated rule ids gives each rule its value from before the batch |
| SagaTheorems.FailedTuneRestoresRules | internal/orchestration/batch.go:124-185 | after a failure every rule is as before but for version and updated_at, its version grown by twice its occurrences in the prefix |
| SagaTheorems.CompensationIsRepeatable | internal/orchestration/batch.go:140-167 | compensating again changes nothing further but version and updated_at |
| SagaTrouble.RepeatedPassRestoresRules | internal/orchestration/batch.go:30-56 | whatever reads or writes failed in a compensation pass, one more pass without trouble restores every rule |
| SagaTrouble.RepeatedPassActivates | internal/orchestration/batch.go:30-56 | and makes every collector of the completed prefix active, while one written by the failing step stays disabled |
| SagaTrouble.FailedDisableLeaves | internal/orchestration/batch.go:77-109 | after a failed batch with any trouble a completed collector is active exactly when the compensation of one of its steps landed, one written by the failing step is disabled and every other is untouched |
| SagaTrouble.TroubledDisableRestoresIff | internal/orchestration/batch.go:77-109 | exactly which trouble lets a failed batch restore the statuses it found: a compensation lands for each completed collector that was active and for no other, and the failing step wrote nothing |
| SagaTrouble.FailedTuneLeaves | internal/orchestration/batch.go:140-167 | after a failed tune with any trouble a rule holds the updates before its first step whose compensation landed, or the whole prefix when there is none |
| SagaTrouble.FirstUndoneRestores | internal/orchestration/batch.go:140-167 | so it is restored when the compensation of its first step landed |
| SagaFields.SuccessfulTuneFields | internal/orchestration/batch.go:169-185 | after a successful batch each field of a rule is the value given by the last step on that rule that gives one, and the starting value if none does |
| SagaFields.FailedTuneFields | internal/orchestration/batch.go:124-185 | after a failed batch with any trouble the same, over the steps whose effect the rule still holds |
| SagaReports.FailedDisableReports | internal/orchestration/batch.go:33-109 | a failed batch of disables reports a failed compensation exactly when the write of one, or the read after it, failed and no later step on the same collector had been undone by then |
| SagaReports.FailedTuneReports | internal/orchestration/batch.go:33-56 | a failed batch of rule updates does exactly when the write of a compensation failed; one whose read failed is not reported |
| SagaTrouble.SwallowedReadLeavesDisabled | internal/orchestration/batch.go:93-107 | a pass may report no error and have restored nothing |
| SagaTheorems.SuccessfulTuneAppliesAll | internal/orchestration/batch.go:124-185 | on success every rule has all its updates in order |
| SagaTheorems.DisableOutcome | internal/orchestration/batch.go:61-109 | after a failure the prefix is active, a collector written by the failing step was active and is left disabled, and the rest is untouched; on success exactly the listed collectors are disabled |
| SagaTheorems.DisableRestoresIff | internal/orchestration/batch.go:61-109 | the starting statuses are restored exactly when the prefix started all active and the failing step wrote nothing |
| SagaTheorems.LateErrorLeavesDisabled | internal/store/collectors.go:93-112 | for one: a batch of one active collector whose new status cannot be read back fails and leaves it disabled |
| SagaTheorems.RetryStopsAlikeIff | internal/orchestration/batch.go:33-43 | a retry after a rollback stops where a first try under the same errors would, exactly when the rollback left the collectors whose read-back those errors hit with the status they had |
| SagaTheorems.RetryLeavesSameStatusesIff | internal/orchestration/batch.go:61-75 | a retry after a rollback leaves the statuses a first try would have left: when both stop at one step, exactly when every collector whose step they do not reach is named before or was active from the start and they get past a failing step that had written; when they stop at different steps, exactly when both leave every listed collector disabled |
| Retry.NextBackoff | internal/orchestration/services.go:79-98 | the doubling loop in 64-bit arithmetic, then the limit, then jitter |
| Retry.BackoffIsIdealIff | internal/orchestration/services.go:79-98 | the delay is min(MaxDelay, BaseDelay * 2^(attempt-1)) for all attempts exactly when MaxDelay is at most the last doubling of BaseDelay that fits |
| Retry.BackoffIsMonotoneIff | internal/orchestration/services.go:79-98 | it never decreases with the attempt, exactly then |
| Retry.DelaysDouble | internal/orchestration/services.go:79-98 | under that condition the first delay is the base delay and each further one twice the one before, none over the limit |
| Retry.AnyBaseIsSafeIff | internal/orchestration/services.go:79-98 | MaxDelay up to 2^62 is safe with any base delay, and no larger one is |
| Retry.JitterWithinTenth | internal/orchestration/services.go:93-96 | a draw in [0, 1] stays within ten percent, and one half changes nothing |
| Retry.JitterIs | internal/orchestration/services.go:93-96 | the jittered delay is the delay times a factor from 0.9 to 1.1 linear in the draw, less its fraction |
| Scheduler.Task.RunOnce | internal/scheduler/scheduler.go:187-227 | the task's fields and the dead-letter table after a success, a failure or a cancelled tick, whether or not the dead letter can be written |
| Scheduler.Task.InBackoff | internal/scheduler/scheduler.go:159-163 | a tick is skipped exactly while failures are counted and the next attempt is ahead |
| Scheduler.CounterFollowsStreak | internal/scheduler/scheduler.go:187-214 | after any ticks the counter is the failures since the last success modulo MaxAttempts, and the dead letters attempted are those due |
| Scheduler.FailuresInARow | internal/scheduler/scheduler.go:187-214 | k failures in a row: k mod MaxAttempts and k div MaxAttempts |
| Scheduler.DeadLettersAreRows | internal/scheduler/scheduler.go:216-227 | with unused ids, the rows added are exactly the dead letters due that could be written, each with the type, error, attempts and time of the failed tick that brought it due, unresolved and with no item; rows that were there stay as they are |
| Scheduler.BackoffFitsCounter | internal/scheduler/scheduler.go:159-214 | the window in force is always the one the failure count asks for, from the last failure and with the jitter drawn there |
| Scheduler.CancelledTicksDoNothing | internal/scheduler/scheduler.go:193-196 | cancelled ticks move the time of the last attempt and can otherwise be left out of any run |
| Scheduler.FieldsShowLastTick | internal/scheduler/scheduler.go:187-214 | after any ticks the fields show the last one that was not cancelled: when it ended, and its error, or its count, no error and the regular interval to the next |
| SqlSplit.SplitStatements | internal/store/sqlite.go:132-161 | the byte loop computes the pieces |
| SqlSplit.PiecesAre | internal/store/sqlite.go:132-161 | however a script reads as balanced statements with semicolons and a tail, those are its pieces |
| SqlSplit.SplitLosesNothing | internal/store/sqlite.go:132-161 | joined with semicolons the pieces are the script, less a final top-level semicolon |
| SqlSplit.PiecesAreStatements | internal/store/sqlite.go:132-161 | an ended piece leads from depth zero, unquoted, back to it, with no top-level semicolon inside |
| SqlSplit.ComposesIffAtTop | internal/store/sqlite.go:114-118 | running two scripts joined by a semicolon is running one after the other, exactly when the first ends at depth zero, unquoted |
| SqlCuts.CutsIff | internal/store/sqlite.go:132-161 | a byte cuts exactly when it is a semicolon, the single quotes before it are even in number and the unquoted opening parentheses before it are closed by unquoted closing ones, counted over the prefix |
| SqlCuts.SplitIsCutUp | internal/store/sqlite.go:132-161 | the pieces are the stretches between those places, for every script |
| SqlCuts.SemicolonCuts | internal/store/sqlite.go:149-155 | for one: a semicolon between plain texts cuts |
| SqlCuts.ParenthesesHold | internal/store/sqlite.go:140-155 | between parentheses it does not |
| SqlCuts.QuotesHold | internal/store/sqlite.go:140-155 | nor between quotes |
| SqlSplit.Schema.ApplyMigration | internal/store/sqlite.go:109-130 | all trimmed, non-blank pieces in order and the version, or nothing, whichever of the statements, the version update or the commit fails |

## Left out

- HTTP handlers, middleware, DTOs, the web frontend, the command line, configuration and logging: plumbing.
- Audit entries: best effort, and never read by the operations modelled here.
- SQLite, fsync, JSON, SHA-256 and time zones: transactions and statements are atomic steps, one that reports an error has changed nothing, the codec and the hash are parameters with the properties stated above.
- Locking and deadlock freedom: every operation runs as one step with the shard lock free at its start; the order in which locks are taken is not modelled.
- Text timestamps: columns hold RFC 3339 text with trailing fractional zeros dropped and are compared as text, which can differ from time order within one second; times are integers here, and queue items of equal age are ordered by identifier.
- Manifest columns first_ts, last_ts, path and status, and the manifest row a rebuild adds for an empty file.
- Shard identifiers are a bucket and a key; parsing them into paths and rejecting bad ones is not modelled.
- "Failed items are retried" and "every failed item is dead-lettered" do not hold of the code: Fail moves an item to a status that is never leased again, and only undecodable payloads and used-up attempts are dead-lettered. Neither is claimed.
- ReadingRuns.RunsAgree: agreement of whole stores is not claimed after a step that left the store illegible; held readings are followed through such steps by HeldReadingsStay, and what such a step does is stated by the Iff rows above.
- ReadingTorn.AppendAfterCrashReadsBackIff: that a decoder rejects an object started inside an unfinished one is a property of JSON stated as a hypothesis; without it AppendReadsGlued says what is decoded.
- Transition with the accept event, assignmentRepo.Create and assignmentRepo.Complete: no service calls them, and they bypass the protocol.
- Evaluation.AlertService.Evaluate: models a sweep in which no generated identifier repeats, over the collectors on the first page; when that page cannot be read the sweep does nothing.
- IngestQueue.Repo.LeaseBatch: does not model an error in the middle of reading the rows, which the source takes for their end.
- IngestQueue.Repo.ReclaimExpired: does not model a failing statement, which changes nothing; the same goes for enqueueing and requeueing.
- Scheduler.Task.RunOnce: one reading of the clock stands for the several after a tick.
- SagaRunner.RunBatch: does not model other writers during a batch; one clock value serves a whole batch.
- SagaRunner.Compensate: takes the whole list and the number of completed steps where the source passes the prefix, and reports whether there was an error where the source returns the first one.
- Retry.NextBackoff: models floating-point jitter over the reals, without rounding.
- Thresholds of rules are reals, so comparisons with not-a-number values are not modelled.
- SqlSplit.Schema.ApplyMigration: trimming is a parameter; only its effect on empty pieces and on semicolons is used.
- The remaining repositories, pagination, validation and error mapping: they would only add easy members.
