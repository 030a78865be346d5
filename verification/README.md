# goindex: a verified model of its protocols

goindex is a Usenet indexer. Header scanning fills a table of article parts, assembly folds parts
into binaries, releases are built from complete binaries and post-processed, and old parts are
pruned. All of it runs over a shared pool of NNTP connections. This project models the stateful
protocols inside that pipeline and proves what they keep over every run.

| file | component |
|---|---|
| `Pool.dfy` | resizable semaphore and the lazily dialing connection pool, interleaved at its lock boundaries |
| `Circuit.dfy`, `Probes.dfy` | the per-provider circuit breaker, the failover router, and requests in flight in front of a breaker |
| `Tables.dfy`, `Assembly.dfy`, `Collections.dfy`, `Groups.dfy`, `Assembler.dfy` | parts, binaries and releases as finite maps; the assembly statements; what a collection's count says; what a group of parts is; the drain loop |
| `Reassembly.dfy`, `Sweep.dfy`, `Replay.dfy` | one re-assembly batch, the crash-resumable cursor sweep, and the replay of a batch, with other writers |
| `Retention.dfy` | NZB segments of a release and the prune of raw parts |
| `Pagination.dfy` | keyset pagination and the index rebuild |
| `Scanner.dfy` | forward and backfill scans over article numbers |
| `Yenc.dfy`, `Par2.dfy` | the yEnc decoder and the PAR2 packet walker |
| `PostProcess.dfy` | the post-processing retry machine |
| `RateLimit.dfy`, `Budget.dfy` | the fixed-window rate limiter and the two-pool worker budget |

`dafny verify dfyconfig.toml` checks everything.

The shape is the same throughout. State that the source updates in place is a class whose methods
are proved against functions of the old state; those functions are the steps of a state machine, and
the whole-run theorems are about that machine. What the environment decides (ping and dial outcomes,
deadlocks, crashes, the clock, server answers, which rows a LIMIT without a total order picks) is a
parameter or an event, so each theorem holds for every such choice.

## Where the code does not do what it says

- `Reconfigure` and `Close` uncount idle connections before closing them. The counted connections plus
  the dials in flight stay within the largest limit set (`Pool.PoolAccounting`), but the sockets that
  are really open can exceed every limit (`Pool.StaleSocketsCanExceedLimit`). They stay within it exactly
  when every dial starts with a socket to spare (`Pool.SocketsWithinLimitIff`).
- The current semaphore limit bounds its holders exactly on the runs that never shrink it below the
  holders of the moment (`Pool.CurrentLimitHoldsIff`, failing run `Pool.ShrinkBelowHolders`).
- A success resets the cooldown but not the count of openings, so the next opening backs off from the
  lifetime count: the base cooldown returns only for a breaker that never opened
  (`Circuit.NextOpeningUsesBaseIff`, instance `Circuit.SuccessKeepsBackoff`).
- The breaker promises one probe at a time, but any recorded outcome ends the half-open state, also that
  of a request admitted before the circuit opened. `Probes.TwoProbesInFlight` shows two probes at once,
  `Probes.HalfOpenIsProbingIff` says exactly when half-open means one probe in flight.
- Single-file parts fold only when they declare a positive segment total, whatever the assembler's tests
  expect.
- `collected_parts` of a collection adds per-batch distinct counts. It is exact if and only if no fold
  brings a file already linked (`Collections.CollectedExactIff`); otherwise a collection can be marked
  complete with declared files missing (`Collections.CompleteWithFileMissing`).
- The list of protected binaries of a re-assembly batch is a nil slice unless one is found. A driver that
  sends it as NULL, as pgx v5 is understood to do, makes `binary_id <> ALL(NULL)` reject every assigned
  part: the batch tears binaries down, leaves their parts with the old grouping and the cursor moves past
  them (`Sweep.NullListSkipsPart`). The model takes the driver as a parameter; `Sweep.BatchSweepsIff`,
  `Replay.ReplayFinishesIff` and `Sweep.SweepNeverMissesIff` give the exact conditions for both.
- Replaying a batch whose cursor write was lost repairs such a batch only if the assembler has not folded
  the detached parts back in the meantime (`Replay.ReplayFinishesIff`, with `Replay.RefoldSkipsPart` as a run).
- The re-assembly listing is read outside the transaction that applies it. A fold in between can place a
  listed part on a binary backing a 'done' release, and the batch then rewrites it
  (`Sweep.FoldBetweenListAndApply`). `Sweep.DoneUntouchedIff` says exactly when that is avoided, and
  `Sweep.KeysKeptIff` when such a batch leaves a part on a binary of another key.
- A snapshot of durable segments is called safe to repeat. It is, exactly until the raw rows stop saying
  what was stored (`Retention.SnapshotKeepsNzbIff`); after a prune it empties the NZB.
- Pruning changes an NZB exactly when the release has no durable segments, its binary still has parts
  with a message-id, and another release of the same binary makes those parts redundant
  (`Retention.PruneKeepsNzbIff`, with `Retention.SharedBinaryLosesNzb` as an instance).
- A server low mark of 0 makes a stored backfill position of 0 read as "not started", and the walk
  begins again at the top (`Scanner.LowZeroRestarts`). All recorded ranges form one tiling exactly when
  that never happens (`Scanner.BackfillTilesIff`).
- The first backfill starts at the server's high mark: the assignment from the forward watermark at
  `internal/scanner/scanner.go:182` is overwritten two lines later. The backfill seed a first forward
  scan speaks of (`internal/scanner/scanner.go:98-100`) is only reported, never stored.
- The retry budget counts claims, so a failure recorded by a worker that claimed before a requeue leaves
  three claims out of 'failed' instead of two (`PostProcess.StragglerGetsThree`; exactly when, says
  `PostProcess.ThirdRetryIff`), and nothing bounds the claims of a release whose worker crashes every
  time (`PostProcess.CrashLoop`, `PostProcess.CounterOverrunsIff`).
- Recording a failure does not look at the status, so a late one turns a 'done' release back to 'failed'
  and takes its protection from re-assembly away (`PostProcess.LateFailureUndoesDone`; exactly when, says
  `PostProcess.DoneIff`).
- The yEnc decoder refuses a line of 8 MiB or more, so the round trip holds exactly when all lines are
  shorter (`Yenc.YencRoundTrip`). The PAR2 walker leaves its data exactly when it meets a length field
  that overflows a signed 64-bit offset (`Par2.OutOfRangeIff`, instance `Par2.OverflowingPacketCrashes`).
- `fitWithinBudget` promises a sum within the budget; it keeps that promise exactly for budgets of at
  least two (`Budget.FitsIff`).
- In any interval as long as the window, the limiter grants at most `2 * limit - 1` requests, one fewer
  than two full windows, because every window opens with a grant (`RateLimit.GrantsInInterval`).

## Main results

- Connections: `Pool.PoolAccounting`, `Pool.NeverShared`, `Pool.CurrentLimitHoldsIff`, `Pool.SocketsWithinLimitIff`;
  `Circuit.BreakerHistory`, `Circuit.StaysClosedIff`, `Circuit.OpeningKeepsOut`, `Probes.HalfOpenIsProbingIff`; `Failover.ResultExactly`.
- Assembly: `Assembly.RunKeepsSound`, `Assembly.GroupByAgreement`, `Groups.SameBinaryIff`,
  `Groups.DrainedGroupsTogether`, `Collections.CollectedExactIff`, `Assembler.Drain`.
- Re-assembly: `Sweep.SweepNeverMissesIff`, `Sweep.BatchSweepsIff`, `Replay.ReplayChangesNothingIff`,
  `Replay.ReplayFinishesIff`, `Sweep.DoneUntouchedIff`, `Reassembly.UndoneIsTornDown`.
- Retention and search: `Retention.PruneKeepsNzbIff`, `Retention.PruneRetainedPartsAll`,
  `Pagination.KeysetEqualsOffset`, `Pagination.Reindex`.
- Scanning: `Scanner.WatermarkAccounts`, `Scanner.BackfillTilesIff`.
- Formats: `Yenc.YencRoundTrip`, `Yenc.NeedsBeginLine`, `Par2.Par2RoundTrip`, `Par2.OutOfRangeIff`.
- Retries, limits, budgets: `PostProcess.RetryBudget`, `PostProcess.ThirdRetryIff`, `RateLimit.GrantsInInterval`,
  `Budget.AutoBudget`.

## Modelling decisions

- A transaction is one atomic step; a deadlock or error is a step that changes nothing. The one exception
  is modelled as such: listing and applying a re-assembly batch are two steps, and recording a
  post-processing failure is a read followed by a write (`seen` in `PostProcess.Event`).
- An assembly statement is folded key by key. The row sets of different keys are disjoint, so the order
  does not matter. The collation of keys is any strict total order.
- `ParseSubject` is an uninterpreted pure function. Article numbers, byte counts and durations are
  unbounded integers; `Circuit.CooldownFits` bounds the products the breaker computes.
- The database's unique constraint on binary keys is part of `Store.Valid`; exactness of the rows is not
  demanded by any statement, only kept.
- Part ids are never reused, and single-file subjects and collection keys share one unique key space, as
  in the schema.
- Server water marks are natural numbers, as in section 6.1.1 of RFC 3977.
- The runs about assembly and scanning exclude retention, which deletes parts by design.

## Model

| member | source | states |
|---|---|---|
| `Semaphore.ResizableSem.TryAcquire` | internal/nntp/semaphore.go:39-68 | a slot is granted only below the limit in force and then counted; a refused or cancelled caller changes nothing |
| `Semaphore.ResizableSem.ReleaseSlot` | internal/nntp/semaphore.go:71-78 | a release gives one slot back and never drives the count below zero |
| `Semaphore.ResizableSem.ResizeTo` | internal/nntp/semaphore.go:85-96 | a resize sets the limit, at least one, and evicts nobody |
| `Pool.ConnPool.LookIn` | internal/nntp/pool.go:115-134 | the first locked section of acquire: closed, an idle connection to ping, or permission to dial |
| `Pool.ConnPool.DropBad` | internal/nntp/pool.go:129-134 | a connection that fails its ping is uncounted and the search goes on |
| `Pool.ConnPool.PopIdle` | internal/nntp/pool.go:122-134 | the newest idle connection is taken, and a dial starts only when nothing is idle |
| `Pool.ConnPool.AcquireWithSlot` | internal/nntp/pool.go:110-153 | without interference the newest healthy idle connection wins, the unhealthy ones above it are closed and uncounted, and only an exhausted list leads to a dial |
| `Pool.ConnPool.ReleaseConn` | internal/nntp/pool.go:157-169 | a healthy connection goes back idle on an open pool and stays counted; a broken one, or any after Close, is uncounted, kept out of the idle list and left for its holder to close |
| `Pool.ConnPool.Close` | internal/nntp/pool.go:172-187 | Close is idempotent and takes the idle connections once |
| `Pool.StepCounts` | internal/nntp/pool.go:46-187 | every step of every goroutine keeps `open` and `inUse` equal to what the goroutines hold |
| `Pool.StepBudget` | internal/nntp/pool.go:122-138 | every step keeps connections plus dials in flight within the largest limit, because a dial starts on an empty idle list |
| `Pool.PoolAccounting` | internal/nntp/pool.go:46-187 | in every reachable state of every interleaving: `open` is idle plus pinged plus checked-out, `inUse` is the slots held, and `open` plus dials in flight is within the largest limit set |
| `Pool.NeverShared` | internal/nntp/pool.go:110-170 | no connection is ever held by two callers or held while idle |
| `Pool.EntersIdleIff` | internal/nntp/pool.go:157-169 | a step puts a connection into the idle list if and only if its holder hands it back unbroken to an open pool |
| `Pool.HandedBackIs` | internal/nntp/pool.go:157-169 | the whole state after a connection is handed back: broken or after Close it is uncounted and on its way to being closed, otherwise idle and still counted |
| `Pool.GetsConnIff` | internal/nntp/pool.go:122-153 | a caller comes to hold a connection if and only if its ping succeeded or the caller dialed it |
| `Pool.ClosedKeepsNothing` | internal/nntp/pool.go:157-187 | from Close on, in every run, the pool stays closed and its idle list empty |
| `Pool.CurrentLimitHoldsIff` | internal/nntp/semaphore.go:85-96 | holders stay within the current limit on exactly the runs that never shrink it below them |
| `Pool.ShrinkBelowHolders` | internal/nntp/semaphore.go:85-96 | a run with limit one in force and two slots held |
| `Pool.HoldersConverge` | internal/nntp/semaphore.go:39-96 | without further resizes a surplus of holders only goes down |
| `Pool.SocketsWithinLimitIff` | internal/nntp/pool.go:46-153 | open sockets stay within the largest limit set on exactly the runs in which every dial starts while a socket is to spare |
| `Pool.RoomUnlessStale` | internal/nntp/pool.go:46-153 | in every reachable state without connections still being closed, sockets are within the limit and every dial has room |
| `Pool.StaleSocketsCanExceedLimit` | internal/nntp/pool.go:46-68 | a run with limit one throughout and two open sockets |
| `Circuit.CircuitBreaker.constructor` | internal/nntp/circuit.go:73-92 | defaults for threshold and cooldown, and the cooldown ceiling |
| `Circuit.CircuitBreaker.Ask` | internal/nntp/circuit.go:98-119 | closed admits, open admits one probe once the cooldown is over, half-open refuses |
| `Circuit.CircuitBreaker.Fail` | internal/nntp/circuit.go:137-165 | an authentication error opens the circuit at once, other failures at the threshold or when a probe fails; below the threshold it stays closed with one more failure; a failure while open only restarts the wait |
| `Circuit.BreakerHistory` | internal/nntp/circuit.go:98-179 | over every history: closed only below the threshold, `opens` is the number of openings, the cooldown is min(base * 2^min(n-1,10), max) |
| `Circuit.StaysClosedIff` | internal/nntp/circuit.go:73-165 | after any history a failure leaves the circuit closed if and only if it was closed, the failure is not one of authentication and the failures in a row stay below the configured threshold |
| `Circuit.SuccessCloses` | internal/nntp/circuit.go:122-132 | after any history a success closes the circuit and resets failures and cooldown, but not the count of openings |
| `Circuit.AdmissionRule` | internal/nntp/circuit.go:98-119 | until an outcome is recorded, exactly the first request after the cooldown is admitted by an open circuit |
| `Circuit.OpeningKeepsOut` | internal/nntp/circuit.go:98-179 | after any history, the failure that opens the circuit keeps everything out until the cooldown of that opening, then lets exactly one through |
| `Circuit.NextOpeningUsesBaseIff` | internal/nntp/circuit.go:122-179 | whichever failure opens the circuit next, it waits the base cooldown exactly when the breaker never opened before |
| `Circuit.SuccessKeepsBackoff` | internal/nntp/circuit.go:122-179 | an opening, a success, and the next opening waits twice the base cooldown |
| `Circuit.CooldownFits` | internal/nntp/circuit.go:169-179 | the cooldown product fits a signed 64-bit duration for base cooldowns below 2^53 ns |
| `Probes.HalfOpenHasProbe` | internal/nntp/circuit.go:98-165 | with requests that carry identities: half-open always has an admitted probe without outcome |
| `Probes.HalfOpenIsProbingIff` | internal/nntp/circuit.go:94-165 | half-open with exactly one probe in flight, and none otherwise, throughout exactly the runs in which no request admitted before the probe comes back while it is out |
| `Probes.SecondProbeIff` | internal/nntp/circuit.go:94-119 | further requests can put a second probe in flight before any outcome if and only if one is out and the circuit is open again |
| `Probes.TwoProbesInFlight` | internal/nntp/circuit.go:94-165 | for every threshold and cooldown, a run with two probes in flight |
| `Probes.TrafficIsHistory` | internal/nntp/circuit.go:98-165 | the breaker under identified requests is the breaker of the history they make |
| `Failover.VisitResolvesProbe` | internal/nntp/failover.go:167-191 | a completed visit never leaves a probe hanging |
| `Failover.ResultExactly` | internal/nntp/failover.go:143-197 | success exactly when an admitted provider succeeds after all earlier ones were skipped or failed by connection or authentication; ErrNoHealthyServer exactly when the context stays live and none is admitted |
| `Failover.StopsAtFirstAnswer` | internal/nntp/failover.go:159-197 | a run ends at the first provider that answers, with success or with a protocol or retention error; such an answer is reported as it is and no later provider is asked |
| `Failover.AfterIsQuiet` | internal/nntp/failover.go:143-197 | sequential operations leave no breaker half-open |
| `Failover.FailoverPool.VisitOne` | internal/nntp/failover.go:167-191 | one provider's breaker is asked once and gets exactly one outcome if it admits; no other breaker moves |
| `Failover.FailoverPool.Route` | internal/nntp/failover.go:159-197 | the loop visits a prefix of the rotated order, each provider once, and its result is explained by that prefix |
| `Failover.FailoverPool.Run` | internal/nntp/failover.go:143-197 | the same for a whole run, with round-robin or priority start and the empty pool |
| `Assembly.FoldKeepsSound` | internal/store/binaries.go:82-270 | folding any unassigned rows of one key keeps every binary's row exact for its linked parts |
| `Assembly.StepKeepsSound` | internal/store/binaries.go:82-421 | so do inserts, settling, releasing and ageing out |
| `Assembly.RunKeepsSound` | internal/store/binaries.go:82-421 | in every run each binary carries the exact byte sum, max declared total, min date, counts and completeness of its linked parts |
| `Assembly.GroupByAgreement` | internal/store/binaries.go:82-270 | once drained, each group has exactly one binary, linked to the whole group, with the aggregate a one-shot GROUP BY gives, however the batches were cut |
| `Assembly.SingleFileRow` | internal/store/binaries.go:127-153 | a single-file binary counts its parts exactly and is complete exactly when the count reaches the declared total |
| `Groups.LinkedPartIs` | internal/store/binaries.go:82-270 | a linked part carries the group, the poster and the name (collection key, else normalized subject) of its binary, and is one that could be folded |
| `Groups.SameBinaryIff` | internal/store/binaries.go:82-270 | over every run, two linked parts share a binary if and only if they agree in group, poster and name |
| `Groups.DrainedIff` | internal/store/binaries.go:82-270 | nothing is left to fold if and only if every part with a collection key, or with a normalized subject and a positive segment count, has a binary |
| `Groups.DrainedGroupsTogether` | internal/store/binaries.go:82-270 | once drained, foldable parts that agree in group, poster and name share a binary |
| `Groups.RowMeans` | internal/store/binaries.go:127-153 | the row over the part columns: largest declared count, earliest date, sum of bytes of exactly the linked parts |
| `Groups.FoldSpares` | internal/store/binaries.go:136-163 | a fold changes its own binary and the links of its rows only; a new collection binary is named after its key |
| `Groups.MarksAfterStep` | internal/store/binaries.go:326-421 | settling completes exactly its binaries, releasing marks exactly its own, ageing out deletes its binaries with their parts, and nothing else about a binary changes |
| `Groups.ReleasedIff` | internal/store/binaries.go:326-389 | over every run, a binary is released at the end if and only if it was at the start or was ever marked |
| `Collections.CollectionRow` | internal/store/binaries.go:225-255 | the collected count lies between distinct files and linked parts; with a declared total the row is complete exactly when files plus excess reach it |
| `Collections.FoldAddsOverlap` | internal/store/binaries.go:225-252 | one fold adds to the excess exactly the number of files that were already linked |
| `Collections.CollectedExactIff` | internal/store/binaries.go:225-252 | over every run the collected count equals the distinct files if and only if no fold into the binary since its creation brought a file it already had |
| `Collections.CompleteMeansAllFiles` | internal/store/binaries.go:225-252 | without such a fold an unsettled collection is complete exactly when all declared files are linked and there are any |
| `Collections.CompleteWithFileMissing` | internal/store/binaries.go:205-252 | a run in which a segment is folded, another of the same file arrives and is folded, each fold taking all rows of the key, and the collection is complete with one of its two files |
| `Assembler.SkipScan` | internal/store/binaries.go:84-108 | the recursive skip-scan returns the first `limit` distinct keys in order |
| `Assembler.Aggregate` | internal/store/binaries.go:127-135 | one pass over the selected rows gives their GROUP BY aggregate |
| `Assembler.FoldOne` | internal/store/binaries.go:136-163 | the upsert and link of one key is a legal fold, keeps keys unique and, where rows were exact, keeps them exact |
| `Assembler.AssembleKind` | internal/store/binaries.go:82-270 | a batch folds exactly the first `limit` keys, up to 500 rows of each, and touches no other part; exact rows stay exact |
| `Assembler.AssembleBinaries` | internal/store/binaries.go:28-74 | a batch touches the first `limit` keys of either kind; it touches nothing exactly when every part that has a collection key, or a normalized subject and a segment count, has a binary, and otherwise strictly shrinks the backlog |
| `Assembler.AssembleBatchWithRetry` | internal/assembler/assembler.go:168-186 | only deadlocks are retried, a bounded number of times, and a failed call changes nothing |
| `Assembler.Drain` | internal/assembler/assembler.go:90-114 | the drain terminates, uncapped too; error-free and drained means nothing foldable is left; undrained only at the batch cap |
| `Reassembly.ListPartsForReparse` | internal/store/reassemble.go:57-82 | the first `limit` parts above the cursor in id order, none missed |
| `Reassembly.UpdatesMean` | internal/reassemble/reassemble.go:143-166 | the plan rewrites exactly the rows whose parse differs, to the parsed grouping |
| `Reassembly.DirtyMeans` | internal/reassemble/reassemble.go:143-166 | the dirty binaries are exactly those of rewritten, assigned rows |
| `Reassembly.Plan` | internal/reassemble/reassemble.go:143-166 | the loop builds those rewrites and binaries, no binary twice |
| `Reassembly.ApplyReparse` | internal/store/reassemble.go:100-217 | the effect of the transaction and every row count it reports, for a driver that sends the nil list of protected binaries as an empty array and for one that sends NULL; a dirty binary without a release in status done loses its row, its releases and its parts, and the protected count is the dirty binaries with such a release |
| `Reassembly.BatchKeepsReferences` | internal/store/reassemble.go:100-217 | no part or release points at a deleted binary, no part is deleted, exactly the releases of torn-down binaries are deleted, none of them done |
| `Reassembly.BatchSparesDone` | internal/store/reassemble.go:100-217 | a batch leaves every binary backing a done release with its row, parts and releases unchanged |
| `Reassembly.UndoneIsTornDown` | internal/store/reassemble.go:112-217 | a dirty binary that no release in status done points at loses its row, its releases and all its parts |
| `Reassembly.OthersStay` | internal/store/reassemble.go:112-217 | every other binary keeps its row, its parts and its releases |
| `Reassembly.PartAfterwards` | internal/store/reassemble.go:142-217 | a part takes its new grouping exactly when it is unassigned, or its binary is not protected and the list does not arrive as NULL; only grouping and link can change |
| `Reassembly.ProtectedIff` | internal/store/reassemble.go:114-135 | a dirty binary is protected if and only if a release in status done points at it |
| `Sweep.BatchKeepsSound` | internal/store/reassemble.go:100-217 | a fresh batch keeps every surviving binary exact, so assembly can go on |
| `Sweep.AppliedKeepsSound` | internal/store/reassemble.go:100-217 | so does any batch, however stale its listing, that rewrites no part on a binary it leaves standing |
| `Sweep.KeysKeptIff` | internal/store/reassemble.go:142-217 | parts stay on binaries of their own key exactly when no such rewrite changes the key a part folds under |
| `Sweep.DoneUntouchedIff` | internal/store/reassemble.go:100-217 | whatever the listing, done-backed binaries are untouched if and only if no rewrite hits a part that has moved onto one |
| `Sweep.FoldBetweenListAndApply` | internal/reassemble/reassemble.go:100-118 | a fold between listing and applying makes the batch rewrite a part of a done-backed binary exactly when the list of protected binaries does not arrive as NULL |
| `Replay.ReplayChangesNothingIff` | internal/reassemble/reassemble.go:100-118 | with other writers between the lost cursor write and the replay: the replay changes nothing if and only if every part the first application could not see has come onto a done-backed binary; always when it could see |
| `Replay.ReplayFinishesIff` | internal/reassemble/reassemble.go:100-118 | the replay leaves every part it lists regrouped or spared if and only if no part the first application could not see was folded back, or one it finds wrong is protected |
| `Replay.ReplayAfterAssembler` | internal/reassemble/reassemble.go:82-136 | both results after any run of assembler inserts, folds, settling and releasing in between |
| `Replay.AssemblerIsBetween` | internal/assembler/assembler.go:90-138 | whatever the assembler does in between keeps subjects, groupings, links and done-backed binaries |
| `Replay.ReplayAloneFinishes` | internal/reassemble/reassemble.go:100-118 | with nobody in between, the replay ends in exactly the database the batch was meant to leave |
| `Replay.RefoldSkipsPart` | internal/reassemble/reassemble.go:82-136 | a run with a crash before the save and a fold before the next pass, after which the saved cursor has passed a part that is neither regrouped nor spared |
| `Replay.NoopIff` | internal/store/reassemble.go:100-217 | a batch changes nothing if and only if all it finds wrong is protected |
| `Sweep.BatchSweepsIff` | internal/store/reassemble.go:112-176 | every listed part is regrouped, or spared on a protected binary, if and only if the nil list does not arrive as NULL, a binary is protected, or no part to regroup is assigned |
| `Sweep.NullListTearsDownOnly` | internal/store/reassemble.go:114-217 | the failing batch: the binary is torn down and its part keeps the old grouping |
| `Sweep.NullListSkipsPart` | internal/reassemble/reassemble.go:82-136 | the failing pass: the saved cursor passes a part that is neither regrouped nor spared |
| `Sweep.StepKeepsInv` | internal/reassemble/reassemble.go:82-136 | each list, apply, clean save, crash and foreign step keeps the sweep's invariant |
| `Sweep.SweepNeverMissesIff` | internal/reassemble/reassemble.go:82-136 | over any passes, crashes and other writers, every part at or below the saved cursor is at every moment grouped as parsed or was spared on a protected binary, if and only if the cursor is never saved past a part its batch could not see |
| `Sweep.SweepFromScratchIff` | internal/reassemble/reassemble.go:82-136 | the same for every run from a database the sweep has never run on |
| `Sweep.SeeingRunsAreClean` | internal/reassemble/reassemble.go:82-136 | that is so in every run whose batches can see, and in every run with a driver that sends an empty array |
| `Sweep.CursorNeverDecreases` | internal/reassemble/reassemble.go:82-136 | the saved cursor never decreases, whatever the batches could see |
| `Sweep.AssemblerMay` | internal/assembler/assembler.go:90-138 | all assembler activity is allowed to the other writers |
| `Sweep.Reassembler.Run` | internal/reassemble/reassemble.go:82-136 | one pass with any stop: the cursor advances, and what it passed is swept exactly when no recorded batch missed a part |
| `Retention.NzbIsUnique` | internal/store/releases.go:170-193 | with the natural key, a release has one possible segment list |
| `Retention.ReleaseSegmentsFromParts` | internal/store/releases.go:170-193 | the row loop yields the segments of the binary's fetchable parts in part order |
| `Retention.AnswerMeans` | internal/store/releases.go:170-193 | an answer has one segment for each part of the binary with a message-id, with its columns, by part number and then article |
| `Retention.NzbMeans` | internal/store/releases.go:140-193 | durable segments win; without them and without a binary there is nothing |
| `Retention.CandidateFormsAgree` | internal/store/retention.go:37-73 | the binaries-first form selects exactly the parts of the EXISTS form |
| `Retention.CandidateIff` | internal/store/retention.go:37-73 | a part is a candidate if and only if its binary is released and a done release of it has durable segments and a posting or creation date before the cutoff |
| `Retention.CandidatesAfter` | internal/store/retention.go:37-73 | deleting parts makes no other part more or less of a candidate |
| `Retention.NzbUnchangedIff` | internal/store/releases.go:140-193 | a deletion leaves a release's segments unchanged exactly when they are durable or none of its source rows is deleted |
| `Retention.PruneKeepsNzbIff` | internal/store/retention.go:37-73 | a finished prune keeps an NZB exactly when the release was not at risk |
| `Retention.PruneKeepsNzbs` | internal/store/retention.go:37-73 | with at most one release per binary, deleting candidates of any cutoffs changes no NZB |
| `Retention.SharedBinaryLosesNzb` | internal/store/retention.go:37-73 | two releases of one binary where pruning empties the other's NZB |
| `Retention.Doomed` | internal/store/retention.go:176-192 | the lateral join yields only candidates, at most 2000 per joined release, and something while any is left |
| `Retention.PruneRetainedParts` | internal/store/retention.go:165-196 | one batch deletes candidates only, within the batch size, and none only when none is left |
| `Retention.PruneRetainedPartsAll` | internal/store/retention.go:201-217 | the loop terminates; for a fixed cutoff an unstopped one deletes exactly the candidates; with one release per binary no NZB changes whatever the clock does |
| `Retention.SnapshotFixesNzb` | internal/store/releases.go:199-217 | a snapshot, first or repeated, fixes the NZB to what the raw rows say, leaves all others alone and, unless empty, makes it immune to any later deletion |
| `Retention.SnapshotKeepsNzbIff` | internal/store/releases.go:195-217 | a snapshot keeps the NZB if and only if nothing was stored or the raw rows still say the same |
| `Retention.SnapshotAfterPruneEmpties` | internal/store/releases.go:195-217 | a snapshot repeated after a prune empties the NZB |
| `Pagination.OrderedIsOrdering` | internal/store/releases.go:393-399 | the recency order holds each row once, strictly older from one to the next |
| `Pagination.OrderingIsUnique` | internal/store/releases.go:393-399 | no other sequence does |
| `Pagination.LessMeans` | internal/store/releases.go:393-399 | newer first by posting date, or creation date where there is none, then by larger id |
| `Pagination.RankIs` | internal/store/releases.go:393-399 | the k-th row of the order has exactly k rows newer than it |
| `Pagination.BoundedCount` | internal/store/releases.go:345-371 | the total is exact unless flagged, and flagged totals are the cap and too small |
| `Pagination.SearchReleasesPage` | internal/store/releases.go:340-440 | a page is the LIMIT/OFFSET or cursor slice of the order; HasMore exactly for a full page; NextCursor is its last row |
| `Pagination.PageMeans` | internal/store/releases.go:373-440 | a page holds matching rows older than the cursor; its i-th row has exactly offset plus i such rows before it; it is as long as limit and rows allow |
| `Pagination.BelowIsSuffix` | internal/store/releases.go:378-399 | the rows below a row's cursor are the rest of the order |
| `Pagination.KeysetEqualsOffset` | internal/store/releases.go:373-440 | page k by cursor equals page k by OFFSET for every page size, and exists exactly while rows remain |
| `Pagination.CollectedIsPrefix` | internal/store/releases.go:373-440 | following the cursor collects the whole result, each release once, in order |
| `Pagination.IndexAll` | internal/search/search.go:139-144 | documents are written in page order up to the first failure |
| `Pagination.Reindex` | internal/search/search.go:116-150 | the rebuild terminates, visits every release exactly once and returns their number; stopped early it has written a prefix, whole pages of the page size when a query failed |
| `Pagination.UpsertedHolds` | internal/search/search.go:108-113 | each release ends up under its guid |
| `Pagination.UpsertedFrame` | internal/search/search.go:108-113 | no other document changes |
| `Scanner.InsertIsIdempotent` | internal/store/parts.go:50-116 | re-inserting known keys adds and changes nothing |
| `Scanner.Repo.InsertParts` | internal/store/parts.go:50-116 | known keys are skipped, one row per new key is kept, and the count is the number added |
| `Scanner.Repo.Ingest` | internal/scanner/scanner.go:277-322 | every overview with a message-id is stored, every new row comes from one, and the oldest date is theirs |
| `Scanner.StoredMeans` | internal/scanner/scanner.go:277-322 | stored are the overviews with a message-id, under group and article number, with their own columns and the parsed subject |
| `Scanner.UpExact` | internal/scanner/scanner.go:128-149 | upward batches have no gap and no overlap: they hit exactly the numbers of their range |
| `Scanner.DownExact` | internal/scanner/scanner.go:223-253 | the same for downward batches |
| `Scanner.FetchRange` | internal/scanner/scanner.go:277-322 | a failed batch adds nothing, a fetched one is stored whole before any watermark moves |
| `Scanner.ScanForward` | internal/scanner/scanner.go:80-155 | the pass starts above the watermark or at the server low; batches tile from there; an error-free pass ends at the server high or has read exactly its cap; the watermark is the end of the last recorded batch; recorded batches are stored |
| `Scanner.WalkUp` | internal/scanner/scanner.go:128-149 | the forward loop tiles upward in full batches to its end and stops only at an error |
| `Scanner.WalkDown` | internal/scanner/scanner.go:223-253 | the backfill loop tiles downward and stops at the target or the first batch older than the cutoff |
| `Scanner.TooOldMeans` | internal/scanner/scanner.go:277-322 | a batch is past the cutoff if and only if one of its articles with a message-id was posted before it |
| `Scanner.ScanBackfill` | internal/scanner/scanner.go:159-266 | the pass starts below the stored position or at the server high; error-free it ends at the server low, at exactly its cap or at an article older than the cutoff; complete exactly in the first and last case |
| `Scanner.PassWithinCap` | internal/scanner/scanner.go:114-126 | no pass requests more articles than its effective cap, nor any outside the server's bounds |
| `Scanner.WatermarkNeverDecreases` | internal/scanner/scanner.go:80-155 | over any passes and failures the watermark never decreases and no stored row is lost |
| `Scanner.WatermarkAccounts` | internal/scanner/scanner.go:80-155 | every article number the watermark passed was read and its answer stored, or had expired from the server when skipped |
| `Scanner.BackfillTilesIff` | internal/scanner/scanner.go:159-266 | for any server bounds, passes and failures, all ranges backfill recorded form one downward tiling if and only if no pass started over at the top |
| `Scanner.LowMarksOfOneTile` | internal/scanner/scanner.go:159-266 | with low marks of at least 1 none does, and the tiling ends at the stored position until the group is complete |
| `Scanner.CompleteOnlyWhenFinished` | internal/scanner/scanner.go:210-260 | a group becomes complete only in a pass that reached the server low or an article older than the cutoff |
| `Scanner.LowZeroRestarts` | internal/scanner/scanner.go:177-185 | a low mark of 0 and a failed last write: two passes whose recorded ranges are not a tiling |
| `Yenc.DecodeYencLine` | internal/postprocess/yenc.go:65-79 | the byte loop appends the decoding of the line |
| `Yenc.DecodeYenc` | internal/postprocess/yenc.go:24-62 | the scanner loop computes the decoding of the stream, including both errors |
| `Yenc.EncodedIsPlain` | internal/postprocess/yenc_test.go:11-33 | no encoded data line holds a line break or can be read as a control line |
| `Yenc.DecodeInvertsEncode` | internal/postprocess/yenc.go:65-79 | decoding inverts encoding for every byte sequence |
| `Yenc.YencRoundTrip` | internal/postprocess/yenc.go:24-79 | for every payload, line split and surrounding junk, decoding returns the payload exactly when all lines fit the buffer |
| `Yenc.NeedsBeginLine` | internal/postprocess/yenc.go:24-62 | for all lines: decoding succeeds if and only if every line fits 8 MiB and one of them starts with =ybegin; it reports an oversized line whenever there is one |
| `Yenc.ControlLines` | internal/postprocess/yenc.go:36-54 | =ybegin and =ypart start data, =yend ends it, and none of them is data |
| `Yenc.PlainBytes` | internal/postprocess/yenc.go:65-79 | bytes other than the escape lose 42 modulo 256 |
| `Yenc.EscapedByte` | internal/postprocess/yenc.go:65-79 | an escaped byte loses 106 modulo 256, at any place of a line; an escape at the end is dropped |
| `Yenc.EncodeYenc` | internal/postprocess/yenc_test.go:11-33 | the 128-column encoder's output decodes to its input |
| `Par2.ParsePar2Filenames` | internal/postprocess/par2.go:40-93 | the loop computes the walk with every bound and overflow case, and each iteration starts at least 8 bytes after the one before |
| `Par2.OutOfRangeIff` | internal/postprocess/par2.go:44-73 | a read leaves the data exactly when a length field met on the walk overflows |
| `Par2.OverflowingPacketCrashes` | internal/postprocess/par2.go:54-63 | a 64-byte packet whose length field is all ones makes the walker slice out of range |
| `Par2.NamesAreDistinct` | internal/postprocess/par2.go:65-78 | names are non-empty and reported once, in first-seen order |
| `Par2.NoStraddle` | internal/postprocess/par2.go:44-49 | the magic has no border, so no match runs from a gap into a packet |
| `Par2.NameMeans` | internal/postprocess/par2.go:60-93 | only File Description packets longer than their 120 fixed bytes give a name, the rest without trailing NULs; all other types give none |
| `Par2.CorruptHeaderIsSkipped` | internal/postprocess/par2.go:55-59 | behind a header whose length is below 64 or beyond the data, the walk still finds every name that follows |
| `Par2.Par2RoundTrip` | internal/postprocess/par2.go:40-93 | well-formed packets with magic-free bytes around them yield exactly their File Description names |
| `Par2.BuiltPacket` | internal/postprocess/par2_test.go:11-30 | a built File Description packet is well formed and carries its name |
| `PostProcess.BackoffExact` | internal/store/postprocess.go:54-68 | the backoff is min(5 min * 2^(max(attempts,1)-1), 6 h) for every attempt count; the shift cap never shows |
| `PostProcess.BackoffGrows` | internal/store/postprocess.go:54-68 | it is non-decreasing in attempts |
| `PostProcess.RetryBudget` | internal/store/postprocess.go:77-127 | over every run: the counter is the claims since the last requeue, and at most three claims come out of 'failed' |
| `PostProcess.RetriesBelowBudget` | internal/store/postprocess.go:77-127 | fewer than three when each failure follows a claim since the requeue |
| `PostProcess.StragglerGetsThree` | internal/store/postprocess.go:277-307 | a run workers can produce, each reporting once per claim, in which a failure recorded after a requeue leads to three claims out of 'failed' |
| `PostProcess.ThirdRetryIff` | internal/store/postprocess.go:94-118 | a failed release can be claimed out of 'failed' up to the third time if and only if it was never claimed while pending since the requeue |
| `PostProcess.CrashLoop` | internal/store/postprocess.go:94-101 | claims of a pending release are unbounded when workers crash |
| `PostProcess.CounterOverrunsIff` | internal/store/postprocess.go:94-118 | the attempt counter passes the budget exactly through claims while pending |
| `PostProcess.DoneIff` | internal/store/postprocess.go:277-307 | a release ends 'done' if and only if some success has no failure recorded after it |
| `PostProcess.LateFailureUndoesDone` | internal/store/postprocess.go:277-307 | a run workers can produce in which a late failure turns a done release back to 'failed' |
| `PostProcess.NeverEarly` | internal/store/postprocess.go:102-110 | no claim out of 'failed' before the time the last failure set |
| `PostProcess.NeverOncePermanent` | internal/store/postprocess.go:277-307 | no claim after a permanent failure, or one recorded with three or more attempts seen, until a requeue, whatever late failures arrive |
| `PostProcess.BranchesAgree` | internal/store/postprocess.go:94-118 | limiting each status branch and then their union picks a first `limit` of all due releases |
| `PostProcess.TopMeans` | internal/store/postprocess.go:94-118 | those taken are pending, or failed with attempts and time left, and not permanent; those left out of a full batch are later in the order |
| `PostProcess.Releases.ListPendingReleases` | internal/store/postprocess.go:77-127 | a claimed batch is due, pending before failed, newest first, and only its attempt counters move |
| `PostProcess.Releases.RecordPPFailure` | internal/store/postprocess.go:277-307 | permanent or out of budget gives up, otherwise a retry is scheduled; unknown ids are refused |
| `PostProcess.Releases.RequeueFailedReleases` | internal/store/postprocess.go:238-248 | every failed release, and no other, becomes pending with a fresh budget |
| `RateLimit.RateLimiter.Ask` | internal/auth/ratelimit.go:38-58 | the answer and window of a request |
| `RateLimit.RateLimiter.Cleanup` | internal/auth/ratelimit.go:62-71 | exactly the expired windows go |
| `RateLimit.CleanupChangesNoAnswer` | internal/auth/ratelimit.go:62-71 | cleaning at any moments changes no later answer |
| `RateLimit.TallyHolds` | internal/auth/ratelimit.go:38-58 | what a key's last window says about all its grants so far |
| `RateLimit.GrantsPerWindow` | internal/auth/ratelimit.go:38-58 | at most `limit` grants in a window |
| `RateLimit.GrantsInInterval` | internal/auth/ratelimit.go:38-58 | at most 2 * limit - 1 grants in any interval no longer than the window |
| `RateLimit.AllowedIff` | internal/auth/ratelimit.go:46-57 | a request is refused exactly when the open window has already seen `limit` grants; otherwise, or in a new window, it is allowed |
| `RateLimit.UnlimitedIsFree` | internal/auth/ratelimit.go:38-41 | a limit of zero or less always allows, reports -1 and leaves every window and count alone |
| `RateLimit.RemainingIsExact` | internal/auth/ratelimit.go:53-57 | the reported remainder is the limit minus the grants of that window, zero when refused |
| `RateLimit.IntervalBoundIsTight` | internal/auth/ratelimit.go:38-58 | for every limit, a run that reaches that bound |
| `RateLimit.KeysAreIndependent` | internal/auth/ratelimit.go:46-51 | a key's window depends on its own requests alone |
| `Budget.DefaultReservedAPIConns` | internal/server/budget.go:48-64 | between 1 and 4 connections and never the whole pool; none from a pool of one |
| `Budget.FitUsesBudget` | internal/server/budget.go:145-173 | shrinking uses exactly the budget, raises neither stage, leaves each at least one worker and splits in proportion |
| `Budget.FitsIff` | internal/server/budget.go:145-173 | the split fits the budget exactly when the budget is at least two |
| `Budget.AutoBudget` | internal/server/budget.go:79-140 | for all integers and any non-positive overrides: both stages at least one, at least one pipeline connection, and the sum within max(2, database budget) and max(2, NNTP limit) |
| `Budget.AutoPlan` | internal/server/budget.go:79-140 | the auto plan exactly: half the connections clamped to 8 and 4 when both fit, otherwise all the budget; the reservation asked for, or a clamped quarter |
| `Budget.OverridesHonoured` | internal/server/budget.go:121-131 | overrides are used as given and flagged exactly when they exceed the budget |

## Left out

- `withConn`'s retry loop and its jittered backoff: a bounded repetition of acquire and release.
- `SetEndpoints`: rebuilding the endpoint list while keeping unchanged pools and breakers.
- Wake-up liveness and fairness of the semaphore: only safety is claimed, since a signalled waiter may still leave with a context error.
- The exact round-robin order under concurrent callers of the failover pool: the runs here are sequential, and the endpoints are distinct objects.
- Sockets, TLS, NNTP commands and date parsing: a connection is an opaque id and each operation an outcome.
- Subject parsing, release naming and metadata by regular expressions.
- Database isolation levels, query plans, partitions, timeouts and planner estimates.
- `BackfillReleaseSegments` and `CreateRelease`: the snapshot step they perform is modelled, their loops are not.
- `Drain`: the settle and age-out calls after the batch loop, because they are steps of the runs in `Assembly.dfy`; the sum of binaries touched is carried but not related to the rows.
- Scan counters other than the rows inserted, and the per-group throughput bookkeeping.
- `ReplayAfterAssembler`: runs that age out binaries, because deleting parts lets the second listing reach parts the first did not have; `ReplayChangesNothingIff` and `ReplayFinishesIff` cover them whenever it does not.
- `RetentionCandidates`: the dry-run report over the same candidate set.
- The search filter's WHERE clause: any predicate on rows.
- `ApplyPostProcessing`'s rename, NFO, file and identifier rows: only the status it sets takes part in the retry machine.
- yEnc header verification and stub repair, which also rewrite grouping columns.
- `ReleaseHash`, HTTP handlers, authentication, OpenSearch requests, metrics and configuration.
- Group lookup errors of a scan pass: such a pass changes nothing.
- A quiet collection settled with an unknown total keeps it at zero and is not listed for release; nothing is claimed about its release.
