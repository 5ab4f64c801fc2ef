# Playtesthub protocols: a verified model

Playtesthub hands game keys to applicants of a playtest. Behind its RPCs lie several
concurrent protocols, and this project models them and proves what they promise:

- **Approval** (`Tables`, `Approval`, `ApprovalRuns`, `ApprovalHandlers`): signup with
  auto-approval, manual approval and rejection as transactions whose statements interleave
  freely. Writes are private until commit and hold row locks, reads see committed rows plus the
  transaction's own writes, the advisory lock lasts until commit or rollback. The handlers are a class over
  the committed database; each of their transactions, beside others that hold codes, is shown to be a run of the machine.
- **Fence** (`Fence`): `Reserve`, `FencedFinalize` and `Reclaim` issued separately by any number
  of callers, each stamped with the start of its transaction, and exactly when the fence can be trusted.
- **Lease and reclaim** (`Lease`, `ReclaimWorker`): the lease row, the workers that race on it one
  statement at a time with stale `leading` flags, lost answers and crashes, and the timing of one punctual leader.
- **Window worker** (`WindowWorker`): time-driven status changes against admins and other workers.
- **DM queue** (`Breaker`, `DmQueue`, `Utf8`): the bounded FIFO, the breaker whose failure window
  is compacted in place in an array, the restart sweep, the truncation of stored errors.
- **Paging** (`Paging`): keyset walks against the one descending listing, while rows change.
- **Provisioning** (`Provisioning`): the remote campaign, item, link and code batches, the database
  transaction, and the compensating deletes, while other callers change the platform between any two calls.
- **Locked writers** (`LockedWriters`): uploads, top-ups and survey edits as read-then-insert
  transactions under advisory locks, shown equal to their one-step versions.
- **Retry** (`Retry`): the retry loop over 64-bit durations, and the two error classifiers.

`dafny verify dfyconfig.toml` checks everything.

## Assumptions

- Isolation is READ COMMITTED. A statement is one step; one that would wait for a lock cannot run until the lock is free.
- `NOW()` is the start of its transaction, as in Postgres. The timed reclaim model and `FenceExact` take it at the statement itself; `LateStampDefeatsFence` shows why that matters.
- Clocks never go back. In the timed reclaim model the worker and the database share one clock and a tick is one step; in `Lease` every statement of a tick is a step of its own.
- Unique indexes: (playtest, user), (playtest, value), (playtest, survey version), slug (migrations/0001_init.up.sql:54, 71 and 104; migrations/0003_m3.up.sql:29).
- Holder ids are distinct, one per replica.
- One `Run` goroutine per queue; the status writes of the DM queue succeed.
- Lock keys are an arbitrary function of the playtest, so two playtests may share a lock.

## Where the code and what is said of it differ

- Reserve and FencedFinalize run in one transaction in every handler, so the orphaned-grant error (answered `Aborted`)
  cannot happen (`FinalizeNeverOrphans`), no handler ever commits a RESERVED row, and the reclaim sweep finds nothing left by them (`ReservedNeverCommitted`).
- A decision handler can answer `Internal` after its transaction has committed, when the audit insert that follows fails
  (pkg/service/approve.go:81-85, 127-131 and 372-380): the applicant is decided and the code granted behind an error, and the DM is not offered.
  `ErrorAfterCommit` says exactly when, `AuditFailureHidesGrant` shows it, and `RepeatAnswersDecided` shows that a repeated call
  answers the decided row and never offers the DM.
- An approval that overlaps others can be told the pool is empty although unused codes exist, since `Reserve` skips the rows they hold
  and they may yet roll back; the handler then answers `ResourceExhausted`, and a signup stays pending. `PoolEmptyExactly` says when,
  `PoolEmptyBound` that no more codes are missed than other transactions hold, `SpuriousExhaustion` what it means for the answer,
  `SpuriousPoolEmpty` and `OverlapExhausts` show it.
- The fence is exact over a run if and only if no two reservations were handed the same code, user and reserved_at
  (`FenceExactIff`). Prompt stamps are enough (`FenceExact`); a transaction begun before a reclaim can repeat a ticket and make
  the dead one accepted (`LateStampDefeatsFence`). That run needs a committed RESERVED row, which no handler produces (`ReservedNeverCommitted`).
- Sweeps of different holders are exclusive over every run in which they come at most d after the refresh of their tick, if and only if d is
  below the TTL (`SweepsExclusiveIff`); nothing in the worker bounds d, and `StalledSweepsOverlap` shows two overlapping sweeps.
- A leader keeps its lease over every run exactly when its ticks come closer together than the TTL (`LeaseKeptIff`). The defaults, a
  10 s heartbeat and a 30 s TTL (pkg/config/config.go:179-187), leave 20 s of slack. `LEADER_HEARTBEAT_SECONDS` of 0 or less is accepted
  without a check and makes the tick period the 30 s reclaim interval: then even a leader whose ticks are all on time can lose the lease (`StockSettings`). The window worker then ticks at its 60 s interval, twice the TTL (`StockWindow`).
- docs/dm-queue.md:45-46 says draining pauses while the breaker is open; the code keeps draining and fails each job.
- The in-memory AGS client's `DeleteCampaign` keeps the entry of the link table, so a provisioning that fails after linking leaves a link behind (`CreatePlaytest`).
- The retry policies say that only 5xx and timeouts are retried, and that a non-HTTP failure comes back as the raw error
  (pkg/adt/retry.go:65-68 and 107-109; pkg/ags/retry.go:61-66 and 111-113). The code also retries exactly the errors without an HTTP status
  (`NonHttpErrors`) and answers their class, `ErrUnavailable` but for the four ADT codes (`NonHttpExhausts`, `UnresolvedHost`).
  Their `Sleep` field is never used.
- A page token whose last row has the nil id does not decode (`TokenRoundTrip`), so a client's walk stops there (`TokenWalkIsWalk`).

## Model

| member | source | states |
|---|---|---|
| Tables.GrantsEqualApprovals | pkg/service/applicant.go:171-213 | in a state with the code/applicant pairing, a pool playtest has as many granted codes as approved applicants |
| Tables.OldestUnused | pkg/repo/code.go:228-254 | the inner query of Reserve: no result exactly when every unused code is locked by others, otherwise a free one that no other free one predates |
| Tables.ReclaimMeaning | pkg/repo/code.go:443-457 | a reservation older than the ttl becomes unused with holder and stamp cleared; one as old as the ttl or younger, and every other row, is unchanged |
| Approval.StepLocks | pkg/service/applicant.go:160-215 | no two running transactions ever hold a version of the same code or of the same applicant |
| Approval.StepAdvisory | pkg/repo/txrunner.go:34-72 | every auto-approval past its lock statement owns the advisory lock of its playtest, and every lock is owned by such a running transaction |
| Approval.StepTxs | pkg/service/applicant.go:160-215 | at each program point a transaction's private versions are the committed rows with exactly the writes made so far, whatever others committed |
| Approval.StepCap | pkg/service/applicant.go:165-170 | from its count to its commit an auto-approval's playtest stays strictly below the limit it read, under every step of every transaction |
| Approval.CommitIs | pkg/service/applicant.go:171-213 | a commit decides one applicant that was still pending, and for a pool approval grants it one code that was unused, of its own playtest, for its own user; nothing else changes |
| Approval.CommitKeepsDb | pkg/service/applicant.go:171-213 | such a commit keeps the pairing of approved applicants and granted codes, and both unique indexes |
| Approval.ReclaimKeepsDb | pkg/repo/code.go:443-457 | a reclaim with any ttl never breaks the pairing |
| Approval.SignupKeepsDb | pkg/repo/applicant.go:191-212 | an inserted applicant keeps the pairing and the indexes |
| Approval.UploadKeepsDb | pkg/repo/code.go:199-220 | inserted codes keep the pairing and the indexes |
| ApprovalRuns.RunKeepsInv | pkg/service/applicant.go:160-215 | over every interleaving of signups, uploads, reclaims, approvals and rejections the whole invariant holds |
| ApprovalRuns.EveryReachableState | pkg/repo/code.go:228-273 | from empty tables every reachable committed state pairs approvals and granted codes one to one, counts them equal, and has no reserved row |
| ApprovalRuns.OnlyAutoCommitsCount | pkg/repo/applicant.go:413-471 | the counted rows change only by the commit of an auto-approval, which adds its own applicant; manual approvals and rejections never do |
| ApprovalRuns.AutoCommitWithinLimit | pkg/service/applicant.go:160-215 | an auto-approval's commit adds one and does not pass the limit that signup read |
| ApprovalRuns.CapHolds | pkg/service/applicant.go:160-215 | the cap: if no signup of a run reads a limit above a bound, the auto-approved applicants of the playtest never exceed it |
| ApprovalRuns.FinalizeNeverOrphans | pkg/service/applicant.go:186-197 | inside a transaction the fenced finalize always affects its row |
| ApprovalRuns.ReservedNeverCommitted | pkg/repo/code.go:443-457 | no run commits a reserved row, and a reclaim after it changes nothing |
| ApprovalRuns.RunForward | pkg/repo/applicant.go:413-494 | over every run GRANTED, APPROVED and REJECTED rows never change and no row is lost |
| ApprovalRuns.NoDeadlock | pkg/repo/txrunner.go:34-72 | while any transaction is running, some transaction can take a step towards its end |
| ApprovalRuns.PoolEmptyExactly | pkg/repo/code.go:228-254 | a transaction at Reserve can be told the pool is empty if and only if every unused code of its playtest is held by another running transaction |
| ApprovalRuns.PoolEmptyBound | pkg/repo/code.go:228-254 | when it is told so, the playtest has at most as many unused codes as other running transactions hold |
| ApprovalRuns.SpuriousPoolEmpty | pkg/service/approve.go:253-303 | a run in which an approval finds the pool empty, the only holder rolls back, and an unused code stands beside two pending applicants |
| ApprovalRuns.ReserveProgress | pkg/repo/code.go:228-254 | a transaction at Reserve is never stuck: it takes the oldest unlocked unused code or finds the pool empty |
| ApprovalRuns.UploadMeaning | pkg/repo/code.go:199-220 | an upload adds exactly its codes, unused, unreserved and created now |
| ApprovalRuns.EarlierUploadsFirst | pkg/repo/code.go:228-254 | over every run, while a code uploaded by some moment is free no approval reserves one of the playtest uploaded after it, unless both came at that very moment |
| ApprovalHandlers.SoundRun | pkg/repo/txrunner.go:34-47 | a run from a sound state, other transactions included, ends sound and only moves the database forward |
| ApprovalHandlers.Handlers.Decide | pkg/service/applicant.go:160-215 | InTx around a decision body, beside any transactions that hold codes: it is a run of the machine with them; its error is the first of failed statement, cap, no free code, CAS mismatch and failed commit that applies; an error leaves the database as it was, success changes exactly the applicant's row and, for a pool approval, the oldest free code |
| ApprovalHandlers.Handlers.TakeCode | pkg/repo/code.go:228-273 | reserve then finalize: the oldest unused code that nobody holds becomes granted to the user, or every unused code is held |
| ApprovalHandlers.Handlers.CompareAndSet | pkg/repo/applicant.go:413-494 | the CAS succeeds exactly on a pending row and writes only that row |
| ApprovalHandlers.Handlers.LookupExisting | pkg/service/applicant.go:387-396 | finds the row of (playtest, user), or there is none |
| ApprovalHandlers.Handlers.Signup | pkg/service/applicant.go:49-155 | repeated and racing signups return the one existing row unchanged; NotFound exactly on hidden playtests, or closed ones without a row; after the insert others may commit, and the new row is approved, with exactly that decision's changes, when auto-approval applies and its verdict on that database is clear; the DM is offered exactly then, unless an ADT link cannot be resolved |
| ApprovalHandlers.Handlers.ApproveApplicant | pkg/service/approve.go:61-303 | keeps the whole promise Answers: an approved row comes back unchanged, each early answer leaves the database alone, past them the answer and the change follow the transaction's verdict and the audit insert, and the DM is offered exactly on success; Aborted never happens; a row answered holds a granted code of its own |
| ApprovalHandlers.Handlers.RejectApplicant | pkg/service/approve.go:309-383 | keeps the same promise for rejection, and no code is ever touched |
| ApprovalHandlers.GatesMeaning | pkg/service/approve.go:197-247 | column by column: missing is NotFound, already in the wanted state is answered as it is, the other final state is FailedPrecondition, a missing or deleted playtest NotFound, a draft or closed one FailedPrecondition, a failing ADT link its error; nothing changes and no DM is offered |
| ApprovalHandlers.OnlyOpenPlaytestsDecide | pkg/service/approve.go:309-383 | a call that changes what it finds, or offers the DM, had a pending applicant and an open playtest that is not deleted |
| ApprovalHandlers.VerdictMeaning | pkg/service/applicant.go:160-215 | with no statement failing the transaction is stopped exactly by the cap, then by the lack of a free code, then by a decided row |
| ApprovalHandlers.TroubleMeaning | pkg/repo/txrunner.go:34-47 | which failing statements stop a transaction that would have succeeded, by kind and distribution model |
| ApprovalHandlers.DecisionMeaning | pkg/service/approve.go:253-303 | past the gates: no free code is ResourceExhausted, a row decided meanwhile FailedPrecondition, a failing CAS Internal, all without effect; otherwise the row is decided and answered, or Internal when the audit insert fails |
| ApprovalHandlers.InsertedMeaning | pkg/repo/applicant.go:191-212 | a signup inserts one pending row of its playtest and user, without code or approval, and changes nothing else |
| ApprovalHandlers.SignupMeaning | pkg/service/applicant.go:97-155 | a new row is approved as auto-approved exactly with auto-approval on, under the limit and with a free code if it needs one; a DM is offered only then |
| ApprovalHandlers.ErrorAfterCommit | pkg/service/approve.go:73-86 | past the early answers, beside any holders of codes, an error hides a changed database exactly when the verdict was clear and the audit insert failed; the answer is then Internal, the decision complete and the DM not offered |
| ApprovalHandlers.RepeatAnswersDecided | pkg/service/approve.go:197-230 | after a commit, whatever was answered and whatever others committed since, the same call answers the decided row, changes nothing and offers no DM |
| ApprovalHandlers.AuditFailureHidesGrant | pkg/service/approve.go:81-85 | at a concrete call the only possible outcome is a granted code and an approved row behind Internal, and repeating it answers the row |
| ApprovalHandlers.SpuriousExhaustion | pkg/service/approve.go:293-303 | an approval that would succeed alone answers ResourceExhausted exactly when every unused code of its pool is held by others; there is one, and nothing changes |
| ApprovalHandlers.OverlapExhausts | pkg/service/approve.go:253-303 | at a concrete call beside a reachable transaction that holds the one code, the only outcome is ResourceExhausted |
| Fence.LiveIsAccepted | pkg/repo/code.go:258-273 | in every run, whatever the stamps, the fence accepts the ticket of the reservation the row is in |
| Fence.DeadAcceptedIffAliased | pkg/repo/code.go:258-273 | a dead ticket is accepted exactly when the row's live ticket has the same user and stamp |
| Fence.FenceExactIff | pkg/repo/code.go:228-273 | over any run, whatever the stamps, the fence accepts exactly the live tickets at every point if and only if no two reservations were handed the same code, user and reserved_at |
| Fence.RepeatIsInexact | pkg/repo/code.go:228-273 | a Reserve that repeats a ticket makes the old one accepted though dead, in the very next state |
| Fence.PromptRunInvariant | pkg/repo/code.go:443-457 | with prompt stamps the tickets of a code strictly increase, because the reclaim comparison is strict |
| Fence.FenceExact | pkg/repo/code.go:228-273 | no ABA: with prompt stamps the fence is exact at every point of every run, and no two reservations of a code share reserved_at |
| Fence.YoungTicketAccepted | pkg/repo/code.go:228-273 | a holder that finalizes within ttl of its reserved_at is never turned away, whatever reserves, other finalizes and reclaims of that ttl or longer came in between |
| Fence.LateStampDefeatsFence | pkg/repo/code.go:228-254 | a concrete run with a late stamp in which a dead ticket is accepted, so the fence is not exact throughout it |
| Fence.CodeStore.Reserve | pkg/repo/code.go:228-254 | takes the oldest unused code of the playtest and issues a ticket with the start of the caller's transaction, or the pool is empty |
| Fence.CodeStore.FencedFinalize | pkg/repo/code.go:258-273 | for any arguments: affects one row exactly when the code is in a reservation that was handed these arguments, and while tickets are distinct exactly for its own holder; otherwise nothing changes |
| Fence.CodeStore.Reclaim | pkg/repo/code.go:443-457 | releases exactly the reserved rows older than the ttl, clearing holder and stamp, leaves every other row as it is, and returns how many changed |
| Lease.RowAfterGrant | pkg/repo/leader.go:55-99 | after a grant with no release and no other grant the row still holds that holder and expiry |
| Lease.StatementMeaning | pkg/repo/leader.go:55-111 | acquire takes a missing, expired or own row, refresh extends an own row that has not expired and nothing else, release removes an own row |
| Lease.LeaseExclusion | pkg/repo/leader.go:55-111 | after a holder's latest acquire or refresh, and unless it releases, nobody else's acquire or refresh succeeds before that time plus the TTL |
| Lease.RunKeepsInv | internal/reclaim/reclaim.go:128-219 | over every interleaving of worker statements, crashes and lost answers, the log of grants explains the row and every open tick began with the worker's own refresh |
| Lease.SweepIsCovered | internal/reclaim/reclaim.go:128-160 | each sweep follows a successful refresh of its own tick, and while it is within the TTL nobody else's grant lies between |
| Lease.SweepsExclusive | internal/reclaim/reclaim.go:128-206 | the refresh-to-sweep spans of two timely sweeps by different holders never overlap |
| Lease.SweepsExclusiveIff | internal/reclaim/reclaim.go:128-206 | every run whose sweeps come at most d after the refresh of their tick is exclusive if and only if d is below the TTL |
| Lease.StalledTicksOverlap | internal/reclaim/reclaim.go:128-160 | for every stall of at least the TTL there is a run with two leading workers about to sweep, with exactly this log |
| Lease.StalledSweepsOverlap | internal/reclaim/reclaim.go:128-160 | both then sweep within the stall of their refreshes, and the two spans overlap |
| ReclaimWorker.Database.TryAcquire | pkg/repo/leader.go:55-76 | takes the row when it is free, expired or the caller's own, and says so unless the answer is lost |
| ReclaimWorker.Database.Refresh | pkg/repo/leader.go:81-99 | extends only a live lease of the caller |
| ReclaimWorker.Database.Release | pkg/repo/leader.go:104-111 | frees only the caller's own row |
| ReclaimWorker.Worker.Heartbeat | internal/reclaim/reclaim.go:187-206 | a failed or lost refresh drops the leading flag |
| ReclaimWorker.Worker.ReleaseIfLeading | internal/reclaim/reclaim.go:208-219 | a stopping leader frees its own lease and nobody else's |
| ReclaimWorker.Worker.Tick | internal/reclaim/reclaim.go:128-160 | a tick is acquire if not leading, then refresh, then a sweep when one is due, stopping at the first that fails |
| ReclaimWorker.TickMeaning | internal/reclaim/reclaim.go:128-206 | column by column what a tick does to the row, the flags and each code, for every outcome of its calls |
| ReclaimWorker.TickPeriodMeaning | internal/reclaim/reclaim.go:226-231 | the period is the heartbeat interval, or the reclaim interval when that is not positive |
| ReclaimWorker.TickIsARun | internal/reclaim/reclaim.go:128-160 | an undisturbed tick is a run of the interleaved machine of Lease, so that machine's safety covers it |
| ReclaimWorker.RunKeepsInv | internal/reclaim/reclaim.go:106-160 | the timing invariant of a punctual leader holds over every run of ticks, rivals and reservations |
| ReclaimWorker.LeaseNeverLost | pkg/repo/leader.go:55-111 | a leader that ticks within the TTL never loses the lease: no rival's statement has any effect |
| ReclaimWorker.LeaseKeptIff | internal/reclaim/reclaim.go:128-231 | a leader keeps the lease over every run if and only if the time between its ticks stays below the TTL |
| ReclaimWorker.RivalTakesOver | pkg/repo/leader.go:55-76 | with a gap of at least the TTL there is a run in which any given rival ends up holding the row |
| ReclaimWorker.StockSettings | internal/reclaim/reclaim.go:226-231 | the stock settings keep the lease exactly for delays under 20 s; a heartbeat of 0 or less makes the period equal the TTL and the lease can be lost |
| ReclaimWorker.SweepCadence | internal/reclaim/reclaim.go:128-160 | consecutive sweeps are at least the interval and less than interval plus gap apart |
| ReclaimWorker.StrandedBound | internal/reclaim/reclaim.go:128-160 | once the leader has swept, no row is ever still reserved at reserved_at + ttl + interval + gap |
| WindowWorker.RunKeepsInv | pkg/repo/playtest.go:395-451 | over every interleaving of workers, admins, edits, deletes and crashes, statuses only advance and no two audit rows report one move |
| WindowWorker.EdgesTakenOnce | internal/window/window.go:139-208 | each playtest takes DRAFT to OPEN and OPEN to CLOSED at most once each, in that order, each with at most one audit row |
| WindowWorker.Sweep | internal/window/window.go:139-222 | an undisturbed sweep advances exactly the due rows by one edge and audits each exactly once with its true from and to |
| WindowWorker.SweepMeaning | pkg/repo/playtest.go:395-424 | a live draft of the namespace opens exactly when its start time has come, an open one closes exactly when its end time has, everything else stays |
| WindowWorker.CasMeaning | pkg/repo/playtest.go:431-451 | the admin step moves a live row of its namespace that is still in the status seen, one edge forward, and nothing else |
| WindowWorker.WorkerCasMeaning | internal/window/window.go:165-195 | so does the worker step, and it records the move as its own |
| WindowWorker.TwoSweepsSettle | internal/window/window.go:139-208 | with time fixed, after two sweeps nothing is due |
| WindowWorker.OneSweepSettlesIff | pkg/repo/playtest.go:395-424 | one sweep is enough exactly when no due draft is already past its end |
| WindowWorker.OnTimeKeepsLeaseIff | internal/window/window.go:278-283 | a window leader always on time keeps its lease over every run if and only if its interval, or a heartbeat below it, is shorter than the TTL |
| WindowWorker.TickPeriodMeaning | internal/window/window.go:278-283 | a heartbeat counts only when it is positive and below the interval |
| WindowWorker.StockWindow | internal/window/window.go:278-283 | the stock heartbeat is safe; one of 0 or less makes the period 60 s and the lease can be lost |
| Breaker.PrunedIsFiltered | pkg/dmqueue/dmqueue.go:300-320 | pruning the already pruned window equals filtering all failures since the last success or close |
| Breaker.RecentCounts | pkg/dmqueue/dmqueue.go:300-309 | pruning keeps each time after the cutoff as often as it occurs, and no other |
| Breaker.RecentIsSuffix | pkg/dmqueue/dmqueue.go:300-309 | of times in order it keeps a suffix |
| Breaker.JobMeaning | pkg/dmqueue/dmqueue.go:209-329 | a job step by step, with 50 failures, one minute and five minutes written out: when it is skipped, what it logs, what becomes of the window and the breaker |
| Breaker.FailsSince | pkg/dmqueue/dmqueue.go:277-329 | the failures since the last success or close are those of the log after it |
| Breaker.FailTimesMeaning | pkg/dmqueue/dmqueue.go:277-320 | and these are the times of its failed entries |
| Breaker.ProcessKeepsInv | pkg/dmqueue/dmqueue.go:209-329 | every job keeps the breaker's fields equal to what the log of sends determines, and keeps the log's rules |
| Breaker.RunKeepsInv | pkg/dmqueue/dmqueue.go:209-329 | so does every sequence of jobs over a clock that never goes back |
| Breaker.SpanBound | pkg/dmqueue/dmqueue.go:277-320 | a span of less than 60 s without a successful send holds at most 50 failed sends |
| Breaker.RateBound | pkg/dmqueue/dmqueue.go:277-320 | the same over every job sequence from the start |
| Breaker.SilenceWhileOpen | pkg/dmqueue/dmqueue.go:235-271 | no send starts within 5 minutes of an opening |
| Breaker.BreakerMeaning | pkg/dmqueue/dmqueue.go:258-329 | the window is the filtered failures, under 50 when closed and 50 when open; openings come exactly after the failure that fills it; closes come exactly after openings, at least 5 minutes later |
| DmQueue.Queue.constructor | pkg/dmqueue/dmqueue.go:133-148 | a new queue is empty and closed, with the default depth for a non-positive one |
| DmQueue.Queue.Depth | pkg/dmqueue/dmqueue.go:166-168 | the depth is the channel's length and never above the maximum |
| DmQueue.Queue.Enqueue | pkg/dmqueue/dmqueue.go:155-163 | accepted at the end of the FIFO exactly when there is room; otherwise the job fails on the spot as an overflow and the queue is unchanged |
| DmQueue.Queue.Take | pkg/dmqueue/dmqueue.go:172-183 | the worker receives the oldest accepted job |
| DmQueue.Queue.CheckCircuit | pkg/dmqueue/dmqueue.go:235-271 | reports the breaker open within its 5 minutes, and closes and clears it afterwards |
| DmQueue.Queue.PruneInPlace | pkg/dmqueue/dmqueue.go:300-309 | compacting the buffer in place leaves exactly the times after the cutoff, in order |
| DmQueue.Queue.RecordFailure | pkg/dmqueue/dmqueue.go:277-320 | appends the failure and opens the breaker exactly when it fills the window |
| DmQueue.Queue.ResetFailures | pkg/dmqueue/dmqueue.go:325-329 | a success empties the window |
| DmQueue.Queue.Process | pkg/dmqueue/dmqueue.go:209-229 | one job gets one outcome, its row the matching status, the breaker and its log the step that Breaker reasons about |
| DmQueue.OutcomeMeaning | pkg/dmqueue/dmqueue.go:209-229 | delivered exactly when the job logs a success, a send error exactly when it logs a failure; without recipient, or within five minutes of the opening, it logs nothing and fails for that reason; the row says so, an error text cut to 500 bytes |
| DmQueue.Queue.DeliveriesAreSends | pkg/dmqueue/dmqueue.go:209-229 | over every history the delivered jobs are as many as the successes in the log, the jobs with a send error as many as the failures |
| DmQueue.MarkMeaning | pkg/repo/applicant.go:500-523 | a status write touches one row and its status only |
| DmQueue.Queue.MarkFailed | pkg/dmqueue/dmqueue.go:359-381 | the job's row is failed with the truncated reason; no other row changes |
| DmQueue.Queue.Sweep | pkg/dmqueue/dmqueue.go:191-205 | marks exactly the lost rows, one by one, and returns their number |
| DmQueue.Queue.RateOfSends | pkg/dmqueue/dmqueue.go:277-320 | the rate bound for the log of any reachable queue |
| DmQueue.Queue.EveryJobOnce | pkg/dmqueue/dmqueue.go:155-229 | every offered job is queued, in hand or settled, exactly one of these; processed jobs are a prefix of the accepted ones |
| DmQueue.SweepRecovers | pkg/repo/applicant.go:531-559 | the sweep fails exactly the approved rows of live playtests of the namespace whose DM is unset or pending, as lost on restart; every other row is kept, a second sweep finds and changes nothing |
| Utf8.TruncateUTF8 | pkg/repo/applicant.go:708-717 | the result is a prefix within the limit, and the input itself when that already fits |
| Utf8.ValidIsEncoded | pkg/repo/applicant.go:708-717 | the validity used here is that of section 3 of RFC 3629: every valid string is the encoding of code points |
| Utf8.EncodedIsValid | pkg/repo/applicant.go:708-717 | and every such encoding is valid, with as many characters as code points |
| Utf8.PrefixValidIff | pkg/repo/applicant.go:708-717 | a prefix of valid UTF-8 is valid exactly when it ends where a character starts |
| Utf8.TruncatedIsLongest | pkg/repo/applicant.go:708-717 | on valid UTF-8 the result is the longest valid prefix within the limit and gives up at most 3 bytes of it |
| Utf8.TruncatedTwice | pkg/repo/applicant.go:708-717 | truncating twice is truncating once, also to a smaller limit |
| Utf8.TruncatedFitsColumn | pkg/repo/applicant.go:500-523 | a truncated error has no more characters than the limit |
| Paging.ListingUnique | pkg/repo/applicant.go:259-319 | a set of rows has only one (created_at, id) DESC listing |
| Paging.Select | pkg/repo/applicant.go:259-319 | the query returns the newest matching rows below the cursor |
| Paging.MatchesMeaning | pkg/repo/auditlog.go:164-200 | the filters of the three listings, column by column |
| Paging.PageInColumns | pkg/repo/applicant.go:259-319 | a page has only matching rows beyond the cursor, newest first by created_at then id; every such row left out is older than its last, and there is a next cursor exactly when some are |
| Paging.ListPaged | pkg/repo/auditlog.go:164-241 | rows match, lie beyond the token and come newest first, written out in created_at and id; rows left out are older than the next token, which is there exactly when the page is full and rows remain; sizes 1 to 200 are used as asked; only a malformed token or one with the nil id fails |
| Paging.PageSize | pkg/repo/survey.go:273-330 | 1 to 200 as asked, 50 when nothing sensible is asked, never above 200 |
| Paging.TokenRoundTrip | pkg/repo/page.go:10-35 | a token decodes to its cursor exactly when the id is not nil |
| Paging.WalkNeverRepeats | pkg/repo/applicant.go:259-319 | however the table changes between fetches a walk is strictly descending, so no row comes twice, and every row matched when fetched |
| Paging.WalkMissesNothing | pkg/repo/auditlog.go:164-241 | a row present and matching throughout a completed walk is returned |
| Paging.WalkIsListing | pkg/repo/survey.go:273-330 | on a fixed table the walk ends within the expected pages and equals the whole listing |
| Paging.TokenWalkIsWalk | pkg/repo/page.go:10-35 | following NextPageToken is the walk by cursors cut at the first page boundary with the nil id, and completes exactly when that walk does and meets no such boundary |
| Paging.ClientSeesEachOnce | pkg/repo/auditlog.go:164-241 | from the empty token no row comes twice however the table changes, and a completed walk has every row present and matching throughout |
| Paging.ClientGetsListing | pkg/repo/applicant.go:259-335 | on a fixed table without the nil id a client gets exactly the listing within the expected pages |
| Paging.RestIsTail | pkg/repo/applicant.go:259-319 | what the next token still sees is exactly the rest of the listing |
| Provisioning.AgsClient.CreateCampaign | pkg/ags/mem.go:98-107 | a new campaign under a fresh id, unless refused |
| Provisioning.AgsClient.CreateItem | pkg/ags/mem.go:83-92 | a new item under a fresh id, unless refused |
| Provisioning.AgsClient.LinkItemToCampaign | pkg/ags/mem.go:111-125 | links an existing item to an existing campaign, otherwise refuses; entries of other callers are untouched |
| Provisioning.AgsClient.CreateCodes | pkg/ags/mem.go:130-151 | appends new code values to the campaign's pool; an unknown campaign is refused |
| Provisioning.AgsClient.DeleteCampaign | pkg/ags/mem.go:182-191 | removes the campaign and its codes but not its link |
| Provisioning.AgsClient.DeleteItem | pkg/ags/mem.go:171-179 | removes the item |
| Provisioning.Service.EnsureBootstrap | pkg/service/ags_campaign.go:188-226 | the bootstrap runs again only until it has succeeded once |
| Provisioning.Service.CreateCodesBatched | pkg/service/ags_campaign.go:283-314 | the loop ends, and its failure, its number of calls and its number of codes are those of Loop on the plan; the campaign's pool grew by exactly its result, whose values are new; partial exactly when short; a missing campaign fails on the first call |
| Provisioning.LoopMeaning | pkg/service/ags_campaign.go:290-313 | the loop makes a call; every call but the last worked, got a full batch and left codes missing; it fails exactly when the last call did; otherwise it is short exactly when the last batch was |
| Provisioning.WantedMeaning | pkg/service/ags_campaign.go:290-300 | a call asks for what is still missing, or a full batch when that is less |
| Provisioning.LoopWithin | pkg/service/ags_campaign.go:290-313 | batches no longer than asked never add up to more than the quantity |
| Provisioning.LoopCalls | pkg/service/ags_campaign.go:290-313 | the calls before the last, at full batches, are fewer than the quantity needs |
| Provisioning.CleanFailuresRestore | pkg/service/ags_campaign.go:320-336 | if failed calls have no remote effect and the compensating deletes work, nothing is left |
| Provisioning.AnswerMeaning | pkg/service/ags_campaign.go:60-179 | InvalidArgument exactly for a quantity outside 1 to 50000, Upstream exactly when a remote step failed, otherwise the transaction answer; all steps working, it succeeds unless the slug is taken |
| Provisioning.TxMeaning | pkg/service/ags_campaign.go:144-171 | AlreadyExists exactly for a taken slug unless the playtest insert failed otherwise, Internal exactly for another failing step |
| Provisioning.AnsweredPool | pkg/service/ags_campaign.go:283-314 | on success the pool holds what the batches held, short exactly when the last batch was, never over if no batch was, not short if all were full |
| Provisioning.GrownDistinct | pkg/service/ags_campaign.go:283-314 | the codes a campaign gains never repeat one another |
| Provisioning.Service.Cleanup | pkg/service/ags_campaign.go:320-336 | both deletes are attempted, success means both worked, and exactly the entries whose delete was not refused are gone |
| Provisioning.Service.InsertPlaytest | pkg/service/ags_campaign.go:145-166 | playtest row and codes together or not at all; a step that fails before the slug is looked at answers Internal, then a taken slug AlreadyExists, later failures Internal, a repeated code AlreadyExists |
| Provisioning.Service.ProvisionRemote | pkg/service/ags_campaign.go:88-143 | it succeeds exactly when every remote step of the plan does, with as many codes as the loop yields; otherwise nothing of its own is left exactly when Restores holds of the plan, while others change the platform between calls |
| Provisioning.Service.CreatePlaytest | pkg/service/ags_campaign.go:60-179 | all or nothing among concurrent callers: the answer is a function of the plan and the database found; success leaves of its own one linked item and campaign, one row with both ids and all codes of the loop in its pool; an error leaves nothing in the database, and nothing of its own among the remote items, campaigns and codes if and only if, by the plan alone, no create answer was lost and no needed delete was refused; what others have on the platform stays as they left it |
| LockedWriters.RunKeepsInv | pkg/repo/txrunner.go:55-72 | over every interleaving, what a transaction read is still true when it commits, pools have no duplicates, survey versions run 1..n |
| LockedWriters.AnswersAtomically | pkg/repo/txrunner.go:55-72 | serializability: the step that fixes a transaction's answer gives the database and answer of the whole operation done at once |
| LockedWriters.EditAnswersItsRow | pkg/repo/survey.go:111-142 | over every run the commit of an edit answers the version it inserted, which was not there before, is the last one after, and makes the versions 1 to itself |
| LockedWriters.EditNotFoundIff | pkg/repo/survey.go:111-142 | an edit is answered NotFound exactly when the playtest has no version |
| LockedWriters.EditMeaning | pkg/repo/survey.go:111-142 | an edit at once: NotFound without effect, or the row after the last and its number |
| LockedWriters.UploadMeaning | pkg/repo/code.go:318-377 | an upload at once: exactly the values already present and no insert, or the whole file appended in order, or a violation when the file repeats itself |
| LockedWriters.IndexMeaning | pkg/repo/code.go:318-438 | the unique indexes, in the columns |
| LockedWriters.KeyMeaning | pkg/repo/txrunner.go:55-72 | unless hashes collide, only operations on the same table and playtest wait for each other |
| LockedWriters.IndexFiresOnlyOnRepeats | pkg/repo/code.go:318-438 | an upload or top-up fails on the unique index exactly when its own file repeats a value; a survey edit never does |
| LockedWriters.SurveyVersions | pkg/repo/survey.go:93-159 | versions of a playtest are exactly 1..n, and the current one is n and exists |
| LockedWriters.VersionsCountEdits | pkg/repo/survey.go:111-142 | every committed create or edit adds exactly one version, over any run |
| LockedWriters.TopUpIsUnion | pkg/repo/code.go:386-438 | a top-up of distinct values makes the pool the union and returns the number of new values |
| LockedWriters.ReplayInsertsNothing | pkg/repo/code.go:386-438 | a top-up whose values are all present changes nothing and returns 0 |
| LockedWriters.TopUpsCommute | pkg/repo/code.go:386-438 | two top-ups in either order give the same pool and the same total |
| LockedWriters.UploadAtomic | pkg/repo/code.go:318-377 | the loop over existing rows reports exactly the values already present and inserts nothing, or inserts the whole file, or fails on the index |
| LockedWriters.Missing | pkg/repo/code.go:392-424 | the pre-read and filter keep exactly the values not in the pool, in order |
| LockedWriters.InsertGeneratedAtomic | pkg/repo/code.go:386-438 | equals the one-step top-up; distinct values never fail and the count is that of new values |
| Retry.ClassifiersAgree | pkg/ags/retry.go:131-157 | the two classifiers agree exactly on errors with none of the four ADT codes and on context errors |
| Retry.NonHttpErrors | pkg/adt/retry.go:107-172 | the code retries beyond what is documented exactly the errors without an HTTP status that are no timeout; one classifies as Unavailable exactly unless the ADT client finds one of its four codes in an error that is no context error |
| Retry.ClassMeaning | pkg/adt/retry.go:139-172 | value by value: which error each class stands for, the four ADT codes told apart |
| Retry.RetryMeaning | pkg/adt/retry.go:109-119 | value by value what is retried |
| Retry.AttemptsMeaning | pkg/ags/retry.go:70-76 | at least one attempt, otherwise as many as the policy says |
| Retry.DocumentedExactly | pkg/adt/retry.go:69-105 | every wait is the initial backoff, then min(initial * 2^k, maximum), exactly when neither duration is large enough to wrap (or one is not positive) |
| Retry.TotalWaitBound | pkg/adt/retry.go:69-105 | whatever the durations, n waits take at most the first plus (n - 1) times the maximum |
| Retry.Run | pkg/adt/retry.go:69-139 | at most max(1, MaxAttempts) calls; it goes on only past retryable errors under a live context; result, calls and time slept are those of the first reason to stop |
| Retry.EndingUnique | pkg/ags/retry.go:70-126 | those clauses determine the result and the number of calls |
| Retry.NoRetryAfterClientError | pkg/ags/retry.go:114-126 | a plain 4xx is always the last call |
| Retry.NonHttpExhausts | pkg/ags/retry.go:70-157 | under a live context a row of such errors uses every attempt and ends in the class of the last one |
| Retry.UnresolvedHost | pkg/ags/retry.go:33-41 | at the standard policy: 4 calls, then Unavailable |
| Retry.StandardPolicies | pkg/ags/retry.go:33-53 | the standard policy sleeps 1.75 s at most, the create policy never |

## Left out

- ApprovalHandlers.Handlers.Decide: the transactions beside the body hold their locks throughout it; steps of theirs between its statements are in the machine of Approval, over which the cap, the pairing, the pool-empty answer and progress are proved.
- ApprovalHandlers.Handlers.TakeCode: the set of held codes is the one when it reserves, and stays so until its commit.
- ApprovalHandlers.Handlers.Signup: reads before the insert and the lookups succeed; the row returned is identified by its id. The decision handlers' reads succeed too.
- `UpdateStatus` (pkg/repo/applicant.go:373-404): an unguarded writer that leaves legality to its callers; it is not a step of the model.
- How an ADT download URL is resolved (only whether it fails, and with which code), the NDA ledger, announcements, ADT linkage and build health: single-statement handlers.
- The text of audit rows and DMs, logging, rejection reasons and Discord lookups; only the order of the events is kept.
- A lost answer to a database commit; the database either commits or reports failure.
- DmQueue.Queue.Process: status writes always succeed; the drain throttle (time between jobs) is free, and audit rows of the breaker are log entries.
- DmQueue.Queue.Enqueue: calls are atomic steps between the worker's steps; the mutex and the channel are not modelled below that.
- `RetryFailedDms` and the survey DM fan-out: they only enqueue.
- WindowWorker.Sweep: its lease and tick gate are the reclaim worker's election under another lease name and with another period, proved once in Lease and ReclaimWorker; only the sweep and its compare-and-swap are modelled here.
- WindowWorker.TwoSweepsSettle: audit-write failures and statement errors inside the sweep are only in the interleaved machine, not in this sequential sweep.
- ReclaimWorker.RunKeepsInv: a tick is one step on one clock and its calls succeed; ticks split into statements, failures and lost answers are in Lease, without a time bound.
- ReclaimWorker.StrandedBound: store calls of the leader succeed; lost answers and failures are in Lease, without a time bound.
- LockedWriters.InsertGeneratedAtomic: the model's statements have no failures besides the unique index; a failed or abandoned transaction is the End step of the machine.
- `Create` of a survey that already exists fails on the unique index and is a disabled step; `SubmitOnce` is one insert on a unique key and is not modelled.
- `BulkInsert` and `BulkInsertCSV`: the same insert as the create transaction's, without the lock; `CountByState` is a plain count.
- Provisioning.Service.CreatePlaytest: fresh ids come from a counter, and other callers never touch the ids of this call; the audit of a failed transaction, which always records cleanup as failed (pkg/service/ags_campaign.go:161-162), is not modelled.
- Provisioning.Service.CreateCodesBatched: the campaign is one this provisioning made, as at its only call.
- Paging.TokenRoundTrip: tokens are encoded cursors; base64 and JSON are not modelled.
- Retry.Run: per-attempt timeouts are part of what the call answers; an error is reduced to what the classifiers look at.
- Approval.Next: the hash of the lock key is an arbitrary function; statement errors other than the modelled ones are a rollback.
- Integer widths other than the retry durations are unbounded.
- The CLI, the admin and player front ends, configuration and the HTTP clients.
