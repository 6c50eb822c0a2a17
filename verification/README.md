# Makepdf: the durable job queue and its neighbours, verified

This project models, in Dafny, the parts of Makepdf whose correctness depends on many calls working
together, and proves what they keep.

* **The job queue** (`JobTable`, `JobRuns`, `JobEffects`, `JobSafety`, `JobLeases`, `JobReads`,
  `JobAttempts`, `JobTiming`, `JobOutcomes`, `JobCorners`, `JobRaces`, `JobIdempotency`, `JobRegistry`). A
  registry function is a `Call`; `Exec` is the jobs table and the audit log after it. The class
  `JobRegistry.Registry` updates the two tables in place as the source does, and each of its methods is
  proved to have the effect of its call; `JobEffects` says of each call which columns and audit events it
  changes, when, and that it changes nothing else. The main results are about every run: any sequence of calls of any number of workers and API processes.
  `complete_job`, `fail_job` and `purge_old_jobs` read rows and write them later. Their calls stand
  where they write and carry what was read; `JobReads.Possible` gives each the position of its read, and
  asks only that the worker does nothing else in between. Results that hold in all these interleavings
  say so or say nothing; for those that do not, the exact condition and a run that fails are given. The
  clock is an argument of each call. A call takes its time before it waits for the table, so the times
  need not be in the order of the calls; nothing is assumed of them except where a row says so.
* **The worker process** (`WorkerProcess`, `WorkerOutcomes`). The polling loop and the main loop run against a registry
  on which everybody else may act between any two statements. They return the interleaving they took
  part in, and are proved to be sequential in it, which is what `JobLeases.Fencing` asks of a worker.
* **Documents, quotas and submission** (`Documents`, `LegalHold`, `Deletion`, `DeletionRace`,
  `DeleteCall`, `DocumentRights`, `Governance`, `CallOutcomes`, `Metering`, `Submission`, `Resubmission`):
  who may do what, legal hold, deletion and expiry on top of the queue, with the statements of
  `delete_document` as separate actions, the daily counters and billing statements, and the submit routes
  with their undo.
* **The audit hash chain** (`AuditChain`), for any hash function.
* **Outlines** (`Outline`): the parent stack, the tree it builds, and the walk that flattens it.
* **Small cores**: the sliding-window limiter (`RateLimit`), download tokens (`DownloadToken`), SQL
  rendering (`SqlRender`) and Bates numbering (`Bates`), with `Text`, `Decimal` and `Options` below them.

Where the code does not do what one would expect, the model follows the code: recovery ignores
`max_attempts`; a cancelled job whose worker dies stays processing; a cancellation between the read and
the write of `complete_job` or `fail_job` is overwritten; `complete_job` reports a cancellation for any
caller, keeps the owner and can turn an expired job back to cancelled; `fail_job` audits even when its
update changes no row; a legal hold set after the check of `delete_document` does not stop the deletion; a
job submitted after `delete_document` has listed the jobs is not cancelled by it, and runs on after the
deletion; the daily job counter counts accepted submissions, replays included; the rate limiter refuses and
accepts wrongly after a step of the clock, and the wait that it advises is too short.

## Model

| member | source | states |
|---|---|---|
| JobRegistry.Registry.CreateJob | makepdf/web/job_registry.py:183-230 | inserts a pending row and one audit event, or, on a conflict, changes nothing and returns the earlier job of the same request, refuses the key, or raises the integrity error |
| JobRegistry.Registry.RecoverStaleJobs | makepdf/web/job_registry.py:256-266 | hands every expired, uncancelled lease back as retry, due at once, and no other row changes; counts them |
| JobRegistry.Registry.ClaimNextJob | makepdf/web/job_registry.py:288-318 | recovers, then claims an oldest due, uncancelled job of a served kind; answers None only if there is none |
| JobRegistry.Registry.RenewLease | makepdf/web/job_registry.py:321-327 | extends the lease and says true exactly for the owner of a processing job |
| JobRegistry.Registry.RequestCancel | makepdf/web/job_registry.py:330-342 | flags a live job of the tenant, ends it at once if it was waiting, audits, and says true exactly then |
| JobRegistry.Registry.CompleteJob | makepdf/web/job_registry.py:345-362 | reads the row, lets the others act, and writes: reports a cancellation it has read, completes for the owner with digest and audit event, or changes nothing |
| JobRegistry.Registry.FailJob | makepdf/web/job_registry.py:365-380 | reads the row, lets the others act, and writes: cancelled, retry with capped doubling or failed for the owner; audited even when the row is not the worker's |
| JobRegistry.Registry.UpdateProgress | makepdf/web/job_registry.py:244-253 | clamped percentage and cut stage, only for the given owner if there is one |
| JobRegistry.Registry.PurgeOldJobs | makepdf/web/job_registry.py:401-422 | selects exactly the settled jobs past the cutoff, and expires and audits them one by one while the others act in between |
| JobRegistry.Registry.GetJob | makepdf/web/job_registry.py:233-241 | the row, if it exists and belongs to the tenant asked for |
| JobEffects.SweepRecoversAll | makepdf/web/job_registry.py:256-266 | every processing, uncancelled job whose lease_until lies before the clock of the sweep becomes a retry without owner and lease, due at that clock; every other job stays as it is, and an immediate second sweep finds and changes nothing |
| JobEffects.ClaimTakesTheOldest | makepdf/web/job_registry.py:288-318 | the claimed job is uncancelled and of one of the kinds of the claim, and waits and is due or has lost its lease; no other such job is older, and there is one whenever a job is due; the jobs left behind are handed back and all others stay |
| JobEffects.FailureEffect | makepdf/web/job_registry.py:365-380 | a failure by the owner leads to a retry exactly if it is retryable, no cancellation was read and attempts are left, and the audit event says the same; a failure by anybody else changes no column |
| JobEffects.CancellationEffect | makepdf/web/job_registry.py:330-342 | only the own tenant cancels, and only a job that waits or runs |
| JobEffects.RenewalEffect | makepdf/web/job_registry.py:321-327 | exactly the owner of a processing job moves the end of its lease, and nothing else |
| JobEffects.CompletionEffect | makepdf/web/job_registry.py:345-362 | a completion gives the owner's processing job its result, and keeps its name unless it brings one; one that has read a cancellation only marks the job, whoever makes it |
| JobEffects.ExpiryEffect | makepdf/web/job_registry.py:412-418 | an expired job has lost result path and payload and keeps everything else, and is audited |
| JobEffects.OtherJobsStay | makepdf/web/job_registry.py:244-422 | a call about one job changes no other |
| JobEffects.ChangesAreStamped | makepdf/web/job_registry.py:244-422 | whatever changes in a job, updated_at is the time of the call that changed it |
| JobEffects.ProgressEffect | makepdf/web/job_registry.py:244-253 | progress is clamped to a percentage and the stage cut, and a named worker must own the job |
| JobEffects.PurgeSelects | makepdf/web/job_registry.py:401-409 | a purge selects complete, failed and cancelled jobs alone, whose expiry lies before its clock, less max_age_seconds if given |
| JobEffects.CreationEffect | makepdf/web/job_registry.py:183-229 | a clash of id or of tenant and key changes nothing; else one new pending job, due at once, with the columns of the call, and its audit event |
| JobEffects.CreateAnswers | makepdf/web/job_registry.py:206-230 | the new job, the integrity error, the earlier job of the tenant and key, or the refusal, each exactly when it is due |
| JobReads.ReadStaysHonest | makepdf/web/job_registry.py:345-422 | what complete_job, fail_job or a purge has read and what still holds when it writes: a cancellation stays, an owner that has not claimed again is in the same attempt, a row due for deletion is not worked on again |
| JobReads.ReachableRowsAreSane | makepdf/web/job_registry.py:288-422 | the invariant of every row in every reachable state, however reads and writes interleave: a complete job has its result, a processing one its owner and lease, a pending one no attempt, a waiting or owned one at least one |
| JobReads.InvariantHoldsExactly | makepdf/web/job_registry.py:345-380 | the stronger invariant (a result exactly while complete, a cancelled job only processing, cancelled or expired) holds all through a run if and only if no cancellation of the job falls between the read and the effective write of a complete_job or fail_job |
| JobRaces.CancelledJobCanHaveAResult | makepdf/web/job_registry.py:349-360 | a run that loses it: the cancellation comes between read and write, and a superseded worker then marks the completed job cancelled with its result in place |
| JobRaces.CancelledJobCanWait | makepdf/web/job_registry.py:368-379 | another: the cancellation comes between read and write of fail_job, and the job waits for a retry that nobody can make |
| JobSafety.AttemptsCountClaims | makepdf/web/job_registry.py:310-316 | attempts counts claims in every run, even where reads and writes interleave |
| JobAttempts.AttemptAccounting | makepdf/web/job_registry.py:297-316 | in every reachable state, however reads and writes interleave, attempts is the number of claims, at most max(1, max_attempts) plus the number of recovered leases |
| JobAttempts.ExceedsMaxAttempts | makepdf/web/job_registry.py:260-265 | a job is claimed more often than max(1, max_attempts) if and only if a lease of it is recovered when its attempts are used up and it is claimed after that |
| JobRaces.RecoveryExceedsMaxAttempts | makepdf/web/job_registry.py:260-265 | such a run: one attempt allowed, two made |
| JobSafety.NeverClaimedAfterCancel | makepdf/web/job_registry.py:263-306 | once set, cancel_requested stays set and the job is never claimed or recovered, in any interleaving of reads and writes |
| JobReads.CancellationIsPermanent | makepdf/web/job_registry.py:330-374 | after an accepted cancellation the job is never claimed, and it stays processing, cancelled or expired for the rest of the run if and only if no call that read it before takes effect after |
| JobReads.CompleteThoughCancelled | makepdf/web/job_registry.py:349-360 | a complete job carries cancel_requested if and only if request_cancel took effect between the read and the write of the call that completed it |
| JobReads.CompletedByAnOlderRead | makepdf/web/job_registry.py:349-360 | a cancelled job that is not complete is complete at some later position if and only if a call that had read it before the cancellation then completes it |
| JobRaces.CancelledJobCanComplete | makepdf/web/job_registry.py:349-360 | that race exists: a worker reads the row, the user cancels, the worker completes |
| JobSafety.CompletedAtMostOnce | makepdf/web/job_registry.py:345-362 | no run completes a job twice, in any interleaving of reads and writes |
| JobSafety.CompletionsAreAudited | makepdf/web/job_registry.py:345-362 | job.completed events equal completions, job by job, in every run |
| JobSafety.ResultIsTheOwners | makepdf/web/job_registry.py:355-360 | a complete row holds the path and digest of the call by which its owner completed it |
| JobAttempts.ResultsAreKept | makepdf/web/job_registry.py:345-422 | a complete or failed job keeps status, result and payload or is expired, at every later position, if and only if no complete_job that has read a cancellation of it is written after |
| JobAttempts.ResultsAreRetained | makepdf/web/job_registry.py:401-422 | it is unchanged at every later position if and only if no purge that selected it writes either |
| JobAttempts.ExpiresAfterItsTtl | makepdf/web/job_registry.py:405-418 | in every run a purge expires a job only when its cutoff has passed the creation time plus the TTL |
| JobAttempts.KeptForItsTtl | makepdf/web/job_registry.py:203-217 | so a result is unchanged as long as no purge has a cutoff beyond that and no complete_job that has read a cancellation is written |
| JobSafety.ExpiryIsFixed | makepdf/web/job_registry.py:203-217 | expires_at is creation time plus TTL for ever |
| JobSafety.FixedColumns | makepdf/web/job_registry.py:210-217 | no call changes tenant, user, kind, digest, key, max_attempts, creation or expiry time |
| JobSafety.PurgeTwice | makepdf/web/job_registry.py:407-418 | an uninterrupted purge changes exactly the rows it selects, no live job among them, and an immediate second one selects nothing |
| JobCorners.ExpiryIsFinalExactly | makepdf/web/job_registry.py:349-354 | an expired job stays expired for the rest of the run if and only if no complete_job that has read a cancellation of it is written and no fail_job by a worker that its row still names |
| JobRaces.ExpiredJobCanComeBack | makepdf/web/job_registry.py:349-354 | a run in which it comes back: claimed twice, cancelled, reported, purged, reported by the worker that had lost it |
| JobCorners.CancelledJobHangsExactly | makepdf/web/job_registry.py:260-265 | a cancelled job that is processing stays so for the rest of the run if and only if its owner neither completes nor fails it and no complete_job that has read the cancellation is written |
| JobRaces.CancelledJobIsNotRecovered | makepdf/web/job_registry.py:260-265 | such a run: the lease ran out long ago and recovery leaves the job alone |
| JobCorners.IdleFailuresAreAudited | makepdf/web/job_registry.py:375-380 | the retry, failed and cancelled events of a job exceed its effective failures and accepted cancellations by exactly the fail_job calls of workers that did not own it, which change nothing |
| JobLeases.LeaseMutualExclusion | makepdf/web/job_registry.py:256-327 | at every claim the lease of the worker before was given back or had run out strictly before the clock of the claim: two unexpired leases never coexist, as the workers see them; in every run, whatever order the times of its calls are in |
| JobLeases.Fencing | makepdf/web/job_registry.py:321-380 | after somebody else has claimed the job, the earlier claimant's renew, complete or fail changes nothing but a cancelled job's status, and completes nothing |
| JobLeases.OneClaimPerExecution | makepdf/web/worker.py:100-118 | between the claim of a job and a later call about it a sequential worker claims nothing else |
| JobLeases.LosesOwnership | makepdf/web/job_registry.py:298-316 | a worker that claims nothing does not own a job that anybody claims |
| JobTiming.BackoffClosedForm | makepdf/web/job_registry.py:374-374 | the sum of min(300, 2^k) is 2^m - 2 up to attempt 9 and 510 + 300(m - 9) above |
| JobTiming.BackoffSchedule | makepdf/web/job_registry.py:304-378 | at the m-th claim of a never recovered job the imposed delays add up to exactly that sum, and the claim comes no earlier after the creation; of the clocks it asks only that a worker fails a job no earlier than it claimed it |
| JobTiming.BoundedOvertaking | makepdf/web/job_registry.py:288-318 | a pending job of a served kind is claimed or cancelled before the claim calls at or after its creation time exceed the claims that the jobs not younger have left or bring with them, plus their recovered leases |
| JobTiming.CreditIsRemainingAttempts | makepdf/web/job_registry.py:371-379 | for a never recovered job the claims left are at most max(1, max_attempts) minus its attempts |
| JobOutcomes.FailureIsFinal | makepdf/web/job_registry.py:365-380 | in every possible run a job is never claimed after its owner has failed it if the failure is not retryable, if it has been claimed max_attempts times by then, or if a cancellation was read |
| JobOutcomes.FailureIsRetried | makepdf/web/job_registry.py:371-379 | otherwise it waits, and a worker may start it exactly if it serves its kind and the delay is over |
| JobOutcomes.CompleteJobIsNamed | makepdf/web/job_registry.py:345-360 | every complete job was created by some call and completed by a later one, and its file name is the one that the completing call gave, or else the one it was created with |
| JobOutcomes.PayloadIsTheCreators | makepdf/web/job_registry.py:401-418 | a job has the payload it was created with until a purge expires it, and none from then on |
| JobOutcomes.ErrorIsTheLastFailures | makepdf/web/job_registry.py:375-379 | the error of a job is the beginning of the error text of the last failure that its owner reported; a job that no owner has failed has none |
| JobOutcomes.RowsArePresentable | makepdf/web/job_registry.py:244-253 | progress is between 0 and 100 and the stage and error texts keep to their lengths in every run |
| JobIdempotency.OneJobPerKey | makepdf/web/job_registry.py:92-93 | at most one job per tenant and key in every run |
| JobIdempotency.SameDigest | makepdf/web/job_registry.py:200-205 | the request digest agrees exactly for payloads that differ only in the three storage fields |
| JobIdempotency.ReplayReturnsTheOriginal | makepdf/web/job_registry.py:219-228 | any later submission under the same key leaves the table alone and returns the first job if it asks the same, and is refused otherwise, even after a purge |
| Resubmission.RetriedUploadIsReplayed | makepdf/web/job_registry.py:199-228 | after a submission has created its job, a later one of the tenant under the same key is answered with that job if kind, language and content digest agree, whatever document, file and directory the retried upload has got, and is refused if one of the three differs; among all other actions of the site, at any later time |
| WorkerProcess.Execute | makepdf/web/worker.py:53-92 | one renewal per turn that gives no reason to stop, then exactly one report, whose kind and arguments follow from what that turn saw and which saw the row as it was when it read it; afterwards the worker holds the job no longer |
| WorkerProcess.Turn | makepdf/web/worker.py:67-92 | one turn of the polling loop: the order of the checks and the call each exit makes |
| WorkerProcess.Serve | makepdf/web/worker.py:100-118 | the worker is sequential whatever the others do and the database answers its claims rightly; one recovery, then in each turn a sweep if more than 60 seconds have gone by, a claim, and the execution of the claimed job |
| WorkerOutcomes.ReportDecides | makepdf/web/worker.py:61-92 | what becomes of a job whose worker still owns it: delivered, it is complete with the child's file and keeps its name; after a failed child or a timeout it is retried exactly if attempts are left; after an invalid result it is failed for good; each with its error text |
| WorkerOutcomes.CancelledReport | makepdf/web/worker.py:68-92 | if its row showed a cancellation, the job is cancelled, whatever the report was |
| WorkerOutcomes.FollowsTheJob | makepdf/web/worker.py:66-83 | the worker goes on only while its child runs, the deadline is not over, and the job is there and not cancelled |
| WorkerOutcomes.StopsFor | makepdf/web/worker.py:66-91 | it stops for the end of its child before anything else, for a cancellation or a missing job before the deadline |
| WorkerOutcomes.LeaseLastsAMinute | makepdf/web/worker.py:82-83 | after every turn that goes on nobody finds the worker's lease run out until more than 60 seconds later |
| WorkerOutcomes.ClaimsForAMinute | makepdf/web/worker.py:24-114 | a job that the main loop claims is of one of the two submitted kinds and is leased for 60 seconds |
| WorkerOutcomes.SweepsByTheMinute | makepdf/web/worker.py:106-111 | the main loop purges in a turn exactly if more than 60 seconds have gone by since the turn of its last purge |
| LegalHold.HeldDocumentStays | makepdf/web/governance.py:115-158 | a held document keeps status, source and retention until the hold is lifted or a deletion that has passed its check goes on, and an active one stays active exactly till then |
| LegalHold.TicketsAreChecks | makepdf/web/governance.py:124-127 | a deletion is in progress exactly if some delete_document call found the document visible and not on hold |
| LegalHold.HeldDocumentIsLostExactly | makepdf/web/governance.py:124-146 | an active document on hold loses its status if and only if some delete_document call passed its check before the hold and goes on after it |
| LegalHold.HoldCanComeTooLate | makepdf/web/governance.py:124-146 | such a run from the empty tables: register, check, hold, delete |
| DocumentRights.OnlyItsOwnDelete | makepdf/web/governance.py:103-127 | a document that loses its active status in a run has been deleted by its owner or an administrator of its tenant, who found no hold |
| DocumentRights.OnlyAdministratorsHold | makepdf/web/governance.py:115-121 | the hold of a document changes only by an administrator of its own tenant, and then to what that call says |
| DocumentRights.WhoMayDelete | makepdf/web/governance.py:103-127 | a deletion is not found, refused for a hold, or done, each exactly if tenant, owner, role and hold say so |
| DocumentRights.WhoMayHold | makepdf/web/governance.py:115-119 | forbidden, not found or done, each exactly if role and tenant say so |
| DocumentRights.DocumentEvents | makepdf/web/governance.py:86-146 | registering, holding and deleting are audited under the name of who does it, and refused calls are not |
| DocumentRights.ListingIsExact | makepdf/web/governance.py:128-132 | the query of delete_document lists exactly the jobs of the tenant whose payload names the document |
| DocumentRights.DocumentsAreAsRegistered | makepdf/web/governance.py:86-146 | for good a document has the tenant, owner, digest and retention (of at least a day) that it was registered with; it has its file and is active or pending until a deletion of it finishes, and has none and is never active afterwards |
| Deletion.DeletionStops | makepdf/web/governance.py:128-140 | when a deletion finishes, every job that named the document when the jobs were listed is cancelled or settled, whatever else happened between its statements |
| Deletion.DeletionPropagates | makepdf/web/governance.py:124-146 | from then on no job that named the document at the listing is ever claimed, and one that is not complete is complete at some later position if and only if a complete_job call that had read it before then completes it; over all runs of registry calls and governance actions |
| Deletion.CancelledExactly | makepdf/web/governance.py:128-146 | at any position from the listing on, a job that then names the document is among those that the deletion cancels if and only if it was in the table at the listing |
| Deletion.ClaimedLater | makepdf/web/governance.py:128-146 | so a job that names the document and is claimed after the deletion has finished was submitted after the listing |
| DeletionRace.LateJobOutlivesDeletion | makepdf/web/governance.py:128-146 | such a run from the empty tables: register, check, list, submit, mark, finish, claim |
| DeletionRace.DeletedJobCanComplete | makepdf/web/governance.py:124-146 | a run from the empty tables in which a listed job completes after the deletion: register, submit, claim, read, delete, complete |
| Deletion.CallIsDeletion | makepdf/web/governance.py:124-158 | every delete_document call that runs to its end is such a deletion, whoever makes it: a user, a submit route or expire_documents |
| Deletion.StoppedForGood | makepdf/web/job_registry.py:303-354 | a cancelled or settled job is never claimed again, and a settled one that was not cancelled never becomes complete |
| Documents.SiteRunsAreRuns | makepdf/web/governance.py:86-158 | a run of governance actions is, for the job table, a run of registry calls, and every answer of the database in it is right |
| Deletion.SiteIsPossible | makepdf/web/governance.py:86-158 | with the positions of its reads it is a possible run of the queue, so the results above hold in it |
| DeleteCall.QuietDeletion | makepdf/web/governance.py:124-146 | the statements of delete_document have the effect of one step when nobody else acts |
| DeleteCall.QuietExpiry | makepdf/web/governance.py:149-158 | when nobody else acts, expire_documents deletes exactly the documents that it selected |
| CallOutcomes.CallDeletes | makepdf/web/governance.py:124-146 | a delete_document call that passes its check returns with the document deleted and emptied, whatever the others do between its statements |
| CallOutcomes.ExpiredAreGone | makepdf/web/governance.py:149-158 | no document that expire_documents has deleted is active when it returns |
| CallOutcomes.ExpiresAfterItsRetention | makepdf/web/governance.py:86-155 | a document that expire_documents selects, at any point of any run, was registered more than its retention days and more than a day ago |
| CallOutcomes.OnlyAHoldStopsExpiry | makepdf/web/governance.py:149-158 | the retention worker is refused a selected document by nothing but a hold set since |
| Governance.Office.RegisterDocument | makepdf/web/governance.py:86-100 | a new active document with at least one day of retention, and its audit event |
| Governance.Office.SetLegalHold | makepdf/web/governance.py:115-121 | administrators of the tenant only; changes the flag and nothing else of the document |
| Governance.Office.DeleteDocument | makepdf/web/governance.py:124-146 | refuses foreign and held documents; otherwise makes its statements in order, the others acting between any two of them, the listing and the mark included, and cancels exactly the jobs that name the document when they are listed |
| Governance.Office.ExpireDocuments | makepdf/web/governance.py:149-158 | selects exactly the active, unheld, overdue documents and deletes them one after the other while the others act, each deletion cancelling exactly the jobs that name its document when they are listed; it ends early exactly when a deletion is refused |
| Governance.Office.SubmitOcr | makepdf/web/routes/ocr_async.py:156-190 | quota, document, job and undo in order while the others act in between: over quota nothing changes; a new job is answered, a replay or refusal is undone, and an undo that finds a hold fails |
| Submission.NewSubmission | makepdf/web/routes/ocr_async.py:156-177 | a new request leaves one new job that names its document, and the document is live then if and only if no deletion of it came between the two steps |
| Submission.RefusedSubmission | makepdf/web/routes/ocr_async.py:178-190 | a replay or refusal creates no job; its undo passes if and only if nobody has put the document on hold, and then the document is not live any more; otherwise it stays without a job |
| CallOutcomes.SubmissionLeaves | makepdf/web/routes/ocr_async.py:156-190 | what the route answers and leaves: a new job, pending with the five payload fields, and the document untouched; or the earlier job or a refusal, and the document deleted again unless a hold makes the undo fail |
| CallOutcomes.SubmissionStores | makepdf/web/routes/ocr_async.py:158-176 | the document is kept for seven days, and the job carries owner, kind, key and file name of the request |
| Submission.SubmissionsConserve | makepdf/web/routes/ocr_async.py:203-237 | however submissions interleave, a run of the site whose registrations, creations and deletions of live documents all belong to finished submissions (a document with its new job, or a document that the undo has taken) leaves live documents less jobs as it found them |
| Metering.Meters.ConsumeQuota | makepdf/web/governance.py:20-41 | refused exactly when a counter would pass its limit, and then nothing changes |
| Metering.Meters.BillingUsage | makepdf/web/governance.py:44-83 | administrators and well-formed days only; reads the counters, and after the others have acted inserts the statement or returns the one that is there |
| Metering.QuotaIsNeverExceeded | makepdf/web/governance.py:39-41 | no counter passes its limit in any run; if the limits change, none passes a bound that they all keep to |
| Metering.QuotaConservation | makepdf/web/governance.py:28-32 | the three counters are the sums over the accepted calls of the tenant and day |
| Metering.StatementsAreFixed | makepdf/web/governance.py:54-76 | an exported statement never changes and stays a lower bound of the counters, even if calls are charged between its read of the counters and its insertion |
| AuditChain.BuiltIsAccepted | makepdf/web/job_registry.py:164-179 | every log that append_audit builds is accepted and holds exactly the given fields |
| AuditChain.AcceptedIsBuilt | makepdf/web/maintenance.py:48-67 | an accepted log is the one that append_audit builds from its fields |
| AuditChain.MaterialInjective | makepdf/web/job_registry.py:171-173 | the joined text determines the event although the details may contain the separator |
| AuditChain.LastHashDeterminesLog | makepdf/web/maintenance.py:46-67 | two accepted logs with the same last hash are equal event by event, or a collision of the hash or a preimage of the genesis value is exhibited |
| AuditChain.SeparatorsMatter | makepdf/web/job_registry.py:171-173 | for every event with a separator in an id, the action or the timestamp another event has the same hash after every log, whatever the hash function |
| AuditChain.MoveSeparator | makepdf/web/job_registry.py:171-173 | the other event: the separator moved to a neighbouring field, for each of the fields |
| AuditChain.AuditLog.AppendAudit | makepdf/web/job_registry.py:156-180 | appends one event that refers to the last hash |
| AuditChain.VerifyChain | makepdf/web/maintenance.py:46-67 | the walk accepts exactly the accepted logs and otherwise names the first event that does not fit |
| AuditChain.RefersTo | makepdf/web/maintenance.py:46-67 | in an accepted log the first event refers to 64 zeros and every other to the hash of the one before |
| AuditChain.MaterialText | makepdf/web/job_registry.py:171-173 | the hashed text is the hash before and the seven fields in their order, with bars between |
| Outline.AddBookmarks | makepdf/core/toc.py:99-119 | refuses exactly when some page is outside the document; otherwise every entry hangs under the nearest earlier entry of smaller level |
| Outline.NearestIsNearest | makepdf/core/toc.py:112-116 | no entry between that parent and the child has a smaller level |
| Outline.PopTo | makepdf/core/toc.py:112-116 | popping leaves that nearest smaller entry on top of the stack |
| Outline.BuildShows | makepdf/core/toc.py:99-118 | every item of the outline has the title of its entry and points to its page, counted from 0 |
| Outline.Results.WalkOutlines | makepdf/core/toc.py:219-244 | the recursion appends the flattening of the nested list |
| Outline.RoundTrip | makepdf/core/toc.py:61-119 | what comes back is every title and page in order, with the length of the parent chain as level |
| Outline.ExactRoundTrip | makepdf/core/toc.py:99-119 | the levels come back exactly if and only if they start at 0 and never rise by more than one |
| Outline.NormalisationIsIdempotent | makepdf/core/toc.py:99-119 | writing and extracting a second time changes nothing |
| Outline.DepthsAreWellFormed | makepdf/core/toc.py:219-244 | extracted levels are always well formed |
| RateLimit.Limiter.RateCheck | makepdf/web/ai_helpers.py:154-168 | prunes the bucket, refuses with the time until its oldest call is an hour old, or records the call |
| RateLimit.BucketsRefineHistory | makepdf/web/ai_helpers.py:154-165 | as long as the clock does not go back between the calls of one key, acceptance is exactly that fewer than 20 accepted calls of the key lie in the closed last hour |
| RateLimit.ClockMayGoBack | makepdf/web/ai_helpers.py:152-165 | if the clock goes back by at most b seconds between the calls of one key, a call is accepted whenever fewer than 20 accepted calls lie in the last hour and b seconds, and refused whenever 20 lie in the last hour less b seconds; so it is decided as the full history would, unless some accepted call is an hour old within b seconds |
| RateLimit.KeptIsBetween | makepdf/web/ai_helpers.py:152-159 | the calls that are kept are at least the accepted ones of the last hour less b seconds and at most those of the last hour and b seconds |
| RateLimit.ClockStepRefuses | makepdf/web/ai_helpers.py:152-165 | a run in which the clock goes back by 3700 seconds and is right again: a call is refused although one accepted call lies in the last hour |
| RateLimit.ClockStepAccepts | makepdf/web/ai_helpers.py:152-165 | a run in which the clock was 4900 seconds ahead for one call: a call is accepted although twenty accepted calls lie in the last hour |
| RateLimit.PruneIsWindow | makepdf/web/ai_helpers.py:158-159 | the pruned bucket is exactly the in-window suffix of the full history |
| RateLimit.AcceptedCallsAreSpaced | makepdf/web/ai_helpers.py:160-165 | accepted call i + 20 is more than 3600 seconds after accepted call i |
| RateLimit.AdviceIsOneSecondShort | makepdf/web/ai_helpers.py:161-165 | for every refusal: after exactly the advised seconds the window is still full, and one second later it is not |
| DownloadToken.DownloadKeys | makepdf/web/auth.py:219-235 | the configured ring if its active key is usable, otherwise the development key, or a refusal in production |
| DownloadToken.TokenRoundTrip | makepdf/web/auth.py:238-257 | with any later ring that holds the key, verification gives the signer back exactly while the clock is at most the clamped expiry, and exactly if key id and user id have no dot |
| DownloadToken.TokenIsBound | makepdf/web/auth.py:246-257 | a token that is still good verifies for other ids exactly if job and tenant read the same with a dot between, or a MAC collision is exhibited |
| DownloadToken.SignatureIsBound | makepdf/web/auth.py:238-257 | a token that carries the signature of another and is accepted has the user, expiry, job and tenant that were signed, or a MAC collision is exhibited |
| DownloadToken.SubjectIsBoth | makepdf/web/auth.py:241-241 | for job ids without a dot that is the same job and tenant |
| SqlRender.RowRoundTrip | makepdf/web/routes/smart_table.py:73-76 | reading a rendered VALUES list by the standard's literal rule gives the original cells |
| SqlRender.RenderingIsInjective | makepdf/web/routes/smart_table.py:73-76 | different rows render differently |
| SqlRender.InsertRoundTrip | makepdf/web/routes/smart_table.py:73-76 | the INSERT statement reads back as its row |
| SqlRender.DefinedAs | makepdf/web/routes/smart_table.py:66-70 | a column is defined by its quoted name and the SQL type of the first schema entry for it, TEXT if there is none |
| SqlRender.ToSql | makepdf/web/routes/smart_table.py:60-77 | one definition per column in order, and one statement per row that reads back as that row |
| Bates.AddBatesNumbers | makepdf/core/bates.py:163-252 | one label per page, counting up from the start, or an input error for an unknown position |
| Bates.AddBatesToBatch | makepdf/core/bates.py:255-359 | the labels of the files together are those of one document with all the pages, and each file gets as many as it has pages |
| Bates.LabelsContinue | makepdf/core/bates.py:325-352 | numbering goes on where it stopped |
| Bates.NumberShowsItself | makepdf/core/bates.py:56-56 | the padded numeric portion reads back as its number, negative ones included |
| Bates.NumberHasItsWidth | makepdf/core/bates.py:56-56 | it is as wide as asked for, sign included, and no wider unless the number needs it |
| Bates.LabelsAreDistinct | makepdf/core/bates.py:37-56 | different numbers have different labels |
| Bates.LabelOrderIsPageOrder | makepdf/core/bates.py:37-56 | labels sort in page order if and only if the first and last number have the same width, with the exact condition for negative starts |
| Bates.OrderedWithinDigits | makepdf/core/bates.py:37-56 | in particular from a start of -1 on while the last number is below 10^digits |

## Left out

- `run_job`: the in-process executor for development sets processing unconditionally and keeps none of the protocol.
- The audit event of a call is written in a transaction of its own after the update; in the model both happen in one step, so a crash between them is not covered.
- Removal of result and source files, also of documents on hold; the model speaks of rows only.
- `recover_stale_jobs(now)` with an explicit argument: `now` is the clock of the call here.
- JobTiming.BackoffSchedule: the clock of one worker does not go back between its claim of a job and its failure (`OwnClocks`).
- JobSafety.PurgeTwice: about a purge that nobody interrupts; interrupted ones are covered by the results about all runs.
- JobReads.ReachableRowsAreSane: worker ids are unique, as worker.py makes them: between the read and the write of a call no other call of the same worker is made.
- Text of JSON, SHA-256 and HMAC: the request digest is the pair of kind and semantic payload itself, and payload values are strings; the chain and the tokens take any function.
- AuditChain.VerifyChain and AuditChain.AuditLog.AppendAudit take the function from previous hash and fields to the event hash; `AuditChain.DigestOf` is the one that the source uses.
- AuditChain.SeparatorsMatter: details and timestamps are any strings, where the source writes JSON and the decimal text of a number; so an unclean timestamp cannot arise, and the other events it gives for the ids and the action keep details and timestamp.
- Metering.Meters.BillingUsage: the audit event of an export and the digest of the statement, which is a function of it.
- Governance.Office.SubmitOcr: the upload itself, and the checks of language and key length; charges of others to the quota come before or after the route's own, which is one transaction.
- Governance.Office.ExpireDocuments: the early end is an error raised out of `expire_documents`; what its caller does then is not modelled.
- WorkerProcess.Execute: launching and killing the child and its signals; the calls of expire_documents inside the sweep appear among the calls of the others. A stop signal ends the main loop between two turns, that is, the list of rounds.
- The OCR child's own calls of update_progress appear as calls of any process; no claim that completion implies a given percentage from the child.
- Heartbeats, listing, pagination and the identity tables.
- Outline.RoundTrip: the behaviour of pypdf is taken as `AddItem` (append as last child of the given item) and `Read` (each item, then the list of its children if there are any); the source has no outline before, and pages resolve.
- Bates: drawing; a batch stops at the first unreadable file, here all files are readable; a negative digits argument is an error of Python's format.
- DownloadToken.TokenRoundTrip: clocks are at least 0; `int()` also accepts Unicode digits and more kinds of white space than `Decimal.ParseInt`, which only matters for forged tokens; a malformed key ring raises an error.
- SqlRender: cells are NULL or the text that `str` makes of a value; table and column names are not escaped by the source, and statements are read back for the same table name.
- RateLimit: the HTTP error text, whose wait is the whole part of `RetryAfter`; the lock makes calls atomic; times are real numbers.
- Redaction, merging, watermarks, signing, encryption, comparison, the web application, templates, the command line and the AI prompts.
