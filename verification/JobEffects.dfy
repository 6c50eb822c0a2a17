/** What one registry call does to the columns of a job and to the audit log, and to whom: the statements
    of makepdf/web/job_registry.py, as a caller sees them. */
module JobEffects {
  import opened Options
  import opened JobTable
  import opened JobRuns

  // ---------------------------------------------------------------- creation

  /** A new job waits from now on, has never been tried, and stays until its TTL is over; nothing else in
      the table changes. A conflict changes nothing at all. */
  lemma CreationEffect(db: Db, c: Call)
    requires c.CreateJob?
    ensures var clash := c.newId in db.jobs
                         || (c.key.Some? && exists id :: id in db.jobs && db.jobs[id].tenantId == c.tenantId && db.jobs[id].key == c.key);
            if clash then Exec(db, c) == db
            else
              && c.newId in Exec(db, c).jobs
              && var r := Exec(db, c).jobs[c.newId];
              && Exec(db, c).jobs == db.jobs[c.newId := r]
              && Exec(db, c).audit == db.audit + [JobEvent(c.tenantId, c.userId, JobCreated, c.newId)]
              && r.tenantId == c.tenantId && r.userId == c.userId && r.kind == c.kind && r.payload == c.payload && r.key == c.key
              && r.filename == c.filename && r.maxAttempts == c.maxAttempts
              && r.status == Pending && r.attempts == 0 && r.progress == 0 && r.stage == "Queued" && !r.cancelRequested
              && r.resultPath == None && r.resultSha == None && r.error == None && r.leaseOwner == None && r.leaseUntil == None
              && r.createdAt == r.updatedAt == r.availableAt == c.now && r.expiresAt == c.now + c.ttl as real
  {
    assert StepRows(db, c) == db.jobs;
  }

  // ---------------------------------------------------------------- recovery

  /** The lease has run out and nobody has asked for the job to be cancelled. */
  predicate RanOut(r: Row, now: Time) {
    r.status == Processing && !r.cancelRequested && r.leaseUntil.Some? && r.leaseUntil.value < now
  }

  /** The jobs whose worker has let its lease run out. */
  function LeftBehind(db: Db, now: Time): set<JobId> {
    set id | id in db.jobs && RanOut(db.jobs[id], now)
  }

  /** The job is handed back: it has no owner and no lease, and is due at once. */
  predicate HandedBack(r: Row, r1: Row, now: Time) {
    && r1.status == Retry && r1.leaseOwner == None && r1.leaseUntil == None && r1.availableAt == r1.updatedAt == now
    && r1.stage == "Recovered after worker restart"
    && r == r1.(status := r.status, stage := r.stage, leaseOwner := r.leaseOwner, leaseUntil := r.leaseUntil,
                availableAt := r.availableAt, updatedAt := r.updatedAt)
  }

  lemma SweepRow(r: Row, now: Time, id: JobId)
    ensures var r1 := RowStep(r, RecoverStale(now), id);
            && (if RanOut(r, now) then HandedBack(r, r1, now) else r1 == r)
            && !RanOut(r1, now) && RowStep(r1, RecoverStale(now), id) == r1
  {
  }

  /** A sweep hands every job back whose lease has run out and that is not cancelled, and touches no
      other; so an immediate second one finds nothing. */
  lemma SweepRecoversAll(db: Db, now: Time)
    ensures var swept := Exec(db, RecoverStale(now));
            && swept.jobs.Keys == db.jobs.Keys && swept.audit == db.audit
            && (forall id :: id in db.jobs ==>
                               if id in LeftBehind(db, now) then HandedBack(db.jobs[id], swept.jobs[id], now)
                               else swept.jobs[id] == db.jobs[id])
            && LeftBehind(swept, now) == {} && Exec(swept, RecoverStale(now)) == swept
  {
    var swept := Exec(db, RecoverStale(now));
    forall id | id in db.jobs
      ensures swept.jobs[id] == RowStep(db.jobs[id], RecoverStale(now), id)
      ensures if RanOut(db.jobs[id], now) then HandedBack(db.jobs[id], swept.jobs[id], now) else swept.jobs[id] == db.jobs[id]
      ensures !RanOut(swept.jobs[id], now) && RowStep(swept.jobs[id], RecoverStale(now), id) == swept.jobs[id]
    {
      SweepRow(db.jobs[id], now, id);
    }
    assert StepRows(swept, RecoverStale(now)) == swept.jobs;
  }

  // ---------------------------------------------------------------- claims

  /** A worker of these kinds may start the job now: it waits and is due, or its lease has run out. */
  predicate Startable(r: Row, now: Time, kinds: seq<string>) {
    && !r.cancelRequested && (exists k :: 0 <= k < |kinds| && kinds[k] == r.kind)
    && (RanOut(r, now) || ((r.status == Pending || r.status == Retry) && r.availableAt <= now))
  }

  /** The worker has the job for `lease` seconds, and it counts as one more attempt. */
  predicate Taken(r: Row, r1: Row, c: Call)
    requires c.ClaimNext?
  {
    && r1.status == Processing && r1.attempts == r.attempts + 1 && r1.progress == 1 && r1.stage == "Claimed by isolated worker"
    && r1.leaseOwner == Some(c.worker) && r1.leaseUntil == Some(c.now + c.lease as real) && r1.updatedAt == c.now
    && r1.availableAt == (if r.status == Processing then c.now else r.availableAt)
    && r == r1.(status := r.status, attempts := r.attempts, progress := r.progress, stage := r.stage, leaseOwner := r.leaseOwner,
                leaseUntil := r.leaseUntil, availableAt := r.availableAt, updatedAt := r.updatedAt)
  }

  lemma StartableIsClaimable(r: Row, now: Time, kinds: seq<string>)
    ensures Startable(r, now, kinds) <==> Claimable(RecoverIfStale(r, now), now, kinds)
  {
  }

  /** A claim takes a job of one of the given kinds that may be started, and none that may be started is
      older; it takes none only if there is none. Every other job is handed back if its lease has run
      out, and is otherwise left alone. */
  lemma ClaimTakesTheOldest(db: Db, c: Call, id: JobId)
    requires c.ClaimNext? && c.kinds != [] && Enabled(db, c) && id in db.jobs
    ensures var r, r1 := db.jobs[id], Exec(db, c).jobs[id];
            && Exec(db, c).jobs.Keys == db.jobs.Keys && Exec(db, c).audit == db.audit
            && (if c.pick == Some(id) then Startable(r, c.now, c.kinds) && Taken(r, r1, c)
                else if RanOut(r, c.now) then HandedBack(r, r1, c.now)
                else r1 == r)
            && (Startable(r, c.now, c.kinds) ==>
                  c.pick.Some? && c.pick.value in db.jobs && db.jobs[c.pick.value].createdAt <= r.createdAt)
  {
    StartableIsClaimable(db.jobs[id], c.now, c.kinds);
  }

  /** A worker that serves nothing claims nothing and recovers nothing. */
  lemma NoKindsNoClaim(db: Db, c: Call)
    requires c.ClaimNext? && c.kinds == [] && Enabled(db, c)
    ensures c.pick == None && Exec(db, c) == db
  {
    assert StepRows(db, c) == db.jobs;
  }

  // ---------------------------------------------------------------- calls about one job

  /** The job that a call names. */
  function Target(c: Call): Option<JobId> {
    match c
    case RenewLease(_, id, _, _) => Some(id)
    case RequestCancel(_, id, _, _) => Some(id)
    case CompleteJob(_, id, _, _, _, _, _) => Some(id)
    case FailJob(_, id, _, _, _, _) => Some(id)
    case UpdateProgress(_, id, _, _, _) => Some(id)
    case ExpireJob(_, id, _) => Some(id)
    case _ => None
  }

  /** A call changes no job but the one that it names, and adds none. */
  lemma OtherJobsStay(db: Db, c: Call)
    requires Target(c).Some? || c.AppendNote?
    ensures Exec(db, c).jobs.Keys == db.jobs.Keys
    ensures forall id :: id in db.jobs && Target(c) != Some(id) ==> Exec(db, c).jobs[id] == db.jobs[id]
    ensures c.AppendNote? ==> Exec(db, c).audit == db.audit + [OtherEvent(c.tenantId, c.userId, c.name, c.resource)]
  {
  }

  predicate Owned(r: Row, w: Worker) {
    r.leaseOwner == Some(w)
  }

  /** Exactly the owner of a processing job moves the end of its lease. */
  lemma RenewalEffect(db: Db, c: Call)
    requires c.RenewLease? && c.id in db.jobs
    ensures var r, r1 := db.jobs[c.id], Exec(db, c).jobs[c.id];
            && Exec(db, c).audit == db.audit
            && (if r.status == Processing && Owned(r, c.worker)
                then
                  && r1.leaseUntil == Some(c.now + c.lease as real) && r1.updatedAt == c.now
                  && r == r1.(leaseUntil := r.leaseUntil, updatedAt := r.updatedAt)
                else r1 == r)
  {
  }

  predicate Running(s: Status) {
    s == Pending || s == Processing || s == Retry
  }

  /** Only its own tenant cancels a job, and only while it waits or runs: a waiting one is cancelled at
      once, a running one goes on until its worker sees the request. */
  lemma CancellationEffect(db: Db, c: Call)
    requires c.RequestCancel? && c.id in db.jobs
    ensures var r, r1 := db.jobs[c.id], Exec(db, c).jobs[c.id];
            if r.tenantId == c.tenantId && Running(r.status)
            then
              && r1.cancelRequested && r1.status == (if r.status == Processing then Processing else Cancelled)
              && r1.stage == "Cancellation requested" && r1.updatedAt == c.now
              && r == r1.(cancelRequested := r.cancelRequested, status := r.status, stage := r.stage, updatedAt := r.updatedAt)
              && Exec(db, c).audit == db.audit + [JobEvent(c.tenantId, c.userId, JobCancelled, c.id)]
            else r1 == r && Exec(db, c).audit == db.audit
  {
  }

  /** A completion that has read no cancellation gives the owner's processing job its result and keeps the
      name it has unless there is a new one; one that has read a cancellation only marks the job. */
  lemma CompletionEffect(db: Db, c: Call)
    requires c.CompleteJob? && c.id in db.jobs
    ensures var r, r1 := db.jobs[c.id], Exec(db, c).jobs[c.id];
            if c.seenCancel
            then
              && r1.status == Cancelled && r1.stage == "Cancelled" && r1.updatedAt == c.now
              && r == r1.(status := r.status, stage := r.stage, updatedAt := r.updatedAt) && Exec(db, c).audit == db.audit
            else if r.status == Processing && Owned(r, c.worker)
            then
              && r1.status == Complete && r1.resultPath == Some(c.path) && r1.resultSha == Some(c.sha)
              && (c.filename == None ==> r1.filename == r.filename) && (c.filename.Some? ==> r1.filename == c.filename)
              && r1.progress == 100 && r1.stage == "Done" && r1.leaseOwner == None && r1.leaseUntil == None && r1.updatedAt == c.now
              && r == r1.(status := r.status, resultPath := r.resultPath, resultSha := r.resultSha, filename := r.filename,
                          progress := r.progress, stage := r.stage, leaseOwner := r.leaseOwner, leaseUntil := r.leaseUntil,
                          updatedAt := r.updatedAt)
              && Exec(db, c).audit == db.audit + [JobEvent(r.tenantId, r.userId, JobCompleted, c.id)]
            else r1 == r && Exec(db, c).audit == db.audit
  {
  }

  /** The job may be tried again, going by what fail_job has read. */
  predicate TriesAgain(c: Call)
    requires c.FailJob?
  {
    c.retryable && !c.seen.cancelRequested && c.seen.attempts < c.seen.maxAttempts
  }

  /** `longer` cut to n characters at most. */
  predicate CutTo(s: string, longer: string, n: nat) {
    s <= longer && |s| <= n && (|longer| <= n ==> s == longer) && (|longer| > n ==> |s| == n)
  }

  /** A failure that its owner reports takes the job out of its hands: it waits for another attempt if the
      failure is retryable, attempts are left and no cancellation was read, and is over otherwise. The
      audit event says the same, also when the row is not the worker's and stays as it is. */
  lemma FailureEffect(db: Db, c: Call)
    requires c.FailJob? && c.id in db.jobs
    ensures var r, r1 := db.jobs[c.id], Exec(db, c).jobs[c.id];
            && Exec(db, c).audit == db.audit
               + [JobEvent(r.tenantId, r.userId,
                           if TriesAgain(c) then JobRetry else if c.seen.cancelRequested then JobCancelled else JobFailed, c.id)]
            && (if Owned(r, c.worker)
                then
                  && r1.status == (if TriesAgain(c) then Retry else if c.seen.cancelRequested then Cancelled else Failed)
                  && r1.stage == (if TriesAgain(c) then "Retry scheduled" else if c.seen.cancelRequested then "Cancelled" else "Failed")
                  && r1.availableAt == c.now + (if TriesAgain(c) then Delay(c.seen.attempts) as real else 0.0)
                  && r1.error.Some? && CutTo(r1.error.value, c.error, 1000)
                  && r1.leaseOwner == None && r1.leaseUntil == None && r1.updatedAt == c.now
                  && r == r1.(status := r.status, error := r.error, stage := r.stage, availableAt := r.availableAt,
                              leaseOwner := r.leaseOwner, leaseUntil := r.leaseUntil, updatedAt := r.updatedAt)
                else r1 == r)
  {
  }

  /** Progress is a percentage and its text is cut; a worker that gives its name must own the job. */
  lemma ProgressEffect(db: Db, c: Call)
    requires c.UpdateProgress? && c.id in db.jobs
    ensures var r, r1 := db.jobs[c.id], Exec(db, c).jobs[c.id];
            && Exec(db, c).audit == db.audit
            && (if c.owner == None || c.owner.value == "" || Owned(r, c.owner.value)
                then
                  && 0 <= r1.progress <= 100 && (0 <= c.percent <= 100 ==> r1.progress == c.percent)
                  && (c.percent < 0 ==> r1.progress == 0) && (c.percent > 100 ==> r1.progress == 100)
                  && CutTo(r1.stage, c.stage, 200) && r1.updatedAt == c.now
                  && r == r1.(progress := r.progress, stage := r.stage, updatedAt := r.updatedAt)
                else r1 == r)
  {
  }

  /** An expired job has lost its result and its payload, and keeps everything else. */
  lemma ExpiryEffect(db: Db, c: Call)
    requires c.ExpireJob? && c.id in db.jobs
    ensures var r, r1 := db.jobs[c.id], Exec(db, c).jobs[c.id];
            && r1.status == Expired && r1.resultPath == None && r1.payload == map[] && r1.stage == "Expired and deleted"
            && r1.updatedAt == c.now
            && r == r1.(status := r.status, resultPath := r.resultPath, payload := r.payload, stage := r.stage, updatedAt := r.updatedAt)
            && Exec(db, c).audit == db.audit + [JobEvent(r.tenantId, r.userId, JobExpired, c.id)]
  {
  }

  /** A purge selects the settled jobs whose time is over: those complete, failed or cancelled whose expiry
      lies before its time, or so many seconds before its time as it was told. */
  lemma PurgeSelects(r: Row, now: Time, maxAge: Option<int>)
    ensures Purgeable(r, now, maxAge) <==>
            && (r.status == Complete || r.status == Failed || r.status == Cancelled)
            && (maxAge == None ==> r.expiresAt < now) && (maxAge.Some? ==> r.expiresAt + maxAge.value as real < now)
  {
  }

  /** Whatever changes in a job, `updated_at` is the time of the call that changed it. */
  lemma ChangesAreStamped(db: Db, c: Call, id: JobId)
    requires id in db.jobs && Exec(db, c).jobs[id] != db.jobs[id]
    ensures Exec(db, c).jobs[id].updatedAt == c.now
  {
    ExecRow(db, c, id);
  }

  /** What create_job answers: the new job if nothing clashes; an error if something does and there is no
      key; else the job of the tenant that holds the key, or a refusal. */
  lemma CreateAnswers(db: Db, c: Call, o: CreateOutcome)
    requires c.CreateJob? && Returns(db, c, o)
    ensures var holds := (id: JobId) => id in db.jobs && c.key.Some? && db.jobs[id].tenantId == c.tenantId && db.jobs[id].key == c.key;
            var clash := c.newId in db.jobs || exists id :: id in db.jobs && holds(id);
            && (!clash <==> o == Created(c.newId))
            && (clash && (c.key == None || c.key == Some("")) <==> o == IntegrityError)
            && (o.Replayed? ==> holds(o.id))
  {
  }
}
