/** Three corners of the registry, each with the exact condition under which it shows. */
module JobCorners {
  import opened Options
  import opened JobTable
  import opened JobRuns
  import opened JobSafety
  import opened JobLeases
  import opened JobReads

  // ---------------------------------------------------------------- an expired job can come back

  /** The call takes an expired job out of that status: it reports a cancellation it has read, or fails
      the job for the owner that a cancelled job keeps. */
  predicate Revives(r: Row, c: Call, id: JobId) {
    Reverts(c, id) || (c.FailJob? && c.id == id && r.leaseOwner == Some(c.worker))
  }

  predicate RevivedBy(calls: seq<Call>, i: nat, id: JobId)
    requires i < |calls|
  {
    id in At(calls, i).jobs && Revives(At(calls, i).jobs[id], calls[i], id)
  }

  predicate ExpiredAt(calls: seq<Call>, k: nat, id: JobId)
    requires k <= |calls|
  {
    id in At(calls, k).jobs && At(calls, k).jobs[id].status == Expired
  }

  lemma ExpiredStep(r: Row, c: Call, id: JobId)
    requires r.status == Expired && RowEnabled(r, c, id)
    ensures RowStep(r, c, id).status == Expired <==> !Revives(r, c, id)
  {
  }

  lemma ExpiredOneMore(calls: seq<Call>, k: nat, id: JobId)
    requires Valid(EMPTY_DB, calls) && k < |calls| && ExpiredAt(calls, k, id)
    ensures ExpiredAt(calls, k + 1, id) <==> !RevivedBy(calls, k, id)
  {
    StepAt(calls, k, id);
    ExpiredStep(At(calls, k).jobs[id], calls[k], id);
  }

  lemma {:induction false} ExpiredUnlessRevived(calls: seq<Call>, n: nat, k: nat, id: JobId)
    requires Valid(EMPTY_DB, calls) && n <= k <= |calls| && ExpiredAt(calls, n, id)
    requires forall i :: n <= i < k ==> !RevivedBy(calls, i, id)
    ensures ExpiredAt(calls, k, id)
    decreases k
  {
    if n < k {
      ExpiredUnlessRevived(calls, n, k - 1, id);
      ExpiredOneMore(calls, k - 1, id);
    }
  }

  /** An expired job stays expired for the rest of the run if and only if no complete_job that has read a
      cancellation of it is written, and no fail_job by a worker that its row still names. */
  lemma ExpiryIsFinalExactly(calls: seq<Call>, n: nat, id: JobId)
    requires Valid(EMPTY_DB, calls) && n <= |calls| && ExpiredAt(calls, n, id)
    ensures (forall k :: n <= k <= |calls| ==> ExpiredAt(calls, k, id))
            <==> (forall i :: n <= i < |calls| ==> !RevivedBy(calls, i, id))
  {
    if forall i :: n <= i < |calls| ==> !RevivedBy(calls, i, id) {
      forall k | n <= k <= |calls| ensures ExpiredAt(calls, k, id) { ExpiredUnlessRevived(calls, n, k, id); }
    }
    if forall k :: n <= k <= |calls| ==> ExpiredAt(calls, k, id) {
      forall i | n <= i < |calls| ensures !RevivedBy(calls, i, id) {
        assert ExpiredAt(calls, i, id) && ExpiredAt(calls, i + 1, id);
        ExpiredOneMore(calls, i, id);
      }
    }
  }

  // ---------------------------------------------------------------- a cancelled job waits for a worker

  /** A worker ends a cancelled job that is processing. */
  predicate Ends(r: Row, c: Call, id: JobId) {
    || (c.CompleteJob? && c.id == id && (c.seenCancel || r.leaseOwner == Some(c.worker)))
    || (c.FailJob? && c.id == id && r.leaseOwner == Some(c.worker))
  }

  predicate EndedBy(calls: seq<Call>, i: nat, id: JobId)
    requires i < |calls|
  {
    id in At(calls, i).jobs && Ends(At(calls, i).jobs[id], calls[i], id)
  }

  /** The job is cancelled and still processing. */
  predicate HangsAt(calls: seq<Call>, k: nat, id: JobId)
    requires k <= |calls|
  {
    id in At(calls, k).jobs && At(calls, k).jobs[id].cancelRequested && At(calls, k).jobs[id].status == Processing
  }

  lemma HangsStep(r: Row, c: Call, id: JobId)
    requires r.cancelRequested && r.status == Processing && RowEnabled(r, c, id) && RowHonest(r, c, id)
    ensures RowStep(r, c, id).cancelRequested && (RowStep(r, c, id).status == Processing <==> !Ends(r, c, id))
  {
  }

  lemma HangsOneMore(calls: seq<Call>, k: nat, id: JobId)
    requires Valid(EMPTY_DB, calls) && k < |calls| && Honest(At(calls, k), calls[k]) && HangsAt(calls, k, id)
    ensures HangsAt(calls, k + 1, id) <==> !EndedBy(calls, k, id)
  {
    StepAt(calls, k, id);
    ExecRow(At(calls, k), calls[k], id);
    HangsStep(At(calls, k).jobs[id], calls[k], id);
  }

  lemma HonestAt(calls: seq<Call>, at: seq<nat>, k: nat)
    requires Possible(calls, at) && k < |calls|
    ensures Valid(EMPTY_DB, calls) && Honest(At(calls, k), calls[k])
  {
    PrefixIsHonest(calls, at, k);
    ReadIsHonest(calls, at, k);
  }

  lemma {:induction false} HangsUnlessEnded(calls: seq<Call>, at: seq<nat>, n: nat, k: nat, id: JobId)
    requires Possible(calls, at) && n <= k <= |calls| && HangsAt(calls, n, id)
    requires forall i :: n <= i < k ==> !EndedBy(calls, i, id)
    ensures HangsAt(calls, k, id)
    decreases k
  {
    if n < k {
      HangsUnlessEnded(calls, at, n, k - 1, id);
      HonestAt(calls, at, k - 1);
      HangsOneMore(calls, k - 1, id);
    }
  }

  /** A cancelled job that is processing stays so for the rest of the run if and only if its owner neither
      completes nor fails it and no complete_job that has read the cancellation is written: recovery does
      not touch it, so when its worker dies it hangs. */
  lemma CancelledJobHangsExactly(calls: seq<Call>, at: seq<nat>, n: nat, id: JobId)
    requires Possible(calls, at) && n <= |calls| && HangsAt(calls, n, id)
    ensures (forall k :: n <= k <= |calls| ==> HangsAt(calls, k, id))
            <==> (forall i :: n <= i < |calls| ==> !EndedBy(calls, i, id))
  {
    if forall i :: n <= i < |calls| ==> !EndedBy(calls, i, id) {
      forall k | n <= k <= |calls| ensures HangsAt(calls, k, id) { HangsUnlessEnded(calls, at, n, k, id); }
    }
    if forall k :: n <= k <= |calls| ==> HangsAt(calls, k, id) {
      forall i | n <= i < |calls| ensures !EndedBy(calls, i, id) {
        assert HangsAt(calls, i, id) && HangsAt(calls, i + 1, id);
        HonestAt(calls, at, i);
        HangsOneMore(calls, i, id);
      }
    }
  }

  // ---------------------------------------------------------------- fail_job audits without effect

  /** fail_job has found the row of the job and decided on this action. */
  predicate FailsAs(db: Db, c: Call, id: JobId, action: JobAction) {
    c.FailJob? && c.id == id && id in db.jobs && FailAction(FailStatus(c.seen, c.retryable)) == action
  }

  predicate OwnerFails(db: Db, c: Call, id: JobId, action: JobAction) {
    FailsAs(db, c, id, action) && Owns(db, id, c.worker)
  }

  predicate OtherFails(db: Db, c: Call, id: JobId, action: JobAction) {
    FailsAs(db, c, id, action) && !Owns(db, id, c.worker)
  }

  /** The number of calls of the run that fail the job with effect, without effect, and of accepted
      cancellations. */
  function Failures(db: Db, calls: seq<Call>, id: JobId, action: JobAction): nat
    decreases |calls|
  {
    if calls == [] then 0
    else (if OwnerFails(db, calls[0], id, action) then 1 else 0) + Failures(Exec(db, calls[0]), calls[1..], id, action)
  }

  function IdleFailures(db: Db, calls: seq<Call>, id: JobId, action: JobAction): nat
    decreases |calls|
  {
    if calls == [] then 0
    else (if OtherFails(db, calls[0], id, action) then 1 else 0) + IdleFailures(Exec(db, calls[0]), calls[1..], id, action)
  }

  function Cancellations(db: Db, calls: seq<Call>, id: JobId): nat
    decreases |calls|
  {
    if calls == [] then 0
    else (if CancelsJob(db, calls[0], id) then 1 else 0) + Cancellations(Exec(db, calls[0]), calls[1..], id)
  }

  lemma FailureStep(db: Db, c: Call, id: JobId, action: JobAction)
    requires action in {JobRetry, JobFailed, JobCancelled}
    ensures EventsOf(Exec(db, c).audit, id, action) ==
            EventsOf(db.audit, id, action) + (if FailsAs(db, c, id, action) then 1 else 0)
            + (if action == JobCancelled && CancelsJob(db, c, id) then 1 else 0)
    ensures c.FailJob? && c.id == id && id in db.jobs && !Owns(db, id, c.worker) ==>
              id in Exec(db, c).jobs && Exec(db, c).jobs[id] == db.jobs[id]
  {
    ExecRow(db, c, id);
    EventsAppend(db.audit, AuditOf(db, c), id, action);
    assert AuditOf(db, c) != [] ==> AuditOf(db, c)[1..] == [];
  }

  /** The retry, failed and cancelled events of a job exceed its effective failures and accepted
      cancellations by exactly the fail_job calls of workers that did not own it; these change nothing. */
  lemma {:induction false} IdleFailuresAreAudited(db: Db, calls: seq<Call>, id: JobId, action: JobAction)
    requires action in {JobRetry, JobFailed, JobCancelled}
    ensures EventsOf(Run(db, calls).audit, id, action) ==
            EventsOf(db.audit, id, action) + Failures(db, calls, id, action) + IdleFailures(db, calls, id, action)
            + (if action == JobCancelled then Cancellations(db, calls, id) else 0)
    decreases |calls|
  {
    if calls != [] {
      FailureStep(db, calls[0], id, action);
      IdleFailuresAreAudited(Exec(db, calls[0]), calls[1..], id, action);
    }
  }
}
