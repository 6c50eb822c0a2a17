/** What becomes of a job, over whole runs: which failures are final, and which call each column of its row
    comes from. */
module JobOutcomes {
  import opened Options
  import opened JobTable
  import opened JobRuns
  import opened JobSafety
  import opened JobReads
  import opened Deletion
  import opened JobEffects

  // ---------------------------------------------------------------- failures

  /** The owner of the job reports a failure of it by calls[i]. */
  predicate FailsFor(calls: seq<Call>, i: nat, id: JobId)
    requires i < |calls|
  {
    calls[i].FailJob? && calls[i].id == id && id in At(calls, i).jobs && Owned(At(calls, i).jobs[id], calls[i].worker)
  }

  lemma FailedRowIsStopped(r: Row, c: Call, id: JobId)
    requires c.FailJob? && c.id == id && Owned(r, c.worker) && RowHonest(r, c, id) && !TriesAgain(c)
    ensures Stopped(RowStep(r, c, id))
  {
  }

  lemma FinalFailureStops(calls: seq<Call>, at: seq<nat>, i: nat, id: JobId)
    requires Possible(calls, at) && i < |calls| && FailsFor(calls, i, id) && !TriesAgain(calls[i])
    ensures StoppedIn(At(calls, i + 1), id)
  {
    PrefixIsHonest(calls, at, i + 1);
    RunOneMore(EMPTY_DB, calls, i);
    ExecRow(At(calls, i), calls[i], id);
    FailedRowIsStopped(At(calls, i).jobs[id], calls[i], id);
  }

  lemma StoppedIsNotClaimed(calls: seq<Call>, at: seq<nat>, n: nat, id: JobId)
    requires Possible(calls, at) && n <= |calls| && StoppedIn(At(calls, n), id)
    ensures ClaimsOf(calls[n..], id) == 0
  {
    ReachableRowsAreSane(calls, at);
    PrefixIsHonest(calls, at, n);
    RunSplit(EMPTY_DB, calls, n);
    StoppedForGood(At(calls, n), calls[n..], id);
  }

  /** What fail_job reads is what the row holds when its owner writes, but for a cancellation since. */
  lemma FailureSaw(calls: seq<Call>, at: seq<nat>, i: nat, id: JobId)
    requires Possible(calls, at) && i < |calls| && FailsFor(calls, i, id)
    ensures var r := At(calls, i).jobs[id];
            calls[i].seen.attempts == r.attempts == ClaimsOf(calls[..i], id) && calls[i].seen.maxAttempts == r.maxAttempts
  {
    PrefixIsHonest(calls, at, i);
    ReadIsHonest(calls, at, i);
    AttemptsCountClaims(EMPTY_DB, calls[..i], id);
  }

  /** A job is never claimed after its owner has failed it for good: if the failure is not retryable, if the
      job has been claimed max_attempts times by then, or if fail_job has read a cancellation. */
  lemma FailureIsFinal(calls: seq<Call>, at: seq<nat>, i: nat, id: JobId)
    requires Possible(calls, at) && i < |calls| && FailsFor(calls, i, id)
    requires !calls[i].retryable || At(calls, i).jobs[id].maxAttempts <= ClaimsOf(calls[..i], id) || calls[i].seen.cancelRequested
    ensures ClaimsOf(calls[i + 1..], id) == 0
  {
    FailureSaw(calls, at, i, id);
    FinalFailureStops(calls, at, i, id);
    StoppedIsNotClaimed(calls, at, i + 1, id);
  }

  /** Otherwise it waits, and a worker of its kind may start it once the delay is over. */
  lemma FailureIsRetried(calls: seq<Call>, at: seq<nat>, i: nat, id: JobId, now: Time, kinds: seq<string>)
    requires Possible(calls, at) && i < |calls| && FailsFor(calls, i, id) && !At(calls, i).jobs[id].cancelRequested
    requires calls[i].retryable && ClaimsOf(calls[..i], id) < At(calls, i).jobs[id].maxAttempts
    ensures id in At(calls, i + 1).jobs && At(calls, i + 1).jobs[id].status == Retry
    ensures Startable(At(calls, i + 1).jobs[id], now, kinds) <==>
              calls[i].now + Delay(ClaimsOf(calls[..i], id)) as real <= now && At(calls, i).jobs[id].kind in kinds
  {
    FailureSaw(calls, at, i, id);
    PrefixIsHonest(calls, at, i);
    ReadIsHonest(calls, at, i);
    RunOneMore(EMPTY_DB, calls, i);
    ExecRow(At(calls, i), calls[i], id);
    RetryIsStartable(At(calls, i).jobs[id], calls[i], id, now, kinds);
  }

  lemma RetryIsStartable(r: Row, c: Call, id: JobId, now: Time, kinds: seq<string>)
    requires c.FailJob? && c.id == id && Owned(r, c.worker) && TriesAgain(c) && !r.cancelRequested
    ensures RowStep(r, c, id).status == Retry
    ensures Startable(RowStep(r, c, id), now, kinds) <==> c.now + Delay(c.seen.attempts) as real <= now && r.kind in kinds
  {
  }

  // ---------------------------------------------------------------- the name of the result

  /** Before a job is finished its file name is the one it was created with. */
  predicate Named(r: Row, filename: Option<string>) {
    JobSafety.Finished(r) || r.filename == filename
  }

  lemma NamedStep(r: Row, c: Call, id: JobId, filename: Option<string>)
    requires Named(r, filename) && RowEnabled(r, c, id)
    ensures Named(RowStep(r, c, id), filename)
  {
    FinishedStep(r, c, id);
  }

  lemma {:induction false} NamedUntilFinished(db: Db, calls: seq<Call>, id: JobId, filename: Option<string>)
    requires Valid(db, calls) && id in db.jobs && Named(db.jobs[id], filename)
    ensures id in Run(db, calls).jobs && Named(Run(db, calls).jobs[id], filename)
    decreases |calls|
  {
    if calls != [] {
      ExecRow(db, calls[0], id);
      NamedStep(db.jobs[id], calls[0], id, filename);
      NamedUntilFinished(Exec(db, calls[0]), calls[1..], id, filename);
    }
  }

  lemma CompleteKeepsName(r: Row, c: Call, id: JobId)
    requires RowEnabled(r, c, id) && !(c.CompleteJob? && c.id == id && Completes(r, c.worker, c.seenCancel))
    ensures RowStep(r, c, id).filename == r.filename
  {
  }

  /** Only a completion changes the file name of a job. */
  lemma {:induction false} NameStays(db: Db, calls: seq<Call>, id: JobId)
    requires Valid(db, calls) && id in db.jobs && CompletionsOf(db, calls, id) == 0
    ensures id in Run(db, calls).jobs && Run(db, calls).jobs[id].filename == db.jobs[id].filename
    decreases |calls|
  {
    if calls != [] {
      ExecRow(db, calls[0], id);
      CompleteKeepsName(db.jobs[id], calls[0], id);
      NameStays(Exec(db, calls[0]), calls[1..], id);
    }
  }

  /** calls[first] creates the job. */
  predicate CreatedBy(calls: seq<Call>, first: nat, id: JobId)
    requires first < |calls|
  {
    calls[first].CreateJob? && calls[first].newId == id && !Conflicts(At(calls, first), calls[first])
  }

  lemma RowBefore(calls: seq<Call>, first: nat, i: nat, id: JobId)
    requires Valid(EMPTY_DB, calls) && first < i <= |calls| && CreatedBy(calls, first, id)
    ensures Valid(At(calls, first + 1), calls[first + 1..i]) && At(calls, i) == Run(At(calls, first + 1), calls[first + 1..i])
    ensures id in At(calls, first + 1).jobs && At(calls, first + 1).jobs[id] == NewRow(calls[first])
  {
    RunOneMore(EMPTY_DB, calls, first);
    ExecRow(At(calls, first), calls[first], id);
    RunSplit(EMPTY_DB, calls, i);
    Segment(calls, first + 1, i);
  }

  /** The file name in the row of the job after n calls. */
  function NameAt(calls: seq<Call>, n: nat, id: JobId): Option<string>
    requires n <= |calls|
  {
    if id in At(calls, n).jobs then At(calls, n).jobs[id].filename else None
  }

  predicate FinishedAt(calls: seq<Call>, n: nat, id: JobId)
    requires n <= |calls|
  {
    id in At(calls, n).jobs && JobSafety.Finished(At(calls, n).jobs[id])
  }

  /** calls[i] completes the job. */
  predicate CompletedBy(calls: seq<Call>, i: nat, id: JobId)
    requires i < |calls|
  {
    calls[i].CompleteJob? && CompletesJob(At(calls, i), calls[i], id)
  }

  lemma NameBefore(calls: seq<Call>, first: nat, i: nat, id: JobId)
    requires Valid(EMPTY_DB, calls) && first < i < |calls| && CreatedBy(calls, first, id) && CompletedBy(calls, i, id)
    ensures NameAt(calls, i, id) == calls[first].filename
  {
    RowBefore(calls, first, i, id);
    NamedUntilFinished(At(calls, first + 1), calls[first + 1..i], id, calls[first].filename);
  }

  lemma NameNow(calls: seq<Call>, i: nat, id: JobId)
    requires Valid(EMPTY_DB, calls) && i < |calls| && CompletedBy(calls, i, id)
    ensures FinishedAt(calls, i + 1, id)
    ensures NameAt(calls, i + 1, id) == if calls[i].filename.Some? then calls[i].filename else NameAt(calls, i, id)
  {
    StepAt(calls, i, id);
  }

  lemma NameAfter(calls: seq<Call>, k: nat, n: nat, id: JobId)
    requires Valid(EMPTY_DB, calls) && k <= n <= |calls| && FinishedAt(calls, k, id)
    ensures NameAt(calls, n, id) == NameAt(calls, k, id)
  {
    RunSplit(EMPTY_DB, calls, n);
    Segment(calls, k, n);
    CompletedAtMostOnce(At(calls, k), calls[k..n], id);
    NameStays(At(calls, k), calls[k..n], id);
  }

  /** Once a job is completed, the file name in its row is the one that the completing call gave, and if it
      gave none the one of the call that created the job. */
  lemma NameOfTheResult(calls: seq<Call>, first: nat, i: nat, n: nat, id: JobId)
    requires Valid(EMPTY_DB, calls) && first < i < n <= |calls| && CreatedBy(calls, first, id) && CompletedBy(calls, i, id)
    ensures NameAt(calls, n, id) == if calls[i].filename.Some? then calls[i].filename else calls[first].filename
  {
    NameBefore(calls, first, i, id);
    NameNow(calls, i, id);
    NameAfter(calls, i + 1, n, id);
  }

  /** Every complete job was created by some call and completed by a later one, and its file name is the one
      that the later gave, or else the one of the first. */
  lemma CompleteJobIsNamed(calls: seq<Call>, n: nat, id: JobId) returns (first: nat, i: nat)
    requires Valid(EMPTY_DB, calls) && n <= |calls| && CompleteAt(calls, n, id)
    ensures first < i < n && CreatedBy(calls, first, id) && CompletedBy(calls, i, id)
    ensures At(calls, n).jobs[id].filename == if calls[i].filename.Some? then calls[i].filename else calls[first].filename
  {
    i := BecameComplete(calls, 0, n, id);
    first := WasCreated(calls, i, id);
    NameOfTheResult(calls, first, i, n, id);
  }

  /** Every job in the table has been created by some call. */
  lemma {:induction false} WasCreated(calls: seq<Call>, n: nat, id: JobId) returns (first: nat)
    requires Valid(EMPTY_DB, calls) && n <= |calls| && id in At(calls, n).jobs
    ensures first < n && CreatedBy(calls, first, id)
    decreases n
  {
    first := 0;
    if n > 0 {
      RunOneMore(EMPTY_DB, calls, n - 1);
      ExecRow(At(calls, n - 1), calls[n - 1], id);
      if id in At(calls, n - 1).jobs { first := WasCreated(calls, n - 1, id); } else { first := n - 1; }
    }
  }

  // ---------------------------------------------------------------- the payload and the error

  lemma PayloadStep(r: Row, c: Call, id: JobId)
    ensures RowStep(r, c, id).payload == if Expires(c, id) then map[] else r.payload
  {
  }

  /** The payload in the row of the job after n calls. */
  function PayloadAt(calls: seq<Call>, n: nat, id: JobId): map<string, string>
    requires n <= |calls|
  {
    if id in At(calls, n).jobs then At(calls, n).jobs[id].payload else map[]
  }

  lemma PayloadNext(calls: seq<Call>, n: nat, id: JobId)
    requires Valid(EMPTY_DB, calls) && n < |calls| && id in At(calls, n).jobs
    ensures id in At(calls, n + 1).jobs
    ensures PayloadAt(calls, n + 1, id) == if Expires(calls[n], id) then map[] else PayloadAt(calls, n, id)
  {
    StepAt(calls, n, id);
    PayloadStep(At(calls, n).jobs[id], calls[n], id);
  }

  lemma PayloadFirst(calls: seq<Call>, first: nat, id: JobId)
    requires Valid(EMPTY_DB, calls) && first < |calls| && CreatedBy(calls, first, id)
    ensures id in At(calls, first + 1).jobs && PayloadAt(calls, first + 1, id) == calls[first].payload
  {
    RowBefore(calls, first, first + 1, id);
  }

  /** A purge expires the job between the positions. */
  predicate PurgedBetween(calls: seq<Call>, first: nat, n: nat, id: JobId)
    requires n <= |calls|
  {
    exists i :: first < i < n && Expires(calls[i], id)
  }

  lemma PurgedNext(calls: seq<Call>, first: nat, n: nat, id: JobId)
    requires first < n < |calls|
    ensures PurgedBetween(calls, first, n + 1, id) <==> PurgedBetween(calls, first, n, id) || Expires(calls[n], id)
  {
  }

  /** A job keeps the payload it was created with until a purge expires it, and has none from then on. */
  lemma {:induction false} PayloadIsTheCreators(calls: seq<Call>, first: nat, n: nat, id: JobId)
    requires Valid(EMPTY_DB, calls) && first < n <= |calls| && CreatedBy(calls, first, id)
    ensures id in At(calls, n).jobs
    ensures PayloadAt(calls, n, id) == if PurgedBetween(calls, first, n, id) then map[] else calls[first].payload
    decreases n
  {
    if n == first + 1 {
      PayloadFirst(calls, first, id);
    } else {
      PayloadIsTheCreators(calls, first, n - 1, id);
      PayloadNext(calls, n - 1, id);
      PurgedNext(calls, first, n - 1, id);
    }
  }

  /** The error in the row of the job after n calls. */
  function ErrorAt(calls: seq<Call>, n: nat, id: JobId): Option<string>
    requires n <= |calls|
  {
    if id in At(calls, n).jobs then At(calls, n).jobs[id].error else None
  }

  lemma ErrorStep(r: Row, c: Call, id: JobId)
    ensures if c.FailJob? && c.id == id && Owned(r, c.worker)
            then RowStep(r, c, id).error.Some? && CutTo(RowStep(r, c, id).error.value, c.error, 1000)
            else RowStep(r, c, id).error == r.error
  {
  }

  lemma ErrorNext(calls: seq<Call>, n: nat, id: JobId)
    requires Valid(EMPTY_DB, calls) && n < |calls|
    ensures if FailsFor(calls, n, id)
            then ErrorAt(calls, n + 1, id).Some? && CutTo(ErrorAt(calls, n + 1, id).value, calls[n].error, 1000)
            else ErrorAt(calls, n + 1, id) == ErrorAt(calls, n, id)
  {
    RunOneMore(EMPTY_DB, calls, n);
    ExecRow(At(calls, n), calls[n], id);
    if id in At(calls, n).jobs { ErrorStep(At(calls, n).jobs[id], calls[n], id); }
  }

  /** The error that a job shows is that of the last failure that its owner reported; a job that no owner
      has failed shows none. */
  lemma {:induction false} ErrorIsTheLastFailures(calls: seq<Call>, n: nat, id: JobId) returns (i: nat)
    requires Valid(EMPTY_DB, calls) && n <= |calls|
    ensures ErrorAt(calls, n, id) == None ==> forall k :: 0 <= k < n ==> !FailsFor(calls, k, id)
    ensures ErrorAt(calls, n, id).Some? ==>
              && i < n && FailsFor(calls, i, id) && (forall k :: i < k < n ==> !FailsFor(calls, k, id))
              && CutTo(ErrorAt(calls, n, id).value, calls[i].error, 1000)
    decreases n
  {
    i := 0;
    if n > 0 {
      ErrorNext(calls, n - 1, id);
      if FailsFor(calls, n - 1, id) { i := n - 1; } else { i := ErrorIsTheLastFailures(calls, n - 1, id); }
    } else {
      assert calls[..0] == [];
    }
  }

  // ---------------------------------------------------------------- what is shown

  /** Progress is a percentage, and the texts are short. */
  predicate Presentable(r: Row) {
    0 <= r.progress <= 100 && |r.stage| <= 200 && (r.error.Some? ==> |r.error.value| <= 1000)
  }

  lemma PresentableStep(r: Row, c: Call, id: JobId)
    requires Presentable(r)
    ensures Presentable(RowStep(r, c, id))
  {
  }

  lemma PresentableExec(db: Db, c: Call, id: JobId)
    requires id in db.jobs ==> Presentable(db.jobs[id])
    ensures id in Exec(db, c).jobs ==> Presentable(Exec(db, c).jobs[id])
  {
    ExecRow(db, c, id);
    if id in db.jobs { PresentableStep(db.jobs[id], c, id); }
  }

  /** In every run progress stays a percentage, and the stage and the error keep to their lengths. */
  lemma {:induction false} RowsArePresentable(db: Db, calls: seq<Call>, id: JobId)
    requires id in db.jobs ==> Presentable(db.jobs[id])
    ensures id in Run(db, calls).jobs ==> Presentable(Run(db, calls).jobs[id])
    decreases |calls|
  {
    if calls != [] {
      PresentableExec(db, calls[0], id);
      RowsArePresentable(Exec(db, calls[0]), calls[1..], id);
    }
  }
}
