/** What every run of the registry keeps, whatever the workers do. */
module JobSafety {
  import opened Options
  import opened JobTable
  import opened JobRuns

  // ---------------------------------------------------------------- the invariants of reachable rows

  /** What holds of every row in every reachable state, however reads and writes interleave. */
  predicate Sane(r: Row) {
    && (r.status == Complete ==> r.resultPath.Some? && r.resultSha.Some?)
    && (r.resultPath.Some? && r.status != Complete ==> r.cancelRequested)
    && (r.status == Processing ==> r.leaseOwner.Some? && r.leaseUntil.Some?)
    && (r.leaseOwner.Some? && r.status != Processing ==> r.cancelRequested && r.status in {Cancelled, Expired})
    && (r.status == Cancelled ==> r.cancelRequested)
    && (r.status == Pending ==> r.attempts == 0 && r.availableAt == r.createdAt && !r.cancelRequested)
    && (r.status == Retry || r.leaseOwner.Some? ==> 0 < r.attempts)
  }

  /** What holds besides as long as no call overruns a cancellation. */
  predicate Sound(r: Row) {
    && Sane(r)
    && (r.resultPath.Some? <==> r.status == Complete)
    && (r.cancelRequested ==> r.status in {Processing, Cancelled, Expired})
  }

  ghost predicate SaneDb(db: Db) {
    forall id :: id in db.jobs ==> Sane(db.jobs[id])
  }

  lemma SaneStep(r: Row, c: Call, id: JobId)
    requires Sane(r) && RowEnabled(r, c, id) && RowHonest(r, c, id)
    ensures Sane(RowStep(r, c, id))
  {
  }

  lemma SaneExec(db: Db, c: Call)
    requires SaneDb(db) && Enabled(db, c) && Honest(db, c)
    ensures SaneDb(Exec(db, c))
  {
    forall id | id in Exec(db, c).jobs ensures Sane(Exec(db, c).jobs[id]) {
      ExecRow(db, c, id);
      if id in db.jobs { SaneStep(db.jobs[id], c, id); }
    }
  }

  lemma {:induction false} SaneRuns(db: Db, calls: seq<Call>)
    requires SaneDb(db) && Valid(db, calls) && AllHonest(db, calls)
    ensures SaneDb(Run(db, calls))
    decreases |calls|
  {
    if calls != [] {
      SaneExec(db, calls[0]);
      SaneRuns(Exec(db, calls[0]), calls[1..]);
    }
  }

  predicate SoundAt(db: Db, id: JobId) {
    id in db.jobs ==> Sound(db.jobs[id])
  }

  /** The invariant is lost exactly by the calls that overrun a cancellation. */
  lemma SoundRow(r: Row, c: Call, id: JobId)
    requires Sound(r) && RowEnabled(r, c, id) && RowHonest(r, c, id)
    ensures Sound(RowStep(r, c, id)) <==> !RowOverruns(r, c, id)
  {
  }

  lemma NewRowIsSound(c: Call)
    requires c.CreateJob?
    ensures Sound(NewRow(c))
  {
  }

  lemma SoundStep(db: Db, c: Call, id: JobId)
    requires SoundAt(db, id) && Enabled(db, c) && Honest(db, c)
    ensures SoundAt(Exec(db, c), id) <==> !Overruns(db, c, id)
  {
    ExecRow(db, c, id);
    if id in db.jobs { SoundRow(db.jobs[id], c, id); }
    if c.CreateJob? { NewRowIsSound(c); }
  }

  // ---------------------------------------------------------------- attempts

  function AttemptsAt(db: Db, id: JobId): nat {
    if id in db.jobs then db.jobs[id].attempts else 0
  }

  lemma AttemptsStep(db: Db, c: Call, id: JobId)
    requires Enabled(db, c)
    ensures AttemptsAt(Exec(db, c), id) == AttemptsAt(db, id) + if Claims(c, id) then 1 else 0
  {
    ExecRow(db, c, id);
  }

  /** `attempts` counts claims, in every run. */
  lemma {:induction false} AttemptsCountClaims(db: Db, calls: seq<Call>, id: JobId)
    requires Valid(db, calls)
    ensures AttemptsAt(Run(db, calls), id) == AttemptsAt(db, id) + ClaimsOf(calls, id)
    decreases |calls|
  {
    if calls != [] {
      AttemptsStep(db, calls[0], id);
      AttemptsCountClaims(Exec(db, calls[0]), calls[1..], id);
    }
  }

  /** At least one attempt is always made, whatever max_attempts says. */
  function Cap(r: Row): int {
    Max(1, r.maxAttempts)
  }

  predicate WithinCap(r: Row, recoveries: nat) {
    && (r.status == Pending ==> r.attempts == 0)
    && (r.status == Retry ==> r.attempts < Cap(r) + recoveries)
    && r.attempts <= Cap(r) + recoveries
  }

  lemma WithinCapStep(r: Row, c: Call, id: JobId, recoveries: nat)
    requires WithinCap(r, recoveries) && RowEnabled(r, c, id) && RowHonest(r, c, id)
    ensures WithinCap(RowStep(r, c, id), recoveries + if Recovers(r, c) then 1 else 0)
  {
  }

  lemma {:induction false} WithinCapRuns(db: Db, calls: seq<Call>, id: JobId, recoveries: nat)
    requires Valid(db, calls) && AllHonest(db, calls)
    requires id in db.jobs ==> WithinCap(db.jobs[id], recoveries)
    requires id !in db.jobs ==> recoveries == 0
    ensures id in Run(db, calls).jobs ==>
              WithinCap(Run(db, calls).jobs[id], recoveries + RecoveriesOf(db, calls, id))
    decreases |calls|
  {
    if calls != [] {
      ExecRow(db, calls[0], id);
      var r := recoveries + if id in db.jobs && Recovers(db.jobs[id], calls[0]) then 1 else 0;
      if id in db.jobs { WithinCapStep(db.jobs[id], calls[0], id, recoveries); }
      WithinCapRuns(Exec(db, calls[0]), calls[1..], id, r);
    }
  }

  /** Some lease of the job is recovered when its attempts are used up, and it is claimed after that. */
  predicate RecoveredLate(db: Db, calls: seq<Call>, id: JobId)
    decreases |calls|
  {
    calls != [] &&
    ((id in db.jobs && Recovers(db.jobs[id], calls[0]) && db.jobs[id].attempts >= Cap(db.jobs[id]) && ClaimsOf(calls, id) > 0)
     || RecoveredLate(Exec(db, calls[0]), calls[1..], id))
  }

  lemma {:induction false} WithinCapUnlessLate(db: Db, calls: seq<Call>, id: JobId)
    requires Valid(db, calls) && AllHonest(db, calls) && !RecoveredLate(db, calls, id)
    requires id in db.jobs ==> WithinCap(db.jobs[id], 0)
    ensures id in Run(db, calls).jobs ==> Run(db, calls).jobs[id].attempts <= Cap(Run(db, calls).jobs[id])
    decreases |calls|
  {
    if calls != [] {
      var c := calls[0];
      ExecRow(db, c, id);
      if id in db.jobs && Recovers(db.jobs[id], c) && db.jobs[id].attempts >= Cap(db.jobs[id]) {
        AttemptsCountClaims(db, calls, id);
        FixedColumns(db, calls, id);
      } else {
        if id in db.jobs { EarlyRecoveryStep(db.jobs[id], c, id); }
        WithinCapUnlessLate(Exec(db, c), calls[1..], id);
      }
    }
  }

  lemma EarlyRecoveryStep(r: Row, c: Call, id: JobId)
    requires WithinCap(r, 0) && RowEnabled(r, c, id) && RowHonest(r, c, id)
    requires Recovers(r, c) ==> r.attempts < Cap(r)
    ensures WithinCap(RowStep(r, c, id), 0)
  {
  }

  lemma {:induction false} LateClaimExceedsCap(db: Db, calls: seq<Call>, id: JobId)
    requires Valid(db, calls) && RecoveredLate(db, calls, id)
    ensures id in Run(db, calls).jobs && Run(db, calls).jobs[id].attempts > Cap(Run(db, calls).jobs[id])
    decreases |calls|
  {
    var c := calls[0];
    if id in db.jobs && Recovers(db.jobs[id], c) && db.jobs[id].attempts >= Cap(db.jobs[id]) && ClaimsOf(calls, id) > 0 {
      AttemptsCountClaims(db, calls, id);
      FixedColumns(db, calls, id);
    } else {
      LateClaimExceedsCap(Exec(db, c), calls[1..], id);
    }
  }

  // ---------------------------------------------------------------- cancellation

  lemma CancelledRowStays(r: Row, c: Call, id: JobId)
    requires r.cancelRequested && RowEnabled(r, c, id)
    ensures RowStep(r, c, id).cancelRequested && !Claims(c, id) && !Recovers(r, c)
  {
  }

  /** Once cancellation is requested it is never withdrawn and the job is never claimed or recovered
      again, even when complete_job or fail_job write what they decided before the cancellation. */
  lemma {:induction false} NeverClaimedAfterCancel(db: Db, calls: seq<Call>, id: JobId)
    requires Valid(db, calls) && id in db.jobs && db.jobs[id].cancelRequested
    ensures id in Run(db, calls).jobs && Run(db, calls).jobs[id].cancelRequested
    ensures ClaimsOf(calls, id) == 0 && RecoveriesOf(db, calls, id) == 0
    decreases |calls|
  {
    if calls != [] {
      ExecRow(db, calls[0], id);
      CancelledRowStays(db.jobs[id], calls[0], id);
      NeverClaimedAfterCancel(Exec(db, calls[0]), calls[1..], id);
    }
  }

  // ---------------------------------------------------------------- completion

  predicate CompletesJob(db: Db, c: Call, id: JobId) {
    c.CompleteJob? && c.id == id && id in db.jobs && Completes(db.jobs[id], c.worker, c.seenCancel)
  }

  function CompletionsOf(db: Db, calls: seq<Call>, id: JobId): nat
    decreases |calls|
  {
    if calls == [] then 0
    else (if CompletesJob(db, calls[0], id) then 1 else 0) + CompletionsOf(Exec(db, calls[0]), calls[1..], id)
  }

  /** The events of the job with this action. */
  function EventsOf(audit: seq<AuditEntry>, id: JobId, action: JobAction): nat {
    if audit == [] then 0
    else (if audit[0].JobEvent? && audit[0].job == id && audit[0].action == action then 1 else 0) + EventsOf(audit[1..], id, action)
  }

  lemma EventsAppend(a: seq<AuditEntry>, b: seq<AuditEntry>, id: JobId, action: JobAction)
    ensures EventsOf(a + b, id, action) == EventsOf(a, id, action) + EventsOf(b, id, action)
  {
    if a == [] {
      assert a + b == b;
    } else {
      assert (a + b)[1..] == a[1..] + b;
      EventsAppend(a[1..], b, id, action);
    }
  }

  /** A job that has been completed: nobody holds it and nothing hands it out again. */
  predicate Finished(r: Row) {
    r.leaseOwner == None && r.status in {Complete, Cancelled, Expired}
  }

  lemma FinishedStep(r: Row, c: Call, id: JobId)
    requires RowEnabled(r, c, id)
    ensures Finished(r) ==> Finished(RowStep(r, c, id))
    ensures c.CompleteJob? && c.id == id && Completes(r, c.worker, c.seenCancel) ==>
              !Finished(r) && Finished(RowStep(r, c, id))
  {
  }

  lemma CompletionIsAudited(db: Db, c: Call, id: JobId)
    ensures EventsOf(Exec(db, c).audit, id, JobCompleted) ==
            EventsOf(db.audit, id, JobCompleted) + if CompletesJob(db, c, id) then 1 else 0
  {
    EventsAppend(db.audit, AuditOf(db, c), id, JobCompleted);
  }

  /** A job is completed at most once in a run. */
  lemma {:induction false} CompletedAtMostOnce(db: Db, calls: seq<Call>, id: JobId)
    requires Valid(db, calls)
    ensures CompletionsOf(db, calls, id) <= 1
    ensures id in db.jobs && Finished(db.jobs[id]) ==> CompletionsOf(db, calls, id) == 0
    decreases |calls|
  {
    if calls != [] {
      ExecRow(db, calls[0], id);
      if id in db.jobs { FinishedStep(db.jobs[id], calls[0], id); }
      CompletedAtMostOnce(Exec(db, calls[0]), calls[1..], id);
    }
  }

  /** The audit log carries one job.completed event for each completion of a run and no other. */
  lemma {:induction false} CompletionsAreAudited(db: Db, calls: seq<Call>, id: JobId)
    ensures EventsOf(Run(db, calls).audit, id, JobCompleted) == EventsOf(db.audit, id, JobCompleted) + CompletionsOf(db, calls, id)
    decreases |calls|
  {
    if calls != [] {
      CompletionIsAudited(db, calls[0], id);
      CompletionsAreAudited(Exec(db, calls[0]), calls[1..], id);
    }
  }

  predicate CompleteWith(db: Db, id: JobId, path: Option<string>, sha: Option<string>) {
    id in db.jobs && db.jobs[id].status == Complete && db.jobs[id].resultPath == path && db.jobs[id].resultSha == sha
  }

  lemma BecomesComplete(db: Db, c: Call, id: JobId)
    requires !(id in db.jobs && db.jobs[id].status == Complete)
    requires id in Exec(db, c).jobs && Exec(db, c).jobs[id].status == Complete
    ensures CompletesJob(db, c, id) && CompleteWith(Exec(db, c), id, Some(c.path), Some(c.sha))
    ensures Exec(db, c).jobs[id].leaseOwner == None
    ensures Exec(db, c).jobs[id].cancelRequested == db.jobs[id].cancelRequested
  {
    ExecRow(db, c, id);
  }

  /** A complete job was completed by the worker that then held it, and the path and digest in its
      row are those of that worker's call. */
  lemma {:induction false} ResultIsTheOwners(db: Db, calls: seq<Call>, id: JobId) returns (i: nat)
    requires Valid(db, calls)
    requires !(id in db.jobs && db.jobs[id].status == Complete)
    requires id in Run(db, calls).jobs && Run(db, calls).jobs[id].status == Complete
    ensures i < |calls| && CompletesJob(Run(db, calls[..i]), calls[i], id)
    ensures CompleteWith(Run(db, calls), id, Some(calls[i].path), Some(calls[i].sha))
    ensures Run(db, calls).jobs[id].cancelRequested == Run(db, calls[..i]).jobs[id].cancelRequested
    decreases |calls|
  {
    assert calls != [];
    var db1 := Exec(db, calls[0]);
    if id in db1.jobs && db1.jobs[id].status == Complete {
      i := 0;
      assert calls[..0] == [];
      BecomesComplete(db, calls[0], id);
      CompleteKeepsResult(db1, calls[1..], id);
    } else {
      var k := ResultIsTheOwners(db1, calls[1..], id);
      i := k + 1;
      assert calls[..i][0] == calls[0] && calls[..i][1..] == calls[1..][..k];
    }
  }

  lemma CompleteRowStep(r: Row, c: Call, id: JobId)
    requires r.status in {Complete, Cancelled, Expired} && r.leaseOwner == None && RowEnabled(r, c, id)
    ensures var r1 := RowStep(r, c, id);
            && r1.leaseOwner == None && r1.status in {Complete, Cancelled, Expired}
            && (r1.status == Complete ==> r.status == Complete)
            && (r1.status == Complete ==> r1.resultPath == r.resultPath && r1.resultSha == r.resultSha)
            && (r1.status == Complete ==> r1.cancelRequested == r.cancelRequested)
  {
  }

  lemma {:induction false} CompleteKeepsResult(db: Db, calls: seq<Call>, id: JobId)
    requires Valid(db, calls) && id in db.jobs
    requires db.jobs[id].status in {Complete, Cancelled, Expired} && db.jobs[id].leaseOwner == None
    ensures id in Run(db, calls).jobs
    ensures Run(db, calls).jobs[id].status == Complete ==>
              && db.jobs[id].status == Complete
              && Run(db, calls).jobs[id].resultPath == db.jobs[id].resultPath
              && Run(db, calls).jobs[id].resultSha == db.jobs[id].resultSha
              && Run(db, calls).jobs[id].cancelRequested == db.jobs[id].cancelRequested
    decreases |calls|
  {
    if calls != [] {
      ExecRow(db, calls[0], id);
      CompleteRowStep(db.jobs[id], calls[0], id);
      CompleteKeepsResult(Exec(db, calls[0]), calls[1..], id);
    }
  }

  // ---------------------------------------------------------------- retention

  predicate Retained(r: Row, r1: Row) {
    r1.status == r.status && r1.resultPath == r.resultPath && r1.resultSha == r.resultSha
    && r1.filename == r.filename && r1.payload == r.payload
  }

  /** The call reports a cancellation of the job. */
  predicate Reverts(c: Call, id: JobId) {
    c.CompleteJob? && c.id == id && c.seenCancel
  }

  predicate Expires(c: Call, id: JobId) {
    c.ExpireJob? && c.id == id
  }

  /** The row of a complete or failed job some time later: unchanged, or expired. */
  predicate Kept(r: Row, r1: Row) {
    r1.leaseOwner == None && (Retained(r, r1) || r1.status == Expired)
  }

  lemma KeptStep(r0: Row, r: Row, c: Call, id: JobId)
    requires r0.status in {Complete, Failed} && Kept(r0, r) && RowEnabled(r, c, id)
    ensures Kept(r0, RowStep(r, c, id)) <==> !Reverts(c, id)
    ensures Retained(r0, r) ==> (Retained(r0, RowStep(r, c, id)) <==> !Reverts(c, id) && !Expires(c, id))
  {
  }

  /** The expiry time is the creation time plus the TTL of the creating call, for good. */
  lemma {:induction false} ExpiryIsFixed(db: Db, create: Call, calls: seq<Call>)
    requires create.CreateJob? && !Conflicts(db, create)
    ensures var end := Run(Exec(db, create), calls);
            && create.newId in end.jobs
            && end.jobs[create.newId].createdAt == create.now
            && end.jobs[create.newId].expiresAt == create.now + create.ttl as real
  {
    ExecRow(db, create, create.newId);
    FixedColumns(Exec(db, create), calls, create.newId);
  }

  /** Columns that no call changes. */
  predicate SameIdentity(r: Row, r1: Row) {
    && r1.tenantId == r.tenantId && r1.userId == r.userId && r1.kind == r.kind && r1.digest == r.digest
    && r1.key == r.key && r1.maxAttempts == r.maxAttempts && r1.createdAt == r.createdAt && r1.expiresAt == r.expiresAt
  }

  lemma IdentityStep(r: Row, c: Call, id: JobId)
    ensures SameIdentity(r, RowStep(r, c, id))
  {
  }

  lemma {:induction false} FixedColumns(db: Db, calls: seq<Call>, id: JobId)
    requires id in db.jobs
    ensures id in Run(db, calls).jobs && SameIdentity(db.jobs[id], Run(db, calls).jobs[id])
    decreases |calls|
  {
    if calls != [] {
      ExecRow(db, calls[0], id);
      IdentityStep(db.jobs[id], calls[0], id);
      FixedColumns(Exec(db, calls[0]), calls[1..], id);
    }
  }

  // ---------------------------------------------------------------- purge

  /** The calls while a purge deletes the rows that it selected; `others(k)` come before the k-th row. */
  function PurgeCalls(now: Time, maxAge: Option<int>, order: seq<JobId>, others: nat -> seq<Call>): seq<Call> {
    if order == [] then []
    else
      var n := |order| - 1;
      PurgeCalls(now, maxAge, order[..n], others) + others(n) + [ExpireJob(now, order[n], maxAge)]
  }

  /** `order` lists the rows that a purge selects. */
  ghost predicate Selects(db: Db, now: Time, maxAge: Option<int>, order: seq<JobId>) {
    Distinct(order) && forall id :: id in order <==> id in db.jobs && Purgeable(db.jobs[id], now, maxAge)
  }

  function Quiet(): nat -> seq<Call> {
    n => []
  }

  function PurgedRow(r: Row, now: Time, maxAge: Option<int>): Row {
    if Purgeable(r, now, maxAge) then ExpireRow(r, now) else r
  }

  lemma PurgeMore(db: Db, now: Time, maxAge: Option<int>, order: seq<JobId>, id: JobId, others: nat -> seq<Call>)
    ensures Run(db, PurgeCalls(now, maxAge, order + [id], others)) ==
            Exec(Run(Run(db, PurgeCalls(now, maxAge, order, others)), others(|order|)), ExpireJob(now, id, maxAge))
  {
    var calls := PurgeCalls(now, maxAge, order, others);
    assert (order + [id])[..|order|] == order;
    RunAppend(db, calls, others(|order|));
    RunAppend(db, calls + others(|order|), [ExpireJob(now, id, maxAge)]);
    OneCall(Run(db, calls + others(|order|)), ExpireJob(now, id, maxAge));
  }

  lemma QuietMore(db: Db, now: Time, maxAge: Option<int>, order: seq<JobId>)
    requires order != []
    ensures var n := |order| - 1;
            Run(db, PurgeCalls(now, maxAge, order, Quiet())) ==
            Exec(Run(db, PurgeCalls(now, maxAge, order[..n], Quiet())), ExpireJob(now, order[n], maxAge))
  {
    var n := |order| - 1;
    assert order == order[..n] + [order[n]];
    PurgeMore(db, now, maxAge, order[..n], order[n], Quiet());
  }

  lemma {:induction false} PurgeRows(db: Db, now: Time, maxAge: Option<int>, order: seq<JobId>, id: JobId)
    requires id in db.jobs
    ensures id in Run(db, PurgeCalls(now, maxAge, order, Quiet())).jobs
    ensures Run(db, PurgeCalls(now, maxAge, order, Quiet())).jobs[id] == if id in order then ExpireRow(db.jobs[id], now) else db.jobs[id]
    decreases |order|
  {
    if order != [] {
      var n := |order| - 1;
      PurgeRows(db, now, maxAge, order[..n], id);
      QuietMore(db, now, maxAge, order);
      assert order == order[..n] + [order[n]];
      ExecRow(Run(db, PurgeCalls(now, maxAge, order[..n], Quiet())), ExpireJob(now, order[n], maxAge), id);
    }
  }

  lemma {:induction false} PurgeAddsNoRows(db: Db, now: Time, maxAge: Option<int>, order: seq<JobId>, id: JobId)
    requires id in Run(db, PurgeCalls(now, maxAge, order, Quiet())).jobs
    ensures id in db.jobs
    decreases |order|
  {
    if order != [] {
      var n := |order| - 1;
      QuietMore(db, now, maxAge, order);
      ExecRow(Run(db, PurgeCalls(now, maxAge, order[..n], Quiet())), ExpireJob(now, order[n], maxAge), id);
      PurgeAddsNoRows(db, now, maxAge, order[..n], id);
    }
  }

  /** An uninterrupted purge changes the rows it selected and no live job, and an immediate second
      purge finds nothing to do. */
  lemma PurgeTwice(db: Db, now: Time, maxAge: Option<int>, order: seq<JobId>, again: seq<JobId>)
    requires Selects(db, now, maxAge, order)
    requires Selects(Run(db, PurgeCalls(now, maxAge, order, Quiet())), now, maxAge, again)
    ensures var once := Run(db, PurgeCalls(now, maxAge, order, Quiet()));
            && once.jobs.Keys == db.jobs.Keys
            && (forall id :: id in db.jobs ==> once.jobs[id] == PurgedRow(db.jobs[id], now, maxAge))
            && again == []
  {
    var once := Run(db, PurgeCalls(now, maxAge, order, Quiet()));
    forall id | id in db.jobs
      ensures id in once.jobs && once.jobs[id] == PurgedRow(db.jobs[id], now, maxAge)
    {
      PurgeRows(db, now, maxAge, order, id);
    }
    forall id | id in once.jobs ensures id in db.jobs && !Purgeable(once.jobs[id], now, maxAge) {
      PurgeAddsNoRows(db, now, maxAge, order, id);
    }
    if again != [] {
      FirstIsIn(again);
      assert false;
    }
  }

  lemma FirstIsIn(order: seq<JobId>)
    requires order != []
    ensures order[0] in order
  {
  }
}
