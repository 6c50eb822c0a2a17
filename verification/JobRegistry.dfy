/** The registry functions themselves, updating the tables in place. Each is proved to have exactly the
    effect that `Exec` gives its call, with the answers that `Enabled` and `Saw` describe. The functions
    that read first are given what everybody else does before they write, so the runs of these methods
    are the runs of JobReads. */
module JobRegistry {
  import opened Options
  import opened JobTable
  import opened JobRuns
  import opened JobSafety
  import opened JobEffects

  lemma OldestExists(ids: set<JobId>, jobs: map<JobId, Row>) returns (oldest: JobId)
    requires ids != {} && forall id :: id in ids ==> id in jobs
    ensures oldest in ids && forall id :: id in ids ==> jobs[oldest].createdAt <= jobs[id].createdAt
    decreases ids
  {
    var x :| x in ids;
    if ids == {x} {
      oldest := x;
    } else {
      var y := OldestExists(ids - {x}, jobs);
      oldest := if jobs[x].createdAt <= jobs[y].createdAt then x else y;
      assert forall id :: id in ids ==> id == x || id in ids - {x};
    }
  }

  function Recovered(jobs: map<JobId, Row>, now: Time): map<JobId, Row> {
    map id | id in jobs :: RecoverIfStale(jobs[id], now)
  }

  lemma ClaimUpdatesOneRow(db: Db, now: Time, worker: Worker, kinds: seq<string>, lease: int, id: JobId)
    requires kinds != [] && id in db.jobs
    ensures Exec(db, ClaimNext(now, worker, kinds, lease, Some(id))).jobs ==
            Recovered(db.jobs, now)[id := ClaimRow(Recovered(db.jobs, now)[id], worker, now, lease)]
  {
  }

  lemma NoClaimOnlyRecovers(db: Db, now: Time, worker: Worker, kinds: seq<string>, lease: int)
    ensures Exec(db, ClaimNext(now, worker, kinds, lease, None)).jobs == if kinds == [] then db.jobs else Recovered(db.jobs, now)
  {
  }

  function Due(jobs: map<JobId, Row>, now: Time, kinds: seq<string>): set<JobId> {
    set id | id in jobs && Claimable(jobs[id], now, kinds)
  }

  /** An oldest due row of the recovered table is a right answer to the claim query. */
  lemma OldestIsRight(db: Db, now: Time, kinds: seq<string>, id: JobId)
    requires id in Due(Recovered(db.jobs, now), now, kinds)
    requires forall other :: other in Due(Recovered(db.jobs, now), now, kinds) ==> db.jobs[id].createdAt <= db.jobs[other].createdAt
    ensures RightPick(db, now, kinds, Some(id))
  {
    forall other | other in db.jobs && Claimable(RecoverIfStale(db.jobs[other], now), now, kinds)
      ensures db.jobs[id].createdAt <= db.jobs[other].createdAt
    {
      assert other in Due(Recovered(db.jobs, now), now, kinds);
    }
  }

  lemma NoneIsRight(db: Db, now: Time, kinds: seq<string>)
    requires Due(Recovered(db.jobs, now), now, kinds) == {}
    ensures RightPick(db, now, kinds, None)
  {
    forall id | id in db.jobs ensures !Claimable(RecoverIfStale(db.jobs[id], now), now, kinds) {
      assert id !in Due(Recovered(db.jobs, now), now, kinds);
    }
  }

  class Registry {
    var jobs: map<JobId, Row>
    var audit: seq<AuditEntry>

    constructor ()
      ensures Contents() == EMPTY_DB
    {
      jobs, audit := map[], [];
    }

    function Contents(): Db
      reads this
    {
      Db(jobs, audit)
    }

    method AppendAudit(entry: AuditEntry)
      modifies this
      ensures Contents() == old(Contents()).(audit := old(audit) + [entry])
    {
      audit := audit + [entry];
    }

    method CreateJob(now: Time, newId: JobId, tenantId: string, userId: string, kind: string, payload: map<string, string>,
                     key: Option<string>, filename: Option<string>, maxAttempts: int, ttl: int)
      returns (o: CreateOutcome)
      modifies this
      ensures var c := JobTable.CreateJob(now, newId, tenantId, userId, kind, payload, key, filename, maxAttempts, ttl);
              Contents() == Exec(old(Contents()), c) && Returns(old(Contents()), c, o)
    {
      ghost var c := JobTable.CreateJob(now, newId, tenantId, userId, kind, payload, key, filename, maxAttempts, ttl);
      ghost var before := Contents();
      assert StepRows(before, c) == jobs;
      var digest := Digest(kind, Semantic(payload));
      if newId !in jobs && !exists id :: id in jobs && HoldsKey(jobs[id], tenantId, key) {
        assert !Conflicts(before, c);
        jobs := jobs[newId := Row(tenantId, userId, kind, payload, digest, key, Pending, None, None, filename, None, 0,
                                  "Queued", 0, maxAttempts, now, None, None, false, now, now, now + ttl as real)];
        AppendAudit(JobEvent(tenantId, userId, JobCreated, newId));
        return Created(newId);
      }
      assert Conflicts(before, c);
      if key == None || key == Some("") {
        return IntegrityError;
      }
      if exists id :: id in jobs && HoldsKey(jobs[id], tenantId, key) {
        var id :| id in jobs && HoldsKey(jobs[id], tenantId, key);
        return if jobs[id].digest == digest then Replayed(id) else KeyReused;
      }
      return KeyReused;
    }

    method RecoverStaleJobs(now: Time) returns (count: nat)
      modifies this
      ensures Contents() == Exec(old(Contents()), RecoverStale(now))
      ensures count == |LeftBehind(old(Contents()), now)|
    {
      count := |set id | id in jobs && Stale(jobs[id], now)|;
      assert LeftBehind(Contents(), now) == set id | id in jobs && Stale(jobs[id], now);
      jobs := Recovered(jobs, now);
    }

    method ClaimNextJob(now: Time, worker: Worker, kinds: seq<string>, lease: int) returns (job: Option<JobId>)
      modifies this
      ensures Enabled(old(Contents()), ClaimNext(now, worker, kinds, lease, job))
      ensures Contents() == Exec(old(Contents()), ClaimNext(now, worker, kinds, lease, job))
      ensures job.Some? ==> job.value in jobs && jobs[job.value].leaseOwner == Some(worker)
    {
      ghost var before := Contents();
      NoClaimOnlyRecovers(before, now, worker, kinds, lease);
      if kinds == [] {
        return None;
      }
      jobs := Recovered(jobs, now);
      var due := Due(jobs, now, kinds);
      if due == {} {
        NoneIsRight(before, now, kinds);
        return None;
      }
      ghost var first := OldestExists(due, jobs);
      var id :| id in due && forall other :: other in due ==> jobs[id].createdAt <= jobs[other].createdAt;
      OldestIsRight(before, now, kinds, id);
      ClaimUpdatesOneRow(before, now, worker, kinds, lease, id);
      jobs := jobs[id := ClaimRow(jobs[id], worker, now, lease)];
      return Some(id);
    }

    method RenewLease(now: Time, id: JobId, worker: Worker, lease: int) returns (renewed: bool)
      modifies this
      ensures Contents() == Exec(old(Contents()), JobTable.RenewLease(now, id, worker, lease))
      ensures renewed <==> id in old(jobs) && old(jobs)[id].status == Processing && old(jobs)[id].leaseOwner == Some(worker)
    {
      renewed := id in jobs && jobs[id].status == Processing && jobs[id].leaseOwner == Some(worker);
      if renewed {
        jobs := jobs[id := jobs[id].(leaseUntil := Some(now + lease as real), updatedAt := now)];
      }
    }

    method RequestCancel(now: Time, id: JobId, tenantId: string, userId: string) returns (accepted: bool)
      modifies this
      ensures Contents() == Exec(old(Contents()), JobTable.RequestCancel(now, id, tenantId, userId))
      ensures accepted <==> id in old(jobs) && old(jobs)[id].tenantId == tenantId && !Settled(old(jobs)[id].status)
      ensures accepted ==> id in jobs && jobs[id].cancelRequested && jobs[id].status in {Processing, Cancelled}
    {
      accepted := id in jobs && jobs[id].tenantId == tenantId && !Settled(jobs[id].status);
      if accepted {
        var r := jobs[id];
        var status := if r.status in {Pending, Retry} then Cancelled else r.status;
        jobs := jobs[id := r.(cancelRequested := true, status := status, stage := "Cancellation requested", updatedAt := now)];
        AppendAudit(JobEvent(tenantId, userId, JobCancelled, id));
      }
    }

    /** The calls of all other processes. */
    method Interfere(calls: seq<Call>)
      modifies this
      ensures Contents() == Run(old(Contents()), calls)
    {
      var db := Run(Contents(), calls);
      jobs, audit := db.jobs, db.audit;
    }

    /** Reads the row, and writes after `meanwhile`; a job that does not exist ends the call at once. */
    method CompleteJob(now: Time, id: JobId, worker: Worker, path: string, sha: string, filename: Option<string>, meanwhile: seq<Call>)
      modifies this
      ensures id !in old(jobs) ==> Contents() == old(Contents())
      ensures id in old(jobs) ==>
                var c := JobTable.CompleteJob(now, id, worker, path, sha, filename, old(jobs)[id].cancelRequested);
                Saw(c, old(jobs)[id]) && Contents() == Exec(Run(old(Contents()), meanwhile), c)
    {
      if id !in jobs {
        return;
      }
      var row := jobs[id];
      RowsStay(Contents(), meanwhile, id);
      Interfere(meanwhile);
      WriteCompletion(now, id, worker, path, sha, filename, row.cancelRequested);
    }

    method WriteCompletion(now: Time, id: JobId, worker: Worker, path: string, sha: string, filename: Option<string>, cancelled: bool)
      requires id in jobs
      modifies this
      ensures Contents() == Exec(old(Contents()), JobTable.CompleteJob(now, id, worker, path, sha, filename, cancelled))
    {
      var r := jobs[id];
      if cancelled {
        jobs := jobs[id := r.(status := Cancelled, stage := "Cancelled", updatedAt := now)];
        return;
      }
      if r.status == Processing && r.leaseOwner == Some(worker) {
        jobs := jobs[id := r.(status := Complete, resultPath := Some(path), resultSha := Some(sha),
                              filename := if filename.Some? then filename else r.filename, progress := 100,
                              stage := "Done", leaseOwner := None, leaseUntil := None, updatedAt := now)];
        AppendAudit(JobEvent(r.tenantId, r.userId, JobCompleted, id));
      } else {
        assert StepRows(Contents(), JobTable.CompleteJob(now, id, worker, path, sha, filename, cancelled)) == jobs;
      }
    }

    /** Reads the row, and writes after `meanwhile`; a job that does not exist ends the call at once. */
    method FailJob(now: Time, id: JobId, worker: Worker, error: string, retryable: bool, meanwhile: seq<Call>)
      modifies this
      ensures id !in old(jobs) ==> Contents() == old(Contents())
      ensures id in old(jobs) ==>
                var seen := Snapshot(old(jobs)[id].attempts, old(jobs)[id].maxAttempts, old(jobs)[id].cancelRequested);
                var c := JobTable.FailJob(now, id, worker, error, retryable, seen);
                Saw(c, old(jobs)[id]) && Contents() == Exec(Run(old(Contents()), meanwhile), c)
    {
      if id !in jobs {
        return;
      }
      var row := jobs[id];
      RowsStay(Contents(), meanwhile, id);
      Interfere(meanwhile);
      WriteFailure(now, id, worker, error, retryable, Snapshot(row.attempts, row.maxAttempts, row.cancelRequested));
    }

    method WriteFailure(now: Time, id: JobId, worker: Worker, error: string, retryable: bool, row: Snapshot)
      requires id in jobs
      modifies this
      ensures Contents() == Exec(old(Contents()), JobTable.FailJob(now, id, worker, error, retryable, row))
    {
      var r := jobs[id];
      var retry := retryable && !row.cancelRequested && row.attempts < row.maxAttempts;
      var status := if row.cancelRequested then Cancelled else if retry then Retry else Failed;
      var delay := if retry then Delay(row.attempts) else 0;
      if r.leaseOwner == Some(worker) {
        jobs := jobs[id := r.(status := status, error := Some(Take(error, 1000)),
                              stage := if retry then "Retry scheduled" else if status == Failed then "Failed" else "Cancelled",
                              availableAt := now + delay as real, leaseOwner := None, leaseUntil := None, updatedAt := now)];
      } else {
        assert StepRows(Contents(), JobTable.FailJob(now, id, worker, error, retryable, row)) == jobs;
      }
      AppendAudit(JobEvent(r.tenantId, r.userId,
                           if status == Cancelled then JobCancelled else if status == Retry then JobRetry else JobFailed, id));
    }

    method UpdateProgress(now: Time, id: JobId, percent: int, stage: string, owner: Option<Worker>)
      modifies this
      ensures Contents() == Exec(old(Contents()), JobTable.UpdateProgress(now, id, percent, stage, owner))
    {
      var clamped := Min(Max(percent, 0), 100);
      if id in jobs && (owner == None || owner == Some("") || jobs[id].leaseOwner == owner) {
        jobs := jobs[id := jobs[id].(progress := clamped, stage := Take(stage, 200), updatedAt := now)];
      }
    }

    /** `order` is the order in which SQLite returned the rows; `others(k)` is what everybody else does
        before the k-th of them is updated. */
    method PurgeOldJobs(now: Time, maxAge: Option<int>, others: nat -> seq<Call>) returns (count: nat, order: seq<JobId>)
      modifies this
      ensures Selects(old(Contents()), now, maxAge, order) && count == |order|
      ensures Contents() == Run(old(Contents()), PurgeCalls(now, maxAge, order, others))
    {
      ghost var before := Contents();
      var rows := set id | id in jobs && Purgeable(jobs[id], now, maxAge);
      order := [];
      while rows != {}
        invariant Distinct(order)
        invariant forall id :: id in rows ==> id !in order
        invariant forall id :: id in rows || id in order <==> id in before.jobs && Purgeable(before.jobs[id], now, maxAge)
        invariant Contents() == Run(before, PurgeCalls(now, maxAge, order, others))
        decreases rows
      {
        var id :| id in rows;
        RowsStay(before, PurgeCalls(now, maxAge, order, others), id);
        RowsStay(Contents(), others(|order|), id);
        PurgeMore(before, now, maxAge, order, id, others);
        Interfere(others(|order|));
        ExpireOne(now, id, maxAge);
        rows, order := rows - {id}, order + [id];
      }
      count := |order|;
    }

    method ExpireOne(now: Time, id: JobId, maxAge: Option<int>)
      requires id in jobs
      modifies this
      ensures Contents() == Exec(old(Contents()), ExpireJob(now, id, maxAge))
    {
      jobs := jobs[id := jobs[id].(status := Expired, resultPath := None, payload := map[],
                                   stage := "Expired and deleted", updatedAt := now)];
      AppendAudit(JobEvent(jobs[id].tenantId, jobs[id].userId, JobExpired, id));
    }

    method GetJob(id: JobId, tenantId: Option<string>) returns (r: Option<Row>)
      ensures r == if id in jobs && (tenantId == None || tenantId == Some(jobs[id].tenantId)) then Some(jobs[id]) else None
    {
      if id in jobs && (tenantId == None || jobs[id].tenantId == tenantId.value) {
        return Some(jobs[id]);
      }
      return None;
    }
  }
}
