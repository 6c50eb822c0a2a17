/** Runs of one job in which the registry does what one would not expect. JobReads and JobAttempts give the
    exact condition of each. */
module JobRaces {
  import opened Options
  import opened JobTable
  import opened JobRuns
  import opened JobLeases
  import opened JobReads

  const CREATE := CreateJob(0.0, "job", "tenant", "user", "ocr", map[], None, None, 2, 86400)
  const ONCE := CreateJob(0.0, "job", "tenant", "user", "ocr", map[], None, None, 1, 86400)
  const CLAIM := ClaimNext(1.0, "v", ["ocr"], 60, Some("job"))
  const RECLAIM := ClaimNext(62.0, "w", ["ocr"], 60, Some("job"))
  const CANCEL := RequestCancel(63.0, "job", "tenant", "user")
  const FINISH := CompleteJob(64.0, "job", "w", "out.txt", "sha", None, false)
  const LATE := CompleteJob(65.0, "job", "v", "old.txt", "sha", None, true)
  const FAIL := FailJob(64.0, "job", "v", "error", true, Snapshot(1, 2, false))

  const REPORT := CompleteJob(64.0, "job", "w", "out.txt", "sha", None, true)
  const PURGE := ExpireJob(90000.0, "job", None)
  const LAST := CompleteJob(90001.0, "job", "v", "old.txt", "sha", None, true)
  const RECOVER := RecoverStale(90000.0)

  // The row after each call of the stories below.
  const CREATED := NewRow(CREATE)
  const CLAIMED := RowStep(CREATED, CLAIM, "job")
  const RECLAIMED := RowStep(CLAIMED, RECLAIM, "job")
  const FLAGGED := RowStep(RECLAIMED, CANCEL, "job")
  const FINISHED := RowStep(FLAGGED, FINISH, "job")
  const OVERWRITTEN := RowStep(FINISHED, LATE, "job")
  const REPORTED := RowStep(FLAGGED, REPORT, "job")
  const PURGED := RowStep(REPORTED, PURGE, "job")
  const REVIVED := RowStep(PURGED, LAST, "job")
  const STOPPED := RowStep(CLAIMED, CANCEL, "job")
  const WAITING := RowStep(STOPPED, FAIL, "job")
  const CREATED_ONCE := NewRow(ONCE)
  const CLAIMED_ONCE := RowStep(CREATED_ONCE, CLAIM, "job")
  const CLAIMED_TWICE := RowStep(CLAIMED_ONCE, RECLAIM, "job")

  /** The call takes the only row from `r` to `next`. */
  predicate Takes(r: Row, c: Call, next: Row) {
    !c.CreateJob? && next == RowStep(r, c, "job") && (c.ClaimNext? ==> Claims(c, "job") && Claimable(RecoverIfStale(r, c.now), c.now, c.kinds))
  }

  /** After a possible run the table holds this one row. */
  ghost predicate Told(calls: seq<Call>, at: seq<nat>, r: Row) {
    Possible(calls, at) && Run(EMPTY_DB, calls).jobs == map["job" := r]
  }

  lemma Create(c: Call)
    requires c in {CREATE, ONCE}
    ensures Told([c], [0], NewRow(c))
  {
    OneCall(EMPTY_DB, c);
    assert StepRows(EMPTY_DB, c) == map[];
  }

  lemma {:induction false} ReadsMore(calls: seq<Call>, at: seq<nat>, c: Call, k: nat)
    requires Reads(calls, at) && (ReadsFirst(c) ==> k <= |calls| && ReadAt(calls + [c], k, |calls|))
    ensures Reads(calls + [c], at + [k])
  {
    var longer := calls + [c];
    forall i | 0 <= i < |calls| && ReadsFirst(calls[i]) ensures at[i] <= i && ReadAt(longer, at[i], i) {
      assert ReadAt(calls, at[i], i);
      assert longer[..at[i]] == calls[..at[i]];
    }
    assert forall i :: 0 <= i < |longer| ==> longer[i] == if i < |calls| then calls[i] else c;
  }

  /** One more call of a run that has one job; the call reads what it writes. */
  lemma Then(calls: seq<Call>, at: seq<nat>, r: Row, c: Call, next: Row) returns (longer: seq<Call>, more: seq<nat>)
    requires Told(calls, at, r) && Takes(r, c, next) && (ReadsFirst(c) ==> c.id == "job" && Saw(c, r))
    ensures longer == calls + [c] && more == at + [|calls|] && Told(longer, more, next)
  {
    longer, more := calls + [c], at + [|calls|];
    ThenRow(calls, r, c, next);
    assert (calls + [c])[..|calls|] == calls;
    ReadsMore(calls, at, c, |calls|);
  }

  /** One more call, which reads before the last call of somebody else. */
  lemma ThenLate(calls: seq<Call>, at: seq<nat>, before: Row, other: Call, r: Row, c: Call, next: Row)
    returns (longer: seq<Call>, more: seq<nat>)
    requires Told(calls, at, before) && Takes(before, other, r) && !ReadsFirst(other) && Takes(r, c, next)
    requires ReadsFirst(c) && c.id == "job" && Saw(c, before) && (!c.ExpireJob? ==> !OwnCall(other, c.worker))
    ensures longer == calls + [other, c] && more == at + [|calls|, |calls|] && Told(longer, more, next)
  {
    var mid, later := Then(calls, at, before, other, r);
    longer, more := calls + [other, c], at + [|calls|, |calls|];
    assert longer == mid + [c] && more == later + [|calls|];
    ThenRow(mid, r, c, next);
    assert longer[..|calls|] == calls && longer[|calls|] == other;
    ReadsMore(mid, later, c, |calls|);
  }

  lemma ThenRow(calls: seq<Call>, r: Row, c: Call, next: Row)
    requires Valid(EMPTY_DB, calls) && Run(EMPTY_DB, calls).jobs == map["job" := r] && Takes(r, c, next)
    ensures Valid(EMPTY_DB, calls + [c]) && Run(EMPTY_DB, calls + [c]).jobs == map["job" := next]
  {
    RunAppend(EMPTY_DB, calls, [c]);
    var db := Run(EMPTY_DB, calls);
    OneCall(db, c);
    assert Exec(db, c).jobs == map["job" := RowStep(r, c, "job")];
  }

  lemma ClaimedFirst() returns (calls: seq<Call>, at: seq<nat>)
    ensures calls == [CREATE, CLAIM] && at == [0, 1] && Told(calls, at, CLAIMED)
    ensures Takes(CLAIMED, RECLAIM, RECLAIMED)
  {
    Create(CREATE);
    calls, at := Then([CREATE], [0], CREATED, CLAIM, CLAIMED);
  }

  lemma FinishedRow()
    ensures Takes(RECLAIMED, CANCEL, FLAGGED) && Takes(FLAGGED, FINISH, FINISHED) && Saw(FINISH, RECLAIMED)
    ensures FINISHED.status == Complete && FINISHED.cancelRequested && FINISHED.leaseOwner == None
  {
  }

  lemma WaitingRow()
    ensures Takes(CLAIMED, CANCEL, STOPPED) && Takes(STOPPED, FAIL, WAITING) && Saw(FAIL, CLAIMED)
    ensures WAITING.status == Retry && WAITING.cancelRequested
  {
  }

  /** A worker reads the row, the user cancels, and the worker completes the job. */
  lemma CancelledJobCanComplete() returns (calls: seq<Call>, at: seq<nat>)
    ensures calls == [CREATE, CLAIM, RECLAIM, CANCEL, FINISH] && at == [0, 1, 2, 3, 3] && Told(calls, at, FINISHED)
    ensures FINISHED.status == Complete && FINISHED.cancelRequested
  {
    calls, at := ClaimedFirst();
    calls, at := Then(calls, at, CLAIMED, RECLAIM, RECLAIMED);
    FinishedRow();
    calls, at := ThenLate(calls, at, RECLAIMED, CANCEL, FLAGGED, FINISH, FINISHED);
  }

  /** After that the worker that lost the job reports the cancellation: the job is cancelled and yet has
      a result. */
  lemma CancelledJobCanHaveAResult() returns (calls: seq<Call>, at: seq<nat>)
    ensures calls == [CREATE, CLAIM, RECLAIM, CANCEL, FINISH, LATE] && at == [0, 1, 2, 3, 3, 5] && Told(calls, at, OVERWRITTEN)
    ensures OVERWRITTEN.status == Cancelled && OVERWRITTEN.resultPath == Some("out.txt")
  {
    calls, at := CancelledJobCanComplete();
    calls, at := Then(calls, at, FINISHED, LATE, OVERWRITTEN);
  }

  /** A worker reads the row, the user cancels, and the worker schedules a retry that nobody can make. */
  lemma CancelledJobCanWait() returns (calls: seq<Call>, at: seq<nat>)
    ensures calls == [CREATE, CLAIM, CANCEL, FAIL] && at == [0, 1, 2, 2] && Told(calls, at, WAITING)
    ensures WAITING.status == Retry && WAITING.cancelRequested
  {
    calls, at := ClaimedFirst();
    WaitingRow();
    calls, at := ThenLate(calls, at, CLAIMED, CANCEL, STOPPED, FAIL, WAITING);
  }

  lemma ReportedFirst() returns (calls: seq<Call>, at: seq<nat>)
    ensures calls == [CREATE, CLAIM, RECLAIM, CANCEL, REPORT] && at == [0, 1, 2, 3, 4] && Told(calls, at, REPORTED)
  {
    calls, at := ClaimedFirst();
    calls, at := Then(calls, at, CLAIMED, RECLAIM, RECLAIMED);
    calls, at := Then(calls, at, RECLAIMED, CANCEL, FLAGGED);
    calls, at := Then(calls, at, FLAGGED, REPORT, REPORTED);
  }

  lemma RevivedRow()
    ensures Takes(REPORTED, PURGE, PURGED) && Saw(PURGE, REPORTED) && Takes(PURGED, LAST, REVIVED) && Saw(LAST, PURGED)
    ensures PURGED.status == Expired && REVIVED.status == Cancelled
  {
  }

  /** An expired job comes back: its second worker reports the cancellation, it expires, and then the
      worker that had lost it reports too. */
  lemma ExpiredJobCanComeBack() returns (calls: seq<Call>, at: seq<nat>)
    ensures calls == [CREATE, CLAIM, RECLAIM, CANCEL, REPORT, PURGE, LAST] && at == [0, 1, 2, 3, 4, 5, 6] && Told(calls, at, REVIVED)
    ensures PURGED.status == Expired && REVIVED.status == Cancelled
  {
    calls, at := ReportedFirst();
    RevivedRow();
    calls, at := Then(calls, at, REPORTED, PURGE, PURGED);
    calls, at := Then(calls, at, PURGED, LAST, REVIVED);
  }

  /** A cancelled job whose worker is gone is not recovered, however long ago its lease ran out. */
  lemma CancelledJobIsNotRecovered() returns (calls: seq<Call>, at: seq<nat>)
    ensures calls == [CREATE, CLAIM, CANCEL, RECOVER] && at == [0, 1, 2, 3] && Told(calls, at, STOPPED)
    ensures STOPPED.status == Processing && STOPPED.leaseUntil == Some(61.0) && STOPPED.cancelRequested
  {
    calls, at := ClaimedFirst();
    calls, at := Then(calls, at, CLAIMED, CANCEL, STOPPED);
    calls, at := Then(calls, at, STOPPED, RECOVER, STOPPED);
  }

  /** max_attempts does not bound the attempts: one was allowed here and two are made. */
  lemma RecoveryExceedsMaxAttempts() returns (calls: seq<Call>, at: seq<nat>)
    ensures calls == [ONCE, CLAIM, RECLAIM] && at == [0, 1, 2] && Told(calls, at, CLAIMED_TWICE)
    ensures CLAIMED_TWICE.maxAttempts == 1 && CLAIMED_TWICE.attempts == 2
  {
    Create(ONCE);
    calls, at := Then([ONCE], [0], CREATED_ONCE, CLAIM, CLAIMED_ONCE);
    calls, at := Then(calls, at, CLAIMED_ONCE, RECLAIM, CLAIMED_TWICE);
  }
}
