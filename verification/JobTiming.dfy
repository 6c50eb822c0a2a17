/** Retry backoff and bounded overtaking, in every possible run, however reads and writes interleave and
    whatever order the times of the calls are in: a call takes its time before it waits for the table. */
module JobTiming {
  import opened Options
  import opened JobTable
  import opened JobRuns
  import opened JobSafety
  import opened JobLeases
  import opened JobReads

  // ---------------------------------------------------------------- backoff

  /** The sum of the delays after attempts 1 to n. */
  function TotalDelay(n: nat): int {
    if n == 0 then 0 else TotalDelay(n - 1) + Delay(n)
  }

  /** The closed form of the delay before attempt m. */
  function Schedule(m: int): int
    requires 1 <= m
  {
    if m <= 9 then Pow2(m) - 2 else 510 + 300 * (m - 9)
  }

  lemma Pow2Large(n: nat)
    requires 9 <= n
    ensures 512 <= Pow2(n)
    decreases n
  {
    if n == 9 {
      assert Pow2(4) == 16;
      assert Pow2(9) == 512;
    } else {
      Pow2Large(n - 1);
    }
  }

  lemma Pow2Small(n: nat)
    requires n <= 8
    ensures Pow2(n) <= 256
    decreases 8 - n
  {
    if n == 8 {
      assert Pow2(4) == 16;
      assert Pow2(8) == 256;
    } else {
      Pow2Small(n + 1);
    }
  }

  /** Capped doubling in closed form: 2^m - 2 up to attempt 9, then 300 seconds more each time. */
  lemma {:induction false} BackoffClosedForm(m: int)
    requires 1 <= m
    ensures TotalDelay(m - 1) == Schedule(m)
    decreases m
  {
    if m == 1 {
      assert Pow2(1) == 2;
    } else {
      BackoffClosedForm(m - 1);
      if m <= 9 {
        Pow2Small(m - 1);
      } else {
        Pow2Large(m - 1);
        if m == 10 {
          assert Pow2(4) == 16;
          assert Pow2(9) == 512;
        }
      }
    }
  }

  /** The delay that a call imposes on the next attempt of the row. */
  function Imposed(r: Row, c: Call, id: JobId): real {
    if c.FailJob? && c.id == id && r.leaseOwner == Some(c.worker) && RowStep(r, c, id).status == Retry
    then RowStep(r, c, id).availableAt - c.now else 0.0
  }

  function ImposedBy(db: Db, c: Call, id: JobId): real {
    if id in db.jobs then Imposed(db.jobs[id], c, id) else 0.0
  }

  /** All the delays that the first n calls impose on the job. */
  function DelayOf(calls: seq<Call>, n: nat, id: JobId): real
    requires n <= |calls|
  {
    if n == 0 then 0.0 else DelayOf(calls, n - 1, id) + ImposedBy(At(calls, n - 1), calls[n - 1], id)
  }

  /** Failed attempts that scheduled another one. */
  function Waits(r: Row): nat {
    if r.status == Retry || r.attempts == 0 then r.attempts else r.attempts - 1
  }

  /** `begun` is the time of the last claim. */
  predicate OnSchedule(r: Row, imposed: real, begun: Time) {
    && Sane(r)
    && (!r.cancelRequested ==> imposed == TotalDelay(Waits(r)) as real)
    && (0 < r.attempts ==> r.createdAt + TotalDelay(r.attempts - 1) as real <= begun)
    && (r.status == Retry && !r.cancelRequested ==> r.createdAt + TotalDelay(r.attempts) as real <= r.availableAt)
  }

  /** A worker that fails the job took its time after it had claimed it. */
  predicate FailsInTime(r: Row, c: Call, id: JobId, begun: Time) {
    c.FailJob? && c.id == id && r.leaseOwner == Some(c.worker) ==> begun <= c.now
  }

  function BegunAfter(begun: Time, c: Call, id: JobId): Time {
    if Claims(c, id) then c.now else begun
  }

  lemma OnScheduleStep(r: Row, imposed: real, begun: Time, c: Call, id: JobId)
    requires OnSchedule(r, imposed, begun) && RowEnabled(r, c, id) && RowHonest(r, c, id)
    requires FailsInTime(r, c, id, begun) && !Recovers(r, c)
    ensures OnSchedule(RowStep(r, c, id), imposed + Imposed(r, c, id), BegunAfter(begun, c, id))
  {
    SaneStep(r, c, id);
  }

  lemma {:induction false} RecoveriesAppend(db: Db, a: seq<Call>, b: seq<Call>, id: JobId)
    ensures RecoveriesOf(db, a + b, id) == RecoveriesOf(db, a, id) + RecoveriesOf(Run(db, a), b, id)
    decreases |a|
  {
    if a == [] {
      assert a + b == b;
    } else {
      assert (a + b)[0] == a[0] && (a + b)[1..] == a[1..] + b;
      RecoveriesAppend(Exec(db, a[0]), a[1..], b, id);
    }
  }

  lemma NotRecoveredBefore(calls: seq<Call>, k: nat, n: nat, id: JobId)
    requires k <= n <= |calls| && RecoveriesOf(EMPTY_DB, calls[..n], id) == 0
    ensures RecoveriesOf(EMPTY_DB, calls[..k], id) == 0
    ensures k < n && id in At(calls, k).jobs ==> !Recovers(At(calls, k).jobs[id], calls[k])
  {
    assert calls[..n] == calls[..k] + calls[k..n];
    RecoveriesAppend(EMPTY_DB, calls[..k], calls[k..n], id);
    if k < n { assert calls[k..n][0] == calls[k]; }
  }

  /** Each worker's own clock does not go back: it takes the time of a failure after that of a claim it
      has made before. */
  predicate OwnClocks(calls: seq<Call>) {
    forall m, i :: 0 <= m < i < |calls| && calls[m].ClaimNext? && calls[i].FailJob? && calls[i].worker == calls[m].worker ==>
                     calls[m].now <= calls[i].now
  }

  /** The time of the last claim of the job among the first n calls. */
  function Begun(calls: seq<Call>, n: nat, id: JobId): Time
    requires n <= |calls|
  {
    if n == 0 then 0.0 else BegunAfter(Begun(calls, n - 1, id), calls[n - 1], id)
  }

  lemma OwnerStep(db: Db, c: Call, id: JobId, w: Worker)
    requires Enabled(db, c) && Owns(Exec(db, c), id, w)
    ensures if Claims(c, id) then ClaimsBy(c, w) else Owns(db, id, w)
  {
    ExecRow(db, c, id);
  }

  /** An owner has made the last claim of the job. */
  lemma {:induction false} OwnerClaimedLast(calls: seq<Call>, n: nat, id: JobId, w: Worker) returns (m: nat)
    requires n <= |calls| && Valid(EMPTY_DB, calls[..n]) && Owns(At(calls, n), id, w)
    ensures m < n && ClaimsBy(calls[m], w) && calls[m].now == Begun(calls, n, id)
    decreases n
  {
    m := 0;
    if n > 0 {
      RunOneMore(EMPTY_DB, calls, n - 1);
      OwnerStep(At(calls, n - 1), calls[n - 1], id, w);
      if Claims(calls[n - 1], id) {
        m := n - 1;
      } else {
        m := OwnerClaimedLast(calls, n - 1, id, w);
      }
    }
  }

  lemma ScheduledNext(calls: seq<Call>, at: seq<nat>, n: nat, id: JobId)
    requires Possible(calls, at) && n < |calls| && id in At(calls, n).jobs
    requires OnSchedule(At(calls, n).jobs[id], DelayOf(calls, n, id), Begun(calls, n, id))
    requires FailsInTime(At(calls, n).jobs[id], calls[n], id, Begun(calls, n, id)) && !Recovers(At(calls, n).jobs[id], calls[n])
    ensures id in At(calls, n + 1).jobs
    ensures OnSchedule(At(calls, n + 1).jobs[id], DelayOf(calls, n + 1, id), Begun(calls, n + 1, id))
  {
    PrefixIsHonest(calls, at, n + 1);
    RunOneMore(EMPTY_DB, calls, n);
    ExecRow(At(calls, n), calls[n], id);
    OnScheduleStep(At(calls, n).jobs[id], DelayOf(calls, n, id), Begun(calls, n, id), calls[n], id);
  }

  predicate ScheduledAt(calls: seq<Call>, n: nat, id: JobId)
    requires n <= |calls|
  {
    if id in At(calls, n).jobs then OnSchedule(At(calls, n).jobs[id], DelayOf(calls, n, id), Begun(calls, n, id))
    else DelayOf(calls, n, id) == 0.0
  }

  lemma {:induction false} AlwaysScheduled(calls: seq<Call>, at: seq<nat>, n: nat, id: JobId)
    requires Possible(calls, at) && OwnClocks(calls) && n <= |calls|
    requires RecoveriesOf(EMPTY_DB, calls[..n], id) == 0
    ensures ScheduledAt(calls, n, id)
    decreases n
  {
    if n > 0 {
      var m := n - 1;
      NotRecoveredBefore(calls, m, n, id);
      AlwaysScheduled(calls, at, m, id);
      if id !in At(calls, m).jobs {
        ScheduledFirst(calls, m, id);
      } else {
        if calls[m].FailJob? && calls[m].id == id && Owns(At(calls, m), id, calls[m].worker) {
          PrefixIsHonest(calls, at, m);
          var claim := OwnerClaimedLast(calls, m, id, calls[m].worker);
        }
        ScheduledNext(calls, at, m, id);
      }
    }
  }

  lemma ScheduledFirst(calls: seq<Call>, n: nat, id: JobId)
    requires n < |calls| && id !in At(calls, n).jobs && ScheduledAt(calls, n, id)
    ensures ScheduledAt(calls, n + 1, id)
  {
    RunOneMore(EMPTY_DB, calls, n);
    ExecRow(At(calls, n), calls[n], id);
  }

  /** When the m-th claim of a job whose lease was never recovered comes, the delays imposed on it
      add up to exactly Schedule(m), and the claim is at least that long after the job's creation. */
  lemma BackoffSchedule(calls: seq<Call>, at: seq<nat>, n: nat, id: JobId)
    requires Possible(calls, at) && OwnClocks(calls)
    requires n < |calls| && Claims(calls[n], id) && RecoveriesOf(EMPTY_DB, calls[..n + 1], id) == 0
    ensures id in At(calls, n).jobs
    ensures var m := ClaimsOf(calls[..n], id) + 1;
            && DelayOf(calls, n, id) == Schedule(m) as real
            && At(calls, n).jobs[id].createdAt + Schedule(m) as real <= calls[n].now
  {
    NotRecoveredBefore(calls, n, n + 1, id);
    PrefixIsHonest(calls, at, n + 1);
    RunOneMore(EMPTY_DB, calls, n);
    ExecRow(At(calls, n), calls[n], id);
    AlwaysScheduled(calls, at, n, id);
    AttemptsCountClaims(EMPTY_DB, calls[..n], id);
    ClaimedOnSchedule(At(calls, n).jobs[id], DelayOf(calls, n, id), Begun(calls, n, id), calls[n], id);
  }

  lemma ClaimedOnSchedule(r: Row, imposed: real, begun: Time, claim: Call, id: JobId)
    requires OnSchedule(r, imposed, begun) && Claims(claim, id) && RowEnabled(r, claim, id) && !Recovers(r, claim)
    ensures imposed == Schedule(r.attempts + 1) as real && r.createdAt + Schedule(r.attempts + 1) as real <= claim.now
  {
    BackoffClosedForm(r.attempts + 1);
  }

  // ---------------------------------------------------------------- bounded overtaking

  /** How many more times a job can be claimed if its lease is never recovered. */
  function Credit(r: Row): nat {
    if r.cancelRequested then 0
    else
      match r.status
      case Pending => Cap(r)
      case Processing => Max(0, r.maxAttempts - r.attempts)
      case Retry => Max(1, r.maxAttempts - r.attempts)
      case _ => 0
  }

  lemma CreditStep(r: Row, c: Call, id: JobId)
    requires Sane(r) && RowEnabled(r, c, id) && RowHonest(r, c, id)
    ensures Credit(RowStep(r, c, id)) + (if Claims(c, id) then 1 else 0) <= Credit(r) + (if Recovers(r, c) then 1 else 0)
  {
  }

  /** For a job that was never recovered the credit is what max_attempts leaves. */
  lemma CreditIsRemainingAttempts(calls: seq<Call>, at: seq<nat>, id: JobId)
    requires Possible(calls, at)
    requires id in Run(EMPTY_DB, calls).jobs && RecoveriesOf(EMPTY_DB, calls, id) == 0
    ensures var r := Run(EMPTY_DB, calls).jobs[id]; Credit(r) <= Max(1, r.maxAttempts) - r.attempts
  {
    ReachableRowsAreSane(calls, at);
    WithinCapRuns(EMPTY_DB, calls, id, 0);
  }

  function CreditOf(db: Db, ids: seq<JobId>): nat {
    if ids == [] then 0 else (if ids[0] in db.jobs then Credit(db.jobs[ids[0]]) else 0) + CreditOf(db, ids[1..])
  }

  function ClaimsIn(c: Call, ids: seq<JobId>): nat {
    if ids == [] then 0 else (if Claims(c, ids[0]) then 1 else 0) + ClaimsIn(c, ids[1..])
  }

  function RecoveredIn(db: Db, c: Call, ids: seq<JobId>): nat {
    if ids == [] then 0
    else (if ids[0] in db.jobs && Recovers(db.jobs[ids[0]], c) then 1 else 0) + RecoveredIn(db, c, ids[1..])
  }

  /** The number of leases of the jobs `ids` that the run takes back. */
  function RunRecoveries(db: Db, calls: seq<Call>, ids: seq<JobId>): nat
    decreases |calls|
  {
    if calls == [] then 0 else RecoveredIn(db, calls[0], ids) + RunRecoveries(Exec(db, calls[0]), calls[1..], ids)
  }

  /** The claim calls that have a time of at least `from`. */
  function ClaimCalls(calls: seq<Call>, from: Time): nat {
    if calls == [] then 0 else (if calls[0].ClaimNext? && from <= calls[0].now then 1 else 0) + ClaimCalls(calls[1..], from)
  }

  function CreatedIn(db: Db, c: Call, ids: seq<JobId>): nat {
    if ids == [] then 0
    else (if ids[0] !in db.jobs && ids[0] in Exec(db, c).jobs then Credit(Exec(db, c).jobs[ids[0]]) else 0) + CreatedIn(db, c, ids[1..])
  }

  /** The claims that the jobs `ids` bring with them that are created in the run. */
  function RunCreations(db: Db, calls: seq<Call>, ids: seq<JobId>): nat
    decreases |calls|
  {
    if calls == [] then 0 else CreatedIn(db, calls[0], ids) + RunCreations(Exec(db, calls[0]), calls[1..], ids)
  }

  lemma {:induction false} CreditOfStep(db: Db, c: Call, ids: seq<JobId>)
    requires SaneDb(db) && Enabled(db, c) && Honest(db, c)
    ensures CreditOf(Exec(db, c), ids) + ClaimsIn(c, ids) <= CreditOf(db, ids) + RecoveredIn(db, c, ids) + CreatedIn(db, c, ids)
    decreases |ids|
  {
    if ids != [] {
      ExecRow(db, c, ids[0]);
      if ids[0] in db.jobs { CreditStep(db.jobs[ids[0]], c, ids[0]); }
      CreditOfStep(db, c, ids[1..]);
    }
  }

  lemma {:induction false} PickIsCounted(c: Call, ids: seq<JobId>, id: JobId)
    requires Claims(c, id) && id in ids
    ensures 1 <= ClaimsIn(c, ids)
    decreases |ids|
  {
    if ids[0] != id { PickIsCounted(c, ids[1..], id); }
  }

  predicate Serves(calls: seq<Call>, kind: string) {
    forall i :: 0 <= i < |calls| && calls[i].ClaimNext? ==> kind in calls[i].kinds
  }

  /** `ids` lists every other job that is not younger than `j`. */
  ghost predicate CoversOlder(db: Db, j: JobId, ids: seq<JobId>)
    requires j in db.jobs
  {
    forall id :: id in db.jobs && id != j && db.jobs[id].createdAt <= db.jobs[j].createdAt ==> id in ids
  }

  lemma PendingStep(r: Row, c: Call, id: JobId)
    requires Sane(r) && RowEnabled(r, c, id) && RowHonest(r, c, id)
    ensures RowStep(r, c, id).status == Pending ==> r.status == Pending && !Claims(c, id)
    ensures r.status == Pending && !Claims(c, id) ==>
              RowStep(r, c, id).status == Pending || RowStep(r, c, id).cancelRequested
  {
  }

  lemma {:induction false} PendingIsInitial(db: Db, calls: seq<Call>, j: JobId)
    requires SaneDb(db) && Valid(db, calls) && AllHonest(db, calls) && j in db.jobs
    ensures j in Run(db, calls).jobs
    ensures Run(db, calls).jobs[j].status == Pending ==> db.jobs[j].status == Pending
    ensures db.jobs[j].status == Pending && Run(db, calls).jobs[j].status != Pending ==>
              ClaimsOf(calls, j) > 0 || Run(db, calls).jobs[j].cancelRequested
    decreases |calls|
  {
    if calls != [] {
      ExecRow(db, calls[0], j);
      PendingStep(db.jobs[j], calls[0], j);
      SaneExec(db, calls[0]);
      PendingIsInitial(Exec(db, calls[0]), calls[1..], j);
      if Exec(db, calls[0]).jobs[j].cancelRequested {
        NeverClaimedAfterCancel(Exec(db, calls[0]), calls[1..], j);
      }
    }
  }

  lemma OvertakerIsOlder(db: Db, c: Call, j: JobId, ids: seq<JobId>)
    requires SaneDb(db) && Enabled(db, c) && j in db.jobs && db.jobs[j].status == Pending
    requires c.ClaimNext? && db.jobs[j].createdAt <= c.now && db.jobs[j].kind in c.kinds && !Claims(c, j)
    requires CoversOlder(db, j, ids)
    ensures 1 <= ClaimsIn(c, ids)
  {
    assert Claimable(RecoverIfStale(db.jobs[j], c.now), c.now, c.kinds);
    assert c.pick.Some?;
    PickIsCounted(c, ids, c.pick.value);
  }

  /** What is not younger now is so for good. */
  lemma CoveredBefore(db: Db, calls: seq<Call>, j: JobId, ids: seq<JobId>)
    requires j in db.jobs && j in Run(db, calls).jobs && CoversOlder(Run(db, calls), j, ids)
    ensures CoversOlder(db, j, ids)
  {
    FixedColumns(db, calls, j);
    forall id | id in db.jobs && id != j && db.jobs[id].createdAt <= db.jobs[j].createdAt ensures id in ids {
      FixedColumns(db, calls, id);
    }
  }

  lemma {:induction false} OvertakenAtMost(db: Db, calls: seq<Call>, j: JobId, ids: seq<JobId>)
    requires SaneDb(db) && Valid(db, calls) && AllHonest(db, calls)
    requires j in db.jobs && Serves(calls, db.jobs[j].kind)
    requires j in Run(db, calls).jobs && Run(db, calls).jobs[j].status == Pending && CoversOlder(Run(db, calls), j, ids)
    ensures ClaimCalls(calls, db.jobs[j].createdAt) <= CreditOf(db, ids) + RunRecoveries(db, calls, ids) + RunCreations(db, calls, ids)
    decreases |calls|
  {
    if calls != [] {
      var c := calls[0];
      var db1 := Exec(db, c);
      assert forall i :: 0 <= i < |calls[1..]| ==> calls[1..][i] == calls[i + 1];
      SaneExec(db, c);
      ExecRow(db, c, j);
      PendingIsInitial(db1, calls[1..], j);
      PendingStep(db.jobs[j], c, j);
      IdentityStep(db.jobs[j], c, j);
      CoveredBefore(db, calls, j, ids);
      if c.ClaimNext? && db.jobs[j].createdAt <= c.now { OvertakerIsOlder(db, c, j, ids); }
      CreditOfStep(db, c, ids);
      OvertakenAtMost(db1, calls[1..], j, ids);
    }
  }

  /** A pending job of a served kind is claimed or cancelled before the workers have made more claim
      calls (at or after its creation time) than the jobs that are not younger have claims left or bring
      with them, plus one for each of their leases recovered meanwhile; `older` lists these jobs, in any
      order. */
  lemma BoundedOvertaking(before: seq<Call>, calls: seq<Call>, at: seq<nat>, j: JobId, older: seq<JobId>)
    requires Possible(before + calls, at)
    requires var db := Run(EMPTY_DB, before);
             && j in db.jobs && db.jobs[j].status == Pending && Serves(calls, db.jobs[j].kind)
             && j in Run(db, calls).jobs && CoversOlder(Run(db, calls), j, older)
             && ClaimCalls(calls, db.jobs[j].createdAt) >
                CreditOf(db, older) + RunRecoveries(db, calls, older) + RunCreations(db, calls, older)
    ensures Run(EMPTY_DB, before + calls) == Run(Run(EMPTY_DB, before), calls)
    ensures Run(EMPTY_DB, before + calls).jobs[j].status != Pending
    ensures ClaimsOf(calls, j) > 0 || Run(EMPTY_DB, before + calls).jobs[j].cancelRequested
  {
    var db := Run(EMPTY_DB, before);
    RunAppend(EMPTY_DB, before, calls);
    ReachableRowsAreSane(before + calls, at);
    SaneRuns(EMPTY_DB, before);
    PendingIsInitial(db, calls, j);
    if Run(db, calls).jobs[j].status == Pending {
      OvertakenAtMost(db, calls, j, older);
    }
  }
}
