/** Lease mutual exclusion and fencing, over whole runs and for any interleaving of reads and writes. */
module JobLeases {
  import opened Options
  import opened JobTable
  import opened JobRuns

  // ---------------------------------------------------------------- mutual exclusion

  /** What a worker believes: it may work on the job until `until`. Taking a lease back in the table
      does not reach the worker, so only the worker's own calls end or extend its lease. */
  datatype Lease = Lease(worker: Worker, until: Time)

  function HolderStep(h: Option<Lease>, r: Row, c: Call, id: JobId): Option<Lease> {
    match c
    case ClaimNext(now, worker, _, lease, pick) =>
      if pick == Some(id) then Some(Lease(worker, now + lease as real)) else h
    case RenewLease(now, job, worker, lease) =>
      if job == id && r.status == Processing && r.leaseOwner == Some(worker)
      then Some(Lease(worker, now + lease as real)) else h
    case CompleteJob(_, job, worker, _, _, _, seenCancel) =>
      if job == id && Completes(r, worker, seenCancel) then None else h
    case FailJob(_, job, worker, _, _, _) =>
      if job == id && r.leaseOwner == Some(worker) then None else h
    case _ => h
  }

  /** At every claim of the job the previous lease was given back by its holder or had run out
      strictly before the claim. */
  ghost predicate NoOverlap(db: Db, h: Option<Lease>, calls: seq<Call>, id: JobId)
    decreases |calls|
  {
    calls != [] ==>
      && (Claims(calls[0], id) ==> h == None || h.value.until < calls[0].now)
      && NoOverlap(Exec(db, calls[0]), if id in db.jobs then HolderStep(h, db.jobs[id], calls[0], id) else h, calls[1..], id)
  }

  /** How the belief `h` and the row agree. The times of calls need not be in the order of the calls: a
      call takes its time before it waits for the table. */
  predicate Agree(h: Option<Lease>, r: Row) {
    && (r.status == Processing ==>
          r.leaseOwner.Some? && r.leaseUntil.Some? && h == Some(Lease(r.leaseOwner.value, r.leaseUntil.value)))
    && (r.status in {Pending, Retry} ==> h == None || h.value.until < r.availableAt)
  }

  lemma AgreeStep(h: Option<Lease>, r: Row, c: Call, id: JobId)
    requires Agree(h, r) && RowEnabled(r, c, id)
    ensures Claims(c, id) ==> h == None || h.value.until < c.now
    ensures Agree(HolderStep(h, r, c, id), RowStep(r, c, id))
  {
  }

  lemma {:induction false} NoOverlapFrom(db: Db, h: Option<Lease>, calls: seq<Call>, id: JobId)
    requires Valid(db, calls)
    requires if id in db.jobs then Agree(h, db.jobs[id]) else h == None
    ensures NoOverlap(db, h, calls, id)
    decreases |calls|
  {
    if calls != [] {
      ExecRow(db, calls[0], id);
      if id in db.jobs {
        AgreeStep(h, db.jobs[id], calls[0], id);
        NoOverlapFrom(Exec(db, calls[0]), HolderStep(h, db.jobs[id], calls[0], id), calls[1..], id);
      } else {
        NoOverlapFrom(Exec(db, calls[0]), h, calls[1..], id);
      }
    }
  }

  /** Two unexpired leases on one job never coexist, in any run and whatever order the times of its calls
      are in. */
  lemma LeaseMutualExclusion(calls: seq<Call>, id: JobId)
    requires Valid(EMPTY_DB, calls)
    ensures NoOverlap(EMPTY_DB, None, calls, id)
  {
    NoOverlapFrom(EMPTY_DB, None, calls, id);
  }

  // ---------------------------------------------------------------- fencing

  predicate ClaimsBy(c: Call, w: Worker) {
    c.ClaimNext? && c.worker == w
  }

  predicate NoClaimBy(calls: seq<Call>, w: Worker) {
    forall i :: 0 <= i < |calls| ==> !ClaimsBy(calls[i], w)
  }

  /** A call that a worker makes about the job it is executing. */
  predicate WorksOn(c: Call, w: Worker, id: JobId) {
    (c.RenewLease? || c.CompleteJob? || c.FailJob?) && c.worker == w && c.id == id
  }

  /** A worker that does not own the row changes nothing in it, except that complete_job reports a
      cancellation it has read. */
  predicate Harmless(r: Row, r1: Row, c: Call) {
    || r1 == r
    || (c.CompleteJob? && c.seenCancel && r1 == r.(status := Cancelled, stage := "Cancelled", updatedAt := c.now))
  }

  lemma NotOwnerIsHarmless(r: Row, w: Worker, c: Call, id: JobId)
    requires WorksOn(c, w, id) && r.leaseOwner != Some(w)
    ensures Harmless(r, RowStep(r, c, id), c)
  {
  }

  lemma NotOwnerStays(r: Row, w: Worker, c: Call, id: JobId)
    requires !ClaimsBy(c, w)
    ensures r.leaseOwner != Some(w) ==> RowStep(r, c, id).leaseOwner != Some(w)
    ensures Claims(c, id) && RowEnabled(r, c, id) ==> RowStep(r, c, id).leaseOwner != Some(w)
  {
  }

  predicate Owns(db: Db, id: JobId, w: Worker) {
    id in db.jobs && db.jobs[id].leaseOwner == Some(w)
  }

  lemma {:induction false} LosesOwnership(db: Db, calls: seq<Call>, id: JobId, w: Worker)
    requires Valid(db, calls) && NoClaimBy(calls, w)
    requires !Owns(db, id, w) || ClaimsOf(calls, id) > 0
    ensures !Owns(Run(db, calls), id, w)
    decreases |calls|
  {
    if calls != [] {
      assert !ClaimsBy(calls[0], w);
      assert forall i :: 0 <= i < |calls[1..]| ==> calls[1..][i] == calls[i + 1];
      ExecRow(db, calls[0], id);
      if id in db.jobs { NotOwnerStays(db.jobs[id], w, calls[0], id); }
      LosesOwnership(Exec(db, calls[0]), calls[1..], id, w);
    }
  }

  /** What a worker process is doing, as its own calls show it. */
  datatype Activity = Idle | Busy(job: JobId)

  predicate OwnCall(c: Call, w: Worker) {
    (c.ClaimNext? || c.RenewLease? || c.CompleteJob? || c.FailJob?) && c.worker == w
  }

  predicate MayDo(a: Activity, c: Call, w: Worker) {
    OwnCall(c, w) ==> if c.ClaimNext? then a == Idle else a == Busy(c.id)
  }

  function After(a: Activity, c: Call, w: Worker): Activity {
    if !OwnCall(c, w) || c.RenewLease? then a
    else if c.ClaimNext? && c.pick.Some? then Busy(c.pick.value)
    else Idle
  }

  /** In `calls` the worker `w` behaves as worker.py does: claim, renew any number of times, then
      complete or fail that job, and only then claim again. Everybody else is unconstrained. */
  predicate Sequential(a: Activity, calls: seq<Call>, w: Worker)
    decreases |calls|
  {
    calls == [] || (MayDo(a, calls[0], w) && Sequential(After(a, calls[0], w), calls[1..], w))
  }

  function ActivityAfter(a: Activity, calls: seq<Call>, w: Worker): Activity
    decreases |calls|
  {
    if calls == [] then a else ActivityAfter(After(a, calls[0], w), calls[1..], w)
  }

  lemma SequentialAppend(a: Activity, x: seq<Call>, y: seq<Call>, w: Worker)
    ensures Sequential(a, x + y, w) <==> Sequential(a, x, w) && Sequential(ActivityAfter(a, x, w), y, w)
    ensures ActivityAfter(a, x + y, w) == ActivityAfter(ActivityAfter(a, x, w), y, w)
    decreases |x|
  {
    if x == [] {
      assert x + y == y;
    } else {
      assert (x + y)[0] == x[0] && (x + y)[1..] == x[1..] + y;
      SequentialAppend(After(a, x[0], w), x[1..], y, w);
    }
  }

  /** From the claim of `id` to a later call about it, a sequential worker makes no other claim. */
  lemma {:induction false} OneClaimPerExecution(a: Activity, calls: seq<Call>, w: Worker, c: Call, id: JobId)
    requires Sequential(a, calls + [c], w) && WorksOn(c, w, id)
    requires NoClaimBy(calls, w)
    ensures a == Busy(id)
    decreases |calls|
  {
    if calls != [] {
      assert (calls + [c])[0] == calls[0] && (calls + [c])[1..] == calls[1..] + [c];
      assert !ClaimsBy(calls[0], w);
      assert forall i :: 0 <= i < |calls[1..]| ==> calls[1..][i] == calls[i + 1];
      OneClaimPerExecution(After(a, calls[0], w), calls[1..], w, c, id);
    } else {
      assert (calls + [c])[0] == c;
    }
  }

  /** Fencing: `w` claimed `id` by the call `claim`, and until its later call `c` about the job it
      claimed nothing else; if anybody has claimed the job in between, `c` changes nothing but
      possibly the status of a cancelled job, and completes nothing. The claim before `c` is one of
      the same job because `w` is sequential. */
  lemma Fencing(before: seq<Call>, claim: Call, between: seq<Call>, c: Call, id: JobId, w: Worker)
    requires Valid(EMPTY_DB, before + [claim] + between + [c])
    requires Sequential(Idle, before + [claim] + between + [c], w)
    requires ClaimsBy(claim, w) && NoClaimBy(between, w) && WorksOn(c, w, id)
    ensures claim.pick == Some(id)
    ensures ClaimsOf(between, id) > 0 ==>
              var db := Run(EMPTY_DB, before + [claim] + between);
              && id in db.jobs && id in Exec(db, c).jobs
              && Harmless(db.jobs[id], Exec(db, c).jobs[id], c)
              && CompletedBy(db, c) == {}
  {
    SequentialAppend(Idle, before + [claim], between + [c], w);
    assert before + [claim] + (between + [c]) == before + [claim] + between + [c];
    SequentialAppend(Idle, before, [claim], w);
    OneClaimPerExecution(ActivityAfter(Idle, before + [claim], w), between, w, c, id);
    assert [claim][1..] == [];
    if ClaimsOf(between, id) > 0 {
      RunAppend(EMPTY_DB, before + [claim] + between, [c]);
      RunAppend(EMPTY_DB, before + [claim], between);
      RunAppend(EMPTY_DB, before, [claim]);
      var mid := Run(EMPTY_DB, before);
      ExecRow(mid, claim, id);
      LosesOwnership(Exec(mid, claim), between, id, w);
      RowsStay(Exec(mid, claim), between, id);
      var db := Run(EMPTY_DB, before + [claim] + between);
      ExecRow(db, c, id);
      NotOwnerIsHarmless(db.jobs[id], w, c, id);
    }
  }

  /** The jobs that the call completes. */
  function CompletedBy(db: Db, c: Call): set<JobId> {
    if c.CompleteJob? && c.id in db.jobs && Completes(db.jobs[c.id], c.worker, c.seenCancel) then {c.id} else {}
  }
}
