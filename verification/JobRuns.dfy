/** Runs of the job table: any interleaving of registry calls by API processes and workers. */
module JobRuns {
  import opened Options
  import opened JobTable

  function Run(db: Db, calls: seq<Call>): Db
    decreases |calls|
  {
    if calls == [] then db else Run(Exec(db, calls[0]), calls[1..])
  }

  ghost predicate Valid(db: Db, calls: seq<Call>)
    decreases |calls|
  {
    calls == [] || (Enabled(db, calls[0]) && Valid(Exec(db, calls[0]), calls[1..]))
  }

  predicate Claims(c: Call, id: JobId) {
    c.ClaimNext? && c.pick == Some(id)
  }

  function ClaimsOf(calls: seq<Call>, id: JobId): nat {
    if calls == [] then 0 else (if Claims(calls[0], id) then 1 else 0) + ClaimsOf(calls[1..], id)
  }

  /** The call takes the row back because its lease has run out. */
  predicate Recovers(r: Row, c: Call) {
    (c.RecoverStale? || (c.ClaimNext? && c.kinds != [])) && Stale(r, c.now)
  }

  function RecoveriesOf(db: Db, calls: seq<Call>, id: JobId): nat
    decreases |calls|
  {
    if calls == [] then 0
    else (if id in db.jobs && Recovers(db.jobs[id], calls[0]) then 1 else 0)
         + RecoveriesOf(Exec(db, calls[0]), calls[1..], id)
  }

  // ---------------------------------------------------------------- what was read and still holds at the write

  /** A row whose work is over: it is settled, or it waits for a retry that its cancellation forbids. */
  predicate Ended(r: Row) {
    Settled(r.status) || (r.status == Retry && r.cancelRequested)
  }

  /** What a call has read of the row `r` and what cannot have changed by the time it writes: a
      cancellation stays, the attempts of a worker that still owns the row are those it saw, and a row
      due for deletion is not worked on again. */
  predicate RowHonest(r: Row, c: Call, id: JobId) {
    ReadsFirst(c) && c.id == id ==>
      match c
      case CompleteJob(_, _, _, _, _, _, seenCancel) => seenCancel ==> r.cancelRequested
      case FailJob(_, _, worker, _, _, seen) =>
        && (seen.cancelRequested ==> r.cancelRequested)
        && (r.leaseOwner == Some(worker) ==> seen.attempts == r.attempts && seen.maxAttempts == r.maxAttempts)
      case ExpireJob(now, _, maxAge) => Ended(r) && r.expiresAt < Cutoff(now, maxAge)
      case _ => true
  }

  /** The write takes effect if nothing but a cancellation has happened since the read. */
  predicate Hits(r: Row, c: Call) {
    || (c.CompleteJob? && Completes(r, c.worker, c.seenCancel))
    || (c.FailJob? && !c.seen.cancelRequested && r.leaseOwner == Some(c.worker))
  }

  /** The call takes effect on the job although it has been cancelled since it was read. */
  predicate RowOverruns(r: Row, c: Call, id: JobId) {
    (c.CompleteJob? || c.FailJob?) && c.id == id && r.cancelRequested && Hits(r, c)
  }

  predicate Overruns(db: Db, c: Call, id: JobId) {
    id in db.jobs && RowOverruns(db.jobs[id], c, id)
  }

  predicate Honest(db: Db, c: Call) {
    ReadsFirst(c) && c.id in db.jobs ==> RowHonest(db.jobs[c.id], c, c.id)
  }

  /** Every call of the run knows what it should: JobReads shows that real reads give this. */
  predicate AllHonest(db: Db, calls: seq<Call>)
    decreases |calls|
  {
    calls == [] || (Honest(db, calls[0]) && AllHonest(Exec(db, calls[0]), calls[1..]))
  }

  /** The part of `Enabled` that concerns one row. */
  ghost predicate RowEnabled(r: Row, c: Call, id: JobId) {
    Claims(c, id) ==> c.kinds != [] && Claimable(RecoverIfStale(r, c.now), c.now, c.kinds)
  }

  /** Rows are never dropped, and a call changes a row as `RowStep` says. */
  lemma ExecRow(db: Db, c: Call, id: JobId)
    ensures id in db.jobs ==> id in Exec(db, c).jobs && Exec(db, c).jobs[id] == RowStep(db.jobs[id], c, id)
    ensures id !in db.jobs && id in Exec(db, c).jobs ==>
              c.CreateJob? && c.newId == id && Exec(db, c).jobs[id] == NewRow(c)
    ensures id in db.jobs && Enabled(db, c) ==> RowEnabled(db.jobs[id], c, id)
    ensures id in db.jobs && Honest(db, c) ==> RowHonest(db.jobs[id], c, id)
    ensures id !in db.jobs && Enabled(db, c) ==> !Claims(c, id)
  {
  }

  lemma RunAppend(db: Db, a: seq<Call>, b: seq<Call>)
    ensures Run(db, a + b) == Run(Run(db, a), b)
    ensures Valid(db, a + b) <==> Valid(db, a) && Valid(Run(db, a), b)
    ensures AllHonest(db, a + b) <==> AllHonest(db, a) && AllHonest(Run(db, a), b)
    decreases |a|
  {
    if a == [] {
      assert a + b == b;
    } else {
      assert (a + b)[0] == a[0] && (a + b)[1..] == a[1..] + b;
      RunAppend(Exec(db, a[0]), a[1..], b);
    }
  }

  lemma OneCall(db: Db, c: Call)
    ensures Run(db, [c]) == Exec(db, c)
    ensures Valid(db, [c]) <==> Enabled(db, c)
    ensures AllHonest(db, [c]) <==> Honest(db, c)
  {
    assert [c][1..] == [];
  }

  /** The same for a run and its first n calls and one more. */
  lemma RunOneMore(db: Db, calls: seq<Call>, n: nat)
    requires n < |calls|
    ensures Run(db, calls[..n + 1]) == Exec(Run(db, calls[..n]), calls[n])
    ensures Valid(db, calls[..n + 1]) <==> Valid(db, calls[..n]) && Enabled(Run(db, calls[..n]), calls[n])
    ensures AllHonest(db, calls[..n + 1]) <==> AllHonest(db, calls[..n]) && Honest(Run(db, calls[..n]), calls[n])
  {
    assert calls[..n + 1] == calls[..n] + [calls[n]];
    RunAppend(db, calls[..n], [calls[n]]);
    OneCall(Run(db, calls[..n]), calls[n]);
  }

  /** A run splits at every position. */
  lemma RunSplit(db: Db, calls: seq<Call>, n: nat)
    requires n <= |calls|
    ensures Run(db, calls) == Run(Run(db, calls[..n]), calls[n..])
    ensures Valid(db, calls) <==> Valid(db, calls[..n]) && Valid(Run(db, calls[..n]), calls[n..])
    ensures AllHonest(db, calls) <==> AllHonest(db, calls[..n]) && AllHonest(Run(db, calls[..n]), calls[n..])
  {
    assert calls == calls[..n] + calls[n..];
    RunAppend(db, calls[..n], calls[n..]);
  }

  lemma RowsStay(db: Db, calls: seq<Call>, id: JobId)
    requires id in db.jobs
    ensures id in Run(db, calls).jobs
    decreases |calls|
  {
    if calls != [] {
      ExecRow(db, calls[0], id);
      RowsStay(Exec(db, calls[0]), calls[1..], id);
    }
  }
}
