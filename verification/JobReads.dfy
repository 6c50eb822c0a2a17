/** Where the reads are. complete_job, fail_job and purge_old_jobs read rows some calls before they write
    them; a run comes with the position of each read. Nothing else is assumed of a run, so the results
    here and in JobAttempts and JobTiming hold however the statements of all processes interleave. */
module JobReads {
  import opened Options
  import opened JobTable
  import opened JobRuns
  import opened JobSafety
  import opened JobLeases

  function At(calls: seq<Call>, n: nat): Db
    requires n <= |calls|
  {
    Run(EMPTY_DB, calls[..n])
  }

  /** What one call of a valid run makes of a row. */
  lemma StepAt(calls: seq<Call>, k: nat, id: JobId)
    requires Valid(EMPTY_DB, calls) && k < |calls|
    ensures Enabled(At(calls, k), calls[k]) && At(calls, k + 1) == Exec(At(calls, k), calls[k])
    ensures id in At(calls, k).jobs ==>
              && RowEnabled(At(calls, k).jobs[id], calls[k], id)
              && id in At(calls, k + 1).jobs && At(calls, k + 1).jobs[id] == RowStep(At(calls, k).jobs[id], calls[k], id)
  {
    RunSplit(EMPTY_DB, calls, k + 1);
    RunOneMore(EMPTY_DB, calls, k);
    ExecRow(At(calls, k), calls[k], id);
  }

  /** The call calls[i] read its row before calls[k], and its worker did nothing else until it wrote. A
      call that found no row returns without writing; it stands where it read. */
  predicate ReadAt(calls: seq<Call>, k: nat, i: nat)
    requires k <= i < |calls| && ReadsFirst(calls[i])
  {
    var c, db := calls[i], At(calls, k);
    && (c.id in db.jobs ==> Saw(c, db.jobs[c.id]))
    && (c.id !in db.jobs ==> k == i)
    && (!c.ExpireJob? ==> forall m :: k <= m < i ==> !OwnCall(calls[m], c.worker))
  }

  /** `at[i]` is the position of the read of calls[i]. */
  predicate Reads(calls: seq<Call>, at: seq<nat>) {
    |at| == |calls| && forall i :: 0 <= i < |calls| && ReadsFirst(calls[i]) ==> at[i] <= i && ReadAt(calls, at[i], i)
  }

  /** The possible runs from the empty tables. */
  ghost predicate Possible(calls: seq<Call>, at: seq<nat>) {
    Valid(EMPTY_DB, calls) && Reads(calls, at)
  }

  // ---------------------------------------------------------------- what a read is still good for

  lemma EndedStep(r: Row, c: Call, id: JobId)
    requires Sane(r) && Ended(r) && RowEnabled(r, c, id) && RowHonest(r, c, id)
    ensures Ended(RowStep(r, c, id))
  {
  }

  lemma {:induction false} EndedForGood(db: Db, calls: seq<Call>, id: JobId)
    requires SaneDb(db) && Valid(db, calls) && AllHonest(db, calls)
    requires id in db.jobs && Ended(db.jobs[id])
    ensures id in Run(db, calls).jobs && Ended(Run(db, calls).jobs[id])
    decreases |calls|
  {
    if calls != [] {
      ExecRow(db, calls[0], id);
      EndedStep(db.jobs[id], calls[0], id);
      SaneExec(db, calls[0]);
      EndedForGood(Exec(db, calls[0]), calls[1..], id);
    }
  }

  /** What was read before `between` still holds as RowHonest says after it. */
  lemma ReadStaysHonest(db: Db, between: seq<Call>, c: Call)
    requires SaneDb(db) && Valid(db, between) && AllHonest(db, between)
    requires ReadsFirst(c) && c.id in db.jobs && Saw(c, db.jobs[c.id])
    requires !c.ExpireJob? ==> NoClaimBy(between, c.worker)
    ensures Honest(Run(db, between), c)
  {
    FixedColumns(db, between, c.id);
    AttemptsCountClaims(db, between, c.id);
    if c.ExpireJob? {
      EndedForGood(db, between, c.id);
    } else {
      if db.jobs[c.id].cancelRequested { NeverClaimedAfterCancel(db, between, c.id); }
      if Run(db, between).jobs[c.id].leaseOwner == Some(c.worker) && ClaimsOf(between, c.id) > 0 {
        LosesOwnership(db, between, c.id, c.worker);
      }
    }
  }

  lemma Segment(calls: seq<Call>, k: nat, i: nat)
    requires k <= i <= |calls|
    ensures At(calls, i) == Run(At(calls, k), calls[k..i])
    ensures Valid(EMPTY_DB, calls[..i]) <==> Valid(EMPTY_DB, calls[..k]) && Valid(At(calls, k), calls[k..i])
    ensures AllHonest(EMPTY_DB, calls[..i]) <==> AllHonest(EMPTY_DB, calls[..k]) && AllHonest(At(calls, k), calls[k..i])
  {
    assert calls[..i][..k] == calls[..k] && calls[..i][k..] == calls[k..i];
    RunSplit(EMPTY_DB, calls[..i], k);
  }

  lemma NoClaimBetween(calls: seq<Call>, k: nat, i: nat)
    requires k <= i < |calls| && ReadsFirst(calls[i]) && ReadAt(calls, k, i) && !calls[i].ExpireJob?
    ensures NoClaimBy(calls[k..i], calls[i].worker)
  {
    forall m | 0 <= m < i - k ensures !ClaimsBy(calls[k..i][m], calls[i].worker) {
      assert calls[k..i][m] == calls[k + m];
    }
  }

  lemma ReadAtIsHonest(calls: seq<Call>, k: nat, i: nat)
    requires k <= i < |calls| && ReadsFirst(calls[i]) && ReadAt(calls, k, i)
    requires Valid(EMPTY_DB, calls[..i]) && AllHonest(EMPTY_DB, calls[..i])
    ensures Honest(At(calls, i), calls[i])
  {
    Segment(calls, k, i);
    SaneRuns(EMPTY_DB, calls[..k]);
    if calls[i].id in At(calls, k).jobs {
      if !calls[i].ExpireJob? { NoClaimBetween(calls, k, i); }
      ReadStaysHonest(At(calls, k), calls[k..i], calls[i]);
    }
  }

  lemma ReadIsHonest(calls: seq<Call>, at: seq<nat>, i: nat)
    requires Reads(calls, at) && i < |calls| && Valid(EMPTY_DB, calls[..i]) && AllHonest(EMPTY_DB, calls[..i])
    ensures Honest(At(calls, i), calls[i])
  {
    if ReadsFirst(calls[i]) {
      assert ReadAt(calls, at[i], i);
      ReadAtIsHonest(calls, at[i], i);
    }
  }

  lemma {:induction false} PrefixIsHonest(calls: seq<Call>, at: seq<nat>, n: nat)
    requires Possible(calls, at) && n <= |calls|
    ensures Valid(EMPTY_DB, calls[..n]) && AllHonest(EMPTY_DB, calls[..n]) && SaneDb(At(calls, n))
    decreases n
  {
    RunSplit(EMPTY_DB, calls, n);
    if n > 0 {
      PrefixIsHonest(calls, at, n - 1);
      RunOneMore(EMPTY_DB, calls, n - 1);
      ReadIsHonest(calls, at, n - 1);
    }
    SaneRuns(EMPTY_DB, calls[..n]);
  }

  /** The invariant of every row in every reachable state, however reads and writes interleave. */
  lemma ReachableRowsAreSane(calls: seq<Call>, at: seq<nat>)
    requires Possible(calls, at)
    ensures AllHonest(EMPTY_DB, calls) && SaneDb(Run(EMPTY_DB, calls))
  {
    assert calls[..|calls|] == calls;
    PrefixIsHonest(calls, at, |calls|);
  }

  // ---------------------------------------------------------------- cancellations between read and write

  /** The call cancels the job. */
  predicate CancelsJob(db: Db, c: Call, id: JobId) {
    && c.RequestCancel? && c.id == id && id in db.jobs
    && db.jobs[id].tenantId == c.tenantId && !Settled(db.jobs[id].status)
  }

  /** request_cancel is called with effect somewhere in the run. */
  predicate CancelledIn(db: Db, calls: seq<Call>, id: JobId)
    decreases |calls|
  {
    calls != [] && (CancelsJob(db, calls[0], id) || CancelledIn(Exec(db, calls[0]), calls[1..], id))
  }

  lemma FlagStep(db: Db, c: Call, id: JobId)
    requires id in db.jobs
    ensures id in Exec(db, c).jobs
    ensures Exec(db, c).jobs[id].cancelRequested <==> db.jobs[id].cancelRequested || CancelsJob(db, c, id)
  {
    ExecRow(db, c, id);
  }

  /** The flag is set exactly by the effective cancellations. */
  lemma {:induction false} FlagAfter(db: Db, calls: seq<Call>, id: JobId)
    requires id in db.jobs
    ensures id in Run(db, calls).jobs
    ensures Run(db, calls).jobs[id].cancelRequested <==> db.jobs[id].cancelRequested || CancelledIn(db, calls, id)
    decreases |calls|
  {
    if calls != [] {
      FlagStep(db, calls[0], id);
      FlagAfter(Exec(db, calls[0]), calls[1..], id);
    }
  }

  /** A cancellation of the job falls between the read of calls[i] and its write, and the write takes
      effect. */
  predicate Overtaken(calls: seq<Call>, at: seq<nat>, i: nat, id: JobId)
    requires i < |calls|
  {
    var c := calls[i];
    && (c.CompleteJob? || c.FailJob?) && i < |at| && at[i] <= i && c.id == id && id in At(calls, i).jobs && Hits(At(calls, i).jobs[id], c)
    && CancelledIn(At(calls, at[i]), calls[at[i]..i], id)
  }

  lemma OvertakenIsOverrun(calls: seq<Call>, at: seq<nat>, i: nat, id: JobId)
    requires Possible(calls, at) && i < |calls|
    ensures Overruns(At(calls, i), calls[i], id) <==> Overtaken(calls, at, i, id)
  {
    var c := calls[i];
    if (c.CompleteJob? || c.FailJob?) && c.id == id && id in At(calls, i).jobs {
      var k := at[i];
      assert ReadAt(calls, k, i);
      Segment(calls, k, i);
      FlagAfter(At(calls, k), calls[k..i], id);
    }
  }

  lemma SoundOneMore(calls: seq<Call>, at: seq<nat>, n: nat, id: JobId)
    requires Possible(calls, at) && n < |calls| && SoundAt(At(calls, n), id)
    ensures SoundAt(At(calls, n + 1), id) <==> !Overtaken(calls, at, n, id)
  {
    RunOneMore(EMPTY_DB, calls, n);
    PrefixIsHonest(calls, at, n + 1);
    OvertakenIsOverrun(calls, at, n, id);
    SoundStep(At(calls, n), calls[n], id);
  }

  lemma {:induction false} SoundUnlessOvertaken(calls: seq<Call>, at: seq<nat>, n: nat, id: JobId)
    requires Possible(calls, at) && n <= |calls| && forall i :: 0 <= i < n ==> !Overtaken(calls, at, i, id)
    ensures SoundAt(At(calls, n), id)
    decreases n
  {
    if n > 0 {
      SoundUnlessOvertaken(calls, at, n - 1, id);
      SoundOneMore(calls, at, n - 1, id);
    }
  }

  /** The stronger invariant of a job (a result exactly while complete, and once cancelled only
      processing, cancelled or expired) holds all through a run if and only if no cancellation of the
      job falls between the read and the effective write of a complete_job or fail_job. */
  lemma InvariantHoldsExactly(calls: seq<Call>, at: seq<nat>, id: JobId)
    requires Possible(calls, at)
    ensures (forall n :: 0 <= n <= |calls| ==> SoundAt(At(calls, n), id))
            <==> (forall i :: 0 <= i < |calls| ==> !Overtaken(calls, at, i, id))
  {
    if forall i :: 0 <= i < |calls| ==> !Overtaken(calls, at, i, id) {
      forall n | 0 <= n <= |calls| ensures SoundAt(At(calls, n), id) { SoundUnlessOvertaken(calls, at, n, id); }
    }
    if forall n :: 0 <= n <= |calls| ==> SoundAt(At(calls, n), id) {
      forall i | 0 <= i < |calls| ensures !Overtaken(calls, at, i, id) {
        assert SoundAt(At(calls, i), id) && SoundAt(At(calls, i + 1), id);
        SoundOneMore(calls, at, i, id);
      }
    }
  }

  /** A complete job carries the cancellation flag if and only if request_cancel took effect between the
      read and the write of the call that completed it. */
  lemma CompleteThoughCancelled(calls: seq<Call>, at: seq<nat>, id: JobId) returns (i: nat)
    requires Possible(calls, at)
    requires id in Run(EMPTY_DB, calls).jobs && Run(EMPTY_DB, calls).jobs[id].status == Complete
    ensures i < |calls| && CompletesJob(At(calls, i), calls[i], id)
    ensures Run(EMPTY_DB, calls).jobs[id].cancelRequested <==> CancelledIn(At(calls, at[i]), calls[at[i]..i], id)
  {
    i := ResultIsTheOwners(EMPTY_DB, calls, id);
    assert ReadAt(calls, at[i], i);
    Segment(calls, at[i], i);
    FlagAfter(At(calls, at[i]), calls[at[i]..i], id);
  }

  /** The job is cancelled, and its row shows it. */
  predicate Withdrawn(db: Db, id: JobId) {
    id in db.jobs && db.jobs[id].cancelRequested && db.jobs[id].status in {Processing, Cancelled, Expired}
  }

  lemma WithdrawnStep(db: Db, c: Call, id: JobId)
    requires Withdrawn(db, id) && Enabled(db, c)
    ensures Withdrawn(Exec(db, c), id) <==> !Overruns(db, c, id)
  {
    ExecRow(db, c, id);
  }

  lemma WithdrawnOneMore(calls: seq<Call>, at: seq<nat>, n: nat, id: JobId)
    requires Possible(calls, at) && n < |calls| && Withdrawn(At(calls, n), id)
    ensures Withdrawn(At(calls, n + 1), id) <==> !Overtaken(calls, at, n, id)
  {
    RunOneMore(EMPTY_DB, calls, n);
    PrefixIsHonest(calls, at, n + 1);
    OvertakenIsOverrun(calls, at, n, id);
    WithdrawnStep(At(calls, n), calls[n], id);
  }

  lemma {:induction false} WithdrawnUnlessOvertaken(calls: seq<Call>, at: seq<nat>, n: nat, k: nat, id: JobId)
    requires Possible(calls, at) && n <= k <= |calls| && Withdrawn(At(calls, n), id)
    requires forall i :: n <= i < k ==> !Overtaken(calls, at, i, id)
    ensures Withdrawn(At(calls, k), id)
    decreases k
  {
    if n < k {
      WithdrawnUnlessOvertaken(calls, at, n, k - 1, id);
      WithdrawnOneMore(calls, at, k - 1, id);
    }
  }

  /** A job whose cancellation is accepted is never claimed again, and it stays processing, cancelled or
      expired for the rest of the run if and only if no call that read it before takes effect after the
      cancellation. */
  lemma CancellationIsPermanent(calls: seq<Call>, at: seq<nat>, n: nat, id: JobId)
    requires Possible(calls, at) && n < |calls| && CancelsJob(At(calls, n), calls[n], id)
    ensures ClaimsOf(calls[n + 1..], id) == 0
    ensures (forall k :: n < k <= |calls| ==> Withdrawn(At(calls, k), id))
            <==> (forall i :: n < i < |calls| ==> !Overtaken(calls, at, i, id))
  {
    CancellationShows(calls, at, n, id);
    if forall i :: n < i < |calls| ==> !Overtaken(calls, at, i, id) {
      forall k | n < k <= |calls| ensures Withdrawn(At(calls, k), id) { WithdrawnUnlessOvertaken(calls, at, n + 1, k, id); }
    }
    if forall k :: n < k <= |calls| ==> Withdrawn(At(calls, k), id) {
      forall i | n < i < |calls| ensures !Overtaken(calls, at, i, id) {
        assert Withdrawn(At(calls, i), id) && Withdrawn(At(calls, i + 1), id);
        WithdrawnOneMore(calls, at, i, id);
      }
    }
  }

  lemma CancellationShows(calls: seq<Call>, at: seq<nat>, n: nat, id: JobId)
    requires Possible(calls, at) && n < |calls| && CancelsJob(At(calls, n), calls[n], id)
    ensures Withdrawn(At(calls, n + 1), id) && ClaimsOf(calls[n + 1..], id) == 0
  {
    RunOneMore(EMPTY_DB, calls, n);
    ExecRow(At(calls, n), calls[n], id);
    PrefixIsHonest(calls, at, n);
    RunSplit(EMPTY_DB, calls, n + 1);
    NeverClaimedAfterCancel(At(calls, n + 1), calls[n + 1..], id);
  }

  lemma ReadBeforeFlag(calls: seq<Call>, at: seq<nat>, i: nat, n: nat, id: JobId)
    requires Possible(calls, at) && n <= i < |calls| && CompletesJob(At(calls, i), calls[i], id)
    requires id in At(calls, n).jobs && At(calls, n).jobs[id].cancelRequested
    ensures at[i] < n && id in At(calls, at[i]).jobs && !At(calls, at[i]).jobs[id].cancelRequested
  {
    assert ReadAt(calls, at[i], i);
    if at[i] >= n {
      Segment(calls, n, at[i]);
      FlagAfter(At(calls, n), calls[n..at[i]], id);
    }
  }

  predicate CompleteAt(calls: seq<Call>, k: nat, id: JobId)
    requires k <= |calls|
  {
    id in At(calls, k).jobs && At(calls, k).jobs[id].status == Complete
  }

  /** calls[i] completes the job although it had read it before position n. */
  predicate CompletesLate(calls: seq<Call>, at: seq<nat>, n: nat, i: nat, id: JobId)
    requires i < |calls|
  {
    CompletesJob(At(calls, i), calls[i], id) && i < |at| && at[i] < n
  }

  lemma CompletionShows(calls: seq<Call>, i: nat, id: JobId)
    requires Valid(EMPTY_DB, calls) && i < |calls| && CompletesJob(At(calls, i), calls[i], id)
    ensures CompleteAt(calls, i + 1, id)
  {
    StepAt(calls, i, id);
  }

  lemma CompletesNow(calls: seq<Call>, k: nat, id: JobId)
    requires Valid(EMPTY_DB, calls) && k < |calls| && !CompleteAt(calls, k, id) && CompleteAt(calls, k + 1, id)
    ensures CompletesJob(At(calls, k), calls[k], id)
  {
    StepAt(calls, k, id);
    BecomesComplete(At(calls, k), calls[k], id);
  }

  lemma {:induction false} BecameComplete(calls: seq<Call>, n: nat, k: nat, id: JobId) returns (i: nat)
    requires Valid(EMPTY_DB, calls) && n <= k <= |calls| && !CompleteAt(calls, n, id) && CompleteAt(calls, k, id)
    ensures n <= i < k && CompletesJob(At(calls, i), calls[i], id)
    decreases k
  {
    if CompleteAt(calls, k - 1, id) {
      i := BecameComplete(calls, n, k - 1, id);
    } else {
      i := k - 1;
      CompletesNow(calls, i, id);
    }
  }

  /** A job that is cancelled and not complete at n is complete at some later position if and only if it is
      then completed by a call that had read it before n. */
  lemma CompletedByAnOlderRead(calls: seq<Call>, at: seq<nat>, n: nat, id: JobId)
    requires Possible(calls, at) && n <= |calls| && id in At(calls, n).jobs
    requires At(calls, n).jobs[id].cancelRequested && At(calls, n).jobs[id].status != Complete
    ensures (exists k :: n <= k <= |calls| && CompleteAt(calls, k, id))
            <==> (exists i :: n <= i < |calls| && CompletesLate(calls, at, n, i, id))
  {
    if k: nat :| n <= k <= |calls| && CompleteAt(calls, k, id) {
      var i := BecameComplete(calls, n, k, id);
      ReadBeforeFlag(calls, at, i, n, id);
      assert CompletesLate(calls, at, n, i, id);
    }
    if i: nat :| n <= i < |calls| && CompletesLate(calls, at, n, i, id) {
      CompletionShows(calls, i, id);
      assert CompleteAt(calls, i + 1, id);
    }
  }
}
