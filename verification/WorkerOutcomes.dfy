/** What the runs of a worker process come to: how long it follows a job, and what its report makes of it. */
module WorkerOutcomes {
  import opened Options
  import opened JobTable
  import opened JobRuns
  import opened JobEffects
  import opened WorkerProcess

  // ---------------------------------------------------------------- following a job

  /** The turns in which a worker goes on: its child runs, the deadline is not over, and the job is there
      and not cancelled. */
  lemma FollowsTheJob(db: Db, ticks: seq<Tick>, n: nat, id: JobId, w: Worker, deadline: real, i: nat)
    requires i < n <= |ticks| && GoesOn(db, ticks, n, id, w, deadline)
    ensures var seen := SeenAt(db, ticks, i, id, w);
            && ticks[i].exit == None && ticks[i].monotonic <= deadline && id in seen.jobs && !seen.jobs[id].cancelRequested
  {
    assert Reaction(SeenAt(db, ticks, i, id, w), ticks[i], id, deadline) == None;
  }

  /** It stops when the child has ended, whatever else is the case; else for a cancellation or a job that
      is gone, whatever the time; else when the deadline is over. */
  lemma StopsFor(seen: Db, tick: Tick, id: JobId, deadline: real)
    ensures var ending := Reaction(seen, tick, id, deadline);
            var withdrawn := id !in seen.jobs || seen.jobs[id].cancelRequested;
            && (tick.exit.Some? <==> ending.Some? && ending.value in {ChildFailed, BadOutput, Delivered})
            && (ending == Some(Delivered) <==> tick.exit.Some? && tick.exit.value.ResultFile?)
            && (ending == Some(ChildFailed) <==> tick.exit.Some? && tick.exit.value.NonZero?)
            && (ending == Some(CancelledByUser) <==> tick.exit == None && withdrawn)
            && (ending == Some(TimedOut) <==> tick.exit == None && !withdrawn && deadline < tick.monotonic)
  {
  }

  /** After every turn that goes on the worker has a minute left: nobody hands its job to another as long as
      the clocks are at most 60 seconds past that turn. */
  lemma LeaseLastsAMinute(db: Db, ticks: seq<Tick>, i: nat, id: JobId, w: Worker, now: Time)
    requires i < |ticks|
    requires var after := Run(db, Polled(ticks, i + 1, id, w)); id in after.jobs && Owned(after.jobs[id], w) && RanOut(after.jobs[id], now)
    ensures ticks[i].now + 60.0 < now
  {
    var before := Polled(ticks, i, id, w) + Around(ticks[i]);
    var renewal := RenewLease(ticks[i].now, id, w, LEASE_SECONDS);
    assert Polled(ticks, i + 1, id, w) == before + [renewal];
    RunAndOne(db, before, renewal);
    ExecRow(Run(db, before), renewal, id);
  }

  // ---------------------------------------------------------------- the report

  /** The text that a failure is reported with: the end of what the child has printed, if it failed. */
  predicate Reported(error: string, tick: Tick, ending: Ending) {
    match ending
    case CancelledByUser => error == "Cancelled by user"
    case TimedOut => error == "Job exceeded the configured time limit"
    case ChildFailed =>
      && tick.exit.Some? && tick.exit.value.NonZero?
      && var output := tick.exit.value.output;
      if output == "" then error == "Isolated worker failed"
      else exists n :: 0 <= n < |output| && error == output[n..] && (n == 0 || |error| == 1000) && |error| <= 1000
    case BadOutput =>
      tick.exit.Some? && tick.exit.value.InvalidResult? && error <= tick.exit.value.message && |error| <= 1000
      && (|tick.exit.value.message| <= 1000 ==> error == tick.exit.value.message)
    case Delivered => false
  }

  lemma ReasonIsReported(output: string)
    ensures |Reason(output)| <= 1000
    ensures output != "" ==> exists n :: 0 <= n < |output| && Reason(output) == output[n..] && (n == 0 || |Reason(output)| == 1000)
  {
    if output != "" {
      var n := if |output| <= 1000 then 0 else |output| - 1000;
      assert Reason(output) == output[n..];
    }
  }

  /** What the report reads, and what it finds when it writes. */
  function ReadBy(db: Db, ticks: seq<Tick>, n: nat, id: JobId, w: Worker): Db
    requires n < |ticks|
  {
    Run(Run(db, Polled(ticks, n, id, w)), Around(ticks[n]))
  }

  function FoundBy(db: Db, ticks: seq<Tick>, n: nat, id: JobId, w: Worker): Db
    requires n < |ticks|
  {
    Run(ReadBy(db, ticks, n, id, w), Between(ReadBy(db, ticks, n, id, w), ticks[n], id))
  }

  lemma RunFour(db: Db, a: seq<Call>, b: seq<Call>, c: seq<Call>, last: Call)
    ensures Run(db, a + (b + c + [last])) == Exec(Run(Run(Run(db, a), b), c), last)
  {
    RunAppend(db, a, b + c + [last]);
    RunAndOne(Run(db, a), b + c, last);
    RunAppend(Run(db, a), b, c);
  }

  lemma ReportIsLast(db: Db, trace: seq<Call>, ticks: seq<Tick>, n: nat, id: JobId, w: Worker, last: Call, ending: Ending)
    requires n < |ticks| && Concluded(db, trace, ticks, n, id, w, last, ending)
    ensures Run(db, trace) == Exec(FoundBy(db, ticks, n, id, w), last)
    ensures EndsWith(last, ticks[n], id, w, ending) && SawRow(ReadBy(db, ticks, n, id, w), last)
  {
    RunFour(db, Polled(ticks, n, id, w), Around(ticks[n]), Between(ReadBy(db, ticks, n, id, w), ticks[n], id), last);
  }

  /** What becomes of a job whose worker still owns it when its report is written and whose row showed no
      cancellation when it was read: a delivered one is complete with its file, and keeps its name; one whose
      child failed or ran too long is tried again if attempts are left; one whose child printed nonsense is
      failed for good. */
  lemma ReportDecides(db: Db, trace: seq<Call>, ticks: seq<Tick>, n: nat, id: JobId, w: Worker, last: Call, ending: Ending)
    requires n < |ticks| && Concluded(db, trace, ticks, n, id, w, last, ending)
    requires var read, found := ReadBy(db, ticks, n, id, w), FoundBy(db, ticks, n, id, w);
             && id in read.jobs && !read.jobs[id].cancelRequested
             && id in found.jobs && Owned(found.jobs[id], w) && found.jobs[id].status == Processing
    ensures id in Run(db, trace).jobs
    ensures var read, r, r1 := ReadBy(db, ticks, n, id, w).jobs[id], FoundBy(db, ticks, n, id, w).jobs[id], Run(db, trace).jobs[id];
            && r1.leaseOwner == None && r1.leaseUntil == None
            && match ending
               case Delivered =>
                 && r1.status == Complete && r1.filename == r.filename && r1.error == r.error && r1.resultPath.Some? && r1.resultSha.Some?
                 && ticks[n].exit == Some(ResultFile(r1.resultPath.value, r1.resultSha.value))
               case BadOutput =>
                 r1.status == Failed && r1.error.Some? && Reported(r1.error.value, ticks[n], ending)
               case CancelledByUser =>
                 r1.status == Failed && r1.error == Some("Cancelled by user")
               case _ =>
                 && r1.status == (if read.attempts < read.maxAttempts then Retry else Failed)
                 && r1.error.Some? && Reported(r1.error.value, ticks[n], ending)
                 && r1.availableAt == ticks[n].now + (if read.attempts < read.maxAttempts then Delay(read.attempts) as real else 0.0)
  {
    ReportIsLast(db, trace, ticks, n, id, w, last, ending);
    var found := FoundBy(db, ticks, n, id, w);
    ExecRow(found, last, id);
    if ending == Delivered {
      CompletionEffect(found, last);
    } else {
      FailureEffect(found, last);
      if ending == ChildFailed { ReasonIsReported(ticks[n].exit.value.output); }
    }
  }

  /** If its row showed a cancellation, the job is cancelled, whatever the report says. */
  lemma CancelledReport(db: Db, trace: seq<Call>, ticks: seq<Tick>, n: nat, id: JobId, w: Worker, last: Call, ending: Ending)
    requires n < |ticks| && Concluded(db, trace, ticks, n, id, w, last, ending)
    requires var read, found := ReadBy(db, ticks, n, id, w), FoundBy(db, ticks, n, id, w);
             id in read.jobs && read.jobs[id].cancelRequested && id in found.jobs && Owned(found.jobs[id], w)
    ensures id in Run(db, trace).jobs && Run(db, trace).jobs[id].status == Cancelled
    ensures Run(db, trace).jobs[id].resultPath == FoundBy(db, ticks, n, id, w).jobs[id].resultPath
  {
    ReportIsLast(db, trace, ticks, n, id, w, last, ending);
    var found := FoundBy(db, ticks, n, id, w);
    ExecRow(found, last, id);
    if ending == Delivered { CompletionEffect(found, last); } else { FailureEffect(found, last); }
  }

  // ---------------------------------------------------------------- the main loop

  /** A job that the main loop claims is of one of the two kinds that the routes submit, and it has it for a
      minute. */
  lemma ClaimsForAMinute(db: Db, round: Round, log: Log, w: Worker)
    requires log.job.Some?
    requires Enabled(Run(db, BeforeClaim(round, log.sweep)), ClaimNext(round.now, w, KINDS, LEASE_SECONDS, log.job))
    ensures var after, id := Run(db, Claiming(round, log, w)), log.job.value;
            && id in after.jobs && Owned(after.jobs[id], w) && after.jobs[id].leaseUntil == Some(round.now + 60.0)
            && (after.jobs[id].kind == "ocr-extract-text" || after.jobs[id].kind == "ocr-make-searchable")
  {
    var before, claim := Run(db, BeforeClaim(round, log.sweep)), ClaimNext(round.now, w, KINDS, LEASE_SECONDS, log.job);
    RunAndOne(db, BeforeClaim(round, log.sweep), claim);
    ClaimTakesTheOldest(before, claim, log.job.value);
  }

  /** No sweep since the n-th turn. */
  predicate NoSweep(logs: seq<Log>, j: nat, n: nat)
    requires n <= |logs|
  {
    forall i :: j <= i < n ==> logs[i].sweep == None
  }

  lemma {:induction false} LastSweepAt(rounds: seq<Round>, logs: seq<Log>, j: nat, n: nat)
    requires j < n <= |logs| <= |rounds| && logs[j].sweep.Some? && NoSweep(logs, j + 1, n)
    ensures LastSweep(rounds, logs, n) == rounds[j].monotonic
    decreases n
  {
    if j < n - 1 { LastSweepAt(rounds, logs, j, n - 1); }
  }

  /** The main loop purges in a turn exactly if more than 60 seconds have gone by since the turn in which it
      purged last. */
  lemma SweepsByTheMinute(rounds: seq<Round>, logs: seq<Log>, j: nat, n: nat)
    requires Logged(rounds, logs) && j < n < |logs| && logs[j].sweep.Some? && NoSweep(logs, j + 1, n)
    ensures logs[n].sweep.Some? <==> rounds[n].monotonic > rounds[j].monotonic + 60.0
  {
    LastSweepAt(rounds, logs, j, n);
    assert RightLog(rounds, logs, n);
  }
}
