/** The worker process of makepdf/web/worker.py as a client of the registry. Between any two of its
    own steps every other process may make any registry calls: they are given as part of what the
    worker observes. The methods return the interleaving they took part in, and prove that the worker
    is sequential in it, which is what JobLeases.Fencing asks of a worker. */
module WorkerProcess {
  import opened Options
  import opened JobTable
  import opened JobRuns
  import opened JobSafety
  import opened JobLeases
  import opened JobRegistry

  const KINDS := ["ocr-extract-text", "ocr-make-searchable"]
  const LEASE_SECONDS := 60
  const SWEEP_SECONDS := 60.0

  /** How the child process ended. */
  datatype Exit = NonZero(output: string) | InvalidResult(message: string) | ResultFile(path: string, sha: string)

  /** One turn of the polling loop: calls of others before it, the child's state, the clocks, calls of
      others after the worker has read the job, and calls of others after a last complete_job or
      fail_job has read its row and before it writes. */
  datatype Tick = Tick(others: seq<Call>, exit: Option<Exit>, now: Time, monotonic: real, meanwhile: seq<Call>, during: seq<Call>)

  /** One turn of the main loop: calls of others before it and before each row that a sweep deletes,
      those of the expiry of documents, and the turns of the polling loop if a job is claimed. */
  datatype Round = Round(others: seq<Call>, now: Time, monotonic: real, deleting: nat -> seq<Call>, expiry: seq<Call>, ticks: seq<Tick>)

  /** Why `_execute` returned. */
  datatype Ending = CancelledByUser | TimedOut | ChildFailed | BadOutput | Delivered

  predicate Others(calls: seq<Call>, w: Worker) {
    forall i :: 0 <= i < |calls| ==> !OwnCall(calls[i], w)
  }

  predicate OthersInTick(tick: Tick, w: Worker) {
    Others(tick.others, w) && Others(tick.meanwhile, w) && Others(tick.during, w)
  }

  predicate OthersInTicks(ticks: seq<Tick>, w: Worker) {
    forall i :: 0 <= i < |ticks| ==> OthersInTick(ticks[i], w)
  }

  ghost predicate OthersInRound(round: Round, w: Worker) {
    && Others(round.others, w) && Others(round.expiry, w) && OthersInTicks(round.ticks, w)
    && forall k :: Others(round.deleting(k), w)
  }

  ghost predicate OthersInRounds(rounds: seq<Round>, w: Worker) {
    forall i :: 0 <= i < |rounds| ==> OthersInRound(rounds[i], w)
  }

  lemma {:induction false} OthersAreQuiet(a: Activity, calls: seq<Call>, w: Worker)
    requires Others(calls, w)
    ensures Sequential(a, calls, w) && ActivityAfter(a, calls, w) == a && NoClaimBy(calls, w)
    decreases |calls|
  {
    if calls != [] {
      assert !OwnCall(calls[0], w);
      assert forall i :: 0 <= i < |calls[1..]| ==> calls[1..][i] == calls[i + 1];
      OthersAreQuiet(a, calls[1..], w);
    }
  }

  /** In `trace` the worker went from activity `a` to `b` in sequence. */
  predicate Led(a: Activity, trace: seq<Call>, b: Activity, w: Worker) {
    Sequential(a, trace, w) && ActivityAfter(a, trace, w) == b
  }

  lemma LedAppend(a: Activity, x: seq<Call>, b: Activity, y: seq<Call>, c: Activity, w: Worker)
    requires Led(a, x, b, w) && Led(b, y, c, w)
    ensures Led(a, x + y, c, w)
  {
    SequentialAppend(a, x, y, w);
  }

  lemma LedOne(a: Activity, c: Call, w: Worker)
    requires MayDo(a, c, w)
    ensures Led(a, [c], After(a, c, w), w)
  {
    assert [c][1..] == [];
  }

  lemma RunAndOne(db: Db, calls: seq<Call>, c: Call)
    ensures Run(db, calls + [c]) == Exec(Run(db, calls), c)
  {
    RunAppend(db, calls, [c]);
    OneCall(Run(db, calls), c);
  }

  /** The database answered the worker's own calls rightly. */
  ghost predicate Answered(db: Db, calls: seq<Call>, w: Worker)
    decreases |calls|
  {
    calls == [] || ((OwnCall(calls[0], w) ==> Enabled(db, calls[0])) && Answered(Exec(db, calls[0]), calls[1..], w))
  }

  lemma {:induction false} AnsweredUnlessClaiming(db: Db, calls: seq<Call>, w: Worker)
    requires NoClaimBy(calls, w)
    ensures Answered(db, calls, w)
    decreases |calls|
  {
    if calls != [] {
      assert !ClaimsBy(calls[0], w);
      assert forall i :: 0 <= i < |calls[1..]| ==> calls[1..][i] == calls[i + 1];
      AnsweredUnlessClaiming(Exec(db, calls[0]), calls[1..], w);
    }
  }

  lemma {:induction false} AnsweredAppend(db: Db, x: seq<Call>, y: seq<Call>, w: Worker)
    ensures Answered(db, x + y, w) <==> Answered(db, x, w) && Answered(Run(db, x), y, w)
    decreases |x|
  {
    if x == [] {
      assert x + y == y;
    } else {
      assert (x + y)[0] == x[0] && (x + y)[1..] == x[1..] + y;
      AnsweredAppend(Exec(db, x[0]), x[1..], y, w);
    }
  }

  /** One right claim after calls of others. */
  lemma ClaimAnswered(db: Db, others: seq<Call>, c: Call, w: Worker)
    requires Others(others, w) && Enabled(Run(db, others), c)
    ensures Answered(db, others + [c], w)
  {
    OthersAreQuiet(Idle, others, w);
    AnsweredUnlessClaiming(db, others, w);
    AnsweredAppend(db, others, [c], w);
    assert [c][1..] == [];
  }

  /** Others act, and then the worker makes one call. */
  lemma OthersAndOne(a: Activity, others: seq<Call>, c: Call, w: Worker)
    requires Others(others, w) && MayDo(a, c, w)
    ensures Led(a, others + [c], After(a, c, w), w)
    ensures !ClaimsBy(c, w) ==> NoClaimBy(others + [c], w)
  {
    OthersAreQuiet(a, others, w);
    LedOne(a, c, w);
    LedAppend(a, others, a, [c], After(a, c, w), w);
  }

  // ---------------------------------------------------------------- following one job

  /** The calls of the first n turns, each of which ended in a renewal. */
  function Polled(ticks: seq<Tick>, n: nat, id: JobId, w: Worker): seq<Call>
    requires n <= |ticks|
  {
    if n == 0 then [] else Polled(ticks, n - 1, id, w) + Renewal(ticks[n - 1], id, w)
  }

  function Renewal(tick: Tick, id: JobId, w: Worker): seq<Call> {
    Around(tick) + [RenewLease(tick.now, id, w, LEASE_SECONDS)]
  }

  /** What the worker must do when it finds the table `seen`: None is to go on. */
  function Reaction(seen: Db, tick: Tick, id: JobId, deadline: real): Option<Ending> {
    match tick.exit
    case Some(NonZero(_)) => Some(ChildFailed)
    case Some(InvalidResult(_)) => Some(BadOutput)
    case Some(ResultFile(_, _)) => Some(Delivered)
    case None =>
      if id !in seen.jobs || seen.jobs[id].cancelRequested then Some(CancelledByUser)
      else if tick.monotonic > deadline then Some(TimedOut)
      else None
  }

  function Reason(output: string): string {
    if output == "" then "Isolated worker failed"
    else if |output| <= 1000 then output
    else output[|output| - 1000..]
  }

  predicate Fails(c: Call, now: Time, id: JobId, w: Worker, error: string, retryable: bool) {
    c.FailJob? && c.now == now && c.id == id && c.worker == w && c.error == error && c.retryable == retryable
  }

  /** `c` is the call that reports the ending. */
  predicate EndsWith(c: Call, tick: Tick, id: JobId, w: Worker, ending: Ending) {
    match ending
    case CancelledByUser => Fails(c, tick.now, id, w, "Cancelled by user", false)
    case TimedOut => Fails(c, tick.now, id, w, "Job exceeded the configured time limit", true)
    case ChildFailed =>
      tick.exit.Some? && tick.exit.value.NonZero? && Fails(c, tick.now, id, w, Reason(tick.exit.value.output), true)
    case BadOutput =>
      tick.exit.Some? && tick.exit.value.InvalidResult? && Fails(c, tick.now, id, w, tick.exit.value.message, false)
    case Delivered =>
      && tick.exit.Some? && tick.exit.value.ResultFile? && c.CompleteJob? && c.now == tick.now && c.id == id && c.worker == w
      && c.path == tick.exit.value.path && c.sha == tick.exit.value.sha && c.filename == None
  }

  /** What the others do in a turn; a worker that sees the exit of its child reads the table no more. */
  function Around(tick: Tick): seq<Call> {
    if tick.exit == None then tick.others + tick.meanwhile else tick.others
  }

  /** The worker holds the job no longer, unless complete_job found it cancelled or not processing. */
  predicate LetGo(db: Db, id: JobId, w: Worker, ending: Ending) {
    id in db.jobs && db.jobs[id].leaseOwner == Some(w) ==>
      ending == Delivered && (db.jobs[id].cancelRequested || db.jobs[id].status != Processing)
  }

  lemma ReportLetsGo(db: Db, c: Call, tick: Tick, id: JobId, w: Worker, ending: Ending)
    requires EndsWith(c, tick, id, w, ending)
    ensures LetGo(Exec(db, c), id, w, ending)
    ensures id !in db.jobs ==> Exec(db, c) == db
  {
    ExecRow(db, c, id);
    assert id !in db.jobs ==> StepRows(db, c) == db.jobs;
  }

  /** What the others do between the read of the report and its write, if it finds the job. */
  function Between(db: Db, tick: Tick, id: JobId): seq<Call> {
    if id in db.jobs then tick.during else []
  }

  predicate SawRow(db: Db, c: Call) {
    ReadsFirst(c) && c.id in db.jobs ==> Saw(c, db.jobs[c.id])
  }

  lemma AroundIsOthers(tick: Tick, w: Worker)
    requires OthersInTick(tick, w)
    ensures Others(Around(tick), w) && Others(Around(tick) + tick.during, w)
  {
  }

  lemma {:induction false} PollingIsSequential(ticks: seq<Tick>, n: nat, id: JobId, w: Worker)
    requires OthersInTicks(ticks, w) && n <= |ticks|
    ensures Led(Busy(id), Polled(ticks, n, id, w), Busy(id), w) && NoClaimBy(Polled(ticks, n, id, w), w)
    decreases n
  {
    if n > 0 {
      PollingIsSequential(ticks, n - 1, id, w);
      AroundIsOthers(ticks[n - 1], w);
      OthersAndOne(Busy(id), Around(ticks[n - 1]), RenewLease(ticks[n - 1].now, id, w, LEASE_SECONDS), w);
      LedAppend(Busy(id), Polled(ticks, n - 1, id, w), Busy(id), Renewal(ticks[n - 1], id, w), Busy(id), w);
    }
  }

  /** The calls of the last turn: the others, the report's read, the others again, and the report. */
  function LastTurn(db: Db, tick: Tick, id: JobId, c: Call): seq<Call> {
    Around(tick) + Between(Run(db, Around(tick)), tick, id) + [c]
  }

  lemma ReportingIsSequential(db: Db, ticks: seq<Tick>, n: nat, id: JobId, w: Worker, last: Call, ending: Ending)
    requires OthersInTicks(ticks, w) && n < |ticks| && EndsWith(last, ticks[n], id, w, ending)
    ensures Led(Busy(id), Polled(ticks, n, id, w) + LastTurn(db, ticks[n], id, last), Idle, w)
    ensures NoClaimBy(Polled(ticks, n, id, w) + LastTurn(db, ticks[n], id, last), w)
  {
    PollingIsSequential(ticks, n, id, w);
    AroundIsOthers(ticks[n], w);
    var before := Around(ticks[n]) + Between(Run(db, Around(ticks[n])), ticks[n], id);
    OthersAndOne(Busy(id), before, last, w);
    LedAppend(Busy(id), Polled(ticks, n, id, w), Busy(id), before + [last], Idle, w);
  }

  /** Follows one claimed job until the child ends, the job is cancelled or the deadline passes; `None`
      means that the process was killed first. Whatever the others do meanwhile, each turn that does
      not end the job makes one renewal, the last one makes exactly one report, and which report it is
      depends on what that turn saw. */
  method Execute(registry: Registry, id: JobId, w: Worker, start: real, maxSeconds: real, ticks: seq<Tick>)
    returns (trace: seq<Call>, ending: Option<Ending>, ghost turns: nat, ghost last: Call)
    requires OthersInTicks(ticks, w)
    modifies registry
    ensures registry.Contents() == Run(old(registry.Contents()), trace)
    ensures Led(Busy(id), trace, if ending == None then Busy(id) else Idle, w) && NoClaimBy(trace, w)
    ensures turns <= |ticks| && GoesOn(old(registry.Contents()), ticks, turns, id, w, start + maxSeconds)
    ensures ending == None ==> turns == |ticks| && trace == Polled(ticks, turns, id, w)
    ensures ending.Some? ==>
              && turns < |ticks|
              && ending == Reaction(SeenAt(old(registry.Contents()), ticks, turns, id, w), ticks[turns], id, start + maxSeconds)
              && Concluded(old(registry.Contents()), trace, ticks, turns, id, w, last, ending.value)
              && LetGo(registry.Contents(), id, w, ending.value)
  {
    ghost var db0 := registry.Contents();
    trace := [];
    var deadline := start + maxSeconds;
    var i := 0;
    while i < |ticks|
      invariant 0 <= i <= |ticks|
      invariant registry.Contents() == Run(db0, trace)
      invariant trace == Polled(ticks, i, id, w)
      invariant GoesOn(db0, ticks, i, id, w, deadline)
    {
      ghost var db := registry.Contents();
      var calls, c;
      ending, calls, c := Turn(registry, id, w, ticks[i], deadline);
      NextTurn(db0, ticks, i, id, w, deadline, trace, calls);
      if ending.Some? {
        ReportingIsSequential(db, ticks, i, id, w, c, ending.value);
        return trace + calls, ending, i, c;
      }
      trace := trace + calls;
      i := i + 1;
    }
    PollingIsSequential(ticks, i, id, w);
    return trace, None, i, RecoverStale(0.0);
  }

  /** The last turn ended with the report `last`, which saw the row as it was when it read it. */
  predicate Concluded(db0: Db, trace: seq<Call>, ticks: seq<Tick>, n: nat, id: JobId, w: Worker, last: Call, ending: Ending)
    requires n < |ticks|
  {
    var db := Run(db0, Polled(ticks, n, id, w));
    && trace == Polled(ticks, n, id, w) + LastTurn(db, ticks[n], id, last)
    && EndsWith(last, ticks[n], id, w, ending) && SawRow(Run(db, Around(ticks[n])), last)
  }

  /** The table that the worker sees in turn n. */
  function SeenAt(db: Db, ticks: seq<Tick>, n: nat, id: JobId, w: Worker): Db
    requires n < |ticks|
  {
    Run(db, Polled(ticks, n, id, w) + ticks[n].others)
  }

  /** In each of the first n turns the worker saw reason to go on. */
  predicate GoesOn(db: Db, ticks: seq<Tick>, n: nat, id: JobId, w: Worker, deadline: real)
    requires n <= |ticks|
  {
    forall i :: 0 <= i < n ==> Reaction(SeenAt(db, ticks, i, id, w), ticks[i], id, deadline) == None
  }

  lemma NextTurn(db: Db, ticks: seq<Tick>, n: nat, id: JobId, w: Worker, deadline: real, trace: seq<Call>, calls: seq<Call>)
    requires n < |ticks| && trace == Polled(ticks, n, id, w)
    ensures SeenAt(db, ticks, n, id, w) == Run(Run(db, trace), ticks[n].others)
    ensures Run(db, trace + calls) == Run(Run(db, trace), calls)
    ensures calls == Renewal(ticks[n], id, w) ==> trace + calls == Polled(ticks, n + 1, id, w)
    ensures GoesOn(db, ticks, n, id, w, deadline) && Reaction(SeenAt(db, ticks, n, id, w), ticks[n], id, deadline) == None ==>
              GoesOn(db, ticks, n + 1, id, w, deadline)
  {
    RunAppend(db, trace, ticks[n].others);
    RunAppend(db, trace, calls);
  }

  /** One turn of the loop; `c` is the worker's own call in it. */
  method Turn(registry: Registry, id: JobId, w: Worker, tick: Tick, deadline: real)
    returns (ending: Option<Ending>, calls: seq<Call>, c: Call)
    modifies registry
    ensures registry.Contents() == Run(old(registry.Contents()), calls)
    ensures ending == Reaction(Run(old(registry.Contents()), tick.others), tick, id, deadline)
    ensures ending == None ==> calls == Renewal(tick, id, w)
    ensures ending.Some? ==> calls == LastTurn(old(registry.Contents()), tick, id, c)
    ensures ending.Some? ==> EndsWith(c, tick, id, w, ending.value) && LetGo(registry.Contents(), id, w, ending.value)
    ensures ending.Some? ==> SawRow(Run(old(registry.Contents()), Around(tick)), c)
  {
    var db0 := registry.Contents();
    registry.Interfere(tick.others);
    if tick.exit.Some? {
      ending, c := Finish(registry, id, w, tick);
    } else {
      ending, c := Poll(registry, id, w, tick, deadline);
      RunAppend(db0, tick.others, tick.meanwhile);
    }
    ghost var read := Run(db0, Around(tick));
    if ending == None {
      calls := Renewal(tick, id, w);
    } else {
      RunAppend(db0, Around(tick), Between(read, tick, id));
      calls := LastTurn(db0, tick, id, c);
    }
    RunAndOne(db0, calls[..|calls| - 1], c);
    assert calls == calls[..|calls| - 1] + [c];
  }

  /** The child has ended. */
  method Finish(registry: Registry, id: JobId, w: Worker, tick: Tick) returns (ending: Option<Ending>, c: Call)
    requires tick.exit.Some?
    modifies registry
    ensures registry.Contents() == Exec(Run(old(registry.Contents()), Between(old(registry.Contents()), tick, id)), c)
    ensures ending.Some? && ending == Reaction(old(registry.Contents()), tick, id, 0.0)
    ensures EndsWith(c, tick, id, w, ending.value) && LetGo(registry.Contents(), id, w, ending.value)
    ensures SawRow(old(registry.Contents()), c)
  {
    match tick.exit.value
    case NonZero(output) =>
      ending := Some(ChildFailed);
      c := Fail(registry, id, w, tick, Reason(output), true, ChildFailed);
    case InvalidResult(message) =>
      ending := Some(BadOutput);
      c := Fail(registry, id, w, tick, message, false, BadOutput);
    case ResultFile(path, sha) =>
      ending := Some(Delivered);
      c := Deliver(registry, id, w, tick, path, sha);
  }

  /** The child is still running: the worker reads the job, and others may act before it writes. */
  method Poll(registry: Registry, id: JobId, w: Worker, tick: Tick, deadline: real) returns (ending: Option<Ending>, c: Call)
    requires tick.exit == None
    modifies registry
    ensures ending == Reaction(old(registry.Contents()), tick, id, deadline)
    ensures ending == None ==>
              && c == RenewLease(tick.now, id, w, LEASE_SECONDS)
              && registry.Contents() == Exec(Run(old(registry.Contents()), tick.meanwhile), c)
    ensures ending.Some? ==>
              var read := Run(old(registry.Contents()), tick.meanwhile);
              registry.Contents() == Exec(Run(read, Between(read, tick, id)), c) && SawRow(read, c)
    ensures ending.Some? ==> EndsWith(c, tick, id, w, ending.value) && LetGo(registry.Contents(), id, w, ending.value)
  {
    var current := registry.GetJob(id, None);
    registry.Interfere(tick.meanwhile);
    if current == None || current.value.cancelRequested {
      ending := Some(CancelledByUser);
      c := Fail(registry, id, w, tick, "Cancelled by user", false, CancelledByUser);
    } else if tick.monotonic > deadline {
      ending := Some(TimedOut);
      c := Fail(registry, id, w, tick, "Job exceeded the configured time limit", true, TimedOut);
    } else {
      ending := None;
      var renewed := registry.RenewLease(tick.now, id, w, LEASE_SECONDS);
      c := RenewLease(tick.now, id, w, LEASE_SECONDS);
    }
  }

  method Deliver(registry: Registry, id: JobId, w: Worker, tick: Tick, path: string, sha: string) returns (c: Call)
    requires tick.exit == Some(ResultFile(path, sha))
    modifies registry
    ensures registry.Contents() == Exec(Run(old(registry.Contents()), Between(old(registry.Contents()), tick, id)), c)
    ensures EndsWith(c, tick, id, w, Delivered) && LetGo(registry.Contents(), id, w, Delivered) && SawRow(old(registry.Contents()), c)
  {
    ghost var read := registry.Contents();
    var seen := id in registry.jobs && registry.jobs[id].cancelRequested;
    registry.CompleteJob(tick.now, id, w, path, sha, None, tick.during);
    c := CompleteJob(tick.now, id, w, path, sha, None, seen);
    ReportLetsGo(Run(read, Between(read, tick, id)), c, tick, id, w, Delivered);
  }

  method Fail(registry: Registry, id: JobId, w: Worker, tick: Tick, error: string, retryable: bool, ghost ending: Ending)
    returns (c: Call)
    requires EndsWith(FailJob(tick.now, id, w, error, retryable, Snapshot(0, 0, false)), tick, id, w, ending)
    modifies registry
    ensures registry.Contents() == Exec(Run(old(registry.Contents()), Between(old(registry.Contents()), tick, id)), c)
    ensures EndsWith(c, tick, id, w, ending) && LetGo(registry.Contents(), id, w, ending) && SawRow(old(registry.Contents()), c)
  {
    ghost var read := registry.Contents();
    var seen := if id in registry.jobs
    then Snapshot(registry.jobs[id].attempts, registry.jobs[id].maxAttempts, registry.jobs[id].cancelRequested)
    else Snapshot(0, 0, false);
    registry.FailJob(tick.now, id, w, error, retryable, tick.during);
    c := FailJob(tick.now, id, w, error, retryable, seen);
    ReportLetsGo(Run(read, Between(read, tick, id)), c, tick, id, w, ending);
  }

  // ---------------------------------------------------------------- the main loop

  /** What the worker did in one turn of the main loop: the order in which its sweep deleted results, if
      it swept; the job it claimed, if there was one; the calls while it worked on that job. */
  datatype Log = Log(sweep: Option<seq<JobId>>, job: Option<JobId>, executed: seq<Call>)

  function Claiming(round: Round, log: Log, w: Worker): seq<Call> {
    BeforeClaim(round, log.sweep) + [ClaimNext(round.now, w, KINDS, LEASE_SECONDS, log.job)]
  }

  function BeforeClaim(round: Round, sweep: Option<seq<JobId>>): seq<Call> {
    if sweep.Some? then round.others + PurgeCalls(round.now, None, sweep.value, round.deleting) + round.expiry else round.others
  }

  function Rounds(rounds: seq<Round>, logs: seq<Log>, n: nat, w: Worker): seq<Call>
    requires n <= |logs| <= |rounds|
  {
    if n == 0 then [] else Rounds(rounds, logs, n - 1, w) + Claiming(rounds[n - 1], logs[n - 1], w) + logs[n - 1].executed
  }

  function LastSweep(rounds: seq<Round>, logs: seq<Log>, n: nat): real
    requires n <= |logs| <= |rounds|
  {
    if n == 0 then 0.0 else if logs[n - 1].sweep.Some? then rounds[n - 1].monotonic else LastSweep(rounds, logs, n - 1)
  }

  /** Between a claim and the next the worker worked on the claimed job, and it swept when a minute had
      gone by since the last sweep. */
  predicate RightLog(rounds: seq<Round>, logs: seq<Log>, i: nat)
    requires i < |logs| <= |rounds|
  {
    && (logs[i].sweep.Some? <==> rounds[i].monotonic - LastSweep(rounds, logs, i) > SWEEP_SECONDS)
    && (logs[i].job == None ==> logs[i].executed == [])
  }

  predicate Logged(rounds: seq<Round>, logs: seq<Log>) {
    |logs| <= |rounds| && forall i :: 0 <= i < |logs| ==> RightLog(rounds, logs, i)
  }

  lemma {:induction false} OneMoreLog(rounds: seq<Round>, logs: seq<Log>, log: Log, n: nat, w: Worker)
    requires n <= |logs| < |rounds|
    ensures Rounds(rounds, logs + [log], n, w) == Rounds(rounds, logs, n, w)
    ensures LastSweep(rounds, logs + [log], n) == LastSweep(rounds, logs, n)
    decreases n
  {
    if n > 0 { OneMoreLog(rounds, logs, log, n - 1, w); }
  }

  lemma LogMore(rounds: seq<Round>, logs: seq<Log>, log: Log, w: Worker)
    requires Logged(rounds, logs) && |logs| < |rounds| && (log.job == None ==> log.executed == [])
    requires log.sweep.Some? <==> rounds[|logs|].monotonic - LastSweep(rounds, logs, |logs|) > SWEEP_SECONDS
    ensures Logged(rounds, logs + [log])
    ensures Rounds(rounds, logs + [log], |logs| + 1, w) == Rounds(rounds, logs, |logs|, w) + Claiming(rounds[|logs|], log, w) + log.executed
    ensures LastSweep(rounds, logs + [log], |logs| + 1) ==
            if log.sweep.Some? then rounds[|logs|].monotonic else LastSweep(rounds, logs, |logs|)
  {
    OneMoreLog(rounds, logs, log, |logs|, w);
    forall i | 0 <= i < |logs + [log]| ensures RightLog(rounds, logs + [log], i) {
      OneMoreLog(rounds, logs, log, i, w);
      assert i < |logs| ==> RightLog(rounds, logs, i);
    }
  }

  lemma {:induction false} PurgeIsOthers(now: Time, order: seq<JobId>, others: nat -> seq<Call>, w: Worker)
    requires forall k :: Others(others(k), w)
    ensures Others(PurgeCalls(now, None, order, others), w)
    decreases |order|
  {
    if order != [] { PurgeIsOthers(now, order[..|order| - 1], others, w); }
  }

  lemma BeforeClaimIsOthers(round: Round, sweep: Option<seq<JobId>>, w: Worker)
    requires OthersInRound(round, w)
    ensures Others(BeforeClaim(round, sweep), w)
  {
    if sweep.Some? { PurgeIsOthers(round.now, sweep.value, round.deleting, w); }
  }

  lemma ClaimingIsSequential(round: Round, log: Log, w: Worker)
    requires OthersInRound(round, w)
    ensures Led(Idle, Claiming(round, log, w), if log.job.Some? then Busy(log.job.value) else Idle, w)
  {
    BeforeClaimIsOthers(round, log.sweep, w);
    OthersAndOne(Idle, BeforeClaim(round, log.sweep), ClaimNext(round.now, w, KINDS, LEASE_SECONDS, log.job), w);
  }

  /** What the main loop has done: the calls of its logs, in sequence. */
  ghost predicate Serving(w: Worker, now: Time, rounds: seq<Round>, logs: seq<Log>, trace: seq<Call>, b: Activity) {
    && Logged(rounds, logs) && Led(Idle, trace, b, w)
    && trace == [RecoverStale(now)] + Rounds(rounds, logs, |logs|, w)
  }

  lemma StartsServing(w: Worker, now: Time, rounds: seq<Round>)
    ensures Serving(w, now, rounds, [], [RecoverStale(now)], Idle)
  {
    LedOne(Idle, RecoverStale(now), w);
  }

  lemma ServesOn(w: Worker, now: Time, rounds: seq<Round>, logs: seq<Log>, trace: seq<Call>, log: Log, b: Activity)
    requires Serving(w, now, rounds, logs, trace, Idle) && |logs| < |rounds|
    requires OthersInRound(rounds[|logs|], w)
    requires log.sweep.Some? <==> rounds[|logs|].monotonic - LastSweep(rounds, logs, |logs|) > SWEEP_SECONDS
    requires log.job == None ==> log.executed == []
    requires Led(if log.job.Some? then Busy(log.job.value) else Idle, log.executed, b, w)
    ensures Serving(w, now, rounds, logs + [log], trace + Claiming(rounds[|logs|], log, w) + log.executed, b)
    ensures LastSweep(rounds, logs + [log], |logs| + 1) ==
            if log.sweep.Some? then rounds[|logs|].monotonic else LastSweep(rounds, logs, |logs|)
  {
    var round := rounds[|logs|];
    var a := if log.job.Some? then Busy(log.job.value) else Idle;
    ClaimingIsSequential(round, log, w);
    LedAppend(Idle, trace, Idle, Claiming(round, log, w), a, w);
    LedAppend(Idle, trace + Claiming(round, log, w), a, log.executed, b, w);
    LogMore(rounds, logs, log, w);
    Regroup([RecoverStale(now)], Rounds(rounds, logs, |logs|, w), Claiming(round, log, w), log.executed);
  }

  ghost predicate ServedWell(db0: Db, db: Db, w: Worker, now: Time, rounds: seq<Round>, logs: seq<Log>, trace: seq<Call>, b: Activity) {
    db == Run(db0, trace) && Serving(w, now, rounds, logs, trace, b) && Answered(db0, trace, w)
  }

  lemma ServesWell(db0: Db, db: Db, w: Worker, now: Time, rounds: seq<Round>, logs: seq<Log>, trace: seq<Call>, log: Log, b: Activity, db1: Db)
    requires ServedWell(db0, db, w, now, rounds, logs, trace, Idle) && |logs| < |rounds| && OthersInRound(rounds[|logs|], w)
    requires log.sweep.Some? <==> rounds[|logs|].monotonic - LastSweep(rounds, logs, |logs|) > SWEEP_SECONDS
    requires log.job == None ==> log.executed == []
    requires Led(if log.job.Some? then Busy(log.job.value) else Idle, log.executed, b, w)
    requires db1 == Run(Run(db, Claiming(rounds[|logs|], log, w)), log.executed)
    requires Answered(db, Claiming(rounds[|logs|], log, w), w)
    requires Answered(Run(db, Claiming(rounds[|logs|], log, w)), log.executed, w)
    ensures ServedWell(db0, db1, w, now, rounds, logs + [log], trace + Claiming(rounds[|logs|], log, w) + log.executed, b)
    ensures LastSweep(rounds, logs + [log], |logs| + 1) ==
            if log.sweep.Some? then rounds[|logs|].monotonic else LastSweep(rounds, logs, |logs|)
  {
    ServesOn(w, now, rounds, logs, trace, log, b);
    TurnRuns(db0, trace, Claiming(rounds[|logs|], log, w), log.executed, w);
  }

  lemma StartsWell(db: Db, w: Worker, now: Time, rounds: seq<Round>)
    ensures ServedWell(db, Exec(db, RecoverStale(now)), w, now, rounds, [], [RecoverStale(now)], Idle)
  {
    OneCall(db, RecoverStale(now));
    StartsServing(w, now, rounds);
    AnsweredUnlessClaiming(db, [RecoverStale(now)], w);
  }

  /** The main loop: recover once, then in each turn sweep if it is time, claim and execute. The worker
      is sequential in the whole interleaving, so JobLeases.Fencing applies to each of its calls. It
      leaves a turn out only if it was killed while it worked on a job. */
  method Serve(registry: Registry, w: Worker, now: Time, maxSeconds: real, rounds: seq<Round>)
    returns (trace: seq<Call>, killed: bool, ghost logs: seq<Log>)
    requires OthersInRounds(rounds, w)
    modifies registry
    ensures registry.Contents() == Run(old(registry.Contents()), trace)
    ensures Sequential(Idle, trace, w) && Answered(old(registry.Contents()), trace, w)
    ensures ActivityAfter(Idle, trace, w) == Idle <==> !killed
    ensures Logged(rounds, logs) && trace == [RecoverStale(now)] + Rounds(rounds, logs, |logs|, w)
    ensures !killed ==> |logs| == |rounds|
  {
    ghost var db0 := registry.Contents();
    var count := registry.RecoverStaleJobs(now);
    trace, logs := [RecoverStale(now)], [];
    StartsWell(db0, w, now, rounds);
    var lastSweep := 0.0;
    var i := 0;
    while i < |rounds|
      invariant 0 <= i == |logs| <= |rounds|
      invariant ServedWell(db0, registry.Contents(), w, now, rounds, logs, trace, Idle)
      invariant lastSweep == LastSweep(rounds, logs, |logs|)
    {
      ghost var db := registry.Contents();
      assert OthersInRound(rounds[i], w);
      var log, b := ServeOnce(registry, w, rounds[i], lastSweep, maxSeconds);
      ServesWell(db0, db, w, now, rounds, logs, trace, log, b, registry.Contents());
      trace, logs := trace + Claiming(rounds[i], log, w) + log.executed, logs + [log];
      lastSweep := if log.sweep.Some? then rounds[i].monotonic else lastSweep;
      if b != Idle {
        return trace, true, logs;
      }
      i := i + 1;
    }
    killed := false;
  }

  lemma RunTwice(db: Db, x: seq<Call>, y: seq<Call>, z: seq<Call>)
    ensures Run(db, x + y + z) == Run(Run(Run(db, x), y), z)
  {
    RunAppend(db, x, y);
    RunAppend(db, x + y, z);
  }

  lemma TurnRuns(db: Db, trace: seq<Call>, x: seq<Call>, y: seq<Call>, w: Worker)
    requires Answered(db, trace, w) && Answered(Run(db, trace), x, w) && Answered(Run(Run(db, trace), x), y, w)
    ensures Run(db, trace + x + y) == Run(Run(Run(db, trace), x), y)
    ensures Answered(db, trace + x + y, w)
  {
    RunAppend(db, trace, x);
    RunAppend(db, trace + x, y);
    AnsweredAppend(db, trace, x, w);
    AnsweredAppend(db, trace + x, y, w);
  }

  lemma Regroup(a: seq<Call>, b: seq<Call>, c: seq<Call>, d: seq<Call>)
    ensures a + b + c + d == a + (b + c + d)
  {
  }

  /** One turn of the main loop; `b` is what the worker is left doing, Idle unless it was killed. */
  method ServeOnce(registry: Registry, w: Worker, round: Round, lastSweep: real, maxSeconds: real)
    returns (log: Log, b: Activity)
    requires OthersInRound(round, w)
    modifies registry
    ensures registry.Contents() == Run(Run(old(registry.Contents()), Claiming(round, log, w)), log.executed)
    ensures log.sweep.Some? <==> round.monotonic - lastSweep > SWEEP_SECONDS
    ensures log.job == None ==> log.executed == []
    ensures Led(if log.job.Some? then Busy(log.job.value) else Idle, log.executed, b, w)
    ensures Answered(old(registry.Contents()), Claiming(round, log, w), w)
    ensures Answered(Run(old(registry.Contents()), Claiming(round, log, w)), log.executed, w)
    ensures log.sweep.Some? ==> Selects(Run(old(registry.Contents()), round.others), round.now, None, log.sweep.value)
  {
    ghost var db0 := registry.Contents();
    registry.Interfere(round.others);
    var sweep := None;
    if round.monotonic - lastSweep > SWEEP_SECONDS {
      var order := Sweep(registry, round);
      sweep := Some(order);
      RunTwice(db0, round.others, PurgeCalls(round.now, None, order, round.deleting), round.expiry);
    }
    var job := registry.ClaimNextJob(round.now, w, KINDS, LEASE_SECONDS);
    RunAndOne(db0, BeforeClaim(round, sweep), ClaimNext(round.now, w, KINDS, LEASE_SECONDS, job));
    BeforeClaimIsOthers(round, sweep, w);
    ClaimAnswered(db0, BeforeClaim(round, sweep), ClaimNext(round.now, w, KINDS, LEASE_SECONDS, job), w);
    if job == None {
      return Log(sweep, None, []), Idle;
    }
    var executed, ending, turns, last := Execute(registry, job.value, w, round.monotonic, maxSeconds, round.ticks);
    AnsweredUnlessClaiming(Run(db0, Claiming(round, Log(sweep, job, executed), w)), executed, w);
    return Log(sweep, job, executed), if ending == None then Busy(job.value) else Idle;
  }

  method Sweep(registry: Registry, round: Round) returns (order: seq<JobId>)
    modifies registry
    ensures Selects(old(registry.Contents()), round.now, None, order)
    ensures registry.Contents() == Run(Run(old(registry.Contents()), PurgeCalls(round.now, None, order, round.deleting)), round.expiry)
  {
    var count;
    count, order := registry.PurgeOldJobs(round.now, None, round.deleting);
    registry.Interfere(round.expiry);
  }
}
