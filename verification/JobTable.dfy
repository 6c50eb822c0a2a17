/** The jobs table of makepdf/web/job_registry.py and the effect of every registry call on it.

    A registry function becomes a `Call`; `Exec` is the table after that call. What the source takes
    from outside (the clock, a fresh uuid, the row SQLite happens to return first) is an argument of
    the call, and `Enabled` says which of those answers the database can give.

    `complete_job`, `fail_job` and `purge_old_jobs` read rows and later write them in statements of
    their own. A call stands for such a write: it carries what was read (`seenCancel`, `seen`, or that
    the row was due for deletion), so a run covers every interleaving of the two statements. `Saw` says
    which rows the call can have read, and JobReads says where in the run it read them. */
module JobTable {
  import opened Options

  type JobId = string
  type Worker = string
  type Time = real

  datatype Status = Pending | Processing | Retry | Complete | Failed | Cancelled | Expired

  /** The SHA-256 of kind and semantic payload, as the free (collision-free) digest of both. */
  datatype Digest = Digest(kind: string, semantic: map<string, string>)

  datatype Row = Row(
    tenantId: string, userId: string, kind: string,
    payload: map<string, string>, digest: Digest, key: Option<string>,
    status: Status,
    resultPath: Option<string>, resultSha: Option<string>, filename: Option<string>,
    error: Option<string>, progress: int, stage: string,
    attempts: nat, maxAttempts: int, availableAt: Time,
    leaseOwner: Option<Worker>, leaseUntil: Option<Time>,
    cancelRequested: bool,
    createdAt: Time, updatedAt: Time, expiresAt: Time)

  datatype JobAction = JobCreated | JobCompleted | JobRetry | JobFailed | JobCancelled | JobExpired

  datatype AuditEntry =
    | JobEvent(tenantId: string, userId: string, action: JobAction, job: JobId)
    | OtherEvent(tenantId: string, userId: string, name: string, resource: string)

  datatype Db = Db(jobs: map<JobId, Row>, audit: seq<AuditEntry>)

  const EMPTY_DB := Db(map[], [])

  /** The columns that fail_job reads before it writes. */
  datatype Snapshot = Snapshot(attempts: nat, maxAttempts: int, cancelRequested: bool)

  datatype Call =
    | CreateJob(now: Time, newId: JobId, tenantId: string, userId: string, kind: string,
                payload: map<string, string>, key: Option<string>, filename: Option<string>,
                maxAttempts: int, ttl: int)
    | ClaimNext(now: Time, worker: Worker, kinds: seq<string>, lease: int, pick: Option<JobId>)
    | RecoverStale(now: Time)
    | RenewLease(now: Time, id: JobId, worker: Worker, lease: int)
    | RequestCancel(now: Time, id: JobId, tenantId: string, userId: string)
    | CompleteJob(now: Time, id: JobId, worker: Worker, path: string, sha: string,
                  filename: Option<string>, seenCancel: bool)
    | FailJob(now: Time, id: JobId, worker: Worker, error: string, retryable: bool, seen: Snapshot)
    | UpdateProgress(now: Time, id: JobId, percent: int, stage: string, owner: Option<Worker>)
    | ExpireJob(now: Time, id: JobId, maxAge: Option<int>)
    | AppendNote(now: Time, name: string, tenantId: string, userId: string, resource: string)

  // ---------------------------------------------------------------- effects on one row

  predicate Settled(s: Status) {
    s in {Complete, Failed, Cancelled, Expired}
  }

  predicate Stale(r: Row, now: Time) {
    r.status == Processing && r.leaseUntil.Some? && r.leaseUntil.value < now && !r.cancelRequested
  }

  function RecoverIfStale(r: Row, now: Time): Row {
    if Stale(r, now) then
      r.(status := Retry, stage := "Recovered after worker restart", leaseOwner := None,
         leaseUntil := None, availableAt := now, updatedAt := now)
    else r
  }

  predicate Claimable(r: Row, now: Time, kinds: seq<string>) {
    r.status in {Pending, Retry} && r.availableAt <= now && !r.cancelRequested && r.kind in kinds
  }

  function ClaimRow(r: Row, worker: Worker, now: Time, lease: int): Row {
    r.(status := Processing, attempts := r.attempts + 1, progress := 1,
       stage := "Claimed by isolated worker", leaseOwner := Some(worker),
       leaseUntil := Some(now + lease as real), updatedAt := now)
  }

  function CancelRow(r: Row, tenantId: string, now: Time): Row {
    if r.tenantId == tenantId && !Settled(r.status) then
      r.(cancelRequested := true, status := if r.status == Processing then Processing else Cancelled,
         stage := "Cancellation requested", updatedAt := now)
    else r
  }

  predicate Completes(r: Row, worker: Worker, seenCancel: bool) {
    !seenCancel && r.status == Processing && r.leaseOwner == Some(worker)
  }

  function CompleteRow(r: Row, c: Call): Row
    requires c.CompleteJob?
  {
    if c.seenCancel then
      r.(status := Cancelled, stage := "Cancelled", updatedAt := c.now)
    else if Completes(r, c.worker, c.seenCancel) then
      r.(status := Complete, resultPath := Some(c.path), resultSha := Some(c.sha),
         filename := if c.filename.Some? then c.filename else r.filename,
         progress := 100, stage := "Done", leaseOwner := None, leaseUntil := None, updatedAt := c.now)
    else r
  }

  function Pow2(n: nat): nat {
    if n == 0 then 1 else 2 * Pow2(n - 1)
  }

  function Min(a: int, b: int): int {
    if a < b then a else b
  }

  function Max(a: int, b: int): int {
    if a < b then b else a
  }

  /** Seconds until the next attempt after `attempts` attempts. */
  function Delay(attempts: nat): int {
    Min(300, Pow2(Max(attempts, 1)))
  }

  function FailStatus(seen: Snapshot, retryable: bool): Status {
    if seen.cancelRequested then Cancelled
    else if retryable && seen.attempts < seen.maxAttempts then Retry
    else Failed
  }

  function Take(s: string, n: nat): string {
    if |s| <= n then s else s[..n]
  }

  function FailRow(r: Row, c: Call): Row
    requires c.FailJob?
  {
    if r.leaseOwner == Some(c.worker) then
      var status := FailStatus(c.seen, c.retryable);
      var delay := if status == Retry then Delay(c.seen.attempts) else 0;
      r.(status := status, error := Some(Take(c.error, 1000)),
         stage := if status == Retry then "Retry scheduled" else if status == Failed then "Failed" else "Cancelled",
         availableAt := c.now + delay as real, leaseOwner := None, leaseUntil := None, updatedAt := c.now)
    else r
  }

  function ProgressRow(r: Row, c: Call): Row
    requires c.UpdateProgress?
  {
    if c.owner == None || c.owner == Some("") || c.owner == r.leaseOwner then
      r.(progress := Min(Max(c.percent, 0), 100), stage := Take(c.stage, 200), updatedAt := c.now)
    else r
  }

  function Cutoff(now: Time, maxAge: Option<int>): Time {
    if maxAge.Some? then now - maxAge.value as real else now
  }

  predicate Purgeable(r: Row, now: Time, maxAge: Option<int>) {
    r.status in {Complete, Failed, Cancelled} && r.expiresAt < Cutoff(now, maxAge)
  }

  function ExpireRow(r: Row, now: Time): Row {
    r.(status := Expired, resultPath := None, payload := map[], stage := "Expired and deleted", updatedAt := now)
  }

  /** What the call `c` makes of the row `r` stored under `id`. */
  function RowStep(r: Row, c: Call, id: JobId): Row {
    match c
    case CreateJob(_, _, _, _, _, _, _, _, _, _) => r
    case ClaimNext(now, worker, kinds, lease, pick) =>
      if kinds == [] then r
      else if pick == Some(id) then ClaimRow(RecoverIfStale(r, now), worker, now, lease)
      else RecoverIfStale(r, now)
    case RecoverStale(now) => RecoverIfStale(r, now)
    case RenewLease(now, job, worker, lease) =>
      if job == id && r.status == Processing && r.leaseOwner == Some(worker) then
        r.(leaseUntil := Some(now + lease as real), updatedAt := now)
      else r
    case RequestCancel(now, job, tenantId, _) => if job == id then CancelRow(r, tenantId, now) else r
    case CompleteJob(_, job, _, _, _, _, _) => if job == id then CompleteRow(r, c) else r
    case FailJob(_, job, _, _, _, _) => if job == id then FailRow(r, c) else r
    case UpdateProgress(_, job, _, _, _) => if job == id then ProgressRow(r, c) else r
    case ExpireJob(now, job, _) => if job == id then ExpireRow(r, now) else r
    case AppendNote(_, _, _, _, _) => r
  }

  // ---------------------------------------------------------------- effects on the table

  const STORAGE_FIELDS := {"source_path", "document_id", "result_dir"}

  function Semantic(payload: map<string, string>): map<string, string> {
    payload - STORAGE_FIELDS
  }

  function NewRow(c: Call): Row
    requires c.CreateJob?
  {
    Row(c.tenantId, c.userId, c.kind, c.payload, Digest(c.kind, Semantic(c.payload)), c.key,
        Pending, None, None, c.filename, None, 0, "Queued", 0, c.maxAttempts, c.now,
        None, None, false, c.now, c.now, c.now + c.ttl as real)
  }

  /** The row that the partial unique index (tenant_id, idempotency_key) would collide with. */
  predicate HoldsKey(r: Row, tenantId: string, key: Option<string>) {
    key.Some? && r.tenantId == tenantId && r.key == key
  }

  predicate Conflicts(db: Db, c: Call)
    requires c.CreateJob?
  {
    c.newId in db.jobs || exists id :: id in db.jobs && HoldsKey(db.jobs[id], c.tenantId, c.key)
  }

  function InsertedBy(db: Db, c: Call): map<JobId, Row> {
    if c.CreateJob? && !Conflicts(db, c) then map[c.newId := NewRow(c)] else map[]
  }

  function FailAction(status: Status): JobAction {
    if status == Cancelled then JobCancelled else if status == Retry then JobRetry else JobFailed
  }

  function AuditOf(db: Db, c: Call): seq<AuditEntry> {
    match c
    case CreateJob(_, newId, tenantId, userId, _, _, _, _, _, _) =>
      if Conflicts(db, c) then [] else [JobEvent(tenantId, userId, JobCreated, newId)]
    case RequestCancel(_, id, tenantId, userId) =>
      if id in db.jobs && db.jobs[id].tenantId == tenantId && !Settled(db.jobs[id].status)
      then [JobEvent(tenantId, userId, JobCancelled, id)] else []
    case CompleteJob(_, id, worker, _, _, _, seenCancel) =>
      if id in db.jobs && Completes(db.jobs[id], worker, seenCancel)
      then [JobEvent(db.jobs[id].tenantId, db.jobs[id].userId, JobCompleted, id)] else []
    case FailJob(_, id, _, _, retryable, seen) =>
      if id in db.jobs
      then [JobEvent(db.jobs[id].tenantId, db.jobs[id].userId, FailAction(FailStatus(seen, retryable)), id)]
      else []
    case ExpireJob(_, id, _) =>
      if id in db.jobs then [JobEvent(db.jobs[id].tenantId, db.jobs[id].userId, JobExpired, id)] else []
    case AppendNote(_, name, tenantId, userId, resource) => [OtherEvent(tenantId, userId, name, resource)]
    case _ => []
  }

  function StepRows(db: Db, c: Call): map<JobId, Row> {
    map id | id in db.jobs :: RowStep(db.jobs[id], c, id)
  }

  function Exec(db: Db, c: Call): Db {
    Db(StepRows(db, c) + InsertedBy(db, c), db.audit + AuditOf(db, c))
  }

  // ---------------------------------------------------------------- what the database may answer

  /** `pick` is an oldest claimable job, and None only when there is none. */
  ghost predicate RightPick(db: Db, now: Time, kinds: seq<string>, pick: Option<JobId>) {
    match pick
    case None => forall id :: id in db.jobs ==> !Claimable(RecoverIfStale(db.jobs[id], now), now, kinds)
    case Some(p) =>
      && p in db.jobs
      && Claimable(RecoverIfStale(db.jobs[p], now), now, kinds)
      && forall id :: id in db.jobs && Claimable(RecoverIfStale(db.jobs[id], now), now, kinds) ==>
                        db.jobs[p].createdAt <= db.jobs[id].createdAt
  }

  ghost predicate Distinct<T>(s: seq<T>) {
    forall i, j :: 0 <= i < j < |s| ==> s[i] != s[j]
  }

  ghost predicate Enabled(db: Db, c: Call) {
    c.ClaimNext? ==> if c.kinds == [] then c.pick == None else RightPick(db, c.now, c.kinds, c.pick)
  }

  /** Calls that write what an earlier statement of the same function has read. */
  predicate ReadsFirst(c: Call) {
    c.CompleteJob? || c.FailJob? || c.ExpireJob?
  }

  /** The call can have read the row `r`. */
  predicate Saw(c: Call, r: Row)
    requires ReadsFirst(c)
  {
    match c
    case CompleteJob(_, _, _, _, _, _, seenCancel) => seenCancel == r.cancelRequested
    case FailJob(_, _, _, _, _, seen) => seen == Snapshot(r.attempts, r.maxAttempts, r.cancelRequested)
    case ExpireJob(now, _, maxAge) => Purgeable(r, now, maxAge)
  }

  // ---------------------------------------------------------------- the result of create_job

  datatype CreateOutcome = Created(id: JobId) | Replayed(id: JobId) | KeyReused | IntegrityError

  /** create_job may return or raise `o` when called as `c` on `db`. */
  ghost predicate Returns(db: Db, c: Call, o: CreateOutcome)
    requires c.CreateJob?
  {
    if !Conflicts(db, c) then o == Created(c.newId)
    else if c.key == None || c.key == Some("") then o == IntegrityError
    else
      match o
      case Replayed(id) =>
        id in db.jobs && HoldsKey(db.jobs[id], c.tenantId, c.key) && db.jobs[id].digest == Digest(c.kind, Semantic(c.payload))
      case KeyReused =>
        || (forall id :: id in db.jobs ==> !HoldsKey(db.jobs[id], c.tenantId, c.key))
        || (exists id :: id in db.jobs && HoldsKey(db.jobs[id], c.tenantId, c.key) && db.jobs[id].digest != Digest(c.kind, Semantic(c.payload)))
      case _ => false
  }
}
