/** Documents, legal hold, deletion and expiry (makepdf/web/governance.py) on top of the job table.
    delete_document is several statements: it looks for a hold, lists the jobs that name the document,
    marks the document, cancels the listed jobs one by one, and empties the document. Each is an action of
    its own here, and a deletion in progress is remembered under a ticket, so a run covers every
    interleaving with everybody else. */
module Documents {
  import opened Options
  import opened JobTable
  import opened JobRuns

  type DocId = string
  type Ticket = nat

  datatype Identity = Identity(tenantId: string, userId: string, role: string) {
    predicate IsAdmin() { role == "administrator" }
  }

  datatype DocStatus = Quarantined | Active | DeletionPending | Deleted

  datatype Document = Document(
    tenantId: string, ownerId: string, sourcePath: string, sourceSha: string, size: int, pages: Option<int>,
    status: DocStatus, retentionUntil: Time, legalHold: bool, createdAt: Time, deletedAt: Option<Time>)

  datatype Store = Store(db: Db, docs: map<DocId, Document>)

  /** How far a delete_document call has come: it has passed its check, it has listed the jobs, it still
      has to cancel the jobs `rest`, or it is over. */
  datatype Stage = Checked | Listed(jobs: seq<JobId>) | Cancelling(rest: seq<JobId>) | Over

  datatype Deleting = Deleting(who: Identity, id: DocId, stage: Stage)

  datatype Site = Site(store: Store, tickets: map<Ticket, Deleting>)

  const EMPTY_SITE := Site(Store(EMPTY_DB, map[]), map[])

  /** What the intake of an upload yields. */
  datatype Intake = Intake(path: string, sha: string, size: int, pages: Option<int>)

  datatype Action =
    | Queue(call: Call)
    | RegisterDoc(now: Time, id: DocId, who: Identity, intake: Intake, retentionDays: int)
    | SetHold(now: Time, who: Identity, id: DocId, enabled: bool)
    | CheckDelete(ticket: Ticket, who: Identity, id: DocId)
    | ListJobs(ticket: Ticket, jobs: seq<JobId>)
    | MarkDelete(ticket: Ticket)
    | CancelNext(now: Time, ticket: Ticket)
    | FinishDelete(now: Time, ticket: Ticket)

  datatype Outcome = Done | NotFound | Forbidden | OnHold | Duplicate

  // ---------------------------------------------------------------- who may do what

  predicate Visible(st: Store, who: Identity, id: DocId) {
    id in st.docs && st.docs[id].tenantId == who.tenantId && (st.docs[id].ownerId == who.userId || who.IsAdmin())
  }

  function DeleteOutcome(st: Store, who: Identity, id: DocId): Outcome {
    if !Visible(st, who, id) then NotFound else if st.docs[id].legalHold then OnHold else Done
  }

  function HoldOutcome(st: Store, who: Identity, id: DocId): Outcome {
    if !who.IsAdmin() then Forbidden else if !Visible(st, who, id) then NotFound else Done
  }

  predicate Names(r: Row, tenantId: string, id: DocId) {
    r.tenantId == tenantId && "document_id" in r.payload && r.payload["document_id"] == id
  }

  function NamedJobs(db: Db, tenantId: string, id: DocId): set<JobId> {
    set j | j in db.jobs && Names(db.jobs[j], tenantId, id)
  }

  /** `jobs` is the answer to "which jobs name this document". */
  ghost predicate RightJobs(db: Db, tenantId: string, id: DocId, jobs: seq<JobId>) {
    forall j :: j in jobs <==> j in NamedJobs(db, tenantId, id)
  }

  predicate Overdue(d: Document, now: Time) {
    d.status == Active && !d.legalHold && d.retentionUntil < now
  }

  // ---------------------------------------------------------------- effects

  function Note(now: Time, name: string, who: Identity, id: DocId): Call {
    AppendNote(now, name, who.tenantId, who.userId, id)
  }

  function RegisteredDoc(now: Time, who: Identity, intake: Intake, retentionDays: int): Document {
    Document(who.tenantId, who.userId, intake.path, intake.sha, intake.size, intake.pages, Active,
             now + (Max(1, retentionDays) * 86400) as real, false, now, None)
  }

  function RegisterStep(st: Store, now: Time, id: DocId, who: Identity, intake: Intake, retentionDays: int): Store {
    if id in st.docs then st
    else Store(Exec(st.db, Note(now, "document.created", who, id)), st.docs[id := RegisteredDoc(now, who, intake, retentionDays)])
  }

  function HoldStep(st: Store, now: Time, who: Identity, id: DocId, enabled: bool): Store {
    if HoldOutcome(st, who, id) != Done then st
    else Store(Exec(st.db, Note(now, "document.hold.changed", who, id)), st.docs[id := st.docs[id].(legalHold := enabled)])
  }

  function PendingDoc(d: Document): Document {
    d.(status := DeletionPending)
  }

  function DeletedDoc(d: Document, now: Time): Document {
    d.(status := Deleted, sourcePath := "", deletedAt := Some(now))
  }

  predicate InStage(s: Site, ticket: Ticket, stage: Stage) {
    ticket in s.tickets && s.tickets[ticket].stage == stage && s.tickets[ticket].id in s.store.docs
  }

  predicate MayMark(s: Site, ticket: Ticket) {
    ticket in s.tickets && s.tickets[ticket].stage.Listed? && s.tickets[ticket].id in s.store.docs
  }

  predicate MayCancel(s: Site, ticket: Ticket) {
    ticket in s.tickets && s.tickets[ticket].stage.Cancelling? && s.tickets[ticket].stage.rest != []
  }

  function Advance(s: Site, ticket: Ticket, stage: Stage): map<Ticket, Deleting>
    requires ticket in s.tickets
  {
    s.tickets[ticket := s.tickets[ticket].(stage := stage)]
  }

  function Cancellation(s: Site, now: Time, ticket: Ticket): Call
    requires MayCancel(s, ticket)
  {
    var d := s.tickets[ticket];
    RequestCancel(now, d.stage.rest[0], d.who.tenantId, d.who.userId)
  }

  function Step(s: Site, a: Action): Site {
    var st := s.store;
    match a
    case Queue(call) => s.(store := st.(db := Exec(st.db, call)))
    case RegisterDoc(now, id, who, intake, days) => s.(store := RegisterStep(st, now, id, who, intake, days))
    case SetHold(now, who, id, enabled) => s.(store := HoldStep(st, now, who, id, enabled))
    case CheckDelete(ticket, who, id) =>
      if DeleteOutcome(st, who, id) == Done then s.(tickets := s.tickets[ticket := Deleting(who, id, Checked)]) else s
    case ListJobs(ticket, jobs) =>
      if InStage(s, ticket, Checked) then s.(tickets := Advance(s, ticket, Listed(jobs))) else s
    case MarkDelete(ticket) =>
      if MayMark(s, ticket) then
        var id := s.tickets[ticket].id;
        Site(st.(docs := st.docs[id := PendingDoc(st.docs[id])]), Advance(s, ticket, Cancelling(s.tickets[ticket].stage.jobs)))
      else s
    case CancelNext(now, ticket) =>
      if MayCancel(s, ticket) then
        Site(st.(db := Exec(st.db, Cancellation(s, now, ticket))),
             Advance(s, ticket, Cancelling(s.tickets[ticket].stage.rest[1..])))
      else s
    case FinishDelete(now, ticket) =>
      if InStage(s, ticket, Cancelling([])) then
        var d := s.tickets[ticket];
        Site(Store(Exec(st.db, Note(now, "document.deleted", d.who, d.id)), st.docs[d.id := DeletedDoc(st.docs[d.id], now)]),
             Advance(s, ticket, Over))
      else s
  }

  function SiteRun(s: Site, actions: seq<Action>): Site
    decreases |actions|
  {
    if actions == [] then s else SiteRun(Step(s, actions[0]), actions[1..])
  }

  /** The order of the statements of delete_document, and the answers of the database. */
  ghost predicate Allowed(s: Site, a: Action) {
    match a
    case Queue(call) => Enabled(s.store.db, call)
    case CheckDelete(ticket, _, _) => ticket !in s.tickets
    case ListJobs(ticket, jobs) =>
      InStage(s, ticket, Checked) && RightJobs(s.store.db, s.tickets[ticket].who.tenantId, s.tickets[ticket].id, jobs)
    case MarkDelete(ticket) => MayMark(s, ticket)
    case CancelNext(_, ticket) => MayCancel(s, ticket)
    case FinishDelete(_, ticket) => InStage(s, ticket, Cancelling([]))
    case _ => true
  }

  ghost predicate AllAllowed(s: Site, actions: seq<Action>)
    decreases |actions|
  {
    actions == [] || (Allowed(s, actions[0]) && AllAllowed(Step(s, actions[0]), actions[1..]))
  }

  lemma SiteAppend(s: Site, a: seq<Action>, b: seq<Action>)
    ensures SiteRun(s, a + b) == SiteRun(SiteRun(s, a), b)
    ensures AllAllowed(s, a + b) <==> AllAllowed(s, a) && AllAllowed(SiteRun(s, a), b)
    decreases |a|
  {
    if a == [] {
      assert a + b == b;
    } else {
      assert (a + b)[0] == a[0] && (a + b)[1..] == a[1..] + b;
      SiteAppend(Step(s, a[0]), a[1..], b);
    }
  }

  lemma AllowedPrefix(s: Site, actions: seq<Action>, n: nat)
    requires AllAllowed(s, actions) && n <= |actions|
    ensures AllAllowed(s, actions[..n])
    decreases n
  {
    if n > 0 {
      assert actions[..n][0] == actions[0] && actions[..n][1..] == actions[1..][..n - 1];
      AllowedPrefix(Step(s, actions[0]), actions[1..], n - 1);
    }
  }

  lemma OneAction(s: Site, a: Action)
    ensures SiteRun(s, [a]) == Step(s, a) && (AllAllowed(s, [a]) <==> Allowed(s, a))
  {
    assert [a][1..] == [];
  }

  // ---------------------------------------------------------------- site runs as registry runs

  /** The registry call that an action makes, if any. */
  function CallOf(s: Site, a: Action): seq<Call> {
    match a
    case Queue(call) => [call]
    case RegisterDoc(now, id, who, _, _) => if id in s.store.docs then [] else [Note(now, "document.created", who, id)]
    case SetHold(now, who, id, _) =>
      if HoldOutcome(s.store, who, id) != Done then [] else [Note(now, "document.hold.changed", who, id)]
    case CheckDelete(_, _, _) => []
    case ListJobs(_, _) => []
    case MarkDelete(_) => []
    case CancelNext(now, ticket) => if MayCancel(s, ticket) then [Cancellation(s, now, ticket)] else []
    case FinishDelete(now, ticket) =>
      if InStage(s, ticket, Cancelling([])) then [Note(now, "document.deleted", s.tickets[ticket].who, s.tickets[ticket].id)] else []
  }

  function Flatten(s: Site, actions: seq<Action>): seq<Call>
    decreases |actions|
  {
    if actions == [] then [] else CallOf(s, actions[0]) + Flatten(Step(s, actions[0]), actions[1..])
  }

  lemma CallOfStep(s: Site, a: Action)
    ensures Step(s, a).store.db == Run(s.store.db, CallOf(s, a))
    ensures Allowed(s, a) ==> Valid(s.store.db, CallOf(s, a))
  {
    if CallOf(s, a) != [] { OneCall(s.store.db, CallOf(s, a)[0]); }
  }

  /** A run of governance actions and registry calls is, for the job table, a run of registry calls, and a
      valid one. With the reads of its calls it is one of JobReads, so the queue results hold in it. */
  lemma {:induction false} SiteRunsAreRuns(s: Site, actions: seq<Action>)
    ensures SiteRun(s, actions).store.db == Run(s.store.db, Flatten(s, actions))
    ensures AllAllowed(s, actions) ==> Valid(s.store.db, Flatten(s, actions))
    decreases |actions|
  {
    if actions != [] {
      var a := actions[0];
      CallOfStep(s, a);
      SiteRunsAreRuns(Step(s, a), actions[1..]);
      RunAppend(s.store.db, CallOf(s, a), Flatten(Step(s, a), actions[1..]));
    }
  }

  lemma FlattenAppend(s: Site, a: seq<Action>, b: seq<Action>)
    ensures Flatten(s, a + b) == Flatten(s, a) + Flatten(SiteRun(s, a), b)
    decreases |a|
  {
    if a == [] {
      assert a + b == b;
    } else {
      assert (a + b)[0] == a[0] && (a + b)[1..] == a[1..] + b;
      FlattenAppend(Step(s, a[0]), a[1..], b);
    }
  }
}
