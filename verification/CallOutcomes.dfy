/** What is left when a call of delete_document, expire_documents or a submit route has returned, whatever
    the others did between its statements. */
module CallOutcomes {
  import opened Options
  import opened JobTable
  import opened Documents
  import opened DeleteCall
  import opened LegalHold
  import opened Submission
  import opened DocumentRights
  import opened Governance

  // ---------------------------------------------------------------- delete_document

  /** The deletion has marked the document and still has to cancel `rest`. */
  predicate InProgress(s: Site, ticket: Ticket, who: Identity, id: DocId, rest: seq<JobId>) {
    ticket in s.tickets && s.tickets[ticket] == Deleting(who, id, Cancelling(rest)) && id in s.store.docs
  }

  ghost predicate AllForeignTo(others: nat -> seq<Action>, ticket: Ticket) {
    forall k :: AllForeign(others(k), ticket)
  }

  lemma CallMarks(s: Site, ticket: Ticket, who: Identity, id: DocId, jobs: seq<JobId>, others: nat -> seq<Action>)
    requires DeleteOutcome(s.store, who, id) == Done && AllForeignTo(others, ticket)
    ensures InProgress(SiteRun(s, Marking(ticket, who, id, jobs, others)), ticket, who, id, jobs)
  {
    MarkingRuns(s, ticket, who, id, jobs, others);
    var start := Site(s.store, s.tickets[ticket := Deleting(who, id, Checked)]);
    ForeignKeeps(start, others(0), ticket, id);
    ListedThenMarked(SiteRun(start, others(0)), ticket, who, id, jobs, others(1));
  }

  lemma ListedThenMarked(s: Site, ticket: Ticket, who: Identity, id: DocId, jobs: seq<JobId>, actions: seq<Action>)
    requires ticket in s.tickets && s.tickets[ticket] == Deleting(who, id, Checked) && id in s.store.docs && AllForeign(actions, ticket)
    ensures InProgress(Step(SiteRun(Step(s, ListJobs(ticket, jobs)), actions), MarkDelete(ticket)), ticket, who, id, jobs)
  {
    ForeignKeeps(Step(s, ListJobs(ticket, jobs)), actions, ticket, id);
  }

  predicate CancelledTo(s: Site, ticket: Ticket, clock: nat -> Time, who: Identity, id: DocId, jobs: seq<JobId>, n: nat,
                        others: nat -> seq<Action>)
    requires n <= |jobs|
  {
    InProgress(SiteRun(s, CancelActions(ticket, clock, n, others)), ticket, who, id, jobs[n..])
  }

  lemma CancelsOn(s: Site, ticket: Ticket, clock: nat -> Time, who: Identity, id: DocId, jobs: seq<JobId>, n: nat,
                  others: nat -> seq<Action>)
    requires n < |jobs| && CancelledTo(s, ticket, clock, who, id, jobs, n, others) && AllForeign(others(n + 3), ticket)
    ensures CancelledTo(s, ticket, clock, who, id, jobs, n + 1, others)
  {
    CancellingRuns(s, ticket, clock, n, others);
    CancelsOneMore(SiteRun(s, CancelActions(ticket, clock, n, others)), ticket, clock(n), who, id, jobs, n, others(n + 3));
  }

  lemma {:induction false} CallCancels(s: Site, ticket: Ticket, clock: nat -> Time, who: Identity, id: DocId, jobs: seq<JobId>, n: nat,
                                       others: nat -> seq<Action>)
    requires n <= |jobs| && InProgress(s, ticket, who, id, jobs) && AllForeignTo(others, ticket)
    ensures CancelledTo(s, ticket, clock, who, id, jobs, n, others)
    decreases n
  {
    if n == 0 {
      assert jobs[0..] == jobs;
    } else {
      CallCancels(s, ticket, clock, who, id, jobs, n - 1, others);
      CancelsOn(s, ticket, clock, who, id, jobs, n - 1, others);
    }
  }

  lemma CancelsOneMore(s: Site, ticket: Ticket, now: Time, who: Identity, id: DocId, jobs: seq<JobId>, n: nat, actions: seq<Action>)
    requires n < |jobs| && InProgress(s, ticket, who, id, jobs[n..]) && AllForeign(actions, ticket)
    ensures InProgress(Step(SiteRun(s, actions), CancelNext(now, ticket)), ticket, who, id, jobs[n + 1..])
  {
    ForeignKeeps(s, actions, ticket, id);
    assert jobs[n..][1..] == jobs[n + 1..];
  }

  predicate Gone(s: Site, id: DocId, at: Time) {
    id in s.store.docs && s.store.docs[id].status == Deleted && s.store.docs[id].sourcePath == "" && s.store.docs[id].deletedAt == Some(at)
  }

  lemma CallFinishes(s: Site, ticket: Ticket, now: Time, who: Identity, id: DocId, actions: seq<Action>)
    requires InProgress(s, ticket, who, id, []) && AllForeign(actions, ticket)
    ensures Gone(Step(SiteRun(s, actions), FinishDelete(now, ticket)), id, now)
  {
    ForeignKeeps(s, actions, ticket, id);
  }

  /** A delete_document call that passes its check returns with the document deleted, whatever the others
      do between its statements, even if they put it on hold. */
  lemma CallDeletes(s: Site, ticket: Ticket, clock: nat -> Time, who: Identity, id: DocId, jobs: seq<JobId>, others: nat -> seq<Action>)
    requires DeleteOutcome(s.store, who, id) == Done && AllForeignTo(others, ticket)
    ensures Gone(SiteRun(s, DeleteActions(ticket, clock, who, id, jobs, others)), id, clock(|jobs|))
  {
    var marked := SiteRun(s, Marking(ticket, who, id, jobs, others));
    CallMarks(s, ticket, who, id, jobs, others);
    CallCancels(marked, ticket, clock, who, id, jobs, |jobs|, others);
    FinishingRuns(s, marked, ticket, clock, who, id, jobs, others);
    assert jobs[|jobs|..] == [];
    CallFinishes(SiteRun(marked, CancelActions(ticket, clock, |jobs|, others)), ticket, clock(|jobs|), who, id, others(2));
  }

  // ---------------------------------------------------------------- a submission

  predicate Untitled(db: Db, j: JobId, id: DocId) {
    !(j in db.jobs && "document_id" in db.jobs[j].payload && db.jobs[j].payload["document_id"] == id)
  }

  lemma {:induction false} OwnerKept(s: Site, actions: seq<Action>, id: DocId, who: Identity)
    requires OwnedBy(s, id, who)
    ensures OwnedBy(SiteRun(s, actions), id, who)
    decreases |actions|
  {
    if actions != [] {
      OwnerStep(s, actions[0], id, who);
      OwnerKept(Step(s, actions[0]), actions[1..], id, who);
    }
  }

  lemma OwnerAtUndo(s: Site, q: Request, around: Around)
    requires q.docId !in s.store.docs
    ensures OwnedBy(SiteRun(AfterCreate(s, q, around), around.later), q.docId, q.who)
  {
    OneAction(s, RegisterOf(q));
    SiteAppend(s, [RegisterOf(q)], around.gap);
    OwnerKept(Step(s, RegisterOf(q)), around.gap, q.docId, q.who);
    OwnerStep(BeforeCreate(s, q, around), Queue(CreateOf(q)), q.docId, q.who);
    OwnerKept(AfterCreate(s, q, around), around.later, q.docId, q.who);
  }

  /** What a submission leaves. A new job is answered, waits with all that the request asks for, and its
      document is left alone. A replay answers the earlier job, a reused key is refused, and either way the
      document that was just registered is deleted again, unless it has been put on hold: that, and nothing
      else, makes the undo fail. */
  lemma SubmissionLeaves(s: Site, q: Request, around: Around, o: CreateOutcome, order: seq<JobId>, end: Site, result: SubmitResult)
    requires q.docId !in s.store.docs && q.key != "" && AllForeignTo(around.others, around.ticket)
    requires Returns(BeforeCreate(s, q, around).store.db, CreateOf(q), o) && SubmitEnds(s, q, around, o, order, end, result)
    ensures var before, undone := BeforeCreate(s, q, around), SiteRun(AfterCreate(s, q, around), around.later);
            match o
            case Created(id) =>
              && id == q.jobId && result == Accepted(id) && end.store.docs == before.store.docs
              && id !in before.store.db.jobs && id in end.store.db.jobs
              && end.store.db.jobs == before.store.db.jobs[id := end.store.db.jobs[id]]
              && end.store.db.jobs[id].status == Pending && end.store.db.jobs[id].tenantId == q.who.tenantId
              && end.store.db.jobs[id].payload == map["document_id" := q.docId, "source_path" := q.intake.path,
                                                      "source_sha256" := q.intake.sha, "language" := q.language, "result_dir" := q.resultDir]
            case IntegrityError => false
            case _ =>
              && (o.Replayed? ==> o.id in before.store.db.jobs && before.store.db.jobs[o.id].key == Some(q.key))
              && if o.Replayed? && !Untitled(before.store.db, o.id, q.docId) then result == Accepted(o.id) && end == before
                 else if Held(undone, q.docId) then result == UndoFailed(OnHold) && end == undone
                 else
                   && result == (if o.Replayed? then Accepted(o.id) else Refused)
                   && Gone(end, q.docId, around.clock(|order|))
                   && forall j :: j in order <==> j in NamedJobs(UndoListing(undone, q, around).store.db, q.who.tenantId, q.docId)
  {
    var before := BeforeCreate(s, q, around);
    CreateShows(before, q);
    if !o.Created? {
      SubmissionAlters(before, q, o);
      OwnerAtUndo(s, q, around);
      var undone := SiteRun(AfterCreate(s, q, around), around.later);
      WhoMayDelete(undone.store, q.who, q.docId);
      if !Held(undone, q.docId) {
        CallDeletes(undone, around.ticket, around.clock, q.who, q.docId, order, around.others);
      }
    }
  }

  lemma SubmissionAlters(before: Site, q: Request, o: CreateOutcome)
    requires q.key != "" && Returns(before.store.db, CreateOf(q), o) && !o.Created?
    ensures Step(before, Queue(CreateOf(q))) == before && !o.IntegrityError?
    ensures o.Replayed? ==> o.id in before.store.db.jobs && before.store.db.jobs[o.id].key == Some(q.key)
    ensures MustUndo(before.store.db, o, q.docId) <==> !(o.Replayed? && !Untitled(before.store.db, o.id, q.docId))
  {
    assert StepRows(before.store.db, CreateOf(q)) == before.store.db.jobs;
  }

  /** The document and the job that a submission registers and creates: kept for a week, and known by the
      key, the name and the owner that the request gives. */
  lemma SubmissionStores(s: Site, q: Request)
    ensures q.docId !in s.store.docs ==>
              var s1 := Step(s, RegisterOf(q));
              && q.docId in s1.store.docs && s1.store.docs[q.docId].retentionUntil == q.now + 604800.0
              && s1.store.docs[q.docId].tenantId == q.who.tenantId && s1.store.docs[q.docId].ownerId == q.who.userId
    ensures !Conflicts(s.store.db, CreateOf(q)) ==>
              var s1 := Step(s, Queue(CreateOf(q)));
              && q.jobId in s1.store.db.jobs
              && var r := s1.store.db.jobs[q.jobId];
              && r.tenantId == q.who.tenantId && r.userId == q.who.userId && r.kind == q.kind && r.key == Some(q.key)
              && r.filename == Some(q.filename) && r.maxAttempts == q.maxAttempts && r.createdAt == q.now && r.expiresAt == q.now + q.ttl as real
  {
    CreateShows(s, q);
  }

  // ---------------------------------------------------------------- expire_documents

  lemma {:induction false} NotActiveStays(s: Site, actions: seq<Action>, id: DocId)
    requires Inactive(s, id)
    ensures Inactive(SiteRun(s, actions), id)
    decreases |actions|
  {
    if actions != [] {
      NotActiveStep(s, actions[0], id);
      NotActiveStays(Step(s, actions[0]), actions[1..], id);
    }
  }

  lemma OneExpiredIsGone(s: Site, p: Plan, docs: map<DocId, Document>, e: Expiry, n: nat)
    requires e.id in docs && Apart(p) && RightlyExpired(s, p, docs, e, n)
    ensures Gone(OneExpired(s, p, docs, e, n), e.id, p.clocks(n)(|e.jobs|))
  {
    CallDeletes(SiteRun(s, p.before(n)), p.tickets(n), p.clocks(n), RetentionWorker(docs[e.id]), e.id, e.jobs, p.others(n));
  }

  lemma OneExpiredKeeps(s: Site, p: Plan, docs: map<DocId, Document>, e: Expiry, n: nat, id: DocId)
    requires e.id in docs && Inactive(s, id)
    ensures Inactive(OneExpired(s, p, docs, e, n), id)
  {
    NotActiveStays(s, p.before(n), id);
    NotActiveStays(SiteRun(s, p.before(n)), DeleteActions(p.tickets(n), p.clocks(n), RetentionWorker(docs[e.id]), e.id, e.jobs, p.others(n)), id);
  }

  predicate Inactive(s: Site, id: DocId) {
    id in s.store.docs && s.store.docs[id].status != Active
  }

  /** The m-th deletion was right. */
  ghost predicate RightAt(s: Site, p: Plan, docs: map<DocId, Document>, expiries: seq<Expiry>, m: nat)
    requires m < |expiries| && AllIn(docs, expiries)
  {
    RightlyExpired(ExpiredTo(s, p, docs, expiries, m), p, docs, expiries[m], m)
  }

  lemma LastIsRight(s: Site, p: Plan, docs: map<DocId, Document>, expiries: seq<Expiry>)
    requires expiries != [] && AllIn(docs, expiries) && RightTo(s, p, docs, expiries)
    ensures RightTo(s, p, docs, expiries[..|expiries| - 1]) && RightAt(s, p, docs, expiries, |expiries| - 1)
  {
    SameSites(s, p, docs, expiries[..|expiries| - 1], expiries, |expiries| - 1);
  }

  lemma {:induction false} EachIsRight(s: Site, p: Plan, docs: map<DocId, Document>, expiries: seq<Expiry>, m: nat)
    requires m < |expiries| && AllIn(docs, expiries) && RightTo(s, p, docs, expiries)
    ensures RightAt(s, p, docs, expiries, m)
    decreases |expiries|
  {
    LastIsRight(s, p, docs, expiries);
    if m < |expiries| - 1 {
      var shorter := expiries[..|expiries| - 1];
      EachIsRight(s, p, docs, shorter, m);
      SameSites(s, p, docs, shorter, expiries, m);
    }
  }

  /** The document is not active after n deletions. */
  predicate GoneAfter(s: Site, p: Plan, docs: map<DocId, Document>, expiries: seq<Expiry>, n: nat, id: DocId)
    requires n <= |expiries| && AllIn(docs, expiries)
  {
    Inactive(ExpiredTo(s, p, docs, expiries, n), id)
  }

  lemma NowGone(s: Site, p: Plan, docs: map<DocId, Document>, expiries: seq<Expiry>, k: nat)
    requires k < |expiries| && AllIn(docs, expiries) && Apart(p) && RightAt(s, p, docs, expiries, k)
    ensures GoneAfter(s, p, docs, expiries, k + 1, expiries[k].id)
  {
    OneExpiredIsGone(ExpiredTo(s, p, docs, expiries, k), p, docs, expiries[k], k);
  }

  lemma StillGone(s: Site, p: Plan, docs: map<DocId, Document>, expiries: seq<Expiry>, n: nat, id: DocId)
    requires n < |expiries| && AllIn(docs, expiries) && GoneAfter(s, p, docs, expiries, n, id)
    ensures GoneAfter(s, p, docs, expiries, n + 1, id)
  {
    OneExpiredKeeps(ExpiredTo(s, p, docs, expiries, n), p, docs, expiries[n], n, id);
  }

  predicate Persists(good: nat -> bool, k: nat, n: nat) {
    good(k) && forall i :: k <= i < n && good(i) ==> good(i + 1)
  }

  lemma {:induction false} Persisting(good: nat -> bool, k: nat, n: nat)
    requires k <= n && Persists(good, k, n)
    ensures good(n)
    decreases n
  {
    if k < n { Persisting(good, k, n - 1); }
  }

  function GoneTo(s: Site, p: Plan, docs: map<DocId, Document>, expiries: seq<Expiry>, id: DocId): nat -> bool
    requires AllIn(docs, expiries)
  {
    (n: nat) => n <= |expiries| && GoneAfter(s, p, docs, expiries, n, id)
  }

  lemma StaysGone(s: Site, p: Plan, docs: map<DocId, Document>, expiries: seq<Expiry>, n: nat, id: DocId)
    requires n < |expiries| && AllIn(docs, expiries) && GoneTo(s, p, docs, expiries, id)(n)
    ensures GoneTo(s, p, docs, expiries, id)(n + 1)
  {
    StillGone(s, p, docs, expiries, n, id);
  }

  lemma GonePersists(s: Site, p: Plan, docs: map<DocId, Document>, expiries: seq<Expiry>, k: nat, id: DocId)
    requires k <= |expiries| && AllIn(docs, expiries) && GoneTo(s, p, docs, expiries, id)(k)
    ensures GoneTo(s, p, docs, expiries, id)(|expiries|)
  {
    forall i | k <= i < |expiries| && GoneTo(s, p, docs, expiries, id)(i) ensures GoneTo(s, p, docs, expiries, id)(i + 1) {
      StaysGone(s, p, docs, expiries, i, id);
    }
    Persisting(GoneTo(s, p, docs, expiries, id), k, |expiries|);
  }

  lemma GoneForGood(s: Site, p: Plan, docs: map<DocId, Document>, expiries: seq<Expiry>, k: nat, id: DocId)
    requires k < |expiries| && AllIn(docs, expiries) && Apart(p) && RightAt(s, p, docs, expiries, k) && id == expiries[k].id
    ensures GoneAfter(s, p, docs, expiries, |expiries|, id)
  {
    NowGone(s, p, docs, expiries, k);
    GonePersists(s, p, docs, expiries, k + 1, id);
  }

  /** Every document that expire_documents has deleted by the time it returns is not active any more. */
  lemma ExpiredAreGone(s: Site, p: Plan, docs: map<DocId, Document>, expiries: seq<Expiry>, k: nat)
    requires AllIn(docs, expiries) && Apart(p) && RightTo(s, p, docs, expiries) && k < |expiries|
    ensures GoneAfter(s, p, docs, expiries, |expiries|, expiries[k].id)
  {
    EachIsRight(s, p, docs, expiries, k);
    GoneForGood(s, p, docs, expiries, k, expiries[k].id);
  }

  /** expire_documents selects exactly the active documents that are not on hold and past their retention. */
  lemma ExpirySelects(docs: map<DocId, Document>, now: Time, id: DocId)
    ensures id in Selected(docs, now) <==>
              id in docs && docs[id].status == Active && !docs[id].legalHold && docs[id].retentionUntil < now
  {
  }

  /** So a document that it selects was registered at least its retention days, and at least one day, ago. */
  lemma ExpiresAfterItsRetention(actions: seq<Action>, k: nat, now: Time, id: DocId) returns (p: nat)
    requires AllAllowed(EMPTY_SITE, actions) && k <= |actions| && id in Selected(SiteAt(actions, k).store.docs, now)
    ensures p < k && Registers(actions, p, id)
    ensures actions[p].now + 86400.0 < now && actions[p].now + 86400.0 * actions[p].retentionDays as real < now
  {
    p := WasRegistered(actions, k, id);
    DocumentsAreAsRegistered(actions, p, k, id);
    ExpirySelects(SiteAt(actions, k).store.docs, now, id);
    assert RegisteredAt(actions, p, k, id);
  }

  /** The retention worker is refused by nothing but a hold, whatever has happened since it selected the
      document. */
  lemma OnlyAHoldStopsExpiry(s: Site, actions: seq<Action>, id: DocId)
    requires id in s.store.docs
    ensures var outcome := DeleteOutcome(SiteRun(s, actions).store, RetentionWorker(s.store.docs[id]), id);
            outcome == if Held(SiteRun(s, actions), id) then OnHold else Done
  {
    OwnerKept(s, actions, id, RetentionWorker(s.store.docs[id]));
    WhoMayDelete(SiteRun(s, actions).store, RetentionWorker(s.store.docs[id]), id);
  }
}
