/** The functions of makepdf/web/governance.py and the submit routes, updating their tables in place. */
module Governance {
  import opened Options
  import opened JobTable
  import opened JobRuns
  import opened JobSafety
  import opened JobRegistry
  import opened Documents
  import opened DeleteCall
  import opened Submission
  import Metering

  datatype SubmitResult = Accepted(id: JobId) | Refused | QuotaExceeded | UndoFailed(outcome: Outcome)

  /** What a request gets when its upload was within the quota. */
  predicate MustUndo(db: Db, o: CreateOutcome, id: DocId) {
    o.KeyReused? || (o.Replayed? && !(o.id in db.jobs && "document_id" in db.jobs[o.id].payload && db.jobs[o.id].payload["document_id"] == id))
  }

  /** What surrounds a submission: what everybody else does after its document is registered, after its
      job is created, and between the statements of an undo, which has this ticket and these times. */
  datatype Around = Around(gap: seq<Action>, later: seq<Action>, ticket: Ticket, clock: nat -> Time, others: nat -> seq<Action>)

  ghost predicate OwnTicket(around: Around, taken: map<Ticket, Deleting>) {
    && around.ticket !in taken && AllForeign(around.gap, around.ticket) && AllForeign(around.later, around.ticket)
    && forall k :: AllForeign(around.others(k), around.ticket)
  }

  /** The site when create_job is called, and after it. */
  function BeforeCreate(s: Site, q: Request, around: Around): Site {
    SiteRun(s, [RegisterOf(q)] + around.gap)
  }

  function AfterCreate(s: Site, q: Request, around: Around): Site {
    Step(BeforeCreate(s, q, around), Queue(CreateOf(q)))
  }

  /** The site at the end of a submission, and what it answers: `order` lists the jobs that an undo
      cancels. */
  ghost predicate SubmitEnds(s: Site, q: Request, around: Around, o: CreateOutcome, order: seq<JobId>, end: Site, result: SubmitResult) {
    var db, created := BeforeCreate(s, q, around).store.db, AfterCreate(s, q, around);
    if !MustUndo(db, o, q.docId) then end == created && result == Answer(o)
    else
      var undone := SiteRun(created, around.later);
      var outcome := DeleteOutcome(undone.store, q.who, q.docId);
      if outcome == Done then
        && end == SiteRun(undone, DeleteActions(around.ticket, around.clock, q.who, q.docId, order, around.others))
        && result == Answer(o) && RightJobs(UndoListing(undone, q, around).store.db, q.who.tenantId, q.docId, order)
      else end == undone && result == UndoFailed(outcome)
  }

  /** The site when an undo lists the jobs that name the document. */
  function UndoListing(undone: Site, q: Request, around: Around): Site {
    SiteRun(undone, [CheckDelete(around.ticket, q.who, q.docId)] + around.others(0))
  }

  function Answer(o: CreateOutcome): SubmitResult {
    match o
    case Created(id) => Accepted(id)
    case Replayed(id) => Accepted(id)
    case _ => Refused
  }

  class Office {
    const registry: Registry
    const meters: Metering.Meters
    var documents: map<DocId, Document>
    var tickets: map<Ticket, Deleting>

    constructor ()
      ensures fresh(registry) && fresh(meters)
      ensures Place() == EMPTY_SITE && meters.Contents() == Metering.EMPTY_METER
    {
      registry := new Registry();
      meters := new Metering.Meters();
      documents, tickets := map[], map[];
    }

    function Contents(): Store
      reads this, registry
    {
      Store(registry.Contents(), documents)
    }

    /** The tables and the deletions in progress. */
    function Place(): Site
      reads this, registry
    {
      Site(Contents(), tickets)
    }

    method AddNote(now: Time, name: string, who: Identity, id: DocId)
      modifies registry
      ensures registry.Contents() == Exec(old(registry.Contents()), Note(now, name, who, id))
    {
      assert StepRows(registry.Contents(), Note(now, name, who, id)) == registry.jobs;
      registry.AppendAudit(OtherEvent(who.tenantId, who.userId, name, id));
    }

    method RegisterDocument(now: Time, id: DocId, who: Identity, intake: Intake, retentionDays: int) returns (outcome: Outcome)
      modifies this, registry
      ensures Contents() == RegisterStep(old(Contents()), now, id, who, intake, retentionDays) && tickets == old(tickets)
      ensures outcome == if id in old(documents) then Duplicate else Done
    {
      if id in documents {
        return Duplicate;
      }
      documents := documents[id := Document(who.tenantId, who.userId, intake.path, intake.sha, intake.size, intake.pages, Active,
                                            now + (Max(1, retentionDays) * 86400) as real, false, now, None)];
      AddNote(now, "document.created", who, id);
      return Done;
    }

    method SetLegalHold(now: Time, who: Identity, id: DocId, enabled: bool) returns (outcome: Outcome)
      modifies this, registry
      ensures Contents() == HoldStep(old(Contents()), now, who, id, enabled) && tickets == old(tickets)
      ensures outcome == HoldOutcome(old(Contents()), who, id)
    {
      if !who.IsAdmin() {
        return Forbidden;
      }
      if !Visible(Contents(), who, id) {
        return NotFound;
      }
      documents := documents[id := documents[id].(legalHold := enabled)];
      AddNote(now, "document.hold.changed", who, id);
      return Done;
    }

    /** What everybody else does. */
    method Interfere(actions: seq<Action>)
      modifies this, registry
      ensures Place() == SiteRun(old(Place()), actions)
    {
      var s := SiteRun(Place(), actions);
      registry.jobs, registry.audit, documents, tickets := s.store.db.jobs, s.store.db.audit, s.store.docs, s.tickets;
    }

    // The statements of delete_document.

    method List(ticket: Ticket) returns (order: seq<JobId>)
      requires InStage(Place(), ticket, Checked)
      modifies this, registry
      ensures Place() == Step(old(Place()), ListJobs(ticket, order))
      ensures RightJobs(old(registry.Contents()), old(tickets)[ticket].who.tenantId, old(tickets)[ticket].id, order)
    {
      var d := tickets[ticket];
      order := InSomeOrder(NamedJobs(registry.Contents(), d.who.tenantId, d.id));
      tickets := tickets[ticket := d.(stage := Listed(order))];
    }

    method Mark(ticket: Ticket)
      requires MayMark(Place(), ticket)
      modifies this, registry
      ensures Place() == Step(old(Place()), MarkDelete(ticket))
    {
      var d := tickets[ticket];
      documents := documents[d.id := documents[d.id].(status := DeletionPending)];
      tickets := tickets[ticket := d.(stage := Cancelling(d.stage.jobs))];
    }

    method CancelFirst(now: Time, ticket: Ticket)
      requires MayCancel(Place(), ticket)
      modifies this, registry
      ensures Place() == Step(old(Place()), CancelNext(now, ticket))
    {
      var d := tickets[ticket];
      var accepted := registry.RequestCancel(now, d.stage.rest[0], d.who.tenantId, d.who.userId);
      tickets := tickets[ticket := d.(stage := Cancelling(d.stage.rest[1..]))];
    }

    method Finish(now: Time, ticket: Ticket)
      requires InStage(Place(), ticket, Cancelling([]))
      modifies this, registry
      ensures Place() == Step(old(Place()), FinishDelete(now, ticket))
    {
      var d := tickets[ticket];
      documents := documents[d.id := documents[d.id].(status := Deleted, sourcePath := "", deletedAt := Some(now))];
      AddNote(now, "document.deleted", d.who, d.id);
      tickets := tickets[ticket := d.(stage := Over)];
    }

    /** The deletion still has to cancel `rest`. */
    predicate StillCancels(ticket: Ticket, who: Identity, id: DocId, rest: seq<JobId>)
      reads this
    {
      ticket in tickets && tickets[ticket] == Deleting(who, id, Cancelling(rest)) && id in documents
    }

    /** The others act, and then job k is cancelled. */
    method CancelOne(now: Time, ticket: Ticket, who: Identity, id: DocId, order: seq<JobId>, k: nat, actions: seq<Action>)
      requires k < |order| && AllForeign(actions, ticket) && StillCancels(ticket, who, id, order[k..])
      modifies this, registry
      ensures Place() == Step(SiteRun(old(Place()), actions), CancelNext(now, ticket))
      ensures StillCancels(ticket, who, id, order[k + 1..])
    {
      ForeignKeeps(Place(), actions, ticket, id);
      Interfere(actions);
      CancelFirst(now, ticket);
      assert order[k..][1..] == order[k + 1..];
    }

    method CancelAll(ticket: Ticket, clock: nat -> Time, who: Identity, id: DocId, order: seq<JobId>, others: nat -> seq<Action>)
      requires (forall k :: AllForeign(others(k), ticket)) && StillCancels(ticket, who, id, order)
      modifies this, registry
      ensures Place() == SiteRun(old(Place()), CancelActions(ticket, clock, |order|, others))
      ensures StillCancels(ticket, who, id, [])
    {
      ghost var marked := Place();
      var k := 0;
      assert order[0..] == order;
      while k < |order|
        invariant 0 <= k <= |order| && StillCancels(ticket, who, id, order[k..])
        invariant Place() == SiteRun(marked, CancelActions(ticket, clock, k, others))
      {
        CancelOne(clock(k), ticket, who, id, order, k, others(k + 3));
        CancellingRuns(marked, ticket, clock, k, others);
        k := k + 1;
      }
      assert order[k..] == [];
    }

    /** The check has passed: the others act, the jobs are listed, the others act again, and the document
        is marked. */
    method Begin(ticket: Ticket, who: Identity, id: DocId, others: nat -> seq<Action>) returns (order: seq<JobId>)
      requires DeleteOutcome(Contents(), who, id) == Done && AllForeign(others(0), ticket) && AllForeign(others(1), ticket)
      modifies this, registry
      ensures Place() == SiteRun(old(Place()), Marking(ticket, who, id, order, others))
      ensures RightJobs(SiteRun(old(Place()), [CheckDelete(ticket, who, id)] + others(0)).store.db, who.tenantId, id, order)
      ensures StillCancels(ticket, who, id, order)
    {
      ghost var start := Place();
      tickets := tickets[ticket := Deleting(who, id, Checked)];
      ForeignKeeps(Place(), others(0), ticket, id);
      Interfere(others(0));
      order := List(ticket);
      ForeignKeeps(Place(), others(1), ticket, id);
      Interfere(others(1));
      Mark(ticket);
      MarkingRuns(start, ticket, who, id, order, others);
    }

    /** The others act, and then the document is emptied. */
    method End(now: Time, ticket: Ticket, who: Identity, id: DocId, actions: seq<Action>)
      requires AllForeign(actions, ticket) && StillCancels(ticket, who, id, [])
      modifies this, registry
      ensures Place() == Step(SiteRun(old(Place()), actions), FinishDelete(now, ticket))
    {
      ForeignKeeps(Place(), actions, ticket, id);
      Interfere(actions);
      Finish(now, ticket);
    }

    /** `order` lists the jobs that name the document after `others(0)`, as SQLite returned them;
        `others(k)` is what everybody else does between the statements, and clock(k) the times. */
    method DeleteDocument(ticket: Ticket, clock: nat -> Time, who: Identity, id: DocId, others: nat -> seq<Action>)
      returns (outcome: Outcome, order: seq<JobId>)
      requires ticket !in tickets && forall k :: AllForeign(others(k), ticket)
      modifies this, registry
      ensures outcome == DeleteOutcome(old(Contents()), who, id)
      ensures outcome != Done ==> order == [] && Place() == old(Place())
      ensures outcome == Done ==> Place() == SiteRun(old(Place()), DeleteActions(ticket, clock, who, id, order, others))
      ensures outcome == Done ==>
                RightJobs(SiteRun(old(Place()), [CheckDelete(ticket, who, id)] + others(0)).store.db, who.tenantId, id, order)
    {
      ghost var start := Place();
      order := [];
      if !Visible(Contents(), who, id) {
        return NotFound, [];
      }
      if documents[id].legalHold {
        return OnHold, [];
      }
      order := Begin(ticket, who, id, others);
      ghost var marked := Place();
      CancelAll(ticket, clock, who, id, order, others);
      End(clock(|order|), ticket, who, id, others(2));
      FinishingRuns(start, marked, ticket, clock, who, id, order, others);
      return Done, order;
    }

    /** Selects the overdue documents that are not on hold, and deletes them one after the other; it ends
        early, with an error, when a deletion is refused because of a hold set since. */
    method ExpireDocuments(now: Time, plan: Plan) returns (count: nat, expiries: seq<Expiry>, finished: bool)
      requires Apart(plan) && Free(plan, tickets, 0)
      modifies this, registry
      ensures count == |Selected(old(documents), now)|
      ensures ExpiresRightly(old(Place()), now, plan, old(documents), expiries)
      ensures finished ==>
                && ExpiredIds(expiries) == Selected(old(documents), now)
                && Place() == SiteRun(old(Place()), ExpireActions(plan, old(documents), expiries, |expiries|))
      ensures !finished ==>
                && Place() == SiteRun(SiteRun(old(Place()), ExpireActions(plan, old(documents), expiries, |expiries|)), plan.before(|expiries|))
                && exists d :: d in Selected(old(documents), now) - ExpiredIds(expiries)
                               && DeleteOutcome(Contents(), RetentionWorker(old(documents)[d]), d) != Done
    {
      ghost var start := Place();
      var docs := documents;
      var rows := Selected(documents, now);
      count := |rows|;
      expiries := [];
      finished := true;
      while rows != {} && finished
        invariant Expiring(start, now, plan, docs, expiries, rows, finished, Place())
        decreases rows, finished
      {
        var d :| d in rows;
        rows, expiries, finished := ExpireNext(start, now, plan, docs, expiries, rows, d);
      }
      ExpiryIsRun(start, plan, docs, expiries, |expiries|);
    }

    method ExpireNext(ghost start: Site, ghost now: Time, plan: Plan, docs: map<DocId, Document>, expiries: seq<Expiry>, rows: set<DocId>, d: DocId)
      returns (left: set<DocId>, more: seq<Expiry>, finished: bool)
      requires Apart(plan) && Expiring(start, now, plan, docs, expiries, rows, true, Place()) && d in rows
      modifies this, registry
      ensures Expiring(start, now, plan, docs, more, left, finished, Place())
      ensures finished ==> left == rows - {d}
      ensures !finished ==> left == rows
    {
      var outcome, jobs := ExpireOne(plan, |expiries|, RetentionWorker(docs[d]), d);
      finished := outcome == Done;
      if finished {
        ExpiringMore(start, now, plan, docs, expiries, rows, Expiry(d, jobs), Place());
        left, more := rows - {d}, expiries + [Expiry(d, jobs)];
      } else {
        left, more := rows, expiries;
      }
    }

    /** The others act, and then one document is deleted. */
    method ExpireOne(plan: Plan, k: nat, who: Identity, id: DocId) returns (outcome: Outcome, order: seq<JobId>)
      requires Apart(plan) && Free(plan, tickets, k)
      modifies this, registry
      ensures var mid := SiteRun(old(Place()), plan.before(k));
              && outcome == DeleteOutcome(mid.store, who, id)
              && (outcome != Done ==> Place() == mid)
              && (outcome == Done ==>
                    && Place() == SiteRun(mid, DeleteActions(plan.tickets(k), plan.clocks(k), who, id, order, plan.others(k)))
                    && RightJobs(SiteRun(mid, [CheckDelete(plan.tickets(k), who, id)] + plan.others(k)(0)).store.db, who.tenantId, id, order))
      ensures Free(plan, tickets, k + 1)
    {
      ghost var start := Place();
      Interfere(plan.before(k));
      ghost var mid := Place();
      forall j | k <= j ensures plan.tickets(j) !in tickets { ForeignLeaves(start, plan.before(k), plan.tickets(j)); }
      outcome, order := DeleteDocument(plan.tickets(k), plan.clocks(k), who, id, plan.others(k));
      if outcome == Done {
        forall j | k < j ensures plan.tickets(j) !in tickets {
          DeletionIsForeign(plan.tickets(k), plan.clocks(k), who, id, order, plan.others(k), plan.tickets(j));
          ForeignLeaves(mid, DeleteActions(plan.tickets(k), plan.clocks(k), who, id, order, plan.others(k)), plan.tickets(j));
        }
      }
    }

    /** Charges the quota first; a submission over quota changes nothing at all. `q.key` is non-empty
        because the route demands at least eight characters, and `q.docId` is a new uuid. */
    method SubmitOcr(q: Request, day: string, limits: Metering.Limits, around: Around)
      returns (result: SubmitResult, o: CreateOutcome, order: seq<JobId>)
      requires q.docId !in documents && q.key != "" && OwnTicket(around, tickets)
      modifies this, registry, meters
      ensures meters.Contents() == Metering.Apply(old(meters.Contents()), Metering.Consume(Metering.Key(q.who.tenantId, day), q.intake.size, 1, limits))
      ensures result == QuotaExceeded ==> Place() == old(Place()) && meters.Contents() == old(meters.Contents())
      ensures var c := old(Metering.CountersOf(meters.Contents(), Metering.Key(q.who.tenantId, day)));
              result == QuotaExceeded <==>
                c.requests + 1 > limits.requests || c.bytes + q.intake.size > limits.bytes || c.jobs + 1 > limits.jobs
      ensures result != QuotaExceeded ==>
                && Returns(BeforeCreate(old(Place()), q, around).store.db, CreateOf(q), o)
                && SubmitEnds(old(Place()), q, around, o, order, Place(), result)
    {
      ghost var start := Place();
      o, order := IntegrityError, [];
      var quota := meters.ConsumeQuota(Metering.Key(q.who.tenantId, day), q.intake.size, 1, limits);
      if quota == Metering.Exceeded {
        return QuotaExceeded, o, order;
      }
      o := Create(q, around);
      ForeignLeaves(Step(start, RegisterOf(q)), around.gap, around.ticket);
      var mustUndo := o.KeyReused? || (o.Replayed? && !("document_id" in registry.jobs[o.id].payload && registry.jobs[o.id].payload["document_id"] == q.docId));
      if !mustUndo {
        return Answer(o), o, order;
      }
      result, order := Undo(q, around, o);
    }

    /** Registers the document, lets the others act, and creates the job. */
    method Create(q: Request, around: Around) returns (o: CreateOutcome)
      requires q.docId !in documents && q.key != ""
      modifies this, registry
      ensures Place() == AfterCreate(old(Place()), q, around)
      ensures BeforeCreate(old(Place()), q, around) == SiteRun(Step(old(Place()), RegisterOf(q)), around.gap)
      ensures var db := BeforeCreate(old(Place()), q, around).store.db;
              && Returns(db, CreateOf(q), o) && !o.IntegrityError?
              && (o.Replayed? ==> o.id in db.jobs && o.id in registry.jobs && registry.jobs[o.id] == db.jobs[o.id])
    {
      ghost var start := Place();
      var registered := RegisterDocument(q.now, q.docId, q.who, q.intake, RETENTION_DAYS);
      Interfere(around.gap);
      OneAction(start, RegisterOf(q));
      SiteAppend(start, [RegisterOf(q)], around.gap);
      ghost var db := registry.Contents();
      o := registry.CreateJob(q.now, q.jobId, q.who.tenantId, q.who.userId, q.kind, PayloadOf(q), Some(q.key),
                              Some(q.filename), q.maxAttempts, q.ttl);
      if o.Replayed? { ExecRow(db, CreateOf(q), o.id); }
    }

    /** Deletes the document of a replay or a refused request. */
    method Undo(q: Request, around: Around, o: CreateOutcome) returns (result: SubmitResult, order: seq<JobId>)
      requires around.ticket !in tickets && AllForeign(around.later, around.ticket) && forall k :: AllForeign(around.others(k), around.ticket)
      modifies this, registry
      ensures var undone := SiteRun(old(Place()), around.later);
              var outcome := DeleteOutcome(undone.store, q.who, q.docId);
              if outcome == Done then
                && Place() == SiteRun(undone, DeleteActions(around.ticket, around.clock, q.who, q.docId, order, around.others))
                && result == Answer(o) && RightJobs(UndoListing(undone, q, around).store.db, q.who.tenantId, q.docId, order)
              else Place() == undone && result == UndoFailed(outcome)
    {
      ForeignLeaves(Place(), around.later, around.ticket);
      Interfere(around.later);
      var outcome;
      outcome, order := DeleteDocument(around.ticket, around.clock, q.who, q.docId, around.others);
      result := if outcome == Done then Answer(o) else UndoFailed(outcome);
    }
  }

  function Selected(docs: map<DocId, Document>, now: Time): set<DocId> {
    set d | d in docs && Overdue(docs[d], now)
  }

  /** The deletions of expire_documents so far: each of one more selected document, and of the jobs that
      name it when they are listed. */
  ghost predicate ExpiresRightly(start: Site, now: Time, plan: Plan, docs: map<DocId, Document>, expiries: seq<Expiry>) {
    DifferentRows(docs, now, expiries) && AllIn(docs, expiries) && RightTo(start, plan, docs, expiries)
  }

  predicate DifferentRows(docs: map<DocId, Document>, now: Time, expiries: seq<Expiry>) {
    && (forall k :: 0 <= k < |expiries| ==> expiries[k].id in Selected(docs, now))
    && (forall i, j :: 0 <= i < j < |expiries| ==> expiries[i].id != expiries[j].id)
  }

  lemma AnotherRow(docs: map<DocId, Document>, now: Time, expiries: seq<Expiry>, e: Expiry)
    requires DifferentRows(docs, now, expiries) && e.id in Selected(docs, now) - ExpiredIds(expiries)
    ensures DifferentRows(docs, now, expiries + [e])
  {
    forall i | 0 <= i < |expiries| ensures expiries[i].id != e.id {
      assert expiries[i].id in ExpiredIds(expiries);
    }
  }

  /** The site after these deletions, and after a refused one. */
  ghost predicate Halted(start: Site, plan: Plan, docs: map<DocId, Document>, expiries: seq<Expiry>, rows: set<DocId>, end: Site)
    requires AllIn(docs, expiries)
  {
    && end == SiteRun(ExpiredTo(start, plan, docs, expiries, |expiries|), plan.before(|expiries|))
    && exists d :: d in rows && d in docs && DeleteOutcome(end.store, RetentionWorker(docs[d]), d) != Done
  }

  /** The loop of expire_documents. */
  ghost predicate Expiring(start: Site, now: Time, plan: Plan, docs: map<DocId, Document>, expiries: seq<Expiry>, rows: set<DocId>,
                           finished: bool, end: Site) {
    && ExpiresRightly(start, now, plan, docs, expiries) && rows == Selected(docs, now) - ExpiredIds(expiries)
    && (finished ==> end == ExpiredTo(start, plan, docs, expiries, |expiries|) && Free(plan, end.tickets, |expiries|))
    && (!finished ==> Halted(start, plan, docs, expiries, rows, end))
  }

  lemma ExpiringMore(start: Site, now: Time, plan: Plan, docs: map<DocId, Document>, expiries: seq<Expiry>, rows: set<DocId>, e: Expiry, end: Site)
    requires ExpiresRightly(start, now, plan, docs, expiries) && rows == Selected(docs, now) - ExpiredIds(expiries) && e.id in rows
    requires RightlyExpired(ExpiredTo(start, plan, docs, expiries, |expiries|), plan, docs, e, |expiries|)
    requires end == OneExpired(ExpiredTo(start, plan, docs, expiries, |expiries|), plan, docs, e, |expiries|)
    requires Free(plan, end.tickets, |expiries| + 1)
    ensures Expiring(start, now, plan, docs, expiries + [e], rows - {e.id}, true, end)
  {
    RightlyMore(start, now, plan, docs, expiries, e);
    OneMoreId(expiries, e);
    assert |expiries + [e]| == |expiries| + 1;
  }

  lemma RightlyMore(start: Site, now: Time, plan: Plan, docs: map<DocId, Document>, expiries: seq<Expiry>, e: Expiry)
    requires ExpiresRightly(start, now, plan, docs, expiries) && e.id in Selected(docs, now) - ExpiredIds(expiries)
    requires RightlyExpired(ExpiredTo(start, plan, docs, expiries, |expiries|), plan, docs, e, |expiries|)
    ensures ExpiresRightly(start, now, plan, docs, expiries + [e])
    ensures ExpiredTo(start, plan, docs, expiries + [e], |expiries| + 1) ==
            OneExpired(ExpiredTo(start, plan, docs, expiries, |expiries|), plan, docs, e, |expiries|)
  {
    OneMoreTo(start, plan, docs, expiries, e);
    AnotherRow(docs, now, expiries, e);
  }

  lemma OneMoreId(expiries: seq<Expiry>, e: Expiry)
    ensures ExpiredIds(expiries + [e]) == ExpiredIds(expiries) + {e.id}
  {
    var more := expiries + [e];
    assert more[..|expiries| + 1] == more && more[..|expiries|] == expiries;
    MoreIds(more, |expiries|);
  }

  /** The set as a sequence. */
  method InSomeOrder(jobs: set<JobId>) returns (order: seq<JobId>)
    ensures forall j :: j in order <==> j in jobs
  {
    var left := jobs;
    order := [];
    while left != {}
      invariant forall j :: j in jobs <==> j in order || j in left
      decreases left
    {
      var j :| j in left;
      left, order := left - {j}, order + [j];
    }
  }

  lemma MarkingRuns(s: Site, ticket: Ticket, who: Identity, id: DocId, jobs: seq<JobId>, others: nat -> seq<Action>)
    requires DeleteOutcome(s.store, who, id) == Done
    ensures var checked := SiteRun(s, [CheckDelete(ticket, who, id)] + others(0));
            && checked == SiteRun(Site(s.store, s.tickets[ticket := Deleting(who, id, Checked)]), others(0))
            && SiteRun(s, Marking(ticket, who, id, jobs, others)) ==
               Step(SiteRun(Step(checked, ListJobs(ticket, jobs)), others(1)), MarkDelete(ticket))
  {
    var check, list := [CheckDelete(ticket, who, id)], ListJobs(ticket, jobs);
    OneAction(s, CheckDelete(ticket, who, id));
    SiteAppend(s, check, others(0));
    SiteAndOne(s, check + others(0), list);
    SiteAppend(s, check + others(0) + [list], others(1));
    SiteAndOne(s, check + others(0) + [list] + others(1), MarkDelete(ticket));
  }

  lemma CancellingRuns(s: Site, ticket: Ticket, clock: nat -> Time, k: nat, others: nat -> seq<Action>)
    ensures SiteRun(s, CancelActions(ticket, clock, k + 1, others)) ==
            Step(SiteRun(SiteRun(s, CancelActions(ticket, clock, k, others)), others(k + 3)), CancelNext(clock(k), ticket))
  {
    SiteAppend(s, CancelActions(ticket, clock, k, others), others(k + 3));
    SiteAndOne(s, CancelActions(ticket, clock, k, others) + others(k + 3), CancelNext(clock(k), ticket));
  }

  lemma FinishingRuns(s: Site, marked: Site, ticket: Ticket, clock: nat -> Time, who: Identity, id: DocId, jobs: seq<JobId>,
                      others: nat -> seq<Action>)
    requires marked == SiteRun(s, Marking(ticket, who, id, jobs, others))
    ensures SiteRun(s, DeleteActions(ticket, clock, who, id, jobs, others)) ==
            Step(SiteRun(SiteRun(marked, CancelActions(ticket, clock, |jobs|, others)), others(2)), FinishDelete(clock(|jobs|), ticket))
  {
    var marking, cancels := Marking(ticket, who, id, jobs, others), CancelActions(ticket, clock, |jobs|, others);
    SiteAppend(s, marking, cancels);
    SiteAppend(s, marking + cancels, others(2));
    SiteAndOne(s, marking + cancels + others(2), FinishDelete(clock(|jobs|), ticket));
  }
}
