/** Who may do what to a document, and what a document keeps, over whole runs of the site. */
module DocumentRights {
  import opened Options
  import opened JobTable
  import opened Documents
  import opened LegalHold
  import opened Submission

  // ---------------------------------------------------------------- who may

  /** The identity belongs to the document's tenant, and owns the document or is an administrator. */
  predicate MayDispose(d: Document, who: Identity) {
    d.tenantId == who.tenantId && (d.ownerId == who.userId || who.role == "administrator")
  }

  /** A deletion is refused as not found to everybody else, and as held while the document is on hold. */
  lemma WhoMayDelete(st: Store, who: Identity, id: DocId)
    ensures DeleteOutcome(st, who, id) == NotFound <==> id !in st.docs || !MayDispose(st.docs[id], who)
    ensures DeleteOutcome(st, who, id) == OnHold <==> id in st.docs && MayDispose(st.docs[id], who) && st.docs[id].legalHold
    ensures DeleteOutcome(st, who, id) == Done <==> id in st.docs && MayDispose(st.docs[id], who) && !st.docs[id].legalHold
  {
  }

  /** Only an administrator may set or lift a hold, and only of a document of the own tenant. */
  lemma WhoMayHold(st: Store, who: Identity, id: DocId)
    ensures HoldOutcome(st, who, id) == Forbidden <==> who.role != "administrator"
    ensures HoldOutcome(st, who, id) == Done <==> who.role == "administrator" && id in st.docs && st.docs[id].tenantId == who.tenantId
    ensures HoldOutcome(st, who, id) in {Forbidden, NotFound, Done}
  {
  }

  // ---------------------------------------------------------------- deletion

  /** actions[m] is a delete_document call by somebody who may, of a document that is not on hold. */
  predicate RightfulCheck(actions: seq<Action>, m: nat, id: DocId)
    requires m < |actions|
  {
    && actions[m].CheckDelete? && actions[m].id == id && id in SiteAt(actions, m).store.docs
    && MayDispose(SiteAt(actions, m).store.docs[id], actions[m].who) && !SiteAt(actions, m).store.docs[id].legalHold
  }

  lemma PassedIsRightful(actions: seq<Action>, m: nat, id: DocId)
    requires m < |actions| && PassesCheck(actions, m, id)
    ensures RightfulCheck(actions, m, id)
  {
    WhoMayDelete(SiteAt(actions, m).store, actions[m].who, id);
  }

  /** The owner and the tenant of a document, as an identity. */
  function OwnerOf(actions: seq<Action>, n: nat, id: DocId): Identity
    requires n <= |actions| && id in SiteAt(actions, n).store.docs
  {
    Identity(SiteAt(actions, n).store.docs[id].tenantId, SiteAt(actions, n).store.docs[id].ownerId, "")
  }

  lemma SameOwner(actions: seq<Action>, m: nat, k: nat, id: DocId)
    requires AllAllowed(EMPTY_SITE, actions) && m <= k <= |actions| && id in SiteAt(actions, m).store.docs
    ensures id in SiteAt(actions, k).store.docs && OwnerOf(actions, k, id) == OwnerOf(actions, m, id)
  {
    OwnerStays(actions, m, k, id, OwnerOf(actions, m, id));
  }

  lemma FirstTouch(actions: seq<Action>, n: nat, k: nat, id: DocId) returns (i: nat)
    requires AllAllowed(EMPTY_SITE, actions) && n <= k <= |actions| && Live(SiteAt(actions, n), id)
    requires !Live(SiteAt(actions, k), id)
    ensures n <= i < k && Touches(actions, i, id)
  {
    LiveExactly(actions, n, k, id);
    i :| n <= i < k && Touches(actions, i, id);
  }

  lemma TouchWasChecked(actions: seq<Action>, i: nat, id: DocId) returns (m: nat)
    requires AllAllowed(EMPTY_SITE, actions) && i < |actions| && Touches(actions, i, id)
    ensures m < i && RightfulCheck(actions, m, id) && actions[m].ticket == actions[i].ticket
  {
    AllowedPrefix(EMPTY_SITE, actions, i);
    TicketsAreChecks(actions, i, actions[i].ticket, id);
    m :| 0 <= m < i && PassesCheck(actions, m, id) && actions[m].ticket == actions[i].ticket;
    PassedIsRightful(actions, m, id);
  }

  /** A document that is active at n and not at k has been deleted by its owner or by an administrator of
      its tenant: one of them has called delete_document before k and found no hold. */
  lemma OnlyItsOwnDelete(actions: seq<Action>, n: nat, k: nat, id: DocId) returns (m: nat)
    requires AllAllowed(EMPTY_SITE, actions) && n <= k <= |actions|
    requires id in SiteAt(actions, n).store.docs && SiteAt(actions, n).store.docs[id].status == Active
    requires id in SiteAt(actions, k).store.docs && SiteAt(actions, k).store.docs[id].status != Active
    ensures m < k && RightfulCheck(actions, m, id)
    ensures MayDispose(SiteAt(actions, n).store.docs[id], actions[m].who)
  {
    var i := FirstTouch(actions, n, k, id);
    m := TouchWasChecked(actions, i, id);
    SameOwner(actions, m, k, id);
    SameOwner(actions, n, k, id);
  }

  // ---------------------------------------------------------------- legal hold

  /** actions[m] is a set_legal_hold call for the document by an administrator of its tenant. */
  predicate RightfulHold(actions: seq<Action>, m: nat, id: DocId)
    requires m < |actions|
  {
    && actions[m].SetHold? && actions[m].id == id && id in SiteAt(actions, m).store.docs
    && actions[m].who.tenantId == SiteAt(actions, m).store.docs[id].tenantId && actions[m].who.role == "administrator"
  }

  lemma HoldChange(s: Site, a: Action, id: DocId)
    requires id in s.store.docs
    ensures id in Step(s, a).store.docs
    ensures Step(s, a).store.docs[id].legalHold ==
            if a.SetHold? && a.id == id && a.who.tenantId == s.store.docs[id].tenantId && a.who.role == "administrator"
            then a.enabled else s.store.docs[id].legalHold
  {
  }

  predicate HeldAt(actions: seq<Action>, n: nat, id: DocId)
    requires n <= |actions|
  {
    Held(SiteAt(actions, n), id)
  }

  lemma HoldNext(actions: seq<Action>, n: nat, id: DocId)
    requires AllAllowed(EMPTY_SITE, actions) && n < |actions| && id in SiteAt(actions, n).store.docs
    ensures id in SiteAt(actions, n + 1).store.docs
    ensures HeldAt(actions, n + 1, id) == if RightfulHold(actions, n, id) then actions[n].enabled else HeldAt(actions, n, id)
  {
    AllowedAt(actions, n);
    HoldChange(SiteAt(actions, n), actions[n], id);
  }

  /** The hold of a document changes only by an administrator of its tenant, who sets it to what it is. */
  lemma {:induction false} OnlyAdministratorsHold(actions: seq<Action>, n: nat, k: nat, id: DocId) returns (m: nat)
    requires AllAllowed(EMPTY_SITE, actions) && n <= k <= |actions| && id in SiteAt(actions, n).store.docs
    requires HeldAt(actions, n, id) != HeldAt(actions, k, id)
    ensures n <= m < k && RightfulHold(actions, m, id) && HeldAt(actions, k, id) == actions[m].enabled
    decreases k
  {
    m := k - 1;
    SameOwner(actions, n, m, id);
    HoldNext(actions, m, id);
    if HeldAt(actions, m, id) == HeldAt(actions, k, id) { m := OnlyAdministratorsHold(actions, n, m, id); }
  }

  /** Registering, holding and deleting a document are audited under the name of who does it. */
  lemma DocumentEvents(s: Site, a: Action)
    requires a.RegisterDoc? || a.SetHold? || a.FinishDelete?
    ensures Step(s, a).store.db.jobs == s.store.db.jobs
    ensures Step(s, a).store.db.audit == s.store.db.audit +
            (if a.RegisterDoc? && a.id !in s.store.docs then [OtherEvent(a.who.tenantId, a.who.userId, "document.created", a.id)]
             else if a.SetHold? && a.who.role == "administrator" && a.id in s.store.docs && s.store.docs[a.id].tenantId == a.who.tenantId
             then [OtherEvent(a.who.tenantId, a.who.userId, "document.hold.changed", a.id)]
             else if a.FinishDelete? && InStage(s, a.ticket, Cancelling([]))
             then
               var d := s.tickets[a.ticket];
               [OtherEvent(d.who.tenantId, d.who.userId, "document.deleted", d.id)]
             else [])
  {
    if a.RegisterDoc? {
      assert StepRows(s.store.db, Note(a.now, "document.created", a.who, a.id)) == s.store.db.jobs;
    } else if a.SetHold? {
      assert StepRows(s.store.db, Note(a.now, "document.hold.changed", a.who, a.id)) == s.store.db.jobs;
    } else if a.ticket in s.tickets {
      assert StepRows(s.store.db, Note(a.now, "document.deleted", s.tickets[a.ticket].who, s.tickets[a.ticket].id)) == s.store.db.jobs;
    }
  }

  // ---------------------------------------------------------------- what a document keeps

  /** The document is as it was registered: until a deletion of it finishes it has its file and is active or
      about to be deleted; after that it has no file and never becomes active again. */
  predicate AsRegistered(d: Document, a: Action)
    requires a.RegisterDoc?
  {
    && d.tenantId == a.who.tenantId && d.ownerId == a.who.userId && d.sourceSha == a.intake.sha && d.size == a.intake.size
    && d.pages == a.intake.pages && d.createdAt == a.now
    && d.retentionUntil == a.now + 86400.0 * (if a.retentionDays < 1 then 1 else a.retentionDays) as real
    && if d.deletedAt == None then d.sourcePath == a.intake.path && (d.status == Active || d.status == DeletionPending)
       else d.sourcePath == "" && (d.status == Deleted || d.status == DeletionPending)
  }

  lemma RegisteredStep(s: Site, a: Action, id: DocId, register: Action)
    requires register.RegisterDoc? && id in s.store.docs && AsRegistered(s.store.docs[id], register)
    ensures id in Step(s, a).store.docs && AsRegistered(Step(s, a).store.docs[id], register)
    ensures Step(s, a).store.docs[id].deletedAt ==
            if a.FinishDelete? && InStage(s, a.ticket, Cancelling([])) && s.tickets[a.ticket].id == id then Some(a.now)
            else s.store.docs[id].deletedAt
  {
  }

  lemma RegisteredNow(s: Site, a: Action)
    requires a.RegisterDoc? && a.id !in s.store.docs
    ensures a.id in Step(s, a).store.docs && AsRegistered(Step(s, a).store.docs[a.id], a)
    ensures var d := Step(s, a).store.docs[a.id]; d.status == Active && !d.legalHold && d.deletedAt == None
    ensures Step(s, a).store.docs == s.store.docs[a.id := Step(s, a).store.docs[a.id]]
  {
  }

  /** actions[p] registers the document. */
  predicate Registers(actions: seq<Action>, p: nat, id: DocId)
    requires p < |actions|
  {
    actions[p].RegisterDoc? && actions[p].id == id && id !in SiteAt(actions, p).store.docs
  }

  predicate RegisteredAt(actions: seq<Action>, p: nat, k: nat, id: DocId)
    requires p < |actions| && k <= |actions| && actions[p].RegisterDoc?
  {
    id in SiteAt(actions, k).store.docs && AsRegistered(SiteAt(actions, k).store.docs[id], actions[p])
  }

  /** actions[i] finishes a deletion of the document. */
  predicate Empties(actions: seq<Action>, i: nat, id: DocId)
    requires i < |actions|
  {
    var s := SiteAt(actions, i);
    actions[i].FinishDelete? && InStage(s, actions[i].ticket, Cancelling([])) && s.tickets[actions[i].ticket].id == id
  }

  /** No deletion of the document has finished between the positions. */
  predicate NotEmptied(actions: seq<Action>, p: nat, k: nat, id: DocId)
    requires k <= |actions|
  {
    forall i :: p < i < k ==> !Empties(actions, i, id)
  }

  /** The document has its file after n actions. */
  predicate HasFile(actions: seq<Action>, n: nat, id: DocId)
    requires n <= |actions|
  {
    id in SiteAt(actions, n).store.docs && SiteAt(actions, n).store.docs[id].deletedAt == None
  }

  lemma RegisteredNext(actions: seq<Action>, p: nat, k: nat, id: DocId)
    requires AllAllowed(EMPTY_SITE, actions) && p < |actions| && k < |actions| && actions[p].RegisterDoc? && RegisteredAt(actions, p, k, id)
    ensures RegisteredAt(actions, p, k + 1, id)
    ensures HasFile(actions, k + 1, id) <==> HasFile(actions, k, id) && !Empties(actions, k, id)
  {
    AllowedAt(actions, k);
    RegisteredStep(SiteAt(actions, k), actions[k], id, actions[p]);
  }

  lemma RegisteredFirst(actions: seq<Action>, p: nat, id: DocId)
    requires AllAllowed(EMPTY_SITE, actions) && p < |actions| && Registers(actions, p, id)
    ensures RegisteredAt(actions, p, p + 1, id) && HasFile(actions, p + 1, id)
  {
    AllowedAt(actions, p);
    RegisteredNow(SiteAt(actions, p), actions[p]);
  }

  /** For good a document has the tenant, owner, digest and retention that it was registered with: at least
      one day. Its file goes exactly when a deletion of it finishes. */
  lemma {:induction false} DocumentsAreAsRegistered(actions: seq<Action>, p: nat, k: nat, id: DocId)
    requires AllAllowed(EMPTY_SITE, actions) && p < k <= |actions| && Registers(actions, p, id)
    ensures RegisteredAt(actions, p, k, id)
    ensures HasFile(actions, k, id) <==> NotEmptied(actions, p, k, id)
    decreases k
  {
    if k == p + 1 {
      RegisteredFirst(actions, p, id);
    } else {
      DocumentsAreAsRegistered(actions, p, k - 1, id);
      RegisteredNext(actions, p, k - 1, id);
    }
  }

  lemma NewDocument(s: Site, a: Action, id: DocId)
    requires id !in s.store.docs && id in Step(s, a).store.docs
    ensures a.RegisterDoc? && a.id == id
  {
  }

  /** Every document was registered. */
  lemma {:induction false} WasRegistered(actions: seq<Action>, k: nat, id: DocId) returns (p: nat)
    requires AllAllowed(EMPTY_SITE, actions) && k <= |actions| && id in SiteAt(actions, k).store.docs
    ensures p < k && Registers(actions, p, id)
    decreases k
  {
    p := 0;
    if k > 0 {
      AllowedAt(actions, k - 1);
      if id in SiteAt(actions, k - 1).store.docs {
        p := WasRegistered(actions, k - 1, id);
      } else {
        NewDocument(SiteAt(actions, k - 1), actions[k - 1], id);
        p := k - 1;
      }
    }
  }

  /** The query for the jobs of a document lists the jobs of the tenant whose payload names it, all of them
      and no other. */
  lemma ListingIsExact(db: Db, tenantId: string, id: DocId, jobs: seq<JobId>)
    ensures RightJobs(db, tenantId, id, jobs) <==>
            forall j :: j in jobs <==>
              (j in db.jobs && db.jobs[j].tenantId == tenantId && "document_id" in db.jobs[j].payload && db.jobs[j].payload["document_id"] == id)
  {
    assert forall j :: j in NamedJobs(db, tenantId, id) <==>
      (j in db.jobs && db.jobs[j].tenantId == tenantId && "document_id" in db.jobs[j].payload && db.jobs[j].payload["document_id"] == id);
  }
}
