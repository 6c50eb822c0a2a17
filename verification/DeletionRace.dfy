/** Runs of the whole site in which a deletion does not stop a job of its document: the worker had read the
    job before the deletion cancelled it, or the job was submitted while the deletion was on its way. */
module DeletionRace {
  import opened Options
  import opened JobTable
  import opened JobRuns
  import opened JobLeases
  import opened JobReads
  import opened JobRaces
  import opened Documents
  import opened LegalHold
  import opened Deletion

  const SUBMIT := CreateJob(0.0, "job", "tenant", "owner", "ocr", map["document_id" := "doc"], None, None, 1, 86400)
  const START := ClaimNext(1.0, "w", ["ocr"], 60, Some("job"))
  const ABORT := RequestCancel(2.0, "job", "tenant", "owner")
  const DELIVER := CompleteJob(3.0, "job", "w", "out.txt", "sha", None, false)

  const STARTED := RowStep(NewRow(SUBMIT), START, "job")
  const ABORTED := RowStep(STARTED, ABORT, "job")
  const DELIVERED := RowStep(ABORTED, DELIVER, "job")

  /** After a possible run of the site. */
  ghost predicate Reached(actions: seq<Action>, calls: seq<Call>, at: seq<nat>, s: Site) {
    AllAllowed(EMPTY_SITE, actions) && s == SiteRun(EMPTY_SITE, actions) && calls == Flatten(EMPTY_SITE, actions) && Reads(calls, at)
  }

  lemma MoreActions(actions: seq<Action>, s: Site, a: Action, made: seq<Call>)
    requires AllAllowed(EMPTY_SITE, actions) && s == SiteRun(EMPTY_SITE, actions) && Allowed(s, a) && made == CallOf(s, a)
    ensures AllAllowed(EMPTY_SITE, actions + [a]) && SiteRun(EMPTY_SITE, actions + [a]) == Step(s, a)
    ensures Flatten(EMPTY_SITE, actions + [a]) == Flatten(EMPTY_SITE, actions) + made
  {
    SiteAppend(EMPTY_SITE, actions, [a]);
    OneAction(s, a);
    FlattenAppend(EMPTY_SITE, actions, [a]);
    FlattenOne(s, a);
  }

  lemma FlattenOne(s: Site, a: Action)
    ensures Flatten(s, [a]) == CallOf(s, a)
  {
    assert [a][1..] == [];
    assert Flatten(s, [a]) == CallOf(s, a) + [];
  }

  /** An action that calls the registry; the call reads where `k` says. */
  lemma Calling(actions: seq<Action>, calls: seq<Call>, at: seq<nat>, s: Site, a: Action, c: Call, k: nat)
    returns (longer: seq<Action>, more: seq<Call>, when: seq<nat>)
    requires Reached(actions, calls, at, s) && Allowed(s, a) && CallOf(s, a) == [c]
    requires ReadsFirst(c) ==> k <= |calls| && ReadAt(calls + [c], k, |calls|)
    ensures longer == actions + [a] && more == calls + [c] && when == at + [k] && Reached(longer, more, when, Step(s, a))
  {
    longer, more, when := actions + [a], calls + [c], at + [k];
    MoreActions(actions, s, a, [c]);
    ReadsMore(calls, at, c, k);
  }

  /** An action that does not. */
  lemma Silent(actions: seq<Action>, calls: seq<Call>, at: seq<nat>, s: Site, a: Action) returns (longer: seq<Action>)
    requires Reached(actions, calls, at, s) && Allowed(s, a) && CallOf(s, a) == []
    ensures longer == actions + [a] && Reached(longer, calls, at, Step(s, a))
  {
    longer := actions + [a];
    MoreActions(actions, s, a, []);
    assert calls + [] == calls;
  }

  /** The site with these jobs and one document. */
  predicate HasJobs(s: Site, jobs: map<JobId, Row>, d: Document, tickets: map<Ticket, Deleting>) {
    s.store.db.jobs == jobs && s.store.docs == map["doc" := d] && s.tickets == tickets
  }

  predicate Has(s: Site, r: Row, d: Document, tickets: map<Ticket, Deleting>) {
    HasJobs(s, map["job" := r], d, tickets)
  }

  const DOC := RegisteredDoc(0.0, OWNER, Intake("a.pdf", "sha", 1, Some(1)), 7)
  const CREATED_NOTE := Note(0.0, "document.created", OWNER, "doc")
  const DELETED_NOTE := Note(2.0, "document.deleted", OWNER, "doc")

  function Ticketed(stage: Stage): map<Ticket, Deleting> {
    map[1 := Deleting(OWNER, "doc", stage)]
  }

  lemma OneJobExec(db: Db, c: Call, r: Row)
    requires db.jobs == map["job" := r] && !c.CreateJob?
    ensures Exec(db, c).jobs == map["job" := RowStep(r, c, "job")]
  {
  }

  lemma FirstJob(db: Db)
    requires db.jobs == map[]
    ensures Exec(db, SUBMIT).jobs == map["job" := NewRow(SUBMIT)]
  {
    assert StepRows(db, SUBMIT) == map[];
  }

  lemma AfterRegister()
    ensures HasJobs(Step(EMPTY_SITE, REGISTER), map[], DOC, map[])
    ensures CallOf(EMPTY_SITE, REGISTER) == [CREATED_NOTE]
  {
    NoJobs(EMPTY_DB, CREATED_NOTE);
  }

  lemma AfterQueue(s: Site, c: Call, r: Row, d: Document, tickets: map<Ticket, Deleting>)
    requires Has(s, r, d, tickets) && !c.CreateJob?
    ensures Has(Step(s, Queue(c)), RowStep(r, c, "job"), d, tickets) && CallOf(s, Queue(c)) == [c]
  {
    OneJobExec(s.store.db, c, r);
  }

  /** The document is registered and its job is submitted and claimed. */
  lemma Begin() returns (actions: seq<Action>, calls: seq<Call>, at: seq<nat>, s: Site)
    ensures actions == [REGISTER, Queue(SUBMIT), Queue(START)] && at == [0, 1, 2] && Reached(actions, calls, at, s)
    ensures calls == [CREATED_NOTE, SUBMIT, START] && Has(s, STARTED, DOC, map[])
  {
    AfterRegister();
    actions, calls, at := Calling([], [], [], EMPTY_SITE, REGISTER, CREATED_NOTE, 0);
    s := Step(EMPTY_SITE, REGISTER);
    FirstJob(s.store.db);
    actions, calls, at := Calling(actions, calls, at, s, Queue(SUBMIT), SUBMIT, 1);
    s := Step(s, Queue(SUBMIT));
    actions, calls, at, s := Claim(actions, calls, at, s);
  }

  lemma Claim(actions: seq<Action>, calls: seq<Call>, at: seq<nat>, s: Site)
    returns (longer: seq<Action>, more: seq<Call>, when: seq<nat>, s1: Site)
    requires Reached(actions, calls, at, s) && Has(s, NewRow(SUBMIT), DOC, map[])
    ensures longer == actions + [Queue(START)] && more == calls + [START] && when == at + [2]
    ensures Reached(longer, more, when, s1) && Has(s1, STARTED, DOC, map[])
  {
    AfterQueue(s, START, NewRow(SUBMIT), DOC, map[]);
    longer, more, when := Calling(actions, calls, at, s, Queue(START), START, 2);
    s1 := Step(s, Queue(START));
  }

  lemma AfterCheck(s: Site)
    requires Has(s, STARTED, DOC, map[])
    ensures Allowed(s, CHECK) && CallOf(s, CHECK) == [] && Has(Step(s, CHECK), STARTED, DOC, Ticketed(Checked))
  {
  }

  lemma AfterList(s: Site)
    requires Has(s, STARTED, DOC, Ticketed(Checked))
    ensures Allowed(s, ListJobs(1, ["job"])) && CallOf(s, ListJobs(1, ["job"])) == []
    ensures Has(Step(s, ListJobs(1, ["job"])), STARTED, DOC, Ticketed(Listed(["job"])))
  {
    assert NamedJobs(s.store.db, "tenant", "doc") == {"job"};
  }

  lemma AfterMark(s: Site, jobs: map<JobId, Row>, listed: seq<JobId>)
    requires HasJobs(s, jobs, DOC, Ticketed(Listed(listed)))
    ensures Allowed(s, MARK) && CallOf(s, MARK) == [] && HasJobs(Step(s, MARK), jobs, PendingDoc(DOC), Ticketed(Cancelling(listed)))
  {
  }

  lemma AfterCancel(s: Site)
    requires Has(s, STARTED, PendingDoc(DOC), Ticketed(Cancelling(["job"])))
    ensures Allowed(s, CancelNext(2.0, 1)) && CallOf(s, CancelNext(2.0, 1)) == [ABORT]
    ensures Has(Step(s, CancelNext(2.0, 1)), ABORTED, PendingDoc(DOC), Ticketed(Cancelling([])))
  {
    OneJobExec(s.store.db, ABORT, STARTED);
    assert ["job"][1..] == [];
  }

  lemma AfterFinish(s: Site, r: Row)
    requires Has(s, r, PendingDoc(DOC), Ticketed(Cancelling([])))
    ensures Allowed(s, END) && CallOf(s, END) == [DELETED_NOTE]
    ensures Has(Step(s, END), r, DeletedDoc(DOC, 2.0), Ticketed(Over))
  {
    OneJobExec(s.store.db, DELETED_NOTE, r);
  }

  lemma Mark(actions: seq<Action>, calls: seq<Call>, at: seq<nat>, s: Site) returns (longer: seq<Action>, s1: Site)
    requires Reached(actions, calls, at, s) && Has(s, STARTED, DOC, map[])
    ensures longer == actions + [CHECK] + [ListJobs(1, ["job"])] + [MARK]
    ensures Reached(longer, calls, at, s1) && Has(s1, STARTED, PendingDoc(DOC), Ticketed(Cancelling(["job"])))
  {
    AfterCheck(s);
    longer := Silent(actions, calls, at, s, CHECK);
    s1 := Step(s, CHECK);
    AfterList(s1);
    longer := Silent(longer, calls, at, s1, ListJobs(1, ["job"]));
    s1 := Step(s1, ListJobs(1, ["job"]));
    AfterMark(s1, map["job" := STARTED], ["job"]);
    longer := Silent(longer, calls, at, s1, MARK);
    s1 := Step(s1, MARK);
  }

  lemma Cancel(actions: seq<Action>, calls: seq<Call>, at: seq<nat>, s: Site)
    returns (longer: seq<Action>, more: seq<Call>, when: seq<nat>, s1: Site)
    requires Reached(actions, calls, at, s) && Has(s, STARTED, PendingDoc(DOC), Ticketed(Cancelling(["job"])))
    ensures longer == actions + [CancelNext(2.0, 1)] && more == calls + [ABORT] && when == at + [3]
    ensures Reached(longer, more, when, s1) && Has(s1, ABORTED, PendingDoc(DOC), Ticketed(Cancelling([])))
  {
    AfterCancel(s);
    longer, more, when := Calling(actions, calls, at, s, CancelNext(2.0, 1), ABORT, 3);
    s1 := Step(s, CancelNext(2.0, 1));
  }

  lemma Finish(actions: seq<Action>, calls: seq<Call>, at: seq<nat>, s: Site, r: Row, k: nat)
    returns (longer: seq<Action>, more: seq<Call>, when: seq<nat>, s1: Site)
    requires Reached(actions, calls, at, s) && Has(s, r, PendingDoc(DOC), Ticketed(Cancelling([])))
    ensures longer == actions + [END] && more == calls + [DELETED_NOTE] && when == at + [k]
    ensures Reached(longer, more, when, s1) && Has(s1, r, DeletedDoc(DOC, 2.0), Ticketed(Over))
  {
    AfterFinish(s, r);
    longer, more, when := Calling(actions, calls, at, s, END, DELETED_NOTE, k);
    s1 := Step(s, END);
  }

  lemma Deliver(actions: seq<Action>, calls: seq<Call>, at: seq<nat>, s: Site)
    returns (longer: seq<Action>, more: seq<Call>, when: seq<nat>, s1: Site)
    requires Reached(actions, calls, at, s) && Has(s, ABORTED, DeletedDoc(DOC, 2.0), Ticketed(Over))
    requires |calls| == 5 && ReadAt(calls + [DELIVER], 3, 5)
    ensures longer == actions + [Queue(DELIVER)] && when == at + [3] && PossibleSite(longer, when)
    ensures s1 == SiteRun(EMPTY_SITE, longer) && Has(s1, DELIVERED, DeletedDoc(DOC, 2.0), Ticketed(Over))
  {
    AfterQueue(s, DELIVER, ABORTED, DeletedDoc(DOC, 2.0), Ticketed(Over));
    longer, more, when := Calling(actions, calls, at, s, Queue(DELIVER), DELIVER, 3);
    s1 := Step(s, Queue(DELIVER));
  }

  lemma DeliverReads(calls: seq<Call>, s: Site)
    requires calls == [CREATED_NOTE, SUBMIT, START] && s.store.db == Run(EMPTY_DB, calls) && s.store.db.jobs == map["job" := STARTED]
    ensures ReadAt(calls + [ABORT] + [DELETED_NOTE] + [DELIVER], 3, 5)
  {
    var all := calls + [ABORT] + [DELETED_NOTE] + [DELIVER];
    assert all[..3] == calls && all[3] == ABORT && all[4] == DELETED_NOTE && all[5] == DELIVER;
  }

  lemma Marked() returns (actions: seq<Action>, calls: seq<Call>, at: seq<nat>, s: Site)
    ensures actions == [REGISTER, Queue(SUBMIT), Queue(START), CHECK, ListJobs(1, ["job"]), MARK]
    ensures at == [0, 1, 2] && Reached(actions, calls, at, s) && Has(s, STARTED, PendingDoc(DOC), Ticketed(Cancelling(["job"])))
    ensures |calls| == 3 && ReadAt(calls + [ABORT] + [DELETED_NOTE] + [DELIVER], 3, 5)
  {
    actions, calls, at, s := Begin();
    SiteRunsAreRuns(EMPTY_SITE, actions);
    DeliverReads(calls, s);
    actions, s := Mark(actions, calls, at, s);
  }

  lemma Ended(actions: seq<Action>, calls: seq<Call>, at: seq<nat>, s: Site)
    returns (longer: seq<Action>, more: seq<Call>, when: seq<nat>, s1: Site)
    requires Reached(actions, calls, at, s) && Has(s, STARTED, PendingDoc(DOC), Ticketed(Cancelling(["job"])))
    ensures longer == actions + [CancelNext(2.0, 1)] + [END]
    ensures more == calls + [ABORT] + [DELETED_NOTE] && when == at + [3] + [4]
    ensures Reached(longer, more, when, s1) && Has(s1, ABORTED, DeletedDoc(DOC, 2.0), Ticketed(Over))
  {
    longer, more, when, s1 := Cancel(actions, calls, at, s);
    longer, more, when, s1 := Finish(longer, more, when, s1, ABORTED, 4);
  }

  lemma DeliveredRow()
    ensures DELIVERED.status == Complete && DELIVERED.cancelRequested
  {
  }

  /** The worker reads the job before the deletion and completes it afterwards: the job of a deleted
      document is complete. */
  lemma DeletedJobCanComplete() returns (actions: seq<Action>, at: seq<nat>)
    ensures actions == [REGISTER, Queue(SUBMIT), Queue(START), CHECK, ListJobs(1, ["job"]), MARK, CancelNext(2.0, 1), END,
                        Queue(DELIVER)]
    ensures at == [0, 1, 2, 3, 4, 3] && PossibleSite(actions, at)
    ensures var s := SiteRun(EMPTY_SITE, actions);
            && "doc" in s.store.docs && s.store.docs["doc"].status == Deleted
            && "job" in s.store.db.jobs && s.store.db.jobs["job"].status == Complete
  {
    var calls, s;
    actions, calls, at, s := Marked();
    actions, calls, at, s := Ended(actions, calls, at, s);
    actions, calls, at, s := Deliver(actions, calls, at, s);
    DeliveredRow();
  }

  // ---------------------------------------------------------------- a job submitted during the deletion

  const LISTING := ListJobs(1, [])

  lemma AfterCheckAlone(s: Site)
    requires HasJobs(s, map[], DOC, map[])
    ensures Allowed(s, CHECK) && CallOf(s, CHECK) == [] && HasJobs(Step(s, CHECK), map[], DOC, Ticketed(Checked))
  {
  }

  lemma AfterListAlone(s: Site)
    requires HasJobs(s, map[], DOC, Ticketed(Checked))
    ensures Allowed(s, LISTING) && CallOf(s, LISTING) == [] && HasJobs(Step(s, LISTING), map[], DOC, Ticketed(Listed([])))
  {
    assert NamedJobs(s.store.db, "tenant", "doc") == {};
  }

  lemma AfterSubmit(s: Site, d: Document, tickets: map<Ticket, Deleting>)
    requires HasJobs(s, map[], d, tickets)
    ensures Allowed(s, Queue(SUBMIT)) && CallOf(s, Queue(SUBMIT)) == [SUBMIT] && Has(Step(s, Queue(SUBMIT)), NewRow(SUBMIT), d, tickets)
  {
    FirstJob(s.store.db);
  }

  /** The deletion looks for a hold and lists the jobs: there are none yet. */
  lemma ListedNothing() returns (actions: seq<Action>, calls: seq<Call>, at: seq<nat>, s: Site)
    ensures actions == [REGISTER] + [CHECK] + [LISTING] && calls == [CREATED_NOTE] && at == [0]
    ensures Reached(actions, calls, at, s) && HasJobs(s, map[], DOC, Ticketed(Listed([])))
  {
    AfterRegister();
    actions, calls, at := Calling([], [], [], EMPTY_SITE, REGISTER, CREATED_NOTE, 0);
    s := Step(EMPTY_SITE, REGISTER);
    AfterCheckAlone(s);
    actions := Silent(actions, calls, at, s, CHECK);
    s := Step(s, CHECK);
    AfterListAlone(s);
    actions := Silent(actions, calls, at, s, LISTING);
    s := Step(s, LISTING);
  }

  /** The job is submitted, and the document is marked. */
  lemma SubmittedLate(actions: seq<Action>, calls: seq<Call>, at: seq<nat>, s: Site)
    returns (longer: seq<Action>, more: seq<Call>, when: seq<nat>, s1: Site)
    requires Reached(actions, calls, at, s) && HasJobs(s, map[], DOC, Ticketed(Listed([])))
    ensures longer == actions + [Queue(SUBMIT)] + [MARK] && more == calls + [SUBMIT] && when == at + [1]
    ensures Reached(longer, more, when, s1) && Has(s1, NewRow(SUBMIT), PendingDoc(DOC), Ticketed(Cancelling([])))
  {
    AfterSubmit(s, DOC, Ticketed(Listed([])));
    longer, more, when := Calling(actions, calls, at, s, Queue(SUBMIT), SUBMIT, 1);
    s1 := Step(s, Queue(SUBMIT));
    AfterMark(s1, map["job" := NewRow(SUBMIT)], []);
    longer := Silent(longer, more, when, s1, MARK);
    s1 := Step(s1, MARK);
  }

  lemma StartsLate(actions: seq<Action>, calls: seq<Call>, at: seq<nat>, s: Site)
    returns (longer: seq<Action>, more: seq<Call>, when: seq<nat>, s1: Site)
    requires Reached(actions, calls, at, s) && Has(s, NewRow(SUBMIT), DeletedDoc(DOC, 2.0), Ticketed(Over))
    ensures longer == actions + [Queue(START)] && more == calls + [START] && when == at + [3] && PossibleSite(longer, when)
    ensures s1 == SiteRun(EMPTY_SITE, longer) && Has(s1, STARTED, DeletedDoc(DOC, 2.0), Ticketed(Over))
  {
    AfterQueue(s, START, NewRow(SUBMIT), DeletedDoc(DOC, 2.0), Ticketed(Over));
    longer, more, when := Calling(actions, calls, at, s, Queue(START), START, 3);
    s1 := Step(s, Queue(START));
  }

  lemma StartedRow()
    ensures STARTED.status == Processing && Names(STARTED, "tenant", "doc")
  {
  }

  /** A job that is submitted after the deletion has listed its jobs names the document when it is marked
      and deleted, and is claimed after that. */
  lemma LateJobOutlivesDeletion() returns (actions: seq<Action>, at: seq<nat>)
    ensures actions == [REGISTER, CHECK, LISTING, Queue(SUBMIT), MARK, END, Queue(START)]
    ensures at == [0, 1, 2, 3] && PossibleSite(actions, at)
    ensures var s := SiteRun(EMPTY_SITE, actions);
            && "doc" in s.store.docs && s.store.docs["doc"].status == Deleted
            && "job" in s.store.db.jobs && s.store.db.jobs["job"].status == Processing && Names(s.store.db.jobs["job"], "tenant", "doc")
  {
    var calls, s;
    actions, calls, at, s := ListedNothing();
    actions, calls, at, s := SubmittedLate(actions, calls, at, s);
    actions, calls, at, s := Finish(actions, calls, at, s, NewRow(SUBMIT), 2);
    actions, calls, at, s := StartsLate(actions, calls, at, s);
    StartedRow();
  }
}
