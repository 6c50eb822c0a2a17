/** What a deletion does to the jobs that name the document, over whole runs. */
module Deletion {
  import opened JobTable
  import opened JobRuns
  import opened JobSafety
  import opened JobReads
  import opened Documents
  import opened DeleteCall
  import opened LegalHold

  /** A job that no worker can start any more. */
  predicate Stopped(r: Row) {
    r.cancelRequested || Settled(r.status)
  }

  predicate StoppedIn(db: Db, j: JobId) {
    j in db.jobs && Stopped(db.jobs[j])
  }

  lemma StoppedStep(r: Row, c: Call, id: JobId)
    requires Sane(r) && Stopped(r) && RowEnabled(r, c, id) && RowHonest(r, c, id)
    ensures Stopped(RowStep(r, c, id)) && !Claims(c, id)
    ensures !r.cancelRequested ==> !RowStep(r, c, id).cancelRequested && (RowStep(r, c, id).status == Complete ==> r.status == Complete)
  {
  }

  /** A cancelled or settled job is never claimed again; a settled one that was not cancelled never
      becomes complete. */
  lemma {:induction false} StoppedForGood(db: Db, calls: seq<Call>, j: JobId)
    requires SaneDb(db) && Valid(db, calls) && AllHonest(db, calls) && StoppedIn(db, j)
    ensures StoppedIn(Run(db, calls), j) && ClaimsOf(calls, j) == 0
    ensures !db.jobs[j].cancelRequested && Run(db, calls).jobs[j].status == Complete ==> db.jobs[j].status == Complete
    decreases |calls|
  {
    if calls != [] {
      ExecRow(db, calls[0], j);
      StoppedStep(db.jobs[j], calls[0], j);
      SaneExec(db, calls[0]);
      StoppedForGood(Exec(db, calls[0]), calls[1..], j);
    }
  }

  // ---------------------------------------------------------------- one deletion among everything else

  /** The jobs that a deletion has listed and not yet cancelled. */
  function Remaining(stage: Stage): seq<JobId> {
    match stage
    case Listed(jobs) => jobs
    case Cancelling(rest) => rest
    case _ => []
  }

  predicate UnderWay(s: Site, ticket: Ticket) {
    ticket in s.tickets && (s.tickets[ticket].stage.Listed? || s.tickets[ticket].stage.Cancelling?)
  }

  /** Every job of the tenant in `jobs` is stopped or still to be cancelled under the ticket. */
  predicate Cancels(s: Site, ticket: Ticket, jobs: set<JobId>) {
    && UnderWay(s, ticket)
    && forall j :: j in jobs ==>
                     && j in s.store.db.jobs && s.store.db.jobs[j].tenantId == s.tickets[ticket].who.tenantId
                     && (j in Remaining(s.tickets[ticket].stage) || Stopped(s.store.db.jobs[j]))
  }

  lemma JobStep(s: Site, a: Action, j: JobId)
    requires Allowed(s, a) && SaneDb(s.store.db) && AllHonest(s.store.db, CallOf(s, a)) && j in s.store.db.jobs
    ensures SaneDb(Step(s, a).store.db)
    ensures j in Step(s, a).store.db.jobs && Step(s, a).store.db.jobs[j].tenantId == s.store.db.jobs[j].tenantId
    ensures Stopped(s.store.db.jobs[j]) ==> Stopped(Step(s, a).store.db.jobs[j])
  {
    CallOfStep(s, a);
    SaneRuns(s.store.db, CallOf(s, a));
    FixedColumns(s.store.db, CallOf(s, a), j);
    if Stopped(s.store.db.jobs[j]) { StoppedForGood(s.store.db, CallOf(s, a), j); }
  }

  lemma CancelStops(s: Site, now: Time, ticket: Ticket)
    requires MayCancel(s, ticket)
    ensures var j := s.tickets[ticket].stage.rest[0];
            j in s.store.db.jobs && s.store.db.jobs[j].tenantId == s.tickets[ticket].who.tenantId ==>
              StoppedIn(Step(s, CancelNext(now, ticket)).store.db, j)
  {
    ExecRow(s.store.db, Cancellation(s, now, ticket), s.tickets[ticket].stage.rest[0]);
  }

  lemma OwnTicketStep(s: Site, a: Action, ticket: Ticket)
    requires Allowed(s, a) && UnderWay(s, ticket) && !(a.FinishDelete? && a.ticket == ticket)
    ensures UnderWay(Step(s, a), ticket) && Step(s, a).tickets[ticket].who == s.tickets[ticket].who
    ensures a.CancelNext? && a.ticket == ticket ==>
              MayCancel(s, ticket) && Remaining(Step(s, a).tickets[ticket].stage) == Remaining(s.tickets[ticket].stage)[1..]
    ensures !(a.CancelNext? && a.ticket == ticket) ==>
              Remaining(Step(s, a).tickets[ticket].stage) == Remaining(s.tickets[ticket].stage)
  {
  }

  lemma CancelsStep(s: Site, a: Action, ticket: Ticket, jobs: set<JobId>)
    requires Allowed(s, a) && SaneDb(s.store.db) && AllHonest(s.store.db, CallOf(s, a))
    requires Cancels(s, ticket, jobs) && !(a.FinishDelete? && a.ticket == ticket)
    ensures Cancels(Step(s, a), ticket, jobs)
  {
    var s1 := Step(s, a);
    OwnTicketStep(s, a, ticket);
    forall j | j in jobs
      ensures j in s1.store.db.jobs && s1.store.db.jobs[j].tenantId == s1.tickets[ticket].who.tenantId
      ensures j in Remaining(s1.tickets[ticket].stage) || Stopped(s1.store.db.jobs[j])
    {
      JobStep(s, a, j);
      if a.CancelNext? && a.ticket == ticket {
        CancelStops(s, a.now, ticket);
        var rest := s.tickets[ticket].stage.rest;
        assert rest == [rest[0]] + rest[1..];
      }
    }
  }

  // ---------------------------------------------------------------- a whole run

  /** The registry calls before action n. */
  function CallsBefore(actions: seq<Action>, n: nat): seq<Call>
    requires n <= |actions|
  {
    Flatten(EMPTY_SITE, actions[..n])
  }

  /** The possible runs of the whole site: what the database answers is right, and the queue calls read
      where `at` says. */
  ghost predicate PossibleSite(actions: seq<Action>, at: seq<nat>) {
    AllAllowed(EMPTY_SITE, actions) && Reads(Flatten(EMPTY_SITE, actions), at)
  }

  /** The queue part of a possible run is a possible run of the queue, so all its results hold. */
  lemma SiteIsPossible(actions: seq<Action>, at: seq<nat>)
    requires PossibleSite(actions, at)
    ensures Possible(Flatten(EMPTY_SITE, actions), at)
    ensures SiteRun(EMPTY_SITE, actions).store.db == Run(EMPTY_DB, Flatten(EMPTY_SITE, actions))
  {
    SiteRunsAreRuns(EMPTY_SITE, actions);
  }

  lemma SplitSite(actions: seq<Action>, at: seq<nat>, n: nat)
    requires PossibleSite(actions, at) && n <= |actions|
    ensures var calls, k := Flatten(EMPTY_SITE, actions), |CallsBefore(actions, n)|;
            && k <= |calls| && calls[..k] == CallsBefore(actions, n)
            && SiteAt(actions, n).store.db == At(calls, k)
            && SaneDb(At(calls, k)) && AllHonest(EMPTY_DB, CallsBefore(actions, n)) && AllAllowed(EMPTY_SITE, actions[..n])
            && Valid(At(calls, k), calls[k..]) && AllHonest(At(calls, k), calls[k..])
  {
    var calls, k := Flatten(EMPTY_SITE, actions), |CallsBefore(actions, n)|;
    assert actions == actions[..n] + actions[n..];
    FlattenAppend(EMPTY_SITE, actions[..n], actions[n..]);
    SiteAppend(EMPTY_SITE, actions[..n], actions[n..]);
    SiteRunsAreRuns(EMPTY_SITE, actions[..n]);
    SiteIsPossible(actions, at);
    ReachableRowsAreSane(calls, at);
    PrefixIsHonest(calls, at, k);
    RunSplit(EMPTY_DB, calls, k);
  }

  lemma FlattenOneMore(actions: seq<Action>, n: nat)
    requires n < |actions|
    ensures CallsBefore(actions, n + 1) == CallsBefore(actions, n) + CallOf(SiteAt(actions, n), actions[n])
  {
    var s := SiteAt(actions, n);
    assert actions[..n + 1] == actions[..n] + [actions[n]];
    FlattenAppend(EMPTY_SITE, actions[..n], [actions[n]]);
    assert [actions[n]][1..] == [];
    assert Flatten(s, [actions[n]]) == CallOf(s, actions[n]) + [];
  }

  lemma NextAction(actions: seq<Action>, at: seq<nat>, n: nat)
    requires PossibleSite(actions, at) && n < |actions|
    ensures Allowed(SiteAt(actions, n), actions[n]) && SaneDb(SiteAt(actions, n).store.db)
    ensures AllHonest(SiteAt(actions, n).store.db, CallOf(SiteAt(actions, n), actions[n]))
    ensures SiteAt(actions, n + 1) == Step(SiteAt(actions, n), actions[n])
  {
    SplitSite(actions, at, n);
    SplitSite(actions, at, n + 1);
    SiteOneMore(actions, n);
    FlattenOneMore(actions, n);
    RunAppend(EMPTY_DB, CallsBefore(actions, n), CallOf(SiteAt(actions, n), actions[n]));
  }

  lemma {:induction false} CancelsUntil(actions: seq<Action>, at: seq<nat>, p: nat, n: nat, ticket: Ticket, jobs: set<JobId>)
    requires PossibleSite(actions, at) && p <= n <= |actions| && Cancels(SiteAt(actions, p), ticket, jobs)
    requires forall i :: p <= i < n ==> !(actions[i].FinishDelete? && actions[i].ticket == ticket)
    ensures Cancels(SiteAt(actions, n), ticket, jobs)
    decreases n
  {
    if p < n {
      CancelsUntil(actions, at, p, n - 1, ticket, jobs);
      NextAction(actions, at, n - 1);
      CancelsStep(SiteAt(actions, n - 1), actions[n - 1], ticket, jobs);
    }
  }

  /** The deletion lists the jobs of its document by actions[p] and finishes by actions[q]. */
  predicate Deletes(actions: seq<Action>, p: nat, q: nat)
    requires p < q < |actions|
  {
    && actions[p].ListJobs? && actions[q].FinishDelete? && actions[q].ticket == actions[p].ticket
    && InStage(SiteAt(actions, p), actions[p].ticket, Checked)
  }

  /** The deletion that lists its jobs by actions[p]. */
  function DeletionOf(actions: seq<Action>, p: nat): Deleting
    requires p < |actions| && actions[p].ListJobs? && InStage(SiteAt(actions, p), actions[p].ticket, Checked)
  {
    SiteAt(actions, p).tickets[actions[p].ticket]
  }

  /** The jobs that name the document when the deletion lists them. */
  function JobsOf(actions: seq<Action>, p: nat): set<JobId>
    requires p < |actions| && actions[p].ListJobs? && InStage(SiteAt(actions, p), actions[p].ticket, Checked)
  {
    NamedJobs(SiteAt(actions, p).store.db, DeletionOf(actions, p).who.tenantId, DeletionOf(actions, p).id)
  }

  lemma ListingStarts(actions: seq<Action>, at: seq<nat>, p: nat)
    requires PossibleSite(actions, at) && p < |actions| && actions[p].ListJobs?
    requires InStage(SiteAt(actions, p), actions[p].ticket, Checked)
    ensures Cancels(SiteAt(actions, p + 1), actions[p].ticket, JobsOf(actions, p))
  {
    NextAction(actions, at, p);
    assert RightJobs(SiteAt(actions, p).store.db, DeletionOf(actions, p).who.tenantId, DeletionOf(actions, p).id, actions[p].jobs);
  }

  lemma OverStep(s: Site, a: Action, ticket: Ticket)
    requires Allowed(s, a) && ticket in s.tickets && s.tickets[ticket].stage == Over
    ensures ticket in Step(s, a).tickets && Step(s, a).tickets[ticket].stage == Over
  {
  }

  lemma {:induction false} OverForGood(actions: seq<Action>, at: seq<nat>, i: nat, n: nat, ticket: Ticket)
    requires PossibleSite(actions, at) && i < n <= |actions| && actions[i].FinishDelete? && actions[i].ticket == ticket
    ensures ticket in SiteAt(actions, n).tickets && SiteAt(actions, n).tickets[ticket].stage == Over
    decreases n
  {
    NextAction(actions, at, n - 1);
    if i < n - 1 {
      OverForGood(actions, at, i, n - 1, ticket);
      OverStep(SiteAt(actions, n - 1), actions[n - 1], ticket);
    }
  }

  /** A deletion finishes once. */
  lemma NoEarlierFinish(actions: seq<Action>, at: seq<nat>, q: nat)
    requires PossibleSite(actions, at) && q < |actions| && actions[q].FinishDelete?
    ensures forall i :: 0 <= i < q ==> !(actions[i].FinishDelete? && actions[i].ticket == actions[q].ticket)
  {
    NextAction(actions, at, q);
    forall i | 0 <= i < q ensures !(actions[i].FinishDelete? && actions[i].ticket == actions[q].ticket) {
      if actions[i].FinishDelete? && actions[i].ticket == actions[q].ticket {
        OverForGood(actions, at, i, q, actions[q].ticket);
        assert false;
      }
    }
  }

  /** When a deletion finishes, every job that named its document when the jobs were listed is stopped. */
  lemma DeletionStops(actions: seq<Action>, at: seq<nat>, p: nat, q: nat, j: JobId)
    requires PossibleSite(actions, at) && p < q < |actions| && Deletes(actions, p, q) && j in JobsOf(actions, p)
    ensures StoppedIn(SiteAt(actions, q).store.db, j)
  {
    NoEarlierFinish(actions, at, q);
    ListingStarts(actions, at, p);
    CancelsUntil(actions, at, p + 1, q, actions[p].ticket, JobsOf(actions, p));
    NextAction(actions, at, q);
    assert SiteAt(actions, q).tickets[actions[q].ticket].stage == Cancelling([]);
  }

  /** A stopped job that is not complete at n is complete at some later position if and only if it is then
      completed by a call that had read it before n. */
  lemma CompletesAfterStop(calls: seq<Call>, at: seq<nat>, n: nat, j: JobId)
    requires Possible(calls, at) && n <= |calls| && StoppedIn(At(calls, n), j) && !CompleteAt(calls, n, j)
    ensures (exists k :: n <= k <= |calls| && CompleteAt(calls, k, j))
            <==> (exists i :: n <= i < |calls| && CompletesLate(calls, at, n, i, j))
  {
    if At(calls, n).jobs[j].cancelRequested {
      CompletedByAnOlderRead(calls, at, n, j);
    } else {
      forall k | n <= k <= |calls| ensures !CompleteAt(calls, k, j) { NeverComplete(calls, at, n, k, j); }
      if i: nat :| n <= i < |calls| && CompletesLate(calls, at, n, i, j) {
        CompletionShows(calls, i, j);
        assert false;
      }
    }
  }

  lemma NeverComplete(calls: seq<Call>, at: seq<nat>, n: nat, k: nat, j: JobId)
    requires Possible(calls, at) && n <= k <= |calls| && StoppedIn(At(calls, n), j) && !CompleteAt(calls, n, j)
    requires !At(calls, n).jobs[j].cancelRequested
    ensures !CompleteAt(calls, k, j)
  {
    PrefixIsHonest(calls, at, n);
    PrefixIsHonest(calls, at, k);
    Segment(calls, n, k);
    StoppedForGood(At(calls, n), calls[n..k], j);
  }

  /** Deletion propagates, whatever else happens before, between and after its statements: once it has
      finished, no job that named the document when the jobs were listed is ever claimed, and one that is
      not complete then is complete at some later position if and only if a complete_job call that had read it
      before completes it. */
  lemma DeletionPropagates(actions: seq<Action>, at: seq<nat>, p: nat, q: nat, j: JobId)
    requires PossibleSite(actions, at) && p < q < |actions| && Deletes(actions, p, q) && j in JobsOf(actions, p)
    ensures var calls, n := Flatten(EMPTY_SITE, actions), |CallsBefore(actions, q)|;
            && n <= |calls| && ClaimsOf(calls[n..], j) == 0
            && (CompleteAt(calls, n, j)
                || ((exists k :: n <= k <= |calls| && CompleteAt(calls, k, j))
                    <==> (exists i :: n <= i < |calls| && CompletesLate(calls, at, n, i, j))))
  {
    var calls, n := Flatten(EMPTY_SITE, actions), |CallsBefore(actions, q)|;
    DeletionStops(actions, at, p, q, j);
    SplitSite(actions, at, q);
    SiteIsPossible(actions, at);
    StoppedForGood(At(calls, n), calls[n..], j);
    if !CompleteAt(calls, n, j) { CompletesAfterStop(calls, at, n, j); }
  }

  /** Every call of delete_document that runs to its end within a run is such a deletion, whoever makes it:
      a user, a submit route or expire_documents. */
  lemma CallIsDeletion(actions: seq<Action>, at: seq<nat>, a: nat, ticket: Ticket, clock: nat -> Time, who: Identity, id: DocId,
                       jobs: seq<JobId>, others: nat -> seq<Action>)
    requires var call := DeleteActions(ticket, clock, who, id, jobs, others);
             PossibleSite(actions, at) && a + |call| <= |actions| && actions[a..a + |call|] == call
    ensures var p, q := a + 1 + |others(0)|, a + |DeleteActions(ticket, clock, who, id, jobs, others)| - 1;
            && p < q && Deletes(actions, p, q) && actions[p] == ListJobs(ticket, jobs)
            && actions[a] == CheckDelete(ticket, who, id)
  {
    var call := DeleteActions(ticket, clock, who, id, jobs, others);
    var p, q := a + 1 + |others(0)|, a + |call| - 1;
    ListingIsThere(ticket, clock, who, id, jobs, others);
    assert actions[a] == call[0] && actions[p] == call[1 + |others(0)|] && actions[q] == call[|call| - 1];
    NextAction(actions, at, p);
  }

  lemma ListingIsThere(ticket: Ticket, clock: nat -> Time, who: Identity, id: DocId, jobs: seq<JobId>, others: nat -> seq<Action>)
    ensures var call := DeleteActions(ticket, clock, who, id, jobs, others);
            && 1 + |others(0)| < |call| - 1 && call[0] == CheckDelete(ticket, who, id)
            && call[1 + |others(0)|] == ListJobs(ticket, jobs) && call[|call| - 1] == FinishDelete(clock(|jobs|), ticket)
  {
  }

  // ---------------------------------------------------------------- jobs submitted while a deletion is on its way

  lemma NamesStep(r: Row, c: Call, j: JobId, tenantId: string, id: DocId)
    requires Names(RowStep(r, c, j), tenantId, id)
    ensures Names(r, tenantId, id)
  {
  }

  /** A job that names a document has named it since it was created. */
  lemma {:induction false} NamedBefore(db: Db, calls: seq<Call>, j: JobId, tenantId: string, id: DocId)
    requires j in db.jobs && j in Run(db, calls).jobs && Names(Run(db, calls).jobs[j], tenantId, id)
    ensures Names(db.jobs[j], tenantId, id)
    decreases |calls|
  {
    if calls != [] {
      ExecRow(db, calls[0], j);
      NamedBefore(Exec(db, calls[0]), calls[1..], j, tenantId, id);
      NamesStep(db.jobs[j], calls[0], j, tenantId, id);
    }
  }

  lemma CallsGrow(actions: seq<Action>, at: seq<nat>, p: nat, q: nat)
    requires PossibleSite(actions, at) && p <= q <= |actions|
    ensures var calls := Flatten(EMPTY_SITE, actions);
            |CallsBefore(actions, p)| <= |CallsBefore(actions, q)| <= |calls|
  {
    assert actions[..q] == actions[..p] + actions[p..q];
    FlattenAppend(EMPTY_SITE, actions[..p], actions[p..q]);
    SplitSite(actions, at, q);
  }

  /** At any position k after the listing, a job that then names the document is among those that the
      deletion cancels if and only if it was in the table at the listing. */
  lemma CancelledExactly(actions: seq<Action>, at: seq<nat>, p: nat, q: nat, k: nat, j: JobId)
    requires PossibleSite(actions, at) && p < q < |actions| && Deletes(actions, p, q)
    requires var calls := Flatten(EMPTY_SITE, actions);
             && |CallsBefore(actions, p)| <= k <= |calls|
             && j in NamedJobs(At(calls, k), DeletionOf(actions, p).who.tenantId, DeletionOf(actions, p).id)
    ensures j in actions[p].jobs <==> j in SiteAt(actions, p).store.db.jobs
  {
    var calls, n := Flatten(EMPTY_SITE, actions), |CallsBefore(actions, p)|;
    SplitSite(actions, at, p);
    NextAction(actions, at, p);
    Segment(calls, n, k);
    if j in At(calls, n).jobs {
      NamedBefore(At(calls, n), calls[n..k], j, DeletionOf(actions, p).who.tenantId, DeletionOf(actions, p).id);
    }
  }

  /** A job that is claimed after a deletion has finished and names the document then was created after the
      deletion had listed its jobs; a job that was there at the listing is never claimed. */
  lemma ClaimedLater(actions: seq<Action>, at: seq<nat>, p: nat, q: nat, i: nat, j: JobId)
    requires PossibleSite(actions, at) && p < q < |actions| && Deletes(actions, p, q)
    requires var calls := Flatten(EMPTY_SITE, actions);
             && |CallsBefore(actions, q)| <= i < |calls| && Claims(calls[i], j)
             && j in NamedJobs(At(calls, i), DeletionOf(actions, p).who.tenantId, DeletionOf(actions, p).id)
    ensures j !in SiteAt(actions, p).store.db.jobs
  {
    var calls, n := Flatten(EMPTY_SITE, actions), |CallsBefore(actions, q)|;
    CallsGrow(actions, at, p, q);
    if j in SiteAt(actions, p).store.db.jobs {
      CancelledExactly(actions, at, p, q, i, j);
      ListedAreNamed(actions, at, p, j);
      DeletionPropagates(actions, at, p, q, j);
      ClaimIsCounted(calls[n..], i - n, j);
      assert false;
    }
  }

  lemma ListedAreNamed(actions: seq<Action>, at: seq<nat>, p: nat, j: JobId)
    requires PossibleSite(actions, at) && p < |actions| && actions[p].ListJobs? && InStage(SiteAt(actions, p), actions[p].ticket, Checked)
    ensures j in actions[p].jobs <==> j in JobsOf(actions, p)
  {
    NextAction(actions, at, p);
  }

  lemma {:induction false} ClaimIsCounted(calls: seq<Call>, i: nat, j: JobId)
    requires i < |calls| && Claims(calls[i], j)
    ensures ClaimsOf(calls, j) > 0
    decreases i
  {
    if i > 0 { ClaimIsCounted(calls[1..], i - 1, j); }
  }
}
