/** One call of delete_document: the statements it makes and what the others do between them. */
module DeleteCall {
  import opened JobTable
  import opened Documents

  /** The n first cancellations; `others(k + 3)` is what everybody else does before the k-th, and clock(k)
      is the time it is made. */
  function CancelActions(ticket: Ticket, clock: nat -> Time, n: nat, others: nat -> seq<Action>): seq<Action> {
    if n == 0 then [] else CancelActions(ticket, clock, n - 1, others) + others(n + 2) + [CancelNext(clock(n - 1), ticket)]
  }

  function Marking(ticket: Ticket, who: Identity, id: DocId, jobs: seq<JobId>, others: nat -> seq<Action>): seq<Action> {
    [CheckDelete(ticket, who, id)] + others(0) + [ListJobs(ticket, jobs)] + others(1) + [MarkDelete(ticket)]
  }

  /** The whole call, if its check passes. */
  function DeleteActions(ticket: Ticket, clock: nat -> Time, who: Identity, id: DocId, jobs: seq<JobId>, others: nat -> seq<Action>)
    : seq<Action>
  {
    Marking(ticket, who, id, jobs, others) + CancelActions(ticket, clock, |jobs|, others)
    + others(2) + [FinishDelete(clock(|jobs|), ticket)]
  }

  // ---------------------------------------------------------------- uninterrupted

  function Undisturbed(): nat -> seq<Action> {
    n => []
  }

  function Always(now: Time): nat -> Time {
    n => now
  }

  /** The table after the first n cancellations. */
  function AfterCancels(db: Db, now: Time, who: Identity, jobs: seq<JobId>, n: nat): Db
    requires n <= |jobs|
  {
    if n == 0 then db else Exec(AfterCancels(db, now, who, jobs, n - 1), RequestCancel(now, jobs[n - 1], who.tenantId, who.userId))
  }

  /** The effect of a call that nothing interrupts. */
  function DeleteStep(st: Store, now: Time, who: Identity, id: DocId, jobs: seq<JobId>): Store {
    if DeleteOutcome(st, who, id) != Done then st
    else
      Store(Exec(AfterCancels(st.db, now, who, jobs, |jobs|), Note(now, "document.deleted", who, id)),
            st.docs[id := DeletedDoc(st.docs[id], now)])
  }

  lemma SiteAndOne(s: Site, actions: seq<Action>, a: Action)
    ensures SiteRun(s, actions + [a]) == Step(SiteRun(s, actions), a)
  {
    SiteAppend(s, actions, [a]);
    OneAction(SiteRun(s, actions), a);
  }

  /** The site between the mark and the end: the table is `db`, and `rest` is still to be cancelled. */
  function Halfway(s: Site, db: Db, ticket: Ticket, who: Identity, id: DocId, rest: seq<JobId>): Site
    requires id in s.store.docs
  {
    Site(Store(db, s.store.docs[id := PendingDoc(s.store.docs[id])]), s.tickets[ticket := Deleting(who, id, Cancelling(rest))])
  }

  lemma HalfwayStep(s: Site, db: Db, ticket: Ticket, now: Time, who: Identity, id: DocId, rest: seq<JobId>)
    requires rest != [] && id in s.store.docs
    ensures Step(Halfway(s, db, ticket, who, id, rest), CancelNext(now, ticket)) ==
            Halfway(s, Exec(db, RequestCancel(now, rest[0], who.tenantId, who.userId)), ticket, who, id, rest[1..])
  {
  }

  lemma QuietMore(ticket: Ticket, now: Time, n: nat)
    ensures CancelActions(ticket, Always(now), n + 1, Undisturbed()) ==
            CancelActions(ticket, Always(now), n, Undisturbed()) + [CancelNext(now, ticket)]
  {
    assert CancelActions(ticket, Always(now), n, Undisturbed()) + [] == CancelActions(ticket, Always(now), n, Undisturbed());
  }

  lemma QuietOneMore(s: Site, start: Site, db: Db, ticket: Ticket, now: Time, who: Identity, id: DocId, jobs: seq<JobId>, n: nat)
    requires n < |jobs| && id in s.store.docs
    requires SiteRun(start, CancelActions(ticket, Always(now), n, Undisturbed())) == Halfway(s, db, ticket, who, id, jobs[n..])
    ensures SiteRun(start, CancelActions(ticket, Always(now), n + 1, Undisturbed())) ==
            Halfway(s, Exec(db, RequestCancel(now, jobs[n], who.tenantId, who.userId)), ticket, who, id, jobs[n + 1..])
  {
    QuietMore(ticket, now, n);
    SiteAndOne(start, CancelActions(ticket, Always(now), n, Undisturbed()), CancelNext(now, ticket));
    HalfwayStep(s, db, ticket, now, who, id, jobs[n..]);
    assert jobs[n..][0] == jobs[n] && jobs[n..][1..] == jobs[n + 1..];
  }

  lemma {:induction false} QuietCancels(s: Site, start: Site, db: Db, ticket: Ticket, now: Time, who: Identity, id: DocId, jobs: seq<JobId>, n: nat)
    requires n <= |jobs| && id in s.store.docs && start == Halfway(s, db, ticket, who, id, jobs)
    ensures SiteRun(start, CancelActions(ticket, Always(now), n, Undisturbed())) ==
            Halfway(s, AfterCancels(db, now, who, jobs, n), ticket, who, id, jobs[n..])
    decreases n
  {
    if n == 0 {
      assert jobs[0..] == jobs;
    } else {
      QuietCancels(s, start, db, ticket, now, who, id, jobs, n - 1);
      QuietOneMore(s, start, AfterCancels(db, now, who, jobs, n - 1), ticket, now, who, id, jobs, n - 1);
    }
  }

  lemma QuietMarking(s: Site, ticket: Ticket, who: Identity, id: DocId, jobs: seq<JobId>)
    requires DeleteOutcome(s.store, who, id) == Done
    ensures SiteRun(s, Marking(ticket, who, id, jobs, Undisturbed())) == Halfway(s, s.store.db, ticket, who, id, jobs)
  {
    var check, list, mark := CheckDelete(ticket, who, id), ListJobs(ticket, jobs), MarkDelete(ticket);
    assert [check] + [] == [check] && [check] + [list] + [] == [check] + [list];
    OneAction(s, check);
    SiteAndOne(s, [check], list);
    SiteAndOne(s, [check] + [list], mark);
  }

  lemma HalfwayEnds(s: Site, db: Db, ticket: Ticket, now: Time, who: Identity, id: DocId)
    requires id in s.store.docs
    ensures Step(Halfway(s, db, ticket, who, id, []), FinishDelete(now, ticket)).store ==
            Store(Exec(db, Note(now, "document.deleted", who, id)), s.store.docs[id := DeletedDoc(s.store.docs[id], now)])
  {
  }

  lemma InThreeParts(s: Site, x: seq<Action>, s1: Site, y: seq<Action>, s2: Site, last: Action)
    requires SiteRun(s, x) == s1 && SiteRun(s1, y) == s2
    ensures SiteRun(s, x + y + [] + [last]) == Step(s2, last)
  {
    SiteAppend(s, x, y);
    assert x + y + [] == x + y;
    SiteAndOne(s, x + y, last);
  }

  /** Without interruption the statements have the effect of DeleteStep. */
  lemma QuietDeletion(s: Site, ticket: Ticket, now: Time, who: Identity, id: DocId, jobs: seq<JobId>)
    requires DeleteOutcome(s.store, who, id) == Done
    ensures SiteRun(s, DeleteActions(ticket, Always(now), who, id, jobs, Undisturbed())).store == DeleteStep(s.store, now, who, id, jobs)
  {
    var db, n := s.store.db, |jobs|;
    var end := Halfway(s, AfterCancels(db, now, who, jobs, n), ticket, who, id, []);
    QuietMarking(s, ticket, who, id, jobs);
    QuietCancels(s, Halfway(s, db, ticket, who, id, jobs), db, ticket, now, who, id, jobs, n);
    assert jobs[n..] == [];
    InThreeParts(s, Marking(ticket, who, id, jobs, Undisturbed()), Halfway(s, db, ticket, who, id, jobs),
                 CancelActions(ticket, Always(now), n, Undisturbed()), end, FinishDelete(now, ticket));
    HalfwayEnds(s, AfterCancels(db, now, who, jobs, n), ticket, now, who, id);
  }

  // ---------------------------------------------------------------- what the others leave alone

  predicate Foreign(a: Action, ticket: Ticket) {
    match a
    case CheckDelete(t, _, _) => t != ticket
    case ListJobs(t, _) => t != ticket
    case MarkDelete(t) => t != ticket
    case CancelNext(_, t) => t != ticket
    case FinishDelete(_, t) => t != ticket
    case _ => true
  }

  predicate AllForeign(actions: seq<Action>, ticket: Ticket) {
    forall i :: 0 <= i < |actions| ==> Foreign(actions[i], ticket)
  }

  /** The others do not touch the ticket of the call, and documents never disappear. */
  lemma {:induction false} ForeignKeeps(s: Site, actions: seq<Action>, ticket: Ticket, id: DocId)
    requires AllForeign(actions, ticket) && ticket in s.tickets && id in s.store.docs
    ensures ticket in SiteRun(s, actions).tickets && SiteRun(s, actions).tickets[ticket] == s.tickets[ticket]
    ensures id in SiteRun(s, actions).store.docs
    decreases |actions|
  {
    if actions != [] {
      assert Foreign(actions[0], ticket);
      assert forall i :: 0 <= i < |actions[1..]| ==> actions[1..][i] == actions[i + 1];
      ForeignKeeps(Step(s, actions[0]), actions[1..], ticket, id);
    }
  }

  /** The others do not take the ticket either. */
  lemma {:induction false} ForeignLeaves(s: Site, actions: seq<Action>, ticket: Ticket)
    requires AllForeign(actions, ticket) && ticket !in s.tickets
    ensures ticket !in SiteRun(s, actions).tickets
    decreases |actions|
  {
    if actions != [] {
      assert Foreign(actions[0], ticket);
      assert forall i :: 0 <= i < |actions[1..]| ==> actions[1..][i] == actions[i + 1];
      ForeignLeaves(Step(s, actions[0]), actions[1..], ticket);
    }
  }

  lemma {:induction false} DocumentsStay(s: Site, actions: seq<Action>, id: DocId)
    requires id in s.store.docs
    ensures id in SiteRun(s, actions).store.docs
    decreases |actions|
  {
    if actions != [] { DocumentsStay(Step(s, actions[0]), actions[1..], id); }
  }

  lemma {:induction false} CancelsAreForeign(ticket: Ticket, clock: nat -> Time, n: nat, others: nat -> seq<Action>, other: Ticket)
    requires other != ticket && forall k :: AllForeign(others(k), other)
    ensures AllForeign(CancelActions(ticket, clock, n, others), other)
    decreases n
  {
    if n > 0 {
      CancelsAreForeign(ticket, clock, n - 1, others, other);
      assert AllForeign(others(n + 2), other);
    }
  }

  /** A call has nothing to do with the tickets of others. */
  lemma DeletionIsForeign(ticket: Ticket, clock: nat -> Time, who: Identity, id: DocId, jobs: seq<JobId>, others: nat -> seq<Action>,
                          other: Ticket)
    requires other != ticket && forall k :: AllForeign(others(k), other)
    ensures AllForeign(DeleteActions(ticket, clock, who, id, jobs, others), other)
  {
    CancelsAreForeign(ticket, clock, |jobs|, others, other);
    assert AllForeign(others(0), other) && AllForeign(others(1), other) && AllForeign(others(2), other);
  }

  // ---------------------------------------------------------------- expiry

  function RetentionWorker(d: Document): Identity {
    Identity(d.tenantId, d.ownerId, "administrator")
  }

  /** A document that expire_documents has deleted, and the jobs that named it. */
  datatype Expiry = Expiry(id: DocId, jobs: seq<JobId>)

  /** What surrounds the k-th deletion of expire_documents: its ticket and times, what everybody else does
      before it, and between its statements. */
  datatype Plan = Plan(tickets: nat -> Ticket, clocks: nat -> (nat -> Time), before: nat -> seq<Action>, others: nat -> (nat -> seq<Action>))

  /** The tickets differ, and nobody else uses them. */
  ghost predicate Apart(p: Plan) {
    && (forall j, k :: j != k ==> p.tickets(j) != p.tickets(k))
    && (forall j, k :: AllForeign(p.before(k), p.tickets(j)))
    && (forall j, k, m :: AllForeign(p.others(k)(m), p.tickets(j)))
  }

  /** The tickets from the k-th on are new. */
  ghost predicate Free(p: Plan, taken: map<Ticket, Deleting>, k: nat) {
    forall j :: k <= j ==> p.tickets(j) !in taken
  }

  /** The first n deletions; `docs` are the documents as the query of expire_documents found them. */
  function ExpireActions(p: Plan, docs: map<DocId, Document>, expiries: seq<Expiry>, n: nat): seq<Action>
    requires n <= |expiries| && forall k :: 0 <= k < n ==> expiries[k].id in docs
  {
    if n == 0 then []
    else
      var m, e := n - 1, expiries[n - 1];
      ExpireActions(p, docs, expiries, m) + p.before(m)
      + DeleteActions(p.tickets(m), p.clocks(m), RetentionWorker(docs[e.id]), e.id, e.jobs, p.others(m))
  }

  function ExpiredIds(expiries: seq<Expiry>): set<DocId> {
    set k | 0 <= k < |expiries| :: expiries[k].id
  }

  predicate AllIn(docs: map<DocId, Document>, expiries: seq<Expiry>) {
    forall k :: 0 <= k < |expiries| ==> expiries[k].id in docs
  }

  /** The site after the first n deletions. */
  function ExpiredTo(s: Site, p: Plan, docs: map<DocId, Document>, expiries: seq<Expiry>, n: nat): Site
    requires n <= |expiries| && AllIn(docs, expiries)
  {
    if n == 0 then s else OneExpired(ExpiredTo(s, p, docs, expiries, n - 1), p, docs, expiries[n - 1], n - 1)
  }

  /** The site after the others have acted before the n-th deletion, and after it. */
  function OneExpired(s: Site, p: Plan, docs: map<DocId, Document>, e: Expiry, n: nat): Site
    requires e.id in docs
  {
    SiteRun(SiteRun(s, p.before(n)), DeleteActions(p.tickets(n), p.clocks(n), RetentionWorker(docs[e.id]), e.id, e.jobs, p.others(n)))
  }

  /** The n-th deletion passes its check, and its jobs are those that name the document when they are listed. */
  ghost predicate RightlyExpired(s: Site, p: Plan, docs: map<DocId, Document>, e: Expiry, n: nat)
    requires e.id in docs
  {
    var mid, who := SiteRun(s, p.before(n)), RetentionWorker(docs[e.id]);
    && DeleteOutcome(mid.store, who, e.id) == Done
    && RightJobs(SiteRun(mid, [CheckDelete(p.tickets(n), who, e.id)] + p.others(n)(0)).store.db, who.tenantId, e.id, e.jobs)
  }

  /** Every deletion so far was right. */
  ghost predicate RightTo(s: Site, p: Plan, docs: map<DocId, Document>, expiries: seq<Expiry>)
    requires AllIn(docs, expiries)
  {
    expiries == [] ||
    (var n, shorter := |expiries| - 1, expiries[..|expiries| - 1];
     RightTo(s, p, docs, shorter) && RightlyExpired(ExpiredTo(s, p, docs, shorter, n), p, docs, expiries[n], n))
  }

  lemma {:induction false} SameSites(s: Site, p: Plan, docs: map<DocId, Document>, expiries: seq<Expiry>, longer: seq<Expiry>, n: nat)
    requires n <= |expiries| <= |longer| && AllIn(docs, expiries) && AllIn(docs, longer) && longer[..|expiries|] == expiries
    ensures ExpiredTo(s, p, docs, longer, n) == ExpiredTo(s, p, docs, expiries, n)
    decreases n
  {
    if n > 0 {
      SameSites(s, p, docs, expiries, longer, n - 1);
      assert longer[n - 1] == longer[..|expiries|][n - 1];
    }
  }

  lemma OneMoreTo(s: Site, p: Plan, docs: map<DocId, Document>, expiries: seq<Expiry>, e: Expiry)
    requires AllIn(docs, expiries) && e.id in docs
    ensures AllIn(docs, expiries + [e])
    ensures var n, longer := |expiries|, expiries + [e];
            && ExpiredTo(s, p, docs, longer, n + 1) == OneExpired(ExpiredTo(s, p, docs, expiries, n), p, docs, e, n)
            && (RightTo(s, p, docs, longer) <==>
                  RightTo(s, p, docs, expiries) && RightlyExpired(ExpiredTo(s, p, docs, expiries, n), p, docs, e, n))
  {
    assert (expiries + [e])[..|expiries|] == expiries;
    SameSites(s, p, docs, expiries, expiries + [e], |expiries|);
  }

  lemma OneExpiryIsRun(s: Site, actions: seq<Action>, p: Plan, docs: map<DocId, Document>, e: Expiry, n: nat)
    requires e.id in docs
    ensures OneExpired(SiteRun(s, actions), p, docs, e, n) ==
            SiteRun(s, actions + p.before(n)
                       + DeleteActions(p.tickets(n), p.clocks(n), RetentionWorker(docs[e.id]), e.id, e.jobs, p.others(n)))
  {
    SiteAppend(s, actions, p.before(n));
    SiteAppend(s, actions + p.before(n), DeleteActions(p.tickets(n), p.clocks(n), RetentionWorker(docs[e.id]), e.id, e.jobs, p.others(n)));
  }

  /** All deletions together are one run. */
  lemma {:induction false} ExpiryIsRun(s: Site, p: Plan, docs: map<DocId, Document>, expiries: seq<Expiry>, n: nat)
    requires n <= |expiries| && AllIn(docs, expiries)
    ensures ExpiredTo(s, p, docs, expiries, n) == SiteRun(s, ExpireActions(p, docs, expiries, n))
    decreases n
  {
    if n > 0 {
      ExpiryIsRun(s, p, docs, expiries, n - 1);
      OneExpiryIsRun(s, ExpireActions(p, docs, expiries, n - 1), p, docs, expiries[n - 1], n - 1);
    }
  }

  // ---------------------------------------------------------------- expiry, uninterrupted

  function Alone(tickets: nat -> Ticket, now: Time): Plan {
    Plan(tickets, k => Always(now), k => [], k => Undisturbed())
  }

  /** The documents after those of `ids` have been deleted. */
  function Without(docs: map<DocId, Document>, now: Time, ids: set<DocId>): map<DocId, Document> {
    map d | d in docs :: if d in ids then DeletedDoc(docs[d], now) else docs[d]
  }

  lemma OneExpiry(s: Site, mid: Site, now: Time, ticket: Ticket, e: Expiry, ids: set<DocId>)
    requires mid.store.docs == Without(s.store.docs, now, ids) && e.id in s.store.docs && !s.store.docs[e.id].legalHold
    ensures SiteRun(mid, DeleteActions(ticket, Always(now), RetentionWorker(s.store.docs[e.id]), e.id, e.jobs, Undisturbed())).store.docs ==
            Without(s.store.docs, now, ids + {e.id})
  {
    QuietDeletion(mid, ticket, now, RetentionWorker(s.store.docs[e.id]), e.id, e.jobs);
  }

  lemma OneMoreExpiry(s: Site, actions: seq<Action>, now: Time, ticket: Ticket, e: Expiry, ids: set<DocId>)
    requires SiteRun(s, actions).store.docs == Without(s.store.docs, now, ids) && e.id in s.store.docs && !s.store.docs[e.id].legalHold
    ensures var call := DeleteActions(ticket, Always(now), RetentionWorker(s.store.docs[e.id]), e.id, e.jobs, Undisturbed());
            SiteRun(s, actions + call).store.docs == Without(s.store.docs, now, ids + {e.id})
  {
    OneExpiry(s, SiteRun(s, actions), now, ticket, e, ids);
    SiteAppend(s, actions, DeleteActions(ticket, Always(now), RetentionWorker(s.store.docs[e.id]), e.id, e.jobs, Undisturbed()));
  }

  lemma AloneStep(tickets: nat -> Ticket, now: Time, docs: map<DocId, Document>, expiries: seq<Expiry>, n: nat)
    requires n < |expiries| && forall k :: 0 <= k <= n ==> expiries[k].id in docs
    ensures ExpireActions(Alone(tickets, now), docs, expiries, n + 1) ==
            ExpireActions(Alone(tickets, now), docs, expiries, n)
            + DeleteActions(tickets(n), Always(now), RetentionWorker(docs[expiries[n].id]), expiries[n].id, expiries[n].jobs, Undisturbed())
  {
    assert ExpireActions(Alone(tickets, now), docs, expiries, n) + [] == ExpireActions(Alone(tickets, now), docs, expiries, n);
  }

  /** When nobody else acts, expire_documents deletes exactly the documents that it selected. */
  lemma {:induction false} QuietExpiry(s: Site, tickets: nat -> Ticket, now: Time, expiries: seq<Expiry>, n: nat)
    requires n <= |expiries| && forall k :: 0 <= k < |expiries| ==> expiries[k].id in s.store.docs && !s.store.docs[expiries[k].id].legalHold
    ensures SiteRun(s, ExpireActions(Alone(tickets, now), s.store.docs, expiries, n)).store.docs ==
            Without(s.store.docs, now, ExpiredIds(expiries[..n]))
    decreases n
  {
    if n == 0 {
      assert Without(s.store.docs, now, {}) == s.store.docs;
    } else {
      QuietExpiry(s, tickets, now, expiries, n - 1);
      AloneStep(tickets, now, s.store.docs, expiries, n - 1);
      OneMoreExpiry(s, ExpireActions(Alone(tickets, now), s.store.docs, expiries, n - 1), now, tickets(n - 1), expiries[n - 1],
                    ExpiredIds(expiries[..n - 1]));
      MoreIds(expiries, n - 1);
    }
  }

  lemma MoreIds(expiries: seq<Expiry>, n: nat)
    requires n < |expiries|
    ensures ExpiredIds(expiries[..n + 1]) == ExpiredIds(expiries[..n]) + {expiries[n].id}
  {
    var x, y := expiries[..n + 1], expiries[..n];
    assert forall k :: 0 <= k < n ==> x[k] == y[k];
    assert x[n] == expiries[n];
    forall id ensures id in ExpiredIds(x) <==> id in ExpiredIds(y) + {expiries[n].id} {
      if id in ExpiredIds(y) {
        var k :| 0 <= k < |y| && y[k].id == id;
        assert x[k].id == id;
      }
    }
  }
}
