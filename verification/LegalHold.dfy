/** What a legal hold guarantees, over whole runs. */
module LegalHold {
  import opened Options
  import opened JobTable
  import opened Documents

  predicate Held(s: Site, id: DocId) {
    id in s.store.docs && s.store.docs[id].legalHold
  }

  predicate LiftsHold(a: Action, id: DocId) {
    a.SetHold? && a.id == id && !a.enabled
  }

  predicate Resumes(a: Action, ticket: Ticket) {
    (a.MarkDelete? || a.FinishDelete?) && a.ticket == ticket
  }

  /** The action goes on with a deletion of the document that has passed its check. */
  predicate Continues(s: Site, a: Action, id: DocId) {
    (a.MarkDelete? || a.FinishDelete?) && a.ticket in s.tickets && s.tickets[a.ticket].id == id
  }

  /** Only deletions that have passed their check touch a held document, and no check passes. */
  lemma HeldStep(s: Site, a: Action, id: DocId)
    requires Held(s, id) && !LiftsHold(a, id) && Allowed(s, a)
    ensures Held(Step(s, a), id)
    ensures !Continues(s, a, id) ==> Step(s, a).store.docs[id] == s.store.docs[id]
    ensures Continues(s, a, id) ==> Step(s, a).store.docs[id].status != Active
    ensures forall x: Action :: Continues(Step(s, a), x, id) <==> Continues(s, x, id)
  {
  }

  lemma NotActiveStep(s: Site, a: Action, id: DocId)
    requires id in s.store.docs && s.store.docs[id].status != Active
    ensures id in Step(s, a).store.docs && Step(s, a).store.docs[id].status != Active
  {
  }

  /** A held document keeps everything it has (status, source and retention) until its hold is lifted or
      a deletion goes on that had passed its check; and an active one stays active exactly till then. */
  lemma {:induction false} HeldDocumentStays(s: Site, actions: seq<Action>, id: DocId)
    requires AllAllowed(s, actions) && Held(s, id) && forall i :: 0 <= i < |actions| ==> !LiftsHold(actions[i], id)
    ensures Held(SiteRun(s, actions), id)
    ensures (forall i :: 0 <= i < |actions| ==> !Continues(s, actions[i], id)) ==>
              SiteRun(s, actions).store.docs[id] == s.store.docs[id]
    ensures s.store.docs[id].status != Active || (exists i :: 0 <= i < |actions| && Continues(s, actions[i], id)) ==>
              SiteRun(s, actions).store.docs[id].status != Active
    decreases |actions|
  {
    if actions != [] {
      var a := actions[0];
      assert !LiftsHold(a, id);
      HeldStep(s, a, id);
      if s.store.docs[id].status != Active { NotActiveStep(s, a, id); }
      assert forall i :: 0 <= i < |actions[1..]| ==> actions[1..][i] == actions[i + 1];
      HeldDocumentStays(Step(s, a), actions[1..], id);
    }
  }

  // ---------------------------------------------------------------- where the checks are

  function SiteAt(actions: seq<Action>, n: nat): Site
    requires n <= |actions|
  {
    SiteRun(EMPTY_SITE, actions[..n])
  }

  /** actions[m] is a delete_document call that finds the document visible and not on hold. */
  predicate PassesCheck(actions: seq<Action>, m: nat, id: DocId)
    requires m < |actions|
  {
    && actions[m].CheckDelete? && actions[m].id == id
    && DeleteOutcome(SiteAt(actions, m).store, actions[m].who, id) == Done
  }

  lemma SiteOneMore(actions: seq<Action>, n: nat)
    requires n < |actions|
    ensures SiteAt(actions, n + 1) == Step(SiteAt(actions, n), actions[n])
    ensures AllAllowed(EMPTY_SITE, actions[..n + 1]) <==> AllAllowed(EMPTY_SITE, actions[..n]) && Allowed(SiteAt(actions, n), actions[n])
  {
    assert actions[..n + 1] == actions[..n] + [actions[n]];
    SiteAppend(EMPTY_SITE, actions[..n], [actions[n]]);
    OneAction(SiteAt(actions, n), actions[n]);
  }

  lemma TicketStep(s: Site, a: Action, ticket: Ticket)
    requires Allowed(s, a)
    ensures ticket in s.tickets ==> ticket in Step(s, a).tickets && Step(s, a).tickets[ticket].id == s.tickets[ticket].id
    ensures ticket !in s.tickets && ticket in Step(s, a).tickets ==>
              && a.CheckDelete? && a.ticket == ticket && DeleteOutcome(s.store, a.who, a.id) == Done
              && Step(s, a).tickets[ticket].id == a.id
  {
  }

  /** A deletion of the document is in progress under a ticket exactly if its check passed. */
  lemma {:induction false} TicketsAreChecks(actions: seq<Action>, n: nat, ticket: Ticket, id: DocId)
    requires n <= |actions| && AllAllowed(EMPTY_SITE, actions[..n])
    ensures ticket in SiteAt(actions, n).tickets && SiteAt(actions, n).tickets[ticket].id == id <==>
            exists m :: 0 <= m < n && PassesCheck(actions, m, id) && actions[m].ticket == ticket
    decreases n
  {
    if n > 0 {
      SiteOneMore(actions, n - 1);
      TicketsAreChecks(actions, n - 1, ticket, id);
      var s, a := SiteAt(actions, n - 1), actions[n - 1];
      TicketStep(s, a, ticket);
      if PassesCheck(actions, n - 1, id) && a.ticket == ticket {
        assert Step(s, a).tickets[ticket].id == id;
      }
    }
  }

  /** A deletion of the document that looked for a hold in `before` goes on in `after`. */
  predicate GoesOnLate(before: seq<Action>, m: nat, after: seq<Action>, i: nat, id: DocId)
    requires m < |before| && i < |after|
  {
    PassesCheck(before, m, id) && Resumes(after[i], before[m].ticket)
  }

  /** An active document on hold loses its status if and only if some delete_document call passed its
      check before the hold and goes on after it. */
  lemma HeldDocumentIsLostExactly(before: seq<Action>, after: seq<Action>, id: DocId)
    requires AllAllowed(EMPTY_SITE, before + after)
    requires var s := SiteRun(EMPTY_SITE, before); Held(s, id) && s.store.docs[id].status == Active
    requires forall i :: 0 <= i < |after| ==> !LiftsHold(after[i], id)
    ensures Held(SiteRun(EMPTY_SITE, before + after), id)
    ensures SiteRun(EMPTY_SITE, before + after).store.docs[id].status != Active <==>
            exists m, i :: 0 <= m < |before| && 0 <= i < |after| && GoesOnLate(before, m, after, i, id)
  {
    SiteAppend(EMPTY_SITE, before, after);
    var s := SiteRun(EMPTY_SITE, before);
    HeldDocumentStays(s, after, id);
    forall i | 0 <= i < |after|
      ensures Continues(s, after[i], id) <==> exists m :: 0 <= m < |before| && GoesOnLate(before, m, after, i, id)
    {
      ContinuesIsLate(before, after, i, id);
    }
  }

  lemma ContinuesIsLate(before: seq<Action>, after: seq<Action>, i: nat, id: DocId)
    requires AllAllowed(EMPTY_SITE, before) && i < |after|
    ensures Continues(SiteRun(EMPTY_SITE, before), after[i], id) <==>
            exists m :: 0 <= m < |before| && GoesOnLate(before, m, after, i, id)
  {
    assert before[..|before|] == before;
    if after[i].MarkDelete? || after[i].FinishDelete? {
      TicketsAreChecks(before, |before|, after[i].ticket, id);
      if Continues(SiteRun(EMPTY_SITE, before), after[i], id) {
        var m :| 0 <= m < |before| && PassesCheck(before, m, id) && before[m].ticket == after[i].ticket;
        assert GoesOnLate(before, m, after, i, id);
      }
    }
  }

  // ---------------------------------------------------------------- the race

  const OWNER := Identity("tenant", "owner", "user")
  const ADMIN := Identity("tenant", "admin", "administrator")
  const REGISTER := RegisterDoc(0.0, "doc", OWNER, Intake("a.pdf", "sha", 1, Some(1)), 7)
  const CHECK := CheckDelete(1, OWNER, "doc")
  const HOLD := SetHold(1.0, ADMIN, "doc", true)
  const LIST := ListJobs(1, [])
  const MARK := MarkDelete(1)
  const END := FinishDelete(2.0, 1)

  lemma Unfold(s: Site, a: Action, rest: seq<Action>)
    ensures SiteRun(s, [a] + rest) == SiteRun(Step(s, a), rest)
    ensures AllAllowed(s, [a] + rest) <==> Allowed(s, a) && AllAllowed(Step(s, a), rest)
  {
    assert ([a] + rest)[1..] == rest;
  }

  lemma NoJobs(db: Db, c: Call)
    requires db.jobs == map[] && c.AppendNote?
    ensures Exec(db, c).jobs == map[]
  {
  }

  /** The owner's deletion finds no hold, and then the administrator sets one. */
  lemma CheckedThenHeld() returns (s: Site)
    ensures forall rest :: SiteRun(EMPTY_SITE, [REGISTER] + ([CHECK] + ([HOLD] + rest))) == SiteRun(s, rest)
    ensures forall rest :: AllAllowed(EMPTY_SITE, [REGISTER] + ([CHECK] + ([HOLD] + rest))) <==> AllAllowed(s, rest)
    ensures Held(s, "doc") && InStage(s, 1, Checked) && s.tickets[1] == Deleting(OWNER, "doc", Checked) && s.store.db.jobs == map[]
  {
    var s1 := Step(EMPTY_SITE, REGISTER);
    var s2 := Step(s1, CHECK);
    s := Step(s2, HOLD);
    forall rest
      ensures SiteRun(EMPTY_SITE, [REGISTER] + ([CHECK] + ([HOLD] + rest))) == SiteRun(s, rest)
      ensures AllAllowed(EMPTY_SITE, [REGISTER] + ([CHECK] + ([HOLD] + rest))) <==> AllAllowed(s, rest)
    {
      Unfold(EMPTY_SITE, REGISTER, [CHECK] + ([HOLD] + rest));
      Unfold(s1, CHECK, [HOLD] + rest);
      Unfold(s2, HOLD, rest);
    }
    NoJobs(EMPTY_DB, Note(0.0, "document.created", OWNER, "doc"));
    NoJobs(s2.store.db, Note(1.0, "document.hold.changed", ADMIN, "doc"));
  }

  lemma HeldThenDeleted(s: Site)
    requires Held(s, "doc") && InStage(s, 1, Checked) && s.tickets[1] == Deleting(OWNER, "doc", Checked) && s.store.db.jobs == map[]
    ensures AllAllowed(s, [LIST] + ([MARK] + ([END] + []))) && Held(SiteRun(s, [LIST] + ([MARK] + ([END] + []))), "doc")
    ensures SiteRun(s, [LIST] + ([MARK] + ([END] + []))).store.docs["doc"].status == Deleted
  {
    assert NamedJobs(s.store.db, "tenant", "doc") == {};
    Unfold(s, LIST, [MARK] + ([END] + []));
    Unfold(Step(s, LIST), MARK, [END] + []);
    Unfold(Step(Step(s, LIST), MARK), END, []);
  }

  /** Such a run: the owner's deletion finds no hold, the administrator sets one, and the deletion goes
      on. The document is deleted while it is on hold. */
  lemma HoldCanComeTooLate()
    ensures var run := [REGISTER, CHECK, HOLD, LIST, MARK, END];
            && AllAllowed(EMPTY_SITE, run) && Held(SiteRun(EMPTY_SITE, run), "doc")
            && SiteRun(EMPTY_SITE, run).store.docs["doc"].status == Deleted
  {
    assert [REGISTER, CHECK, HOLD, LIST, MARK, END] == [REGISTER] + ([CHECK] + ([HOLD] + ([LIST] + ([MARK] + ([END] + [])))));
    var s := CheckedThenHeld();
    HeldThenDeleted(s);
  }
}
