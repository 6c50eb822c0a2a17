/** The submit routes of makepdf/web/routes/ocr_async.py: register the document, create the job, and
    delete the document again when the job is a replay or the key is refused. The steps are actions of the
    site, so other actions may come between them. */
module Submission {
  import opened Options
  import opened JobTable
  import opened Documents
  import opened LegalHold

  const RETENTION_DAYS := 7

  datatype Request = Request(now: Time, who: Identity, docId: DocId, jobId: JobId, intake: Intake, kind: string,
                             language: string, resultDir: string, key: string, filename: string, maxAttempts: int, ttl: int)

  function PayloadOf(q: Request): map<string, string> {
    map["document_id" := q.docId, "source_path" := q.intake.path, "source_sha256" := q.intake.sha,
        "language" := q.language, "result_dir" := q.resultDir]
  }

  function CreateOf(q: Request): Call {
    CreateJob(q.now, q.jobId, q.who.tenantId, q.who.userId, q.kind, PayloadOf(q), Some(q.key), Some(q.filename), q.maxAttempts, q.ttl)
  }

  function RegisterOf(q: Request): Action {
    RegisterDoc(q.now, q.docId, q.who, q.intake, RETENTION_DAYS)
  }

  predicate Live(s: Site, id: DocId) {
    id in s.store.docs && s.store.docs[id].status == Active
  }

  // ---------------------------------------------------------------- one document

  /** A live document is lost exactly by a deletion that has passed its check. */
  lemma LiveStep(s: Site, a: Action, id: DocId)
    requires Allowed(s, a) && Live(s, id)
    ensures Live(Step(s, a), id) <==> !Continues(s, a, id)
  {
  }

  /** A deletion of the document goes on by actions[i]. */
  predicate Touches(actions: seq<Action>, i: nat, id: DocId)
    requires i < |actions|
  {
    Continues(SiteAt(actions, i), actions[i], id)
  }

  /** No deletion of the document has gone on by the actions from p to k. */
  predicate Untouched(actions: seq<Action>, p: nat, k: nat, id: DocId)
    requires k <= |actions|
  {
    forall i :: p <= i < k ==> !Touches(actions, i, id)
  }

  lemma AllowedAt(actions: seq<Action>, i: nat)
    requires AllAllowed(EMPTY_SITE, actions) && i < |actions|
    ensures Allowed(SiteAt(actions, i), actions[i]) && SiteAt(actions, i + 1) == Step(SiteAt(actions, i), actions[i])
  {
    AllowedPrefix(EMPTY_SITE, actions, i + 1);
    SiteOneMore(actions, i);
  }

  lemma AliveStep(s: Site, a: Action, id: DocId)
    requires Allowed(s, a) && id in s.store.docs
    ensures id in Step(s, a).store.docs
    ensures Live(Step(s, a), id) <==> Live(s, id) && !Continues(s, a, id)
  {
    if Live(s, id) { LiveStep(s, a, id); } else { NotActiveStep(s, a, id); }
  }

  lemma LiveOneMore(actions: seq<Action>, k: nat, id: DocId)
    requires AllAllowed(EMPTY_SITE, actions) && k < |actions| && id in SiteAt(actions, k).store.docs
    ensures id in SiteAt(actions, k + 1).store.docs
    ensures Live(SiteAt(actions, k + 1), id) <==> Live(SiteAt(actions, k), id) && !Touches(actions, k, id)
  {
    AllowedAt(actions, k);
    AliveStep(SiteAt(actions, k), actions[k], id);
  }

  lemma {:induction false} LiveExactly(actions: seq<Action>, p: nat, k: nat, id: DocId)
    requires AllAllowed(EMPTY_SITE, actions) && p <= k <= |actions| && Live(SiteAt(actions, p), id)
    ensures id in SiteAt(actions, k).store.docs
    ensures Live(SiteAt(actions, k), id) <==> Untouched(actions, p, k, id)
    decreases k
  {
    if p < k {
      LiveExactly(actions, p, k - 1, id);
      LiveOneMore(actions, k - 1, id);
    }
  }

  lemma {:induction false} DeadForGood(actions: seq<Action>, p: nat, k: nat, id: DocId)
    requires AllAllowed(EMPTY_SITE, actions) && p <= k <= |actions|
    requires id in SiteAt(actions, p).store.docs && !Live(SiteAt(actions, p), id)
    ensures id in SiteAt(actions, k).store.docs && !Live(SiteAt(actions, k), id)
    decreases k
  {
    if p < k {
      DeadForGood(actions, p, k - 1, id);
      LiveOneMore(actions, k - 1, id);
    }
  }

  predicate OwnedBy(s: Site, id: DocId, who: Identity) {
    id in s.store.docs && s.store.docs[id].tenantId == who.tenantId && s.store.docs[id].ownerId == who.userId
  }

  lemma {:induction false} OwnerStays(actions: seq<Action>, p: nat, k: nat, id: DocId, who: Identity)
    requires AllAllowed(EMPTY_SITE, actions) && p <= k <= |actions| && OwnedBy(SiteAt(actions, p), id, who)
    ensures OwnedBy(SiteAt(actions, k), id, who)
    decreases k
  {
    if p < k {
      OwnerStays(actions, p, k - 1, id, who);
      AllowedAt(actions, k - 1);
      OwnerStep(SiteAt(actions, k - 1), actions[k - 1], id, who);
    }
  }

  lemma OwnerStep(s: Site, a: Action, id: DocId, who: Identity)
    requires OwnedBy(s, id, who)
    ensures OwnedBy(Step(s, a), id, who)
  {
  }

  // ---------------------------------------------------------------- one submission

  /** The route of `q` registers its document by actions[p] and creates its job by actions[c]. */
  predicate Route(actions: seq<Action>, p: nat, c: nat, q: Request)
    requires p < c < |actions|
  {
    && actions[p] == RegisterOf(q) && q.docId !in SiteAt(actions, p).store.docs
    && actions[c] == Queue(CreateOf(q))
  }

  lemma RegisterShows(actions: seq<Action>, p: nat, q: Request)
    requires AllAllowed(EMPTY_SITE, actions) && p < |actions| && actions[p] == RegisterOf(q) && q.docId !in SiteAt(actions, p).store.docs
    ensures Live(SiteAt(actions, p + 1), q.docId) && OwnedBy(SiteAt(actions, p + 1), q.docId, q.who)
  {
    AllowedAt(actions, p);
  }

  /** A new request leaves one new job, which names the document, and its document is live then if and only
      if no deletion of it came between the two steps. */
  lemma NewSubmission(actions: seq<Action>, p: nat, c: nat, q: Request)
    requires AllAllowed(EMPTY_SITE, actions) && p < c < |actions| && Route(actions, p, c, q)
    requires !Conflicts(SiteAt(actions, c).store.db, CreateOf(q))
    ensures var before, after := SiteAt(actions, c).store.db.jobs, SiteAt(actions, c + 1).store.db.jobs;
            && q.jobId !in before && after == before[q.jobId := NewRow(CreateOf(q))]
            && Names(after[q.jobId], q.who.tenantId, q.docId)
    ensures Live(SiteAt(actions, c + 1), q.docId) <==> Untouched(actions, p + 1, c, q.docId)
  {
    RegisterShows(actions, p, q);
    LiveExactly(actions, p + 1, c, q.docId);
    AllowedAt(actions, c);
    CreateShows(SiteAt(actions, c), q);
  }

  lemma CreateShows(s: Site, q: Request)
    ensures var s1 := Step(s, Queue(CreateOf(q)));
            && s1.store.docs == s.store.docs
            && (Conflicts(s.store.db, CreateOf(q)) ==> s1.store.db.jobs == s.store.db.jobs)
            && (!Conflicts(s.store.db, CreateOf(q)) ==>
                  && q.jobId !in s.store.db.jobs && s1.store.db.jobs == s.store.db.jobs[q.jobId := NewRow(CreateOf(q))]
                  && Names(s1.store.db.jobs[q.jobId], q.who.tenantId, q.docId))
  {
    assert StepRows(s.store.db, CreateOf(q)) == s.store.db.jobs;
  }

  /** A replay or a refused request creates no job. Its undo, which looks at the document by actions[u],
      passes its check if and only if nobody has put the document on hold; once it goes on the document
      is not live any more. If it does not pass, the document stays without a job, and is live then if and
      only if no deletion of it had passed before the hold. */
  lemma RefusedSubmission(actions: seq<Action>, p: nat, c: nat, u: nat, q: Request)
    requires AllAllowed(EMPTY_SITE, actions) && p < c < u < |actions| && Route(actions, p, c, q)
    requires Conflicts(SiteAt(actions, c).store.db, CreateOf(q))
    requires actions[u].CheckDelete? && actions[u].who == q.who && actions[u].id == q.docId
    ensures SiteAt(actions, c + 1).store.db.jobs == SiteAt(actions, c).store.db.jobs
    ensures PassesCheck(actions, u, q.docId) <==> !Held(SiteAt(actions, u), q.docId)
    ensures PassesCheck(actions, u, q.docId) ==>
              forall v: nat, k: nat :: u < v < k <= |actions| && Resumes(actions[v], actions[u].ticket) ==> !Live(SiteAt(actions, k), q.docId)
    ensures Live(SiteAt(actions, u), q.docId) <==> Untouched(actions, p + 1, u, q.docId)
  {
    RegisterShows(actions, p, q);
    LiveExactly(actions, p + 1, u, q.docId);
    OwnerStays(actions, p + 1, u, q.docId, q.who);
    AllowedAt(actions, c);
    CreateShows(SiteAt(actions, c), q);
    if PassesCheck(actions, u, q.docId) {
      forall v: nat, k: nat | u < v < k <= |actions| && Resumes(actions[v], actions[u].ticket) ensures !Live(SiteAt(actions, k), q.docId) {
        UndoContinues(actions, u, v, q.docId);
        LostForGood(actions, v, k, q.docId);
      }
    }
  }

  lemma LostForGood(actions: seq<Action>, v: nat, k: nat, id: DocId)
    requires AllAllowed(EMPTY_SITE, actions) && v < k <= |actions| && Continues(SiteAt(actions, v), actions[v], id)
    ensures !Live(SiteAt(actions, k), id)
  {
    LostNow(actions, v, id);
    DeadForGood(actions, v + 1, k, id);
  }

  lemma LostNow(actions: seq<Action>, v: nat, id: DocId)
    requires AllAllowed(EMPTY_SITE, actions) && v < |actions| && Continues(SiteAt(actions, v), actions[v], id)
    ensures id in SiteAt(actions, v + 1).store.docs && !Live(SiteAt(actions, v + 1), id)
  {
    AllowedAt(actions, v);
    TicketNames(SiteAt(actions, v), actions[v]);
    AliveStep(SiteAt(actions, v), actions[v], id);
  }

  lemma UndoContinues(actions: seq<Action>, u: nat, v: nat, id: DocId)
    requires AllAllowed(EMPTY_SITE, actions) && u < v < |actions|
    requires PassesCheck(actions, u, id) && Resumes(actions[v], actions[u].ticket)
    ensures Continues(SiteAt(actions, v), actions[v], id)
  {
    AllowedPrefix(EMPTY_SITE, actions, v);
    TicketsAreChecks(actions, v, actions[u].ticket, id);
  }

  /** A deletion that goes on is one of a document that is there. */
  lemma TicketNames(s: Site, a: Action)
    requires Allowed(s, a) && (a.MarkDelete? || a.FinishDelete?)
    ensures a.ticket in s.tickets && s.tickets[a.ticket].id in s.store.docs
  {
  }

  // ---------------------------------------------------------------- all documents and jobs

  function LiveDocs(s: Site): set<DocId> {
    set d | d in s.store.docs && s.store.docs[d].status == Active
  }

  /** The live documents less the jobs. */
  function Balance(s: Site): int {
    |LiveDocs(s)| - |s.store.db.jobs|
  }

  function Lost(s: Site, a: Action): int {
    if (a.MarkDelete? || a.FinishDelete?) && a.ticket in s.tickets && Live(s, s.tickets[a.ticket].id) then 1 else 0
  }

  function Gained(s: Site, a: Action): int {
    if a.RegisterDoc? && a.id !in s.store.docs then 1 else 0
  }

  function Created(s: Site, a: Action): int {
    if a.Queue? && a.call.CreateJob? && !Conflicts(s.store.db, a.call) then 1 else 0
  }

  lemma RegisterGains(s: Site, a: Action)
    requires Gained(s, a) == 1
    ensures LiveDocs(Step(s, a)) == LiveDocs(s) + {a.id} && a.id !in LiveDocs(s)
  {
  }

  lemma DeletionLoses(s: Site, a: Action)
    requires Allowed(s, a) && Lost(s, a) == 1
    ensures LiveDocs(Step(s, a)) == LiveDocs(s) - {s.tickets[a.ticket].id} && s.tickets[a.ticket].id in LiveDocs(s)
  {
  }

  lemma OthersKeep(s: Site, a: Action)
    requires Allowed(s, a) && Gained(s, a) == 0 && Lost(s, a) == 0
    ensures LiveDocs(Step(s, a)) == LiveDocs(s)
  {
    forall d ensures d in LiveDocs(Step(s, a)) <==> d in LiveDocs(s) {
      if d in s.store.docs { AliveStep(s, a, d); }
    }
  }

  lemma LiveDocsStep(s: Site, a: Action)
    requires Allowed(s, a)
    ensures |LiveDocs(Step(s, a))| == |LiveDocs(s)| + Gained(s, a) - Lost(s, a)
  {
    if Gained(s, a) == 1 {
      RegisterGains(s, a);
    } else if Lost(s, a) == 1 {
      DeletionLoses(s, a);
    } else {
      OthersKeep(s, a);
    }
  }

  lemma SameSize<K, V>(m: map<K, V>)
    ensures |m| == |m.Keys|
  {
  }

  lemma JobsStep(db: Db, c: Call)
    ensures |Exec(db, c).jobs| == |db.jobs| + if c.CreateJob? && !Conflicts(db, c) then 1 else 0
  {
    SameSize(Exec(db, c).jobs);
    SameSize(db.jobs);
    KeysAfter(db, c);
  }

  lemma KeysAfter(db: Db, c: Call)
    ensures Exec(db, c).jobs.Keys == db.jobs.Keys + if c.CreateJob? && !Conflicts(db, c) then {c.newId} else {}
  {
    assert StepRows(db, c).Keys == db.jobs.Keys;
  }

  lemma SiteJobsStep(s: Site, a: Action)
    ensures |Step(s, a).store.db.jobs| == |s.store.db.jobs| + Created(s, a)
  {
    if CallOf(s, a) != [] { JobsStep(s.store.db, CallOf(s, a)[0]); }
  }

  lemma BalanceStep(s: Site, a: Action)
    requires Allowed(s, a)
    ensures Balance(Step(s, a)) == Balance(s) + Gained(s, a) - Lost(s, a) - Created(s, a)
  {
    LiveDocsStep(s, a);
    SiteJobsStep(s, a);
  }

  // The positions of the run, from n up to k, that register a document, take a live one, or create a job.

  predicate GainsAt(actions: seq<Action>, i: nat)
    requires i < |actions|
  {
    Gained(SiteAt(actions, i), actions[i]) == 1
  }

  predicate LosesAt(actions: seq<Action>, i: nat)
    requires i < |actions|
  {
    Lost(SiteAt(actions, i), actions[i]) == 1
  }

  predicate CreatesAt(actions: seq<Action>, i: nat)
    requires i < |actions|
  {
    Created(SiteAt(actions, i), actions[i]) == 1
  }

  function Gains(actions: seq<Action>, n: nat, k: nat): set<nat>
    requires k <= |actions|
  {
    set i: nat | n <= i < k && GainsAt(actions, i)
  }

  function Losses(actions: seq<Action>, n: nat, k: nat): set<nat>
    requires k <= |actions|
  {
    set i: nat | n <= i < k && LosesAt(actions, i)
  }

  function Creations(actions: seq<Action>, n: nat, k: nat): set<nat>
    requires k <= |actions|
  {
    set i: nat | n <= i < k && CreatesAt(actions, i)
  }

  function Positions(n: nat, k: nat, here: nat -> bool): set<nat> {
    set i: nat | n <= i < k && here(i)
  }

  lemma OneMorePosition(n: nat, k: nat, here: nat -> bool)
    requires n <= k
    ensures |Positions(n, k + 1, here)| == |Positions(n, k, here)| + if here(k) then 1 else 0
  {
    assert Positions(n, k + 1, here) == Positions(n, k, here) + if here(k) then {k} else {};
  }

  predicate ChangesAt(balance: nat -> int, up: nat -> bool, down: nat -> bool, also: nat -> bool, i: nat) {
    balance(i + 1) == balance(i) + (if up(i) then 1 else 0) - (if down(i) then 1 else 0) - (if also(i) then 1 else 0)
  }

  /** A balance that changes by one at certain positions. */
  lemma {:induction false} Telescopes(balance: nat -> int, up: nat -> bool, down: nat -> bool, also: nat -> bool, n: nat, k: nat)
    requires n <= k && forall i :: n <= i < k ==> ChangesAt(balance, up, down, also, i)
    ensures balance(k) == balance(n) + |Positions(n, k, up)| - |Positions(n, k, down)| - |Positions(n, k, also)|
    decreases k
  {
    if n == k {
      assert Positions(n, k, up) == {} && Positions(n, k, down) == {} && Positions(n, k, also) == {};
    } else {
      Telescopes(balance, up, down, also, n, k - 1);
      OneMorePosition(n, k - 1, up);
      OneMorePosition(n, k - 1, down);
      OneMorePosition(n, k - 1, also);
      assert ChangesAt(balance, up, down, also, k - 1);
    }
  }

  /** The balance changes by what the k-th action does. */
  predicate Accounted(actions: seq<Action>, k: nat)
    requires k < |actions|
  {
    Balance(SiteAt(actions, k + 1)) ==
    Balance(SiteAt(actions, k)) + (if GainsAt(actions, k) then 1 else 0) - (if LosesAt(actions, k) then 1 else 0)
    - (if CreatesAt(actions, k) then 1 else 0)
  }

  lemma IsAccounted(actions: seq<Action>, k: nat)
    requires AllAllowed(EMPTY_SITE, actions) && k < |actions|
    ensures Accounted(actions, k)
  {
    AllowedAt(actions, k);
    BalanceStep(SiteAt(actions, k), actions[k]);
  }

  /** Live documents less jobs change by the registrations, less the documents that deletions take, less the
      jobs created. */
  lemma BalanceCounts(actions: seq<Action>, n: nat, k: nat)
    requires n <= k <= |actions| && forall i :: n <= i < k ==> Accounted(actions, i)
    ensures Balance(SiteAt(actions, k)) ==
            Balance(SiteAt(actions, n)) + |Gains(actions, n, k)| - |Losses(actions, n, k)| - |Creations(actions, n, k)|
  {
    var balance := (i: nat) => if i <= |actions| then Balance(SiteAt(actions, i)) else 0;
    var up := (i: nat) => i < |actions| && GainsAt(actions, i);
    var down := (i: nat) => i < |actions| && LosesAt(actions, i);
    var also := (i: nat) => i < |actions| && CreatesAt(actions, i);
    forall i | n <= i < k ensures ChangesAt(balance, up, down, also, i) {
      assert Accounted(actions, i);
    }
    Telescopes(balance, up, down, also, n, k);
    assert Positions(n, k, up) == Gains(actions, n, k);
    assert Positions(n, k, down) == Losses(actions, n, k);
    assert Positions(n, k, also) == Creations(actions, n, k);
  }

  // ---------------------------------------------------------------- finished submissions

  /** A finished submission: its job is created by actions[c], or its document is taken by actions[v]. */
  datatype Fate = GotJob(c: nat) | WasUndone(c: nat, v: nat)

  datatype Finished = Finished(q: Request, fate: Fate)

  /** The submission that registers its document by actions[p] has finished like this. */
  predicate Finishes(actions: seq<Action>, p: nat, f: Finished) {
    && p < f.fate.c < |actions| && Route(actions, p, f.fate.c, f.q)
    && match f.fate
       case GotJob(c) => !Conflicts(SiteAt(actions, c).store.db, CreateOf(f.q))
       case WasUndone(c, v) =>
         && Conflicts(SiteAt(actions, c).store.db, CreateOf(f.q)) && c < v < |actions|
         && LosesAt(actions, v) && SiteAt(actions, v).tickets[actions[v].ticket].id == f.q.docId
  }

  /** From position n on every registration, every creation and every deletion that takes a live document
      belongs to one of the submissions, which are given by the positions of their registrations. */
  predicate Belong(actions: seq<Action>, n: nat, subs: map<nat, Finished>) {
    && (forall p :: p in subs ==> n <= p && Finishes(actions, p, subs[p]))
    && (forall i :: n <= i < |actions| && GainsAt(actions, i) ==> i in subs)
    && (forall i :: n <= i < |actions| && CreatesAt(actions, i) ==> exists p :: p in subs && subs[p].fate == GotJob(i))
    && (forall i :: n <= i < |actions| && LosesAt(actions, i) ==> exists p :: p in subs && subs[p].fate.WasUndone? && subs[p].fate.v == i)
  }

  lemma {:induction false} ImageSize(s: set<nat>, f: nat -> nat)
    requires forall x, y :: x in s && y in s && x != y ==> f(x) != f(y)
    ensures |set x | x in s :: f(x)| == |s|
    decreases s
  {
    if s != {} {
      var x :| x in s;
      ImageSize(s - {x}, f);
      assert (set y | y in s :: f(y)) == (set y | y in s - {x} :: f(y)) + {f(x)};
      assert f(x) !in (set y | y in s - {x} :: f(y));
    }
  }

  lemma OneForEach(s: set<nat>, f: nat -> nat, made: set<nat>)
    requires forall x, y :: x in s && y in s && x != y ==> f(x) != f(y)
    requires forall x :: x in s ==> f(x) in made
    requires forall i :: i in made ==> i in (set x | x in s :: f(x))
    ensures |made| == |s|
  {
    ImageSize(s, f);
    assert made == set x | x in s :: f(x);
  }

  lemma DifferentDocuments(actions: seq<Action>, n: nat, subs: map<nat, Finished>, x: nat, y: nat)
    requires AllAllowed(EMPTY_SITE, actions) && Belong(actions, n, subs) && x in subs && y in subs && x < y
    ensures subs[x].q.docId != subs[y].q.docId
  {
    assert Finishes(actions, x, subs[x]) && Finishes(actions, y, subs[y]);
    RegisterShows(actions, x, subs[x].q);
    LiveExactly(actions, x + 1, y, subs[x].q.docId);
  }

  function CreatedBy(subs: map<nat, Finished>): set<nat> {
    set p | p in subs && subs[p].fate.GotJob?
  }

  function UndoneBy(subs: map<nat, Finished>): set<nat> {
    set p | p in subs && subs[p].fate.WasUndone?
  }

  function JobPosition(subs: map<nat, Finished>): nat -> nat {
    p => if p in subs then subs[p].fate.c else 0
  }

  function UndoPosition(subs: map<nat, Finished>): nat -> nat {
    p => if p in subs && subs[p].fate.WasUndone? then subs[p].fate.v else 0
  }

  lemma SameRequestDocument(q: Request, r: Request)
    requires CreateOf(q) == CreateOf(r)
    ensures q.docId == r.docId
  {
    assert CreateOf(q).payload["document_id"] == q.docId && CreateOf(r).payload["document_id"] == r.docId;
  }

  /** Submissions of different documents end at different positions. */
  lemma OwnPositions(actions: seq<Action>, x: nat, f: Finished, y: nat, g: Finished)
    requires Finishes(actions, x, f) && Finishes(actions, y, g) && f.q.docId != g.q.docId
    ensures f.fate.c != g.fate.c
    ensures f.fate.WasUndone? && g.fate.WasUndone? ==> f.fate.v != g.fate.v
  {
    if f.fate.c == g.fate.c { SameRequestDocument(f.q, g.q); }
  }

  lemma DifferentPositions(actions: seq<Action>, n: nat, subs: map<nat, Finished>, x: nat, y: nat)
    requires AllAllowed(EMPTY_SITE, actions) && Belong(actions, n, subs) && x in subs && y in subs && x != y
    ensures subs[x].fate.c != subs[y].fate.c
    ensures subs[x].fate.WasUndone? && subs[y].fate.WasUndone? ==> subs[x].fate.v != subs[y].fate.v
  {
    if x < y { DifferentDocuments(actions, n, subs, x, y); } else { DifferentDocuments(actions, n, subs, y, x); }
    OwnPositions(actions, x, subs[x], y, subs[y]);
  }

  lemma GainsAreSubmissions(actions: seq<Action>, n: nat, subs: map<nat, Finished>)
    requires Belong(actions, n, subs)
    ensures Gains(actions, n, |actions|) == subs.Keys
  {
    forall p | p in subs ensures p in Gains(actions, n, |actions|) {
      assert Finishes(actions, p, subs[p]);
    }
  }

  lemma JobIsCreated(actions: seq<Action>, n: nat, subs: map<nat, Finished>, p: nat)
    requires Belong(actions, n, subs) && p in CreatedBy(subs)
    ensures subs[p].fate.c in Creations(actions, n, |actions|)
  {
    assert Finishes(actions, p, subs[p]);
  }

  lemma CreationHasSubmission(actions: seq<Action>, n: nat, subs: map<nat, Finished>, i: nat) returns (p: nat)
    requires Belong(actions, n, subs) && i in Creations(actions, n, |actions|)
    ensures p in CreatedBy(subs) && subs[p].fate.c == i
  {
    p :| p in subs && subs[p].fate == GotJob(i);
  }

  lemma CreationsAreSubmissions(actions: seq<Action>, n: nat, subs: map<nat, Finished>)
    requires AllAllowed(EMPTY_SITE, actions) && Belong(actions, n, subs)
    ensures |Creations(actions, n, |actions|)| == |CreatedBy(subs)|
  {
    var f, made := JobPosition(subs), Creations(actions, n, |actions|);
    forall x, y | x in CreatedBy(subs) && y in CreatedBy(subs) && x != y ensures f(x) != f(y) {
      DifferentPositions(actions, n, subs, x, y);
    }
    forall p | p in CreatedBy(subs) ensures f(p) in made { JobIsCreated(actions, n, subs, p); }
    forall i | i in made ensures i in (set p | p in CreatedBy(subs) :: f(p)) { var p := CreationHasSubmission(actions, n, subs, i); assert f(p) == i; }
    OneForEach(CreatedBy(subs), f, made);
  }

  lemma DocumentIsTaken(actions: seq<Action>, n: nat, subs: map<nat, Finished>, p: nat)
    requires Belong(actions, n, subs) && p in UndoneBy(subs)
    ensures subs[p].fate.v in Losses(actions, n, |actions|)
  {
    assert Finishes(actions, p, subs[p]);
  }

  lemma LossHasSubmission(actions: seq<Action>, n: nat, subs: map<nat, Finished>, i: nat) returns (p: nat)
    requires Belong(actions, n, subs) && i in Losses(actions, n, |actions|)
    ensures p in UndoneBy(subs) && subs[p].fate.v == i
  {
    p :| p in subs && subs[p].fate.WasUndone? && subs[p].fate.v == i;
  }

  lemma LossesAreSubmissions(actions: seq<Action>, n: nat, subs: map<nat, Finished>)
    requires AllAllowed(EMPTY_SITE, actions) && Belong(actions, n, subs)
    ensures |Losses(actions, n, |actions|)| == |UndoneBy(subs)|
  {
    var f, taken := UndoPosition(subs), Losses(actions, n, |actions|);
    forall x, y | x in UndoneBy(subs) && y in UndoneBy(subs) && x != y ensures f(x) != f(y) {
      DifferentPositions(actions, n, subs, x, y);
    }
    forall p | p in UndoneBy(subs) ensures f(p) in taken { DocumentIsTaken(actions, n, subs, p); }
    forall i | i in taken ensures i in (set p | p in UndoneBy(subs) :: f(p)) { var p := LossHasSubmission(actions, n, subs, i); assert f(p) == i; }
    OneForEach(UndoneBy(subs), f, taken);
  }

  lemma TwoFates(subs: map<nat, Finished>)
    ensures |subs.Keys| == |CreatedBy(subs)| + |UndoneBy(subs)|
  {
    assert subs.Keys == CreatedBy(subs) + UndoneBy(subs);
    assert CreatedBy(subs) !! UndoneBy(subs);
  }

  /** However submissions interleave with each other and with everything else: a run whose registrations,
      creations and deletions of live documents all belong to finished submissions leaves live documents
      less jobs as it found them. */
  lemma SubmissionsConserve(actions: seq<Action>, n: nat, subs: map<nat, Finished>)
    requires AllAllowed(EMPTY_SITE, actions) && n <= |actions| && Belong(actions, n, subs)
    ensures Balance(SiteRun(EMPTY_SITE, actions)) == Balance(SiteAt(actions, n))
  {
    assert SiteAt(actions, |actions|) == SiteRun(EMPTY_SITE, actions) by { assert actions[..|actions|] == actions; }
    forall i | n <= i < |actions| ensures Accounted(actions, i) { IsAccounted(actions, i); }
    BalanceCounts(actions, n, |actions|);
    GainsAreSubmissions(actions, n, subs);
    CreationsAreSubmissions(actions, n, subs);
    LossesAreSubmissions(actions, n, subs);
    TwoFates(subs);
  }
}
