/** Retried uploads: two submissions under one key, among everything else that happens on the site. */
module Resubmission {
  import opened JobTable
  import opened JobRuns
  import opened JobIdempotency
  import opened Documents
  import opened LegalHold
  import opened Deletion
  import opened Submission

  /** The content and the operation that a submission asks for. */
  predicate SameUpload(q: Request, again: Request) {
    q.kind == again.kind && q.language == again.language && q.intake.sha == again.intake.sha
  }

  /** What is stored for the two differs in the document, the file and the directory of the result at
      most. */
  lemma SameUploadSameRequest(q: Request, again: Request)
    ensures SameRequest(CreateOf(q), CreateOf(again)) <==> SameUpload(q, again)
  {
    var a, b := PayloadOf(q), PayloadOf(again);
    assert a["language"] == q.language && b["language"] == again.language;
    assert a["source_sha256"] == q.intake.sha && b["source_sha256"] == again.intake.sha;
  }

  lemma QueueAt(actions: seq<Action>, n: nat)
    requires n <= |actions|
    ensures SiteAt(actions, n).store.db == Run(EMPTY_DB, CallsBefore(actions, n))
  {
    SiteRunsAreRuns(EMPTY_SITE, actions[..n]);
  }

  /** The registry calls of the actions from c to d. */
  function CallsBetween(actions: seq<Action>, c: nat, d: nat): seq<Call>
    requires c <= d <= |actions|
  {
    Flatten(SiteAt(actions, c), actions[c..d])
  }

  lemma CallsSplit(actions: seq<Action>, c: nat, d: nat)
    requires c <= d <= |actions|
    ensures CallsBefore(actions, d) == CallsBefore(actions, c) + CallsBetween(actions, c, d)
  {
    assert actions[..d] == actions[..c] + actions[c..d];
    FlattenAppend(EMPTY_SITE, actions[..c], actions[c..d]);
  }

  /** After a submission has created its job by actions[c], every later submission of the tenant under the
      same key is answered with that job if kind, language and content agree, whatever document, file and
      result directory the retried upload has got; otherwise the key is refused. It leaves the jobs alone,
      at whatever later time, even after the job was purged. */
  lemma RetriedUploadIsReplayed(actions: seq<Action>, c: nat, d: nat, q: Request, again: Request, o: CreateOutcome)
    requires c < d <= |actions| && actions[c] == Queue(CreateOf(q)) && !Conflicts(SiteAt(actions, c).store.db, CreateOf(q))
    requires again.who.tenantId == q.who.tenantId && again.key == q.key != ""
    requires Returns(SiteAt(actions, d).store.db, CreateOf(again), o)
    ensures o == if q.kind == again.kind && q.language == again.language && q.intake.sha == again.intake.sha
                 then Replayed(q.jobId) else KeyReused
    ensures Step(SiteAt(actions, d), Queue(CreateOf(again))) == SiteAt(actions, d)
  {
    QueueAt(actions, c);
    QueueAt(actions, d);
    FlattenOneMore(actions, c);
    CallsSplit(actions, c + 1, d);
    ReplayReturnsTheOriginal(CallsBefore(actions, c), CreateOf(q), CallsBetween(actions, c + 1, d), CreateOf(again), o);
    SameUploadSameRequest(q, again);
    CallOfStep(SiteAt(actions, d), Queue(CreateOf(again)));
  }
}
