/** Idempotent submission: one job per (tenant, key), for good. */
module JobIdempotency {
  import opened Options
  import opened JobTable
  import opened JobRuns
  import opened JobSafety

  ghost predicate UniqueKeys(db: Db) {
    forall a, b :: a in db.jobs && b in db.jobs && HoldsKey(db.jobs[b], db.jobs[a].tenantId, db.jobs[a].key) ==> a == b
  }

  lemma UniqueKeysStep(db: Db, c: Call)
    requires UniqueKeys(db)
    ensures UniqueKeys(Exec(db, c))
  {
    var db1 := Exec(db, c);
    forall a, b | a in db1.jobs && b in db1.jobs && HoldsKey(db1.jobs[b], db1.jobs[a].tenantId, db1.jobs[a].key)
      ensures a == b
    {
      ExecRow(db, c, a);
      ExecRow(db, c, b);
      if a in db.jobs { IdentityStep(db.jobs[a], c, a); }
      if b in db.jobs { IdentityStep(db.jobs[b], c, b); }
    }
  }

  /** In every run at most one job exists per (tenant, key). */
  lemma {:induction false} OneJobPerKey(db: Db, calls: seq<Call>)
    requires UniqueKeys(db)
    ensures UniqueKeys(Run(db, calls))
    decreases |calls|
  {
    if calls != [] {
      UniqueKeysStep(db, calls[0]);
      OneJobPerKey(Exec(db, calls[0]), calls[1..]);
    }
  }

  /** Two payloads that differ only in where things are stored. */
  predicate SameRequest(c: Call, d: Call)
    requires c.CreateJob? && d.CreateJob?
  {
    c.kind == d.kind && forall k :: k in c.payload.Keys + d.payload.Keys && k !in STORAGE_FIELDS ==>
                                      k in c.payload && k in d.payload && c.payload[k] == d.payload[k]
  }

  lemma SameDigest(c: Call, d: Call)
    requires c.CreateJob? && d.CreateJob?
    ensures SameRequest(c, d) <==> Digest(c.kind, Semantic(c.payload)) == Digest(d.kind, Semantic(d.payload))
  {
    var a, b := Semantic(c.payload), Semantic(d.payload);
    if SameRequest(c, d) {
      assert forall k :: k in a <==> k in b;
      assert a == b;
    } else if a == b && c.kind == d.kind {
      forall k | k in c.payload.Keys + d.payload.Keys && k !in STORAGE_FIELDS
        ensures k in c.payload && k in d.payload && c.payload[k] == d.payload[k]
      {
        assert k in a || k in b;
        assert k in a && k in b && a[k] == b[k];
      }
    }
  }

  lemma NothingInserted(db: Db, c: Call)
    requires c.CreateJob? && Conflicts(db, c)
    ensures Exec(db, c) == db
  {
    assert StepRows(db, c) == db.jobs;
  }

  /** Once `first` has created a job under a non-empty key, any later submission `again` of that
      tenant and key leaves the table alone, at whatever later time, even after the job was purged:
      it returns the first job if it asks for the same thing, and is refused otherwise. */
  lemma ReplayReturnsTheOriginal(before: seq<Call>, first: Call, calls: seq<Call>, again: Call, o: CreateOutcome)
    requires first.CreateJob? && !Conflicts(Run(EMPTY_DB, before), first)
    requires again.CreateJob? && again.tenantId == first.tenantId
    requires again.key == first.key && first.key.Some? && first.key != Some("")
    requires Returns(Run(EMPTY_DB, before + [first] + calls), again, o)
    ensures Exec(Run(EMPTY_DB, before + [first] + calls), again) == Run(EMPTY_DB, before + [first] + calls)
    ensures o == if SameRequest(first, again) then Replayed(first.newId) else KeyReused
  {
    var db0 := Run(EMPTY_DB, before);
    var db := Run(EMPTY_DB, before + [first] + calls);
    RunAppend(EMPTY_DB, before + [first], calls);
    RunAppend(EMPTY_DB, before, [first]);
    ExecRow(db0, first, first.newId);
    FixedColumns(Exec(db0, first), calls, first.newId);
    assert HoldsKey(db.jobs[first.newId], again.tenantId, again.key);
    NothingInserted(db, again);
    OneJobPerKey(EMPTY_DB, before + [first] + calls);
    SameDigest(first, again);
  }
}
