/** Attempt accounting and retention in every possible run, however reads and writes interleave. */
module JobAttempts {
  import opened JobTable
  import opened JobRuns
  import opened JobSafety
  import opened JobReads

  /** In every reachable state the attempts of a job are the claims made of it, and max_attempts bounds
      them up to one extra claim per recovered lease. */
  lemma AttemptAccounting(calls: seq<Call>, at: seq<nat>, id: JobId)
    requires Possible(calls, at) && id in Run(EMPTY_DB, calls).jobs
    ensures var r := Run(EMPTY_DB, calls).jobs[id];
            && r.attempts == ClaimsOf(calls, id)
            && ClaimsOf(calls, id) <= Cap(r) + RecoveriesOf(EMPTY_DB, calls, id)
  {
    ReachableRowsAreSane(calls, at);
    AttemptsCountClaims(EMPTY_DB, calls, id);
    WithinCapRuns(EMPTY_DB, calls, id, 0);
  }

  /** A job is attempted more often than max_attempts allows if and only if some lease of it is recovered
      when its attempts are used up, and it is claimed after that. */
  lemma ExceedsMaxAttempts(calls: seq<Call>, at: seq<nat>, id: JobId)
    requires Possible(calls, at) && id in Run(EMPTY_DB, calls).jobs
    ensures ClaimsOf(calls, id) > Cap(Run(EMPTY_DB, calls).jobs[id]) <==> RecoveredLate(EMPTY_DB, calls, id)
  {
    ReachableRowsAreSane(calls, at);
    AttemptsCountClaims(EMPTY_DB, calls, id);
    if RecoveredLate(EMPTY_DB, calls, id) {
      LateClaimExceedsCap(EMPTY_DB, calls, id);
    } else {
      WithinCapUnlessLate(EMPTY_DB, calls, id);
    }
  }

  // ---------------------------------------------------------------- retention

  /** After k calls the job is as it was after n calls, or expired. */
  predicate KeptAt(calls: seq<Call>, n: nat, k: nat, id: JobId)
    requires n <= |calls| && k <= |calls|
  {
    id in At(calls, n).jobs && id in At(calls, k).jobs && Kept(At(calls, n).jobs[id], At(calls, k).jobs[id])
  }

  predicate RetainedAt(calls: seq<Call>, n: nat, k: nat, id: JobId)
    requires n <= |calls| && k <= |calls|
  {
    KeptAt(calls, n, k, id) && Retained(At(calls, n).jobs[id], At(calls, k).jobs[id])
  }

  predicate HasResult(calls: seq<Call>, n: nat, id: JobId)
    requires n <= |calls|
  {
    id in At(calls, n).jobs && At(calls, n).jobs[id].status in {Complete, Failed}
  }

  lemma KeptOneMore(calls: seq<Call>, n: nat, k: nat, id: JobId)
    requires n <= k < |calls| && Valid(EMPTY_DB, calls) && HasResult(calls, n, id) && KeptAt(calls, n, k, id)
    ensures KeptAt(calls, n, k + 1, id) <==> !Reverts(calls[k], id)
    ensures RetainedAt(calls, n, k, id) ==>
              (RetainedAt(calls, n, k + 1, id) <==> !Reverts(calls[k], id) && !Expires(calls[k], id))
  {
    StepAt(calls, k, id);
    KeptStep(At(calls, n).jobs[id], At(calls, k).jobs[id], calls[k], id);
  }

  lemma {:induction false} KeptUnlessReverted(calls: seq<Call>, n: nat, k: nat, id: JobId)
    requires Valid(EMPTY_DB, calls) && n <= k <= |calls| && HasResult(calls, n, id) && KeptAt(calls, n, n, id)
    requires forall i :: n <= i < k ==> !Reverts(calls[i], id)
    ensures KeptAt(calls, n, k, id)
    decreases k
  {
    if n < k {
      KeptUnlessReverted(calls, n, k - 1, id);
      KeptOneMore(calls, n, k - 1, id);
    }
  }

  lemma {:induction false} RetainedUnlessExpired(calls: seq<Call>, n: nat, k: nat, id: JobId)
    requires Valid(EMPTY_DB, calls) && n <= k <= |calls| && HasResult(calls, n, id) && KeptAt(calls, n, n, id)
    requires forall i :: n <= i < k ==> !Reverts(calls[i], id) && !Expires(calls[i], id)
    ensures RetainedAt(calls, n, k, id)
    decreases k
  {
    if n < k {
      RetainedUnlessExpired(calls, n, k - 1, id);
      KeptOneMore(calls, n, k - 1, id);
    }
  }

  lemma StartsKept(calls: seq<Call>, at: seq<nat>, n: nat, id: JobId)
    requires Possible(calls, at) && n <= |calls| && HasResult(calls, n, id)
    ensures Valid(EMPTY_DB, calls) && KeptAt(calls, n, n, id)
  {
    PrefixIsHonest(calls, at, n);
  }

  /** A complete or failed job keeps its status, result and payload or is expired, at every later position
      of the run, if and only if no complete_job that has read a cancellation of it is written after. */
  lemma ResultsAreKept(calls: seq<Call>, at: seq<nat>, n: nat, id: JobId)
    requires Possible(calls, at) && n <= |calls| && HasResult(calls, n, id)
    ensures (forall k :: n <= k <= |calls| ==> KeptAt(calls, n, k, id))
            <==> (forall i :: n <= i < |calls| ==> !Reverts(calls[i], id))
  {
    StartsKept(calls, at, n, id);
    KeptExactly(calls, n, id);
  }

  lemma KeptExactly(calls: seq<Call>, n: nat, id: JobId)
    requires Valid(EMPTY_DB, calls) && n <= |calls| && HasResult(calls, n, id) && KeptAt(calls, n, n, id)
    ensures (forall k :: n <= k <= |calls| ==> KeptAt(calls, n, k, id))
            <==> (forall i :: n <= i < |calls| ==> !Reverts(calls[i], id))
  {
    if forall i :: n <= i < |calls| ==> !Reverts(calls[i], id) {
      forall k | n <= k <= |calls| ensures KeptAt(calls, n, k, id) { KeptUnlessReverted(calls, n, k, id); }
    }
    if forall k :: n <= k <= |calls| ==> KeptAt(calls, n, k, id) {
      forall i | n <= i < |calls| ensures !Reverts(calls[i], id) {
        assert KeptAt(calls, n, i, id) && KeptAt(calls, n, i + 1, id);
        KeptOneMore(calls, n, i, id);
      }
    }
  }

  /** It is not even expired if and only if no purge that selected it writes either. */
  lemma ResultsAreRetained(calls: seq<Call>, at: seq<nat>, n: nat, id: JobId)
    requires Possible(calls, at) && n <= |calls| && HasResult(calls, n, id)
    ensures (forall k :: n <= k <= |calls| ==> RetainedAt(calls, n, k, id))
            <==> (forall i :: n <= i < |calls| ==> !Reverts(calls[i], id) && !Expires(calls[i], id))
  {
    StartsKept(calls, at, n, id);
    RetainedExactly(calls, n, id);
  }

  lemma RetainedExactly(calls: seq<Call>, n: nat, id: JobId)
    requires Valid(EMPTY_DB, calls) && n <= |calls| && HasResult(calls, n, id) && KeptAt(calls, n, n, id)
    ensures (forall k :: n <= k <= |calls| ==> RetainedAt(calls, n, k, id))
            <==> (forall i :: n <= i < |calls| ==> !Reverts(calls[i], id) && !Expires(calls[i], id))
  {
    if forall i :: n <= i < |calls| ==> !Reverts(calls[i], id) && !Expires(calls[i], id) {
      forall k | n <= k <= |calls| ensures RetainedAt(calls, n, k, id) { RetainedUnlessExpired(calls, n, k, id); }
    }
    if forall k :: n <= k <= |calls| ==> RetainedAt(calls, n, k, id) {
      forall i | n <= i < |calls| ensures !Reverts(calls[i], id) && !Expires(calls[i], id) {
        assert RetainedAt(calls, n, i, id) && RetainedAt(calls, n, i + 1, id);
        KeptOneMore(calls, n, i, id);
      }
    }
  }

  /** A purge expires a job only when its cutoff has passed the creation time plus the TTL of the call that
      created it. */
  lemma ExpiresAfterItsTtl(calls: seq<Call>, at: seq<nat>, first: nat, i: nat)
    requires Possible(calls, at) && first < i < |calls| && calls[first].CreateJob? && !Conflicts(At(calls, first), calls[first])
    requires Expires(calls[i], calls[first].newId)
    ensures calls[first].now + calls[first].ttl as real < Cutoff(calls[i].now, calls[i].maxAge)
  {
    ExpiryAt(calls, first, i);
    PrefixIsHonest(calls, at, i);
    ReadIsHonest(calls, at, i);
  }

  /** A result is kept for its TTL: unless a complete_job that has read a cancellation of it is written, a
      complete or failed job is unchanged as long as no purge has a cutoff beyond creation plus TTL. */
  lemma KeptForItsTtl(calls: seq<Call>, at: seq<nat>, first: nat, n: nat)
    requires Possible(calls, at) && first < n <= |calls| && calls[first].CreateJob? && !Conflicts(At(calls, first), calls[first])
    requires HasResult(calls, n, calls[first].newId)
    requires forall i :: n <= i < |calls| ==> !Reverts(calls[i], calls[first].newId)
    requires forall i :: n <= i < |calls| && calls[i].ExpireJob? ==>
                           Cutoff(calls[i].now, calls[i].maxAge) <= calls[first].now + calls[first].ttl as real
    ensures forall k :: n <= k <= |calls| ==> RetainedAt(calls, n, k, calls[first].newId)
  {
    var id := calls[first].newId;
    forall i | n <= i < |calls| ensures !Expires(calls[i], id) {
      if Expires(calls[i], id) { ExpiresAfterItsTtl(calls, at, first, i); }
    }
    ResultsAreRetained(calls, at, n, id);
  }

  lemma ExpiryAt(calls: seq<Call>, first: nat, n: nat)
    requires first < n <= |calls| && calls[first].CreateJob? && !Conflicts(At(calls, first), calls[first])
    ensures calls[first].newId in At(calls, n).jobs
    ensures At(calls, n).jobs[calls[first].newId].expiresAt == calls[first].now + calls[first].ttl as real
  {
    RunOneMore(EMPTY_DB, calls, first);
    Segment(calls, first + 1, n);
    ExpiryIsFixed(At(calls, first), calls[first], calls[first + 1..n]);
  }
}
