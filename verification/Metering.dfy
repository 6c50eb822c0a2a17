/** Daily quotas and billing statements of makepdf/web/governance.py. */
module Metering {
  datatype Key = Key(tenantId: string, day: string)

  /** request_count, uploaded_bytes and job_count. `jobs` counts accepted submissions. */
  datatype Counters = Counters(requests: int, bytes: int, jobs: int)

  const ZERO := Counters(0, 0, 0)

  /** The limits are read from the environment by every call. */
  type Limits = Counters

  datatype Statement = Statement(id: string, usage: Counters, createdBy: string, createdAt: real)

  datatype Meter = Meter(usage: map<Key, Counters>, exports: map<Key, Statement>)

  const EMPTY_METER := Meter(map[], map[])

  /** `seen` is what billing_usage read of the counters in an earlier statement. */
  datatype Op =
    | Consume(key: Key, bytes: int, jobs: int, limits: Limits)
    | Export(key: Key, seen: Counters, id: string, userId: string, now: real)

  function CountersOf(m: Meter, key: Key): Counters {
    if key in m.usage then m.usage[key] else ZERO
  }

  function Plus(a: Counters, b: Counters): Counters {
    Counters(a.requests + b.requests, a.bytes + b.bytes, a.jobs + b.jobs)
  }

  predicate AtMost(a: Counters, b: Counters) {
    a.requests <= b.requests && a.bytes <= b.bytes && a.jobs <= b.jobs
  }

  function Charge(op: Op): Counters
    requires op.Consume?
  {
    Counters(1, op.bytes, op.jobs)
  }

  predicate Fits(m: Meter, op: Op)
    requires op.Consume?
  {
    AtMost(Plus(CountersOf(m, op.key), Charge(op)), op.limits)
  }

  /** The statement of a tenant and day is made once; a second export finds it. */
  function Exported(m: Meter, key: Key, seen: Counters, id: string, userId: string, now: real): Meter {
    if key in m.exports then m else m.(exports := m.exports[key := Statement(id, seen, userId, now)])
  }

  function Apply(m: Meter, op: Op): Meter {
    match op
    case Consume(key, _, _, _) =>
      if Fits(m, op) then m.(usage := m.usage[key := Plus(CountersOf(m, key), Charge(op))]) else m
    case Export(key, seen, id, userId, now) => Exported(m, key, seen, id, userId, now)
  }

  function ApplyAll(m: Meter, ops: seq<Op>): Meter
    decreases |ops|
  {
    if ops == [] then m else ApplyAll(Apply(m, ops[0]), ops[1..])
  }

  /** The calls of a run that were accepted for one tenant and day, in order. */
  function Accepted(m: Meter, ops: seq<Op>, key: Key): seq<Op>
    decreases |ops|
  {
    if ops == [] then []
    else (if ops[0].Consume? && ops[0].key == key && Fits(m, ops[0]) then [ops[0]] else []) + Accepted(Apply(m, ops[0]), ops[1..], key)
  }

  /** The bytes and the jobs that the calls charge. */
  function BytesOf(ops: seq<Op>): int {
    if ops == [] then 0 else (if ops[0].Consume? then ops[0].bytes else 0) + BytesOf(ops[1..])
  }

  function JobsOf(ops: seq<Op>): int {
    if ops == [] then 0 else (if ops[0].Consume? then ops[0].jobs else 0) + JobsOf(ops[1..])
  }

  predicate WithinLimits(m: Meter, limits: Limits) {
    forall key :: key in m.usage ==>
      m.usage[key].requests <= limits.requests && m.usage[key].bytes <= limits.bytes && m.usage[key].jobs <= limits.jobs
  }

  lemma LimitStep(m: Meter, op: Op, limits: Limits)
    requires WithinLimits(m, limits) && (op.Consume? ==> AtMost(op.limits, limits))
    ensures WithinLimits(Apply(m, op), limits)
  {
    var m1 := Apply(m, op);
    forall k | k in m1.usage ensures m1.usage[k].requests <= limits.requests && m1.usage[k].bytes <= limits.bytes && m1.usage[k].jobs <= limits.jobs {
    }
  }

  /** No counter ever exceeds its limit; if the limits change, it never exceeds any bound that they all
      keep to. */
  lemma {:induction false} QuotaIsNeverExceeded(m: Meter, ops: seq<Op>, limits: Limits)
    requires WithinLimits(m, limits) && forall i :: 0 <= i < |ops| && ops[i].Consume? ==> AtMost(ops[i].limits, limits)
    ensures WithinLimits(ApplyAll(m, ops), limits)
    decreases |ops|
  {
    if ops != [] {
      LimitStep(m, ops[0], limits);
      assert forall i :: 0 <= i < |ops[1..]| ==> ops[1..][i] == ops[i + 1];
      QuotaIsNeverExceeded(Apply(m, ops[0]), ops[1..], limits);
    }
  }

  lemma ChargeStep(m: Meter, op: Op, key: Key)
    ensures var c, c1 := CountersOf(m, key), CountersOf(Apply(m, op), key);
            if op.Consume? && op.key == key && Fits(m, op)
            then c1.requests == c.requests + 1 && c1.bytes == c.bytes + op.bytes && c1.jobs == c.jobs + op.jobs
            else c1 == c
  {
  }

  lemma OneAccepted(op: Op, rest: seq<Op>)
    requires op.Consume?
    ensures BytesOf([op] + rest) == op.bytes + BytesOf(rest) && JobsOf([op] + rest) == op.jobs + JobsOf(rest)
  {
    assert ([op] + rest)[1..] == rest;
  }

  /** Quota conservation: in every run the counters of a tenant and day are exactly the number of the
      accepted calls and the sums of their bytes and jobs. */
  lemma {:induction false} QuotaConservation(m: Meter, ops: seq<Op>, key: Key)
    ensures var c, c1, accepted := CountersOf(m, key), CountersOf(ApplyAll(m, ops), key), Accepted(m, ops, key);
            && c1.requests == c.requests + |accepted| && c1.bytes == c.bytes + BytesOf(accepted) && c1.jobs == c.jobs + JobsOf(accepted)
    decreases |ops|
  {
    if ops != [] {
      ChargeStep(m, ops[0], key);
      var m1, rest := Apply(m, ops[0]), ops[1..];
      QuotaConservation(m1, rest, key);
      if ops[0].Consume? { OneAccepted(ops[0], Accepted(m1, rest, key)); }
      assert [] + Accepted(m1, rest, key) == Accepted(m1, rest, key);
    }
  }

  /** Every statement was at most the counters when it was made. */
  predicate Backed(m: Meter) {
    forall key :: key in m.exports ==>
      && m.exports[key].usage.requests <= CountersOf(m, key).requests && m.exports[key].usage.bytes <= CountersOf(m, key).bytes
      && m.exports[key].usage.jobs <= CountersOf(m, key).jobs
  }

  predicate NonNegative(ops: seq<Op>) {
    forall i :: 0 <= i < |ops| && ops[i].Consume? ==> 0 <= ops[i].bytes && 0 <= ops[i].jobs
  }

  /** An export has read no more than the counters now show. */
  predicate ReadsBelow(m: Meter, op: Op) {
    op.Export? ==> AtMost(op.seen, CountersOf(m, op.key))
  }

  /** `at[i]` is the position at which the export ops[i] read the counters. */
  predicate Reads(m: Meter, ops: seq<Op>, at: seq<nat>) {
    |at| == |ops| && forall i :: 0 <= i < |ops| && ops[i].Export? ==>
                       at[i] <= i && ops[i].seen == CountersOf(ApplyAll(m, ops[..at[i]]), ops[i].key)
  }

  lemma ApplyAppend(m: Meter, a: seq<Op>, b: seq<Op>)
    ensures ApplyAll(m, a + b) == ApplyAll(ApplyAll(m, a), b)
    decreases |a|
  {
    if a == [] {
      assert a + b == b;
    } else {
      assert (a + b)[0] == a[0] && (a + b)[1..] == a[1..] + b;
      ApplyAppend(Apply(m, a[0]), a[1..], b);
    }
  }

  lemma {:induction false} CountersGrow(m: Meter, ops: seq<Op>, key: Key)
    requires NonNegative(ops)
    ensures AtMost(CountersOf(m, key), CountersOf(ApplyAll(m, ops), key))
    decreases |ops|
  {
    if ops != [] {
      assert forall i :: 0 <= i < |ops[1..]| ==> ops[1..][i] == ops[i + 1];
      CountersGrow(Apply(m, ops[0]), ops[1..], key);
    }
  }

  lemma ReadIsBelow(m: Meter, ops: seq<Op>, at: seq<nat>, i: nat)
    requires Reads(m, ops, at) && NonNegative(ops) && i < |ops|
    ensures ReadsBelow(ApplyAll(m, ops[..i]), ops[i])
  {
    if ops[i].Export? {
      assert ops[..i] == ops[..at[i]] + ops[at[i]..i];
      ApplyAppend(m, ops[..at[i]], ops[at[i]..i]);
      assert forall k :: 0 <= k < i - at[i] ==> ops[at[i]..i][k] == ops[at[i] + k];
      CountersGrow(ApplyAll(m, ops[..at[i]]), ops[at[i]..i], ops[i].key);
    }
  }

  lemma BackedStep(m: Meter, op: Op)
    requires Backed(m) && ReadsBelow(m, op) && (op.Consume? ==> 0 <= op.bytes && 0 <= op.jobs)
    ensures Backed(Apply(m, op))
    ensures forall key :: key in m.exports ==> key in Apply(m, op).exports && Apply(m, op).exports[key] == m.exports[key]
  {
    var m1 := Apply(m, op);
    forall key | key in m1.exports ensures AtMost(m1.exports[key].usage, CountersOf(m1, key)) {
      assert key in m.exports ==> AtMost(m.exports[key].usage, CountersOf(m, key));
    }
  }

  /** A billing statement never changes once exported, and stays a lower bound of the counters, even if
      calls are charged between the statement's read of the counters and its insertion. */
  lemma {:induction false} StatementsAreFixed(m: Meter, ops: seq<Op>, at: seq<nat>, n: nat)
    requires Backed(m) && NonNegative(ops) && Reads(m, ops, at) && n <= |ops|
    ensures Backed(ApplyAll(m, ops[..n]))
    ensures forall key :: key in m.exports ==>
                            key in ApplyAll(m, ops[..n]).exports && ApplyAll(m, ops[..n]).exports[key] == m.exports[key]
    decreases n
  {
    if n > 0 {
      StatementsAreFixed(m, ops, at, n - 1);
      ReadIsBelow(m, ops, at, n - 1);
      BackedStep(ApplyAll(m, ops[..n - 1]), ops[n - 1]);
      assert ops[..n] == ops[..n - 1] + [ops[n - 1]];
      ApplyAppend(m, ops[..n - 1], [ops[n - 1]]);
      assert [ops[n - 1]][1..] == [];
    }
  }

  datatype QuotaResult = Allowed | Exceeded

  datatype BillingResult = Billed(statement: Statement) | NotAdmin | BadDay

  class Meters {
    var usage: map<Key, Counters>
    var exports: map<Key, Statement>

    constructor ()
      ensures Contents() == EMPTY_METER
    {
      usage, exports := map[], map[];
    }

    function Contents(): Meter
      reads this
    {
      Meter(usage, exports)
    }

    /** Adds first and rolls back when a limit is passed, as the transaction does. */
    method ConsumeQuota(key: Key, bytes: int, jobs: int, limits: Limits) returns (result: QuotaResult)
      modifies this
      ensures Contents() == Apply(old(Contents()), Consume(key, bytes, jobs, limits))
      ensures result == Exceeded ==> Contents() == old(Contents())
      ensures var c := old(CountersOf(Contents(), key));
              && (result == Exceeded <==> c.requests + 1 > limits.requests || c.bytes + bytes > limits.bytes || c.jobs + jobs > limits.jobs)
              && (result == Allowed ==>
                    && exports == old(exports) && usage == old(usage)[key := Counters(c.requests + 1, c.bytes + bytes, c.jobs + jobs)])
    {
      var saved := usage;
      usage := if key !in usage then usage[key := Counters(1, bytes, jobs)]
               else usage[key := Counters(usage[key].requests + 1, usage[key].bytes + bytes, usage[key].jobs + jobs)];
      var row := usage[key];
      if row.requests > limits.requests || row.bytes > limits.bytes || row.jobs > limits.jobs {
        usage := saved;
        return Exceeded;
      }
      return Allowed;
    }

    /** What everybody else does. */
    method Interfere(ops: seq<Op>)
      modifies this
      ensures Contents() == ApplyAll(old(Contents()), ops)
    {
      var m := ApplyAll(Contents(), ops);
      usage, exports := m.usage, m.exports;
    }

    /** Reads the counters, and inserts the statement after `meanwhile` unless there is one. */
    method BillingUsage(key: Key, isAdmin: bool, validDay: bool, exportId: string, userId: string, now: real, meanwhile: seq<Op>)
      returns (result: BillingResult)
      modifies this
      ensures !isAdmin || !validDay ==> Contents() == old(Contents()) && result == if isAdmin then BadDay else NotAdmin
      ensures isAdmin && validDay ==>
                && Contents() == Apply(ApplyAll(old(Contents()), meanwhile), Export(key, CountersOf(old(Contents()), key), exportId, userId, now))
                && key in exports && result == Billed(exports[key])
                && (key !in ApplyAll(old(Contents()), meanwhile).exports ==>
                      exports[key] == Statement(exportId, old(CountersOf(Contents(), key)), userId, now))
      ensures result.Billed? && key in ApplyAll(old(Contents()), meanwhile).exports ==>
                result.statement == ApplyAll(old(Contents()), meanwhile).exports[key]
    {
      if !isAdmin {
        return NotAdmin;
      }
      if !validDay {
        return BadDay;
      }
      var statement := if key in usage then usage[key] else ZERO;
      Interfere(meanwhile);
      if key !in exports {
        exports := exports[key := Statement(exportId, statement, userId, now)];
      }
      return Billed(exports[key]);
    }
  }
}
