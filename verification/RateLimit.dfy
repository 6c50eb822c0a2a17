/** The sliding-window rate limiter of makepdf/web/ai_helpers.py: a pruned bucket that stands for the
    full history of accepted calls of a key. */
module RateLimit {
  const WINDOW := 3600.0
  const LIMIT := 20

  /** The specification keeps the whole history of accepted calls: `Recent` counts those in the closed
      window before `now`. */
  function Recent(history: seq<real>, now: real): nat {
    if history == [] then 0 else (if now - history[0] <= WINDOW then 1 else 0) + Recent(history[1..], now)
  }

  function Record(history: seq<real>, now: real): seq<real> {
    if Recent(history, now) < LIMIT then history + [now] else history
  }

  /** The bucket after old calls have been dropped from its front. */
  function Prune(bucket: seq<real>, now: real): seq<real> {
    if bucket != [] && now - bucket[0] > WINDOW then Prune(bucket[1..], now) else bucket
  }

  predicate Ascending(s: seq<real>) {
    |s| <= 1 || (s[|s| - 2] <= s[|s| - 1] && Ascending(s[..|s| - 1]))
  }

  predicate NotAfter(s: seq<real>, now: real) {
    s == [] || s[|s| - 1] <= now
  }

  /** Accepted call i + 20 is always more than an hour after accepted call i. */
  predicate Spaced(history: seq<real>) {
    |history| <= LIMIT ||
    (history[|history| - 1] - history[|history| - 1 - LIMIT] > WINDOW && Spaced(history[..|history| - 1]))
  }

  /** `bucket` is the part of the history that a clock reading of at least `t` can still see. */
  predicate Represents(bucket: seq<real>, history: seq<real>, t: real) {
    && Ascending(history) && NotAfter(history, t)
    && |bucket| <= |history| && bucket == history[|history| - |bucket|..]
    && (|bucket| < |history| ==> t - history[|history| - |bucket| - 1] > WINDOW)
  }

  lemma {:induction false} AscendingAt(s: seq<real>, i: nat, j: nat)
    requires Ascending(s) && i <= j < |s|
    ensures s[i] <= s[j]
    decreases |s|
  {
    var n := |s| - 1;
    if j < n {
      AscendingAt(s[..n], i, j);
    } else if i < n {
      AscendingAt(s[..n], i, n - 1);
    }
  }

  lemma {:induction false} SpacedAt(history: seq<real>, i: nat)
    requires Spaced(history) && i + LIMIT < |history|
    ensures history[i + LIMIT] - history[i] > WINDOW
    decreases |history|
  {
    if i + LIMIT < |history| - 1 { SpacedAt(history[..|history| - 1], i); }
  }

  /** All of a history from index k on, and nothing before it, is in the window. */
  lemma {:induction false} RecentIsSuffix(history: seq<real>, k: nat, now: real)
    requires k <= |history|
    requires forall i :: 0 <= i < k ==> now - history[i] > WINDOW
    requires forall i :: k <= i < |history| ==> now - history[i] <= WINDOW
    ensures Recent(history, now) == |history| - k
    decreases |history|
  {
    if history != [] { RecentIsSuffix(history[1..], if k == 0 then 0 else k - 1, now); }
  }

  lemma RecentOfAscending(history: seq<real>, k: nat, now: real)
    requires Ascending(history) && k <= |history|
    requires k > 0 ==> now - history[k - 1] > WINDOW
    requires k < |history| ==> now - history[k] <= WINDOW
    ensures Recent(history, now) == |history| - k
  {
    forall i | 0 <= i < k ensures now - history[i] > WINDOW { AscendingAt(history, i, k - 1); }
    forall i | k <= i < |history| ensures now - history[i] <= WINDOW { AscendingAt(history, k, i); }
    RecentIsSuffix(history, k, now);
  }

  /** Pruning gives exactly the in-window suffix of the full history. */
  lemma {:induction false} PruneIsWindow(bucket: seq<real>, history: seq<real>, t: real, now: real)
    requires Represents(bucket, history, t) && t <= now
    ensures Represents(Prune(bucket, now), history, now)
    ensures |Prune(bucket, now)| == Recent(history, now)
    decreases |bucket|
  {
    var k := |history| - |bucket|;
    if bucket != [] && now - bucket[0] > WINDOW {
      assert bucket[0] == history[k] && bucket[1..] == history[k + 1..];
      PruneIsWindow(bucket[1..], history, now, now);
    } else {
      assert bucket != [] ==> bucket[0] == history[k];
      RecentOfAscending(history, k, now);
    }
  }

  lemma RepresentsMore(bucket: seq<real>, history: seq<real>, now: real)
    requires Represents(bucket, history, now)
    ensures Represents(bucket + [now], history + [now], now)
  {
    assert (history + [now])[..|history|] == history;
    assert bucket + [now] == (history + [now])[|history| - |bucket|..];
  }

  lemma PruneShrinks(bucket: seq<real>, now: real)
    ensures |Prune(bucket, now)| <= |bucket|
  {
  }

  lemma {:induction false} RecentLowerBound(history: seq<real>, k: nat, now: real)
    requires k <= |history| && forall i :: k <= i < |history| ==> now - history[i] <= WINDOW
    ensures Recent(history, now) >= |history| - k
    decreases |history|
  {
    if history != [] { RecentLowerBound(history[1..], if k == 0 then 0 else k - 1, now); }
  }

  lemma RecordIsSpaced(history: seq<real>, now: real)
    requires Ascending(history) && NotAfter(history, now) && Spaced(history)
    ensures Spaced(Record(history, now)) && Ascending(Record(history, now)) && NotAfter(Record(history, now), now)
  {
    if Recent(history, now) < LIMIT {
      assert (history + [now])[..|history|] == history;
      if |history| >= LIMIT {
        var k := |history| - LIMIT;
        if now - history[k] <= WINDOW {
          forall i | k <= i < |history| ensures now - history[i] <= WINDOW { AscendingAt(history, k, i); }
          RecentLowerBound(history, k, now);
        }
      }
    }
  }

  /** The history of accepted calls after calls at the given times. */
  function RecordAll(times: seq<real>): seq<real> {
    if times == [] then [] else Record(RecordAll(times[..|times| - 1]), times[|times| - 1])
  }

  lemma {:induction false} RecordAllIsSpaced(times: seq<real>)
    requires Ascending(times)
    ensures Ascending(RecordAll(times)) && Spaced(RecordAll(times))
    ensures times != [] ==> NotAfter(RecordAll(times), times[|times| - 1])
    decreases |times|
  {
    if times != [] {
      var before, now := times[..|times| - 1], times[|times| - 1];
      RecordAllIsSpaced(before);
      assert before != [] ==> before[|before| - 1] <= now;
      RecordIsSpaced(RecordAll(before), now);
    }
  }

  /** Whatever the times of the calls, as long as the clock does not go back: accepted call i + 20 is
      always more than an hour after accepted call i. */
  lemma AcceptedCallsAreSpaced(times: seq<real>, i: nat)
    requires Ascending(times) && i + 20 < |RecordAll(times)|
    ensures RecordAll(times)[i + 20] - RecordAll(times)[i] > 3600.0
  {
    RecordAllIsSpaced(times);
    SpacedAt(RecordAll(times), i);
  }

  /** A refusal carries the time until the oldest call of the bucket is an hour old. */
  datatype Decision = Accepted | RetryAfter(seconds: real)

  /** A full window `wait` whole seconds later, and one more second later. */
  lemma WindowAfterWait(history: seq<real>, bucket: seq<real>, now: real, wait: int)
    requires Represents(bucket, history, now) && |bucket| == LIMIT && Recent(history, now) == LIMIT
    requires now - bucket[0] <= WINDOW && wait == (WINDOW - (now - bucket[0])).Floor
    ensures 0 <= wait <= 3600
    ensures Recent(history, now + wait as real) == LIMIT
    ensures Recent(history, now + wait as real + 1.0) < LIMIT
  {
    var k := |history| - LIMIT;
    assert bucket[0] == history[k];
    AscendingAt(history, k, |history| - 1);
    RecentOfAscending(history, k, now + wait as real);
    var later := now + wait as real + 1.0;
    PruneIsWindow(bucket, history, now, later);
    assert Prune(bucket, later) == Prune(bucket[1..], later);
    PruneShrinks(bucket[1..], later);
  }

  // ---------------------------------------------------------------- all keys

  /** The buckets of all keys and, for the specification, the full histories they stand for. */
  datatype Logs = Logs(log: map<string, seq<real>>, history: map<string, seq<real>>)

  const NO_LOGS := Logs(map[], map[])

  datatype CallAt = CallAt(key: string, now: real)

  function Get(m: map<string, seq<real>>, key: string): seq<real> {
    if key in m then m[key] else []
  }

  function NextBucket(bucket: seq<real>, now: real): seq<real> {
    if |Prune(bucket, now)| >= LIMIT then Prune(bucket, now) else Prune(bucket, now) + [now]
  }

  function Decide(bucket: seq<real>, now: real): Decision {
    var kept := Prune(bucket, now);
    if |kept| >= LIMIT then RetryAfter(WINDOW - (now - kept[0])) else Accepted
  }

  function Check(s: Logs, c: CallAt): Logs {
    Logs(s.log[c.key := NextBucket(Get(s.log, c.key), c.now)], s.history[c.key := Record(Get(s.history, c.key), c.now)])
  }

  /** The state after the first n calls. */
  function CheckAll(calls: seq<CallAt>, n: nat): Logs
    requires n <= |calls|
  {
    if n == 0 then NO_LOGS else Check(CheckAll(calls, n - 1), calls[n - 1])
  }

  /** The calls of the key among the first n have times in their order, none after `t`. */
  predicate InOrder(calls: seq<CallAt>, n: nat, key: string, t: real)
    requires n <= |calls|
  {
    && (forall i :: 0 <= i < n && calls[i].key == key ==> calls[i].now <= t)
    && (forall i, j :: 0 <= i < j < n && calls[i].key == key && calls[j].key == key ==> calls[i].now <= calls[j].now)
  }

  /** The call times of one key, in order. */
  function TimesOf(calls: seq<CallAt>, n: nat, key: string): seq<real>
    requires n <= |calls|
  {
    if n == 0 then []
    else TimesOf(calls, n - 1, key) + if calls[n - 1].key == key then [calls[n - 1].now] else []
  }

  /** The state of one key: its bucket stands for its history. */
  predicate KeyOk(bucket: seq<real>, history: seq<real>, t: real) {
    Represents(bucket, history, t) && |bucket| <= LIMIT
  }

  lemma KeyStep(bucket: seq<real>, full: seq<real>, t: real, now: real)
    requires KeyOk(bucket, full, t) && t <= now
    ensures |Prune(bucket, now)| == Recent(full, now) <= LIMIT
    ensures KeyOk(NextBucket(bucket, now), Record(full, now), now)
  {
    var kept := Prune(bucket, now);
    PruneIsWindow(bucket, full, t, now);
    PruneShrinks(bucket, now);
    RepresentsMore(kept, full, now);
    KeyNext(kept, NextBucket(bucket, now), full, Record(full, now), now);
  }

  lemma KeyNext(kept: seq<real>, next: seq<real>, full: seq<real>, longer: seq<real>, now: real)
    requires KeyOk(kept, full, now) && Represents(kept + [now], full + [now], now)
    requires next == if |kept| >= LIMIT then kept else kept + [now]
    requires longer == if |kept| >= LIMIT then full else full + [now]
    ensures KeyOk(next, longer, now)
  {
  }

  /** A clock that has moved on keeps a bucket right. */
  lemma KeyLater(bucket: seq<real>, history: seq<real>, t: real, now: real)
    requires KeyOk(bucket, history, t) && t <= now
    ensures KeyOk(bucket, history, now)
  {
  }

  predicate LogOk(s: Logs, key: string, t: real) {
    KeyOk(Get(s.log, key), Get(s.history, key), t)
  }

  lemma CheckOneKey(s: Logs, c: CallAt, t: real)
    requires LogOk(s, c.key, c.now) && c.now <= t
    ensures LogOk(Check(s, c), c.key, t)
  {
    KeyStep(Get(s.log, c.key), Get(s.history, c.key), c.now, c.now);
    KeyLater(Get(Check(s, c).log, c.key), Get(Check(s, c).history, c.key), c.now, t);
  }

  lemma NothingLogged(key: string, t: real)
    ensures LogOk(NO_LOGS, key, t)
  {
    assert Get(map[], key) == [];
  }

  lemma InOrderBefore(calls: seq<CallAt>, n: nat, key: string, t: real)
    requires n < |calls| && InOrder(calls, n + 1, key, t)
    ensures InOrder(calls, n, key, t)
    ensures calls[n].key == key ==> calls[n].now <= t && InOrder(calls, n, key, calls[n].now)
  {
  }

  lemma OtherKey(s: Logs, c: CallAt, key: string, t: real)
    requires c.key != key && LogOk(s, key, t)
    ensures LogOk(Check(s, c), key, t)
  {
  }

  lemma {:induction false} KeysStayOk(calls: seq<CallAt>, n: nat, key: string, t: real)
    requires n <= |calls| && InOrder(calls, n, key, t)
    ensures LogOk(CheckAll(calls, n), key, t)
    decreases n
  {
    if n == 0 {
      NothingLogged(key, t);
    } else {
      InOrderBefore(calls, n - 1, key, t);
      if calls[n - 1].key == key {
        KeysStayOk(calls, n - 1, key, calls[n - 1].now);
        CheckOneKey(CheckAll(calls, n - 1), calls[n - 1], t);
      } else {
        KeysStayOk(calls, n - 1, key, t);
        OtherKey(CheckAll(calls, n - 1), calls[n - 1], key, t);
      }
    }
  }

  lemma RecordOneMore(times: seq<real>, now: real)
    ensures RecordAll(times + [now]) == Record(RecordAll(times), now)
  {
    assert (times + [now])[..|times|] == times;
  }

  lemma OneMoreCall(s: Logs, c: CallAt, key: string, times: seq<real>)
    requires Get(s.history, key) == RecordAll(times)
    ensures Get(Check(s, c).history, key) == RecordAll(if c.key == key then times + [c.now] else times)
  {
    RecordOneMore(times, c.now);
  }

  lemma {:induction false} HistoryIsRecorded(calls: seq<CallAt>, n: nat, key: string)
    requires n <= |calls|
    ensures Get(CheckAll(calls, n).history, key) == RecordAll(TimesOf(calls, n, key))
    decreases n
  {
    if n > 0 {
      HistoryIsRecorded(calls, n - 1, key);
      OneMoreCall(CheckAll(calls, n - 1), calls[n - 1], key, TimesOf(calls, n - 1, key));
      assert TimesOf(calls, n, key) ==
             if calls[n - 1].key == key then TimesOf(calls, n - 1, key) + [calls[n - 1].now] else TimesOf(calls, n - 1, key);
    }
  }

  /** The pruned buckets decide as the full histories would: as long as the clock does not go back between
      the calls of one key, a call is accepted exactly when fewer than 20 accepted calls of its key lie in
      the closed last hour. */
  lemma BucketsRefineHistory(calls: seq<CallAt>, n: nat, c: CallAt)
    requires n <= |calls| && InOrder(calls, n, c.key, c.now)
    ensures Decide(Get(CheckAll(calls, n).log, c.key), c.now) == Accepted <==>
            Recent(RecordAll(TimesOf(calls, n, c.key)), c.now) < 20
  {
    KeysStayOk(calls, n, c.key, c.now);
    HistoryIsRecorded(calls, n, c.key);
    KeyStep(Get(CheckAll(calls, n).log, c.key), Get(CheckAll(calls, n).history, c.key), c.now, c.now);
  }

  lemma KeyIsOk(calls: seq<CallAt>, n: nat, c: CallAt)
    requires n <= |calls| && InOrder(calls, n, c.key, c.now)
    ensures KeyOk(Get(CheckAll(calls, n).log, c.key), RecordAll(TimesOf(calls, n, c.key)), c.now)
  {
    KeysStayOk(calls, n, c.key, c.now);
    HistoryIsRecorded(calls, n, c.key);
  }

  lemma PruneRepresents(bucket: seq<real>, full: seq<real>, now: real)
    requires KeyOk(bucket, full, now)
    ensures Represents(Prune(bucket, now), full, now) && |Prune(bucket, now)| == Recent(full, now)
    ensures Prune(bucket, now) != [] ==> now - Prune(bucket, now)[0] <= WINDOW
  {
    PruneIsWindow(bucket, full, now, now);
    PruneStops(bucket, now);
  }

  lemma {:induction false} PruneStops(bucket: seq<real>, now: real)
    ensures Prune(bucket, now) != [] ==> now - Prune(bucket, now)[0] <= WINDOW
    decreases |bucket|
  {
    if bucket != [] && now - bucket[0] > WINDOW { PruneStops(bucket[1..], now); }
  }

  predicate Refused(bucket: seq<real>, now: real, wait: int) {
    Decide(bucket, now).RetryAfter? && wait == Decide(bucket, now).seconds.Floor
  }

  /** A refused call is told the whole seconds until the oldest call of its window is an hour old. After
      exactly that many seconds the window is still full, and one second later it is not. */
  lemma AdviceIsOneSecondShort(calls: seq<CallAt>, n: nat, c: CallAt, wait: int)
    requires n <= |calls| && InOrder(calls, n, c.key, c.now)
    requires Refused(Get(CheckAll(calls, n).log, c.key), c.now, wait)
    ensures 0 <= wait <= 3600
    ensures Recent(RecordAll(TimesOf(calls, n, c.key)), c.now + wait as real) == LIMIT
    ensures Recent(RecordAll(TimesOf(calls, n, c.key)), c.now + wait as real + 1.0) < LIMIT
  {
    var bucket, full := Get(CheckAll(calls, n).log, c.key), RecordAll(TimesOf(calls, n, c.key));
    KeyIsOk(calls, n, c);
    RefusedBucket(bucket, full, c.now, wait);
  }

  lemma RefusedBucket(bucket: seq<real>, full: seq<real>, now: real, wait: int)
    requires KeyOk(bucket, full, now) && Refused(bucket, now, wait)
    ensures 0 <= wait <= 3600
    ensures Recent(full, now + wait as real) == LIMIT && Recent(full, now + wait as real + 1.0) < LIMIT
  {
    KeyStep(bucket, full, now, now);
    PruneRepresents(bucket, full, now);
    WindowAfterWait(full, Prune(bucket, now), now, wait);
  }

  // ---------------------------------------------------------------- any clock

  /** The times at which calls of the key were accepted. */
  function AcceptedOf(calls: seq<CallAt>, n: nat, key: string): seq<real>
    requires n <= |calls|
  {
    if n == 0 then []
    else
      AcceptedOf(calls, n - 1, key)
      + if calls[n - 1].key == key && Decide(Get(CheckAll(calls, n - 1).log, key), calls[n - 1].now) == Accepted
        then [calls[n - 1].now] else []
  }

  predicate EndsWith(all: seq<real>, part: seq<real>) {
    |part| <= |all| && part == all[|all| - |part|..]
  }

  lemma {:induction false} PruneIsSuffix(all: seq<real>, bucket: seq<real>, now: real)
    requires EndsWith(all, bucket)
    ensures EndsWith(all, Prune(bucket, now))
    decreases |bucket|
  {
    if bucket != [] && now - bucket[0] > WINDOW {
      assert bucket[1..] == all[|all| - |bucket[1..]|..];
      PruneIsSuffix(all, bucket[1..], now);
    }
  }

  lemma OneMoreEndsWith(all: seq<real>, part: seq<real>, now: real)
    requires EndsWith(all, part)
    ensures EndsWith(all + [now], part + [now])
  {
    assert part + [now] == (all + [now])[|all| - |part|..];
  }

  /** The bucket is the end of the accepted calls, whatever the clock does. */
  lemma {:induction false} BucketIsSuffix(calls: seq<CallAt>, n: nat, key: string)
    requires n <= |calls|
    ensures EndsWith(AcceptedOf(calls, n, key), Get(CheckAll(calls, n).log, key))
    decreases n
  {
    if n > 0 {
      BucketIsSuffix(calls, n - 1, key);
      if calls[n - 1].key == key {
        NextIsSuffix(AcceptedOf(calls, n - 1, key), Get(CheckAll(calls, n - 1).log, key), calls[n - 1].now);
      } else {
        assert AcceptedOf(calls, n, key) == AcceptedOf(calls, n - 1, key);
      }
    }
  }

  lemma NextIsSuffix(all: seq<real>, bucket: seq<real>, now: real)
    requires EndsWith(all, bucket)
    ensures EndsWith(all + (if Decide(bucket, now) == Accepted then [now] else []), NextBucket(bucket, now))
  {
    PruneIsSuffix(all, bucket, now);
    OneMoreEndsWith(all, Prune(bucket, now), now);
    assert all + [] == all;
  }

  /** The number of times that are at most `age` seconds before `now`. */
  function Within(times: seq<real>, now: real, age: real): nat {
    if times == [] then 0 else (if now - times[0] <= age then 1 else 0) + Within(times[1..], now, age)
  }

  lemma RecentIsWithin(times: seq<real>, now: real)
    ensures Recent(times, now) == Within(times, now, WINDOW)
  {
  }

  lemma WithinAppend(a: seq<real>, b: seq<real>, now: real, age: real)
    ensures Within(a + b, now, age) == Within(a, now, age) + Within(b, now, age)
  {
    if a == [] {
      assert a + b == b;
    } else {
      assert (a + b)[1..] == a[1..] + b;
      WithinAppend(a[1..], b, now, age);
    }
  }

  lemma {:induction false} AllWithin(times: seq<real>, now: real, age: real)
    requires forall i :: 0 <= i < |times| ==> now - times[i] <= age
    ensures Within(times, now, age) == |times|
    decreases |times|
  {
    if times != [] { AllWithin(times[1..], now, age); }
  }

  lemma {:induction false} NoneWithin(times: seq<real>, now: real, age: real)
    requires forall i :: 0 <= i < |times| ==> now - times[i] > age
    ensures Within(times, now, age) == 0
    decreases |times|
  {
    if times != [] { NoneWithin(times[1..], now, age); }
  }

  lemma WithinGrows(times: seq<real>, now: real, a: real, b: real)
    requires a <= b
    ensures Within(times, now, a) <= Within(times, now, b)
  {
  }

  /** Between two calls of the key the clock never goes back by more than `back` seconds. */
  predicate Steady(calls: seq<CallAt>, n: nat, key: string, now: real, back: real)
    requires n <= |calls|
  {
    && 0.0 <= back
    && (forall i :: 0 <= i < n && calls[i].key == key ==> calls[i].now - back <= now)
    && (forall i, j :: 0 <= i < j < n && calls[i].key == key && calls[j].key == key ==> calls[i].now - back <= calls[j].now)
  }

  /** Some call of the key so far was more than an hour after `x`. */
  predicate Outdated(calls: seq<CallAt>, n: nat, key: string, x: real)
    requires n <= |calls|
  {
    exists m :: 0 <= m < n && calls[m].key == key && calls[m].now - x > WINDOW
  }

  lemma {:induction false} PrunedAreOld(bucket: seq<real>, now: real, i: nat)
    requires i < |bucket| - |Prune(bucket, now)|
    ensures now - bucket[i] > WINDOW
    decreases |bucket|
  {
    if i > 0 { PrunedAreOld(bucket[1..], now, i - 1); }
  }

  lemma StillOutdated(calls: seq<CallAt>, n: nat, key: string, x: real)
    requires n < |calls| && (Outdated(calls, n, key, x) || (calls[n].key == key && calls[n].now - x > WINDOW))
    ensures Outdated(calls, n + 1, key, x)
  {
  }

  /** What has been dropped was outdated for some call. */
  lemma {:induction false} DroppedAreOutdated(calls: seq<CallAt>, n: nat, key: string, i: nat)
    requires n <= |calls| && i < |AcceptedOf(calls, n, key)| - |Get(CheckAll(calls, n).log, key)|
    ensures Outdated(calls, n, key, AcceptedOf(calls, n, key)[i])
    decreases n
  {
    var all, bucket := AcceptedOf(calls, n - 1, key), Get(CheckAll(calls, n - 1).log, key);
    BucketIsSuffix(calls, n - 1, key);
    if calls[n - 1].key == key {
      DroppedOneMore(all, bucket, calls[n - 1].now);
      assert AcceptedOf(calls, n, key)[i] == all[i];
    }
    if i < |all| - |bucket| {
      DroppedAreOutdated(calls, n - 1, key, i);
    } else {
      PrunedIsOld(all, bucket, calls[n - 1].now, i);
    }
    StillOutdated(calls, n - 1, key, all[i]);
  }

  lemma PrunedIsOld(all: seq<real>, bucket: seq<real>, now: real, i: nat)
    requires EndsWith(all, bucket) && |all| - |bucket| <= i < |all| - |Prune(bucket, now)|
    ensures now - all[i] > WINDOW
  {
    PrunedAreOld(bucket, now, i - (|all| - |bucket|));
    assert bucket[i - (|all| - |bucket|)] == all[i];
  }

  lemma DroppedOneMore(all: seq<real>, bucket: seq<real>, now: real)
    requires EndsWith(all, bucket)
    ensures var more := all + (if Decide(bucket, now) == Accepted then [now] else []);
            && |more| - |NextBucket(bucket, now)| == |all| - |Prune(bucket, now)|
            && more[..|all|] == all
  {
  }

  lemma AcceptedOneMore(calls: seq<CallAt>, n: nat, key: string)
    requires n < |calls|
    ensures var before, after := AcceptedOf(calls, n, key), AcceptedOf(calls, n + 1, key);
            after == before || (calls[n].key == key && after == before + [calls[n].now])
  {
    assert AcceptedOf(calls, n, key) + [] == AcceptedOf(calls, n, key);
  }

  lemma {:induction false} AcceptedAreCalls(calls: seq<CallAt>, n: nat, key: string, i: nat) returns (m: nat)
    requires n <= |calls| && i < |AcceptedOf(calls, n, key)|
    ensures m < n && calls[m].key == key && calls[m].now == AcceptedOf(calls, n, key)[i]
    decreases n
  {
    AcceptedOneMore(calls, n - 1, key);
    if i < |AcceptedOf(calls, n - 1, key)| {
      m := AcceptedAreCalls(calls, n - 1, key, i);
    } else {
      m := n - 1;
    }
  }

  /** The accepted times go back no further than the clock. */
  lemma {:induction false} AcceptedAreSteady(calls: seq<CallAt>, n: nat, key: string, now: real, back: real, i: nat, j: nat)
    requires n <= |calls| && Steady(calls, n, key, now, back) && i < j < |AcceptedOf(calls, n, key)|
    ensures AcceptedOf(calls, n, key)[i] - back <= AcceptedOf(calls, n, key)[j]
    decreases n
  {
    var before := AcceptedOf(calls, n - 1, key);
    AcceptedOneMore(calls, n - 1, key);
    if j < |before| {
      SteadyBefore(calls, n - 1, key, now, back);
      AcceptedAreSteady(calls, n - 1, key, now, back, i, j);
    } else {
      var m := AcceptedAreCalls(calls, n - 1, key, i);
      SteadyPair(calls, n, key, now, back, m, n - 1);
    }
  }

  lemma SteadyBefore(calls: seq<CallAt>, n: nat, key: string, now: real, back: real)
    requires n < |calls| && Steady(calls, n + 1, key, now, back)
    ensures Steady(calls, n, key, now, back)
  {
  }

  lemma SteadyPair(calls: seq<CallAt>, n: nat, key: string, now: real, back: real, i: nat, j: nat)
    requires n <= |calls| && Steady(calls, n, key, now, back) && i < j < n && calls[i].key == key && calls[j].key == key
    ensures calls[i].now - back <= calls[j].now
  {
  }

  lemma KeptIsNear(calls: seq<CallAt>, n: nat, c: CallAt, back: real, first: nat, j: nat)
    requires n <= |calls| && Steady(calls, n, c.key, c.now, back)
    requires first == |AcceptedOf(calls, n, c.key)| - |Prune(Get(CheckAll(calls, n).log, c.key), c.now)|
    requires first <= j < |AcceptedOf(calls, n, c.key)|
    ensures c.now - AcceptedOf(calls, n, c.key)[j] <= WINDOW + back
  {
    var all, bucket := AcceptedOf(calls, n, c.key), Get(CheckAll(calls, n).log, c.key);
    BucketIsSuffix(calls, n, c.key);
    PruneIsSuffix(all, bucket, c.now);
    PruneStops(bucket, c.now);
    if j > first { AcceptedAreSteady(calls, n, c.key, c.now, back, first, j); }
  }

  lemma KeptIsSuffix(calls: seq<CallAt>, n: nat, c: CallAt)
    requires n <= |calls|
    ensures |Prune(Get(CheckAll(calls, n).log, c.key), c.now)| <= |AcceptedOf(calls, n, c.key)|
  {
    BucketIsSuffix(calls, n, c.key);
    PruneIsSuffix(AcceptedOf(calls, n, c.key), Get(CheckAll(calls, n).log, c.key), c.now);
  }

  /** What the limiter keeps lies between the accepted calls that a clock so far back could still see and
      those that a clock so far ahead could. */
  lemma KeptIsBetween(calls: seq<CallAt>, n: nat, c: CallAt, back: real)
    requires n <= |calls| && Steady(calls, n, c.key, c.now, back)
    ensures var all, kept := AcceptedOf(calls, n, c.key), Prune(Get(CheckAll(calls, n).log, c.key), c.now);
            Within(all, c.now, WINDOW - back) <= |kept| <= Within(all, c.now, WINDOW + back)
  {
    var all := AcceptedOf(calls, n, c.key);
    KeptIsSuffix(calls, n, c);
    var first := |all| - |Prune(Get(CheckAll(calls, n).log, c.key), c.now)|;
    forall i | 0 <= i < first ensures c.now - all[i] > WINDOW - back { DroppedIsFar(calls, n, c, back, i); }
    forall j | first <= j < |all| ensures c.now - all[j] <= WINDOW + back { KeptIsNear(calls, n, c, back, first, j); }
    CountBetween(all, first, c.now, WINDOW - back, WINDOW + back);
  }

  lemma CountBetween(all: seq<real>, first: nat, now: real, a: real, b: real)
    requires first <= |all|
    requires forall i :: 0 <= i < first ==> now - all[i] > a
    requires forall j :: first <= j < |all| ==> now - all[j] <= b
    ensures Within(all, now, a) <= |all| - first <= Within(all, now, b)
  {
    var dropped, kept := all[..first], all[first..];
    assert all == dropped + kept;
    NoneWithin(dropped, now, a);
    AllWithin(kept, now, b);
    WithinAppend(dropped, kept, now, a);
    WithinAppend(dropped, kept, now, b);
    WithinAtMost(kept, now, a);
  }

  lemma WithinAtMost(times: seq<real>, now: real, age: real)
    ensures Within(times, now, age) <= |times|
  {
  }

  lemma DroppedIsFar(calls: seq<CallAt>, n: nat, c: CallAt, back: real, i: nat)
    requires n <= |calls| && Steady(calls, n, c.key, c.now, back)
    requires i < |AcceptedOf(calls, n, c.key)| - |Prune(Get(CheckAll(calls, n).log, c.key), c.now)|
    ensures c.now - AcceptedOf(calls, n, c.key)[i] > WINDOW - back
  {
    var all, bucket := AcceptedOf(calls, n, c.key), Get(CheckAll(calls, n).log, c.key);
    BucketIsSuffix(calls, n, c.key);
    if i < |all| - |bucket| {
      DroppedAreOutdated(calls, n, c.key, i);
    } else {
      PrunedIsOld(all, bucket, c.now, i);
    }
  }

  /** With a clock that goes back by at most `back` seconds the limiter errs by at most that much: it accepts
      a call whenever fewer than 20 accepted calls lie in the last hour and `back` seconds, and refuses it
      whenever 20 lie in the last hour less `back` seconds. So it decides as the full history would unless
      some accepted call is an hour old within `back` seconds. */
  lemma ClockMayGoBack(calls: seq<CallAt>, n: nat, c: CallAt, back: real)
    requires n <= |calls| && Steady(calls, n, c.key, c.now, back)
    ensures var all, d := AcceptedOf(calls, n, c.key), Decide(Get(CheckAll(calls, n).log, c.key), c.now);
            && (Within(all, c.now, WINDOW + back) < LIMIT ==> d == Accepted)
            && (Within(all, c.now, WINDOW - back) >= LIMIT ==> d != Accepted)
            && ((forall i :: 0 <= i < |all| ==> c.now - all[i] <= WINDOW - back || WINDOW + back < c.now - all[i]) ==>
                  (d == Accepted <==> Recent(all, c.now) < LIMIT))
  {
    var all := AcceptedOf(calls, n, c.key);
    KeptIsBetween(calls, n, c, back);
    RecentIsWithin(all, c.now);
    WithinGrows(all, c.now, WINDOW - back, WINDOW);
    WithinGrows(all, c.now, WINDOW, WINDOW + back);
    if forall i :: 0 <= i < |all| ==> c.now - all[i] <= WINDOW - back || WINDOW + back < c.now - all[i] {
      NoneBetween(all, c.now, WINDOW - back, WINDOW + back);
    }
  }

  lemma {:induction false} NoneBetween(times: seq<real>, now: real, a: real, b: real)
    requires a <= b && forall i :: 0 <= i < |times| ==> now - times[i] <= a || b < now - times[i]
    ensures Within(times, now, a) == Within(times, now, b)
    decreases |times|
  {
    if times != [] { NoneBetween(times[1..], now, a, b); }
  }

  // ---------------------------------------------------------------- two clocks that go back

  /** n more calls at the time x. */
  function MoreCalls(first: seq<CallAt>, n: nat, x: real): seq<CallAt> {
    if n == 0 then first else MoreCalls(first, n - 1, x) + [CallAt("k", x)]
  }

  function MoreTimes(first: seq<real>, n: nat, x: real): (times: seq<real>)
    ensures |times| == |first| + n
  {
    if n == 0 then first else MoreTimes(first, n - 1, x) + [x]
  }

  lemma {:induction false} SamePrefix(calls: seq<CallAt>, c: CallAt, n: nat, key: string)
    requires n <= |calls|
    ensures CheckAll(calls + [c], n) == CheckAll(calls, n) && AcceptedOf(calls + [c], n, key) == AcceptedOf(calls, n, key)
    decreases n
  {
    if n > 0 { SamePrefix(calls, c, n - 1, key); }
  }

  /** The bucket and the accepted calls of the key "k" after all calls. */
  ghost predicate Leaves(calls: seq<CallAt>, bucket: seq<real>, all: seq<real>) {
    Get(CheckAll(calls, |calls|).log, "k") == bucket && AcceptedOf(calls, |calls|, "k") == all
  }

  lemma AcceptsNext(calls: seq<CallAt>, bucket: seq<real>, all: seq<real>, now: real)
    requires Leaves(calls, bucket, all) && |Prune(bucket, now)| < LIMIT
    ensures Leaves(calls + [CallAt("k", now)], Prune(bucket, now) + [now], all + [now])
  {
    SamePrefix(calls, CallAt("k", now), |calls|, "k");
  }

  lemma {:induction false} FrontStays(first: seq<real>, n: nat, x: real)
    requires first == [] || x - first[0] <= WINDOW
    ensures Prune(MoreTimes(first, n, x), x) == MoreTimes(first, n, x)
    ensures n > 0 || first != [] ==> MoreTimes(first, n, x)[0] == (first + [x])[0]
    decreases n
  {
    if n > 0 { FrontStays(first, n - 1, x); }
  }

  /** n accepted calls at the same time, after others. */
  lemma {:induction false} ManyAccepted(first: seq<CallAt>, times: seq<real>, n: nat, x: real)
    requires Leaves(first, times, times) && |times| + n <= LIMIT && (times == [] || x - times[0] <= WINDOW)
    ensures Leaves(MoreCalls(first, n, x), MoreTimes(times, n, x), MoreTimes(times, n, x))
    decreases n
  {
    if n > 0 {
      ManyAccepted(first, times, n - 1, x);
      FrontStays(times, n - 1, x);
      AcceptsNext(MoreCalls(first, n - 1, x), MoreTimes(times, n - 1, x), MoreTimes(times, n - 1, x), x);
    }
  }

  lemma {:induction false} MoreWithin(first: seq<real>, n: nat, x: real, now: real)
    ensures Within(MoreTimes(first, n, x), now, WINDOW) == Within(first, now, WINDOW) + if now - x <= WINDOW then n else 0
    decreases n
  {
    if n > 0 {
      MoreWithin(first, n - 1, x, now);
      WithinAppend(MoreTimes(first, n - 1, x), [x], now, WINDOW);
      assert Within([x], now, WINDOW) == if now - x <= WINDOW then 1 else 0;
    }
  }

  lemma {:induction false} PrunesAll(bucket: seq<real>, now: real)
    requires forall i :: 0 <= i < |bucket| ==> now - bucket[i] > WINDOW
    ensures Prune(bucket, now) == []
    decreases |bucket|
  {
    if bucket != [] { PrunesAll(bucket[1..], now); }
  }

  lemma {:induction false} CopyAt(n: nat, x: real, i: nat)
    requires i < n
    ensures MoreTimes([], n, x)[i] == x
    decreases n
  {
    if i < n - 1 { CopyAt(n - 1, x, i); }
  }

  /** One call, then the clock goes back by 3700 seconds for 19 more, and then it is right again: a call is
      refused although only one accepted call lies in the last hour. */
  lemma ClockStepRefuses(n: nat)
    requires n == LIMIT - 1
    ensures var calls := MoreCalls([CallAt("k", 4000.0)], n, 300.0);
            && Decide(Get(CheckAll(calls, |calls|).log, "k"), 4000.0) != Accepted
            && Recent(AcceptedOf(calls, |calls|, "k"), 4000.0) == 1
  {
    var first, times := [CallAt("k", 4000.0)], [4000.0];
    AcceptsNext([], [], [], 4000.0);
    assert [] + first == first && Prune([], 4000.0) + [4000.0] == times;
    ManyAccepted(first, times, n, 300.0);
    MoreWithin(times, n, 300.0, 4000.0);
    assert Within(times, 4000.0, WINDOW) == 1;
    RecentIsWithin(MoreTimes(times, n, 300.0), 4000.0);
    StaysFull(times, n);
  }

  lemma {:induction false} StaysFull(times: seq<real>, n: nat)
    requires times == [4000.0]
    ensures Prune(MoreTimes(times, n, 300.0), 4000.0) == MoreTimes(times, n, 300.0) && MoreTimes(times, n, 300.0)[0] == 4000.0
    decreases n
  {
    if n > 0 { StaysFull(times, n - 1); }
  }

  /** Twenty calls, one with a clock that is 5000 seconds ahead, and then the clock is right again: a call is
      accepted although twenty accepted calls lie in the last hour. */
  lemma ClockStepAccepts(n: nat)
    requires n == LIMIT
    ensures var calls := MoreCalls([], n, 0.0) + [CallAt("k", 5000.0)];
            && Decide(Get(CheckAll(calls, |calls|).log, "k"), 100.0) == Accepted
            && Recent(AcceptedOf(calls, |calls|, "k"), 100.0) >= LIMIT
  {
    var times := MoreTimes([], n, 0.0);
    ManyAccepted([], [], n, 0.0);
    forall i | 0 <= i < |times| ensures 5000.0 - times[i] > WINDOW { CopyAt(n, 0.0, i); }
    PrunesAll(times, 5000.0);
    AcceptsNext(MoreCalls([], n, 0.0), times, times, 5000.0);
    MoreWithin([], n, 0.0, 100.0);
    WithinAppend(times, [5000.0], 100.0, WINDOW);
    RecentIsWithin(times + [5000.0], 100.0);
  }

  /** The limiter itself, with its full histories as a ghost. */
  class Limiter {
    var log: map<string, seq<real>>
    ghost var history: map<string, seq<real>>

    constructor ()
      ensures Contents() == NO_LOGS
    {
      log, history := map[], map[];
    }

    ghost function Contents(): Logs
      reads this
    {
      Logs(log, history)
    }

    method RateCheck(key: string, now: real) returns (d: Decision)
      modifies this
      ensures Contents() == Check(old(Contents()), CallAt(key, now))
      ensures d == Decide(Get(old(log), key), now)
    {
      var bucket := DropOld(Get(log, key), now);
      if |bucket| >= LIMIT {
        d := RetryAfter(WINDOW - (now - bucket[0]));
      } else {
        d := Accepted;
        bucket := bucket + [now];
      }
      log, history := log[key := bucket], history[key := Record(Get(history, key), now)];
    }

    method DropOld(all: seq<real>, now: real) returns (bucket: seq<real>)
      ensures bucket == Prune(all, now)
    {
      bucket := all;
      while bucket != [] && now - bucket[0] > WINDOW
        invariant Prune(bucket, now) == Prune(all, now)
        decreases |bucket|
      {
        bucket := bucket[1..];
      }
    }
  }
}
