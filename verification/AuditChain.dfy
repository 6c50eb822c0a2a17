/** The audit hash chain: append_audit builds it, verify_database checks it.

    The hash is any function to strings without the separator; nothing else is assumed of it. What
    depends on its strength is stated as "or here is a collision (or a preimage of the genesis value)". */
module AuditChain {
  import opened Text

  type Hash = string -> string

  function Zeros(n: nat): (s: string)
    ensures |s| == n && forall c <- s :: c == '0'
  {
    if n == 0 then "" else "0" + Zeros(n - 1)
  }

  const GENESIS: string := Zeros(64)

  /** The fields given to append_audit; `body` is the JSON text of the details and `createdAt` the
      decimal rendering of the clock. */
  datatype Fields = Fields(tenantId: string, userId: string, action: string, resourceType: string, resourceId: string,
                           body: string, createdAt: string)

  datatype Event = Event(fields: Fields, previousHash: string, eventHash: string)

  function Join(parts: seq<string>): string {
    if parts == [] then "" else if |parts| == 1 then parts[0] else parts[0] + "|" + Join(parts[1..])
  }

  function Parts(p: string, f: Fields): seq<string> {
    [p, f.tenantId, f.userId, f.action, f.resourceType, f.resourceId, f.body, f.createdAt]
  }

  function Material(previous: string, f: Fields): string {
    Join(Parts(previous, f))
  }

  /** What append_audit stores as the hash of an event, given the hash before it and the fields. */
  type Digest = (string, Fields) -> string

  function DigestOf(hash: Hash): Digest {
    (previous, f) => hash(Material(previous, f))
  }

  /** The hash that the event after the first n refers to. */
  function HashAfter(log: seq<Event>, n: nat): string
    requires n <= |log|
  {
    if n == 0 then GENESIS else log[n - 1].eventHash
  }

  function LastHash(log: seq<Event>): string {
    HashAfter(log, |log|)
  }

  function Append(digest: Digest, log: seq<Event>, f: Fields): seq<Event> {
    log + [Event(f, LastHash(log), digest(LastHash(log), f))]
  }

  /** The log after append_audit was called with the first n of the fields. */
  function Build(digest: Digest, entries: seq<Fields>, n: nat): seq<Event>
    requires n <= |entries|
  {
    if n == 0 then [] else Append(digest, Build(digest, entries, n - 1), entries[n - 1])
  }

  predicate Linked(digest: Digest, previous: string, e: Event) {
    e.previousHash == previous && digest(previous, e.fields) == e.eventHash
  }

  predicate LinkedAt(digest: Digest, log: seq<Event>, i: nat)
    requires i < |log|
  {
    Linked(digest, HashAfter(log, i), log[i])
  }

  predicate Accepted(digest: Digest, log: seq<Event>) {
    forall i :: 0 <= i < |log| ==> LinkedAt(digest, log, i)
  }

  /** The hashed text: the hash before and the seven fields in the order of the table, with bars between. */
  lemma MaterialText(previous: string, f: Fields)
    ensures Material(previous, f) ==
            previous + "|" + (f.tenantId + "|" + (f.userId + "|" + (f.action + "|" + (f.resourceType + "|" + (f.resourceId + "|" + (f.body + "|" + f.createdAt))))))
  {
    var p := Parts(previous, f);
    assert p[7..] == [f.createdAt];
    JoinOnce(p, 6);
    JoinOnce(p, 5);
    JoinOnce(p, 4);
    JoinOnce(p, 3);
    JoinOnce(p, 2);
    JoinOnce(p, 1);
    JoinOnce(p, 0);
    assert p[0..] == p;
  }

  lemma JoinOnce(parts: seq<string>, k: nat)
    requires k + 1 < |parts|
    ensures Join(parts[k..]) == parts[k] + "|" + Join(parts[k + 1..])
  {
    assert parts[k..][1..] == parts[k + 1..];
  }

  /** The first event refers to 64 zeros, and every other to the hash of the event before it. */
  lemma RefersTo(digest: Digest, log: seq<Event>, i: nat)
    requires Accepted(digest, log) && i < |log|
    ensures i == 0 ==> |log[0].previousHash| == 64 && forall c <- log[0].previousHash :: c == '0'
    ensures i > 0 ==> log[i].previousHash == log[i - 1].eventHash
    ensures log[i].eventHash == digest(log[i].previousHash, log[i].fields)
  {
    assert LinkedAt(digest, log, i);
  }

  // ---------------------------------------------------------------- what is accepted

  lemma AppendIsAccepted(digest: Digest, log: seq<Event>, f: Fields)
    requires Accepted(digest, log)
    ensures Accepted(digest, Append(digest, log, f))
  {
    var longer := Append(digest, log, f);
    forall i | 0 <= i < |longer| ensures LinkedAt(digest, longer, i) {
      assert HashAfter(longer, i) == HashAfter(log, i);
      assert i < |log| ==> LinkedAt(digest, log, i);
    }
  }

  /** Every log that append_audit builds is accepted, and it carries exactly the given fields. */
  lemma {:induction false} BuiltIsAccepted(digest: Digest, entries: seq<Fields>, n: nat)
    requires n <= |entries|
    ensures Accepted(digest, Build(digest, entries, n))
    ensures |Build(digest, entries, n)| == n && forall i :: 0 <= i < n ==> Build(digest, entries, n)[i].fields == entries[i]
    decreases n
  {
    if n > 0 {
      BuiltIsAccepted(digest, entries, n - 1);
      AppendIsAccepted(digest, Build(digest, entries, n - 1), entries[n - 1]);
    }
  }

  /** Conversely an accepted log is the one append_audit builds from its fields. */
  lemma {:induction false} AcceptedIsBuilt(digest: Digest, log: seq<Event>, entries: seq<Fields>, n: nat)
    requires Accepted(digest, log) && n <= |log| == |entries|
    requires forall i :: 0 <= i < |log| ==> entries[i] == log[i].fields
    ensures Build(digest, entries, n) == log[..n]
    decreases n
  {
    if n > 0 {
      AcceptedIsBuilt(digest, log, entries, n - 1);
      assert LastHash(log[..n - 1]) == HashAfter(log, n - 1);
      assert LinkedAt(digest, log, n - 1);
      assert log[..n] == log[..n - 1] + [log[n - 1]];
    }
  }

  // ---------------------------------------------------------------- the join is injective

  predicate Clean(f: Fields) {
    && '|' !in f.tenantId && '|' !in f.userId && '|' !in f.action
    && '|' !in f.resourceType && '|' !in f.resourceId && '|' !in f.createdAt
  }

  lemma JoinFirst(parts: seq<string>)
    requires |parts| > 1
    ensures Join(parts) == parts[0] + "|" + Join(parts[1..])
  {
  }

  lemma {:induction false} JoinInjective(a: seq<string>, b: seq<string>)
    requires |a| == |b| >= 2 && Join(a) == Join(b)
    requires forall i :: 0 <= i < |a| && i != |a| - 2 ==> '|' !in a[i] && '|' !in b[i]
    ensures a == b
    decreases |a|
  {
    JoinFirst(a);
    JoinFirst(b);
    if |a| == 2 {
      SplitLast(a[0], a[1], b[0], b[1], '|');
    } else {
      SplitFirst(a[0], Join(a[1..]), b[0], Join(b[1..]), '|');
      JoinInjective(a[1..], b[1..]);
      assert a == [a[0]] + a[1..] && b == [b[0]] + b[1..];
    }
  }

  /** The hashed text determines the event, although the details may contain the separator. */
  lemma MaterialInjective(p: string, f: Fields, q: string, g: Fields)
    requires '|' !in p && '|' !in q && Clean(f) && Clean(g) && Material(p, f) == Material(q, g)
    ensures p == q && f == g
  {
    var a, b := Parts(p, f), Parts(q, g);
    JoinInjective(a, b);
    assert a[0] == b[0] && a[1] == b[1] && a[2] == b[2] && a[3] == b[3];
    assert a[4] == b[4] && a[5] == b[5] && a[6] == b[6] && a[7] == b[7];
  }

  // ---------------------------------------------------------------- the last hash determines the log

  ghost predicate NoSeparator(hash: Hash) {
    forall x :: '|' !in hash(x)
  }

  predicate AllClean(log: seq<Event>) {
    forall i :: 0 <= i < |log| ==> Clean(log[i].fields)
  }

  predicate CleanHashes(log: seq<Event>) {
    forall i :: 0 <= i <= |log| ==> '|' !in HashAfter(log, i)
  }

  lemma HashesAreClean(hash: Hash, log: seq<Event>)
    requires NoSeparator(hash) && Accepted(DigestOf(hash), log)
    ensures CleanHashes(log)
  {
    forall i | 0 <= i <= |log| ensures '|' !in HashAfter(log, i) {
      if i > 0 {
        assert LinkedAt(DigestOf(hash), log, i - 1);
        assert '|' !in hash(Material(HashAfter(log, i - 1), log[i - 1].fields));
      }
    }
  }

  /** What is hashed for one event. */
  datatype Input = Input(previous: string, fields: Fields)

  predicate CleanInput(x: Input) {
    '|' !in x.previous && Clean(x.fields)
  }

  predicate Clash(digest: Digest, x: Input, y: Input) {
    && CleanInput(x) && CleanInput(y)
    && (digest(x.previous, x.fields) == GENESIS
        || (x != y && digest(x.previous, x.fields) == digest(y.previous, y.fields)))
  }

  predicate Agree(a: seq<Event>, n: nat, b: seq<Event>, m: nat)
    requires n <= |a| && m <= |b|
  {
    n == m && forall i :: 0 <= i < n ==> a[i] == b[i]
  }

  function InputOf(log: seq<Event>, n: nat): Input
    requires n < |log|
  {
    Input(HashAfter(log, n), log[n].fields)
  }

  lemma {:induction false} PrefixesAgree(digest: Digest, a: seq<Event>, n: nat, b: seq<Event>, m: nat) returns (x: Input, y: Input)
    requires Accepted(digest, a) && Accepted(digest, b) && AllClean(a) && AllClean(b) && CleanHashes(a) && CleanHashes(b)
    requires n <= |a| && m <= |b| && HashAfter(a, n) == HashAfter(b, m)
    ensures Agree(a, n, b, m) || Clash(digest, x, y)
    decreases n
  {
    x := if n > 0 then InputOf(a, n - 1) else if m > 0 then InputOf(b, m - 1) else Input("", Fields("", "", "", "", "", "", ""));
    y := if m > 0 then InputOf(b, m - 1) else x;
    if n > 0 {
      assert LinkedAt(digest, a, n - 1);
    }
    if m > 0 {
      assert LinkedAt(digest, b, m - 1);
    }
    if n > 0 && m > 0 && x == y {
      x, y := PrefixesAgree(digest, a, n - 1, b, m - 1);
    }
  }

  /** Two accepted logs with the same last hash are equal event by event, or the proof exhibits a
      collision of the hash or an input that hashes to the genesis value. */
  lemma LastHashDeterminesLog(hash: Hash, a: seq<Event>, b: seq<Event>) returns (x: string, y: string)
    requires NoSeparator(hash) && Accepted(DigestOf(hash), a) && Accepted(DigestOf(hash), b) && AllClean(a) && AllClean(b)
    requires LastHash(a) == LastHash(b)
    ensures a == b || (x != y && hash(x) == hash(y)) || hash(x) == GENESIS
  {
    HashesAreClean(hash, a);
    HashesAreClean(hash, b);
    var p, q := PrefixesAgree(DigestOf(hash), a, |a|, b, |b|);
    x, y := ClashOfTexts(hash, p, q);
  }

  lemma ClashOfTexts(hash: Hash, p: Input, q: Input) returns (x: string, y: string)
    ensures Clash(DigestOf(hash), p, q) ==> (x != y && hash(x) == hash(y)) || hash(x) == GENESIS
  {
    x, y := Material(p.previous, p.fields), Material(q.previous, q.fields);
    if Clash(DigestOf(hash), p, q) && x == y {
      MaterialInjective(p.previous, p.fields, q.previous, q.fields);
    }
  }

  // ---------------------------------------------------------------- what an unclean field does

  /** A separator may move between two neighbouring parts. */
  lemma {:induction false} SameJoin(x: seq<string>, y: seq<string>, i: nat)
    requires |x| == |y| && i + 1 < |x| && x[i] + "|" + x[i + 1] == y[i] + "|" + y[i + 1]
    requires forall k :: 0 <= k < |x| && k != i && k != i + 1 ==> x[k] == y[k]
    ensures Join(x) == Join(y)
    decreases i
  {
    JoinFirst(x);
    JoinFirst(y);
    if i > 0 {
      SameJoin(x[1..], y[1..], i - 1);
    } else if |x| > 2 {
      JoinFirst(x[1..]);
      JoinFirst(y[1..]);
      assert x[1..][1..] == y[1..][1..];
      Reassociate(x[0], x[1], Join(x[1..][1..]));
      Reassociate(y[0], y[1], Join(x[1..][1..]));
    } else {
      assert x[1..] == [x[1]] && y[1..] == [y[1]];
    }
  }

  lemma Reassociate(a: string, b: string, rest: string)
    ensures a + "|" + (b + "|" + rest) == (a + "|" + b) + ("|" + rest)
  {
  }

  lemma CutAtSeparator(s: string) returns (a: string, b: string)
    requires '|' in s
    ensures s == a + "|" + b && |b| < |s|
  {
    if s[0] == '|' {
      a, b := "", s[1..];
    } else {
      var front, back := CutAtSeparator(s[1..]);
      a, b := [s[0]] + front, back;
      assert s == [s[0]] + s[1..];
    }
  }

  /** `g` differs from `f` in the neighbouring fields i - 1 and i only, and joined they read the same. */
  predicate Moved(f: Fields, g: Fields, i: nat)
    requires 2 <= i < 8
  {
    var x, y := Parts("", f), Parts("", g);
    && x[i - 1] + "|" + x[i] == y[i - 1] + "|" + y[i]
    && forall k :: 0 <= k < 8 && k != i - 1 && k != i ==> x[k] == y[k]
  }

  lemma MovedIsUnseen(f: Fields, g: Fields, i: nat, p: string)
    requires 2 <= i < 8 && Moved(f, g, i)
    ensures Material(p, f) == Material(p, g)
  {
    var x, y := Parts(p, f), Parts(p, g);
    assert forall k :: 1 <= k < 8 ==> x[k] == Parts("", f)[k] && y[k] == Parts("", g)[k];
    SameJoin(x, y, i - 1);
  }

  /** Whichever field holds the separator, there is a neighbour to move it to. */
  lemma MoveSeparator(f: Fields) returns (g: Fields, i: nat)
    requires !Clean(f)
    ensures g != f && 2 <= i < 8 && Moved(f, g, i)
  {
    if '|' in f.tenantId {
      var a, b := CutAtSeparator(f.tenantId);
      g, i := f.(tenantId := a, userId := b + "|" + f.userId), 2;
      assert f.tenantId + "|" + f.userId == a + "|" + (b + "|" + f.userId);
      assert |g.userId| > |f.userId|;
    } else if '|' in f.userId {
      var a, b := CutAtSeparator(f.userId);
      g, i := f.(tenantId := f.tenantId + "|" + a, userId := b), 2;
      assert f.tenantId + "|" + f.userId == f.tenantId + "|" + a + "|" + b;
    } else if '|' in f.action {
      var a, b := CutAtSeparator(f.action);
      g, i := f.(userId := f.userId + "|" + a, action := b), 3;
      assert f.userId + "|" + f.action == f.userId + "|" + a + "|" + b;
    } else if '|' in f.resourceType {
      var a, b := CutAtSeparator(f.resourceType);
      g, i := f.(action := f.action + "|" + a, resourceType := b), 4;
      assert f.action + "|" + f.resourceType == f.action + "|" + a + "|" + b;
    } else if '|' in f.resourceId {
      var a, b := CutAtSeparator(f.resourceId);
      g, i := f.(resourceType := f.resourceType + "|" + a, resourceId := b), 5;
      assert f.resourceType + "|" + f.resourceId == f.resourceType + "|" + a + "|" + b;
    } else {
      var a, b := CutAtSeparator(f.createdAt);
      g, i := f.(body := f.body + "|" + a, createdAt := b), 7;
      assert f.body + "|" + f.createdAt == f.body + "|" + a + "|" + b;
    }
  }

  /** The condition on the fields is needed, for every event and every one of its fields: if some id,
      action or the timestamp holds a separator, another event has the same hash after every log,
      whatever the hash function. */
  lemma SeparatorsMatter(hash: Hash, f: Fields) returns (g: Fields)
    requires !Clean(f)
    ensures g != f
    ensures forall log: seq<Event> ::
              var a, b := Append(DigestOf(hash), log, f), Append(DigestOf(hash), log, g);
              LastHash(a) == LastHash(b) && a != b && (Accepted(DigestOf(hash), log) ==> Accepted(DigestOf(hash), a) && Accepted(DigestOf(hash), b))
  {
    var i;
    g, i := MoveSeparator(f);
    forall log: seq<Event>
      ensures var a, b := Append(DigestOf(hash), log, f), Append(DigestOf(hash), log, g);
              LastHash(a) == LastHash(b) && a != b && (Accepted(DigestOf(hash), log) ==> Accepted(DigestOf(hash), a) && Accepted(DigestOf(hash), b))
    {
      SameHashAfter(hash, log, f, g, i);
    }
  }

  lemma SameHashAfter(hash: Hash, log: seq<Event>, f: Fields, g: Fields, i: nat)
    requires g != f && 2 <= i < 8 && Moved(f, g, i)
    ensures var a, b := Append(DigestOf(hash), log, f), Append(DigestOf(hash), log, g);
            LastHash(a) == LastHash(b) && a != b && (Accepted(DigestOf(hash), log) ==> Accepted(DigestOf(hash), a) && Accepted(DigestOf(hash), b))
  {
    MovedIsUnseen(f, g, i, LastHash(log));
    assert DigestOf(hash)(LastHash(log), f) == hash(Material(LastHash(log), f));
    assert DigestOf(hash)(LastHash(log), g) == hash(Material(LastHash(log), g));
    var a, b := Append(DigestOf(hash), log, f), Append(DigestOf(hash), log, g);
    assert a[|log|].fields == f && b[|log|].fields == g;
    if Accepted(DigestOf(hash), log) {
      AppendIsAccepted(DigestOf(hash), log, f);
      AppendIsAccepted(DigestOf(hash), log, g);
    }
  }

  // ---------------------------------------------------------------- the two programs

  class AuditLog {
    var events: seq<Event>

    constructor ()
      ensures events == []
    {
      events := [];
    }

    method AppendAudit(digest: Digest, f: Fields) returns (eventHash: string)
      modifies this
      ensures events == Append(digest, old(events), f) && eventHash == LastHash(events)
    {
      var previousHash := if events == [] then GENESIS else events[|events| - 1].eventHash;
      eventHash := digest(previousHash, f);
      events := events + [Event(f, previousHash, eventHash)];
    }
  }

  datatype Verdict = Intact(events: nat) | ChainBreak(at: nat) | DigestMismatch(at: nat)

  /** verify_database's walk: it accepts exactly the accepted logs, and otherwise names the first event
      that does not fit. */
  method VerifyChain(digest: Digest, log: seq<Event>) returns (v: Verdict)
    ensures v.Intact? <==> Accepted(digest, log)
    ensures v.Intact? ==> v.events == |log|
    ensures !v.Intact? ==> v.at < |log| && !LinkedAt(digest, log, v.at)
    ensures !v.Intact? ==> forall i :: 0 <= i < v.at ==> LinkedAt(digest, log, i)
    ensures v.ChainBreak? ==> log[v.at].previousHash != HashAfter(log, v.at)
  {
    var previous := GENESIS;
    var count := 0;
    while count < |log|
      invariant 0 <= count <= |log| && previous == HashAfter(log, count)
      invariant forall i :: 0 <= i < count ==> LinkedAt(digest, log, i)
    {
      var row := log[count];
      if row.previousHash != previous {
        assert !LinkedAt(digest, log, count);
        return ChainBreak(count);
      }
      var expected := digest(previous, row.fields);
      if expected != row.eventHash {
        assert !LinkedAt(digest, log, count);
        return DigestMismatch(count);
      }
      previous := expected;
      count := count + 1;
    }
    return Intact(count);
  }
}
