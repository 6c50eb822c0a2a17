/** Signed download tokens of makepdf/web/auth.py. The MAC is any function whose output has no dot (it
    prints hexadecimal digits); nothing else is assumed of it. */
module DownloadToken {
  import opened Options
  import opened Text
  import opened Decimal

  type Mac = (string, string) -> string

  datatype Ring = Ring(active: string, keys: map<string, string>)

  const DEVELOPMENT_KEY := "development-only-signing-key-change-me"

  /** _download_keys: the configured ring, or the development key outside production. */
  function DownloadKeys(keys: map<string, string>, active: string, production: bool): (r: Option<Ring>)
    ensures r.Some? ==> r.value.active in r.value.keys && |r.value.keys[r.value.active]| >= 32
    ensures r.None? <==> production && !(active != "" && active in keys && |keys[active]| >= 32)
    ensures r.Some? ==> r.value == Ring(active, keys) ||
                        (!production && r.value.keys == map[r.value.active := DEVELOPMENT_KEY] && !(active in keys && |keys[active]| >= 32 && active != ""))
  {
    if active == "" || active !in keys || |keys[active]| < 32 then
      if production then None else Some(Ring("development", map["development" := DEVELOPMENT_KEY]))
    else Some(Ring(active, keys))
  }

  function Clamp(ttl: int): nat {
    if ttl < 1 then 1 else if ttl > 900 then 900 else ttl
  }

  function Material(keyId: string, jobId: string, tenantId: string, userId: string, expires: nat): string {
    keyId + "." + (jobId + "." + (tenantId + "." + (userId + "." + Digits(expires))))
  }

  function Sign(mac: Mac, ring: Ring, jobId: string, tenantId: string, userId: string, now: nat, ttl: int): string
    requires ring.active in ring.keys
  {
    var expires := now + Clamp(ttl);
    var signature := mac(ring.keys[ring.active], Material(ring.active, jobId, tenantId, userId, expires));
    ring.active + "." + (Digits(expires) + "." + (userId + "." + signature))
  }

  /** The part of `s` after its first dot, if it has one. */
  function Rest(s: string): Option<string> {
    if |Before(s, '.')| < |s| then Some(s[|Before(s, '.')| + 1..]) else None
  }

  /** token.split(".", 3) when it has four parts. */
  function Split4(token: string): Option<(string, string, string, string)> {
    match Rest(token)
    case None => None
    case Some(r1) =>
      match Rest(r1)
      case None => None
      case Some(r2) =>
        match Rest(r2)
        case None => None
        case Some(r3) => Some((Before(token, '.'), Before(r1, '.'), Before(r2, '.'), r3))
  }

  function Verify(mac: Mac, keys: map<string, string>, token: string, jobId: string, tenantId: string, now: nat): Option<string> {
    match Split4(token)
    case None => None
    case Some((keyId, expiresRaw, userId, signature)) =>
      match ParseInt(expiresRaw)
      case None => None
      case Some(expires) =>
        if expires < now || expires > now + 900 || keyId !in keys then None
        else if signature == mac(keys[keyId], Material(keyId, jobId, tenantId, userId, expires)) then Some(userId)
        else None
  }

  // ---------------------------------------------------------------- splitting

  lemma NoDotInDigits(n: nat)
    ensures '.' !in Digits(n)
  {
    assert !IsDigit('.');
  }

  lemma SplitsOff(a: string, rest: string)
    requires '.' !in a
    ensures Before(a + "." + rest, '.') == a && Rest(a + "." + rest) == Some(rest)
  {
    BeforeJoin(a, '.', rest);
    assert (a + "." + rest)[|a| + 1..] == rest;
  }

  function Dots(s: string): nat {
    if s == "" then 0 else (if s[0] == '.' then 1 else 0) + Dots(s[1..])
  }

  lemma DotsAppend(a: string, b: string)
    ensures Dots(a + b) == Dots(a) + Dots(b)
  {
    if a == "" {
      assert a + b == b;
    } else {
      assert (a + b)[1..] == a[1..] + b;
      DotsAppend(a[1..], b);
    }
  }

  lemma NoDots(s: string)
    ensures '.' !in s <==> Dots(s) == 0
  {
    if s != "" {
      NoDots(s[1..]);
      assert '.' in s <==> s[0] == '.' || '.' in s[1..];
    }
  }

  lemma RestHasOneLess(s: string)
    ensures Rest(s).Some? ==> Dots(Rest(s).value) == Dots(s) - 1
    decreases |s|
  {
    if s != "" && s[0] == '.' {
      assert Before(s, '.') == "";
    } else if s != "" {
      RestHasOneLess(s[1..]);
      assert Before(s, '.') == [s[0]] + Before(s[1..], '.');
      if Rest(s).Some? {
        assert s[|Before(s, '.')| + 1..] == s[1..][|Before(s[1..], '.')| + 1..];
      }
    }
  }

  lemma LastPartDots(token: string)
    ensures Split4(token).Some? ==> Dots(Split4(token).value.3) == Dots(token) - 3
  {
    RestHasOneLess(token);
    if Rest(token).Some? {
      RestHasOneLess(Rest(token).value);
      if Rest(Rest(token).value).Some? {
        RestHasOneLess(Rest(Rest(token).value).value);
      }
    }
  }

  // ---------------------------------------------------------------- round trip

  ghost predicate NoDotInMac(mac: Mac) {
    forall key, text :: '.' !in mac(key, text)
  }

  lemma DotlessTokenSplits(keyId: string, expires: nat, userId: string, signature: string)
    requires '.' !in keyId && '.' !in userId
    ensures Split4(keyId + "." + (Digits(expires) + "." + (userId + "." + signature))) ==
            Some((keyId, Digits(expires), userId, signature))
  {
    NoDotInDigits(expires);
    SplitsOff(keyId, Digits(expires) + "." + (userId + "." + signature));
    SplitsOff(Digits(expires), userId + "." + signature);
    SplitsOff(userId, signature);
  }

  lemma DottedTokenSplits(keyId: string, expires: nat, userId: string, signature: string)
    requires '.' in keyId || '.' in userId
    ensures var s := Split4(keyId + "." + (Digits(expires) + "." + (userId + "." + signature)));
            s.Some? ==> '.' in s.value.3
  {
    var tail := userId + "." + signature;
    var mid := Digits(expires) + "." + tail;
    var token := keyId + "." + mid;
    DotsAppend(userId + ".", signature);
    DotsAppend(userId, ".");
    DotsAppend(Digits(expires) + ".", tail);
    DotsAppend(Digits(expires), ".");
    DotsAppend(keyId + ".", mid);
    DotsAppend(keyId, ".");
    NoDots(keyId);
    NoDots(userId);
    LastPartDots(token);
    if Split4(token).Some? { NoDots(Split4(token).value.3); }
  }

  lemma DotlessVerifies(mac: Mac, keys: map<string, string>, keyId: string, expires: nat, userId: string, signature: string,
                        jobId: string, tenantId: string, clock: nat)
    requires '.' !in keyId && '.' !in userId && keyId in keys
    requires signature == mac(keys[keyId], Material(keyId, jobId, tenantId, userId, expires))
    ensures Verify(mac, keys, keyId + "." + (Digits(expires) + "." + (userId + "." + signature)), jobId, tenantId, clock) ==
            if clock <= expires <= clock + 900 then Some(userId) else None
  {
    DotlessTokenSplits(keyId, expires, userId, signature);
    ParseDigits(expires);
  }

  lemma DottedFails(mac: Mac, keys: map<string, string>, keyId: string, expires: nat, userId: string, signature: string,
                    jobId: string, tenantId: string, clock: nat)
    requires NoDotInMac(mac) && ('.' in keyId || '.' in userId)
    ensures Verify(mac, keys, keyId + "." + (Digits(expires) + "." + (userId + "." + signature)), jobId, tenantId, clock) == None
  {
    DottedTokenSplits(keyId, expires, userId, signature);
  }

  /** With any later key ring that still holds the signing key, a token verifies for its job and tenant
      exactly while the clock is at most the clamped expiry and not more than 900 seconds before it,
      and exactly if neither the key id nor the user id contains a dot; it then names the signer. */
  lemma TokenRoundTrip(mac: Mac, ring: Ring, later: map<string, string>, jobId: string, tenantId: string, userId: string,
                       now: nat, ttl: int, clock: nat)
    requires NoDotInMac(mac) && ring.active in ring.keys
    requires ring.active in later && later[ring.active] == ring.keys[ring.active]
    ensures Verify(mac, later, Sign(mac, ring, jobId, tenantId, userId, now, ttl), jobId, tenantId, clock) ==
            var expires := now + if ttl < 1 then 1 else if ttl > 900 then 900 else ttl;
            if '.' !in ring.active && '.' !in userId && clock <= expires <= clock + 900 then Some(userId) else None
  {
    var expires := now + Clamp(ttl);
    var signature := mac(ring.keys[ring.active], Material(ring.active, jobId, tenantId, userId, expires));
    if '.' !in ring.active && '.' !in userId {
      DotlessVerifies(mac, later, ring.active, expires, userId, signature, jobId, tenantId, clock);
    } else {
      DottedFails(mac, later, ring.active, expires, userId, signature, jobId, tenantId, clock);
    }
  }

  /** What a token says of its job and tenant: the two ids with a dot between them. */
  function Subject(jobId: string, tenantId: string): string {
    jobId + "." + tenantId
  }

  lemma MaterialParts(keyId: string, jobId: string, tenantId: string, userId: string, expires: nat)
    ensures Material(keyId, jobId, tenantId, userId, expires) ==
            keyId + "." + (Subject(jobId, tenantId) + ("." + (userId + "." + Digits(expires))))
  {
    var tail := userId + "." + Digits(expires);
    assert jobId + "." + (tenantId + "." + tail) == Subject(jobId, tenantId) + ("." + tail);
  }

  lemma SameSubject(keyId: string, a: string, b: string, tail: string)
    requires '.' !in keyId && keyId + "." + (a + tail) == keyId + "." + (b + tail)
    ensures a == b
  {
    SplitFirst(keyId, a + tail, keyId, b + tail, '.');
    assert |a| == |b| && a == (a + tail)[..|a|] && b == (b + tail)[..|b|];
  }

  /** A token signed for one job and tenant verifies for another, while it is good, if and only if both
      pairs of ids read the same with a dot between them, or the proof exhibits two texts with the same
      MAC. */
  lemma TokenIsBound(mac: Mac, ring: Ring, jobId: string, tenantId: string, userId: string, now: nat, ttl: int,
                     otherJob: string, otherTenant: string, clock: nat)
    returns (x: string, y: string)
    requires NoDotInMac(mac) && ring.active in ring.keys && '.' !in ring.active && '.' !in userId
    requires clock <= now + Clamp(ttl) <= clock + 900
    ensures var v := Verify(mac, ring.keys, Sign(mac, ring, jobId, tenantId, userId, now, ttl), otherJob, otherTenant, clock);
            && (Subject(jobId, tenantId) == Subject(otherJob, otherTenant) ==> v == Some(userId))
            && (v.Some? ==> v == Some(userId) && (Subject(jobId, tenantId) == Subject(otherJob, otherTenant)
                            || (x != y && mac(ring.keys[ring.active], x) == mac(ring.keys[ring.active], y))))
  {
    var expires := now + Clamp(ttl);
    x := Material(ring.active, jobId, tenantId, userId, expires);
    y := Material(ring.active, otherJob, otherTenant, userId, expires);
    DotlessTokenSplits(ring.active, expires, userId, mac(ring.keys[ring.active], x));
    ParseDigits(expires);
    MaterialParts(ring.active, jobId, tenantId, userId, expires);
    MaterialParts(ring.active, otherJob, otherTenant, userId, expires);
    if x == y {
      SameSubject(ring.active, Subject(jobId, tenantId), Subject(otherJob, otherTenant), "." + (userId + "." + Digits(expires)));
    }
  }

  /** For ids without dots, as the program makes them, that is the same job and tenant. */
  lemma SubjectIsBoth(jobId: string, tenantId: string, otherJob: string, otherTenant: string)
    requires '.' !in jobId && '.' !in otherJob && Subject(jobId, tenantId) == Subject(otherJob, otherTenant)
    ensures jobId == otherJob && tenantId == otherTenant
  {
    SplitFirst(jobId, tenantId, otherJob, otherTenant, '.');
  }

  lemma MaterialIsAll(keyId: string, jobId: string, tenantId: string, userId: string, expires: nat,
                      otherJob: string, otherTenant: string, otherUser: string, otherExpires: nat)
    requires '.' !in keyId && '.' !in jobId && '.' !in otherJob && '.' !in tenantId && '.' !in otherTenant
    requires Material(keyId, jobId, tenantId, userId, expires) == Material(keyId, otherJob, otherTenant, otherUser, otherExpires)
    ensures jobId == otherJob && tenantId == otherTenant && userId == otherUser && expires == otherExpires
  {
    var tail, otherTail := userId + "." + Digits(expires), otherUser + "." + Digits(otherExpires);
    SplitFirst(keyId, jobId + "." + (tenantId + "." + tail), keyId, otherJob + "." + (otherTenant + "." + otherTail), '.');
    SplitFirst(jobId, tenantId + "." + tail, otherJob, otherTenant + "." + otherTail, '.');
    SplitFirst(tenantId, tail, otherTenant, otherTail, '.');
    NoDotInDigits(expires);
    NoDotInDigits(otherExpires);
    SplitLast(userId, Digits(expires), otherUser, Digits(otherExpires), '.');
    ValueOfDigits(expires);
    ValueOfDigits(otherExpires);
  }

  /** A signature is good for what it was made for and nothing else: a token that carries it and is accepted
      has the signer, the expiry, the job and the tenant that were signed, or the proof exhibits two texts
      with the same MAC. */
  lemma SignatureIsBound(mac: Mac, keys: map<string, string>, keyId: string, jobId: string, tenantId: string, userId: string, expires: nat,
                         otherJob: string, otherTenant: string, otherUser: string, otherExpires: nat, clock: nat)
    returns (x: string, y: string)
    requires keyId in keys && '.' !in keyId && '.' !in jobId && '.' !in otherJob && '.' !in tenantId && '.' !in otherTenant && '.' !in otherUser
    requires var signature := mac(keys[keyId], Material(keyId, jobId, tenantId, userId, expires));
             var token := keyId + "." + (Digits(otherExpires) + "." + (otherUser + "." + signature));
             Verify(mac, keys, token, otherJob, otherTenant, clock).Some?
    ensures (otherJob == jobId && otherTenant == tenantId && otherUser == userId && otherExpires == expires)
            || (x != y && mac(keys[keyId], x) == mac(keys[keyId], y))
  {
    x := Material(keyId, jobId, tenantId, userId, expires);
    y := Material(keyId, otherJob, otherTenant, otherUser, otherExpires);
    DotlessTokenSplits(keyId, otherExpires, otherUser, mac(keys[keyId], x));
    ParseDigits(otherExpires);
    if x == y { MaterialIsAll(keyId, jobId, tenantId, userId, expires, otherJob, otherTenant, otherUser, otherExpires); }
  }
}
