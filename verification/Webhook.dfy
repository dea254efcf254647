/** Signed, replay-protected webhook deliveries. */
module Webhook {
  import opened Orders
  import opened ByteStrings
  import opened WebhookMessages

  const MAX_KEY_LENGTH := 2048
  const MAX_ENTRIES := 4096

  /** Text of Unicode white space only, read as UTF-8. */
  predicate Blank(b: Bytes)
    decreases |b|
  {
    || b == []
    || ((9 <= b[0] <= 13 || b[0] == 32) && Blank(b[1..]))
    || (|b| >= 2 && b[0] == 0xC2 && (b[1] == 0x85 || b[1] == 0xA0) && Blank(b[2..]))
    || (|b| >= 3 && WideSpace(b[0], b[1], b[2]) && Blank(b[3..]))
  }

  predicate WideSpace(x: Byte, y: Byte, z: Byte) {
    || (x == 0xE1 && y == 0x9A && z == 0x80)
    || (x == 0xE2 && y == 0x80 && (0x80 <= z <= 0x8A || z == 0xA8 || z == 0xA9 || z == 0xAF))
    || (x == 0xE2 && y == 0x81 && z == 0x9F)
    || (x == 0xE3 && y == 0x80 && z == 0x80)
  }

  datatype Envelope = Envelope(payload: Bytes, signature: Bytes, key: Bytes, signedAt: int)

  datatype Rejection =
    | MissingSignature | InvalidSignature | MissingIdempotencyKey | OutsideReplayWindow | Replayed | KeyTooLong

  datatype Verdict = Accepted | Rejected(why: Rejection)

  datatype ReplayKey = ReplayKey(account: Bytes, key: Bytes, action: Bytes)

  type Cache = map<ReplayKey, int>

  /** The verifier's fixed parts: secret, window, the MAC and the timestamp rendering. */
  datatype Setup = Setup(secret: Bytes, window: nat, mac: (Bytes, Bytes) -> Bytes, render: int -> Bytes)

  predicate Fresh(window: nat, signedAt: int, now: int) { 0 <= now - signedAt <= window }

  /** The checks before the cache, in the order in which they are made. */
  function Screened(v: Setup, e: Envelope, now: int, message: Bytes): Option<Rejection> {
    if Blank(e.signature) then Some(MissingSignature)
    else if Blank(e.key) then Some(MissingIdempotencyKey)
    else if |e.key| > MAX_KEY_LENGTH then Some(KeyTooLong)
    else if !Fresh(v.window, e.signedAt, now) then Some(OutsideReplayWindow)
    else if DecodeHex(Supplied(e.signature)) != Some(v.mac(v.secret, message)) then Some(InvalidSignature)
    else None
  }

  function Retained(seen: Cache, window: nat, now: int): Cache {
    map k | k in seen && Fresh(window, seen[k], now) :: seen[k]
  }

  /** What making room for one entry may do: nothing below capacity; at capacity the oldest
      go, ties broken either way, until one place is free. */
  ghost predicate MadeRoom(before: Cache, after: Cache) {
    && after.Keys <= before.Keys && (forall k :: k in after ==> after[k] == before[k])
    && |after| == (if |before| < MAX_ENTRIES then |before| else MAX_ENTRIES - 1)
    && forall gone, kept :: gone in before.Keys - after.Keys && kept in after ==> before[gone] <= after[kept]
  }

  /** The replay check of an authentic, timely delivery; the room made is the only freedom. */
  ghost predicate Remembers(window: nat, rk: ReplayKey, signedAt: int, now: int, seen: Cache, verdict: Verdict,
                            seen': Cache) {
    var kept := Retained(seen, window, now);
    if rk in kept then verdict == Rejected(Replayed) && seen' == kept
    else verdict == Accepted && exists room: Cache :: MadeRoom(kept, room) && seen' == room[rk := signedAt]
  }

  /** One call: a delivery that fails a check does not touch the cache. */
  ghost predicate Delivers(v: Setup, e: Envelope, rk: ReplayKey, message: Bytes, now: int,
                           seen: Cache, verdict: Verdict, seen': Cache)
  {
    match Screened(v, e, now, message)
    case Some(why) => verdict == Rejected(why) && seen' == seen
    case None => Remembers(v.window, rk, e.signedAt, now, seen, verdict, seen')
  }

  class WebhookVerifier {
    const setup: Setup
    var seen: Cache

    constructor (secret: Bytes, window: nat, mac: (Bytes, Bytes) -> Bytes, render: int -> Bytes)
      ensures setup == Setup(secret, if window < 1_000_000_000 then 1_000_000_000 else window, mac, render)
      ensures seen == map[]
    {
      setup := Setup(secret, if window < 1_000_000_000 then 1_000_000_000 else window, mac, render);
      seen := map[];
    }

    method Verify(e: Envelope, now: int) returns (verdict: Verdict)
      modifies this
      ensures Delivers(setup, e, ReplayKey([], e.key, []), LegacyPreimage(e.payload, e.key, setup.render(e.signedAt)),
                       now, old(seen), verdict, seen)
    {
      verdict := VerifyWithMessage(e, now, [], [], LegacyPreimage(e.payload, e.key, setup.render(e.signedAt)));
    }

    method VerifyBound(e: Envelope, action: Bytes, account: Bytes, now: int) returns (verdict: Verdict)
      modifies this
      ensures Delivers(setup, e, ReplayKey(account, e.key, action),
                       BoundPreimage(e.payload, e.key, account, action, setup.render(e.signedAt)),
                       now, old(seen), verdict, seen)
    {
      var message := BoundPreimage(e.payload, e.key, account, action, setup.render(e.signedAt));
      verdict := VerifyWithMessage(e, now, account, action, message);
    }

    method VerifyWithMessage(e: Envelope, now: int, account: Bytes, action: Bytes,
                             message: Bytes) returns (verdict: Verdict)
      modifies this
      ensures Delivers(setup, e, ReplayKey(account, e.key, action), message, now, old(seen), verdict, seen)
    {
      if Blank(e.signature) { return Rejected(MissingSignature); }
      if Blank(e.key) { return Rejected(MissingIdempotencyKey); }
      if |e.key| > MAX_KEY_LENGTH { return Rejected(KeyTooLong); }
      if now < e.signedAt || now - e.signedAt > setup.window { return Rejected(OutsideReplayWindow); }
      var tag := DecodeHex(Supplied(e.signature));
      if tag.None? || tag.value != setup.mac(setup.secret, message) { return Rejected(InvalidSignature); }
      var cacheKey := ReplayKey(account, e.key, action);
      seen := map k | k in seen && 0 <= now - seen[k] <= setup.window :: seen[k];
      assert seen == Retained(old(seen), setup.window, now);
      if cacheKey in seen { return Rejected(Replayed); }
      EvictOldest();
      seen := seen[cacheKey := e.signedAt];
      verdict := Accepted;
    }

    /** Remove the oldest entries until one place is free. */
    method EvictOldest()
      modifies this
      ensures MadeRoom(old(seen), seen)
    {
      while |seen| >= MAX_ENTRIES
        invariant seen.Keys <= old(seen).Keys && forall k :: k in seen ==> seen[k] == old(seen)[k]
        invariant |seen| >= (if |old(seen)| < MAX_ENTRIES then |old(seen)| else MAX_ENTRIES - 1)
        invariant |seen| <= |old(seen)|
        invariant forall gone, kept :: gone in old(seen).Keys - seen.Keys && kept in seen ==>
            old(seen)[gone] <= seen[kept]
        decreases |seen|
      {
        OldestExists(seen);
        var oldest :| oldest in seen && forall k :: k in seen ==> seen[oldest] <= seen[k];
        RemoveOne(seen, oldest);
        seen := seen - {oldest};
      }
      SameSizeSameKeys(seen, old(seen));
    }
  }

  lemma RemoveOne(m: Cache, k: ReplayKey)
    requires k in m
    ensures |m - {k}| == |m| - 1
  {
    assert (m - {k}).Keys == m.Keys - {k};
  }

  lemma SameSizeSameKeys(small: Cache, large: Cache)
    requires small.Keys <= large.Keys
    ensures |small| <= |large|
    ensures |small| == |large| ==> small.Keys == large.Keys
  {
    assert large.Keys == small.Keys + (large.Keys - small.Keys);
  }

  lemma {:induction false} OldestExists(m: Cache)
    requires |m| > 0
    ensures exists k :: k in m && forall j :: j in m ==> m[k] <= m[j]
    decreases |m|
  {
    var any :| any in m;
    var k := Older(m, m.Keys - {any}, any);
  }

  /** The oldest of `best` and the keys in `rest`. */
  lemma {:induction false} Older(m: Cache, rest: set<ReplayKey>, best: ReplayKey) returns (k: ReplayKey)
    requires best in m && rest <= m.Keys && forall j :: j in m.Keys - rest ==> m[best] <= m[j]
    ensures k in m && forall j :: j in m ==> m[k] <= m[j]
    decreases |rest|
  {
    if rest == {} { return best; }
    var next :| next in rest;
    k := Older(m, rest - {next}, if m[next] <= m[best] then next else best);
  }
}
