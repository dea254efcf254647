/** The byte strings that webhook signatures cover, and how signatures are written. */
module WebhookMessages {
  import opened Orders
  import opened ByteStrings

  // -------- the authenticated message --------

  function Pow256(width: nat): nat { if width == 0 then 1 else 256 * Pow256(width - 1) }

  function BigEndian(n: nat, width: nat): Bytes
    decreases width
  {
    if width == 0 then [] else BigEndian(n / 256, width - 1) + [n % 256]
  }

  function BigEndianValue(b: Bytes): nat
    decreases |b|
  {
    if b == [] then 0 else 256 * BigEndianValue(b[..|b| - 1]) + b[|b| - 1]
  }

  /** A field with its eight-byte length before it. */
  function Field(f: Bytes): Bytes { BigEndian(|f|, 8) + f }

  const DOT: Byte := 46
  const ZULU: Byte := 90

  /** The timestamp text, a dot, the key with its length, then the payload. */
  function LegacyPreimage(payload: Bytes, key: Bytes, stamp: Bytes): Bytes {
    stamp + [DOT] + Field(key) + payload
  }

  /** The route-bound message: every part carries its length. */
  function BoundPreimage(payload: Bytes, key: Bytes, account: Bytes, action: Bytes, stamp: Bytes): Bytes {
    LegacyPreimage([], key, stamp) + Field(account) + Field(action) + Field(payload)
  }

  // -------- reading a message back --------

  function TakeField(m: Bytes): Option<(Bytes, Bytes)> {
    if |m| < 8 then None
    else
      var n := BigEndianValue(m[..8]);
      if |m| - 8 < n then None else Some((m[8..8 + n], m[8 + n..]))
  }

  /** The text up to and including the first Z. */
  function TakeStamp(m: Bytes): Option<(Bytes, Bytes)> {
    if m == [] then None
    else if m[0] == ZULU then Some(([ZULU], m[1..]))
    else match TakeStamp(m[1..])
      case None => None
      case Some((stamp, rest)) => Some(([m[0]] + stamp, rest))
  }

  function ParseLegacy(m: Bytes): Option<(Bytes, Bytes, Bytes)> {
    match TakeStamp(m)
    case None => None
    case Some((stamp, rest)) =>
      if rest == [] || rest[0] != DOT then None
      else match TakeField(rest[1..])
        case None => None
        case Some((key, payload)) => Some((stamp, key, payload))
  }

  function ParseBound(m: Bytes): Option<(Bytes, Bytes, Bytes, Bytes, Bytes)> {
    match ParseLegacy(m)
    case None => None
    case Some((stamp, key, rest)) =>
      match TakeField(rest)
      case None => None
      case Some((account, rest)) =>
        match TakeField(rest)
        case None => None
        case Some((action, rest)) =>
          match TakeField(rest)
          case None => None
          case Some((payload, rest)) => if rest == [] then Some((stamp, key, account, action, payload)) else None
  }

  /** RFC 3339 text in UTC: exactly one Z, at the end. */
  predicate IsStamp(b: Bytes) {
    b != [] && b[|b| - 1] == ZULU && forall i :: 0 <= i < |b| - 1 ==> b[i] != ZULU
  }

  /** The lengths that a 64-bit count can hold. */
  predicate Sized(b: Bytes) { |b| < 0x1_0000_0000_0000_0000 }

  lemma {:induction false} BigEndianRoundTrip(n: nat, width: nat)
    requires n < Pow256(width)
    ensures |BigEndian(n, width)| == width && BigEndianValue(BigEndian(n, width)) == n
    decreases width
  {
    if width > 0 {
      BigEndianRoundTrip(n / 256, width - 1);
      var high := BigEndian(n / 256, width - 1);
      assert BigEndian(n, width)[..width - 1] == high;
    }
  }

  lemma FieldRoundTrip(f: Bytes, rest: Bytes)
    requires Sized(f)
    ensures TakeField(Field(f) + rest) == Some((f, rest))
  {
    assert Pow256(8) == 0x1_0000_0000_0000_0000;
    BigEndianRoundTrip(|f|, 8);
    var m := Field(f) + rest;
    assert m[..8] == BigEndian(|f|, 8);
    assert m[8..8 + |f|] == f && m[8 + |f|..] == rest;
  }

  lemma {:induction false} StampRoundTrip(stamp: Bytes, rest: Bytes)
    requires IsStamp(stamp)
    ensures TakeStamp(stamp + rest) == Some((stamp, rest))
    decreases |stamp|
  {
    var m := stamp + rest;
    if |stamp| == 1 {
      assert stamp == [ZULU] && m[1..] == rest;
    } else {
      var tail := stamp[1..];
      assert m[0] == stamp[0] != ZULU && m[1..] == tail + rest;
      assert IsStamp(tail) by {
        forall i | 0 <= i < |tail| - 1 ensures tail[i] != ZULU { assert tail[i] == stamp[i + 1]; }
      }
      StampRoundTrip(tail, rest);
      assert [stamp[0]] + tail == stamp;
    }
  }

  /** Everything after the key, as one payload. */
  lemma LegacyRoundTrip(payload: Bytes, key: Bytes, stamp: Bytes)
    requires IsStamp(stamp) && Sized(key)
    ensures ParseLegacy(LegacyPreimage(payload, key, stamp)) == Some((stamp, key, payload))
  {
    var tail := Field(key) + payload;
    var rest := [DOT] + tail;
    assert LegacyPreimage(payload, key, stamp) == stamp + rest by {
      Regroup(stamp, [DOT], Field(key), payload);
    }
    StampRoundTrip(stamp, rest);
    assert rest[0] == DOT && rest[1..] == tail;
    FieldRoundTrip(key, payload);
  }

  lemma Regroup(a: Bytes, b: Bytes, c: Bytes, d: Bytes)
    ensures a + b + c + d == a + (b + (c + d))
  {
  }

  /** Timestamp, full stop, eight bytes that count the key, the key, the payload. */
  lemma LegacyLayout(payload: Bytes, key: Bytes, stamp: Bytes)
    requires Sized(key)
    ensures exists length: Bytes ::
              && |length| == 8 && BigEndianValue(length) == |key|
              && LegacyPreimage(payload, key, stamp) == stamp + [46] + length + key + payload
  {
    var length := BigEndian(|key|, 8);
    assert Pow256(8) == 0x1_0000_0000_0000_0000;
    BigEndianRoundTrip(|key|, 8);
    assert stamp + [46] + (length + key) == stamp + [46] + length + key;
  }

  lemma BoundRoundTrip(payload: Bytes, key: Bytes, account: Bytes, action: Bytes, stamp: Bytes)
    requires IsStamp(stamp) && Sized(key) && Sized(account) && Sized(action) && Sized(payload)
    ensures ParseBound(BoundPreimage(payload, key, account, action, stamp))
         == Some((stamp, key, account, action, payload))
  {
    var r3 := Field(payload) + [];
    var r2 := Field(action) + r3;
    var r1 := Field(account) + r2;
    NestedFields(payload, key, account, action, stamp);
    LegacyRoundTrip(r1, key, stamp);
    FieldRoundTrip(account, r2);
    FieldRoundTrip(action, r3);
    FieldRoundTrip(payload, []);
  }

  lemma NestedFields(payload: Bytes, key: Bytes, account: Bytes, action: Bytes, stamp: Bytes)
    ensures BoundPreimage(payload, key, account, action, stamp)
         == LegacyPreimage(Field(account) + (Field(action) + (Field(payload) + [])), key, stamp)
  {
    var head := stamp + [DOT] + Field(key);
    assert head + [] == head && Field(payload) + [] == Field(payload);
    Regroup(head, Field(account), Field(action), Field(payload));
  }

  /** The two forms share messages: a legacy message is a route-bound one exactly if its payload
      spells out the three fields. */
  lemma LegacyIsBoundExactly(q: Bytes, p: Bytes, k: Bytes, a: Bytes, c: Bytes, t: Bytes)
    ensures LegacyPreimage(q, k, t) == BoundPreimage(p, k, a, c, t) <==> q == Field(a) + (Field(c) + (Field(p) + []))
  {
    var fields := Field(a) + (Field(c) + (Field(p) + []));
    var head := t + [DOT] + Field(k);
    NestedFields(p, k, a, c, t);
    if LegacyPreimage(q, k, t) == LegacyPreimage(fields, k, t) {
      assert q == (head + q)[|head|..] == (head + fields)[|head|..] == fields;
    }
  }

  /** The legacy message determines timestamp, key and payload. */
  lemma LegacyInjective(p: Bytes, k: Bytes, t: Bytes, p': Bytes, k': Bytes, t': Bytes)
    requires IsStamp(t) && IsStamp(t') && Sized(k) && Sized(k')
    requires LegacyPreimage(p, k, t) == LegacyPreimage(p', k', t')
    ensures p == p' && k == k' && t == t'
  {
    LegacyRoundTrip(p, k, t);
    LegacyRoundTrip(p', k', t');
  }

  /** The route-bound message determines timestamp, key, account, action and payload. */
  lemma BoundInjective(p: Bytes, k: Bytes, a: Bytes, c: Bytes, t: Bytes, p': Bytes, k': Bytes, a': Bytes, c': Bytes,
                       t': Bytes)
    requires IsStamp(t) && Sized(k) && Sized(a) && Sized(c) && Sized(p)
    requires IsStamp(t') && Sized(k') && Sized(a') && Sized(c') && Sized(p')
    requires BoundPreimage(p, k, a, c, t) == BoundPreimage(p', k', a', c', t')
    ensures p == p' && k == k' && a == a' && c == c' && t == t'
  {
    BoundRoundTrip(p, k, a, c, t);
    BoundRoundTrip(p', k', a', c', t');
  }

  // -------- signatures --------

  /** `sha256=` */
  const SIGNATURE_PREFIX: Bytes := [115, 104, 97, 50, 53, 54, 61]

  /** The prefix is optional on the wire. */
  function Supplied(signature: Bytes): Bytes {
    var n := |SIGNATURE_PREFIX|;
    if |signature| >= n && signature[..n] == SIGNATURE_PREFIX then signature[n..] else signature
  }
}
