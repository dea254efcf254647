/** Whole histories of webhook deliveries to one verifier. */
module WebhookRuns {
  import opened Orders
  import opened ByteStrings
  import opened WebhookMessages
  import opened Webhook
  import opened WebhookForms

  datatype Delivery = Delivery(e: Envelope, rk: ReplayKey, message: Bytes, now: int,
                               before: Cache, verdict: Verdict, after: Cache)

  /** A run from an empty cache, under any clock. */
  ghost predicate IsRun(v: Setup, run: seq<Delivery>) {
    && (run != [] ==> run[0].before == map[])
    && (forall i :: 0 <= i < |run| ==>
          Delivers(v, run[i].e, run[i].rk, run[i].message, run[i].now, run[i].before, run[i].verdict, run[i].after))
    && (forall i, j :: 0 <= i < |run| && j == i + 1 && j < |run| ==> run[j].before == run[i].after)
  }

  predicate ClockForward(run: seq<Delivery>) {
    forall i, j :: 0 <= i < j < |run| ==> run[i].now <= run[j].now
  }

  lemma Submap(small: Cache, large: Cache)
    requires small.Keys <= large.Keys
    ensures |small| <= |large|
  {
    SameSizeSameKeys(small, large);
  }

  lemma OneDeliveryBounded(v: Setup, d: Delivery)
    requires Delivers(v, d.e, d.rk, d.message, d.now, d.before, d.verdict, d.after)
    requires |d.before| <= MAX_ENTRIES
    ensures |d.after| <= MAX_ENTRIES
  {
    var kept := Retained(d.before, v.window, d.now);
    Submap(kept, d.before);
    if d.verdict.Accepted? {
      var room: Cache :| MadeRoom(kept, room) && d.after == room[d.rk := d.e.signedAt];
      assert d.after.Keys == room.Keys + {d.rk};
    }
  }

  /** The cache never exceeds its capacity. */
  lemma {:induction false} CacheBounded(v: Setup, run: seq<Delivery>, i: nat)
    requires IsRun(v, run) && i < |run|
    ensures |run[i].before| <= 4096 && |run[i].after| <= 4096
    decreases i
  {
    if i > 0 {
      CacheBounded(v, run, i - 1);
    }
    OneDeliveryBounded(v, run[i]);
  }

  /** A rejected delivery adds nothing, its own key included; a delivery is accepted exactly
      when it is well-formed, timely, authentic and in no fresh entry, and is then remembered
      with its signing time. */
  lemma RejectionConsumesNothing(v: Setup, d: Delivery)
    requires Delivers(v, d.e, d.rk, d.message, d.now, d.before, d.verdict, d.after)
    ensures d.verdict.Rejected? ==>
              d.after.Keys <= d.before.Keys && forall k :: k in d.after ==> d.after[k] == d.before[k]
    ensures d.verdict.Accepted? ==> d.rk in d.after && d.after[d.rk] == d.e.signedAt
    ensures d.verdict.Accepted? <==>
              && !Blank(d.e.signature) && !Blank(d.e.key) && |d.e.key| <= 2048
              && d.e.signedAt <= d.now <= d.e.signedAt + v.window
              && DecodeHex(Supplied(d.e.signature)) == Some(v.mac(v.secret, d.message))
              && (d.rk in d.before ==> !Fresh(v.window, d.before[d.rk], d.now))
    ensures d.verdict == Rejected(Replayed) <==>
              Screened(v, d.e, d.now, d.message).None? && d.rk in d.before && Fresh(v.window, d.before[d.rk], d.now)
  {
  }

  /** The message's tag is spelled in hexadecimal, bare or after `sha256=`. */
  ghost predicate Authentic(v: Setup, d: Delivery) {
    var tag := v.mac(v.secret, d.message);
    || SpellsTag(d.e.signature, tag)
    || (SIGNATURE_PREFIX <= d.e.signature && SpellsTag(d.e.signature[|SIGNATURE_PREFIX|..], tag))
  }

  /** Which rejection comes first, each reported exactly when it does. */
  lemma RejectionsInOrder(v: Setup, d: Delivery)
    requires Delivers(v, d.e, d.rk, d.message, d.now, d.before, d.verdict, d.after)
    ensures var unsigned, unkeyed := SpellsWhite(d.e.signature), SpellsWhite(d.e.key);
            var timely := d.e.signedAt <= d.now <= d.e.signedAt + v.window;
            && (d.verdict == Rejected(MissingSignature) <==> unsigned)
            && (d.verdict == Rejected(MissingIdempotencyKey) <==> !unsigned && unkeyed)
            && (d.verdict == Rejected(KeyTooLong) <==> !unsigned && !unkeyed && |d.e.key| > 2048)
            && (d.verdict == Rejected(OutsideReplayWindow) <==>
                  !unsigned && !unkeyed && |d.e.key| <= 2048 && !timely)
            && (d.verdict == Rejected(InvalidSignature) <==>
                  !unsigned && !unkeyed && |d.e.key| <= 2048 && timely && !Authentic(v, d))
            && (d.verdict == Rejected(Replayed) <==>
                  && !unsigned && !unkeyed && |d.e.key| <= 2048 && timely && Authentic(v, d)
                  && d.rk in d.before && d.before[d.rk] <= d.now <= d.before[d.rk] + v.window)
  {
    BlankExactly(d.e.signature);
    BlankExactly(d.e.key);
    SignatureExactly(d.e.signature, v.mac(v.secret, d.message));
  }

  /** The entry `rk` left a full cache while only entries signed no earlier stayed. */
  ghost predicate LeftFull(kept: Cache, added: ReplayKey, after: Cache, rk: ReplayKey) {
    && rk in kept && rk !in after && |kept| == MAX_ENTRIES
    && forall k :: k in after && k != added ==> k in kept && kept[rk] <= kept[k] == after[k]
  }

  /** Delivery `d` pushed the fresh entry `rk` out of a full cache. */
  ghost predicate PushedOut(v: Setup, d: Delivery, rk: ReplayKey) {
    d.verdict.Accepted? && LeftFull(Retained(d.before, v.window, d.now), d.rk, d.after, rk)
  }

  lemma PushedFromFull(kept: Cache, room: Cache, rk: ReplayKey, added: ReplayKey, at: int)
    requires MadeRoom(kept, room) && |kept| <= MAX_ENTRIES && rk in kept && added !in kept
    ensures var after := room[added := at];
            (rk in after && after[rk] == kept[rk]) || LeftFull(kept, added, after, rk)
  {
    if rk !in room {
      assert rk in kept.Keys - room.Keys;
      SameSizeSameKeys(room, kept);
    }
  }

  /** A fresh entry survives a delivery unless that delivery pushes it out. */
  lemma SurvivesOrPushed(v: Setup, d: Delivery, rk: ReplayKey)
    requires Delivers(v, d.e, d.rk, d.message, d.now, d.before, d.verdict, d.after)
    requires |d.before| <= MAX_ENTRIES && rk in d.before && Fresh(v.window, d.before[rk], d.now)
    ensures (rk in d.after && d.after[rk] == d.before[rk]) || PushedOut(v, d, rk)
  {
    if Screened(v, d.e, d.now, d.message).None? {
      RememberedOrPushed(v, d, rk);
    }
  }

  lemma RememberedOrPushed(v: Setup, d: Delivery, rk: ReplayKey)
    requires Remembers(v.window, d.rk, d.e.signedAt, d.now, d.before, d.verdict, d.after)
    requires |d.before| <= MAX_ENTRIES && rk in d.before && Fresh(v.window, d.before[rk], d.now)
    ensures (rk in d.after && d.after[rk] == d.before[rk]) || PushedOut(v, d, rk)
  {
    var kept := Retained(d.before, v.window, d.now);
    assert rk in kept && kept[rk] == d.before[rk];
    if d.rk !in kept {
      Submap(kept, d.before);
      AcceptedAfter(kept, d.rk, d.e.signedAt, d.after, rk);
    }
  }

  lemma AcceptedAfter(kept: Cache, added: ReplayKey, at: int, after: Cache, rk: ReplayKey)
    requires added !in kept && |kept| <= MAX_ENTRIES && rk in kept
    requires exists room: Cache :: MadeRoom(kept, room) && after == room[added := at]
    ensures (rk in after && after[rk] == kept[rk]) || LeftFull(kept, added, after, rk)
  {
    var room: Cache :| MadeRoom(kept, room) && after == room[added := at];
    PushedFromFull(kept, room, rk, added, at);
  }

  /** The clock of delivery `d` put the signing time `at` outside the replay window: retention
      drops such an entry, be the clock ahead of it or behind it. */
  ghost predicate OutsideWindow(v: Setup, d: Delivery, at: int) { !Fresh(v.window, at, d.now) }

  /** Follow an entry remembered after delivery `i` up to delivery `j`. */
  lemma {:induction false} Follow(v: Setup, run: seq<Delivery>, i: nat, j: nat, rk: ReplayKey, at: int)
    requires IsRun(v, run) && i < j < |run|
    requires rk in run[i].after && run[i].after[rk] == at
    ensures || (rk in run[j].before && run[j].before[rk] == at)
            || (exists m :: i < m < j && PushedOut(v, run[m], rk) && run[m].before[rk] == at)
            || (exists m :: i < m < j && OutsideWindow(v, run[m], at))
    decreases j - i
  {
    var n := i + 1;
    assert run[n].before == run[i].after;
    if n < j && !OutsideWindow(v, run[n], at) {
      CacheBounded(v, run, n);
      SurvivesOrPushed(v, run[n], rk);
      if rk in run[n].after {
        Follow(v, run, n, j, rk, at);
      }
    }
  }

  /** Under any clock, the same delivery is accepted twice only if in between its entry was
      pushed out of a full cache whose remaining entries were all signed no earlier, or some
      delivery's clock put its signing time outside the window. */
  lemma AcceptedTwiceAnyClock(v: Setup, run: seq<Delivery>, i: nat, j: nat)
    requires IsRun(v, run) && i < j < |run|
    requires run[i].verdict.Accepted? && run[j].verdict.Accepted?
    requires run[i].rk == run[j].rk && run[i].e.signedAt == run[j].e.signedAt
    ensures var rk, at := run[i].rk, run[i].e.signedAt;
            || (exists m :: i < m < j && PushedOut(v, run[m], rk) && run[m].before[rk] == at)
            || (exists m :: i < m < j && OutsideWindow(v, run[m], at))
    ensures Fresh(v.window, run[i].e.signedAt, run[i].now) && Fresh(v.window, run[i].e.signedAt, run[j].now)
  {
    RejectionConsumesNothing(v, run[i]);
    RejectionConsumesNothing(v, run[j]);
    Follow(v, run, i, j, run[i].rk, run[i].e.signedAt);
  }

  /** Under a clock that never goes back only the first can happen. */
  lemma AcceptedTwice(v: Setup, run: seq<Delivery>, i: nat, j: nat)
    requires IsRun(v, run) && ClockForward(run) && i < j < |run|
    requires run[i].verdict.Accepted? && run[j].verdict.Accepted?
    requires run[i].rk == run[j].rk && run[i].e.signedAt == run[j].e.signedAt
    ensures exists m :: i < m < j && PushedOut(v, run[m], run[i].rk) && run[m].before[run[i].rk] == run[i].e.signedAt
  {
    AcceptedTwiceAnyClock(v, run, i, j);
    forall m | i < m < j ensures !OutsideWindow(v, run[m], run[i].e.signedAt) {
      assert run[i].now <= run[m].now <= run[j].now;
    }
  }

  /** The signer's side: the prefixed hexadecimal tag of a message. */
  function Sign(v: Setup, message: Bytes): Bytes { SIGNATURE_PREFIX + EncodeHex(v.mac(v.secret, message)) }

  lemma SignDecodes(v: Setup, message: Bytes)
    requires |v.mac(v.secret, message)| == 32
    ensures DecodeHex(Supplied(Sign(v, message))) == Some(v.mac(v.secret, message))
    ensures !Blank(Sign(v, message))
  {
    var tag := v.mac(v.secret, message);
    HexRoundTrip(tag);
    var signature := Sign(v, message);
    assert signature[..|SIGNATURE_PREFIX|] == SIGNATURE_PREFIX && signature[|SIGNATURE_PREFIX|..] == EncodeHex(tag);
    assert signature[0] == SIGNATURE_PREFIX[0] == 115;
  }

  /** A delivery signed by the verifier's own signer passes every check before the cache. */
  lemma SignedPasses(v: Setup, e: Envelope, now: int, message: Bytes)
    requires |v.mac(v.secret, message)| == 32 && e.signature == Sign(v, message)
    requires !Blank(e.key) && |e.key| <= MAX_KEY_LENGTH && Fresh(v.window, e.signedAt, now)
    ensures Screened(v, e, now, message).None?
  {
    SignDecodes(v, message);
  }

  /** What passes carries the tag of the very message it was checked against. */
  lemma PassedMeansSigned(v: Setup, e: Envelope, now: int, message: Bytes)
    ensures Screened(v, e, now, message).None? ==>
              DecodeHex(Supplied(e.signature)) == Some(v.mac(v.secret, message)) && Fresh(v.window, e.signedAt, now)
  {
  }

  /** What a route-bound signature covers. */
  datatype Bound = Bound(payload: Bytes, key: Bytes, account: Bytes, action: Bytes, signedAt: int)

  function BoundMessage(v: Setup, b: Bound): Bytes {
    BoundPreimage(b.payload, b.key, b.account, b.action, v.render(b.signedAt))
  }

  /** Lengths fit 64 bits and the timestamp renders as UTC text. */
  predicate Encodable(v: Setup, b: Bound) {
    Sized(b.payload) && Sized(b.key) && Sized(b.account) && Sized(b.action) && IsStamp(v.render(b.signedAt))
  }

  /** A signature made for one bound delivery passes for no other bound delivery, barring a MAC
      collision. */
  lemma NotRetargetable(v: Setup, signed: Bound, e: Envelope, account: Bytes, action: Bytes, now: int)
    requires var shown := Bound(e.payload, e.key, account, action, e.signedAt);
             && Encodable(v, signed) && Encodable(v, shown)
             && (v.render(shown.signedAt) == v.render(signed.signedAt) ==> shown.signedAt == signed.signedAt)
             && (v.mac(v.secret, BoundMessage(v, shown)) == v.mac(v.secret, BoundMessage(v, signed)) ==>
                   BoundMessage(v, shown) == BoundMessage(v, signed))
             && |v.mac(v.secret, BoundMessage(v, signed))| == 32
             && e.signature == Sign(v, BoundMessage(v, signed))
             && Screened(v, e, now, BoundMessage(v, shown)).None?
    ensures signed == Bound(e.payload, e.key, account, action, e.signedAt)
  {
    var shown := Bound(e.payload, e.key, account, action, e.signedAt);
    SignDecodes(v, BoundMessage(v, signed));
    PassedMeansSigned(v, e, now, BoundMessage(v, shown));
    assert BoundMessage(v, shown) == BoundMessage(v, signed);
    BoundInjective(e.payload, e.key, account, action, v.render(e.signedAt),
                   signed.payload, signed.key, signed.account, signed.action, v.render(signed.signedAt));
  }

  /** A signature made in the legacy form passes for a bound delivery exactly if it was made for
      that key and time and its payload spelled out that account, action and payload. */
  lemma LegacyRetargetsExactly(v: Setup, q: Bytes, k: Bytes, at: int, e: Envelope, account: Bytes,
                               action: Bytes, now: int)
    requires var shown := Bound(e.payload, e.key, account, action, e.signedAt);
             var legacy := LegacyPreimage(q, k, v.render(at));
             && Encodable(v, shown) && Sized(k) && IsStamp(v.render(at))
             && (v.mac(v.secret, BoundMessage(v, shown)) == v.mac(v.secret, legacy) ==>
                   BoundMessage(v, shown) == legacy)
             && |v.mac(v.secret, legacy)| == 32 && e.signature == Sign(v, legacy)
    requires !Blank(e.key) && |e.key| <= MAX_KEY_LENGTH && Fresh(v.window, e.signedAt, now)
    ensures Screened(v, e, now, BoundMessage(v, Bound(e.payload, e.key, account, action, e.signedAt))).None? <==>
            && k == e.key && v.render(at) == v.render(e.signedAt)
            && q == Field(account) + (Field(action) + (Field(e.payload) + []))
  {
    var shown := Bound(e.payload, e.key, account, action, e.signedAt);
    var fields := Field(account) + (Field(action) + (Field(e.payload) + []));
    var legacy := LegacyPreimage(q, k, v.render(at));
    SignDecodes(v, legacy);
    PassedMeansSigned(v, e, now, BoundMessage(v, shown));
    NestedFields(e.payload, e.key, account, action, v.render(e.signedAt));
    if Screened(v, e, now, BoundMessage(v, shown)).None? {
      assert legacy == LegacyPreimage(fields, e.key, v.render(e.signedAt));
      LegacyInjective(q, k, v.render(at), fields, e.key, v.render(e.signedAt));
    }
    if k == e.key && v.render(at) == v.render(e.signedAt) && q == fields {
      SignedPasses(v, e, now, BoundMessage(v, shown));
    }
  }
}
