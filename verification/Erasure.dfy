/** Crypto-erasure behind the terminal ledger: the two locked sections of an erasure, the
    startup replay, and the boot sequence that must finish before anything is served. */
module Erasure {
  import opened Orders
  import opened Files
  import opened Ledger
  import opened StorageInvariant
  import opened KeyRing
  import opened BlobStore
  import opened Migration

  /** Scopes outside `gone` keep their invariant and their stored content. */
  ghost predicate Preserved(d: Disk, d': Disk, gone: set<Scope>) {
    forall t :: t !in gone ==> ContentKept(d, d', t)
  }

  /** Outside `gone`, no blob but those in `lost` is left rewritten without its marker. */
  ghost predicate MarkersPreserved(d: Disk, d': Disk, gone: set<Scope>, lost: set<(Scope, Digest)>) {
    forall t, dg :: t !in gone && (t, dg) !in lost ==> MarkerKept(d, d', t, dg)
  }

  ghost predicate Safe(d: Disk, d': Disk, gone: set<Scope>, lost: set<(Scope, Digest)>) {
    Preserved(d, d', gone) && MarkersPreserved(d, d', gone, lost)
  }

  lemma SafeTransitive(a: Disk, b: Disk, c: Disk, gone: set<Scope>, gone': set<Scope>,
                       lost: set<(Scope, Digest)>, lost': set<(Scope, Digest)>)
    requires Safe(a, b, gone, lost) && Safe(b, c, gone', lost')
    ensures Safe(a, c, gone + gone', lost + lost')
  {
    forall t | t !in gone + gone' ensures ContentKept(a, c, t) {
      assert ContentKept(a, b, t) && ContentKept(b, c, t);
    }
    forall t, dg | t !in gone + gone' && (t, dg) !in lost + lost' ensures MarkerKept(a, c, t, dg) {
      assert ContentKept(a, b, t) && MarkerKept(a, b, t, dg) && MarkerKept(b, c, t, dg);
    }
  }

  lemma FrameSafe(d: Disk, d': Disk, s: Scope)
    requires Frame(d, d', s)
    ensures Safe(d, d', {s}, {})
  {
    forall t | t != s ensures ContentKept(d, d', t) && MarkersKept(d, d', t) {
      FrameElsewhere(d, d', s, t);
    }
    forall t, dg | t != s ensures MarkerKept(d, d', t, dg) {
      assert MarkersKept(d, d', t);
    }
  }

  /** A section of scope `s` whose only missing marker, if any, is the one of `dg`. */
  lemma SectionSafe(d: Disk, d': Disk, s: Scope, dg: Digest, blind: bool)
    requires KeepsContent(d, d', s)
    requires ScopeInv(d, s) ==> OthersKept(d, d', s, dg) && (!blind ==> MarkerKept(d, d', s, dg))
    ensures Safe(d, d', {}, if blind then {(s, dg)} else {})
  {
    FrameSafe(d, d', s);
    forall t ensures ContentKept(d, d', t) {}
    forall t, x | (t, x) !in (if blind then {(s, dg)} else {}) ensures MarkerKept(d, d', t, x) {
      if t == s && ScopeInv(d, s) && x != dg { assert MarkerKept(d, d', s, x); }
    }
  }

  function SystemBlobs(blind: set<Digest>): (r: set<(Scope, Digest)>)
    ensures forall t, dg :: (t, dg) in r <==> t == SYSTEM_SCOPE && dg in blind
  {
    set dg | dg in blind :: (SYSTEM_SCOPE, dg)
  }

  lemma MigrationSafe(d: Disk, d': Disk, blind: set<Digest>)
    requires SystemOnly(d, d') && forall dg :: dg !in blind ==> MarkerKept(d, d', SYSTEM_SCOPE, dg)
    ensures Safe(d, d', {}, SystemBlobs(blind))
  {
    forall t | t != SYSTEM_SCOPE ensures ContentKept(d, d', t) && MarkersKept(d, d', t) {
      assert Same(d, d', Tombstone(t)) && Same(d, d', KeySlot(t)) && Same(d, d', KeyPending(t));
      forall dg ensures Same(d, d', BlobSlot(t, dg)) && Same(d, d', UpgradePending(t, dg)) {}
      ScopeTransfer(d, d', t);
    }
    assert ContentKept(d, d', SYSTEM_SCOPE);
    forall t, dg | (t, dg) !in SystemBlobs(blind) ensures MarkerKept(d, d', t, dg) {
      if t != SYSTEM_SCOPE { assert MarkersKept(d, d', t); }
    }
  }

  lemma RecoverySafe(d: Disk, d': Disk)
    requires forall x: Slot :: !x.KeyTemp? && !(x.KeySlot? && d.Cur(Tombstone(x.scope)).Some?) ==> Same(d, d', x)
    ensures Safe(d, d', {}, {})
  {
    forall t | ScopeInv(d, t) ensures ContentKept(d, d', t) && MarkersKept(d, d', t) {
      assert d.Cur(Tombstone(t)) in d.MayBe(Tombstone(t));
      assert Same(d, d', Tombstone(t)) && Same(d, d', KeySlot(t)) && Same(d, d', KeyPending(t));
      forall dg ensures Same(d, d', BlobSlot(t, dg)) && Same(d, d', UpgradePending(t, dg)) {}
      ScopeTransfer(d, d', t);
    }
    forall t, dg ensures MarkerKept(d, d', t, dg) {
      if ScopeInv(d, t) { assert MarkersKept(d, d', t); }
    }
  }

  /** Key material that was gone stays gone. */
  ghost predicate GoneKept(d: Disk, d': Disk) {
    forall t :: t != SYSTEM_SCOPE && KeyGone(d, t) ==> KeyGone(d', t)
  }

  lemma SameGone(d: Disk, d': Disk, t: Scope)
    requires KeyGone(d, t)
    requires Same(d, d', Tombstone(t)) && d'.MayBe(KeySlot(t)) <= {None}
    requires forall n :: d'.MayBe(KeyTemp(t, n)) <= {None}
    ensures KeyGone(d', t)
  {
    assert d'.Cur(Tombstone(t)) in d'.MayBe(Tombstone(t)) && d'.Cur(KeySlot(t)) in d'.MayBe(KeySlot(t));
    forall n ensures d'.MayBe(KeyTemp(t, n)) == {None} {
      assert d'.Cur(KeyTemp(t, n)) in d'.MayBe(KeyTemp(t, n));
    }
  }

  /** A section of scope `s` brings back no other scope's key. */
  lemma FrameGone(d: Disk, d': Disk, s: Scope, t: Scope)
    requires Frame(d, d', s) && t != s && KeyGone(d, t)
    ensures KeyGone(d', t)
  {
    assert forall slot :: !OwnedBy(slot, s) ==> Same(d, d', slot);
    assert Same(d, d', KeySlot(t));
    forall n ensures d'.MayBe(KeyTemp(t, n)) <= {None} { assert Same(d, d', KeyTemp(t, n)); }
    SameGone(d, d', t);
  }

  lemma EraseGoneKept(d: Disk, d': Disk, s: Scope)
    requires EraseRel(d, d', s)
    ensures GoneKept(d, d')
  {
    forall t | KeyGone(d, t) ensures KeyGone(d', t) {
      if t != s { FrameGone(d, d', s, t); }
    }
  }

  lemma MigrationGoneKept(d: Disk, d': Disk)
    requires SystemOnly(d, d')
    ensures GoneKept(d, d')
  {
    forall t | t != SYSTEM_SCOPE && KeyGone(d, t) ensures KeyGone(d', t) {
      assert Same(d, d', Tombstone(t)) && Same(d, d', KeySlot(t));
      forall n ensures d'.MayBe(KeyTemp(t, n)) <= {None} { assert Same(d, d', KeyTemp(t, n)); }
      SameGone(d, d', t);
    }
  }

  lemma RecoveryGoneKept(d: Disk, d': Disk)
    requires forall s :: Same(d, d', Tombstone(s))
    requires forall x: Slot :: d'.MayBe(x) <= d.MayBe(x) + {None}
    ensures GoneKept(d, d')
  {
    forall t | KeyGone(d, t) ensures KeyGone(d', t) {
      assert d'.MayBe(KeySlot(t)) <= d.MayBe(KeySlot(t)) + {None};
      forall n ensures d'.MayBe(KeyTemp(t, n)) <= {None} {
        assert d'.MayBe(KeyTemp(t, n)) <= d.MayBe(KeyTemp(t, n)) + {None};
      }
      SameGone(d, d', t);
    }
  }

  /** No temporary key file is left of any counterparty, and no key beside a tombstone. */
  ghost predicate Tidy(d: Disk) {
    forall t :: t != SYSTEM_SCOPE ==> TidyScope(d, t)
  }

  ghost predicate TidyScope(d: Disk, t: Scope) {
    && (forall n :: d.Cur(KeyTemp(t, n)).None?)
    && (d.Cur(Tombstone(t)).Some? ==> d.Cur(KeySlot(t)).None?)
  }

  lemma EraseTidy(d: Disk, d': Disk, s: Scope)
    requires Tidy(d) && EraseRel(d, d', s) && KeyGone(d', s)
    ensures Tidy(d')
  {
    forall t | t != SYSTEM_SCOPE ensures TidyScope(d', t) {
      if t == s {
        assert d'.Cur(KeySlot(t)) in d'.MayBe(KeySlot(t));
        forall n ensures d'.Cur(KeyTemp(t, n)).None? { assert d'.Cur(KeyTemp(t, n)) in d'.MayBe(KeyTemp(t, n)); }
      } else {
        assert TidyScope(d, t) && d'.Cur(KeySlot(t)) == d.Cur(KeySlot(t));
        forall n ensures d'.Cur(KeyTemp(t, n)).None? { assert d'.Cur(KeyTemp(t, n)) == d.Cur(KeyTemp(t, n)); }
      }
    }
  }

  lemma MigrationTidy(d: Disk, d': Disk)
    requires SystemOnly(d, d') && Tidy(d)
    ensures Tidy(d')
  {
    forall t | t != SYSTEM_SCOPE ensures TidyScope(d', t) {
      assert TidyScope(d, t) && d'.Cur(KeySlot(t)) == d.Cur(KeySlot(t));
      forall n ensures d'.Cur(KeyTemp(t, n)).None? { assert d'.Cur(KeyTemp(t, n)) == d.Cur(KeyTemp(t, n)); }
    }
  }

  // -------- the sections, as relations --------

  /** First section: the ledger entry, then the closure in memory. After an error the id may be
      in the ledger while the scope stays open in this process. */
  ghost predicate RecordRel(l: LedgerState, l': LedgerState, closed: set<Scope>, closed': set<Scope>, s: Scope,
                            r: Res<()>) {
    && (s == SYSTEM_SCOPE ==> r == Err(ReservedScope) && l' == l)
    && RecordsTo(l, l', s, r.Ok?)
    && closed' == if r.Ok? then closed + {s} else closed
  }

  /** Second section: the database marker is committed before anything else is touched. The answer
      is whether there was a key to delete. */
  ghost predicate FinishRel(d: Disk, d': Disk, db: set<Scope>, db': set<Scope>, closed: set<Scope>, closed': set<Scope>,
                            s: Scope, r: Res<bool>)
  {
    && EraseRel(d, d', s) && (s !in db' ==> d' == d)
    && (db' == db || db' == db + {s}) && (closed' == closed || closed' == closed + {s})
    && (s == SYSTEM_SCOPE ==> r.Err? && db' == db && closed' == closed && d' == d)
    && (r.Ok? ==> s in db' && s in closed' && KeyGone(d', s) && r.value == d.Cur(KeySlot(s)).Some?)
  }

  /** A boot: only one that returned true goes on to serve, and it has closed every id of the
      ledger, removed every marked key, and swept what a crash left of other erasures. */
  ghost predicate BootRel(d: Disk, d': Disk, db: set<Scope>, db': set<Scope>, ids: set<Scope>, closed': set<Scope>,
                          blind: set<Digest>, ok: bool)
  {
    && Safe(d, d', db', SystemBlobs(blind)) && GoneKept(d, d') && (ok ==> blind == {})
    && (ScopeInv(d, SYSTEM_SCOPE) ==> forall dg <- blind :: MarkerLost(d, d', SYSTEM_SCOPE, dg))
    && db <= db' <= db + ids && closed' <= ids
    && (ok ==> closed' == ids && ids <= db' && SYSTEM_SCOPE !in db' && forall s <- db' :: KeyGone(d', s))
    && (ok ==> Tidy(d'))
  }

  class Kernel {
    const keys: CounterpartyKeyRing
    const store: ArtifactStore
    const migrator: Migrator
    /** Outside the data root. */
    const ledger: TerminalLedger
    /** Committed `erased_counterparties` rows inside the data root. */
    var db: set<Scope>

    constructor (vol: Volume, ledger: TerminalLedger, db: set<Scope>)
      ensures keys.vol == vol && keys.closed == {} && store.keys == keys && migrator.store == store
      ensures this.ledger == ledger && this.db == db && fresh(keys)
    {
      var ring := new CounterpartyKeyRing(vol);
      var blobs := new ArtifactStore(ring);
      var mover := new Migrator(blobs);
      keys, store, migrator := ring, blobs, mover;
      this.ledger, this.db := ledger, db;
    }

    /** First locked section. */
    method RecordErasure(s: Scope) returns (r: Res<()>)
      modifies ledger, ledger.vol`next, ledger.vol`alive, keys`closed
      ensures old(ledger.vol.Healthy()) && s != SYSTEM_SCOPE ==> r.Ok? && ledger.vol.Healthy()
      ensures RecordRel(old(ledger.State()), ledger.State(), old(keys.closed), keys.closed, s, r)
    {
      if s == SYSTEM_SCOPE { return Err(ReservedScope); }
      var ok := ledger.Record(s);
      if !ok { return Err(Io); }
      keys.CloseScopeInMemory(s);
      r := Ok(());
    }

    /** Second locked section: the database transaction, closure again, then the key. */
    method FinishLocalErasure(s: Scope, commits: bool) returns (r: Res<bool>)
      modifies this`db, keys`closed, keys.vol
      ensures old(keys.vol.Healthy()) && commits && s != SYSTEM_SCOPE ==> r.Ok? && keys.vol.Healthy()
      ensures FinishRel(old(keys.vol.disk), keys.vol.disk, old(db), db, old(keys.closed), keys.closed, s, r)
      ensures if commits && s != SYSTEM_SCOPE then s in db && s in keys.closed
              else r.Err? && db == old(db) && keys.closed == old(keys.closed)
    {
      if s == SYSTEM_SCOPE { return Err(ReservedScope); }
      if !commits { return Err(Io); }
      db := db + {s};
      keys.CloseScopeInMemory(s);
      r := keys.EraseLocked(s);
    }

    /** `erase_counterparty`: both sections in order. A failure of the second leaves the
        scope recorded and closed. */
    method EraseCounterparty(s: Scope, commits: bool) returns (r: Res<bool>, ghost recorded: Res<()>)
      requires ledger.vol == keys.vol
      modifies this`db, ledger, keys`closed, keys.vol
      ensures old(keys.vol.Healthy()) && commits && s != SYSTEM_SCOPE ==> r.Ok?
      ensures exists closed: set<Scope> ::
                && RecordRel(old(ledger.State()), ledger.State(), old(keys.closed), closed, s, recorded)
                && if recorded.Err? then r == Err(recorded.error) && keys.closed == closed && db == old(db)
                                         && keys.vol.disk == old(keys.vol.disk)
                   else FinishRel(old(keys.vol.disk), keys.vol.disk, old(db), db, closed, keys.closed, s, r)
      ensures r.Ok? ==> s in ledger.ids && s in keys.closed && s in db && KeyGone(keys.vol.disk, s)
      ensures r.Ok? ==> r.value == old(keys.vol.disk).Cur(KeySlot(s)).Some?
    {
      var first := RecordErasure(s);
      recorded := first;
      if first.Err? { r := Err(first.error); return; }
      r := FinishLocalErasure(s, commits);
    }

    /** One id of the ledger: closed first, then cleaned up. */
    method ReconcileOne(s: Scope, commits: bool) returns (ok: bool)
      modifies this`db, keys`closed, keys.vol
      ensures old(keys.vol.Healthy()) && commits && s != SYSTEM_SCOPE ==> ok && keys.vol.Healthy()
      ensures EraseRel(old(keys.vol.disk), keys.vol.disk, s) && (s !in db ==> keys.vol.disk == old(keys.vol.disk))
      ensures db == old(db) || db == old(db) + {s}
      ensures keys.closed == old(keys.closed) || keys.closed == old(keys.closed) + {s}
      ensures ok ==> s != SYSTEM_SCOPE && s in db && s in keys.closed && KeyGone(keys.vol.disk, s)
    {
      if s == SYSTEM_SCOPE { return false; }
      keys.CloseScopeInMemory(s);
      var done := FinishLocalErasure(s, commits);
      ok := done.Ok?;
    }

    /** Replay the ledger: close each id before any cleanup, and stop at the first failure. */
    method Reconcile(ids: seq<Scope>, commits: seq<bool>) returns (ok: bool)
      requires |commits| == |ids| && ledger.ids == Elements(ids)
      modifies this`db, keys`closed, keys.vol
      ensures old(keys.vol.Healthy()) && (forall c <- commits :: c) && SYSTEM_SCOPE !in ledger.ids ==> ok
      ensures Safe(old(keys.vol.disk), keys.vol.disk, db, {}) && GoneKept(old(keys.vol.disk), keys.vol.disk)
      ensures old(db) <= db <= old(db) + ledger.ids
      ensures old(keys.closed) <= keys.closed <= old(keys.closed) + ledger.ids
      ensures ok ==> ledger.ids <= keys.closed && ledger.ids <= db && SYSTEM_SCOPE !in ledger.ids
      ensures ok ==> forall s <- ledger.ids :: KeyGone(keys.vol.disk, s)
      ensures ok && Tidy(old(keys.vol.disk)) ==> Tidy(keys.vol.disk)
    {
      ghost var d0 := keys.vol.disk;
      RecoverySafe(d0, d0);
      var i := 0;
      while i < |ids|
        invariant 0 <= i <= |ids|
        invariant Safe(d0, keys.vol.disk, db, {}) && GoneKept(d0, keys.vol.disk)
        invariant old(keys.vol.Healthy()) && (forall c <- commits :: c) ==> keys.vol.Healthy()
        invariant old(db) <= db <= old(db) + ledger.ids
        invariant old(keys.closed) <= keys.closed <= old(keys.closed) + ledger.ids
        invariant Cleaned(ids, i, keys.closed, db, keys.vol.disk)
        invariant Tidy(d0) ==> Tidy(keys.vol.disk)
      {
        assert ids[i] in ids && commits[i] in commits;
        ghost var d1, db1, closed1 := keys.vol.disk, db, keys.closed;
        ok := ReconcileOne(ids[i], commits[i]);
        FinishSafe(d0, d1, keys.vol.disk, db1, db, ids[i]);
        if !ok { return; }
        CleanedStep(ids, i, closed1, keys.closed, db1, db, d1, keys.vol.disk);
        if Tidy(d0) { EraseTidy(d1, keys.vol.disk, ids[i]); }
        i := i + 1;
      }
      ok := true;
    }

    /** Database markers are replayed into the key ring first. */
    method ReplayMarkers(ids: seq<Scope>) returns (ok: bool)
      requires db == Elements(ids)
      modifies keys.vol
      ensures old(keys.vol.Healthy()) && SYSTEM_SCOPE !in db ==> ok && keys.vol.Healthy()
      ensures Safe(old(keys.vol.disk), keys.vol.disk, db, {}) && GoneKept(old(keys.vol.disk), keys.vol.disk)
      ensures ok ==> SYSTEM_SCOPE !in db && forall s <- db :: KeyGone(keys.vol.disk, s)
      ensures ok && Tidy(old(keys.vol.disk)) ==> Tidy(keys.vol.disk)
    {
      ghost var d0 := keys.vol.disk;
      RecoverySafe(d0, d0);
      var i := 0;
      while i < |ids|
        invariant 0 <= i <= |ids|
        invariant old(keys.vol.Healthy()) && SYSTEM_SCOPE !in db ==> keys.vol.Healthy()
        invariant Safe(d0, keys.vol.disk, db, {}) && GoneKept(d0, keys.vol.disk)
        invariant forall k :: 0 <= k < i ==> ids[k] != SYSTEM_SCOPE && KeyGone(keys.vol.disk, ids[k])
        invariant Tidy(d0) ==> Tidy(keys.vol.disk)
      {
        ghost var d1 := keys.vol.disk;
        assert ids[i] in ids;
        var erased := keys.Erase(ids[i]);
        FinishSafe(d0, d1, keys.vol.disk, db, db, ids[i]);
        if erased.Err? { return false; }
        if Tidy(d0) { EraseTidy(d1, keys.vol.disk, ids[i]); }
        i := i + 1;
      }
      ok := true;
    }

    /** Before any erasure is replayed: key ring recovery, then the legacy migration. */
    method PrepareRoot(legacyKey: Key, listing: seq<Digest>, drawn: Key, nonce: nat)
      returns (ok: bool, ghost blind: set<Digest>)
      requires migrator.store == store && store.keys == keys && Listing(keys.vol.disk, listing)
      modifies keys.vol
      ensures Smooth(old(keys.vol.Healthy()), old(keys.vol.disk), keys.closed) ==> ok && keys.vol.Healthy()
      ensures Safe(old(keys.vol.disk), keys.vol.disk, {}, SystemBlobs(blind)) && (ok ==> blind == {})
      ensures ScopeInv(old(keys.vol.disk), SYSTEM_SCOPE) ==>
                forall dg <- blind :: MarkerLost(old(keys.vol.disk), keys.vol.disk, SYSTEM_SCOPE, dg)
      ensures GoneKept(old(keys.vol.disk), keys.vol.disk) && (ok ==> Tidy(keys.vol.disk))
    {
      ghost var d0 := keys.vol.disk;
      blind := {};
      ok := keys.RecoverPendingErasures();
      ghost var d1 := keys.vol.disk;
      RecoverySafe(d0, d1);
      assert forall s :: Same(d0, d1, Tombstone(s));
      RecoveryGoneKept(d0, d1);
      if !ok { return; }
      assert forall dg :: Same(d0, d1, Flat(dg));
      assert Listing(d1, listing);
      assert ContentKept(d0, d1, SYSTEM_SCOPE);
      var moved;
      ghost var missed;
      moved, missed := migrator.MigrateLegacyBlobs(legacyKey, listing, drawn, nonce);
      blind := missed.blind;
      forall dg ensures Same(d0, d1, BlobSlot(SYSTEM_SCOPE, dg)) && Same(d0, d1, UpgradePending(SYSTEM_SCOPE, dg)) {}
      MigrationSafe(d1, keys.vol.disk, blind);
      MigrationGoneKept(d1, keys.vol.disk);
      MigrationTidy(d1, keys.vol.disk);
      SafeTransitive(d0, d1, keys.vol.disk, {}, {}, {}, SystemBlobs(blind));
      ok := moved.Ok?;
    }

    /** The boot order: preparation, database markers, ledger. */
    method Boot(legacyKey: Key, listing: seq<Digest>, drawn: Key, nonce: nat,
                markers: seq<Scope>, ids: seq<Scope>, commits: seq<bool>) returns (ok: bool, ghost blind: set<Digest>)
      requires migrator.store == store && store.keys == keys && keys.closed == {}
      requires Listing(keys.vol.disk, listing)
      requires db == Elements(markers) && |commits| == |ids| && ledger.ids == Elements(ids)
      modifies this`db, keys`closed, keys.vol
      ensures (&& old(keys.vol.Healthy()) && (forall c <- commits :: c) && ScopeInv(old(keys.vol.disk), SYSTEM_SCOPE)
               && SYSTEM_SCOPE !in old(db) + ledger.ids) ==> ok
      ensures BootRel(old(keys.vol.disk), keys.vol.disk, old(db), db, ledger.ids, keys.closed, blind, ok)
    {
      ghost var d0, db0 := keys.vol.disk, db;
      ok, blind := PrepareRoot(legacyKey, listing, drawn, nonce);
      ghost var d2, lost := keys.vol.disk, SystemBlobs(blind);
      RecoverySafe(d2, d2);
      SafeTransitive(d0, d2, d2, {}, db, lost, {});
      if !ok { return; }
      ok := ReplayMarkers(markers);
      ghost var d3 := keys.vol.disk;
      SafeTransitive(d0, d2, d3, {}, db, lost, {});
      if !ok { return; }
      ok := Reconcile(ids, commits);
      SafeTransitive(d0, d3, keys.vol.disk, db0, db, lost, {});
      assert db0 + db == db;
      if ok { MarkedGone(d3, keys.vol.disk, db0, db, ledger.ids); }
    }
  }

  /** The first `i` ids are closed, marked and without key. */
  ghost predicate Cleaned(ids: seq<Scope>, i: nat, closed: set<Scope>, db: set<Scope>, d: Disk)
    requires i <= |ids|
  {
    forall k :: 0 <= k < i ==> ids[k] in closed && ids[k] in db && ids[k] != SYSTEM_SCOPE && KeyGone(d, ids[k])
  }

  lemma CleanedStep(ids: seq<Scope>, i: nat, closed: set<Scope>, closed': set<Scope>, db: set<Scope>, db': set<Scope>,
                    d: Disk, d': Disk)
    requires i < |ids| && Cleaned(ids, i, closed, db, d) && closed <= closed' && db <= db'
    requires EraseRel(d, d', ids[i])
    requires ids[i] in closed' && ids[i] in db' && ids[i] != SYSTEM_SCOPE && KeyGone(d', ids[i])
    ensures Cleaned(ids, i + 1, closed', db', d')
  {
    EraseGoneKept(d, d', ids[i]);
  }

  /** One more erasure whose marker is in `db'`. */
  lemma FinishSafe(d0: Disk, d1: Disk, d2: Disk, db: set<Scope>, db': set<Scope>, s: Scope)
    requires Safe(d0, d1, db, {}) && GoneKept(d0, d1) && EraseRel(d1, d2, s) && (s !in db' ==> d2 == d1) && db <= db'
    ensures Safe(d0, d2, db', {}) && GoneKept(d0, d2)
  {
    EraseGoneKept(d1, d2, s);
    if s in db' {
      FrameSafe(d1, d2, s);
      SafeTransitive(d0, d1, d2, db, {s}, {}, {});
    }
  }

  lemma MarkedGone(d: Disk, d': Disk, db: set<Scope>, db': set<Scope>, ids: set<Scope>)
    requires GoneKept(d, d') && db' <= db + ids && SYSTEM_SCOPE !in db
    requires (forall s <- db :: KeyGone(d, s)) && (forall s <- ids :: KeyGone(d', s))
    ensures forall s <- db' :: KeyGone(d', s)
  {
  }
}
