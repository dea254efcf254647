/** The per-counterparty key ring. Every method is one section run under the scope's
    lock; each file operation inside it may fail or be the last one before a crash. */
module KeyRing {
  import opened Orders
  import opened Files
  import opened StorageInvariant

  datatype StoreError =
    | Io | ErasedScope | ReservedScope | DecryptFailed | DigestMismatch | UnknownFormat | Truncated

  datatype Res<+T> = Ok(value: T) | Err(error: StoreError)

  // -------- small frames --------

  /** Contents unchanged; only certainty may have grown. */
  ghost predicate Settled(d: Disk, d': Disk) {
    forall x :: d'.Cur(x) == d.Cur(x) && d'.MayBe(x) <= d.MayBe(x)
  }

  /** Nothing changed but one slot's content and certainty elsewhere. */
  ghost predicate OnlySlot(d: Disk, d': Disk, slot: Slot) {
    forall x :: x != slot ==> d'.Cur(x) == d.Cur(x) && d'.MayBe(x) <= d.MayBe(x)
  }

  /** Nothing changed but one blob, its upgrade marker, and certainty elsewhere. */
  ghost predicate OnlyBlob(d: Disk, d': Disk, s: Scope, dg: Digest) {
    forall x: Slot :: x != UpgradePending(s, dg) && x != BlobSlot(s, dg) ==>
      d'.Cur(x) == d.Cur(x) && d'.MayBe(x) <= d.MayBe(x)
  }

  /** Some of `slots` were unlinked and nothing else happened. */
  ghost predicate Unlinked(d: Disk, d': Disk, slots: set<Slot>) {
    forall x :: if x in slots then d'.Cur(x) in {d.Cur(x), None} && d'.MayBe(x) <= d.MayBe(x) + {None}
                else d'.Cur(x) == d.Cur(x) && d'.MayBe(x) == d.MayBe(x)
  }

  /** Nothing outside the keys directory changed. */
  ghost predicate KeysOnly(d: Disk, d': Disk) {
    forall x :: !InKeysDir(x) ==> d'.Cur(x) == d.Cur(x) && d'.MayBe(x) == d.MayBe(x)
  }

  /** The entry is there, and no crash can take it away. */
  ghost predicate Durable(d: Disk, slot: Slot) {
    d.Cur(slot).Some? && d.MayBe(slot) == {d.Cur(slot)}
  }

  /** Every temporary key file of the scope was there before. */
  ghost predicate NoNewTemp(d: Disk, d': Disk, s: Scope) {
    forall m :: d'.Cur(KeyTemp(s, m)).Some? ==> d'.Cur(KeyTemp(s, m)) == d.Cur(KeyTemp(s, m))
  }

  /** Keeping the key slots and the blob slots is enough. */
  lemma SameKeeps(d: Disk, d': Disk, s: Scope)
    requires Frame(d, d', s)
    requires Same(d, d', Tombstone(s)) && Same(d, d', KeySlot(s))
    requires forall dg :: Same(d, d', BlobSlot(s, dg)) && Same(d, d', UpgradePending(s, dg))
    requires ScopeInv(d, s) ==>
               KeyAt(d, s).None? || KeyPublished(d, s) || KeyPublished(d', s) || d'.Cur(KeyPending(s)).Some?
    ensures Keeps(d, d', s)
  {
    if ScopeInv(d, s) {
      KeyTransfer(d, d', s);
      BlobTransfer(d, d', s);
      MarksTransfer(d, d', s);
      forall dg | None !in d.MayBe(BlobSlot(s, dg)) ensures None !in d'.MayBe(BlobSlot(s, dg)) {
        assert Same(d, d', BlobSlot(s, dg));
      }
    }
  }

  lemma SettledKeeps(d: Disk, d': Disk, s: Scope)
    requires Settled(d, d')
    ensures Keeps(d, d', s)
  {
    assert forall x :: Same(d, d', x);
    SameKeeps(d, d', s);
  }

  /** Dropping the key-pending marker is safe once the key is absent or published. */
  lemma PendingOnlyKeeps(d: Disk, d': Disk, s: Scope)
    requires OnlySlot(d, d', KeyPending(s))
    requires ScopeInv(d, s) ==> KeyAt(d, s).None? || KeyPublished(d, s) || d'.Cur(KeyPending(s)).Some?
    ensures Keeps(d, d', s)
  {
    assert forall x :: x != KeyPending(s) ==> Same(d, d', x);
    SameKeeps(d, d', s);
  }

  lemma TempOnlyKeeps(d: Disk, d': Disk, s: Scope, n: nat)
    requires OnlySlot(d, d', KeyTemp(s, n))
    ensures Keeps(d, d', s)
  {
    assert forall x :: x != KeyTemp(s, n) ==> Same(d, d', x);
    SameKeeps(d, d', s);
  }

  lemma KeepsTransitive(a: Disk, b: Disk, c: Disk, s: Scope)
    requires Keeps(a, b, s) && Keeps(b, c, s)
    ensures Keeps(a, c, s)
  {
    forall dg ensures MarkerKept(a, c, s, dg) {
      assert MarkerKept(a, b, s, dg) && MarkerKept(b, c, s, dg);
    }
  }

  /** Linking a first key behind its marker, or rewriting a key file with the same key. */
  lemma PublishKeeps(d: Disk, d': Disk, s: Scope, key: Key)
    requires ScopeInv(d, s) ==> d.Cur(KeyPending(s)).Some? && (KeyAt(d, s).None? || KeyAt(d, s) == Some(key))
    requires OnlySlot(d, d', KeySlot(s)) && d'.Cur(KeySlot(s)) == Some(KeyFile(key, false))
    requires d'.MayBe(KeySlot(s)) == d.MayBe(KeySlot(s)) + {Some(KeyFile(key, false))}
    ensures Keeps(d, d', s)
  {
    assert forall x :: x != KeySlot(s) ==> Same(d, d', x);
    if ScopeInv(d, s) {
      assert Same(d, d', Tombstone(s)) && d'.Cur(Tombstone(s)) in d'.MayBe(Tombstone(s));
      assert Same(d, d', KeyPending(s));
      assert KeyInv(d', s);
      assert KeyPublished(d, s) ==> KeyPublished(d', s) && KeyAt(d', s) == KeyAt(d, s);
      forall dg ensures Same(d, d', BlobSlot(s, dg)) && Same(d, d', UpgradePending(s, dg)) {}
      MarksTransfer(d, d', s);
      forall dg, f | f in d'.MayBe(BlobSlot(s, dg)) && f.Some?
        ensures d'.Cur(BlobSlot(s, dg)).Some? && KeyPublished(d', s) && GoodBlob(f.value, s, dg, KeyAt(d', s).value)
      {
        assert Same(d, d', BlobSlot(s, dg)) && f in d.MayBe(BlobSlot(s, dg));
      }
    }
  }

  lemma RenameKeeps(d: Disk, d': Disk, s: Scope, n: nat, key: Key)
    requires ScopeInv(d, s) ==> d.Cur(KeyPending(s)).Some? && (KeyAt(d, s).None? || KeyAt(d, s) == Some(key))
    requires d' == d.Write(KeySlot(s), KeyFile(key, false)).Unlink(KeyTemp(s, n))
    ensures Keeps(d, d', s)
  {
    var linked := d.Write(KeySlot(s), KeyFile(key, false));
    PublishKeeps(d, linked, s, key);
    TempOnlyKeeps(linked, d', s, n);
    KeepsTransitive(d, linked, d', s);
  }

  /** The key is in its current wrapping, with neither tombstone nor pending marker: obtaining it
      changes nothing. */
  ghost predicate KeyAtRest(d: Disk, s: Scope, key: Key) {
    d.Cur(Tombstone(s)).None? && d.Cur(KeySlot(s)) == Some(KeyFile(key, false)) && d.Cur(KeyPending(s)).None?
  }

  /** The scope is closed in this process, or its tombstone is in place. */
  ghost predicate Barred(d: Disk, closed: set<Scope>, s: Scope) {
    s in closed || d.Cur(Tombstone(s)).Some?
  }

  class CounterpartyKeyRing {
    const vol: Volume
    /** Scopes closed in this process. */
    var closed: set<Scope>

    constructor (vol: Volume)
      ensures this.vol == vol && closed == {}
    {
      this.vol := vol;
      closed := {};
    }

    method CloseScopeInMemory(s: Scope)
      modifies this`closed
      ensures closed == old(closed) + {s}
    {
      closed := closed + {s};
    }

    // -------- the key-pending marker --------

    method MarkKeyPending(s: Scope) returns (ok: bool)
      modifies vol
      ensures old(vol.Healthy()) ==> ok && vol.Healthy()
      ensures KeysOnly(old(vol.disk), vol.disk)
      ensures OnlySlot(old(vol.disk), vol.disk, KeyPending(s))
      ensures old(vol.disk).Cur(KeyPending(s)).Some? ==> vol.disk.Cur(KeyPending(s)).Some?
      ensures ok ==> Durable(vol.disk, KeyPending(s))
    {
      var found;
      ok, found := vol.Look(KeyPending(s));
      if !ok { return; }
      if found.None? {
        ok := vol.Create(KeyPending(s), Mark);
        if !ok { return; }
      }
      ok := vol.Attempt();
      if !ok { return; }
      ok := vol.FsyncKeys();
    }

    method ClearKeyPending(s: Scope) returns (ok: bool)
      modifies vol
      ensures old(vol.Healthy()) ==> ok && vol.Healthy()
      ensures KeysOnly(old(vol.disk), vol.disk)
      ensures OnlySlot(old(vol.disk), vol.disk, KeyPending(s))
      ensures ok ==> vol.disk.MayBe(KeyPending(s)) == {None}
      ensures !ok && vol.alive ==>
                || vol.disk == old(vol.disk)
                || Durable(vol.disk, KeyPending(s))
                || vol.TroubleTwice(old(vol.next), vol.next)
    {
      ok := vol.Remove(KeyPending(s));
      if !ok { return; }
      ok := vol.FsyncKeys();
      if !ok {
        // The unlink is visible but not durable: plant the marker again, durably.
        ghost var failed := vol.next;
        var planted := vol.Create(KeyPending(s), Mark);
        if planted { planted := vol.Attempt(); }
        if planted { planted := vol.FsyncKeys(); }
        assert vol.alive && !planted ==> vol.Trouble(failed, vol.next);
      }
    }

    method SyncKeyFileAndDir(s: Scope) returns (ok: bool)
      modifies vol
      ensures old(vol.Healthy()) ==> ok && vol.Healthy()
      ensures Settled(old(vol.disk), vol.disk) && KeysOnly(old(vol.disk), vol.disk)
      ensures ok ==> vol.disk.MayBe(KeySlot(s)) == {vol.disk.Cur(KeySlot(s))}
    {
      ok := vol.Attempt();
      if ok { ok := vol.Attempt(); }
      if ok { ok := vol.FsyncKeys(); }
    }

    method RecoverPendingKey(s: Scope) returns (ok: bool)
      modifies vol
      ensures old(vol.Healthy()) ==> ok && vol.Healthy()
      ensures KeysOnly(old(vol.disk), vol.disk)
      ensures Keeps(old(vol.disk), vol.disk, s) && vol.disk.Cur(KeySlot(s)) == old(vol.disk).Cur(KeySlot(s))
      ensures ok && ScopeInv(old(vol.disk), s) && KeyAt(vol.disk, s).Some? ==> KeyPublished(vol.disk, s)
      ensures NoNewTemp(old(vol.disk), vol.disk, s)
      ensures old(vol.Steady(1)) && old(vol.disk).Cur(KeyPending(s)).None? ==>
                ok && vol.alive && vol.next == old(vol.next) + 1 && vol.disk == old(vol.disk)
    {
      ghost var d0 := vol.disk;
      var found, tomb;
      ok, found := vol.Look(KeyPending(s));
      if !ok || found.None? { return; }
      ok, tomb := vol.Look(Tombstone(s));
      if !ok { return; }
      if tomb.None? {
        ok := SyncKeyFileAndDir(s);
        SettledKeeps(d0, vol.disk, s);
        if !ok { return; }
      }
      ghost var d1 := vol.disk;
      ok := ClearKeyPending(s);
      PendingOnlyKeeps(d1, vol.disk, s);
      KeepsTransitive(d0, d1, vol.disk, s);
    }

    // -------- key files --------

    /** Create, write and sync a temporary key file. */
    method WriteTemp(s: Scope, n: nat, key: Key) returns (ok: bool)
      modifies vol
      ensures old(vol.Healthy()) ==> ok && vol.Healthy()
      ensures KeysOnly(old(vol.disk), vol.disk)
      ensures OnlySlot(old(vol.disk), vol.disk, KeyTemp(s, n))
    {
      ok := vol.Create(KeyTemp(s, n), KeyFile(key, false));
      if ok { ok := vol.Attempt(); }
      if ok { ok := vol.Attempt(); }
    }

    /** Plant the marker durably, then stage the key in a temporary file. */
    method StageKey(s: Scope, n: nat, key: Key) returns (marked: bool, ok: bool)
      modifies vol
      ensures old(vol.Healthy()) ==> marked && ok && vol.Healthy()
      ensures KeysOnly(old(vol.disk), vol.disk)
      ensures Keeps(old(vol.disk), vol.disk, s)
      ensures Same(old(vol.disk), vol.disk, KeySlot(s))
      ensures forall m :: m != n ==> vol.disk.Cur(KeyTemp(s, m)) == old(vol.disk).Cur(KeyTemp(s, m))
      ensures marked ==> vol.disk.Cur(KeyPending(s)).Some?
      ensures ok ==> marked
    {
      ghost var d0 := vol.disk;
      ok := false;
      marked := MarkKeyPending(s);
      PendingOnlyKeeps(d0, vol.disk, s);
      if !marked { return; }
      ghost var d1 := vol.disk;
      ok := WriteTemp(s, n, key);
      TempOnlyKeeps(d1, vol.disk, s, n);
      KeepsTransitive(d0, d1, vol.disk, s);
    }

    method RemoveTemp(s: Scope, n: nat) returns (ok: bool)
      modifies vol
      ensures old(vol.Healthy()) ==> ok && vol.Healthy()
      ensures KeysOnly(old(vol.disk), vol.disk)
      ensures Keeps(old(vol.disk), vol.disk, s)
      ensures Same(old(vol.disk), vol.disk, KeySlot(s)) && Same(old(vol.disk), vol.disk, KeyPending(s))
      ensures NoNewTemp(old(vol.disk), vol.disk, s) && (ok ==> vol.disk.Cur(KeyTemp(s, n)).None?)
    {
      ghost var d0 := vol.disk;
      ok := vol.Remove(KeyTemp(s, n));
      TempOnlyKeeps(d0, vol.disk, s, n);
    }

    /** Rewrite a legacy key file in the current wrapping, same key. */
    method MigrateLegacyKey(s: Scope, n: nat, key: Key) returns (ok: bool)
      requires KeyAt(vol.disk, s) == Some(key)
      modifies vol
      ensures old(vol.Healthy()) ==> ok && vol.Healthy()
      ensures KeysOnly(old(vol.disk), vol.disk)
      ensures Keeps(old(vol.disk), vol.disk, s) && KeyAt(vol.disk, s) == Some(key)
      ensures ok && ScopeInv(old(vol.disk), s) ==> KeyPublished(vol.disk, s)
      ensures ok && old(vol.disk).Cur(Tombstone(s)).None? ==>
                Durable(vol.disk, KeySlot(s)) && vol.disk.Cur(KeySlot(s)) == Some(KeyFile(key, false))
      ensures ok ==> NoNewTemp(old(vol.disk), vol.disk, s)
    {
      ghost var d0 := vol.disk;
      var tomb, marked;
      ok, tomb := vol.Look(Tombstone(s));
      if !ok || tomb.Some? { return; }
      marked, ok := StageKey(s, n, key);
      if !marked { return; }
      ghost var d1 := vol.disk;
      if !ok {
        var removed := RemoveTemp(s, n);
      } else {
        ok := ReplaceKeyFile(s, n, key);
      }
      KeepsTransitive(d0, d1, vol.disk, s);
    }

    /** Rename the staged file over the key, behind the marker, and finish the publication. */
    method ReplaceKeyFile(s: Scope, n: nat, key: Key) returns (ok: bool)
      requires KeyAt(vol.disk, s) == Some(key) && vol.disk.Cur(KeyPending(s)).Some?
      modifies vol
      ensures old(vol.Healthy()) ==> ok && vol.Healthy()
      ensures KeysOnly(old(vol.disk), vol.disk)
      ensures Keeps(old(vol.disk), vol.disk, s) && KeyAt(vol.disk, s) == Some(key)
      ensures ok ==> Durable(vol.disk, KeySlot(s)) && vol.disk.Cur(KeySlot(s)) == Some(KeyFile(key, false))
      ensures NoNewTemp(old(vol.disk), vol.disk, s) && (ok ==> vol.disk.Cur(KeyTemp(s, n)).None?)
    {
      ghost var d1 := vol.disk;
      // The second tombstone check sees what the first one saw: the scope lock is held.
      ok := vol.Attempt();
      if ok { ok := vol.Rename(KeyTemp(s, n), KeySlot(s), KeyFile(key, false)); }
      if !ok {
        var removed := RemoveTemp(s, n);
        return;
      }
      ghost var d2 := vol.disk;
      RenameKeeps(d1, d2, s, n, key);
      ok := FinishPublication(s);
      KeepsTransitive(d1, d2, vol.disk, s);
    }

    /** Make a linked key durable, then drop its marker. */
    method FinishPublication(s: Scope) returns (ok: bool)
      modifies vol
      ensures old(vol.Healthy()) ==> ok && vol.Healthy()
      ensures KeysOnly(old(vol.disk), vol.disk)
      ensures Keeps(old(vol.disk), vol.disk, s) && vol.disk.Cur(KeySlot(s)) == old(vol.disk).Cur(KeySlot(s))
      ensures NoNewTemp(old(vol.disk), vol.disk, s)
      ensures ok ==> vol.disk.MayBe(KeySlot(s)) == {vol.disk.Cur(KeySlot(s))}
      ensures ok && KeyAt(vol.disk, s).Some? ==> KeyPublished(vol.disk, s)
    {
      ghost var d0 := vol.disk;
      ok := SyncKeyFileAndDir(s);
      ghost var d1 := vol.disk;
      SettledKeeps(d0, d1, s);
      if !ok { return; }
      ok := ClearKeyPending(s);
      PendingOnlyKeeps(d1, vol.disk, s);
      KeepsTransitive(d0, d1, vol.disk, s);
    }

    /** Read an existing key file, finishing whatever publication is outstanding. */
    method UseExistingKey(s: Scope, n: nat) returns (r: Res<Key>)
      modifies vol
      ensures old(vol.Healthy()) && KeyAt(old(vol.disk), s).Some? ==> r.Ok? && vol.Healthy()
      ensures old(vol.Healthy()) && old(vol.disk).Cur(KeySlot(s)).Some? ==> r != Err(Io)
      ensures r.Err? ==> r.error == Io || (r.error == DecryptFailed && KeyAt(old(vol.disk), s).None?)
      ensures KeysOnly(old(vol.disk), vol.disk)
      ensures Keeps(old(vol.disk), vol.disk, s)
      ensures KeyAt(vol.disk, s) == KeyAt(old(vol.disk), s)
      ensures r.Ok? ==> KeyAt(vol.disk, s) == Some(r.value)
      ensures r.Ok? && ScopeInv(old(vol.disk), s) ==> KeyPublished(vol.disk, s)
      ensures r.Ok? ==> NoNewTemp(old(vol.disk), vol.disk, s)
      ensures r.Ok? && old(vol.disk).Cur(Tombstone(s)).None? ==>
                vol.disk.Cur(KeySlot(s)) == Some(KeyFile(r.value, false))
      ensures forall key: Key :: old(vol.Steady(2)) && KeyAtRest(old(vol.disk), s, key) ==>
                r == Ok(key) && vol.alive && vol.next == old(vol.next) + 2 && vol.disk == old(vol.disk)
    {
      var ok, file := vol.Look(KeySlot(s));
      if !ok || file.None? { return Err(Io); }
      if !file.value.KeyFile? { return Err(DecryptFailed); }
      if file.value.legacy {
        ok := MigrateLegacyKey(s, n, file.value.key);
      } else {
        ok := RecoverPendingKey(s);
      }
      if !ok { return Err(Io); }
      r := Ok(file.value.key);
    }

    /** `get_key_locked`, or its observing variant when `recover` is false. */
    method GetKeyLocked(s: Scope, n: nat, recover: bool) returns (r: Res<Option<Key>>)
      modifies vol
      ensures old(vol.Healthy()) && ScopeInv(old(vol.disk), s) ==> r.Ok? && vol.Healthy()
      ensures old(vol.Healthy()) ==> r != Err(Io) && (r.Ok? ==> vol.Healthy())
      ensures r.Err? ==>
                r.error == Io || (r.error == DecryptFailed && KeyAt(old(vol.disk), s).None?)
      ensures r == Ok(None) ==> Barred(old(vol.disk), closed, s) || KeyAt(old(vol.disk), s).None?
      ensures KeysOnly(old(vol.disk), vol.disk)
      ensures Keeps(old(vol.disk), vol.disk, s)
      ensures !recover || Barred(old(vol.disk), closed, s) ==> vol.disk == old(vol.disk)
      ensures s in closed ==> r == Ok(None)
      ensures Barred(old(vol.disk), closed, s) ==> r == Ok(None) || r == Err(Io)
      ensures KeyAt(vol.disk, s) == KeyAt(old(vol.disk), s)
      ensures r.Ok? && r.value.Some? ==> KeyAt(vol.disk, s) == r.value
      ensures r.Ok? && r.value.Some? && recover ==> vol.disk.Cur(KeySlot(s)) == Some(KeyFile(r.value.value, false))
      ensures r.Ok? && r.value.Some? && recover && ScopeInv(old(vol.disk), s) ==> KeyPublished(vol.disk, s)
      ensures ScopeInv(old(vol.disk), s) && s !in closed ==> r == Err(Io) || r == Ok(KeyAt(old(vol.disk), s))
      ensures forall key: Key :: old(vol.Steady(4)) && KeyAtRest(old(vol.disk), s, key) && s !in closed && recover ==>
                r == Ok(Some(key)) && vol.alive && vol.next == old(vol.next) + 4 && vol.disk == old(vol.disk)
    {
      if s in closed { return Ok(None); }
      var ok, tomb := vol.Look(Tombstone(s));
      if !ok { return Err(Io); }
      if tomb.Some? { return Ok(None); }
      var file;
      ok, file := vol.Look(KeySlot(s));
      if !ok { return Err(Io); }
      if file.None? { return Ok(None); }
      if recover {
        var used := UseExistingKey(s, n);
        r := if used.Ok? then Ok(Some(used.value)) else Err(used.error);
      } else {
        ok, file := vol.Look(KeySlot(s));
        if !ok || file.None? { return Err(Io); }
        if !file.value.KeyFile? { return Err(DecryptFailed); }
        r := Ok(Some(file.value.key));
      }
    }

    /** Publish a first key: marker, temporary, link, sync, and only then drop the marker. */
    method PublishFirstKey(s: Scope, n: nat, drawn: Key) returns (r: Res<Key>)
      requires vol.disk.Cur(KeySlot(s)).None?
      modifies vol
      ensures old(vol.Healthy()) ==> r.Ok? && vol.Healthy()
      ensures KeysOnly(old(vol.disk), vol.disk)
      ensures Keeps(old(vol.disk), vol.disk, s)
      ensures r.Ok? ==>
                r.value == drawn && vol.disk.Cur(KeySlot(s)) == Some(KeyFile(drawn, false)) && KeyPublished(vol.disk, s)
      ensures r.Ok? ==> NoNewTemp(old(vol.disk), vol.disk, s)
      ensures r.Err? ==> r.error == Io
    {
      ghost var d0 := vol.disk;
      var marked, ok := StageKey(s, n, drawn);
      if !marked { return Err(Io); }
      ghost var d1 := vol.disk;
      if ok { ok := vol.Create(KeySlot(s), KeyFile(drawn, false)); }
      ghost var d2 := vol.disk;
      if ok { PublishKeeps(d1, d2, s, drawn); }
      KeepsTransitive(d0, d1, d2, s);
      var gone := RemoveTemp(s, n);
      ghost var d3 := vol.disk;
      KeepsTransitive(d0, d2, d3, s);
      if !gone { return Err(Io); }
      if ok {
        ok := FinishPublication(s);
        KeepsTransitive(d0, d3, vol.disk, s);
        return if ok then Ok(drawn) else Err(Io);
      }
      // Never became visible: drop the marker too, if that works.
      var cleared := ClearKeyPending(s);
      PendingOnlyKeeps(d3, vol.disk, s);
      KeepsTransitive(d0, d3, vol.disk, s);
      return Err(Io);
    }

    /** `drawn` is the random key drawn if none exists yet. */
    method GetOrCreateKeyLocked(s: Scope, n: nat, drawn: Key) returns (r: Res<Key>)
      modifies vol
      ensures old(vol.Healthy()) && ScopeInv(old(vol.disk), s) && s !in closed ==> r.Ok? && vol.Healthy()
      ensures KeysOnly(old(vol.disk), vol.disk)
      ensures Keeps(old(vol.disk), vol.disk, s)
      ensures s in closed ==> r == Err(ErasedScope)
      ensures Barred(old(vol.disk), closed, s) ==> (r == Err(ErasedScope) || r == Err(Io)) && vol.disk == old(vol.disk)
      ensures KeyAt(old(vol.disk), s).Some? ==> KeyAt(vol.disk, s) == KeyAt(old(vol.disk), s)
      ensures r.Ok? ==> vol.disk.Cur(KeySlot(s)) == Some(KeyFile(r.value, false))
      ensures r.Ok? && KeyAt(old(vol.disk), s).None? ==> r.value == drawn
      ensures r.Ok? ==> NoNewTemp(old(vol.disk), vol.disk, s)
      ensures r.Ok? && ScopeInv(old(vol.disk), s) ==> KeyPublished(vol.disk, s)
      ensures ScopeInv(old(vol.disk), s) && s !in closed && r.Err? ==> r.error == Io
      ensures forall key: Key :: old(vol.Steady(4)) && KeyAtRest(old(vol.disk), s, key) && s !in closed ==>
                r == Ok(key) && vol.alive && vol.next == old(vol.next) + 4 && vol.disk == old(vol.disk)
    {
      if s in closed { return Err(ErasedScope); }
      var ok, tomb := vol.Look(Tombstone(s));
      if !ok { return Err(Io); }
      if tomb.Some? { return Err(ErasedScope); }
      var file;
      ok, file := vol.Look(KeySlot(s));
      if !ok { return Err(Io); }
      if file.Some? {
        r := UseExistingKey(s, n);
        return;
      }
      r := PublishFirstKey(s, n, drawn);
    }

    // -------- erasure --------

    /** Unlink a set of files, stopping at the first failure. */
    method RemoveAll(slots: set<Slot>) returns (ok: bool)
      modifies vol
      ensures old(vol.Healthy()) ==> ok && vol.Healthy()
      ensures Unlinked(old(vol.disk), vol.disk, slots)
      ensures ok ==> forall x <- slots :: vol.disk.Cur(x).None?
    {
      var left := slots;
      while left != {}
        invariant old(vol.Healthy()) ==> vol.Healthy()
        invariant left <= slots && Unlinked(old(vol.disk), vol.disk, slots)
        invariant forall x <- slots :: x in left || vol.disk.Cur(x).None?
        decreases left
      {
        var x :| x in left;
        ok := vol.Remove(x);
        if !ok { return; }
        left := left - {x};
      }
      ok := true;
    }

    method PlantTombstone(s: Scope) returns (ok: bool)
      modifies vol
      ensures old(vol.Healthy()) ==> ok && vol.Healthy()
      ensures OnlySlot(old(vol.disk), vol.disk, Tombstone(s)) && KeysOnly(old(vol.disk), vol.disk)
      ensures old(vol.disk).Cur(Tombstone(s)).Some? ==> vol.disk == old(vol.disk)
      ensures ok ==> vol.disk.Cur(Tombstone(s)).Some?
    {
      var tomb;
      ok, tomb := vol.Look(Tombstone(s));
      if ok && tomb.None? {
        ok := vol.Create(Tombstone(s), Mark);
        if ok { ok := vol.Attempt(); }
      }
    }

    /** Unlink the key, sweep its temporaries, sync the directory. */
    method DeleteKey(s: Scope) returns (hadKey: bool, ok: bool)
      requires vol.disk.Cur(Tombstone(s)).Some?
      modifies vol
      ensures old(vol.Healthy()) ==> ok && vol.Healthy()
      ensures EraseRel(old(vol.disk), vol.disk, s)
      ensures ok ==> hadKey == old(vol.disk).Cur(KeySlot(s)).Some?
      ensures ok ==> KeyGone(vol.disk, s)
    {
      ghost var d0 := vol.disk;
      var temps := set x <- vol.disk.files | x.KeyTemp? && x.scope == s;
      hadKey := vol.disk.Cur(KeySlot(s)).Some?; // what the unlink below answers
      ok := vol.Remove(KeySlot(s));
      if ok { ok := vol.Attempt(); }
      if ok { ok := RemoveAll(temps); }
      SweepRel(d0, vol.disk, s, temps);
      if !ok { return; }
      SweptIsGone(d0, vol.disk, s, temps);
      ok := vol.FsyncKeys();
    }

    /** Tombstone first, then the key, then its temporaries, then one directory sync.
        On success no crash can bring back the key or lose the tombstone. */
    method EraseLocked(s: Scope) returns (r: Res<bool>)
      modifies vol
      ensures old(vol.Healthy()) && s != SYSTEM_SCOPE ==> r.Ok? && vol.Healthy()
      ensures EraseRel(old(vol.disk), vol.disk, s)
      ensures s == SYSTEM_SCOPE ==> r == Err(ReservedScope) && vol.disk == old(vol.disk)
      ensures r.Ok? ==> KeyGone(vol.disk, s) && r.value == old(vol.disk).Cur(KeySlot(s)).Some?
    {
      if s == SYSTEM_SCOPE { return Err(ReservedScope); }
      var hadKey := false;
      var ok := PlantTombstone(s);
      if ok { hadKey, ok := DeleteKey(s); }
      r := if ok then Ok(hadKey) else Err(Io);
    }

    method Erase(s: Scope) returns (r: Res<bool>)
      modifies vol
      ensures old(vol.Healthy()) && s != SYSTEM_SCOPE ==> r.Ok? && vol.Healthy()
      ensures EraseRel(old(vol.disk), vol.disk, s)
      ensures s == SYSTEM_SCOPE ==> r == Err(ReservedScope) && vol.disk == old(vol.disk)
      ensures r.Ok? ==> KeyGone(vol.disk, s) && r.value == old(vol.disk).Cur(KeySlot(s)).Some?
    {
      if s == SYSTEM_SCOPE { return Err(ReservedScope); }
      r := EraseLocked(s);
    }

    /** Startup: finish deletions whose tombstone survived a crash, and drop every
        temporary key file. Scopes without a tombstone keep their key. */
    method RecoverPendingErasures() returns (ok: bool)
      modifies vol
      ensures old(vol.Healthy()) ==> ok && vol.Healthy()
      ensures forall x: Slot :: !x.KeyTemp? && !(x.KeySlot? && old(vol.disk).Cur(Tombstone(x.scope)).Some?)
                                ==> Same(old(vol.disk), vol.disk, x)
      ensures forall x: Slot :: vol.disk.MayBe(x) <= old(vol.disk).MayBe(x) + {None}
      ensures ok ==> forall s, n :: vol.disk.Cur(KeyTemp(s, n)).None?
      ensures ok ==> forall s :: vol.disk.Cur(Tombstone(s)).Some? ==> vol.disk.Cur(KeySlot(s)).None?
    {
      ghost var d0 := vol.disk;
      ok := vol.Attempt();
      if !ok { return; }
      var doomed := set x <- vol.disk.files | x.KeyTemp? || (x.KeySlot? && Tombstone(x.scope) in vol.disk.files);
      ok := RemoveAll(doomed);
      if !ok { return; }
      forall s, n ensures vol.disk.Cur(KeyTemp(s, n)).None? {
        assert KeyTemp(s, n) in d0.files ==> KeyTemp(s, n) in doomed;
      }
      forall s | vol.disk.Cur(Tombstone(s)).Some? ensures vol.disk.Cur(KeySlot(s)).None? {
        assert KeySlot(s) in d0.files ==> KeySlot(s) in doomed;
      }
      if doomed != {} { ok := vol.FsyncKeys(); }
    }
  }

  /** What an erasure of `s` may do, whatever fails: nothing to other scopes or to blobs, never
      bring key material back, and never leave the key deleted without its tombstone. */
  ghost predicate EraseRel(d: Disk, d': Disk, s: Scope) {
    && Frame(d, d', s) && KeysOnly(d, d') && (KeyGone(d, s) ==> KeyGone(d', s))
    && (d.Cur(Tombstone(s)).Some? ==> d'.Cur(Tombstone(s)).Some?)
    && d'.Cur(KeySlot(s)) in {d.Cur(KeySlot(s)), None}
    && (d'.Cur(KeySlot(s)) != d.Cur(KeySlot(s)) ==> d'.Cur(Tombstone(s)).Some?)
  }

  ghost predicate Swept(d: Disk, d': Disk, s: Scope, temps: set<Slot>) {
    forall x :: if x == KeySlot(s) || x in temps
                then d'.Cur(x) in {d.Cur(x), None} && d'.MayBe(x) <= d.MayBe(x) + {None}
                else d'.Cur(x) == d.Cur(x) && d'.MayBe(x) == d.MayBe(x)
  }

  lemma SweepRel(d: Disk, d': Disk, s: Scope, temps: set<Slot>)
    requires temps == set x <- d.files | x.KeyTemp? && x.scope == s
    requires Swept(d, d', s, temps) && d.Cur(Tombstone(s)).Some?
    ensures EraseRel(d, d', s)
  {
    if KeyGone(d, s) {
      assert d'.Cur(KeySlot(s)) in d'.MayBe(KeySlot(s));
      forall n ensures d'.MayBe(KeyTemp(s, n)) == {None} {
        assert d.Cur(KeyTemp(s, n)) in d.MayBe(KeyTemp(s, n));
        assert d'.Cur(KeyTemp(s, n)) in d'.MayBe(KeyTemp(s, n));
      }
    }
  }

  lemma SweptIsGone(d: Disk, d': Disk, s: Scope, temps: set<Slot>)
    requires temps == set x <- d.files | x.KeyTemp? && x.scope == s
    requires d.Cur(Tombstone(s)).Some?
    requires Swept(d, d', s, temps) && d'.Cur(KeySlot(s)).None? && forall x <- temps :: d'.Cur(x).None?
    ensures EraseRel(d, d'.SettleKeys(), s) && KeyGone(d'.SettleKeys(), s)
  {
    forall n ensures d'.Cur(KeyTemp(s, n)).None? {
      assert KeyTemp(s, n) in d.files ==> KeyTemp(s, n) in temps;
    }
  }

  /** The scope is durably closed and no key material of it is left, now or after a crash. */
  ghost predicate KeyGone(d: Disk, s: Scope) {
    && d.MayBe(Tombstone(s)) == {d.Cur(Tombstone(s))} && d.Cur(Tombstone(s)).Some?
    && d.MayBe(KeySlot(s)) == {None}
    && forall n :: d.MayBe(KeyTemp(s, n)) == {None}
  }
}
