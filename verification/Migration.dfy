/** Re-keying flat legacy blobs into the system scope. The claims are about contents in
    program order: stopping after any file operation loses no legacy plaintext. */
module Migration {
  import opened Orders
  import opened Files
  import opened StorageInvariant
  import opened KeyRing
  import opened BlobStore

  /** The flat file named `dg` really is a legacy blob: it decrypts under the legacy key
      to content that hashes to its name. */
  predicate Legacy(d: Disk, legacyKey: Key, dg: Digest) {
    && d.Cur(Flat(dg)).Some? && d.Cur(Flat(dg)).value.FlatFile?
    && Open(legacyKey, d.Cur(Flat(dg)).value.nonce, NoHeader, d.Cur(Flat(dg)).value.body) == Some(dg.content)
  }

  predicate Target(d: Disk, dg: Digest) { d.Cur(BlobSlot(SYSTEM_SCOPE, dg)).Some? }

  /** The plaintext `dg.content` can still be read, from its source or from its target. */
  predicate Available(d: Disk, legacyKey: Key, dg: Digest) {
    Legacy(d, legacyKey, dg) || Readable(d, SYSTEM_SCOPE, dg)
  }

  /** A legacy blob that has no target yet. */
  predicate Counts(d: Disk, legacyKey: Key, dg: Digest) { Legacy(d, legacyKey, dg) && !Target(d, dg) }

  function Unmigrated(d: Disk, legacyKey: Key): set<Digest> {
    set x <- d.files | x.Flat? && Counts(d, legacyKey, x.digest) :: x.digest
  }

  /** What failed probes hid from one run: sources taken for no file, existing targets taken for
      absent, and those of the latter whose overwriting write failed after its rename. */
  datatype Missed = Missed(skipped: set<Digest>, unseen: set<Digest>, blind: set<Digest>) {
    predicate Nothing() { skipped == {} && unseen == {} && blind == {} }
  }

  /** What a run re-keys: legacy blobs it saw whose target it did not see. */
  predicate Rekeys(d: Disk, legacyKey: Key, m: Missed, dg: Digest) {
    Legacy(d, legacyKey, dg) && dg !in m.skipped && (!Target(d, dg) || dg in m.unseen)
  }

  function Rekeyed(d: Disk, legacyKey: Key, m: Missed): set<Digest> {
    set x <- d.files | x.Flat? && Rekeys(d, legacyKey, m, x.digest) :: x.digest
  }

  /** Nothing is left for a migration to do. */
  ghost predicate Finished(d: Disk, legacyKey: Key) {
    forall dg :: d.Cur(Flat(dg)).Some? ==> !Legacy(d, legacyKey, dg) && !Target(d, dg)
  }

  ghost predicate LosesNothing(d: Disk, d': Disk, legacyKey: Key) {
    forall dg :: Available(d, legacyKey, dg) ==> Available(d', legacyKey, dg)
  }

  /** Everything outside the flat files and the system scope is left alone, and the system
      scope keeps its invariant and its stored content. */
  ghost predicate SystemOnly(d: Disk, d': Disk) {
    && (forall x: Slot :: !x.Flat? && !OwnedBy(x, SYSTEM_SCOPE) ==> d'.Cur(x) == d.Cur(x) && d'.MayBe(x) <= d.MayBe(x))
    && (ScopeInv(d, SYSTEM_SCOPE) ==>
          && ScopeInv(d', SYSTEM_SCOPE)
          && forall content :: Stored(d, SYSTEM_SCOPE, content) ==> Stored(d', SYSTEM_SCOPE, content))
  }

  lemma KeepsIsSystemOnly(d: Disk, d': Disk)
    requires KeepsContent(d, d', SYSTEM_SCOPE)
    ensures SystemOnly(d, d')
  {
  }

  /** Changes to flat files and their certainty do not concern any scope. */
  lemma FlatIsSystemOnly(d: Disk, d': Disk)
    requires forall x: Slot :: !x.Flat? ==> d'.Cur(x) == d.Cur(x) && d'.MayBe(x) == d.MayBe(x)
    ensures SystemOnly(d, d') && MarkersKept(d, d', SYSTEM_SCOPE)
  {
    assert forall dg :: d'.MayBe(BlobSlot(SYSTEM_SCOPE, dg)) == d.MayBe(BlobSlot(SYSTEM_SCOPE, dg));
    assert forall dg :: d'.Cur(BlobSlot(SYSTEM_SCOPE, dg)) == d.Cur(BlobSlot(SYSTEM_SCOPE, dg));
    forall dg ensures MarkerKept(d, d', SYSTEM_SCOPE, dg) {
      assert d'.Cur(UpgradePending(SYSTEM_SCOPE, dg)) == d.Cur(UpgradePending(SYSTEM_SCOPE, dg));
      MarkTransfer(d, d', SYSTEM_SCOPE, dg);
    }
  }

  lemma SystemOnlyTransitive(a: Disk, b: Disk, c: Disk)
    requires SystemOnly(a, b) && SystemOnly(b, c)
    ensures SystemOnly(a, c)
    ensures forall dg :: MarkerKept(a, b, SYSTEM_SCOPE, dg) && MarkerKept(b, c, SYSTEM_SCOPE, dg) ==>
              MarkerKept(a, c, SYSTEM_SCOPE, dg)
  {
  }

  /** One entry's effect: its own source and target may change, no other entry's, the
      system key is stable, and no plaintext becomes unreadable. */
  ghost predicate EntryRel(d: Disk, d': Disk, dg: Digest) {
    && SystemOnly(d, d')
    && (KeyAt(d, SYSTEM_SCOPE).Some? ==> KeyAt(d', SYSTEM_SCOPE) == KeyAt(d, SYSTEM_SCOPE))
    && (forall x :: x != dg ==> d'.Cur(Flat(x)) == d.Cur(Flat(x))) && OtherBlobsSame(d, d', SYSTEM_SCOPE, dg)
    && (Readable(d, SYSTEM_SCOPE, dg) ==> Readable(d', SYSTEM_SCOPE, dg))
  }

  /** What the probes of one entry answered wrongly. */
  datatype Miss = Miss(skipped: bool, unseen: bool, blind: bool)

  /** One entry, whatever fails. Nothing becomes unreadable, and only a blind overwrite leaves a
      rewrite without its marker, its own. A skipped entry is left as it is. Any other success
      leaves nothing for a later run to count, and is counted exactly if the entry was a legacy
      blob whose target was absent or unseen. */
  ghost predicate EntryDone(d: Disk, d': Disk, legacyKey: Key, dg: Digest, m: Miss, r: Res<bool>) {
    && EntryRel(d, d', dg)
    && (Available(d, legacyKey, dg) ==> Available(d', legacyKey, dg))
    && OthersKept(d, d', SYSTEM_SCOPE, dg) && (!m.blind ==> MarkerKept(d, d', SYSTEM_SCOPE, dg))
    && (m.blind ==> m.unseen && r.Err?)
    && (m.blind && ScopeInv(d, SYSTEM_SCOPE) ==> MarkerLost(d, d', SYSTEM_SCOPE, dg))
    && (m.unseen ==> Target(d, dg) && !m.skipped)
    && (m.skipped ==> d' == d && r == Ok(false))
    && (r.Ok? && !m.skipped ==>
          && r.value == (Legacy(d, legacyKey, dg) && (!Target(d, dg) || m.unseen))
          && !Counts(d', legacyKey, dg)
          && (!m.unseen && d'.Cur(Flat(dg)).Some? ==> !Legacy(d', legacyKey, dg) && !Target(d', dg)))
  }

  /** What writing a target may do: the source stays, and only the target's own marker can get
      lost, by a blind write that failed. */
  ghost predicate TargetRel(d: Disk, d': Disk, dg: Digest, blind: bool, ok: bool) {
    && EntryRel(d, d', dg) && d'.Cur(Flat(dg)) == d.Cur(Flat(dg))
    && OthersKept(d, d', SYSTEM_SCOPE, dg) && (!blind ==> MarkerKept(d, d', SYSTEM_SCOPE, dg))
    && (blind ==> !ok)
    && (ScopeInv(d, SYSTEM_SCOPE) && blind ==> Target(d, dg) && MarkerLost(d, d', SYSTEM_SCOPE, dg))
    && (ok ==> Readable(d', SYSTEM_SCOPE, dg))
  }

  /** The key was obtained between `d0` and `d1`, the target written between `d1` and `d2`. */
  ghost predicate TargetSteps(d0: Disk, d1: Disk, d2: Disk, dg: Digest, key: Key, nonce: nat, ok: bool) {
    && Keeps(d0, d1, SYSTEM_SCOPE) && KeysOnly(d0, d1) && KeyAt(d1, SYSTEM_SCOPE) == Some(key)
    && (KeyAt(d0, SYSTEM_SCOPE).Some? ==> KeyAt(d1, SYSTEM_SCOPE) == KeyAt(d0, SYSTEM_SCOPE))
    && (ScopeInv(d0, SYSTEM_SCOPE) ==> KeyPublished(d1, SYSTEM_SCOPE))
    && WriteSteps(d1, d2, SYSTEM_SCOPE, dg, CurrentBlob(SYSTEM_SCOPE, dg.content, key, nonce), ok)
  }

  lemma KeyStep(d0: Disk, d1: Disk, dg: Digest)
    requires Keeps(d0, d1, SYSTEM_SCOPE) && KeysOnly(d0, d1)
    requires KeyAt(d0, SYSTEM_SCOPE).Some? ==> KeyAt(d1, SYSTEM_SCOPE) == KeyAt(d0, SYSTEM_SCOPE)
    ensures TargetRel(d0, d1, dg, false, false)
  {
    KeepsIsSystemOnly(d0, d1);
  }

  lemma TargetSystemOnly(d0: Disk, d1: Disk, d2: Disk, dg: Digest, key: Key, nonce: nat, ok: bool)
    requires TargetSteps(d0, d1, d2, dg, key, nonce, ok)
    ensures SystemOnly(d0, d2)
    ensures ScopeInv(d0, SYSTEM_SCOPE) ==> WriteMarks(d0, d2, SYSTEM_SCOPE, dg, Blind(d1, d2, SYSTEM_SCOPE, dg, ok), ok)
  {
    KeepsIsSystemOnly(d0, d1);
    assert dg == DigestOf(dg.content);
    if ScopeInv(d0, SYSTEM_SCOPE) {
      FreshWrite(d0, d1, d2, SYSTEM_SCOPE, dg.content, key, nonce, ok);
      KeepsIsSystemOnly(d0, d2);
    }
  }

  lemma TargetRelated(d0: Disk, d1: Disk, d2: Disk, dg: Digest, key: Key, nonce: nat, ok: bool)
    requires KeysOnly(d0, d1) && KeyAt(d1, SYSTEM_SCOPE) == Some(key) && SystemOnly(d0, d2)
    requires KeyAt(d0, SYSTEM_SCOPE).Some? ==> KeyAt(d1, SYSTEM_SCOPE) == KeyAt(d0, SYSTEM_SCOPE)
    requires WriteSteps(d1, d2, SYSTEM_SCOPE, dg, CurrentBlob(SYSTEM_SCOPE, dg.content, key, nonce), ok)
    ensures EntryRel(d0, d2, dg) && d2.Cur(Flat(dg)) == d0.Cur(Flat(dg)) && (ok ==> Readable(d2, SYSTEM_SCOPE, dg))
  {
    KeysThenBlob(d0, d1, d2, SYSTEM_SCOPE, dg);
    assert KeyAt(d2, SYSTEM_SCOPE) == Some(key);
    assert d1.Cur(BlobSlot(SYSTEM_SCOPE, dg)) == d0.Cur(BlobSlot(SYSTEM_SCOPE, dg));
    assert d1.Cur(Flat(dg)) == d0.Cur(Flat(dg));
  }

  /** Over a target that is absent no write is blind. */
  lemma AbsentIsNotBlind(d0: Disk, d1: Disk, d2: Disk, dg: Digest, ok: bool)
    requires ScopeInv(d0, SYSTEM_SCOPE) && KeysOnly(d0, d1) && Blind(d1, d2, SYSTEM_SCOPE, dg, ok)
    ensures Target(d0, dg)
  {
    assert d1.MayBe(BlobSlot(SYSTEM_SCOPE, dg)) == d0.MayBe(BlobSlot(SYSTEM_SCOPE, dg));
  }

  /** Reading the target back, whatever it answers. */
  lemma TargetRead(d0: Disk, d1: Disk, legacyKey: Key, dg: Digest, read: Res<Bytes>)
    requires exists closed :: GetRel(d0, d1, closed, SYSTEM_SCOPE, dg, true, read)
    requires forall x :: d1.Cur(Flat(x)) == d0.Cur(Flat(x))
    ensures EntryRel(d0, d1, dg) && MarkersKept(d0, d1, SYSTEM_SCOPE)
    ensures Available(d0, legacyKey, dg) ==> Available(d1, legacyKey, dg)
    ensures read.Ok? ==> Readable(d1, SYSTEM_SCOPE, dg)
  {
    KeepsIsSystemOnly(d0, d1);
  }

  lemma SourceDropped(d0: Disk, d1: Disk, d2: Disk, legacyKey: Key, dg: Digest, ok: bool)
    requires EntryRel(d0, d1, dg) && MarkersKept(d0, d1, SYSTEM_SCOPE) && Readable(d1, SYSTEM_SCOPE, dg)
    requires Target(d0, dg) && SourceRel(d1, d2, dg, ok)
    ensures EntryDone(d0, d2, legacyKey, dg, Miss(false, false, false), if ok then Ok(false) else Err(Io))
  {
    FlatIsSystemOnly(d1, d2);
    SystemOnlyTransitive(d0, d1, d2);
    forall x ensures MarkerKept(d0, d2, SYSTEM_SCOPE, x) {
      assert MarkerKept(d0, d1, SYSTEM_SCOPE, x) && MarkerKept(d1, d2, SYSTEM_SCOPE, x);
    }
  }

  /** Removing a flat source touches nothing else. */
  ghost predicate SourceRel(d: Disk, d': Disk, dg: Digest, ok: bool) {
    && (forall x: Slot :: !x.Flat? ==> d'.Cur(x) == d.Cur(x) && d'.MayBe(x) == d.MayBe(x))
    && (forall x :: x != dg ==> d'.Cur(Flat(x)) == d.Cur(Flat(x)))
    && d'.Cur(Flat(dg)) in {d.Cur(Flat(dg)), None}
    && (ok ==> d'.Cur(Flat(dg)).None?)
  }

  class Migrator {
    const store: ArtifactStore
    constructor (store: ArtifactStore)
      ensures this.store == store
    {
      this.store := store;
    }

    /** Remove the flat source and sync the root. */
    method DropSource(dg: Digest) returns (ok: bool)
      modifies store.keys.vol
      ensures old(store.keys.vol.Healthy()) ==> ok && store.keys.vol.Healthy()
      ensures SourceRel(old(store.keys.vol.disk), store.keys.vol.disk, dg, ok)
    {
      ok := store.keys.vol.Remove(Flat(dg));
      if ok { ok := store.keys.vol.FsyncRoot(); }
    }

    /** Migrate one flat entry. `Ok(true)` means freshly migrated. */
    method MigrateEntry(legacyKey: Key, dg: Digest, n: nat, drawn: Key, nonce: nat)
      returns (r: Res<bool>, ghost m: Miss)
      requires store.keys.vol.disk.Cur(Flat(dg)).Some?
      modifies store.keys.vol
      ensures Smooth(old(store.keys.vol.Healthy()), old(store.keys.vol.disk), store.keys.closed) ==>
                r.Ok? && m == Miss(false, false, false) && store.keys.vol.Healthy()
      ensures EntryDone(old(store.keys.vol.disk), store.keys.vol.disk, legacyKey, dg, m, r)
      ensures m.skipped <==> !old(store.keys.vol.alive) || store.keys.vol.fates(old(store.keys.vol.next)) != Works
    {
      ghost var d0 := store.keys.vol.disk;
      FlatIsSystemOnly(d0, d0);
      m := Miss(false, false, false);
      var isFile := store.keys.vol.Probe(Flat(dg));
      if !isFile {
        m := Miss(true, false, false);
        r := Ok(false);
        return;
      }
      var found := store.keys.vol.Probe(BlobSlot(SYSTEM_SCOPE, dg));
      if found {
        r := DropRedundant(legacyKey, dg, n, nonce);
        return;
      }
      m := Miss(false, Target(d0, dg), false);
      var ok, file := store.keys.vol.Look(Flat(dg));
      if !ok || file.None? { r := Err(Io); return; }
      if !file.value.FlatFile? { r := Ok(false); return; }
      var plain := Open(legacyKey, file.value.nonce, NoHeader, file.value.body);
      if plain.None? || DigestOf(plain.value) != dg { r := Ok(false); return; }
      ghost var blind;
      r, blind := Rekey(legacyKey, dg, n, drawn, nonce);
      m := Miss(false, Target(d0, dg), blind && Target(d0, dg));
    }

    /** An earlier run stopped between writing the target and removing the source: only a
        target that really reads back makes the source redundant. */
    method DropRedundant(legacyKey: Key, dg: Digest, n: nat, nonce: nat) returns (r: Res<bool>)
      requires store.keys.vol.disk.Cur(Flat(dg)).Some? && Target(store.keys.vol.disk, dg)
      modifies store.keys.vol
      ensures Smooth(old(store.keys.vol.Healthy()), old(store.keys.vol.disk), store.keys.closed) ==>
                r.Ok? && store.keys.vol.Healthy()
      ensures EntryDone(old(store.keys.vol.disk), store.keys.vol.disk, legacyKey, dg, Miss(false, false, false), r)
    {
      ghost var d0 := store.keys.vol.disk;
      var read := store.GetScoped(SYSTEM_SCOPE, dg, n, nonce, true);
      ghost var d1 := store.keys.vol.disk;
      TargetRead(d0, d1, legacyKey, dg, read);
      if read.Err? { return Err(read.error); }
      var ok := DropSource(dg);
      SourceDropped(d0, d1, store.keys.vol.disk, legacyKey, dg, ok);
      r := if ok then Ok(false) else Err(Io);
    }

    /** Encrypt a verified legacy plaintext under the system key, then drop the source. */
    method Rekey(legacyKey: Key, dg: Digest, n: nat, drawn: Key, nonce: nat) returns (r: Res<bool>, ghost blind: bool)
      requires Legacy(store.keys.vol.disk, legacyKey, dg)
      modifies store.keys.vol
      ensures Smooth(old(store.keys.vol.Healthy()), old(store.keys.vol.disk), store.keys.closed) ==>
                r.Ok? && store.keys.vol.Healthy()
      ensures var d, d' := old(store.keys.vol.disk), store.keys.vol.disk;
              && EntryRel(d, d', dg) && Available(d', legacyKey, dg)
              && OthersKept(d, d', SYSTEM_SCOPE, dg)
              && (!(blind && Target(d, dg)) ==> MarkerKept(d, d', SYSTEM_SCOPE, dg))
              && (blind ==> r.Err?) && (blind && ScopeInv(d, SYSTEM_SCOPE) ==> MarkerLost(d, d', SYSTEM_SCOPE, dg))
              && (r.Ok? ==> r.value && d'.Cur(Flat(dg)).None?)
    {
      ghost var d0 := store.keys.vol.disk;
      var ok;
      ok, blind := WriteTarget(dg, n, drawn, nonce);
      if !ok { r := Err(Io); return; }
      ghost var d1 := store.keys.vol.disk;
      ok := DropSource(dg);
      FlatIsSystemOnly(d1, store.keys.vol.disk);
      SystemOnlyTransitive(d0, d1, store.keys.vol.disk);
      r := if ok then Ok(true) else Err(Io);
    }

    method WriteTarget(dg: Digest, n: nat, drawn: Key, nonce: nat) returns (ok: bool, ghost blind: bool)
      modifies store.keys.vol
      ensures Smooth(old(store.keys.vol.Healthy()), old(store.keys.vol.disk), store.keys.closed) ==>
                ok && store.keys.vol.Healthy()
      ensures TargetRel(old(store.keys.vol.disk), store.keys.vol.disk, dg, blind, ok)
    {
      ghost var d0 := store.keys.vol.disk;
      var key := store.keys.GetOrCreateKeyLocked(SYSTEM_SCOPE, n, drawn);
      ghost var d1 := store.keys.vol.disk;
      KeyStep(d0, d1, dg);
      blind := false;
      if key.Err? { ok := false; return; }
      ok := store.WriteCurrentBlob(SYSTEM_SCOPE, dg.content, key.value, nonce);
      ghost var d2 := store.keys.vol.disk;
      assert TargetSteps(d0, d1, d2, dg, key.value, nonce, ok) by { assert DigestOf(dg.content) == dg; }
      TargetSystemOnly(d0, d1, d2, dg, key.value, nonce, ok);
      TargetRelated(d0, d1, d2, dg, key.value, nonce, ok);
      blind := Blind(d1, d2, SYSTEM_SCOPE, dg, ok);
      if ScopeInv(d0, SYSTEM_SCOPE) && blind { AbsentIsNotBlind(d0, d1, d2, dg, ok); }
    }

    /** One turn of the directory loop: the entry at `i`, and the new count. */
    method MigrateNext(ghost d0: Disk, legacyKey: Key, listing: seq<Digest>, i: nat, count: nat, drawn: Key, nonce: nat,
                       ghost before: Missed)
      returns (r: Res<nat>, ghost m: Missed)
      requires i < |listing| && LoopInv(d0, store.keys.vol.disk, legacyKey, listing, i, count, before)
      modifies store.keys.vol
      ensures Progress(d0, store.keys.vol.disk, legacyKey, m.blind)
      ensures ScopeInv(old(store.keys.vol.disk), SYSTEM_SCOPE) ==> ScopeInv(store.keys.vol.disk, SYSTEM_SCOPE)
      ensures r.Ok? ==> LoopInv(d0, store.keys.vol.disk, legacyKey, listing, i + 1, r.value, m)
      ensures Smooth(old(store.keys.vol.Healthy()), old(store.keys.vol.disk), store.keys.closed) ==>
                r.Ok? && m == before && store.keys.vol.Healthy()
    {
      ghost var d1 := store.keys.vol.disk;
      m := before;
      var ok := store.keys.vol.Attempt();
      if !ok { r := Err(Io); return; }
      ghost var miss;
      var step;
      step, miss := MigrateEntry(legacyKey, listing[i], i, drawn, nonce + i);
      m := Missing(before, listing[i], miss);
      LoopStep(d0, d1, store.keys.vol.disk, legacyKey, listing, i, count, before, miss, step);
      r := if step.Err? then Err(step.error) else Ok(if step.value then count + 1 else count);
    }

    /** The directory loop. */
    method MigrateListed(legacyKey: Key, listing: seq<Digest>, drawn: Key, nonce: nat)
      returns (r: Res<nat>, ghost m: Missed)
      requires LoopInv(store.keys.vol.disk, store.keys.vol.disk, legacyKey, listing, 0, 0, Missed({}, {}, {}))
      modifies store.keys.vol
      ensures Progress(old(store.keys.vol.disk), store.keys.vol.disk, legacyKey, m.blind)
      ensures r.Ok? ==>
                LoopInv(old(store.keys.vol.disk), store.keys.vol.disk, legacyKey, listing, |listing|, r.value, m)
      ensures Smooth(old(store.keys.vol.Healthy()), old(store.keys.vol.disk), store.keys.closed) ==>
                r.Ok? && m.Nothing() && store.keys.vol.Healthy()
    {
      ghost var d0 := store.keys.vol.disk;
      ghost var smooth := Smooth(store.keys.vol.Healthy(), d0, store.keys.closed);
      var count, i := 0, 0;
      m := Missed({}, {}, {});
      while i < |listing|
        invariant 0 <= i <= |listing|
        invariant smooth ==> m.Nothing() && Smooth(store.keys.vol.Healthy(), store.keys.vol.disk, store.keys.closed)
        invariant LoopInv(d0, store.keys.vol.disk, legacyKey, listing, i, count, m)
      {
        r, m := MigrateNext(d0, legacyKey, listing, i, count, drawn, nonce, m);
        if r.Err? { return; }
        count, i := r.value, i + 1;
      }
      r := Ok(count);
    }

    /** `listing` is what `read_dir` returned, in any order. */
    method MigrateLegacyBlobs(legacyKey: Key, listing: seq<Digest>, drawn: Key, nonce: nat)
      returns (r: Res<nat>, ghost m: Missed)
      requires Listing(store.keys.vol.disk, listing)
      modifies store.keys.vol
      ensures MigrationRel(old(store.keys.vol.disk), store.keys.vol.disk, legacyKey, m, r)
      ensures Smooth(old(store.keys.vol.Healthy()), old(store.keys.vol.disk), store.keys.closed) ==>
                r.Ok? && m.Nothing() && store.keys.vol.Healthy()
    {
      ghost var d0 := store.keys.vol.disk;
      LoopStart(d0, legacyKey, listing);
      m := Missed({}, {}, {});
      var ok := store.keys.vol.Attempt();
      if !ok { r := Err(Io); return; }
      r, m := MigrateListed(legacyKey, listing, drawn, nonce);
      if r.Ok? { LoopEnd(d0, store.keys.vol.disk, legacyKey, listing, r.value, m); }
    }
  }

  /** One whole run, whatever fails: no plaintext is lost; a success re-keyed and counted exactly
      what it saw, and left exactly the unmigrated blobs it skipped. */
  ghost predicate MigrationRel(d: Disk, d': Disk, legacyKey: Key, m: Missed, r: Res<nat>) {
    && Progress(d, d', legacyKey, m.blind)
    && (r.Ok? ==>
          && m.blind == {}
          && r.value == |Rekeyed(d, legacyKey, m)|
          && Unmigrated(d', legacyKey) == Unmigrated(d, legacyKey) * m.skipped
          && (m.Nothing() ==> Finished(d', legacyKey)))
  }

  /** The input for which finishing fails: one legacy blob whose `is_file` probe fails. The entry
      succeeds uncounted and the blob is still there to be counted. */
  method SkippedEntry(legacyKey: Key, content: Bytes, nonce: nat) returns (r: Res<bool>, vol: Volume)
    ensures r == Ok(false) && fresh(vol) && Counts(vol.disk, legacyKey, DigestOf(content))
  {
    var dg := DigestOf(content);
    var disk := Disk(map[Flat(dg) := FlatFile(nonce, Seal(legacyKey, nonce, NoHeader, content))], _ => {});
    vol := new Volume(disk, (i: nat) => if i == 0 then Fails else Works);
    var keys := new CounterpartyKeyRing(vol);
    var store := new ArtifactStore(keys);
    var migrator := new Migrator(store);
    assert Legacy(vol.disk, legacyKey, dg) && !Target(vol.disk, dg);
    ghost var miss;
    r, miss := migrator.MigrateEntry(legacyKey, dg, 0, 0, 0);
  }

  /** What a run counts when its probes work. */
  lemma SeenCount(d: Disk, legacyKey: Key, m: Missed)
    requires m.Nothing()
    ensures Rekeyed(d, legacyKey, m) == Unmigrated(d, legacyKey)
  {
  }

  /** After a successful run a second one, whose probes work, counts 0 if and only if the first
      skipped no legacy blob without a target; it counts exactly those it skipped. */
  lemma SecondRunExactly(d0: Disk, d1: Disk, d2: Disk, legacyKey: Key, m: Missed, m': Missed, r: Res<nat>, r': Res<nat>)
    requires MigrationRel(d0, d1, legacyKey, m, r) && r.Ok?
    requires MigrationRel(d1, d2, legacyKey, m', r') && r'.Ok? && m'.Nothing()
    ensures r'.value == |Unmigrated(d0, legacyKey) * m.skipped|
    ensures r'.value == 0 <==> forall dg :: dg in m.skipped ==> !Counts(d0, legacyKey, dg)
  {
    SeenCount(d1, legacyKey, m');
    var left := Unmigrated(d0, legacyKey) * m.skipped;
    forall dg ensures dg in left <==> dg in m.skipped && Counts(d0, legacyKey, dg) {
      UnmigratedExactly(d0, legacyKey, dg);
    }
    if r'.value == 0 {
      assert left == {};
    }
  }

  lemma UnmigratedExactly(d: Disk, legacyKey: Key, dg: Digest)
    ensures dg in Unmigrated(d, legacyKey) <==> Counts(d, legacyKey, dg)
  {
    if Counts(d, legacyKey, dg) {
      assert Flat(dg) in d.files && Flat(dg).digest == dg;
    }
  }

  /** Nothing fails, and the system scope is in order and open. */
  ghost predicate Smooth(healthy: bool, d: Disk, closed: set<Scope>) {
    healthy && ScopeInv(d, SYSTEM_SCOPE) && SYSTEM_SCOPE !in closed
  }

  /** Distinct names, exactly those of the flat files present. */
  ghost predicate Listing(d: Disk, listing: seq<Digest>) {
    && (forall dg :: dg in listing <==> d.Cur(Flat(dg)).Some?)
    && (forall i, j :: 0 <= i < j < |listing| ==> listing[i] != listing[j])
  }

  function Missing(m: Missed, dg: Digest, miss: Miss): Missed {
    Missed(if miss.skipped then m.skipped + {dg} else m.skipped,
           if miss.unseen then m.unseen + {dg} else m.unseen,
           if miss.blind then m.blind + {dg} else m.blind)
  }

  ghost predicate LoopInv(d0: Disk, d: Disk, legacyKey: Key, listing: seq<Digest>, i: nat, count: nat, m: Missed)
    requires i <= |listing|
  {
    && Listing(d0, listing) && Progress(d0, d, legacyKey, m.blind) && Ahead(d0, d, listing, i)
    && m.skipped + m.unseen <= Elements(listing[..i]) && m.blind == {}
    && LeftBehind(d0, d, legacyKey, listing, i, m.skipped)
    && count == |Counted(d0, legacyKey, listing, i, m)|
    && (m.skipped == {} && m.unseen == {} ==> Behind(d, legacyKey, listing, i))
  }

  lemma LoopStart(d: Disk, legacyKey: Key, listing: seq<Digest>)
    requires Listing(d, listing)
    ensures LoopInv(d, d, legacyKey, listing, 0, 0, Missed({}, {}, {}))
  {
    FlatIsSystemOnly(d, d);
    assert Counted(d, legacyKey, listing, 0, Missed({}, {}, {})) == {};
  }

  lemma LoopStep(d0: Disk, d1: Disk, d2: Disk, legacyKey: Key, listing: seq<Digest>, i: nat, count: nat,
                 before: Missed, miss: Miss, r: Res<bool>)
    requires i < |listing| && LoopInv(d0, d1, legacyKey, listing, i, count, before)
    requires EntryDone(d1, d2, legacyKey, listing[i], miss, r)
    ensures Progress(d0, d2, legacyKey, Missing(before, listing[i], miss).blind)
    ensures ScopeInv(d1, SYSTEM_SCOPE) ==> ScopeInv(d2, SYSTEM_SCOPE)
    ensures r.Ok? ==>
              LoopInv(d0, d2, legacyKey, listing, i + 1, if r.value then count + 1 else count,
                      Missing(before, listing[i], miss))
  {
    assert Same(d0, d1, BlobSlot(SYSTEM_SCOPE, listing[i]));
    ProgressStep(d0, d1, d2, legacyKey, listing[i], miss, r);
    if r.Ok? {
      LoopNext(d0, d1, d2, legacyKey, listing, i, count, before, miss, r);
    }
  }

  lemma LoopNext(d0: Disk, d1: Disk, d2: Disk, legacyKey: Key, listing: seq<Digest>, i: nat, count: nat,
                 before: Missed, miss: Miss, r: Res<bool>)
    requires i < |listing| && LoopInv(d0, d1, legacyKey, listing, i, count, before)
    requires EntryDone(d1, d2, legacyKey, listing[i], miss, r) && r.Ok?
    requires Progress(d0, d2, legacyKey, Missing(before, listing[i], miss).blind)
    ensures LoopInv(d0, d2, legacyKey, listing, i + 1, if r.value then count + 1 else count,
                    Missing(before, listing[i], miss))
  {
    AheadStep(d0, d1, d2, legacyKey, listing, i, miss, r);
    NotYetListed(listing, i);
    LeftStep(d0, d1, d2, legacyKey, listing, i, before.skipped, miss, r);
    SameTarget(d0, d1, legacyKey, listing[i], miss);
    CountedStep(d0, legacyKey, listing, i, before, miss);
    if !miss.skipped && !miss.unseen && before.skipped == {} && before.unseen == {} {
      BehindStep(d0, d1, d2, legacyKey, listing, i, miss, r);
    }
  }

  lemma SameTarget(d0: Disk, d1: Disk, legacyKey: Key, dg: Digest, miss: Miss)
    requires d1.Cur(Flat(dg)) == d0.Cur(Flat(dg))
    requires d1.Cur(BlobSlot(SYSTEM_SCOPE, dg)) == d0.Cur(BlobSlot(SYSTEM_SCOPE, dg))
    ensures Target(d1, dg) == Target(d0, dg) && RekeysNow(d1, legacyKey, dg, miss) == RekeysNow(d0, legacyKey, dg, miss)
  {
  }

  lemma NotYetListed(listing: seq<Digest>, i: nat)
    requires i < |listing| && forall j, k :: 0 <= j < k < |listing| ==> listing[j] != listing[k]
    ensures listing[i] !in Elements(listing[..i])
    ensures Elements(listing[..i + 1]) == Elements(listing[..i]) + {listing[i]}
  {
    assert listing[..i + 1] == listing[..i] + [listing[i]];
  }

  lemma LoopEnd(d0: Disk, d: Disk, legacyKey: Key, listing: seq<Digest>, count: nat, m: Missed)
    requires LoopInv(d0, d, legacyKey, listing, |listing|, count, m)
    ensures count == |Rekeyed(d0, legacyKey, m)|
    ensures Unmigrated(d, legacyKey) == Unmigrated(d0, legacyKey) * m.skipped
    ensures m.blind == {} && (m.Nothing() ==> Finished(d, legacyKey))
  {
    CountedAll(d0, legacyKey, listing, m);
    LeftEnd(d0, d, legacyKey, listing, m.skipped);
    if m.Nothing() { AllBehind(d0, d, legacyKey, listing); }
  }

  /** Stopping here loses nothing. */
  ghost predicate Progress(d0: Disk, d: Disk, legacyKey: Key, blind: set<Digest>) {
    && SystemOnly(d0, d) && LosesNothing(d0, d, legacyKey)
    && (forall dg :: dg !in blind ==> MarkerKept(d0, d, SYSTEM_SCOPE, dg))
    && (ScopeInv(d0, SYSTEM_SCOPE) ==> forall dg <- blind :: MarkerLost(d0, d, SYSTEM_SCOPE, dg))
  }

  lemma ProgressStep(d0: Disk, d1: Disk, d2: Disk, legacyKey: Key, dg: Digest, miss: Miss, r: Res<bool>)
    requires Progress(d0, d1, legacyKey, {}) && EntryDone(d1, d2, legacyKey, dg, miss, r)
    requires Same(d0, d1, BlobSlot(SYSTEM_SCOPE, dg)) && Same(d0, d1, UpgradePending(SYSTEM_SCOPE, dg))
    ensures Progress(d0, d2, legacyKey, if miss.blind then {dg} else {})
  {
    SystemOnlyTransitive(d0, d1, d2);
    forall x | Available(d0, legacyKey, x) ensures Available(d2, legacyKey, x) {
      assert Available(d1, legacyKey, x);
    }
    forall x | !(miss.blind && x == dg) ensures MarkerKept(d0, d2, SYSTEM_SCOPE, x) {
      assert MarkerKept(d0, d1, SYSTEM_SCOPE, x) && MarkerKept(d1, d2, SYSTEM_SCOPE, x);
    }
  }

  predicate RekeysNow(d: Disk, legacyKey: Key, dg: Digest, miss: Miss) {
    Legacy(d, legacyKey, dg) && !miss.skipped && (!Target(d, dg) || miss.unseen)
  }

  /** The first `i` names that pass a test. */
  ghost function Picked(listing: seq<Digest>, i: nat, test: Digest -> bool): set<Digest>
    requires i <= |listing|
  {
    set k | 0 <= k < i && test(listing[k]) :: listing[k]
  }

  lemma PickedStep(listing: seq<Digest>, i: nat, test: Digest -> bool, test': Digest -> bool)
    requires i < |listing|
    requires forall k :: 0 <= k < i ==> listing[k] != listing[i] && test(listing[k]) == test'(listing[k])
    ensures |Picked(listing, i + 1, test')| == |Picked(listing, i, test)| + if test'(listing[i]) then 1 else 0
  {
    var before, after := Picked(listing, i, test), Picked(listing, i + 1, test');
    assert listing[i] !in before;
    if test'(listing[i]) {
      assert after == before + {listing[i]};
    } else {
      assert after == before;
    }
  }

  ghost function Counted(d: Disk, legacyKey: Key, listing: seq<Digest>, i: nat, m: Missed): set<Digest>
    requires i <= |listing|
  {
    Picked(listing, i, dg => Rekeys(d, legacyKey, m, dg))
  }

  lemma CountedStep(d: Disk, legacyKey: Key, listing: seq<Digest>, i: nat, m: Missed, miss: Miss)
    requires i < |listing| && listing[i] !in Elements(listing[..i]) && m.skipped + m.unseen <= Elements(listing[..i])
    requires miss.unseen ==> Target(d, listing[i])
    ensures |Counted(d, legacyKey, listing, i + 1, Missing(m, listing[i], miss))|
         == |Counted(d, legacyKey, listing, i, m)| + if RekeysNow(d, legacyKey, listing[i], miss) then 1 else 0
  {
    var m' := Missing(m, listing[i], miss);
    forall k | 0 <= k < i
      ensures listing[k] != listing[i] && Rekeys(d, legacyKey, m, listing[k]) == Rekeys(d, legacyKey, m', listing[k])
    {
      assert listing[k] == listing[..i][k];
    }
    PickedStep(listing, i, dg => Rekeys(d, legacyKey, m, dg), dg => Rekeys(d, legacyKey, m', dg));
  }

  lemma CountedAll(d: Disk, legacyKey: Key, listing: seq<Digest>, m: Missed)
    requires Listing(d, listing)
    ensures Counted(d, legacyKey, listing, |listing|, m) == Rekeyed(d, legacyKey, m)
  {
    forall dg | dg in Rekeyed(d, legacyKey, m) ensures dg in Counted(d, legacyKey, listing, |listing|, m) {
      assert dg in listing;
    }
    forall dg | dg in Counted(d, legacyKey, listing, |listing|, m) ensures dg in Rekeyed(d, legacyKey, m) {
      assert dg in listing && Flat(dg) in d.files && Flat(dg).digest == dg;
    }
  }

  /** Of the entries before `i`, exactly the unmigrated ones that were skipped are left. */
  ghost predicate LeftBehind(d0: Disk, d: Disk, legacyKey: Key, listing: seq<Digest>, i: nat, skipped: set<Digest>)
    requires i <= |listing|
  {
    forall k :: 0 <= k < i ==>
      (Counts(d, legacyKey, listing[k]) <==> Counts(d0, legacyKey, listing[k]) && listing[k] in skipped)
  }

  lemma SameEntryCounts(d: Disk, d': Disk, legacyKey: Key, dg: Digest)
    requires d'.Cur(Flat(dg)) == d.Cur(Flat(dg))
    requires d'.Cur(BlobSlot(SYSTEM_SCOPE, dg)) == d.Cur(BlobSlot(SYSTEM_SCOPE, dg))
    ensures Counts(d', legacyKey, dg) == Counts(d, legacyKey, dg)
  {
  }

  lemma LeftStep(d0: Disk, d1: Disk, d2: Disk, legacyKey: Key, listing: seq<Digest>, i: nat, skipped: set<Digest>,
                 miss: Miss, r: Res<bool>)
    requires i < |listing| && listing[i] !in Elements(listing[..i]) && skipped <= Elements(listing[..i])
    requires LeftBehind(d0, d1, legacyKey, listing, i, skipped) && Ahead(d0, d1, listing, i)
    requires EntryDone(d1, d2, legacyKey, listing[i], miss, r) && r.Ok?
    ensures LeftBehind(d0, d2, legacyKey, listing, i + 1, if miss.skipped then skipped + {listing[i]} else skipped)
  {
    forall k | 0 <= k < i
      ensures listing[k] != listing[i] && Counts(d2, legacyKey, listing[k]) == Counts(d1, legacyKey, listing[k])
    {
      assert listing[k] == listing[..i][k];
      SameEntryCounts(d1, d2, legacyKey, listing[k]);
    }
    SameEntryCounts(d0, d1, legacyKey, listing[i]);
  }

  lemma LeftEnd(d0: Disk, d: Disk, legacyKey: Key, listing: seq<Digest>, skipped: set<Digest>)
    requires Listing(d0, listing) && Ahead(d0, d, listing, |listing|)
    requires LeftBehind(d0, d, legacyKey, listing, |listing|, skipped)
    ensures Unmigrated(d, legacyKey) == Unmigrated(d0, legacyKey) * skipped
  {
    forall dg ensures dg in Unmigrated(d, legacyKey) <==> dg in Unmigrated(d0, legacyKey) * skipped {
      UnmigratedExactly(d, legacyKey, dg);
      UnmigratedExactly(d0, legacyKey, dg);
      if dg in listing {
        var k :| 0 <= k < |listing| && listing[k] == dg;
        assert Counts(d, legacyKey, listing[k]) <==> Counts(d0, legacyKey, listing[k]) && listing[k] in skipped;
      }
    }
  }

  /** Entries before `i` are settled. */
  ghost predicate Behind(d: Disk, legacyKey: Key, listing: seq<Digest>, i: nat)
    requires i <= |listing|
  {
    forall k :: 0 <= k < i && d.Cur(Flat(listing[k])).Some? ==>
      !Legacy(d, legacyKey, listing[k]) && !Target(d, listing[k])
  }

  /** Entries from `i` on still look as they did at the start. */
  ghost predicate Ahead(d0: Disk, d: Disk, listing: seq<Digest>, i: nat)
    requires i <= |listing|
  {
    && (forall k :: i <= k < |listing| ==>
          && d.Cur(Flat(listing[k])) == d0.Cur(Flat(listing[k]))
          && Same(d0, d, BlobSlot(SYSTEM_SCOPE, listing[k])) && Same(d0, d, UpgradePending(SYSTEM_SCOPE, listing[k])))
    && (forall dg :: d.Cur(Flat(dg)).Some? ==> dg in listing)
  }

  lemma AheadStep(d0: Disk, d1: Disk, d2: Disk, legacyKey: Key, listing: seq<Digest>, i: nat, miss: Miss,
                  r: Res<bool>)
    requires i < |listing| && Listing(d0, listing)
    requires Ahead(d0, d1, listing, i) && EntryDone(d1, d2, legacyKey, listing[i], miss, r)
    ensures Ahead(d0, d2, listing, i + 1)
  {
    forall dg | d2.Cur(Flat(dg)).Some? ensures dg in listing {
      if dg != listing[i] {
        assert d1.Cur(Flat(dg)).Some?;
      }
    }
  }

  lemma BehindStep(d0: Disk, d1: Disk, d2: Disk, legacyKey: Key, listing: seq<Digest>, i: nat, miss: Miss, r: Res<bool>)
    requires i < |listing| && Listing(d0, listing) && Ahead(d0, d1, listing, i)
    requires Behind(d1, legacyKey, listing, i) && EntryDone(d1, d2, legacyKey, listing[i], miss, r) && r.Ok?
    requires !miss.skipped && !miss.unseen
    ensures Behind(d2, legacyKey, listing, i + 1)
  {
  }

  lemma AllBehind(d0: Disk, d: Disk, legacyKey: Key, listing: seq<Digest>)
    requires Behind(d, legacyKey, listing, |listing|) && Ahead(d0, d, listing, |listing|)
    ensures Finished(d, legacyKey)
  {
    forall dg | d.Cur(Flat(dg)).Some? ensures !Legacy(d, legacyKey, dg) && !Target(d, dg) {
      var k :| 0 <= k < |listing| && listing[k] == dg;
    }
  }

  /** A finished root has nothing left to count. */
  lemma FinishedCountsZero(d: Disk, legacyKey: Key)
    requires Finished(d, legacyKey)
    ensures Unmigrated(d, legacyKey) == {}
  {
    forall dg ensures dg !in Unmigrated(d, legacyKey) {
      UnmigratedExactly(d, legacyKey, dg);
    }
  }
}
