/** The invariant of one live counterparty scope on disk, what every locked section
    owes it, and why a crash or another scope's section cannot break it. */
module StorageInvariant {
  import opened Orders
  import opened Files

  function KeyIn(file: Option<File>): Option<Key> {
    if file.Some? && file.value.KeyFile? then Some(file.value.key) else None
  }

  function KeyAt(d: Disk, s: Scope): Option<Key> { KeyIn(d.Cur(KeySlot(s))) }

  /** The key is in place, and no crash can take it away. */
  predicate KeyPublished(d: Disk, s: Scope) {
    KeyAt(d, s).Some? && None !in d.MayBe(KeySlot(s))
  }

  /** Decrypt a blob file as `get_scoped` does: format 3 binds its header, format 2 does not. */
  function Decrypt(file: File, key: Key): Option<Bytes> {
    if !file.BlobFile? then None
    else if file.tag == CURRENT_FORMAT then Open(key, file.nonce, Header(file.tag, file.header), file.body)
    else if file.tag == RECOVERED_FORMAT then Open(key, file.nonce, NoHeader, file.body)
    else None
  }

  predicate GoodBlob(file: File, s: Scope, dg: Digest, key: Key) {
    && file.BlobFile? && file.header == s
    && Decrypt(file, key).Some? && DigestOf(Decrypt(file, key).value) == dg
  }

  predicate IsFormat(file: Option<File>, tag: nat) {
    file.Some? && file.value.BlobFile? && file.value.tag == tag
  }

  /** Key slot: no tombstone, key files only, one key value only, and a key that might
      still vanish carries its pending marker. */
  ghost predicate KeyInv(d: Disk, s: Scope) {
    && d.MayBe(Tombstone(s)) == {None}
    && (forall f <- d.MayBe(KeySlot(s)) :: f == None || (KeyIn(f).Some? && KeyIn(f) == KeyAt(d, s)))
    && (KeyAt(d, s).Some? && None in d.MayBe(KeySlot(s)) ==> d.Cur(KeyPending(s)).Some?)
  }

  /** Blobs, which are replaced but never removed: whatever a crash could leave decrypts, to
      the content its name promises, under the scope's key, and that key's publication has
      completed. */
  ghost predicate BlobInv(d: Disk, s: Scope) {
    forall dg, f :: f in d.MayBe(BlobSlot(s, dg)) && f.Some? ==>
      && d.Cur(BlobSlot(s, dg)).Some?
      && KeyPublished(d, s) && GoodBlob(f.value, s, dg, KeyAt(d, s).value)
  }

  /** If the blob is format 3 and an old format-2 entry could still reappear, the pending marker
      is there. */
  ghost predicate Marked(d: Disk, s: Scope, dg: Digest) {
    forall f <- d.MayBe(BlobSlot(s, dg)) ::
      IsFormat(f, RECOVERED_FORMAT) && IsFormat(d.Cur(BlobSlot(s, dg)), CURRENT_FORMAT)
      ==> d.Cur(UpgradePending(s, dg)).Some?
  }

  ghost predicate ScopeInv(d: Disk, s: Scope) {
    KeyInv(d, s) && BlobInv(d, s)
  }

  /** The content was stored and no crash can lose it. */
  predicate Stored(d: Disk, s: Scope, content: Bytes) {
    None !in d.MayBe(BlobSlot(s, DigestOf(content)))
  }

  // -------- what a locked section of scope `s` owes --------

  /** Other slots keep their contents; a directory sync may only make them more certain. */
  ghost predicate Frame(d: Disk, d': Disk, s: Scope) {
    forall slot :: !OwnedBy(slot, s) ==> d'.Cur(slot) == d.Cur(slot) && d'.MayBe(slot) <= d.MayBe(slot)
  }

  /** The section keeps the scope invariant, the published key, and all stored content. */
  ghost predicate KeepsContent(d: Disk, d': Disk, s: Scope) {
    && Frame(d, d', s)
    && (ScopeInv(d, s) ==>
          && ScopeInv(d', s)
          && (KeyPublished(d, s) ==> KeyPublished(d', s) && KeyAt(d', s) == KeyAt(d, s))
          && (forall dg :: None !in d.MayBe(BlobSlot(s, dg)) ==> None !in d'.MayBe(BlobSlot(s, dg))))
  }

  ghost predicate MarkerKept(d: Disk, d': Disk, s: Scope, dg: Digest) {
    ScopeInv(d, s) && Marked(d, s, dg) ==> Marked(d', s, dg)
  }

  /** The section leaves no rewrite without its marker. */
  ghost predicate MarkersKept(d: Disk, d': Disk, s: Scope) {
    forall dg :: MarkerKept(d, d', s, dg)
  }

  /** None but, perhaps, the one of `dg`. */
  ghost predicate OthersKept(d: Disk, d': Disk, s: Scope, dg: Digest) {
    forall x :: x != dg ==> MarkerKept(d, d', s, x)
  }

  ghost predicate Keeps(d: Disk, d': Disk, s: Scope) {
    KeepsContent(d, d', s) && MarkersKept(d, d', s)
  }

  /** Seen from outside: the invariant and the stored content. */
  ghost predicate ContentKept(d: Disk, d': Disk, s: Scope) {
    ScopeInv(d, s) ==> ScopeInv(d', s) && forall content :: Stored(d, s, content) ==> Stored(d', s, content)
  }

  // -------- transferring the invariant --------

  /** The slot reads the same and is at least as certain. */
  predicate Same(d: Disk, d': Disk, slot: Slot) {
    d'.Cur(slot) == d.Cur(slot) && d'.MayBe(slot) <= d.MayBe(slot)
  }

  /** Of this scope's blobs and their markers at most those of `dg` changed. */
  ghost predicate OtherBlobsSame(d: Disk, d': Disk, s: Scope, dg: Digest) {
    forall x :: x != dg ==> Same(d, d', BlobSlot(s, x)) && Same(d, d', UpgradePending(s, x))
  }

  lemma KeyTransfer(d: Disk, d': Disk, s: Scope)
    requires Same(d, d', Tombstone(s)) && Same(d, d', KeySlot(s))
    requires KeyInv(d, s) && KeyAt(d, s).Some? && None in d.MayBe(KeySlot(s)) && None in d'.MayBe(KeySlot(s))
             ==> d'.Cur(KeyPending(s)).Some?
    ensures KeyInv(d, s) ==> KeyInv(d', s)
    ensures KeyAt(d', s) == KeyAt(d, s) && (KeyPublished(d, s) ==> KeyPublished(d', s))
  {
    assert d'.Cur(Tombstone(s)) in d'.MayBe(Tombstone(s));
  }

  lemma BlobTransfer(d: Disk, d': Disk, s: Scope)
    requires Same(d, d', KeySlot(s)) && forall dg :: Same(d, d', BlobSlot(s, dg))
    ensures BlobInv(d, s) ==> BlobInv(d', s)
  {
    assert KeyPublished(d, s) ==> KeyPublished(d', s);
    assert KeyAt(d', s) == KeyAt(d, s);
    if BlobInv(d, s) {
      forall dg, f | f in d'.MayBe(BlobSlot(s, dg)) && f.Some?
        ensures d'.Cur(BlobSlot(s, dg)).Some? && KeyPublished(d', s) && GoodBlob(f.value, s, dg, KeyAt(d', s).value)
      {
        assert Same(d, d', BlobSlot(s, dg));
        assert f in d.MayBe(BlobSlot(s, dg));
      }
    }
  }

  lemma MarkTransfer(d: Disk, d': Disk, s: Scope, dg: Digest)
    requires Same(d, d', BlobSlot(s, dg))
    requires d.Cur(UpgradePending(s, dg)).Some? ==> d'.Cur(UpgradePending(s, dg)).Some?
    ensures Marked(d, s, dg) ==> Marked(d', s, dg)
  {
  }

  lemma MarksTransfer(d: Disk, d': Disk, s: Scope)
    requires forall dg :: Same(d, d', BlobSlot(s, dg)) && Same(d, d', UpgradePending(s, dg))
    ensures MarkersKept(d, d', s)
  {
    forall dg ensures MarkerKept(d, d', s, dg) {
      assert Same(d, d', UpgradePending(s, dg));
      MarkTransfer(d, d', s, dg);
    }
  }

  /** A scope whose slots read the same, and are at least as certain, keeps everything. */
  lemma ScopeTransfer(d: Disk, d': Disk, t: Scope)
    requires Same(d, d', Tombstone(t)) && Same(d, d', KeySlot(t)) && Same(d, d', KeyPending(t))
    requires forall dg :: Same(d, d', BlobSlot(t, dg)) && Same(d, d', UpgradePending(t, dg))
    ensures ContentKept(d, d', t) && MarkersKept(d, d', t)
  {
    KeyTransfer(d, d', t);
    BlobTransfer(d, d', t);
    MarksTransfer(d, d', t);
    forall content | Stored(d, t, content) ensures Stored(d', t, content) {
      assert Same(d, d', BlobSlot(t, DigestOf(content)));
    }
  }

  lemma FrameElsewhere(d: Disk, d': Disk, s: Scope, t: Scope)
    requires Frame(d, d', s) && s != t
    ensures ContentKept(d, d', t) && MarkersKept(d, d', t)
  {
    assert forall slot :: !OwnedBy(slot, s) ==> Same(d, d', slot);
    forall dg ensures Same(d, d', BlobSlot(t, dg)) && Same(d, d', UpgradePending(t, dg)) {}
    ScopeTransfer(d, d', t);
  }

  lemma CrashKey(d: Disk, d': Disk, s: Scope)
    requires Crashed(d, d') && KeyInv(d, s)
    ensures KeyInv(d', s)
    ensures KeyPublished(d, s) ==> KeyPublished(d', s) && KeyAt(d', s) == KeyAt(d, s)
  {
    assert d'.MayBe(KeySlot(s)) == {d'.Cur(KeySlot(s))} && d'.MayBe(Tombstone(s)) == {d'.Cur(Tombstone(s))};
    assert d'.Cur(KeySlot(s)) in d.MayBe(KeySlot(s)) && d'.Cur(Tombstone(s)) in d.MayBe(Tombstone(s));
  }

  /** Nothing is uncertain, as after a crash or in a copy. */
  ghost predicate Certain(d: Disk) { forall slot :: d.MayBe(slot) == {d.Cur(slot)} }

  /** An entry that is certain has no rewrite that could be undone. */
  lemma CertainMarked(d: Disk, s: Scope, dg: Digest)
    requires d.MayBe(BlobSlot(s, dg)) == {d.Cur(BlobSlot(s, dg))}
    ensures Marked(d, s, dg)
  {
  }

  /** A crash, whatever it loses, keeps every live scope's invariant and stored content. */
  lemma CrashKeeps(d: Disk, d': Disk, s: Scope)
    requires Crashed(d, d')
    ensures ContentKept(d, d', s) && forall dg :: Marked(d', s, dg)
  {
    forall dg ensures Marked(d', s, dg) {
      CertainMarked(d', s, dg);
    }
    if ScopeInv(d, s) {
      CrashKey(d, d', s);
      forall dg
        ensures d'.MayBe(BlobSlot(s, dg)) == {d'.Cur(BlobSlot(s, dg))}
        ensures d'.Cur(BlobSlot(s, dg)) in d.MayBe(BlobSlot(s, dg))
      {}
    }
  }
}
