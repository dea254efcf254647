/** Content-addressed encrypted blobs: put, get in both read modes, and the
    format 2 to format 3 upgrade with its pending marker. */
module BlobStore {
  import opened Orders
  import opened Files
  import opened StorageInvariant
  import opened KeyRing

  function CurrentBlob(s: Scope, content: Bytes, key: Key, nonce: nat): File {
    BlobFile(CURRENT_FORMAT, s, nonce, Seal(key, nonce, Header(CURRENT_FORMAT, s), content))
  }

  /** A read of `dg` would succeed, I/O permitting. */
  predicate Readable(d: Disk, s: Scope, dg: Digest) {
    && KeyAt(d, s).Some? && d.Cur(BlobSlot(s, dg)).Some?
    && GoodBlob(d.Cur(BlobSlot(s, dg)).value, s, dg, KeyAt(d, s).value)
  }

  /** The blob is format 3, its upgrade cannot be undone by a crash, and no marker is left. */
  ghost predicate Upgraded(d: Disk, s: Scope, dg: Digest) {
    && IsFormat(d.Cur(BlobSlot(s, dg)), CURRENT_FORMAT)
    && d.Cur(UpgradePending(s, dg)).None?
    && forall f <- d.MayBe(BlobSlot(s, dg)) :: !IsFormat(f, RECOVERED_FORMAT)
  }

  /** Replacing a blob leaves no old-format entry that could reappear without its marker. */
  ghost predicate MayReplace(d: Disk, s: Scope, dg: Digest) {
    (exists f <- d.MayBe(BlobSlot(s, dg)) :: IsFormat(f, RECOVERED_FORMAT)) ==> d.Cur(UpgradePending(s, dg)).Some?
  }

  /** The blob was written over an unmarked old-format entry, which could now reappear. */
  ghost predicate MarkerLost(d: Disk, d': Disk, s: Scope, dg: Digest) {
    !MayReplace(d, s, dg) && !Marked(d', s, dg)
  }

  /** What one write of the blob `dg` may do to markers. It is `blind` exactly if it went over an
      unmarked old-format entry that it did not see and failed after the rename: then, and only
      then, the marker of that one blob is missing. */
  ghost predicate WriteMarks(d: Disk, d': Disk, s: Scope, dg: Digest, blind: bool, ok: bool) {
    && OthersKept(d, d', s, dg) && (!blind ==> MarkerKept(d, d', s, dg))
    && (blind ==> !ok && MarkerLost(d, d', s, dg))
    && (ok ==> d'.MayBe(BlobSlot(s, dg)) == {d'.Cur(BlobSlot(s, dg))})
  }

  /** Exactly what a put of `content` into scope `s` may do, whatever fails. */
  ghost predicate PutRel(d: Disk, d': Disk, closed: set<Scope>, s: Scope, content: Bytes, blind: bool, r: Res<Digest>) {
    && KeepsContent(d, d', s) && (ScopeInv(d, s) ==> WriteMarks(d, d', s, DigestOf(content), blind, r.Ok?))
    && (s in closed ==> r == Err(ErasedScope))
    && (Barred(d, closed, s) ==> (r == Err(ErasedScope) || r == Err(Io)) && d' == d)
    && (r.Ok? ==> r.value == DigestOf(content))
    && (ScopeInv(d, s) && s !in closed ==> if r.Ok? then Stored(d', s, content) else r == Err(Io))
  }

  /** The blob that was there is there. */
  predicate KeptBlob(d: Disk, d': Disk, s: Scope, dg: Digest) {
    d.Cur(BlobSlot(s, dg)).Some? && d'.Cur(BlobSlot(s, dg)) == d.Cur(BlobSlot(s, dg))
  }

  /** The content is there in the current format, under the key that was there or the fresh one. */
  predicate Written(d: Disk, d': Disk, s: Scope, content: Bytes, drawn: Key, nonce: nat) {
    && KeyAt(d', s) == Some(if KeyAt(d, s).Some? then KeyAt(d, s).value else drawn)
    && d'.Cur(BlobSlot(s, DigestOf(content))) == Some(CurrentBlob(s, content, KeyAt(d', s).value, nonce))
  }

  /** Exactly what a get of `dg` from scope `s` may do: what it returns always hashes to
      the reference, a readable blob is refused only for I/O reasons, a recovering read
      that succeeds leaves the upgrade complete, and an observing read changes nothing. */
  ghost predicate GetRel(d: Disk, d': Disk, closed: set<Scope>, s: Scope, dg: Digest, recover: bool, r: Res<Bytes>) {
    && Keeps(d, d', s)
    && (!recover || Barred(d, closed, s) ==> d' == d)
    && (Barred(d, closed, s) ==> r.Err?)
    && (r.Ok? ==> DigestOf(r.value) == dg && Readable(d, s, dg))
    && (Readable(d, s, dg) ==> Readable(d', s, dg))
    && (KeyAt(d, s).Some? ==> KeyAt(d', s) == KeyAt(d, s))
    && OtherBlobsSame(d, d', s, dg)
    && (ScopeInv(d, s) && s !in closed && d.Cur(BlobSlot(s, dg)).Some? ==> r == Ok(dg.content) || r == Err(Io))
    && (ScopeInv(d, s) && Marked(d, s, dg) && recover && r.Ok? ==> Upgraded(d', s, dg))
    && (r.Err? ==> r.error == Io || Justified(d, closed, s, dg, r.error))
  }

  /** Why a read is refused, beyond I/O: what is there is not a blob, has an unknown format or
      another scope's header, is out of reach of any key, or is not what was asked for. */
  ghost predicate Justified(d: Disk, closed: set<Scope>, s: Scope, dg: Digest, e: StoreError) {
    && d.Cur(BlobSlot(s, dg)).Some?
    && var file := d.Cur(BlobSlot(s, dg)).value;
      match e
      case Truncated => !file.BlobFile?
      case UnknownFormat =>
        file.BlobFile? && (file.tag !in {RECOVERED_FORMAT, CURRENT_FORMAT} || file.header != s)
      case DecryptFailed =>
        && file.BlobFile? && file.tag in {RECOVERED_FORMAT, CURRENT_FORMAT} && file.header == s
        && (Barred(d, closed, s) || KeyAt(d, s).None? || Decrypt(file, KeyAt(d, s).value).None?)
      case DigestMismatch =>
        && file.BlobFile? && file.header == s && !Barred(d, closed, s) && KeyAt(d, s).Some?
        && Decrypt(file, KeyAt(d, s).value).Some? && DigestOf(Decrypt(file, KeyAt(d, s).value).value) != dg
      case _ => false
  }

  datatype Plain = Plain(tag: nat, content: Bytes, key: Key)

  /** The same up to the digest check: only the key ring may have been touched. */
  ghost predicate ReadRel(d: Disk, d': Disk, closed: set<Scope>, s: Scope, dg: Digest, recover: bool, r: Res<Plain>) {
    && Keeps(d, d', s) && KeysOnly(d, d') && KeyAt(d', s) == KeyAt(d, s)
    && (!recover || Barred(d, closed, s) ==> d' == d)
    && (Barred(d, closed, s) ==> r.Err?)
    && (r.Ok? ==>
          && DigestOf(r.value.content) == dg && KeyAt(d', s) == Some(r.value.key)
          && Readable(d, s, dg) && Readable(d', s, dg)
          && (r.value.tag == RECOVERED_FORMAT || r.value.tag == CURRENT_FORMAT)
          && IsFormat(d'.Cur(BlobSlot(s, dg)), r.value.tag))
    && (ScopeInv(d, s) && s !in closed && d.Cur(BlobSlot(s, dg)).Some? ==> r.Ok? || r == Err(Io))
    && (r.Err? ==> r.error == Io || Justified(d, closed, s, dg, r.error))
  }

  lemma MarkerOnlyKeeps(d: Disk, d': Disk, s: Scope, dg: Digest)
    requires OnlySlot(d, d', UpgradePending(s, dg))
    requires ScopeInv(d, s) && Marked(d, s, dg) ==>
               || d'.Cur(UpgradePending(s, dg)).Some?
               || (forall f <- d.MayBe(BlobSlot(s, dg)) :: !IsFormat(f, RECOVERED_FORMAT))
               || !IsFormat(d.Cur(BlobSlot(s, dg)), CURRENT_FORMAT)
    ensures Keeps(d, d', s)
  {
    MarkerOnlyContent(d, d', s, dg);
    forall x ensures MarkerKept(d, d', s, x) {
      assert Same(d, d', BlobSlot(s, x));
      if x != dg {
        assert Same(d, d', UpgradePending(s, x));
        MarkTransfer(d, d', s, x);
      }
    }
  }

  lemma MarkerOnlyContent(d: Disk, d': Disk, s: Scope, dg: Digest)
    requires OnlySlot(d, d', UpgradePending(s, dg))
    ensures KeepsContent(d, d', s)
  {
    if ScopeInv(d, s) {
      forall x ensures Same(d, d', BlobSlot(s, x)) {}
      assert Same(d, d', Tombstone(s)) && Same(d, d', KeySlot(s)) && Same(d, d', KeyPending(s));
      KeyTransfer(d, d', s);
      BlobTransfer(d, d', s);
      forall x | None !in d.MayBe(BlobSlot(s, x)) ensures None !in d'.MayBe(BlobSlot(s, x)) {
        assert Same(d, d', BlobSlot(s, x));
      }
    }
  }

  /** A fresh encryption under the published key loses no content. */
  lemma ReplaceKeepsContent(d: Disk, d': Disk, s: Scope, dg: Digest, key: Key, blob: File)
    requires KeyPublished(d, s) && KeyAt(d, s) == Some(key) && GoodBlob(blob, s, dg, key)
    requires OnlySlot(d, d', BlobSlot(s, dg)) && d'.Cur(BlobSlot(s, dg)) == Some(blob)
    requires d'.MayBe(BlobSlot(s, dg)) == d.MayBe(BlobSlot(s, dg)) + {Some(blob)}
    ensures KeepsContent(d, d', s)
  {
    assert forall x :: x != BlobSlot(s, dg) ==> Same(d, d', x);
    if ScopeInv(d, s) {
      assert Same(d, d', Tombstone(s)) && Same(d, d', KeySlot(s)) && Same(d, d', KeyPending(s));
      KeyTransfer(d, d', s);
      forall x, f | f in d'.MayBe(BlobSlot(s, x)) && f.Some?
        ensures d'.Cur(BlobSlot(s, x)).Some? && GoodBlob(f.value, s, x, key)
      {
        if x != dg { assert Same(d, d', BlobSlot(s, x)); }
        assert f in d.MayBe(BlobSlot(s, x)) || (x == dg && f == Some(blob));
      }
      forall x | None !in d.MayBe(BlobSlot(s, x)) ensures None !in d'.MayBe(BlobSlot(s, x)) {
        if x != dg { assert Same(d, d', BlobSlot(s, x)); }
      }
    }
  }

  /** Touching one blob entry leaves the markers of all others in order. */
  lemma OnlyBlobOthers(d: Disk, d': Disk, s: Scope, dg: Digest)
    requires OnlySlot(d, d', BlobSlot(s, dg))
    ensures OthersKept(d, d', s, dg)
  {
    forall x | x != dg ensures MarkerKept(d, d', s, x) {
      assert Same(d, d', BlobSlot(s, x)) && Same(d, d', UpgradePending(s, x));
      MarkTransfer(d, d', s, x);
    }
  }

  /** Right after the rename the blob's marker is in order exactly if no unmarked old-format
      entry could reappear. */
  lemma RenameMarksExactly(d: Disk, d': Disk, s: Scope, dg: Digest, blob: File)
    requires blob.BlobFile? && blob.tag == CURRENT_FORMAT && d'.Cur(BlobSlot(s, dg)) == Some(blob)
    requires d'.MayBe(BlobSlot(s, dg)) == d.MayBe(BlobSlot(s, dg)) + {Some(blob)}
    requires d'.Cur(UpgradePending(s, dg)) == d.Cur(UpgradePending(s, dg))
    ensures Marked(d', s, dg) <==> MayReplace(d, s, dg)
  {
    if !MayReplace(d, s, dg) {
      var f :| f in d.MayBe(BlobSlot(s, dg)) && IsFormat(f, RECOVERED_FORMAT);
      assert f in d'.MayBe(BlobSlot(s, dg)) && IsFormat(d'.Cur(BlobSlot(s, dg)), CURRENT_FORMAT);
    }
  }

  /** What `write_current_blob` may do to its entry: nothing, the rename alone, or all of it. */
  ghost predicate WriteSteps(d: Disk, d': Disk, s: Scope, dg: Digest, blob: File, ok: bool) {
    && OnlySlot(d, d', BlobSlot(s, dg))
    && if ok then d'.Cur(BlobSlot(s, dg)) == Some(blob) && d'.MayBe(BlobSlot(s, dg)) == {Some(blob)}
       else || Same(d, d', BlobSlot(s, dg))
            || (d'.Cur(BlobSlot(s, dg)) == Some(blob)
                && d'.MayBe(BlobSlot(s, dg)) == d.MayBe(BlobSlot(s, dg)) + {Some(blob)})
  }

  /** The write is blind exactly if it stopped after renaming over an unmarked old entry. */
  ghost predicate Blind(d: Disk, d': Disk, s: Scope, dg: Digest, ok: bool) {
    !ok && !Same(d, d', BlobSlot(s, dg)) && !MayReplace(d, s, dg)
  }

  lemma WriteMarksExactly(d: Disk, d': Disk, s: Scope, dg: Digest, blob: File, ok: bool)
    requires WriteSteps(d, d', s, dg, blob, ok) && blob.BlobFile? && blob.tag == CURRENT_FORMAT
    ensures WriteMarks(d, d', s, dg, Blind(d, d', s, dg, ok), ok)
    ensures Marked(d, s, dg) ==> (Marked(d', s, dg) <==> !Blind(d, d', s, dg, ok))
  {
    OnlyBlobOthers(d, d', s, dg);
    assert Same(d, d', UpgradePending(s, dg));
    if ok {
      CertainMarked(d', s, dg);
    } else if Same(d, d', BlobSlot(s, dg)) {
      MarkTransfer(d, d', s, dg);
    } else {
      RenameMarksExactly(d, d', s, dg, blob);
    }
  }

  /** No content is lost, whatever step the write stopped at. */
  lemma WriteContent(d: Disk, d': Disk, s: Scope, content: Bytes, key: Key, nonce: nat, ok: bool)
    requires WriteSteps(d, d', s, DigestOf(content), CurrentBlob(s, content, key, nonce), ok)
    requires KeyPublished(d, s) && KeyAt(d, s) == Some(key)
    ensures KeepsContent(d, d', s)
  {
    var dg, blob := DigestOf(content), CurrentBlob(s, content, key, nonce);
    var renamed := d.Write(BlobSlot(s, dg), blob);
    ReplaceKeepsContent(d, renamed, s, dg, key, blob);
    if !ok && Same(d, d', BlobSlot(s, dg)) {
      assert forall x :: d'.Cur(x) == d.Cur(x) && d'.MayBe(x) <= d.MayBe(x);
      SettledKeeps(d, d', s);
    } else {
      assert forall x :: d'.Cur(x) == renamed.Cur(x) && d'.MayBe(x) <= renamed.MayBe(x);
      SettledKeeps(renamed, d', s);
    }
  }

  /** A put that stops right after such a rename is blind, and the blob's marker missing, exactly
      if an unmarked old-format entry was there. */
  lemma BlindWriteExactly(d: Disk, s: Scope, content: Bytes, key: Key, nonce: nat)
    requires ScopeInv(d, s) && KeyPublished(d, s) && KeyAt(d, s) == Some(key)
    ensures var dg := DigestOf(content);
            var d' := d.Write(BlobSlot(s, dg), CurrentBlob(s, content, key, nonce));
            && PutRel(d, d', {}, s, content, !MayReplace(d, s, dg), Err(Io))
            && (Marked(d', s, dg) <==> MayReplace(d, s, dg))
  {
    var dg, blob := DigestOf(content), CurrentBlob(s, content, key, nonce);
    var d' := d.Write(BlobSlot(s, dg), blob);
    assert d.Cur(Tombstone(s)) in d.MayBe(Tombstone(s));
    ReplaceKeepsContent(d, d', s, dg, key, blob);
    OnlyBlobOthers(d, d', s, dg);
    RenameMarksExactly(d, d', s, dg, blob);
  }

  /** A key section followed by a change to one blob. */
  lemma KeysThenBlob(d0: Disk, d1: Disk, d2: Disk, s: Scope, dg: Digest)
    requires KeysOnly(d0, d1) && (OnlyBlob(d1, d2, s, dg) || OtherBlobsSame(d1, d2, s, dg))
    ensures OtherBlobsSame(d0, d2, s, dg)
  {
    forall x | x != dg ensures Same(d0, d2, BlobSlot(s, x)) && Same(d0, d2, UpgradePending(s, x)) {
      assert Same(d1, d2, BlobSlot(s, x)) && Same(d1, d2, UpgradePending(s, x));
    }
  }

  /** The key section before a write changes no marker. */
  lemma MarksAfterKeys(d0: Disk, d1: Disk, d2: Disk, s: Scope, dg: Digest, blind: bool, ok: bool)
    requires ScopeInv(d0, s) && Keeps(d0, d1, s) && KeysOnly(d0, d1) && WriteMarks(d1, d2, s, dg, blind, ok)
    ensures WriteMarks(d0, d2, s, dg, blind, ok)
  {
    forall x ensures MarkerKept(d1, d2, s, x) ==> MarkerKept(d0, d2, s, x) {
      assert MarkerKept(d0, d1, s, x);
    }
    assert d1.MayBe(BlobSlot(s, dg)) == d0.MayBe(BlobSlot(s, dg));
    assert d1.Cur(UpgradePending(s, dg)) == d0.Cur(UpgradePending(s, dg));
  }

  lemma ContentTransitive(a: Disk, b: Disk, c: Disk, s: Scope)
    requires Keeps(a, b, s) && KeepsContent(b, c, s)
    ensures KeepsContent(a, c, s)
  {
  }

  lemma PutThrough(d0: Disk, d1: Disk, d2: Disk, closed: set<Scope>, s: Scope, content: Bytes, blind: bool,
                   r: Res<Digest>)
    requires ScopeInv(d0, s) && Keeps(d0, d1, s) && KeysOnly(d0, d1) && (Barred(d0, closed, s) ==> d1 == d0)
    requires PutRel(d1, d2, closed, s, content, blind, r)
    ensures PutRel(d0, d2, closed, s, content, blind, r)
  {
    ContentTransitive(d0, d1, d2, s);
    MarksAfterKeys(d0, d1, d2, s, DigestOf(content), blind, r.Ok?);
  }

  lemma PutKept(d0: Disk, d1: Disk, d2: Disk, closed: set<Scope>, s: Scope, content: Bytes, r: Res<Digest>)
    requires Keeps(d0, d1, s) && Settled(d1, d2) && !Barred(d0, closed, s)
    requires var blob := d1.Cur(BlobSlot(s, DigestOf(content)));
             || r == Err(Io)
             || (r == Ok(DigestOf(content)) && blob.Some? && d2.MayBe(BlobSlot(s, DigestOf(content))) == {blob})
    ensures PutRel(d0, d2, closed, s, content, false, r)
  {
    SettledKeeps(d1, d2, s);
    KeepsTransitive(d0, d1, d2, s);
  }

  lemma SoundBlob(d: Disk, s: Scope, dg: Digest)
    requires ScopeInv(d, s) && d.Cur(BlobSlot(s, dg)).Some?
    ensures Readable(d, s, dg) && KeyPublished(d, s) && d.Cur(Tombstone(s)).None?
    ensures Decrypt(d.Cur(BlobSlot(s, dg)).value, KeyAt(d, s).value) == Some(dg.content)
  {
    assert d.Cur(BlobSlot(s, dg)) in d.MayBe(BlobSlot(s, dg));
    assert d.Cur(Tombstone(s)) in d.MayBe(Tombstone(s));
  }

  lemma FreshWrite(d0: Disk, d1: Disk, d2: Disk, s: Scope, content: Bytes, key: Key, nonce: nat, ok: bool)
    requires ScopeInv(d0, s) && Keeps(d0, d1, s) && KeysOnly(d0, d1)
    requires KeyPublished(d1, s) && KeyAt(d1, s) == Some(key)
    requires WriteSteps(d1, d2, s, DigestOf(content), CurrentBlob(s, content, key, nonce), ok)
    ensures KeepsContent(d0, d2, s)
    ensures WriteMarks(d0, d2, s, DigestOf(content), Blind(d1, d2, s, DigestOf(content), ok), ok)
  {
    WriteContent(d1, d2, s, content, key, nonce, ok);
    ContentTransitive(d0, d1, d2, s);
    WriteMarksExactly(d1, d2, s, DigestOf(content), CurrentBlob(s, content, key, nonce), ok);
    MarksAfterKeys(d0, d1, d2, s, DigestOf(content), Blind(d1, d2, s, DigestOf(content), ok), ok);
  }

  /** A put that obtained its key and wrote. */
  lemma FreshPut(d0: Disk, d1: Disk, d2: Disk, closed: set<Scope>, s: Scope, content: Bytes, drawn: Key, nonce: nat,
                 ok: bool)
    requires Keeps(d0, d1, s) && KeysOnly(d0, d1) && !Barred(d0, closed, s)
    requires KeyAt(d1, s) == Some(if KeyAt(d0, s).Some? then KeyAt(d0, s).value else drawn)
    requires ScopeInv(d0, s) ==> KeyPublished(d1, s)
    requires WriteSteps(d1, d2, s, DigestOf(content), CurrentBlob(s, content, KeyAt(d1, s).value, nonce), ok)
    ensures Frame(d0, d2, s) && (ok ==> Written(d0, d2, s, content, drawn, nonce))
    ensures ScopeInv(d0, s) ==> PutRel(d0, d2, closed, s, content, Blind(d1, d2, s, DigestOf(content), ok),
                                       if ok then Ok(DigestOf(content)) else Err(Io))
  {
    if ScopeInv(d0, s) {
      FreshWrite(d0, d1, d2, s, content, KeyAt(d1, s).value, nonce, ok);
    }
  }

  /** An upgrade writes behind its marker, so it is never blind. */
  lemma MarkedWrite(d1: Disk, d2: Disk, s: Scope, content: Bytes, key: Key, nonce: nat, ok: bool)
    requires KeyAt(d1, s) == Some(key) && Durable(d1, UpgradePending(s, DigestOf(content)))
    requires ScopeInv(d1, s) ==> KeyPublished(d1, s)
    requires WriteSteps(d1, d2, s, DigestOf(content), CurrentBlob(s, content, key, nonce), ok)
    ensures Keeps(d1, d2, s)
  {
    if ScopeInv(d1, s) {
      WriteContent(d1, d2, s, content, key, nonce, ok);
    }
    WriteMarksExactly(d1, d2, s, DigestOf(content), CurrentBlob(s, content, key, nonce), ok);
    forall x ensures MarkerKept(d1, d2, s, x) {
      assert x != DigestOf(content) ==> MarkerKept(d1, d2, s, x);
    }
  }

  /** The plan of a put that does not see its blob and stops after the rename: obtaining the key
      takes four operations, the fifth is the existence probe, the key takes four again, the write
      four up to its rename, and then the directory sync fails. */
  ghost predicate UnseenPut(alive: bool, next: nat, fates: nat -> Fate) {
    && alive && fates(next + 4) == Fails && fates(next + 13) == Fails
    && forall i :: next <= i < next + 13 && i != next + 4 ==> fates(i) == Works
  }

  class ArtifactStore {
    const keys: CounterpartyKeyRing

    constructor (keys: CounterpartyKeyRing)
      ensures this.keys == keys
    {
      this.keys := keys;
    }

    // -------- the upgrade-pending marker --------

    method PersistUpgradePending(s: Scope, dg: Digest) returns (ok: bool)
      modifies keys.vol
      ensures old(keys.vol.Healthy()) ==> ok && keys.vol.Healthy()
      ensures OnlySlot(old(keys.vol.disk), keys.vol.disk, UpgradePending(s, dg))
      ensures old(keys.vol.disk).Cur(UpgradePending(s, dg)).Some? ==> keys.vol.disk.Cur(UpgradePending(s, dg)).Some?
      ensures ok ==> Durable(keys.vol.disk, UpgradePending(s, dg))
      ensures keys.vol.next > old(keys.vol.next)
      ensures keys.vol.alive ==> old(keys.vol.alive) && (ok || keys.vol.Trouble(old(keys.vol.next), keys.vol.next))
    {
      ok := keys.vol.Create(UpgradePending(s, dg), Mark);
      if ok { ok := keys.vol.Attempt(); }
      if ok { ok := keys.vol.FsyncScope(s); }
    }

    method ClearUpgradePending(s: Scope, dg: Digest) returns (ok: bool)
      modifies keys.vol
      ensures old(keys.vol.Healthy()) ==> ok && keys.vol.Healthy()
      ensures OnlySlot(old(keys.vol.disk), keys.vol.disk, UpgradePending(s, dg))
      ensures ok ==> keys.vol.disk.MayBe(UpgradePending(s, dg)) == {None}
      ensures !ok && keys.vol.alive ==>
                || keys.vol.disk == old(keys.vol.disk)
                || Durable(keys.vol.disk, UpgradePending(s, dg))
                || keys.vol.TroubleTwice(old(keys.vol.next), keys.vol.next)
    {
      ok := keys.vol.Remove(UpgradePending(s, dg));
      if !ok { return; }
      ok := keys.vol.FsyncScope(s);
      if !ok {
        // The unlink is visible but not durable: publish the marker again.
        ghost var failed := keys.vol.next;
        var planted := PersistUpgradePending(s, dg);
        assert keys.vol.alive && !planted ==> keys.vol.Trouble(failed, keys.vol.next);
      }
    }

    method SyncExistingBlob(s: Scope, dg: Digest) returns (ok: bool)
      modifies keys.vol
      ensures old(keys.vol.Healthy()) ==> ok && keys.vol.Healthy()
      ensures Settled(old(keys.vol.disk), keys.vol.disk)
      ensures ok ==> keys.vol.disk.MayBe(BlobSlot(s, dg)) == {keys.vol.disk.Cur(BlobSlot(s, dg))}
    {
      ok := keys.vol.Attempt();
      if ok { ok := keys.vol.Attempt(); }
      if ok { ok := keys.vol.FsyncScope(s); }
    }

    method RecoverPendingUpgrade(s: Scope, dg: Digest) returns (ok: bool)
      modifies keys.vol
      ensures old(keys.vol.Healthy()) ==> ok && keys.vol.Healthy()
      ensures Keeps(old(keys.vol.disk), keys.vol.disk, s)
      ensures OnlySlot(old(keys.vol.disk), keys.vol.disk, UpgradePending(s, dg))
      ensures ok && Marked(old(keys.vol.disk), s, dg) && IsFormat(keys.vol.disk.Cur(BlobSlot(s, dg)), CURRENT_FORMAT)
              ==> Upgraded(keys.vol.disk, s, dg)
    {
      ghost var d0 := keys.vol.disk;
      var found;
      ok, found := keys.vol.Look(UpgradePending(s, dg));
      if !ok || found.None? { return; }
      ok := SyncExistingBlob(s, dg);
      ghost var d1 := keys.vol.disk;
      SettledKeeps(d0, d1, s);
      if !ok { return; }
      ok := ClearUpgradePending(s, dg);
      MarkerOnlyKeeps(d1, keys.vol.disk, s, dg);
      KeepsTransitive(d0, d1, keys.vol.disk, s);
    }

    /** Create, write and sync the temporary file. */
    method StageBlob() returns (ok: bool)
      modifies keys.vol
      ensures old(keys.vol.Healthy()) ==> ok && keys.vol.Healthy()
      ensures keys.vol.disk == old(keys.vol.disk)
      ensures old(keys.vol.Steady(3)) ==> ok && keys.vol.alive && keys.vol.next == old(keys.vol.next) + 3
    {
      ok := keys.vol.Attempt();
      if ok { ok := keys.vol.Attempt(); }
      if ok { ok := keys.vol.Attempt(); }
    }

    /** Temp write, rename over the blob path, then both directory syncs. */
    method WriteCurrentBlob(s: Scope, content: Bytes, key: Key, nonce: nat) returns (ok: bool)
      modifies keys.vol
      ensures old(keys.vol.Healthy()) ==> ok && keys.vol.Healthy()
      ensures WriteSteps(old(keys.vol.disk), keys.vol.disk, s, DigestOf(content),
                         CurrentBlob(s, content, key, nonce), ok)
      ensures old(keys.vol.Steady(4)) && keys.vol.fates(old(keys.vol.next) + 4) != Works ==>
                !ok && keys.vol.disk == old(keys.vol.disk).Write(BlobSlot(s, DigestOf(content)),
                                                                 CurrentBlob(s, content, key, nonce))
    {
      ok := StageBlob();
      if !ok { return; }
      ok := keys.vol.Create(BlobSlot(s, DigestOf(content)), CurrentBlob(s, content, key, nonce));
      if !ok { return; }
      ok := keys.vol.FsyncScope(s);
    }

    /** Rewrite a format-2 blob behind its marker. */
    method UpgradeBlob(s: Scope, content: Bytes, key: Key, nonce: nat) returns (ok: bool)
      requires KeyAt(keys.vol.disk, s) == Some(key) && Readable(keys.vol.disk, s, DigestOf(content))
      modifies keys.vol
      ensures old(keys.vol.Healthy()) ==> ok && keys.vol.Healthy()
      ensures Keeps(old(keys.vol.disk), keys.vol.disk, s)
      ensures OnlyBlob(old(keys.vol.disk), keys.vol.disk, s, DigestOf(content))
      ensures keys.vol.disk.Cur(BlobSlot(s, DigestOf(content))) in
                {old(keys.vol.disk).Cur(BlobSlot(s, DigestOf(content))), Some(CurrentBlob(s, content, key, nonce))}
      ensures ok ==> Upgraded(keys.vol.disk, s, DigestOf(content))
    {
      ghost var d0 := keys.vol.disk;
      if ScopeInv(d0, s) { SoundBlob(d0, s, DigestOf(content)); }
      ok := PersistUpgradePending(s, DigestOf(content));
      ghost var d1 := keys.vol.disk;
      MarkerOnlyKeeps(d0, d1, s, DigestOf(content));
      if !ok { return; }
      ok := RewriteMarked(s, content, key, nonce);
      KeepsTransitive(d0, d1, keys.vol.disk, s);
    }

    /** The rewrite behind a marker that is in place, then the clearing of the marker. */
    method RewriteMarked(s: Scope, content: Bytes, key: Key, nonce: nat) returns (ok: bool)
      requires KeyAt(keys.vol.disk, s) == Some(key) && Durable(keys.vol.disk, UpgradePending(s, DigestOf(content)))
      requires ScopeInv(keys.vol.disk, s) ==> KeyPublished(keys.vol.disk, s)
      modifies keys.vol
      ensures old(keys.vol.Healthy()) ==> ok && keys.vol.Healthy()
      ensures Keeps(old(keys.vol.disk), keys.vol.disk, s)
      ensures OnlyBlob(old(keys.vol.disk), keys.vol.disk, s, DigestOf(content))
      ensures keys.vol.disk.Cur(BlobSlot(s, DigestOf(content))) in
                {old(keys.vol.disk).Cur(BlobSlot(s, DigestOf(content))), Some(CurrentBlob(s, content, key, nonce))}
      ensures ok ==> Upgraded(keys.vol.disk, s, DigestOf(content))
    {
      ghost var d1 := keys.vol.disk;
      ok := WriteCurrentBlob(s, content, key, nonce);
      ghost var d2 := keys.vol.disk;
      MarkedWrite(d1, d2, s, content, key, nonce, ok);
      if !ok { return; }
      ok := ClearUpgradePending(s, DigestOf(content));
      MarkerOnlyKeeps(d2, keys.vol.disk, s, DigestOf(content));
      KeepsTransitive(d1, d2, keys.vol.disk, s);
    }

    /** The tail of a recovering read: upgrade a format-2 blob, or finish an upgrade that was
        interrupted. */
    method FinishRead(s: Scope, tag: nat, content: Bytes, key: Key, nonce: nat) returns (ok: bool)
      requires IsFormat(keys.vol.disk.Cur(BlobSlot(s, DigestOf(content))), tag)
      requires tag == RECOVERED_FORMAT || tag == CURRENT_FORMAT
      requires KeyAt(keys.vol.disk, s) == Some(key) && Readable(keys.vol.disk, s, DigestOf(content))
      modifies keys.vol
      ensures old(keys.vol.Healthy()) ==> ok && keys.vol.Healthy()
      ensures Keeps(old(keys.vol.disk), keys.vol.disk, s)
      ensures Readable(keys.vol.disk, s, DigestOf(content)) && KeyAt(keys.vol.disk, s) == Some(key)
      ensures OtherBlobsSame(old(keys.vol.disk), keys.vol.disk, s, DigestOf(content))
      ensures keys.vol.disk.Cur(BlobSlot(s, DigestOf(content))) in
                {old(keys.vol.disk).Cur(BlobSlot(s, DigestOf(content))), Some(CurrentBlob(s, content, key, nonce))}
      ensures ok && Marked(old(keys.vol.disk), s, DigestOf(content)) ==> Upgraded(keys.vol.disk, s, DigestOf(content))
    {
      if tag == CURRENT_FORMAT {
        ok := RecoverPendingUpgrade(s, DigestOf(content));
      } else {
        ok := UpgradeBlob(s, content, key, nonce);
      }
    }

    // -------- put and get --------

    /** `drawn` and `nonce` are the random key and nonce this call would use; `n` names its temporaries. */
    method PutScoped(s: Scope, content: Bytes, n: nat, drawn: Key, nonce: nat)
      returns (r: Res<Digest>, ghost blind: bool)
      modifies keys.vol
      ensures old(keys.vol.Healthy()) && ScopeInv(old(keys.vol.disk), s) ==> !blind
      ensures old(keys.vol.Healthy()) && ScopeInv(old(keys.vol.disk), s) && s !in keys.closed ==>
                r.Ok? && keys.vol.Healthy()
      ensures PutRel(old(keys.vol.disk), keys.vol.disk, keys.closed, s, content, blind, r)
      ensures r.Ok? ==> || KeptBlob(old(keys.vol.disk), keys.vol.disk, s, DigestOf(content))
                        || Written(old(keys.vol.disk), keys.vol.disk, s, content, drawn, nonce)
      ensures (&& old(keys.vol.Healthy()) && KeyAt(old(keys.vol.disk), s).Some?
               && !Barred(old(keys.vol.disk), keys.closed, s)
               && old(keys.vol.disk).Cur(BlobSlot(s, DigestOf(content))).Some?) ==>
                KeptBlob(old(keys.vol.disk), keys.vol.disk, s, DigestOf(content))
      ensures forall key: Key :: (&& UnseenPut(old(keys.vol.alive), old(keys.vol.next), keys.vol.fates)
                                  && KeyAtRest(old(keys.vol.disk), s, key) && s !in keys.closed) ==>
                && r == Err(Io)
                && keys.vol.disk == old(keys.vol.disk).Write(BlobSlot(s, DigestOf(content)),
                                                             CurrentBlob(s, content, key, nonce))
    {
      ghost var d0 := keys.vol.disk;
      blind := false;
      var present := StoredAlready(s, DigestOf(content), n);
      ghost var d1 := keys.vol.disk;
      if present.Err? { r := Err(present.error); return; }
      if present.value {
        r := KeepStored(s, content);
        PutKept(d0, d1, keys.vol.disk, keys.closed, s, content, r);
        return;
      }
      r, blind := StoreFresh(s, content, n, drawn, nonce);
      if ScopeInv(d0, s) { PutThrough(d0, d1, keys.vol.disk, keys.closed, s, content, blind, r); }
    }

    /** Is there a key, and does the blob's path exist? */
    method StoredAlready(s: Scope, dg: Digest, n: nat) returns (r: Res<bool>)
      modifies keys.vol
      ensures old(keys.vol.Healthy()) && ScopeInv(old(keys.vol.disk), s) ==> r.Ok? && keys.vol.Healthy()
      ensures old(keys.vol.Healthy()) && KeyAt(old(keys.vol.disk), s).Some? ==>
                !Barred(old(keys.vol.disk), keys.closed, s) && old(keys.vol.disk).Cur(BlobSlot(s, dg)).Some? ==>
                  r == Ok(true)
      ensures Keeps(old(keys.vol.disk), keys.vol.disk, s) && KeysOnly(old(keys.vol.disk), keys.vol.disk)
      ensures KeyAt(keys.vol.disk, s) == KeyAt(old(keys.vol.disk), s)
      ensures r.Err? ==> r.error == Io || (r.error == DecryptFailed && KeyAt(old(keys.vol.disk), s).None?)
      ensures ScopeInv(old(keys.vol.disk), s) && r.Err? ==> r.error == Io
      ensures s in keys.closed ==> r == Ok(false)
      ensures Barred(old(keys.vol.disk), keys.closed, s) ==>
                (r == Ok(false) || r == Err(Io)) && keys.vol.disk == old(keys.vol.disk)
      ensures r == Ok(true) ==> old(keys.vol.disk).Cur(BlobSlot(s, dg)).Some?
      ensures (exists key: Key :: KeyAtRest(old(keys.vol.disk), s, key)) && s !in keys.closed
              && UnseenPut(old(keys.vol.alive), old(keys.vol.next), keys.vol.fates) ==>
                && r == Ok(false) && keys.vol.alive && keys.vol.next == old(keys.vol.next) + 5
                && keys.vol.disk == old(keys.vol.disk)
    {
      var present := keys.GetKeyLocked(s, n, true);
      if present.Err? { return Err(present.error); }
      if present.value.None? { return Ok(false); }
      var found := keys.vol.Probe(BlobSlot(s, dg));
      r := Ok(found);
    }

    /** The blob is there already: make sure that it stays. */
    method KeepStored(s: Scope, content: Bytes) returns (r: Res<Digest>)
      modifies keys.vol
      ensures old(keys.vol.Healthy()) ==> r.Ok? && keys.vol.Healthy()
      ensures Settled(old(keys.vol.disk), keys.vol.disk)
      ensures r == Err(Io) || r == Ok(DigestOf(content))
      ensures r.Ok? ==> keys.vol.disk.MayBe(BlobSlot(s, DigestOf(content))) ==
                        {old(keys.vol.disk).Cur(BlobSlot(s, DigestOf(content)))}
    {
      var ok := SyncExistingBlob(s, DigestOf(content));
      r := if ok then Ok(DigestOf(content)) else Err(Io);
    }

    /** Take or create the key, then write. */
    method StoreFresh(s: Scope, content: Bytes, n: nat, drawn: Key, nonce: nat)
      returns (r: Res<Digest>, ghost blind: bool)
      modifies keys.vol
      ensures old(keys.vol.Healthy()) && ScopeInv(old(keys.vol.disk), s) && s !in keys.closed ==>
                r.Ok? && keys.vol.Healthy()
      ensures Frame(old(keys.vol.disk), keys.vol.disk, s)
      ensures s in keys.closed ==> r == Err(ErasedScope)
      ensures Barred(old(keys.vol.disk), keys.closed, s) ==>
                (r == Err(ErasedScope) || r == Err(Io)) && !blind && keys.vol.disk == old(keys.vol.disk)
      ensures r.Ok? ==>
                r.value == DigestOf(content) && Written(old(keys.vol.disk), keys.vol.disk, s, content, drawn, nonce)
      ensures ScopeInv(old(keys.vol.disk), s) ==>
                PutRel(old(keys.vol.disk), keys.vol.disk, keys.closed, s, content, blind, r)
      ensures forall key: Key :: (&& old(keys.vol.Steady(8)) && keys.vol.fates(old(keys.vol.next) + 8) != Works
                             && KeyAtRest(old(keys.vol.disk), s, key) && s !in keys.closed) ==>
                && r == Err(Io)
                && keys.vol.disk == old(keys.vol.disk).Write(BlobSlot(s, DigestOf(content)),
                                                             CurrentBlob(s, content, key, nonce))
    {
      ghost var d0 := keys.vol.disk;
      blind := false;
      var key := keys.GetOrCreateKeyLocked(s, n, drawn);
      ghost var d1 := keys.vol.disk;
      if key.Err? { r := Err(key.error); return; }
      var ok := WriteCurrentBlob(s, content, key.value, nonce);
      ghost var d2 := keys.vol.disk;
      blind := Blind(d1, d2, s, DigestOf(content), ok);
      FreshPut(d0, d1, d2, keys.closed, s, content, drawn, nonce, ok);
      r := if ok then Ok(DigestOf(content)) else Err(Io);
    }

    /** The checks of a read, up to the digest of what was decrypted. */
    method ReadPlain(s: Scope, dg: Digest, n: nat, recover: bool) returns (r: Res<Plain>)
      modifies keys.vol
      ensures old(keys.vol.Healthy()) && ScopeInv(old(keys.vol.disk), s) && s !in keys.closed ==>
                old(keys.vol.disk).Cur(BlobSlot(s, dg)).Some? ==> r.Ok? && keys.vol.Healthy()
      ensures old(keys.vol.Healthy()) && old(keys.vol.disk).Cur(BlobSlot(s, dg)).Some? ==>
                r != Err(Io) && (r.Ok? ==> keys.vol.Healthy())
      ensures ReadRel(old(keys.vol.disk), keys.vol.disk, keys.closed, s, dg, recover, r)
    {
      ghost var d0 := keys.vol.disk;
      if ScopeInv(d0, s) && d0.Cur(BlobSlot(s, dg)).Some? { SoundBlob(d0, s, dg); }
      SettledKeeps(d0, d0, s);
      var ok, file := keys.vol.Look(BlobSlot(s, dg));
      if !ok || file.None? { return Err(Io); }
      if !file.value.BlobFile? { return Err(Truncated); }
      if file.value.tag != RECOVERED_FORMAT && file.value.tag != CURRENT_FORMAT { return Err(UnknownFormat); }
      if file.value.header != s { return Err(UnknownFormat); }
      var key := keys.GetKeyLocked(s, n, recover);
      if key.Err? { return Err(key.error); }
      if key.value.None? { return Err(DecryptFailed); }
      var plain := Decrypt(file.value, key.value.value);
      if plain.None? { return Err(DecryptFailed); }
      if DigestOf(plain.value) != dg { return Err(DigestMismatch); }
      r := Ok(Plain(file.value.tag, plain.value, key.value.value));
    }

    method GetScoped(s: Scope, dg: Digest, n: nat, nonce: nat, recover: bool) returns (r: Res<Bytes>)
      modifies keys.vol
      ensures old(keys.vol.Healthy()) && ScopeInv(old(keys.vol.disk), s) && s !in keys.closed ==>
                old(keys.vol.disk).Cur(BlobSlot(s, dg)).Some? ==> r.Ok? && keys.vol.Healthy()
      ensures old(keys.vol.Healthy()) && old(keys.vol.disk).Cur(BlobSlot(s, dg)).Some? ==> r != Err(Io)
      ensures GetRel(old(keys.vol.disk), keys.vol.disk, keys.closed, s, dg, recover, r)
      ensures || keys.vol.disk.Cur(BlobSlot(s, dg)) == old(keys.vol.disk).Cur(BlobSlot(s, dg))
              || (&& KeyAt(old(keys.vol.disk), s).Some?
                  && keys.vol.disk.Cur(BlobSlot(s, dg)) ==
                     Some(CurrentBlob(s, dg.content, KeyAt(old(keys.vol.disk), s).value, nonce)))
    {
      ghost var d0 := keys.vol.disk;
      var read := ReadPlain(s, dg, n, recover);
      ghost var d1 := keys.vol.disk;
      if read.Err? { return Err(read.error); }
      if recover {
        var ok := FinishRead(s, read.value.tag, read.value.content, read.value.key, nonce);
        KeepsTransitive(d0, d1, keys.vol.disk, s);
        KeysThenBlob(d0, d1, keys.vol.disk, s, dg);
        assert MarkerKept(d0, d1, s, dg);
        if !ok { return Err(Io); }
      }
      r := Ok(read.value.content);
    }
  }

  /** One key and one format-2 blob without a marker. */
  function OldStore(s: Scope, content: Bytes, key: Key, nonce: nat): Disk {
    var blob := BlobFile(RECOVERED_FORMAT, s, nonce, Seal(key, nonce, NoHeader, content));
    Disk(map[KeySlot(s) := KeyFile(key, false), BlobSlot(s, DigestOf(content)) := blob], _ => {})
  }

  lemma OldStoreIsGood(s: Scope, content: Bytes, key: Key, nonce: nat)
    ensures var d := OldStore(s, content, key, nonce);
            && ScopeInv(d, s) && Marked(d, s, DigestOf(content)) && !MayReplace(d, s, DigestOf(content))
            && KeyPublished(d, s) && KeyAt(d, s) == Some(key) && KeyAtRest(d, s, key)
  {
    var d, dg := OldStore(s, content, key, nonce), DigestOf(content);
    assert KeyInv(d, s) && KeyPublished(d, s) && KeyAt(d, s) == Some(key);
    forall x, f | f in d.MayBe(BlobSlot(s, x)) && f.Some?
      ensures d.Cur(BlobSlot(s, x)).Some? && KeyPublished(d, s) && GoodBlob(f.value, s, x, KeyAt(d, s).value)
    {
      assert x == dg;
    }
    CertainMarked(d, s, dg);
    assert d.Cur(BlobSlot(s, dg)) in d.MayBe(BlobSlot(s, dg));
  }

  /** The input for which the marker protocol fails: one key and one unmarked format-2 blob, whose
      existence probe and directory sync fail. The put returns an error and the old entry can
      reappear without a marker. */
  method BlindPut(s: Scope, content: Bytes, key: Key, nonce: nat) returns (r: Res<Digest>, vol: Volume)
    ensures fresh(vol) && r == Err(Io) && MarkerLost(OldStore(s, content, key, nonce), vol.disk, s, DigestOf(content))
  {
    var disk := OldStore(s, content, key, nonce);
    OldStoreIsGood(s, content, key, nonce);
    vol := new Volume(disk, (i: nat) => if i == 4 || i == 13 then Fails else Works);
    var ring := new CounterpartyKeyRing(vol);
    var store := new ArtifactStore(ring);
    assert UnseenPut(vol.alive, vol.next, vol.fates);
    ghost var blind;
    r, blind := store.PutScoped(s, content, 0, 0, nonce);
    BlindWriteExactly(disk, s, content, key, nonce);
  }
}
