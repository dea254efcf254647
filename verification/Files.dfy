/** A file system that can fail or stop at every operation.

    A directory entry that was changed but whose directory was not yet synced may, after
    a crash, hold any content it had since the last sync. `MayBe` is that set; `Cur` is
    what the running process sees. */
module Files {
  import opened Orders

  type Scope = nat
  type Bytes = seq<bv8>
  type Key = nat

  /** The reserved scope for content not tied to a counterparty. */
  const SYSTEM_SCOPE: Scope := 0

  /** A collision-free digest, named by what it digests. */
  datatype Digest = DigestOf(content: Bytes)

  const RECOVERED_FORMAT := 2
  const CURRENT_FORMAT := 3

  // -------- authenticated encryption (RFC 5116 sections 2.1 and 2.2) --------

  /** Associated data: none, or the blob header (format tag and scope). */
  datatype Header = NoHeader | Header(tag: nat, scope: Scope)

  datatype Sealed = Sealed(key: Key, nonce: nat, aad: Header, plain: Bytes)

  function Seal(key: Key, nonce: nat, aad: Header, plain: Bytes): Sealed {
    Sealed(key, nonce, aad, plain)
  }

  /** Decryption yields the plaintext exactly for the key, nonce and associated data
      it was sealed under, and fails otherwise. */
  function Open(key: Key, nonce: nat, aad: Header, sealed: Sealed): Option<Bytes> {
    if sealed.key == key && sealed.nonce == nonce && sealed.aad == aad then Some(sealed.plain) else None
  }

  // -------- slots and contents --------

  datatype Slot =
    | KeySlot(scope: Scope) | Tombstone(scope: Scope) | KeyPending(scope: Scope) | KeyTemp(scope: Scope, n: nat)
    | BlobSlot(scope: Scope, digest: Digest) | UpgradePending(scope: Scope, digest: Digest)
    | Flat(digest: Digest)

  datatype File =
    | Mark
    | KeyFile(key: Key, legacy: bool)
    | BlobFile(tag: nat, header: Scope, nonce: nat, body: Sealed)
    | FlatFile(nonce: nat, body: Sealed)
    | Short

  predicate InKeysDir(slot: Slot) {
    slot.KeySlot? || slot.Tombstone? || slot.KeyPending? || slot.KeyTemp?
  }

  predicate InScopeDir(slot: Slot, scope: Scope) {
    (slot.BlobSlot? || slot.UpgradePending?) && slot.scope == scope
  }

  /** Slots that belong to one counterparty scope. Flat legacy files belong to none. */
  predicate OwnedBy(slot: Slot, scope: Scope) {
    !slot.Flat? && slot.scope == scope
  }

  datatype Disk = Disk(files: map<Slot, File>, older: Slot -> set<Option<File>>) {

    function Cur(slot: Slot): Option<File> {
      if slot in files then Some(files[slot]) else None
    }

    function MayBe(slot: Slot): set<Option<File>> {
      {Cur(slot)} + older(slot)
    }

    function Write(slot: Slot, file: File): (d: Disk)
      ensures forall x :: d.Cur(x) == if x == slot then Some(file) else Cur(x)
      ensures forall x :: d.MayBe(x) == if x == slot then MayBe(x) + {Some(file)} else MayBe(x)
    {
      Disk(files[slot := file], x => if x == slot then MayBe(slot) else older(x))
    }

    function Unlink(slot: Slot): (d: Disk)
      ensures forall x :: d.Cur(x) == if x == slot then None else Cur(x)
      ensures forall x :: d.MayBe(x) == if x == slot then MayBe(x) + {None} else MayBe(x)
    {
      Disk(files - {slot}, x => if x == slot then MayBe(slot) else older(x))
    }

    /** After `sync` of the keys directory. */
    function SettleKeys(): (d: Disk)
      ensures forall x :: d.Cur(x) == Cur(x)
      ensures forall x :: d.MayBe(x) == if InKeysDir(x) then {Cur(x)} else MayBe(x)
    {
      Disk(files, x => if InKeysDir(x) then {} else older(x))
    }

    /** After `sync` of a scope's blob directory and of the root that holds it. */
    function SettleScope(scope: Scope): (d: Disk)
      ensures forall x :: d.Cur(x) == Cur(x)
      ensures forall x :: d.MayBe(x) == if InScopeDir(x, scope) then {Cur(x)} else MayBe(x)
    {
      Disk(files, x => if InScopeDir(x, scope) then {} else older(x))
    }

    /** After `sync` of the root: the flat legacy entries. */
    function SettleFlat(): (d: Disk)
      ensures forall x :: d.Cur(x) == Cur(x)
      ensures forall x :: d.MayBe(x) == if x.Flat? then {Cur(x)} else MayBe(x)
    {
      Disk(files, (x: Slot) => if x.Flat? then {} else older(x))
    }
  }

  /** What a crash may leave: every entry independently at one of its possible contents. */
  ghost predicate Crashed(before: Disk, after: Disk) {
    forall slot :: after.MayBe(slot) == {after.Cur(slot)} && after.Cur(slot) in before.MayBe(slot)
  }

  // -------- the running process's view --------

  /** The fate of one file operation: it works, it reports an error and changes nothing,
      or the process dies before it happens. */
  datatype Fate = Works | Fails | Dies

  class Volume {
    var disk: Disk
    /** What will happen to the operations still to come, in order. */
    const fates: nat -> Fate
    var next: nat
    var alive: bool

    constructor (disk: Disk, fates: nat -> Fate)
      ensures this.disk == disk && this.fates == fates && next == 0 && alive
    {
      this.disk, this.fates, this.next, this.alive := disk, fates, 0, true;
    }

    /** No operation will fail from here on. */
    ghost predicate Healthy()
      reads this
    {
      alive && forall i :: next <= i ==> fates(i) == Works
    }

    /** The next `n` operations will work. */
    ghost predicate Steady(n: nat)
      reads this
    {
      alive && forall i :: next <= i < next + n ==> fates(i) == Works
    }

    /** Some operation in this stretch did not work. */
    ghost predicate Trouble(from: nat, to: nat) {
      exists i :: from <= i < to && fates(i) != Works
    }

    /** Two operations in this stretch did not work. */
    ghost predicate TroubleTwice(from: nat, to: nat) {
      exists m: nat :: from <= m <= to && Trouble(from, m) && Trouble(m, to)
    }

    /** Draw the fate of the next operation. A dead process does nothing more. */
    method Attempt() returns (ok: bool)
      modifies this`next, this`alive
      ensures old(Healthy()) ==> ok && Healthy()
      ensures ok == (old(alive) && fates(old(next)) == Works) && alive == (old(alive) && fates(old(next)) != Dies)
      ensures next == old(next) + 1 && (alive ==> old(alive) && (ok || Trouble(old(next), next)))
    {
      ok := alive && fates(next) == Works;
      alive := alive && fates(next) != Dies;
      next := next + 1;
    }

    method Look(slot: Slot) returns (ok: bool, found: Option<File>)
      modifies this`next, this`alive
      ensures ok == (old(alive) && fates(old(next)) == Works) && next == old(next) + 1
      ensures alive == (old(alive) && fates(old(next)) != Dies)
      ensures ok ==> found == disk.Cur(slot)
      ensures !ok ==> found == None
      ensures old(Healthy()) ==> ok && Healthy()
    {
      ok := Attempt();
      found := if ok then disk.Cur(slot) else None;
    }

    /** A probe that cannot report failure: it then answers that nothing is there. */
    method Probe(slot: Slot) returns (found: bool)
      modifies this`next, this`alive
      ensures found == (old(alive) && fates(old(next)) == Works && disk.Cur(slot).Some?)
      ensures next == old(next) + 1 && alive == (old(alive) && fates(old(next)) != Dies)
      ensures old(Healthy()) ==> Healthy()
    {
      var ok := Attempt();
      found := ok && disk.Cur(slot).Some?;
    }

    method Create(slot: Slot, file: File) returns (ok: bool)
      modifies this
      ensures disk == if ok then old(disk).Write(slot, file) else old(disk)
      ensures old(Healthy()) ==> ok && Healthy()
      ensures next > old(next) && (alive ==> old(alive) && (ok || Trouble(old(next), next)))
      ensures ok == (old(alive) && fates(old(next)) == Works) && next == old(next) + 1 && (ok ==> alive)
    {
      ok := Attempt();
      if ok { disk := disk.Write(slot, file); }
    }

    method Remove(slot: Slot) returns (ok: bool)
      modifies this
      ensures disk == if ok then old(disk).Unlink(slot) else old(disk)
      ensures old(Healthy()) ==> ok && Healthy()
      ensures next > old(next) && (alive ==> old(alive) && (ok || Trouble(old(next), next)))
    {
      ok := Attempt();
      if ok { disk := disk.Unlink(slot); }
    }

    /** Move `from`, which holds `file`, over `to`. */
    method Rename(from: Slot, to: Slot, file: File) returns (ok: bool)
      modifies this
      ensures disk == if ok then old(disk).Write(to, file).Unlink(from) else old(disk)
      ensures old(Healthy()) ==> ok && Healthy()
    {
      ok := Attempt();
      if ok { disk := disk.Write(to, file).Unlink(from); }
    }

    method FsyncKeys() returns (ok: bool)
      modifies this
      ensures disk == if ok then old(disk).SettleKeys() else old(disk)
      ensures old(Healthy()) ==> ok && Healthy()
      ensures next > old(next) && (alive ==> old(alive) && (ok || Trouble(old(next), next)))
    {
      ok := Attempt();
      if ok { disk := disk.SettleKeys(); }
    }

    /** The scope directory, then the root. */
    method FsyncScope(scope: Scope) returns (ok: bool)
      modifies this
      ensures disk == if ok then old(disk).SettleScope(scope) else old(disk)
      ensures old(Healthy()) ==> ok && Healthy()
      ensures next > old(next) && (alive ==> old(alive) && (ok || Trouble(old(next), next)))
      ensures fates(old(next)) != Works ==> !ok
    {
      ok := Attempt();
      if ok {
        ok := Attempt();
        if ok { disk := disk.SettleScope(scope); }
      }
    }

    method FsyncRoot() returns (ok: bool)
      modifies this
      ensures disk == if ok then old(disk).SettleFlat() else old(disk)
      ensures old(Healthy()) ==> ok && Healthy()
    {
      ok := Attempt();
      if ok { disk := disk.SettleFlat(); }
    }
  }
}
