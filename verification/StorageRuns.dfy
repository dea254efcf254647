/** Whole runs of the kernel over its storage: any interleaving of locked sections, process
    stops, power loss, boots, backups and restores of an older data root. */
module StorageRuns {
  import opened Orders
  import opened Files
  import opened Ledger
  import opened StorageInvariant
  import opened KeyRing
  import opened BlobStore
  import opened Erasure

  datatype Phase = Down | Serving(closed: set<Scope>)

  /** A data root: its files, its database markers, and what was acknowledged from it. `blind`
      are the blobs whose last write went, unseeing, over an unmarked format-2 entry and failed
      after its rename. */
  datatype Root = Root(disk: Disk, db: set<Scope>, acked: set<(Scope, Bytes)>, blind: set<(Scope, Digest)>)

  datatype World = World(root: Root, ledger: LedgerState, phase: Phase, backups: seq<Root>)

  datatype Event =
    | Put(scope: Scope, content: Bytes, blind: bool, put: Res<Digest>)
    | Get(scope: Scope, digest: Digest, recover: bool, got: Res<Bytes>)
    | RecordErasure(scope: Scope, recorded: Res<()>) // first section
    | DieRecording(scope: Scope, written: bool)      // the process ends inside the first section
    | FinishErasure(scope: Scope, finished: Res<bool>) // second section, whatever part of it worked
    | Stop                                           // the process ends; the file system keeps running
    | PowerLoss
    | Boot(ok: bool, lost: set<Digest>)
    | Backup
    | Restore(index: nat)

  ghost predicate Step(w: World, e: Event, w': World) {
    match e
    case Put(s, content, blind, r) =>
      && w.phase.Serving? && PutRel(w.root.disk, w'.root.disk, w.phase.closed, s, content, blind, r)
      && w' == w.(root := Root(w'.root.disk, w.root.db,
                               if r.Ok? then w.root.acked + {(s, content)} else w.root.acked,
                               BlindAfter(w.root.blind, s, DigestOf(content), blind, r.Ok?)))
    case Get(s, dg, recover, r) =>
      && w.phase.Serving? && GetRel(w.root.disk, w'.root.disk, w.phase.closed, s, dg, recover, r)
      && w' == w.(root := w.root.(disk := w'.root.disk))
    case RecordErasure(s, r) =>
      && w.phase.Serving? && w'.phase.Serving?
      && RecordRel(w.ledger, w'.ledger, w.phase.closed, w'.phase.closed, s, r)
      && w' == w.(ledger := w'.ledger, phase := w'.phase)
    case DieRecording(s, written) =>
      && w.phase.Serving? && s != SYSTEM_SCOPE && RecordsTo(w.ledger, w'.ledger, s, written)
      && w' == w.(ledger := w'.ledger, phase := Down)
    case FinishErasure(s, r) =>
      && w.phase.Serving? && s in w.phase.closed && w'.phase.Serving?
      && FinishRel(w.root.disk, w'.root.disk, w.root.db, w'.root.db, w.phase.closed, w'.phase.closed, s, r)
      && w' == w.(root := w.root.(disk := w'.root.disk, db := w'.root.db), phase := w'.phase)
    case Stop => w' == w.(phase := Down)
    case PowerLoss =>
      && Crashed(w.root.disk, w'.root.disk) && LosesPower(w.ledger, w'.ledger)
      && w' == w.(root := w.root.(disk := w'.root.disk, blind := {}), ledger := w'.ledger, phase := Down)
    case Boot(ok, blind) =>
      && w.phase.Down?
      && (exists closed :: && BootRel(w.root.disk, w'.root.disk, w.root.db, w'.root.db, w.ledger.ids, closed, blind, ok)
                           && w'.phase == if ok then Serving(closed) else Down)
      && w' == w.(root := Root(w'.root.disk, w'.root.db, w.root.acked, w.root.blind + SystemBlobs(blind)),
                  phase := w'.phase)
    case Backup =>
      && w.phase.Down? && |w'.backups| == |w.backups| + 1
      && CopyOf(w.root, w'.backups[|w.backups|])
      && w' == w.(backups := w.backups + [w'.backups[|w.backups|]])
    case Restore(i) =>
      w.phase.Down? && i < |w.backups| && w' == w.(root := w.backups[i])
  }

  /** A blind write adds its blob, a put that returned Ok has settled it. */
  function BlindAfter(before: set<(Scope, Digest)>, s: Scope, dg: Digest, blind: bool, ok: bool): set<(Scope, Digest)> {
    if blind then before + {(s, dg)} else if ok then before - {(s, dg)} else before
  }

  ghost predicate CopyOf(root: Root, copy: Root) {
    && (forall slot :: copy.disk.Cur(slot) == root.disk.Cur(slot) && copy.disk.MayBe(slot) == {root.disk.Cur(slot)})
    && copy == Root(copy.disk, root.db, root.acked, {})
  }

  // -------- the invariant of every reachable world --------

  /** A data root is in order for every scope whose cleanup it has not begun. */
  ghost predicate GoodRoot(root: Root) {
    && (forall s :: s !in root.db ==> ScopeInv(root.disk, s))
    && (forall s, dg :: s !in root.db && (s, dg) !in root.blind ==> Marked(root.disk, s, dg))
    && (forall a <- root.acked :: a.0 !in root.db ==> Stored(root.disk, a.0, a.1))
  }

  /** While serving, what is closed was recorded, and what was cleaned up is closed or gone. */
  ghost predicate GoodPhase(w: World) {
    w.phase.Serving? ==>
      && w.phase.closed <= w.ledger.ids
      && forall s <- w.root.db :: s in w.phase.closed || KeyGone(w.root.disk, s)
  }

  ghost predicate Good(w: World) {
    && w.ledger.Valid() && SYSTEM_SCOPE !in w.ledger.ids
    && GoodRoot(w.root) && GoodPhase(w)
    && forall copy <- w.backups :: GoodRoot(copy) && copy.blind == {}
  }

  lemma SafeRoot(root: Root, root': Root, lost: set<(Scope, Digest)>)
    requires GoodRoot(root) && Safe(root.disk, root'.disk, root'.db, lost)
    requires root.db <= root'.db && root.blind + lost <= root'.blind && root'.acked == root.acked
    ensures GoodRoot(root')
  {
    forall s | s !in root'.db ensures ContentKept(root.disk, root'.disk, s) {}
    forall s, dg | s !in root'.db && (s, dg) !in root'.blind ensures Marked(root'.disk, s, dg) {
      assert MarkerKept(root.disk, root'.disk, s, dg);
    }
    forall a | a in root'.acked && a.0 !in root'.db ensures Stored(root'.disk, a.0, a.1) {
      assert ContentKept(root.disk, root'.disk, a.0);
    }
  }

  lemma CrashedRoot(root: Root, root': Root)
    requires GoodRoot(root) && Crashed(root.disk, root'.disk) && root'.db == root.db && root'.acked == root.acked
    ensures GoodRoot(root')
  {
    forall s | s !in root.db ensures ScopeInv(root'.disk, s) && forall dg :: Marked(root'.disk, s, dg) {
      CrashKeeps(root.disk, root'.disk, s);
    }
    forall a | a in root.acked && a.0 !in root.db ensures Stored(root'.disk, a.0, a.1) {
      CrashKeeps(root.disk, root'.disk, a.0);
      assert ScopeInv(root.disk, a.0) && Stored(root.disk, a.0, a.1);
    }
  }

  lemma CopiedRoot(root: Root, copy: Root)
    requires GoodRoot(root) && CopyOf(root, copy)
    ensures GoodRoot(copy)
  {
    forall slot ensures copy.disk.Cur(slot) in root.disk.MayBe(slot) {}
    CrashedRoot(root, copy);
  }

  /** A section of scope `t` keeps what was cleaned up closed or gone. */
  lemma PhaseKept(w: World, w': World, t: Scope)
    requires GoodPhase(w) && w.phase.Serving? && w'.phase == w.phase && w'.ledger == w.ledger && w'.root.db == w.root.db
    requires Frame(w.root.disk, w'.root.disk, t)
    requires Barred(w.root.disk, w.phase.closed, t) ==> w'.root.disk == w.root.disk
    ensures GoodPhase(w')
  {
    forall s | s in w.root.db && s !in w.phase.closed ensures KeyGone(w'.root.disk, s) {
      if s != t { FrameGone(w.root.disk, w'.root.disk, t, s); }
    }
  }

  lemma PutStep(w: World, w': World, s: Scope, content: Bytes, blind: bool, r: Res<Digest>)
    requires Good(w) && Step(w, Put(s, content, blind, r), w')
    ensures Good(w')
  {
    var dg := DigestOf(content);
    var lost := if blind then {(s, dg)} else {};
    SectionSafe(w.root.disk, w'.root.disk, s, dg, blind);
    NoneGone(w.root.disk, w'.root.disk, w.root.db, lost);
    SafeRoot(w.root, Root(w'.root.disk, w.root.db, w.root.acked, w.root.blind + lost), lost);
    if r.Ok? && s !in w.root.db { CertainMarked(w'.root.disk, s, dg); }
    PhaseKept(w, w', s);
  }

  lemma GetStep(w: World, w': World, s: Scope, dg: Digest, recover: bool, r: Res<Bytes>)
    requires Good(w) && Step(w, Get(s, dg, recover, r), w')
    ensures Good(w')
  {
    SectionSafe(w.root.disk, w'.root.disk, s, dg, false);
    NoneGone(w.root.disk, w'.root.disk, w.root.db, {});
    SafeRoot(w.root, w'.root, {});
    PhaseKept(w, w', s);
  }

  lemma NoneGone(d: Disk, d': Disk, db: set<Scope>, lost: set<(Scope, Digest)>)
    requires Safe(d, d', {}, lost)
    ensures Safe(d, d', db, lost)
  {
  }

  lemma FinishStep(w: World, w': World, s: Scope, r: Res<bool>)
    requires Good(w) && Step(w, FinishErasure(s, r), w')
    ensures Good(w')
  {
    RecoverySafe(w.root.disk, w.root.disk);
    NoneGone(w.root.disk, w.root.disk, w.root.db, {});
    SameDiskGone(w.root.disk);
    FinishSafe(w.root.disk, w.root.disk, w'.root.disk, w.root.db, w'.root.db, s);
    SafeRoot(w.root, w'.root, {});
    EraseGoneKept(w.root.disk, w'.root.disk, s);
    forall t | t in w'.root.db && t !in w'.phase.closed ensures KeyGone(w'.root.disk, t) {
      assert t in w.root.db && KeyGone(w.root.disk, t);
      if t != s { FrameGone(w.root.disk, w'.root.disk, s, t); }
    }
  }

  lemma SameDiskGone(d: Disk)
    ensures GoneKept(d, d)
  {
  }

  lemma BootStep(w: World, w': World, ok: bool, blind: set<Digest>)
    requires Good(w) && Step(w, Boot(ok, blind), w')
    ensures Good(w')
  {
    SafeRoot(w.root, w'.root, SystemBlobs(blind));
  }

  lemma StepKeepsGood(w: World, e: Event, w': World)
    requires Good(w) && Step(w, e, w')
    ensures Good(w')
  {
    match e
    case Put(s, content, blind, r) => PutStep(w, w', s, content, blind, r);
    case Get(s, dg, recover, r) => GetStep(w, w', s, dg, recover, r);
    case FinishErasure(s, r) => FinishStep(w, w', s, r);
    case PowerLoss => CrashedRoot(w.root, w'.root);
    case Boot(ok, blind) => BootStep(w, w', ok, blind);
    case Backup => CopiedRoot(w.root, w'.backups[|w.backups|]);
    case _ =>
  }

  // -------- runs --------

  ghost predicate Run(ws: seq<World>, es: seq<Event>) {
    && |ws| == |es| + 1 && Good(ws[0])
    && forall i :: 0 <= i < |es| ==> Step(ws[i], es[i], ws[i + 1])
  }

  lemma {:induction false} RunIsGood(ws: seq<World>, es: seq<Event>, i: nat)
    requires Run(ws, es) && i < |ws|
    ensures Good(ws[i])
  {
    if i > 0 {
      RunIsGood(ws, es, i - 1);
      StepKeepsGood(ws[i - 1], es[i - 1], ws[i]);
    }
  }

  // -------- erasure --------

  ghost predicate Refused(e: Event, s: Scope) {
    (e.Put? && e.scope == s ==> e.put.Err?) && (e.Get? && e.scope == s ==> e.got.Err?)
  }

  /** Recorded, and not served: no process runs, or the one that runs has closed it. */
  ghost predicate Held(w: World, s: Scope) {
    s in w.ledger.ids && (w.phase.Down? || s in w.phase.closed)
  }

  /** Between `i` and `j` the ledger cannot forget `s`. */
  ghost predicate Lasting(ws: seq<World>, es: seq<Event>, i: nat, j: nat, s: Scope)
    requires i <= j < |ws| && |ws| == |es| + 1
  {
    s in ws[i].ledger.settled || (s in ws[i].ledger.ids && forall k :: i <= k < j ==> !es[k].PowerLoss?)
  }

  /** One event: what is settled stays settled, what is recorded stays recorded unless the power
      goes, and what is held stays held. */
  lemma LedgerStep(w: World, e: Event, w': World, s: Scope)
    requires Good(w) && Step(w, e, w')
    ensures s in w.ledger.settled ==> s in w'.ledger.settled
    ensures s in w.ledger.ids && !e.PowerLoss? ==> s in w'.ledger.ids
    ensures Held(w, s) && s in w'.ledger.ids ==> Held(w', s)
  {
  }

  lemma {:induction false} RecordedOn(ws: seq<World>, es: seq<Event>, i: nat, j: nat, s: Scope)
    requires Run(ws, es) && i <= j < |ws| && Lasting(ws, es, i, j, s)
    ensures s in ws[j].ledger.ids && (s in ws[i].ledger.settled ==> s in ws[j].ledger.settled)
    ensures Held(ws[i], s) ==> Held(ws[j], s)
    decreases j
  {
    if i < j {
      RecordedOn(ws, es, i, j - 1, s);
      RunIsGood(ws, es, j - 1);
      RunIsGood(ws, es, j);
      assert Step(ws[j - 1], es[j - 1], ws[j]);
      LedgerStep(ws[j - 1], es[j - 1], ws[j], s);
    } else {
      RunIsGood(ws, es, i);
    }
  }

  /** An id that is recorded and held is refused by every later put and get, whatever failed,
      crashed, was restored or ran concurrently in between, as long as the ledger cannot forget
      it. */
  lemma HeldIsRefused(ws: seq<World>, es: seq<Event>, i: nat, j: nat, s: Scope)
    requires Run(ws, es) && i <= j < |es| && Held(ws[i], s) && Lasting(ws, es, i, j, s)
    ensures Refused(es[j], s)
  {
    RecordedOn(ws, es, i, j, s);
    assert Step(ws[j], es[j], ws[j + 1]);
  }

  /** Erasure is permanent: once a first recording of an id returned Ok, no later put or get of
      it returns Ok, through every failure, crash, power loss, boot and restore. */
  lemma ErasureIsPermanent(ws: seq<World>, es: seq<Event>, i: nat, j: nat, s: Scope)
    requires Run(ws, es) && i < j < |es| && es[i] == RecordErasure(s, Ok(())) && s !in ws[i].ledger.ids
    ensures Refused(es[j], s)
  {
    RunIsGood(ws, es, i);
    assert Step(ws[i], es[i], ws[i + 1]);
    HeldIsRefused(ws, es, i + 1, j, s);
  }

  /** What closes a recorded id: recording it successfully, or a boot that goes on to serve. */
  ghost predicate Closes(e: Event, s: Scope) {
    (e.RecordErasure? && e.scope == s && e.recorded.Ok?) || (e.Boot? && e.ok)
  }

  lemma ClosesHolds(w: World, e: Event, w': World, s: Scope)
    requires Good(w) && Step(w, e, w') && Closes(e, s) && s in w.ledger.ids
    ensures Held(w', s)
  {
  }

  lemma {:induction false} StaysOpen(ws: seq<World>, es: seq<Event>, i: nat, j: nat, s: Scope)
    requires Run(ws, es) && i <= j < |ws| && ws[i].phase.Serving? && s !in ws[i].phase.closed
    requires forall k :: i <= k < j ==> !Closes(es[k], s)
    ensures ws[j].phase.Serving? ==> s !in ws[j].phase.closed
    decreases j
  {
    if i < j {
      StaysOpen(ws, es, i, j - 1, s);
      assert Step(ws[j - 1], es[j - 1], ws[j]);
      assert !Closes(es[j - 1], s);
    }
  }

  /** The exact condition for an id that became visible in the ledger while the call that
      recorded it failed: a later process state has it closed if and only if, since then, a retry
      recorded it successfully or a boot went on to serve. */
  lemma ClosedExactly(ws: seq<World>, es: seq<Event>, i: nat, j: nat, s: Scope)
    requires Run(ws, es) && i <= j < |ws| && Lasting(ws, es, i, j, s)
    requires ws[i].phase.Serving? && s !in ws[i].phase.closed && ws[j].phase.Serving?
    ensures s in ws[j].phase.closed <==> exists k :: i <= k < j && Closes(es[k], s)
  {
    if k :| i <= k < j && Closes(es[k], s) {
      RecordedOn(ws, es, i, k, s);
      RunIsGood(ws, es, k);
      RunIsGood(ws, es, k + 1);
      assert Step(ws[k], es[k], ws[k + 1]);
      ClosesHolds(ws[k], es[k], ws[k + 1], s);
      RecordedOn(ws, es, i, k + 1, s);
      RecordedOn(ws, es, k + 1, j, s);
    } else {
      StaysOpen(ws, es, i, j, s);
    }
  }

  /** Putting content that is stored settles it. */
  lemma SettlingPut(w: World, s: Scope, content: Bytes)
    requires Good(w) && w.phase.Serving? && s !in w.root.db && (s, content) in w.root.acked && s !in w.phase.closed
    ensures exists w' :: Step(w, Put(s, content, false, Ok(DigestOf(content))), w')
  {
    var d, dg := w.root.disk, DigestOf(content);
    var d' := d.SettleScope(s);
    SettledKeeps(d, d', s);
    assert d.Cur(BlobSlot(s, dg)) in d.MayBe(BlobSlot(s, dg));
    SoundBlob(d, s, dg);
    var w' := w.(root := Root(d', w.root.db, w.root.acked, BlindAfter(w.root.blind, s, dg, false, true)));
    assert w.root.acked + {(s, content)} == w.root.acked;
    assert WriteMarks(d, d', s, dg, false, true);
    assert Step(w, Put(s, content, false, Ok(dg)), w');
  }

  /** A serving process answers for stored content if and only if it has not closed the scope:
      being in the ledger is not enough. */
  lemma AnswersExactly(w: World, s: Scope, content: Bytes)
    requires Good(w) && w.phase.Serving? && s !in w.root.db && (s, content) in w.root.acked
    ensures Step(w, Get(s, DigestOf(content), false, Ok(content)), w) <==> s !in w.phase.closed
    ensures (exists w' :: Step(w, Put(s, content, false, Ok(DigestOf(content))), w')) <==> s !in w.phase.closed
  {
    if s !in w.phase.closed {
      SettlingPut(w, s, content);
      ObservingGet(w, s, content);
    }
  }

  lemma ObservingGet(w: World, s: Scope, content: Bytes)
    requires Good(w) && w.phase.Serving? && s !in w.root.db && (s, content) in w.root.acked && s !in w.phase.closed
    ensures Step(w, Get(s, DigestOf(content), false, Ok(content)), w)
  {
    var d := w.root.disk;
    SettledKeeps(d, d, s);
    assert d.Cur(BlobSlot(s, DigestOf(content))) in d.MayBe(BlobSlot(s, DigestOf(content)));
    SoundBlob(d, s, DigestOf(content));
    assert GetRel(d, d, w.phase.closed, s, DigestOf(content), false, Ok(content));
  }

  /** The run that needs the condition: the ledger's rename took effect, its directory sync
      failed, and the process goes on serving the id. */
  lemma FailedSyncStaysOpen(w: World, s: Scope, content: Bytes)
    requires Good(w) && w.phase.Serving? && s != SYSTEM_SCOPE && s !in w.ledger.ids && s !in w.root.db
    requires (s, content) in w.root.acked
    ensures var w1 := w.(ledger := LedgerState(w.ledger.ids + {s}, w.ledger.settled));
            && Run([w, w1, w1], [RecordErasure(s, Err(Io)), Get(s, DigestOf(content), false, Ok(content))])
            && s in w1.ledger.ids
  {
    var w1 := w.(ledger := LedgerState(w.ledger.ids + {s}, w.ledger.settled));
    assert Step(w, RecordErasure(s, Err(Io)), w1);
    StepKeepsGood(w, RecordErasure(s, Err(Io)), w1);
    AnswersExactly(w1, s, content);
  }

  /** A store with one published key and one format-3 blob, serving, with an empty ledger. */
  function SmallWorld(s: Scope, content: Bytes, key: Key, nonce: nat): World {
    var files := map[KeySlot(s) := KeyFile(key, false),
                     BlobSlot(s, DigestOf(content)) := CurrentBlob(s, content, key, nonce)];
    World(Root(Disk(files, _ => {}), {}, {(s, content)}, {}), LedgerState({}, {}), Serving({}), [])
  }

  lemma SmallWorldIsGood(s: Scope, content: Bytes, key: Key, nonce: nat)
    ensures Good(SmallWorld(s, content, key, nonce)) && Certain(SmallWorld(s, content, key, nonce).root.disk)
  {
    var d := SmallWorld(s, content, key, nonce).root.disk;
    forall t ensures ScopeInv(d, t) {
      forall dg, f | f in d.MayBe(BlobSlot(t, dg)) && f.Some?
        ensures d.Cur(BlobSlot(t, dg)).Some? && KeyPublished(d, t) && GoodBlob(f.value, t, dg, KeyAt(d, t).value)
      {
        assert t == s && dg == DigestOf(content);
      }
    }
    forall t, dg ensures Marked(d, t, dg) { CertainMarked(d, t, dg); }
  }

  /** That run exists. */
  lemma OpenRunExists(s: Scope, content: Bytes, key: Key, nonce: nat)
    requires s != SYSTEM_SCOPE
    ensures var w := SmallWorld(s, content, key, nonce);
            var w1 := w.(ledger := LedgerState({s}, {}));
            && Run([w, w1, w1], [RecordErasure(s, Err(Io)), Get(s, DigestOf(content), false, Ok(content))])
            && s in w1.ledger.ids
  {
    var w := SmallWorld(s, content, key, nonce);
    SmallWorldIsGood(s, content, key, nonce);
    FailedSyncStaysOpen(w, s, content);
    assert w.ledger.ids + {s} == {s};
  }

  /** A boot that finds everything cleaned up already just closes the ledger's ids. */
  lemma QuietBoot(w: World)
    requires w.phase.Down? && w.ledger.ids <= w.root.db && SYSTEM_SCOPE !in w.root.db && Tidy(w.root.disk)
    requires forall t <- w.root.db :: KeyGone(w.root.disk, t)
    ensures Step(w, Boot(true, {}), w.(phase := Serving(w.ledger.ids)))
  {
    var d := w.root.disk;
    RecoverySafe(d, d);
    NoneGone(d, d, w.root.db, {});
    assert SystemBlobs({}) == {} && w.root.blind + {} == w.root.blind;
    assert BootRel(d, d, w.root.db, w.root.db, w.ledger.ids, w.ledger.ids, {}, true);
  }

  /** And why settling matters: a retry of that call succeeds without syncing, so a power loss
      before the cleanup forgets the id and the next boot serves it again. */
  lemma UnsettledIsForgotten(w: World, s: Scope, content: Bytes)
    requires Good(w) && w.phase.Serving? && s != SYSTEM_SCOPE && s !in w.ledger.ids && s !in w.root.db
    requires (s, content) in w.root.acked && w.root.blind == {} && Certain(w.root.disk)
    requires w.ledger.settled <= w.root.db && SYSTEM_SCOPE !in w.root.db && Tidy(w.root.disk)
    requires forall t <- w.root.db :: KeyGone(w.root.disk, t)
    ensures var l := LedgerState(w.ledger.ids + {s}, w.ledger.settled);
            var l' := LedgerState(w.ledger.settled, w.ledger.settled);
            var w1 := w.(ledger := l);
            var w2 := w1.(phase := Serving(w.phase.closed + {s}));
            var w3 := w.(ledger := l', phase := Down);
            var w4 := w3.(phase := Serving(w.ledger.settled));
            && Step(w, RecordErasure(s, Err(Io)), w1) && Step(w1, RecordErasure(s, Ok(())), w2)
            && Step(w2, PowerLoss, w3) && Step(w3, Boot(true, {}), w4)
            && Step(w4, Get(s, DigestOf(content), false, Ok(content)), w4)
  {
    var d := w.root.disk;
    var l, l' := LedgerState(w.ledger.ids + {s}, w.ledger.settled), LedgerState(w.ledger.settled, w.ledger.settled);
    var w1 := w.(ledger := l);
    var w2 := w1.(phase := Serving(w.phase.closed + {s}));
    var w3 := w.(ledger := l', phase := Down);
    var w4 := w3.(phase := Serving(w.ledger.settled));
    assert Step(w2, PowerLoss, w3);
    assert Good(w3);
    QuietBoot(w3);
    StepKeepsGood(w3, Boot(true, {}), w4);
    AnswersExactly(w4, s, content);
  }

  /** That run exists too: the last world is the first one, as if nothing had been recorded. */
  lemma ForgettingRunExists(s: Scope, content: Bytes, key: Key, nonce: nat)
    requires s != SYSTEM_SCOPE
    ensures var w := SmallWorld(s, content, key, nonce);
            var w1 := w.(ledger := LedgerState({s}, {}));
            var w2 := w1.(phase := Serving({s}));
            var w3 := w.(phase := Down);
            && Good(w) && Step(w, RecordErasure(s, Err(Io)), w1) && Step(w1, RecordErasure(s, Ok(())), w2)
            && Step(w2, PowerLoss, w3) && Step(w3, Boot(true, {}), w)
            && Step(w, Get(s, DigestOf(content), false, Ok(content)), w)
  {
    var w := SmallWorld(s, content, key, nonce);
    SmallWorldIsGood(s, content, key, nonce);
    UnsettledIsForgotten(w, s, content);
    assert w.ledger.ids + {s} == {s} && w.phase.closed + {s} == {s};
  }

  // -------- key material --------

  lemma CrashGone(d: Disk, d': Disk, s: Scope)
    requires Crashed(d, d') && KeyGone(d, s)
    ensures KeyGone(d', s)
  {
    assert d'.Cur(Tombstone(s)) in d.MayBe(Tombstone(s)) && d'.Cur(KeySlot(s)) in d.MayBe(KeySlot(s));
    forall n ensures d'.MayBe(KeyTemp(s, n)) == {None} {
      assert d'.Cur(KeyTemp(s, n)) in d.MayBe(KeyTemp(s, n));
    }
  }

  lemma StepGone(w: World, e: Event, w': World, s: Scope)
    requires Step(w, e, w') && s != SYSTEM_SCOPE && KeyGone(w.root.disk, s) && !e.Restore?
    ensures KeyGone(w'.root.disk, s) && Refused(e, s)
  {
    match e
    case Put(t, _, _, _) => if t != s { FrameGone(w.root.disk, w'.root.disk, t, s); }
    case Get(t, _, _, _) => if t != s { FrameGone(w.root.disk, w'.root.disk, t, s); }
    case FinishErasure(t, _) => EraseGoneKept(w.root.disk, w'.root.disk, t);
    case PowerLoss => CrashGone(w.root.disk, w'.root.disk, s);
    case _ =>
  }

  /** Key material that is gone stays gone, through every further event but the return of an
      older data root; and every boot that goes on to serve has removed the keys of all marked
      and recorded scopes from whatever data root it found. */
  lemma {:induction false} KeysStayGone(ws: seq<World>, es: seq<Event>, i: nat, j: nat, s: Scope)
    requires Run(ws, es) && i <= j < |ws| && s != SYSTEM_SCOPE
    requires || KeyGone(ws[i].root.disk, s)
             || (i > 0 && es[i - 1].Boot? && es[i - 1].ok && s in ws[i - 1].ledger.ids + ws[i - 1].root.db)
    requires forall k :: i <= k < j ==> !es[k].Restore?
    ensures KeyGone(ws[j].root.disk, s)
    decreases j
  {
    if i == j {
      if i > 0 { assert Step(ws[i - 1], es[i - 1], ws[i]); }
    } else {
      KeysStayGone(ws, es, i, j - 1, s);
      assert Step(ws[j - 1], es[j - 1], ws[j]);
      StepGone(ws[j - 1], es[j - 1], ws[j], s);
    }
  }

  /** An erasure that returned Ok stands: the key is gone for good on this data root, and puts
      and gets are refused until an older root returns, or, if the ledger cannot forget the id,
      even then. */
  lemma CompletedErasureStands(ws: seq<World>, es: seq<Event>, i: nat, j: nat, s: Scope)
    requires Run(ws, es) && i < j < |es| && es[i].FinishErasure? && es[i].scope == s && es[i].finished.Ok?
    requires (forall k :: i < k < j ==> !es[k].Restore?) || Lasting(ws, es, i + 1, j, s)
    ensures Refused(es[j], s)
    ensures (forall k :: i < k < j ==> !es[k].Restore?) ==> KeyGone(ws[j].root.disk, s)
  {
    assert Step(ws[i], es[i], ws[i + 1]);
    RunIsGood(ws, es, i + 1);
    if forall k :: i < k < j ==> !es[k].Restore? {
      KeysStayGone(ws, es, i + 1, j, s);
      assert Step(ws[j], es[j], ws[j + 1]);
      if !es[j].Restore? { StepGone(ws[j], es[j], ws[j + 1], s); }
    } else {
      HeldIsRefused(ws, es, i + 1, j, s);
    }
  }

  // -------- stored content --------

  lemma {:induction false} AckedKept(ws: seq<World>, es: seq<Event>, i: nat, j: nat, s: Scope, content: Bytes)
    requires Run(ws, es) && i <= j < |ws| && (s, content) in ws[i].root.acked
    requires forall k :: i <= k < j ==> !es[k].Restore?
    ensures (s, content) in ws[j].root.acked
  {
    if i < j {
      AckedKept(ws, es, i, j - 1, s, content);
      assert Step(ws[j - 1], es[j - 1], ws[j]);
    }
  }

  /** Conservation and isolation: content acknowledged for a scope survives everything, the
      erasure of other scopes holding the same plaintext included, until that scope's own
      cleanup begins or the data root is replaced by an older copy. Until the scope is closed a
      read returns exactly that content or reports an I/O failure. */
  lemma StoredUntilErased(ws: seq<World>, es: seq<Event>, i: nat, j: nat, s: Scope, content: Bytes)
    requires Run(ws, es) && i < j < |ws|
    requires es[i].Put? && es[i].scope == s && es[i].content == content && es[i].put.Ok?
    requires forall k :: i < k < j ==> !es[k].Restore?
    requires s !in ws[j].root.db
    ensures Stored(ws[j].root.disk, s, content) && Readable(ws[j].root.disk, s, DigestOf(content))
    ensures (&& j < |es| && es[j].Get? && es[j].scope == s && es[j].digest == DigestOf(content)
             && ws[j].phase.Serving? && s !in ws[j].phase.closed) ==> es[j].got == Ok(content) || es[j].got == Err(Io)
  {
    assert Step(ws[i], es[i], ws[i + 1]);
    AckedKept(ws, es, i + 1, j, s, content);
    RunIsGood(ws, es, j);
    var d := ws[j].root.disk;
    assert d.Cur(BlobSlot(s, DigestOf(content))) in d.MayBe(BlobSlot(s, DigestOf(content)));
    SoundBlob(d, s, DigestOf(content));
    if j < |es| {
      assert Step(ws[j], es[j], ws[j + 1]);
    }
  }

  /** The answer of a completed erasure: true for a scope with acknowledged content whose cleanup
      had not begun on this root, and false for every further erasure of the same scope until an
      older root returns. */
  lemma ErasureAnswers(ws: seq<World>, es: seq<Event>, i: nat, j: nat, s: Scope, content: Bytes)
    requires Run(ws, es) && i < j < |es| && es[j].FinishErasure? && es[j].scope == s && es[j].finished.Ok?
    requires forall k :: i < k < j ==> !es[k].Restore?
    ensures es[i].Put? && es[i].scope == s && es[i].content == content && es[i].put.Ok? && s !in ws[j].root.db ==>
              es[j].finished == Ok(true)
    ensures es[i].FinishErasure? && es[i].scope == s && es[i].finished.Ok? ==> es[j].finished == Ok(false)
  {
    assert Step(ws[j], es[j], ws[j + 1]) && Step(ws[i], es[i], ws[i + 1]);
    var d := ws[j].root.disk;
    assert d.Cur(KeySlot(s)) in d.MayBe(KeySlot(s));
    if es[i].Put? && es[i].scope == s && es[i].content == content && es[i].put.Ok? && s !in ws[j].root.db {
      StoredUntilErased(ws, es, i, j, s, content);
      RunIsGood(ws, es, j);
      assert d.Cur(BlobSlot(s, DigestOf(content))) in d.MayBe(BlobSlot(s, DigestOf(content)));
      SoundBlob(d, s, DigestOf(content));
    }
    if es[i].FinishErasure? && es[i].scope == s && es[i].finished.Ok? {
      KeysStayGone(ws, es, i + 1, j, s);
    }
  }

  /** A restored copy gives back what it had acknowledged, except where it had begun a cleanup. */
  lemma RestoreGivesBack(ws: seq<World>, es: seq<Event>, j: nat, s: Scope, content: Bytes)
    requires Run(ws, es) && j < |es| && es[j].Restore? && es[j].index < |ws[j].backups|
    requires var copy := ws[j].backups[es[j].index]; (s, content) in copy.acked && s !in copy.db
    ensures Stored(ws[j + 1].root.disk, s, content)
  {
    RunIsGood(ws, es, j);
    assert Step(ws[j], es[j], ws[j + 1]);
    assert ws[j].backups[es[j].index] in ws[j].backups;
  }

  /** In every reachable world, a blob of a live scope that exists or could exist after a
      crash decrypts under a key whose publication is complete; and unless the last write of that
      very blob was blind and failed, a format-3 rewrite that a crash could still undo has its
      marker. */
  lemma BlobsAreSound(ws: seq<World>, es: seq<Event>, j: nat, s: Scope, dg: Digest, f: Option<File>)
    requires Run(ws, es) && j < |ws| && s !in ws[j].root.db
    requires f in ws[j].root.disk.MayBe(BlobSlot(s, dg)) && f.Some?
    ensures var d := ws[j].root.disk;
            && KeyPublished(d, s) && GoodBlob(f.value, s, dg, KeyAt(d, s).value)
            && ((s, dg) !in ws[j].root.blind && IsFormat(f, RECOVERED_FORMAT) ==>
                  IsFormat(d.Cur(BlobSlot(s, dg)), CURRENT_FORMAT) ==> d.Cur(UpgradePending(s, dg)).Some?)
  {
    RunIsGood(ws, es, j);
  }

  /** The event is a write of that very blob that went, unseeing, over an unmarked format-2 entry
      and failed after its rename. */
  ghost predicate BlindWrite(e: Event, s: Scope, dg: Digest) {
    (e.Put? && e.blind && e.scope == s && DigestOf(e.content) == dg) || (e.Boot? && s == SYSTEM_SCOPE && dg in e.lost)
  }

  lemma {:induction false} BlindHasCause(ws: seq<World>, es: seq<Event>, j: nat, s: Scope, dg: Digest)
    requires Run(ws, es) && j < |ws| && (s, dg) !in ws[0].root.blind
    requires forall k :: 0 <= k < j ==> !BlindWrite(es[k], s, dg)
    ensures (s, dg) !in ws[j].root.blind
    decreases j
  {
    if j > 0 {
      BlindHasCause(ws, es, j - 1, s, dg);
      RunIsGood(ws, es, j - 1);
      assert Step(ws[j - 1], es[j - 1], ws[j]);
      NotBlindStep(ws[j - 1], es[j - 1], ws[j], s, dg);
    }
  }

  lemma NotBlindStep(w: World, e: Event, w': World, s: Scope, dg: Digest)
    requires Good(w) && Step(w, e, w') && (s, dg) !in w.root.blind && !BlindWrite(e, s, dg)
    ensures (s, dg) !in w'.root.blind
  {
    if e.Restore? {
      assert w.backups[e.index] in w.backups;
    }
  }

  /** The marker protocol over whole runs: a blob whose format-3 rewrite a crash could still undo
      has its pending marker, in every state of a live scope, unless an earlier event was a blind
      write of that very blob. Such an event always reported an error. */
  lemma MarkedUnlessBlind(ws: seq<World>, es: seq<Event>, j: nat, s: Scope, dg: Digest)
    requires Run(ws, es) && j < |ws| && (s, dg) !in ws[0].root.blind && s !in ws[j].root.db
    requires forall k :: 0 <= k < j ==> !BlindWrite(es[k], s, dg)
    ensures Marked(ws[j].root.disk, s, dg)
  {
    BlindHasCause(ws, es, j, s, dg);
    RunIsGood(ws, es, j);
  }

  /** A blind write is what it says, and is never acknowledged: an unmarked format-2 entry of that
      blob was there, it can now reappear unmarked, and the put returned an error or the boot does
      not serve. */
  lemma BlindWriteErrs(ws: seq<World>, es: seq<Event>, k: nat, s: Scope, dg: Digest)
    requires Run(ws, es) && k < |es| && s !in ws[k].root.db && BlindWrite(es[k], s, dg)
    ensures MarkerLost(ws[k].root.disk, ws[k + 1].root.disk, s, dg)
    ensures es[k].Put? ==> es[k].put.Err?
    ensures es[k].Boot? ==> !es[k].ok
  {
    RunIsGood(ws, es, k);
    assert Step(ws[k], es[k], ws[k + 1]);
  }

  /** A recovering read that succeeds returns the promised content and, unless the last write of
      that very blob was blind and failed, leaves the upgrade complete with its marker cleared; an
      observing read changes nothing. */
  lemma ReadsAndUpgrades(ws: seq<World>, es: seq<Event>, j: nat)
    requires Run(ws, es) && j < |es| && es[j].Get?
    ensures es[j].got.Ok? ==> DigestOf(es[j].got.value) == es[j].digest
    ensures es[j].got.Ok? && es[j].recover && (es[j].scope, es[j].digest) !in ws[j].root.blind ==>
              Upgraded(ws[j + 1].root.disk, es[j].scope, es[j].digest)
    ensures !es[j].recover ==> ws[j + 1] == ws[j]
  {
    RunIsGood(ws, es, j);
    assert Step(ws[j], es[j], ws[j + 1]);
  }
}
