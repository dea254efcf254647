/** What the convergence loops guarantee: the result is the greatest consistent
    sub-registry, the reports account exactly for what was removed, a second run
    changes nothing, and input order never matters. */
module OverlayTheorems {
  import opened Orders
  import opened OverlayRegistry
  import opened OverlayConvergence

  // -------- the consistency conditions, independent of any loop --------

  /** No row awaiting reconfirmation has an active entry. */
  ghost predicate PendingCond(reg: Entries, rows: seq<LearnedArtifact>) {
    forall item <- rows :: item.compatibility == ReconfirmationRequired ==> !ActiveAt(reg, item.Ident())
  }

  /** No ordinary overlay route or workflow that is active has a dangling reference. */
  ghost predicate OrdinaryCond(reg: Entries, rows: seq<LearnedArtifact>) {
    forall item <- rows :: OrphanOf(reg, item).Some? ==> item.Ident() in AcceptedIdents(rows)
  }

  /** Every owner-accepted entry still present has its reviewed bytes and dangles no
      further than the owner accepted. Base slots and prior invalidations are exempt. */
  ghost predicate OwnerCond(reg: Entries, inp: Inputs) {
    forall item <- inp.learned ::
      item.compatibility == OwnerAccepted && item.Slot() !in inp.base
      && item.Ident() !in Idents(inp.existing) && PresentAt(reg, item.Ident())
      ==> OwnerOk(reg, item, inp.sources)
  }

  ghost predicate Consistent(reg: Entries, inp: Inputs) {
    && PendingCond(reg, Candidates(inp.learned, inp.base))
    && OrdinaryCond(reg, Candidates(inp.learned, inp.base))
    && OwnerCond(reg, inp)
  }

  // -------- canonical lists --------

  lemma OrphanOrder()
    ensures TotalOrder(OrphanLeq)
  {
    StringOrder();
    StringsOrder();
  }

  lemma CanonicalIdents(orphans: seq<OrphanedArtifact>)
    ensures Idents(Canonical(orphans)) == Idents(orphans)
  {
    var sorted := Collect(SortedReferences(), orphans);
    IdentsPermuted(Canonical(orphans), sorted);
    forall o | o in orphans ensures o.Ident() in Idents(sorted) {
      CollectMember(SortedReferences(), orphans, SortReferences(o));
    }
    forall o | o in sorted ensures o.Ident() in Idents(orphans) {
      CollectMember(SortedReferences(), orphans, o);
    }
  }

  lemma CanonicalPermuted(a: seq<OrphanedArtifact>, b: seq<OrphanedArtifact>)
    requires multiset(a) == multiset(b)
    ensures Canonical(a) == Canonical(b)
  {
    OrphanOrder();
    CollectPermuted(SortedReferences(), a, b);
    SortCanonical(OrphanLeq, Collect(SortedReferences(), a), Collect(SortedReferences(), b));
  }

  lemma {:induction false} SortedReferencesFixed(orphans: seq<OrphanedArtifact>)
    requires forall o <- orphans :: SortReferences(o) == o
    ensures Collect(SortedReferences(), orphans) == orphans
  {
    if orphans != [] {
      SortedReferencesFixed(orphans[1..]);
      assert orphans == [orphans[0]] + orphans[1..];
    }
  }

  lemma CanonicalIdempotent(orphans: seq<OrphanedArtifact>)
    ensures Canonical(Canonical(orphans)) == Canonical(orphans)
  {
    OrphanOrder();
    StringOrder();
    var once := Canonical(orphans);
    forall o | o in once ensures SortReferences(o) == o {
      assert o in multiset(once);
      assert o in Collect(SortedReferences(), orphans);
      CollectMember(SortedReferences(), orphans, o);
      var x :| x in orphans && SortReferences(x) == o;
      SortSorted(StringLeq, x.danglingReferences);
      SortIdempotent(StringLeq, o.danglingReferences);
    }
    SortedReferencesFixed(once);
    SortSorted(OrphanLeq, Collect(SortedReferences(), orphans));
    SortIdempotent(OrphanLeq, once);
  }

  // -------- the ordinary pass --------

  lemma ExcludeSub(inner: Entries, reg: Entries, gone: set<Identity>)
    requires Sub(inner, reg)
    requires forall key <- inner :: EntryIdent(inner, key) !in gone
    ensures Sub(inner, Exclude(reg, gone))
  {
  }

  /** What dangles in a larger registry dangles in every smaller one that keeps it. */
  lemma OrphanAntitone(inner: Entries, reg: Entries, item: LearnedArtifact)
    requires Sub(inner, reg) && item.Slot() in inner && OrphanOf(reg, item).Some?
    ensures OrphanOf(inner, item).Some?
  {
    var body := reg[item.Slot()].body;
    DanglingAntitone(inner, reg, body);
    assert Dangling(reg, body)[0] in Dangling(inner, body);
  }

  ghost predicate RowFor(rows: seq<LearnedArtifact>, ident: Identity) {
    exists item <- rows :: item.Ident() == ident
  }

  lemma NextFacts(reg: Entries, rows: seq<LearnedArtifact>, all: seq<OrphanedArtifact>)
    ensures forall ident <- Idents(NextOrphans(reg, rows, all)) :: PresentAt(reg, ident) && RowFor(rows, ident)
  {
    var next := NextOrphans(reg, rows, all);
    forall ident | ident in Idents(next) ensures PresentAt(reg, ident) && RowFor(rows, ident) {
      var orphan :| orphan in next && orphan.Ident() == ident;
      NextArePresent(reg, rows, all, orphan);
    }
  }

  lemma ExcludeAgain(reg: Entries, before: set<Identity>, more: set<Identity>)
    requires Exclude(reg, before) == reg
    ensures Exclude(Exclude(reg, more), before + more) == Exclude(reg, more)
  {
    ExcludeAppend(reg, before, more);
    ExcludeAppend(reg, more, before + more);
    assert more + (before + more) == before + more;
  }

  lemma ExcludeAbsorb(reg: Entries, a: set<Identity>, b: set<Identity>)
    requires a <= b
    ensures Exclude(Exclude(reg, a), b) == Exclude(reg, b)
  {
    ExcludeAppend(reg, a, b);
    assert a + b == b;
  }

  /** What one ordinary loop removed. */
  lemma {:induction false} OrdinaryRoundsRemoved(reg: Entries, rows: seq<LearnedArtifact>, all: seq<OrphanedArtifact>)
    requires Exclude(reg, Idents(all)) == reg
    ensures var (rest, reported) := OrdinaryRounds(reg, rows, all);
            rest == Exclude(reg, Idents(reported)) && Idents(all) <= Idents(reported)
    decreases |reg|
  {
    var next := NextOrphans(reg, rows, all);
    if next != [] {
      NextArePresent(reg, rows, all, next[0]);
      ExcludeShrinks(reg, Idents(next), next[0].Ident());
      IdentsAppend(all, next);
      ExcludeAgain(reg, Idents(all), Idents(next));
      OrdinaryRoundsRemoved(Exclude(reg, Idents(next)), rows, all + next);
      ExcludeAbsorb(reg, Idents(next), Idents(OrdinaryRounds(reg, rows, all).1));
    }
  }

  ghost predicate ReportsReal(reg: Entries, rows: seq<LearnedArtifact>, reported: set<Identity>) {
    forall ident <- reported :: PresentAt(reg, ident) && RowFor(rows, ident)
  }

  /** What one ordinary loop reported: only identities of rows that were in the registry. */
  lemma {:induction false} OrdinaryRoundsReport(reg: Entries, reg0: Entries, rows: seq<LearnedArtifact>,
                                                all: seq<OrphanedArtifact>)
    requires Sub(reg, reg0) && ReportsReal(reg0, rows, Idents(all))
    ensures ReportsReal(reg0, rows, Idents(OrdinaryRounds(reg, rows, all).1))
    decreases |reg|
  {
    var next := NextOrphans(reg, rows, all);
    if next != [] {
      NextFacts(reg, rows, all);
      ExcludeShrinks(reg, Idents(next), next[0].Ident());
      IdentsAppend(all, next);
      OrdinaryRoundsReport(Exclude(reg, Idents(next)), reg0, rows, all + next);
    }
  }

  /** Why one ordinary loop stopped. */
  lemma {:induction false} OrdinaryRoundsSettled(reg: Entries, rows: seq<LearnedArtifact>, all: seq<OrphanedArtifact>)
    requires Exclude(reg, Idents(all)) == reg
    ensures OrdinaryCond(OrdinaryRounds(reg, rows, all).0, rows)
    decreases |reg|
  {
    var next := NextOrphans(reg, rows, all);
    if next == [] {
      var test := OrphanTest(reg, AcceptedIdents(rows), Idents(all));
      forall item | item in rows && OrphanOf(reg, item).Some? ensures item.Ident() in AcceptedIdents(rows) {
        CollectMember(test, rows, OrphanOf(reg, item).value);
        assert item.Slot() in Exclude(reg, Idents(all));
      }
    } else {
      NextArePresent(reg, rows, all, next[0]);
      ExcludeShrinks(reg, Idents(next), next[0].Ident());
      IdentsAppend(all, next);
      ExcludeAgain(reg, Idents(all), Idents(next));
      OrdinaryRoundsSettled(Exclude(reg, Idents(next)), rows, all + next);
    }
  }

  /** What one ordinary loop spared: every smaller registry already in order. */
  lemma {:induction false} OrdinaryRoundsSpare(inner: Entries, reg: Entries, rows: seq<LearnedArtifact>,
                                               all: seq<OrphanedArtifact>)
    requires Sub(inner, reg) && OrdinaryCond(inner, rows)
    ensures Sub(inner, OrdinaryRounds(reg, rows, all).0)
    decreases |reg|
  {
    var next := NextOrphans(reg, rows, all);
    if next != [] {
      NextFacts(reg, rows, all);
      ExcludeShrinks(reg, Idents(next), next[0].Ident());
      forall key | key in inner ensures EntryIdent(inner, key) !in Idents(next) {
        if EntryIdent(inner, key) in Idents(next) {
          var orphan :| orphan in next && orphan.Ident() == EntryIdent(inner, key);
          NextArePresent(reg, rows, all, orphan);
          var item :| item in rows && item.Ident() == orphan.Ident() && OrphanOf(reg, item) == Some(orphan);
          OrphanAntitone(inner, reg, item);
          assert false;
        }
      }
      ExcludeSub(inner, reg, Idents(next));
      OrdinaryRoundsSpare(inner, Exclude(reg, Idents(next)), rows, all + next);
    }
  }

  lemma PendingFacts(reg: Entries, rows: seq<LearnedArtifact>, ident: Identity)
    requires ident in Idents(Collect(PendingTest(reg), rows))
    ensures ActiveAt(reg, ident)
    ensures exists item :: item in rows && item.Ident() == ident && item.compatibility == ReconfirmationRequired
  {
    var pending := Collect(PendingTest(reg), rows);
    var orphan :| orphan in pending && orphan.Ident() == ident;
    CollectMember(PendingTest(reg), rows, orphan);
  }

  lemma EvaluateOrdinarySpares(inner: Entries, reg: Entries, rows: seq<LearnedArtifact>)
    requires Sub(inner, reg) && OrdinaryCond(inner, rows) && PendingCond(inner, rows)
    ensures Sub(inner, EvaluateOrdinary(reg, rows).0)
  {
    var pending := Collect(PendingTest(reg), rows);
    forall key | key in inner ensures EntryIdent(inner, key) !in Idents(pending) {
      if EntryIdent(inner, key) in Idents(pending) {
        PendingFacts(reg, rows, EntryIdent(inner, key));
        assert false;
      }
    }
    ExcludeSub(inner, reg, Idents(pending));
    OrdinaryRoundsSpare(inner, Exclude(reg, Idents(pending)), rows, pending);
  }

  /** The ordinary evaluation leaves a registry meeting the pending and ordinary
      conditions and reports exactly the identities it removed. With
      `EvaluateOrdinarySpares` that registry is the greatest such. */
  lemma EvaluateOrdinaryFacts(reg: Entries, rows: seq<LearnedArtifact>)
    ensures var (rest, found) := EvaluateOrdinary(reg, rows);
            && rest == Exclude(reg, Idents(found))
            && OrdinaryCond(rest, rows) && PendingCond(rest, rows)
            && ReportsReal(reg, rows, Idents(found))
  {
    var pending := Collect(PendingTest(reg), rows);
    var gone := Idents(pending);
    var kept := Exclude(reg, gone);
    ExcludeAbsorb(reg, gone, gone);
    OrdinaryRoundsRemoved(kept, rows, pending);
    OrdinaryRoundsSettled(kept, rows, pending);
    forall ident | ident in gone ensures PresentAt(reg, ident) && RowFor(rows, ident) {
      PendingFacts(reg, rows, ident);
    }
    OrdinaryRoundsReport(kept, reg, rows, pending);
    var (rest, all) := OrdinaryRounds(kept, rows, pending);
    CanonicalIdents(all);
    ExcludeAbsorb(reg, gone, Idents(all));
    PendingSettled(reg, rest, rows);
  }

  lemma PendingSettled(reg: Entries, rest: Entries, rows: seq<LearnedArtifact>)
    requires Sub(rest, Exclude(reg, Idents(Collect(PendingTest(reg), rows))))
    ensures PendingCond(rest, rows)
  {
    var pending := Collect(PendingTest(reg), rows);
    forall item | item in rows && item.compatibility == ReconfirmationRequired ensures !ActiveAt(rest, item.Ident()) {
      var orphan := OrphanedArtifact(item.kind, item.id, item.version, ["reconfirmation_required"]);
      CollectMember(PendingTest(reg), rows, orphan);
      assert ActiveAt(reg, item.Ident()) ==> orphan.Ident() in Idents(pending);
    }
  }

  // -------- the joint loop --------

  lemma {:induction false} MergeNewIdents(ordinary: seq<OrphanedArtifact>, found: seq<OrphanedArtifact>)
    ensures Idents(MergeNew(ordinary, found)) == Idents(ordinary) + Idents(found)
    decreases found
  {
    if found != [] {
      var grown := if found[0].Ident() in Idents(ordinary) then ordinary else ordinary + [found[0]];
      MergeNewIdents(grown, found[1..]);
      IdentsAppend(ordinary, [found[0]]);
      assert found == [found[0]] + found[1..];
      IdentsAppend([found[0]], found[1..]);
      assert Idents([found[0]]) == {found[0].Ident()};
    }
  }

  /** The identities the registry loses: every ordinary orphan, and every newly
      invalid owner-accepted identity outside the base. */
  ghost function Removed(inp: Inputs, st: Outcome): set<Identity> {
    Idents(st.ordinary) + NotIn(inp.base, Idents(st.invalid) - Idents(inp.existing))
  }

  ghost function NotIn(base: set<Key>, idents: set<Identity>): set<Identity> {
    set ident <- idents | Key(ident.kind, ident.id) !in base
  }

  lemma NotInUnion(base: set<Key>, a: set<Identity>, b: set<Identity>)
    ensures NotIn(base, a + b) == NotIn(base, a) + NotIn(base, b)
  {
  }

  ghost predicate LoopInv(reg0: Entries, inp: Inputs, st: Outcome) {
    && st.entries == Exclude(reg0, Removed(inp, st))
    && PendingCond(st.entries, Candidates(inp.learned, inp.base))
    && OrdinaryCond(st.entries, Candidates(inp.learned, inp.base))
    && Idents(inp.existing) <= Idents(st.invalid)
    && (forall ident <- Idents(st.ordinary) :: PresentAt(reg0, ident) && Key(ident.kind, ident.id) !in inp.base)
  }

  ghost predicate Spares(inp: Inputs, reg: Entries, smaller: Entries) {
    forall inner: Entries :: Sub(inner, reg) && Consistent(inner, inp) ==> Sub(inner, smaller)
  }

  lemma CandidateNotBase(inp: Inputs, ident: Identity)
    requires RowFor(Candidates(inp.learned, inp.base), ident)
    ensures Key(ident.kind, ident.id) !in inp.base
  {
    var item :| item in Candidates(inp.learned, inp.base) && item.Ident() == ident;
    CollectMember(NotBase(inp.base), inp.learned, item);
  }

  lemma CurrentDanglingAntitone(smaller: Entries, reg: Entries, item: LearnedArtifact, sources: CapturedSources)
    requires Sub(smaller, reg)
    ensures forall reference <- CurrentDangling(reg, item, sources) ::
              reference in CurrentDangling(smaller, item, sources)
  {
    if item.Ident() in sources {
      var source := Some(sources[item.Ident()]);
      NewlyDanglingAntitone(smaller, reg, item.kind, source);
      forall reference | reference in CurrentDangling(reg, item, sources)
        ensures reference in CurrentDangling(smaller, item, sources)
      {
        CollectMember(WithoutSourceMissing(), OwnerAcceptedNewlyDangling(reg, item.kind, source), reference);
        CollectMember(WithoutSourceMissing(), OwnerAcceptedNewlyDangling(smaller, item.kind, source), reference);
      }
    }
  }

  /** An owner-accepted row that fails against a larger registry fails against every
      smaller one, because it dangles at least as much there. */
  lemma OwnerOkAntitone(inner: Entries, reg: Entries, item: LearnedArtifact, sources: CapturedSources)
    requires Sub(inner, reg) && OwnerOk(inner, item, sources)
    ensures OwnerOk(reg, item, sources)
  {
    CurrentDanglingAntitone(inner, reg, item, sources);
    var current := CurrentDangling(reg, item, sources);
    assert current == [] || current[0] in CurrentDangling(inner, item, sources);
  }

  lemma NotBaseIdents(base: set<Key>, newly: seq<OrphanedArtifact>)
    ensures Idents(Collect(OrphanNotBase(base), newly))
         == NotIn(base, Idents(newly))
  {
    var kept := Collect(OrphanNotBase(base), newly);
    forall ident
      ensures ident in Idents(kept) <==> ident in Idents(newly) && Key(ident.kind, ident.id) !in base
    {
      if ident in Idents(kept) {
        var o :| o in kept && o.Ident() == ident;
        CollectMember(OrphanNotBase(base), newly, o);
      }
      if ident in Idents(newly) && Key(ident.kind, ident.id) !in base {
        var o :| o in newly && o.Ident() == ident;
        CollectMember(OrphanNotBase(base), newly, o);
      }
    }
  }

  lemma OwnerRemovalSafe(inner: Entries, inp: Inputs, st: Outcome, newly: seq<OrphanedArtifact>)
    requires newly == NewlyInvalid(st.entries, inp.learned, st.invalid, inp.sources)
    requires Sub(inner, st.entries) && Consistent(inner, inp)
    requires Idents(inp.existing) <= Idents(st.invalid)
    ensures Sub(inner, Exclude(st.entries, Idents(Collect(OrphanNotBase(inp.base), newly))))
  {
    var gone := Idents(Collect(OrphanNotBase(inp.base), newly));
    NotBaseIdents(inp.base, newly);
    forall key | key in inner ensures EntryIdent(inner, key) !in gone {
      if EntryIdent(inner, key) in gone {
        var orphan :| orphan in newly && orphan.Ident() == EntryIdent(inner, key);
        NewlyInvalidFacts(st.entries, inp.learned, st.invalid, inp.sources, orphan);
        var item :| item in inp.learned && item.Ident() == orphan.Ident()
                    && item.compatibility == OwnerAccepted && !OwnerOk(st.entries, item, inp.sources);
        assert OwnerOk(inner, item, inp.sources);
        OwnerOkAntitone(inner, st.entries, item, inp.sources);
        assert false;
      }
    }
    ExcludeSub(inner, st.entries, gone);
  }

  lemma NewlyIsNew(inp: Inputs, st: Outcome, newly: seq<OrphanedArtifact>)
    requires newly == NewlyInvalid(st.entries, inp.learned, st.invalid, inp.sources)
    requires Idents(inp.existing) <= Idents(st.invalid)
    ensures Idents(newly) !! Idents(inp.existing)
  {
    forall ident | ident in Idents(newly) ensures ident !in Idents(inp.existing) {
      var orphan :| orphan in newly && orphan.Ident() == ident;
      NewlyInvalidFacts(st.entries, inp.learned, st.invalid, inp.sources, orphan);
    }
  }

  /** One owner round removes exactly what it newly reports. */
  lemma RemovedGrows(inp: Inputs, st: Outcome, newly: seq<OrphanedArtifact>, found: seq<OrphanedArtifact>,
                     rest: Entries)
    requires newly == NewlyInvalid(st.entries, inp.learned, st.invalid, inp.sources)
    requires Idents(inp.existing) <= Idents(st.invalid)
    ensures Removed(inp, Outcome(rest, MergeNew(st.ordinary, found), st.invalid + newly))
         == Removed(inp, st) + Idents(Collect(OrphanNotBase(inp.base), newly)) + Idents(found)
  {
    MergeNewIdents(st.ordinary, found);
    IdentsAppend(st.invalid, newly);
    NotBaseIdents(inp.base, newly);
    NewlyIsNew(inp, st, newly);
    assert Idents(st.invalid + newly) - Idents(inp.existing)
        == (Idents(st.invalid) - Idents(inp.existing)) + Idents(newly);
    NotInUnion(inp.base, Idents(st.invalid) - Idents(inp.existing), Idents(newly));
  }

  lemma OwnerStepKeeps(reg0: Entries, inp: Inputs, st: Outcome, newly: seq<OrphanedArtifact>)
    requires newly == NewlyInvalid(st.entries, inp.learned, st.invalid, inp.sources)
    requires LoopInv(reg0, inp, st)
    ensures LoopInv(reg0, inp, OwnerStep(inp, st, newly))
  {
    var rows := Candidates(inp.learned, inp.base);
    var gone := Idents(Collect(OrphanNotBase(inp.base), newly));
    var kept := Exclude(st.entries, gone);
    EvaluateOrdinaryFacts(kept, rows);
    var (rest, found) := EvaluateOrdinary(kept, rows);
    RemovedGrows(inp, st, newly, found, rest);
    ExcludeAppend(reg0, Removed(inp, st), gone);
    ExcludeAppend(reg0, Removed(inp, st) + gone, Idents(found));
    MergeNewIdents(st.ordinary, found);
    IdentsAppend(st.invalid, newly);
    forall ident | ident in Idents(found)
      ensures PresentAt(reg0, ident) && Key(ident.kind, ident.id) !in inp.base
    {
      CandidateNotBase(inp, ident);
    }
  }

  lemma OwnerStepSpares(inp: Inputs, st: Outcome, newly: seq<OrphanedArtifact>)
    requires newly == NewlyInvalid(st.entries, inp.learned, st.invalid, inp.sources)
    requires Idents(inp.existing) <= Idents(st.invalid)
    ensures Spares(inp, st.entries, OwnerStep(inp, st, newly).entries)
  {
    var kept := Exclude(st.entries, Idents(Collect(OrphanNotBase(inp.base), newly)));
    forall inner: Entries | Sub(inner, st.entries) && Consistent(inner, inp)
      ensures Sub(inner, OwnerStep(inp, st, newly).entries)
    {
      OwnerRemovalSafe(inner, inp, st, newly);
      EvaluateOrdinarySpares(inner, kept, Candidates(inp.learned, inp.base));
    }
  }

  lemma {:induction false} OwnerRoundsFacts(reg0: Entries, inp: Inputs, st: Outcome)
    requires LoopInv(reg0, inp, st)
    ensures var done := OwnerRounds(inp, st);
            && LoopInv(reg0, inp, done)
            && NewlyInvalid(done.entries, inp.learned, done.invalid, inp.sources) == []
            && Spares(inp, st.entries, done.entries)
    decreases |AcceptedIdents(inp.learned) - Idents(st.invalid)|
  {
    var newly := NewlyInvalid(st.entries, inp.learned, st.invalid, inp.sources);
    if newly != [] {
      NewlyInvalidFacts(st.entries, inp.learned, st.invalid, inp.sources, newly[0]);
      RemainingShrinks(inp.learned, st.invalid, newly, newly[0].Ident());
      OwnerStepKeeps(reg0, inp, st, newly);
      OwnerStepSpares(inp, st, newly);
      OwnerRoundsFacts(reg0, inp, OwnerStep(inp, st, newly));
    }
  }

  lemma StartFacts(reg: Entries, inp: Inputs)
    ensures LoopInv(reg, inp, Start(reg, inp))
    ensures Spares(inp, reg, Start(reg, inp).entries)
  {
    var st := Start(reg, inp);
    EvaluateOrdinaryFacts(reg, Candidates(inp.learned, inp.base));
    assert Removed(inp, st) == Idents(st.ordinary);
    forall ident | ident in Idents(st.ordinary) ensures Key(ident.kind, ident.id) !in inp.base {
      CandidateNotBase(inp, ident);
    }
    forall inner: Entries | Sub(inner, reg) && Consistent(inner, inp) ensures Sub(inner, st.entries) {
      EvaluateOrdinarySpares(inner, reg, Candidates(inp.learned, inp.base));
    }
  }

  lemma QuietMeansOk(reg: Entries, learned: seq<LearnedArtifact>, invalid: seq<OrphanedArtifact>,
                     sources: CapturedSources)
    requires NewlyInvalid(reg, learned, invalid, sources) == []
    ensures forall item <- learned :: item.compatibility == OwnerAccepted && item.Ident() !in Idents(invalid)
                                      ==> OwnerOk(reg, item, sources)
  {
    var test := InvalidTest(reg, Idents(invalid), sources);
    forall item | item in learned && item.compatibility == OwnerAccepted && item.Ident() !in Idents(invalid)
      ensures OwnerOk(reg, item, sources)
    {
      if !OwnerOk(reg, item, sources) {
        CollectMember(test, learned, test(item).value);
        assert false;
      }
    }
  }

  lemma RunFacts(reg: Entries, inp: Inputs)
    ensures var done := OwnerRounds(inp, Start(reg, inp));
            var out := Evaluate(reg, inp);
            && LoopInv(reg, inp, done) && Spares(inp, reg, done.entries)
            && NewlyInvalid(done.entries, inp.learned, done.invalid, inp.sources) == []
            && Idents(out.ordinary) == Idents(done.ordinary) && Idents(out.invalid) == Idents(done.invalid)
  {
    StartFacts(reg, inp);
    var st := Start(reg, inp);
    OwnerRoundsFacts(reg, inp, st);
    var done := OwnerRounds(inp, st);
    CanonicalIdents(done.ordinary);
    CanonicalIdents(done.invalid);
    forall inner: Entries | Sub(inner, reg) && Consistent(inner, inp) ensures Sub(inner, done.entries) {
      assert Sub(inner, st.entries);
    }
  }

  // -------- the theorems --------

  /** Joint fixed point: against one final registry both passes are satisfied, and
      every owner-accepted row not reported invalid, base or not, is in order. */
  lemma JointFixedPoint(reg: Entries, inp: Inputs)
    ensures Consistent(Evaluate(reg, inp).entries, inp)
    ensures forall item <- inp.learned ::
              item.compatibility == OwnerAccepted && item.Ident() !in Idents(Evaluate(reg, inp).invalid)
              ==> OwnerOk(Evaluate(reg, inp).entries, item, inp.sources)
  {
    RunFacts(reg, inp);
    var done := OwnerRounds(inp, Start(reg, inp));
    QuietMeansOk(done.entries, inp.learned, done.invalid, inp.sources);
    forall item | item in inp.learned && item.compatibility == OwnerAccepted && item.Slot() !in inp.base
                  && item.Ident() !in Idents(inp.existing) && PresentAt(done.entries, item.Ident())
      ensures OwnerOk(done.entries, item, inp.sources)
    {
      assert EntryIdent(done.entries, item.Slot()) !in Removed(inp, done);
      assert item.Ident() !in Idents(done.invalid);
    }
  }

  /** Maximality: the final registry contains every consistent sub-registry of the
      input. With `JointFixedPoint` it is the greatest one. */
  lemma Maximality(reg: Entries, inp: Inputs, inner: Entries)
    requires Sub(inner, reg) && Consistent(inner, inp)
    ensures Sub(inner, Evaluate(reg, inp).entries) && Sub(Evaluate(reg, inp).entries, reg)
  {
    RunFacts(reg, inp);
  }

  /** Accounting: an input entry disappears exactly when its identity is reported, as
      an ordinary orphan or as a new invalidation; base slots never disappear, and
      every ordinary report names an entry that was really there. */
  lemma Accounting(reg: Entries, inp: Inputs, key: Key)
    requires key in reg
    ensures var out := Evaluate(reg, inp);
            key !in out.entries <==>
              || EntryIdent(reg, key) in Idents(out.ordinary)
              || (EntryIdent(reg, key) in Idents(out.invalid) - Idents(inp.existing) && key !in inp.base)
    ensures key in inp.base ==> key in Evaluate(reg, inp).entries
    ensures forall ident <- Idents(Evaluate(reg, inp).ordinary) :: PresentAt(reg, ident)
    ensures Idents(inp.existing) <= Idents(Evaluate(reg, inp).invalid)
  {
    RunFacts(reg, inp);
  }

  lemma {:induction false} CollectNothing<A, B>(f: A -> Option<B>, s: seq<A>)
    requires forall x <- s :: f(x).None?
    ensures Collect(f, s) == []
  {
    if s != [] {
      CollectNothing(f, s[1..]);
    }
  }

  lemma QuietOrdinary(reg: Entries, rows: seq<LearnedArtifact>)
    requires PendingCond(reg, rows) && OrdinaryCond(reg, rows)
    ensures EvaluateOrdinary(reg, rows) == (reg, [])
  {
    CollectNothing(PendingTest(reg), rows);
    assert Idents([]) == {} && Exclude(reg, {}) == reg;
    CollectNothing(OrphanTest(reg, AcceptedIdents(rows), {}), rows);
    assert NextOrphans(reg, rows, []) == [];
  }

  lemma QuietOwner(inp: Inputs, st: Outcome)
    requires forall item <- inp.learned ::
               item.compatibility == OwnerAccepted && item.Ident() !in Idents(st.invalid)
               ==> OwnerOk(st.entries, item, inp.sources)
    ensures OwnerRounds(inp, st) == st
  {
    CollectNothing(InvalidTest(st.entries, Idents(st.invalid), inp.sources), inp.learned);
  }

  /** Rerunning with the returned invalid list removes nothing and reports nothing new. */
  lemma Rerun(reg: Entries, inp: Inputs)
    ensures var out := Evaluate(reg, inp);
            Evaluate(out.entries, inp.(existing := out.invalid)) == Outcome(out.entries, [], out.invalid)
  {
    var out := Evaluate(reg, inp);
    var again := inp.(existing := out.invalid);
    var start := Outcome(out.entries, [], out.invalid);
    JointFixedPoint(reg, inp);
    QuietOrdinary(out.entries, Candidates(inp.learned, inp.base));
    assert Start(out.entries, again) == start;
    QuietOwner(again, start);
    CanonicalIdempotent(OwnerRounds(inp, Start(reg, inp)).invalid);
    assert Canonical([]) == [];
  }

  // -------- order independence --------

  lemma AcceptedPermuted(a: seq<LearnedArtifact>, b: seq<LearnedArtifact>)
    requires multiset(a) == multiset(b)
    ensures AcceptedIdents(a) == AcceptedIdents(b)
  {
    assert forall x :: x in a <==> x in multiset(a);
    assert forall x :: x in b <==> x in multiset(b);
  }

  lemma {:induction false} OrdinaryRoundsPermuted(
    reg: Entries, a: seq<LearnedArtifact>, b: seq<LearnedArtifact>, all: seq<OrphanedArtifact>,
    all': seq<OrphanedArtifact>)
    requires multiset(a) == multiset(b) && multiset(all) == multiset(all')
    ensures var (r, s), (r', s') := OrdinaryRounds(reg, a, all), OrdinaryRounds(reg, b, all');
            r == r' && multiset(s) == multiset(s')
    decreases |reg|
  {
    AcceptedPermuted(a, b);
    IdentsPermuted(all, all');
    var test := OrphanTest(reg, AcceptedIdents(a), Idents(all));
    CollectPermuted(test, a, b);
    var next, next' := NextOrphans(reg, a, all), NextOrphans(reg, b, all');
    IdentsPermuted(next, next');
    if next == [] {
      assert |multiset(next')| == 0;
    } else {
      assert |multiset(next')| == |next|;
      NextArePresent(reg, a, all, next[0]);
      ExcludeShrinks(reg, Idents(next), next[0].Ident());
      OrdinaryRoundsPermuted(Exclude(reg, Idents(next)), a, b, all + next, all' + next');
    }
  }

  lemma EvaluateOrdinaryPermuted(reg: Entries, a: seq<LearnedArtifact>, b: seq<LearnedArtifact>)
    requires multiset(a) == multiset(b)
    ensures EvaluateOrdinary(reg, a) == EvaluateOrdinary(reg, b)
  {
    CollectPermuted(PendingTest(reg), a, b);
    var p, p' := Collect(PendingTest(reg), a), Collect(PendingTest(reg), b);
    IdentsPermuted(p, p');
    var kept := Exclude(reg, Idents(p));
    OrdinaryRoundsPermuted(kept, a, b, p, p');
    CanonicalPermuted(OrdinaryRounds(kept, a, p).1, OrdinaryRounds(kept, b, p').1);
  }

  lemma {:induction false} MergeNewPermuted(a: seq<OrphanedArtifact>, b: seq<OrphanedArtifact>,
                                            found: seq<OrphanedArtifact>)
    requires multiset(a) == multiset(b)
    ensures multiset(MergeNew(a, found)) == multiset(MergeNew(b, found))
    decreases found
  {
    if found != [] {
      IdentsPermuted(a, b);
      if found[0].Ident() in Idents(a) {
        MergeNewPermuted(a, b, found[1..]);
      } else {
        MergeNewPermuted(a + [found[0]], b + [found[0]], found[1..]);
      }
    }
  }

  ghost predicate PermutedInputs(a: Inputs, b: Inputs) {
    && multiset(a.learned) == multiset(b.learned) && multiset(a.existing) == multiset(b.existing)
    && a.base == b.base && a.sources == b.sources
  }

  ghost predicate PermutedOutcomes(a: Outcome, b: Outcome) {
    && a.entries == b.entries
    && multiset(a.ordinary) == multiset(b.ordinary) && multiset(a.invalid) == multiset(b.invalid)
  }

  lemma {:induction false} OwnerRoundsPermuted(a: Inputs, b: Inputs, st: Outcome, st': Outcome)
    requires PermutedInputs(a, b) && PermutedOutcomes(st, st')
    ensures PermutedOutcomes(OwnerRounds(a, st), OwnerRounds(b, st'))
    decreases |AcceptedIdents(a.learned) - Idents(st.invalid)|
  {
    IdentsPermuted(st.invalid, st'.invalid);
    CollectPermuted(InvalidTest(st.entries, Idents(st.invalid), a.sources), a.learned, b.learned);
    var newly := NewlyInvalid(st.entries, a.learned, st.invalid, a.sources);
    var newly' := NewlyInvalid(st'.entries, b.learned, st'.invalid, b.sources);
    if newly == [] {
      assert |multiset(newly')| == 0;
    } else {
      assert |multiset(newly')| == |newly|;
      NewlyInvalidFacts(st.entries, a.learned, st.invalid, a.sources, newly[0]);
      RemainingShrinks(a.learned, st.invalid, newly, newly[0].Ident());
      CollectPermuted(OrphanNotBase(a.base), newly, newly');
      IdentsPermuted(Collect(OrphanNotBase(a.base), newly), Collect(OrphanNotBase(a.base), newly'));
      CollectPermuted(NotBase(a.base), a.learned, b.learned);
      var kept := Exclude(st.entries, Idents(Collect(OrphanNotBase(a.base), newly)));
      EvaluateOrdinaryPermuted(kept, Candidates(a.learned, a.base), Candidates(b.learned, b.base));
      MergeNewPermuted(st.ordinary, st'.ordinary, EvaluateOrdinary(kept, Candidates(a.learned, a.base)).1);
      OwnerRoundsPermuted(a, b, OwnerStep(a, st, newly), OwnerStep(b, st', newly'));
    }
  }

  /** Order independence: permuting the learned rows or the prior-invalid list, with any
      duplicates, changes neither the registry nor either returned list. */
  lemma OrderIndependence(reg: Entries, a: Inputs, b: Inputs)
    requires PermutedInputs(a, b)
    ensures Evaluate(reg, a) == Evaluate(reg, b)
  {
    CollectPermuted(NotBase(a.base), a.learned, b.learned);
    EvaluateOrdinaryPermuted(reg, Candidates(a.learned, a.base), Candidates(b.learned, b.base));
    OwnerRoundsPermuted(a, b, Start(reg, a), Start(reg, b));
    var done, done' := OwnerRounds(a, Start(reg, a)), OwnerRounds(b, Start(reg, b));
    CanonicalPermuted(done.ordinary, done'.ordinary);
    CanonicalPermuted(done.invalid, done'.invalid);
  }

  lemma ConsistentBySet(reg: Entries, a: Inputs, b: Inputs)
    requires (forall item :: item in a.learned <==> item in b.learned)
    requires Idents(a.existing) == Idents(b.existing) && a.base == b.base && a.sources == b.sources
    requires Consistent(reg, a)
    ensures Consistent(reg, b)
  {
    var rows, rows' := Candidates(a.learned, a.base), Candidates(b.learned, b.base);
    forall item: LearnedArtifact ensures item in rows <==> item in rows' {
      CollectMember(NotBase(a.base), a.learned, item);
      CollectMember(NotBase(b.base), b.learned, item);
    }
    assert AcceptedIdents(rows) == AcceptedIdents(rows');
  }

  lemma RegistryBelow(reg: Entries, a: Inputs, b: Inputs)
    requires (forall item :: item in a.learned <==> item in b.learned)
    requires Idents(a.existing) == Idents(b.existing) && a.base == b.base && a.sources == b.sources
    ensures Sub(Evaluate(reg, a).entries, Evaluate(reg, b).entries)
  {
    JointFixedPoint(reg, a);
    ConsistentBySet(Evaluate(reg, a).entries, a, b);
    SubOfInput(reg, a);
    Maximality(reg, b, Evaluate(reg, a).entries);
  }

  lemma SubOfInput(reg: Entries, inp: Inputs)
    ensures Sub(Evaluate(reg, inp).entries, reg)
  {
    RunFacts(reg, inp);
  }

  /** The registry depends on the rows only as a set: repeating rows changes nothing in it. */
  lemma RegistryDependsOnRowSet(reg: Entries, a: Inputs, b: Inputs)
    requires (forall item :: item in a.learned <==> item in b.learned)
    requires Idents(a.existing) == Idents(b.existing) && a.base == b.base && a.sources == b.sources
    ensures Evaluate(reg, a).entries == Evaluate(reg, b).entries
  {
    RegistryBelow(reg, a, b);
    RegistryBelow(reg, b, a);
    SubBothWays(Evaluate(reg, a).entries, Evaluate(reg, b).entries);
  }

  lemma SubKeys(inner: Entries, outer: Entries)
    requires Sub(inner, outer)
    ensures inner.Keys <= outer.Keys
  {
  }

  lemma SubBothWays(x: Entries, y: Entries)
    requires Sub(x, y) && Sub(y, x)
    ensures x == y
  {
    SubKeys(x, y);
    SubKeys(y, x);
  }
}
