/** The facts carried by the returned orphan lists are true of the final registry,
    although they were observed over several rounds of a shrinking one. */
module OverlayReports {
  import opened Orders
  import opened OverlayRegistry
  import opened OverlayConvergence
  import opened OverlayTheorems

  /** Why an ordinary orphan was reported: a pending reconfirmation of an entry that was
      active, or references that are all missing from `reg`, among them all that were missing
      from `reg0` already. */
  ghost predicate OrdinaryFact(reg0: Entries, reg: Entries, rows: seq<LearnedArtifact>, orphan: OrphanedArtifact) {
    || (&& orphan.danglingReferences == ["reconfirmation_required"] && ActiveAt(reg0, orphan.Ident())
        && exists item <- rows :: item.Ident() == orphan.Ident() && item.compatibility == ReconfirmationRequired)
    || (&& orphan.danglingReferences != [] && PresentAt(reg0, orphan.Ident())
        && (forall reference <- Dangling(reg0, reg0[orphan.Slot()].body) :: reference in orphan.danglingReferences)
        && forall reference <- orphan.danglingReferences :: reference in Dangling(reg, reg0[orphan.Slot()].body))
  }

  ghost predicate OrdinaryFacts(reg0: Entries, reg: Entries, rows: seq<LearnedArtifact>,
                                orphans: seq<OrphanedArtifact>) {
    forall orphan <- orphans :: OrdinaryFact(reg0, reg, rows, orphan)
  }

  /** Why an owner-accepted row was invalidated: its captured bytes do not match the
      review, or references missing from `reg`, all that were missing from `reg0` among them,
      that the owner did not accept. */
  ghost predicate InvalidFact(reg0: Entries, reg: Entries, inp: Inputs, orphan: OrphanedArtifact) {
    exists item <- inp.learned :: RowFailed(reg0, reg, item, inp.sources, orphan)
  }

  ghost predicate RowFailed(reg0: Entries, reg: Entries, item: LearnedArtifact, sources: CapturedSources,
                            orphan: OrphanedArtifact) {
    && item.Ident() == orphan.Ident() && item.compatibility == OwnerAccepted
    && if Tampered(item, sources) then orphan.danglingReferences == ["owner_accepted_digest_tampered"]
       else && !FingerprintAllows(orphan.danglingReferences, item.fingerprint)
            && (forall reference <- CurrentDangling(reg0, item, sources) :: reference in orphan.danglingReferences)
            && forall reference <- orphan.danglingReferences :: reference in CurrentDangling(reg, item, sources)
  }

  ghost predicate InvalidFacts(reg0: Entries, reg: Entries, inp: Inputs, orphans: seq<OrphanedArtifact>) {
    forall orphan <- orphans :: orphan in inp.existing || InvalidFact(reg0, reg, inp, orphan)
  }

  // -------- facts survive further removals --------

  lemma OrdinaryFactsShrink(reg0: Entries, reg: Entries, smaller: Entries, rows: seq<LearnedArtifact>,
                            orphans: seq<OrphanedArtifact>)
    requires Sub(smaller, reg) && OrdinaryFacts(reg0, reg, rows, orphans)
    ensures OrdinaryFacts(reg0, smaller, rows, orphans)
  {
    forall orphan | orphan in orphans ensures OrdinaryFact(reg0, smaller, rows, orphan) {
      if PresentAt(reg0, orphan.Ident()) {
        DanglingAntitone(smaller, reg, reg0[orphan.Slot()].body);
      }
    }
  }

  lemma InvalidFactsShrink(reg0: Entries, reg: Entries, smaller: Entries, inp: Inputs, orphans: seq<OrphanedArtifact>)
    requires Sub(smaller, reg) && InvalidFacts(reg0, reg, inp, orphans)
    ensures InvalidFacts(reg0, smaller, inp, orphans)
  {
    forall orphan | orphan in orphans && orphan !in inp.existing ensures InvalidFact(reg0, smaller, inp, orphan) {
      var item :| item in inp.learned && RowFailed(reg0, reg, item, inp.sources, orphan);
      CurrentDanglingAntitone(smaller, reg, item, inp.sources);
    }
  }

  // -------- facts survive canonicalisation --------

  lemma SortKeepsMembers(s: seq<string>)
    ensures forall x :: x in Sort(StringLeq, s) <==> x in s
  {
    assert forall x :: x in s <==> x in multiset(s);
    assert forall x :: x in Sort(StringLeq, s) <==> x in multiset(Sort(StringLeq, s));
  }

  lemma OrdinaryFactSorted(reg0: Entries, reg: Entries, rows: seq<LearnedArtifact>, orphan: OrphanedArtifact)
    requires OrdinaryFact(reg0, reg, rows, orphan)
    ensures OrdinaryFact(reg0, reg, rows, SortReferences(orphan))
  {
    SortKeepsMembers(orphan.danglingReferences);
    if |orphan.danglingReferences| == 1 {
      assert Sort(StringLeq, orphan.danglingReferences) == orphan.danglingReferences;
    } else {
      assert orphan.danglingReferences[0] in Sort(StringLeq, orphan.danglingReferences);
    }
  }

  lemma CanonicalMember(orphans: seq<OrphanedArtifact>, orphan: OrphanedArtifact)
    requires orphan in Canonical(orphans)
    ensures exists raw <- orphans :: orphan == SortReferences(raw)
  {
    assert orphan in multiset(Canonical(orphans));
    assert orphan in Collect(SortedReferences(), orphans);
    CollectMember(SortedReferences(), orphans, orphan);
  }

  lemma OrdinaryFactsCanonical(reg0: Entries, reg: Entries, rows: seq<LearnedArtifact>, orphans: seq<OrphanedArtifact>)
    requires OrdinaryFacts(reg0, reg, rows, orphans)
    ensures OrdinaryFacts(reg0, reg, rows, Canonical(orphans))
  {
    forall orphan | orphan in Canonical(orphans) ensures OrdinaryFact(reg0, reg, rows, orphan) {
      CanonicalMember(orphans, orphan);
      var raw :| raw in orphans && orphan == SortReferences(raw);
      OrdinaryFactSorted(reg0, reg, rows, raw);
    }
  }

  // -------- facts are established by each pass --------

  lemma {:induction false} OrdinaryRoundsFacts(reg0: Entries, reg: Entries, rows: seq<LearnedArtifact>,
                                               all: seq<OrphanedArtifact>)
    requires Sub(reg, reg0) && OrdinaryFacts(reg0, reg, rows, all)
    ensures var (rest, reported) := OrdinaryRounds(reg, rows, all); OrdinaryFacts(reg0, rest, rows, reported)
    decreases |reg|
  {
    var next := NextOrphans(reg, rows, all);
    if next != [] {
      NextArePresent(reg, rows, all, next[0]);
      ExcludeShrinks(reg, Idents(next), next[0].Ident());
      var kept := Exclude(reg, Idents(next));
      forall orphan | orphan in next ensures OrdinaryFact(reg0, reg, rows, orphan) {
        NextArePresent(reg, rows, all, orphan);
        DanglingAntitone(reg, reg0, reg[orphan.Slot()].body);
      }
      OrdinaryFactsShrink(reg0, reg, kept, rows, all + next);
      OrdinaryRoundsFacts(reg0, kept, rows, all + next);
    }
  }

  lemma EvaluateOrdinaryTrue(reg0: Entries, reg: Entries, rows: seq<LearnedArtifact>)
    requires Sub(reg, reg0)
    ensures var (rest, found) := EvaluateOrdinary(reg, rows); OrdinaryFacts(reg0, rest, rows, found)
  {
    var pending := Collect(PendingTest(reg), rows);
    var kept := Exclude(reg, Idents(pending));
    forall orphan | orphan in pending ensures OrdinaryFact(reg0, kept, rows, orphan) {
      CollectMember(PendingTest(reg), rows, orphan);
    }
    OrdinaryRoundsFacts(reg0, kept, rows, pending);
    var (rest, all) := OrdinaryRounds(kept, rows, pending);
    OrdinaryFactsCanonical(reg0, rest, rows, all);
  }

  lemma {:induction false} MergeNewMembers(ordinary: seq<OrphanedArtifact>, found: seq<OrphanedArtifact>)
    ensures forall o <- MergeNew(ordinary, found) :: o in ordinary || o in found
    decreases found
  {
    if found != [] {
      MergeNewMembers(if found[0].Ident() in Idents(ordinary) then ordinary else ordinary + [found[0]], found[1..]);
    }
  }

  lemma NewlyInvalidTrue(reg0: Entries, inp: Inputs, st: Outcome)
    requires Sub(st.entries, reg0)
    ensures forall orphan <- NewlyInvalid(st.entries, inp.learned, st.invalid, inp.sources) ::
              InvalidFact(reg0, st.entries, inp, orphan)
  {
    var test := InvalidTest(st.entries, Idents(st.invalid), inp.sources);
    forall orphan | orphan in NewlyInvalid(st.entries, inp.learned, st.invalid, inp.sources)
      ensures InvalidFact(reg0, st.entries, inp, orphan)
    {
      CollectMember(test, inp.learned, orphan);
      var item :| item in inp.learned && test(item) == Some(orphan);
      CurrentDanglingAntitone(st.entries, reg0, item, inp.sources);
    }
  }

  ghost predicate Truthful(reg0: Entries, inp: Inputs, st: Outcome) {
    && Sub(st.entries, reg0)
    && OrdinaryFacts(reg0, st.entries, Candidates(inp.learned, inp.base), st.ordinary)
    && InvalidFacts(reg0, st.entries, inp, st.invalid)
  }

  lemma OwnerStepTruthful(reg0: Entries, inp: Inputs, st: Outcome, newly: seq<OrphanedArtifact>)
    requires newly == NewlyInvalid(st.entries, inp.learned, st.invalid, inp.sources)
    requires Truthful(reg0, inp, st)
    ensures Truthful(reg0, inp, OwnerStep(inp, st, newly))
  {
    var rows := Candidates(inp.learned, inp.base);
    var kept := Exclude(st.entries, Idents(Collect(OrphanNotBase(inp.base), newly)));
    var (rest, found) := EvaluateOrdinary(kept, rows);
    OverlayTheorems.EvaluateOrdinaryFacts(kept, rows);
    EvaluateOrdinaryTrue(reg0, kept, rows);
    OrdinaryFactsShrink(reg0, st.entries, rest, rows, st.ordinary);
    MergeNewMembers(st.ordinary, found);
    NewlyInvalidTrue(reg0, inp, st);
    InvalidFactsShrink(reg0, st.entries, rest, inp, st.invalid + newly);
  }

  lemma {:induction false} OwnerRoundsTruthful(reg0: Entries, inp: Inputs, st: Outcome)
    requires Truthful(reg0, inp, st)
    ensures Truthful(reg0, inp, OwnerRounds(inp, st))
    decreases |AcceptedIdents(inp.learned) - Idents(st.invalid)|
  {
    var newly := NewlyInvalid(st.entries, inp.learned, st.invalid, inp.sources);
    if newly != [] {
      NewlyInvalidFacts(st.entries, inp.learned, st.invalid, inp.sources, newly[0]);
      RemainingShrinks(inp.learned, st.invalid, newly, newly[0].Ident());
      OwnerStepTruthful(reg0, inp, st, newly);
      OwnerRoundsTruthful(reg0, inp, OwnerStep(inp, st, newly));
    }
  }

  /** Every returned fact is true of the one final registry: an ordinary orphan was
      pending or misses what it says, and a new invalidation is a digest mismatch or
      names missing references the owner never accepted. Prior invalidations come back
      with their own references. */
  lemma ReportsAreTrue(reg: Entries, inp: Inputs)
    ensures var out := Evaluate(reg, inp);
            && OrdinaryFacts(reg, out.entries, Candidates(inp.learned, inp.base), out.ordinary)
            && (forall orphan <- out.invalid ::
                  || (exists prior <- inp.existing :: orphan == SortReferences(prior))
                  || InvalidFact(reg, out.entries, inp, orphan))
  {
    var rows := Candidates(inp.learned, inp.base);
    var st := Start(reg, inp);
    OverlayTheorems.EvaluateOrdinaryFacts(reg, rows);
    EvaluateOrdinaryTrue(reg, reg, rows);
    OwnerRoundsTruthful(reg, inp, st);
    var done := OwnerRounds(inp, st);
    OrdinaryFactsCanonical(reg, done.entries, rows, done.ordinary);
    forall orphan | orphan in Canonical(done.invalid)
      ensures || (exists prior <- inp.existing :: orphan == SortReferences(prior))
              || InvalidFact(reg, done.entries, inp, orphan)
    {
      CanonicalMember(done.invalid, orphan);
      var raw :| raw in done.invalid && orphan == SortReferences(raw);
      if raw !in inp.existing {
        InvalidFactSorted(reg, done.entries, inp, raw);
      }
    }
  }

  lemma InvalidFactSorted(reg0: Entries, reg: Entries, inp: Inputs, orphan: OrphanedArtifact)
    requires InvalidFact(reg0, reg, inp, orphan)
    ensures InvalidFact(reg0, reg, inp, SortReferences(orphan))
  {
    var item :| item in inp.learned && RowFailed(reg0, reg, item, inp.sources, orphan);
    RowFailedSorted(reg0, reg, item, inp.sources, orphan);
  }

  lemma RowFailedSorted(reg0: Entries, reg: Entries, item: LearnedArtifact, sources: CapturedSources,
                        orphan: OrphanedArtifact)
    requires RowFailed(reg0, reg, item, sources, orphan)
    ensures RowFailed(reg0, reg, item, sources, SortReferences(orphan))
  {
    SortKeepsMembers(orphan.danglingReferences);
    if Tampered(item, sources) {
      assert Sort(StringLeq, orphan.danglingReferences) == orphan.danglingReferences;
    } else {
      assert orphan.danglingReferences[0] in Sort(StringLeq, orphan.danglingReferences);
    }
  }
}
