/** Ordinary and owner-accepted dependency passes, alternated to a joint fixed point.

    `Evaluate` is the specification of the nested loops; the methods at the end run
    those loops on a mutable registry and are proved equal to it. The theorems in
    OverlayTheorems are about `Evaluate`. */
module OverlayConvergence {
  import opened Orders
  import opened OverlayRegistry

  // -------- canonical orphan lists --------

  predicate OrphanLeq(a: OrphanedArtifact, b: OrphanedArtifact) {
    if a.kind != b.kind then StringLeq(a.kind, b.kind)
    else if a.id != b.id then StringLeq(a.id, b.id)
    else if a.version != b.version then a.version <= b.version
    else StringsLeq(a.danglingReferences, b.danglingReferences)
  }

  function SortReferences(orphan: OrphanedArtifact): OrphanedArtifact {
    orphan.(danglingReferences := Sort(StringLeq, orphan.danglingReferences))
  }

  function SortedReferences(): OrphanedArtifact -> Option<OrphanedArtifact> {
    (orphan: OrphanedArtifact) => Some(SortReferences(orphan))
  }

  function Canonical(orphans: seq<OrphanedArtifact>): (r: seq<OrphanedArtifact>) {
    Sort(OrphanLeq, Collect(SortedReferences(), orphans))
  }

  // -------- the ordinary pass --------

  function NotBase(base: set<Key>): LearnedArtifact -> Option<LearnedArtifact> {
    (item: LearnedArtifact) => if item.Slot() in base then None else Some(item)
  }

  function Candidates(learned: seq<LearnedArtifact>, base: set<Key>): seq<LearnedArtifact> {
    Collect(NotBase(base), learned)
  }

  function AcceptedIdents(learned: seq<LearnedArtifact>): set<Identity> {
    set item <- learned | item.compatibility == OwnerAccepted :: item.Ident()
  }

  function PendingTest(reg: Entries): LearnedArtifact -> Option<OrphanedArtifact> {
    (item: LearnedArtifact) =>
      if item.compatibility == ReconfirmationRequired && ActiveAt(reg, item.Ident())
      then Some(OrphanedArtifact(item.kind, item.id, item.version, ["reconfirmation_required"]))
      else None
  }

  function OrphanTest(reg: Entries, accepted: set<Identity>, reported: set<Identity>)
    : LearnedArtifact -> Option<OrphanedArtifact>
  {
    (item: LearnedArtifact) =>
      var candidate := OrphanOf(reg, item);
      if candidate.Some? && candidate.value.Ident() !in accepted
         && ActiveAt(reg, candidate.value.Ident()) && candidate.value.Ident() !in reported
      then candidate else None
  }

  function NextOrphans(reg: Entries, learned: seq<LearnedArtifact>, all: seq<OrphanedArtifact>)
    : seq<OrphanedArtifact>
  {
    Collect(OrphanTest(reg, AcceptedIdents(learned), Idents(all)), learned)
  }

  predicate PresentAt(reg: Entries, ident: Identity) {
    Key(ident.kind, ident.id) in reg && reg[Key(ident.kind, ident.id)].version == ident.version
  }

  lemma ExcludeShrinks(reg: Entries, gone: set<Identity>, ident: Identity)
    requires ident in gone && PresentAt(reg, ident)
    ensures |Exclude(reg, gone)| < |reg|
  {
    var key := Key(ident.kind, ident.id);
    var rest := Exclude(reg, gone);
    assert key !in rest && rest.Keys <= reg.Keys - {key};
    CardinalityMonotone(rest.Keys, reg.Keys - {key});
  }

  lemma {:induction false} CardinalityMonotone<T>(a: set<T>, b: set<T>)
    requires a <= b
    ensures |a| <= |b|
  {
    if a != {} {
      var x :| x in a;
      CardinalityMonotone(a - {x}, b - {x});
    }
  }

  lemma NextArePresent(reg: Entries, learned: seq<LearnedArtifact>, all: seq<OrphanedArtifact>,
                       orphan: OrphanedArtifact)
    requires orphan in NextOrphans(reg, learned, all)
    ensures ActiveAt(reg, orphan.Ident()) && PresentAt(reg, orphan.Ident())
    ensures orphan.Ident() !in Idents(all) && orphan.Ident() !in AcceptedIdents(learned)
    ensures exists item :: item in learned && item.Ident() == orphan.Ident() && OrphanOf(reg, item) == Some(orphan)
  {
    CollectMember(OrphanTest(reg, AcceptedIdents(learned), Idents(all)), learned, orphan);
  }

  function OrdinaryRounds(reg: Entries, learned: seq<LearnedArtifact>, all: seq<OrphanedArtifact>)
    : (Entries, seq<OrphanedArtifact>)
    decreases |reg|
  {
    var next := NextOrphans(reg, learned, all);
    if next == [] then (reg, all)
    else
      NextArePresent(reg, learned, all, next[0]);
      ExcludeShrinks(reg, Idents(next), next[0].Ident());
      OrdinaryRounds(Exclude(reg, Idents(next)), learned, all + next)
  }

  function EvaluateOrdinary(reg: Entries, learned: seq<LearnedArtifact>): (Entries, seq<OrphanedArtifact>) {
    var pending := Collect(PendingTest(reg), learned);
    var (rest, all) := OrdinaryRounds(Exclude(reg, Idents(pending)), learned, pending);
    (rest, Canonical(all))
  }

  // -------- the owner-accepted pass --------

  predicate Tampered(item: LearnedArtifact, sources: CapturedSources) {
    !(item.pendingYamlDigest.Some? && item.Ident() in sources
      && item.pendingYamlDigest.value == sources[item.Ident()].digest)
  }

  function WithoutSourceMissing(): string -> Option<string> {
    (reference: string) => if reference == "owner_accepted_source_missing" then None else Some(reference)
  }

  function CurrentDangling(reg: Entries, item: LearnedArtifact, sources: CapturedSources): seq<string> {
    if item.Ident() !in sources then []
    else Collect(WithoutSourceMissing(), OwnerAcceptedNewlyDangling(reg, item.kind, Some(sources[item.Ident()])))
  }

  predicate OwnerOk(reg: Entries, item: LearnedArtifact, sources: CapturedSources) {
    !Tampered(item, sources) && FingerprintAllows(CurrentDangling(reg, item, sources), item.fingerprint)
  }

  function InvalidTest(reg: Entries, invalid: set<Identity>, sources: CapturedSources)
    : LearnedArtifact -> Option<OrphanedArtifact>
  {
    (item: LearnedArtifact) =>
      if item.compatibility != OwnerAccepted || item.Ident() in invalid || OwnerOk(reg, item, sources) then None
      else Some(OrphanedArtifact(item.kind, item.id, item.version,
                                 if Tampered(item, sources) then ["owner_accepted_digest_tampered"]
                                 else CurrentDangling(reg, item, sources)))
  }

  function NewlyInvalid(reg: Entries, learned: seq<LearnedArtifact>, invalid: seq<OrphanedArtifact>,
                        sources: CapturedSources)
    : seq<OrphanedArtifact>
  {
    Collect(InvalidTest(reg, Idents(invalid), sources), learned)
  }

  function OrphanNotBase(base: set<Key>): OrphanedArtifact -> Option<OrphanedArtifact> {
    (orphan: OrphanedArtifact) => if orphan.Slot() in base then None else Some(orphan)
  }

  /** Append the facts whose identity is not already reported, in order. */
  function MergeNew(ordinary: seq<OrphanedArtifact>, found: seq<OrphanedArtifact>): seq<OrphanedArtifact>
    decreases found
  {
    if found == [] then ordinary
    else MergeNew(if found[0].Ident() in Idents(ordinary) then ordinary else ordinary + [found[0]], found[1..])
  }

  datatype Inputs = Inputs(
    learned: seq<LearnedArtifact>, base: set<Key>, existing: seq<OrphanedArtifact>, sources: CapturedSources)

  datatype Outcome = Outcome(
    entries: Entries, ordinary: seq<OrphanedArtifact>, invalid: seq<OrphanedArtifact>)

  lemma NewlyInvalidFacts(
    reg: Entries, learned: seq<LearnedArtifact>, invalid: seq<OrphanedArtifact>, sources: CapturedSources,
    orphan: OrphanedArtifact)
    requires orphan in NewlyInvalid(reg, learned, invalid, sources)
    ensures orphan.Ident() in AcceptedIdents(learned) && orphan.Ident() !in Idents(invalid)
    ensures exists item :: item in learned && item.Ident() == orphan.Ident()
                           && item.compatibility == OwnerAccepted && !OwnerOk(reg, item, sources)
  {
    CollectMember(InvalidTest(reg, Idents(invalid), sources), learned, orphan);
  }

  lemma RemainingShrinks(learned: seq<LearnedArtifact>, invalid: seq<OrphanedArtifact>, more: seq<OrphanedArtifact>,
                         ident: Identity)
    requires ident in Idents(more) && ident in AcceptedIdents(learned) && ident !in Idents(invalid)
    ensures |AcceptedIdents(learned) - Idents(invalid + more)| < |AcceptedIdents(learned) - Idents(invalid)|
  {
    IdentsAppend(invalid, more);
    var after := AcceptedIdents(learned) - Idents(invalid + more);
    var before := AcceptedIdents(learned) - Idents(invalid);
    assert after <= before - {ident};
    CardinalityMonotone(after, before - {ident});
  }

  function OwnerRounds(inp: Inputs, st: Outcome): Outcome
    decreases |AcceptedIdents(inp.learned) - Idents(st.invalid)|
  {
    var newly := NewlyInvalid(st.entries, inp.learned, st.invalid, inp.sources);
    if newly == [] then st
    else
      NewlyInvalidFacts(st.entries, inp.learned, st.invalid, inp.sources, newly[0]);
      RemainingShrinks(inp.learned, st.invalid, newly, newly[0].Ident());
      OwnerRounds(inp, OwnerStep(inp, st, newly))
  }

  function OwnerStep(inp: Inputs, st: Outcome, newly: seq<OrphanedArtifact>): Outcome {
    var kept := Exclude(st.entries, Idents(Collect(OrphanNotBase(inp.base), newly)));
    var (rest, found) := EvaluateOrdinary(kept, Candidates(inp.learned, inp.base));
    Outcome(rest, MergeNew(st.ordinary, found), st.invalid + newly)
  }

  function Start(reg: Entries, inp: Inputs): Outcome {
    var (rest, found) := EvaluateOrdinary(reg, Candidates(inp.learned, inp.base));
    Outcome(rest, found, inp.existing)
  }

  function Evaluate(reg: Entries, inp: Inputs): Outcome {
    var done := OwnerRounds(inp, Start(reg, inp));
    Outcome(done.entries, Canonical(done.ordinary), Canonical(done.invalid))
  }

  // -------- the loops on the mutable registry --------

  method EvaluateCompatibility(registry: ArtifactRegistry, learned: seq<LearnedArtifact>)
    returns (all: seq<OrphanedArtifact>)
    modifies registry
    ensures (registry.entries, all) == EvaluateOrdinary(old(registry.entries), learned)
  {
    var pending := Collect(PendingTest(registry.entries), learned);
    registry.ExcludeOrphans(pending);
    all := pending;
    ghost var start := registry.entries;
    while true
      invariant OrdinaryRounds(registry.entries, learned, all) == OrdinaryRounds(start, learned, pending)
      decreases |registry.entries|
    {
      var next := NextOrphans(registry.entries, learned, all);
      if next == [] { break; }
      NextArePresent(registry.entries, learned, all, next[0]);
      ExcludeShrinks(registry.entries, Idents(next), next[0].Ident());
      registry.ExcludeOrphans(next);
      all := all + next;
    }
    all := Canonical(all);
  }

  method PushNew(ordinary: seq<OrphanedArtifact>, found: seq<OrphanedArtifact>) returns (merged: seq<OrphanedArtifact>)
    ensures merged == MergeNew(ordinary, found)
  {
    merged := ordinary;
    var i := 0;
    while i < |found|
      invariant 0 <= i <= |found|
      invariant MergeNew(merged, found[i..]) == MergeNew(ordinary, found)
    {
      assert found[i..][0] == found[i] && found[i..][1..] == found[i + 1..];
      if found[i].Ident() !in Idents(merged) {
        merged := merged + [found[i]];
      }
      i := i + 1;
    }
  }

  method EvaluateCapturedDependencies(registry: ArtifactRegistry, inp: Inputs)
    returns (ordinary: seq<OrphanedArtifact>, invalid: seq<OrphanedArtifact>)
    modifies registry
    ensures Outcome(registry.entries, ordinary, invalid) == Evaluate(old(registry.entries), inp)
  {
    var candidates := Candidates(inp.learned, inp.base);
    ordinary := EvaluateCompatibility(registry, candidates);
    invalid := inp.existing;
    ghost var start := Outcome(registry.entries, ordinary, invalid);
    while true
      invariant OwnerRounds(inp, Outcome(registry.entries, ordinary, invalid)) == OwnerRounds(inp, start)
      decreases |AcceptedIdents(inp.learned) - Idents(invalid)|
    {
      var newly := NewlyInvalid(registry.entries, inp.learned, invalid, inp.sources);
      if newly == [] { break; }
      NewlyInvalidFacts(registry.entries, inp.learned, invalid, inp.sources, newly[0]);
      RemainingShrinks(inp.learned, invalid, newly, newly[0].Ident());
      ghost var before := Outcome(registry.entries, ordinary, invalid);
      registry.ExcludeOrphans(Collect(OrphanNotBase(inp.base), newly));
      invalid := invalid + newly;
      var found := EvaluateCompatibility(registry, candidates);
      ordinary := PushNew(ordinary, found);
      assert Outcome(registry.entries, ordinary, invalid) == OwnerStep(inp, before, newly);
    }
    ordinary := Canonical(ordinary);
    invalid := Canonical(invalid);
  }
}
