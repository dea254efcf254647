/** What the overlay passes enforce, said of registry entries and references alone: no pass,
    orphan fact or list of dangling references occurs in these conditions. */
module OverlayMeaning {
  import opened Orders
  import opened OverlayRegistry
  import opened OverlayConvergence
  import opened OverlayTheorems

  /** Everything the body refers to is active under its own kind. */
  ghost predicate Resolved(reg: Entries, body: Body) {
    forall kind, id :: Carries(body, kind, id) ==> Key(kind, id) in reg && reg[Key(kind, id)].active
  }

  /** What an owner-accepted artifact lacks: its bytes do not parse, or a reference is missing. A
      template carries no references. */
  ghost predicate Lacks(reg: Entries, kind: string, parsed: Option<Body>, reference: string) {
    match parsed
    case None =>
      reference == if kind == "template" then "owner_accepted_template_parse_failed" else "owner_accepted_parse_failed"
    case Some(body) => kind != "template" && Misses(reg, body, reference)
  }

  /** The captured bytes are the ones the owner reviewed, and lack nothing the owner did not accept. */
  ghost predicate Vouched(reg: Entries, item: LearnedArtifact, sources: CapturedSources) {
    && item.Ident() in sources
    && item.pendingYamlDigest == Some(sources[item.Ident()].digest)
    && forall reference :: Lacks(reg, item.kind, sources[item.Ident()].parsed, reference) ==>
         item.fingerprint.Accepted? && reference in item.fingerprint.references
  }

  ghost predicate AcceptedToo(inp: Inputs, item: LearnedArtifact) {
    exists other :: other in inp.learned && other.compatibility == OwnerAccepted && other.Ident() == item.Ident()
  }

  ghost predicate InvalidBefore(inp: Inputs, item: LearnedArtifact) {
    exists prior :: prior in inp.existing && prior.Ident() == item.Ident()
  }

  /** One row is in order with the entry it describes, if that is outside the base. */
  ghost predicate RowInOrder(reg: Entries, inp: Inputs, item: LearnedArtifact) {
    var key := Key(item.kind, item.id);
    key !in inp.base && key in reg && reg[key].version == item.version ==>
      && (reg[key].active ==> item.compatibility != ReconfirmationRequired)
      && (reg[key].active && item.overlay && item.kind in {"route", "workflow"} && !AcceptedToo(inp, item) ==>
            Resolved(reg, reg[key].body))
      && (item.compatibility == OwnerAccepted && !InvalidBefore(inp, item) ==> Vouched(reg, item, inp.sources))
  }

  ghost predicate InOrder(reg: Entries, inp: Inputs) {
    forall item :: item in inp.learned ==> RowInOrder(reg, inp, item)
  }

  // -------- the conditions of the passes mean this --------

  lemma ResolvedExactly(reg: Entries, body: Body)
    ensures Dangling(reg, body) == [] <==> Resolved(reg, body)
  {
    if Dangling(reg, body) == [] {
      forall kind, id | Carries(body, kind, id) ensures ActiveId(reg, kind, id) {
        if !ActiveId(reg, kind, id) {
          DanglingExactly(reg, body, kind + ":" + id);
          assert false;
        }
      }
    } else {
      DanglingExactly(reg, body, Dangling(reg, body)[0]);
    }
  }

  /** What the owner-accepted check lists for a captured source, or for the lack of one. */
  lemma NewlyDanglingExactly(reg: Entries, kind: string, source: Option<Captured>, reference: string)
    ensures reference in OwnerAcceptedNewlyDangling(reg, kind, source) <==>
            match source
            case None => reference == "owner_accepted_source_missing"
            case Some(captured) => Lacks(reg, kind, captured.parsed, reference)
  {
    if source.Some? && source.value.parsed.Some? {
      DanglingExactly(reg, source.value.parsed.value, reference);
    }
  }

  lemma LacksExactly(reg: Entries, item: LearnedArtifact, sources: CapturedSources, reference: string)
    requires item.Ident() in sources
    ensures reference in CurrentDangling(reg, item, sources) <==>
            Lacks(reg, item.kind, sources[item.Ident()].parsed, reference)
  {
    var source := sources[item.Ident()];
    CollectMember(WithoutSourceMissing(), OwnerAcceptedNewlyDangling(reg, item.kind, Some(source)), reference);
    NewlyDanglingExactly(reg, item.kind, Some(source), reference);
    if source.parsed.Some? {
      NotTheMarker(reg, source.parsed.value, reference);
    }
  }

  lemma NotTheMarker(reg: Entries, body: Body, reference: string)
    ensures Misses(reg, body, reference) ==> reference != "owner_accepted_source_missing"
  {
    if Misses(reg, body, reference) {
      var kind, id :| Carries(body, kind, id) && !ActiveId(reg, kind, id) && reference == kind + ":" + id;
      assert kind in {"agent", "workflow", "pack"} && reference[0] == kind[0];
    }
  }

  lemma VouchedExactly(reg: Entries, item: LearnedArtifact, sources: CapturedSources)
    ensures OwnerOk(reg, item, sources) <==> Vouched(reg, item, sources)
  {
    if item.Ident() in sources {
      forall reference ensures reference in CurrentDangling(reg, item, sources) <==>
                               Lacks(reg, item.kind, sources[item.Ident()].parsed, reference)
      {
        LacksExactly(reg, item, sources, reference);
      }
      var current := CurrentDangling(reg, item, sources);
      assert current != [] ==> current[0] in current;
    }
  }

  lemma CandidateExactly(inp: Inputs, item: LearnedArtifact)
    ensures item in Candidates(inp.learned, inp.base) <==> item in inp.learned && Key(item.kind, item.id) !in inp.base
  {
    CollectMember(NotBase(inp.base), inp.learned, item);
  }

  lemma AcceptedExactly(inp: Inputs, item: LearnedArtifact)
    requires Key(item.kind, item.id) !in inp.base
    ensures item.Ident() in AcceptedIdents(Candidates(inp.learned, inp.base)) <==> AcceptedToo(inp, item)
  {
    forall other: LearnedArtifact
      ensures other in Candidates(inp.learned, inp.base) <==>
              other in inp.learned && Key(other.kind, other.id) !in inp.base
    {
      CandidateExactly(inp, other);
    }
  }

  ghost predicate RowConsistent(reg: Entries, inp: Inputs, item: LearnedArtifact) {
    && (Key(item.kind, item.id) !in inp.base ==>
          && (item.compatibility == ReconfirmationRequired ==> !ActiveAt(reg, item.Ident()))
          && (OrphanOf(reg, item).Some? ==> item.Ident() in AcceptedIdents(Candidates(inp.learned, inp.base))))
    && (item.compatibility == OwnerAccepted && item.Slot() !in inp.base ==>
          item.Ident() !in Idents(inp.existing) && PresentAt(reg, item.Ident()) ==> OwnerOk(reg, item, inp.sources))
  }

  lemma ConsistentByRow(reg: Entries, inp: Inputs)
    ensures Consistent(reg, inp) <==> forall item :: item in inp.learned ==> RowConsistent(reg, inp, item)
  {
    forall item: LearnedArtifact
      ensures item in Candidates(inp.learned, inp.base) <==>
              item in inp.learned && Key(item.kind, item.id) !in inp.base
    {
      CandidateExactly(inp, item);
    }
  }

  lemma RowExactly(reg: Entries, inp: Inputs, item: LearnedArtifact)
    ensures RowConsistent(reg, inp, item) <==> RowInOrder(reg, inp, item)
  {
    var key := Key(item.kind, item.id);
    if key !in inp.base && key in reg {
      AcceptedExactly(inp, item);
      ResolvedExactly(reg, reg[key].body);
      VouchedExactly(reg, item, inp.sources);
      assert item.Ident() in Idents(inp.existing) <==> InvalidBefore(inp, item);
    }
  }

  lemma InOrderExactly(reg: Entries, inp: Inputs)
    ensures Consistent(reg, inp) <==> InOrder(reg, inp)
  {
    ConsistentByRow(reg, inp);
    forall item: LearnedArtifact ensures RowConsistent(reg, inp, item) <==> RowInOrder(reg, inp, item) {
      RowExactly(reg, inp, item);
    }
  }

  // -------- the theorem --------

  /** The evaluation leaves the greatest sub-registry in which every row is in order. */
  lemma GreatestInOrder(reg: Entries, inp: Inputs, inner: Entries)
    ensures var out := Evaluate(reg, inp).entries;
            && InOrder(out, inp) && Sub(out, reg)
            && (Sub(inner, reg) && InOrder(inner, inp) ==> Sub(inner, out))
  {
    var out := Evaluate(reg, inp).entries;
    JointFixedPoint(reg, inp);
    InOrderExactly(out, inp);
    SubOfInput(reg, inp);
    InOrderExactly(inner, inp);
    if Sub(inner, reg) && InOrder(inner, inp) {
      Maximality(reg, inp, inner);
    }
  }

  ghost predicate ReferencesIn(reg: Entries, body: Body) {
    match body
    case RouteBody(agent, workflow, pack) =>
      && (agent.Some? ==> ActiveId(reg, "agent", agent.value))
      && (workflow.Some? ==> ActiveId(reg, "workflow", workflow.value))
      && (pack.Some? ==> ActiveId(reg, "pack", pack.value))
    case WorkflowBody(agent, pack) => ActiveId(reg, "agent", agent) && ActiveId(reg, "pack", pack)
    case PlainBody => true
  }

  lemma ResolvedByField(reg: Entries, body: Body)
    ensures Resolved(reg, body) <==> ReferencesIn(reg, body)
  {
    assert body.RouteBody? && body.agent.Some? ==> Carries(body, "agent", body.agent.value);
    assert body.RouteBody? && body.workflow.Some? ==> Carries(body, "workflow", body.workflow.value);
    assert body.RouteBody? && body.pack.Some? ==> Carries(body, "pack", body.pack.value);
    assert body.WorkflowBody? ==> Carries(body, "agent", body.requiredAgent);
    assert body.WorkflowBody? ==> Carries(body, "pack", body.requiredPack);
  }

  /** No ordinary learned route or workflow that is still active refers to anything that is not. */
  lemma ReferencesActive(reg: Entries, inp: Inputs, item: LearnedArtifact)
    requires item in inp.learned && item.overlay && Key(item.kind, item.id) !in inp.base
    requires item.kind in {"route", "workflow"} && !AcceptedToo(inp, item)
    requires ActiveAt(Evaluate(reg, inp).entries, item.Ident())
    ensures var out := Evaluate(reg, inp).entries; ReferencesIn(out, out[Key(item.kind, item.id)].body)
  {
    var out := Evaluate(reg, inp).entries;
    GreatestInOrder(reg, inp, out);
    assert RowInOrder(out, inp, item);
    ResolvedByField(out, out[Key(item.kind, item.id)].body);
  }

  // -------- the order of the reports --------

  /** By kind, then id, then version; the references of one fact in order. */
  ghost predicate InReportOrder(orphans: seq<OrphanedArtifact>) {
    && (forall i, j :: 0 <= i < j < |orphans| ==> ReportedBefore(orphans[i], orphans[j]))
    && forall o :: o in orphans ==> SortedBy(StringLeq, o.danglingReferences)
  }

  ghost predicate ReportedBefore(a: OrphanedArtifact, b: OrphanedArtifact) {
    && StringLeq(a.kind, b.kind)
    && (a.kind == b.kind ==> StringLeq(a.id, b.id) && (a.id == b.id ==> a.version <= b.version))
  }

  lemma CanonicalInOrder(orphans: seq<OrphanedArtifact>)
    ensures InReportOrder(Canonical(orphans))
  {
    var sorted := Canonical(orphans);
    OrphanOrder();
    SortSorted(OrphanLeq, Collect(SortedReferences(), orphans));
    forall i, j | 0 <= i < j < |sorted| ensures ReportedBefore(sorted[i], sorted[j]) {
      OrphanLeqMeans(sorted[i], sorted[j]);
    }
    forall o | o in sorted ensures SortedBy(StringLeq, o.danglingReferences) {
      CanonicalReferences(orphans, o);
    }
  }

  lemma OrphanLeqMeans(a: OrphanedArtifact, b: OrphanedArtifact)
    requires OrphanLeq(a, b)
    ensures ReportedBefore(a, b)
  {
    StringOrder();
  }

  lemma CanonicalReferences(orphans: seq<OrphanedArtifact>, o: OrphanedArtifact)
    requires o in Canonical(orphans)
    ensures SortedBy(StringLeq, o.danglingReferences)
  {
    StringOrder();
    assert o in multiset(Canonical(orphans));
    assert o in Collect(SortedReferences(), orphans);
    CollectMember(SortedReferences(), orphans, o);
    var raw :| raw in orphans && SortReferences(raw) == o;
    SortSorted(StringLeq, raw.danglingReferences);
  }

  lemma ReportsInOrder(reg: Entries, inp: Inputs)
    ensures InReportOrder(Evaluate(reg, inp).ordinary) && InReportOrder(Evaluate(reg, inp).invalid)
  {
    var done := OwnerRounds(inp, Start(reg, inp));
    CanonicalInOrder(done.ordinary);
    CanonicalInOrder(done.invalid);
  }
}
