/** The scratch registry that overlay convergence shrinks, the learned rows that
    describe it, and the dependency facts computed against it. */
module OverlayRegistry {
  import opened Orders

  /** (kind, artifact id): the address of one registry slot. */
  datatype Key = Key(kind: string, id: string)

  /** (kind, artifact id, version): what learned rows and orphan facts name. */
  datatype Identity = Identity(kind: string, id: string, version: nat)

  /** Typed references carried by an artifact. Only routes and workflows have any. */
  datatype Body =
    | RouteBody(agent: Option<string>, workflow: Option<string>, pack: Option<string>)
    | WorkflowBody(requiredAgent: string, requiredPack: string)
    | PlainBody

  datatype Artifact = Artifact(version: nat, active: bool, body: Body)

  /** At most one entry per (kind, id); the loader replaces routes by id too. */
  type Entries = map<Key, Artifact>

  datatype Compatibility = Compatible | ReconfirmationRequired | OwnerAccepted | Erased

  /** The stored JSON array of dangling references the owner accepted, after decoding. */
  datatype Fingerprint = NotRecorded | Unreadable | Accepted(references: seq<string>)

  datatype LearnedArtifact = LearnedArtifact(
    kind: string, id: string, version: nat, overlay: bool,
    compatibility: Compatibility, pendingYamlDigest: Option<string>, fingerprint: Fingerprint)
  {
    function Ident(): Identity { Identity(kind, id, version) }
    function Slot(): Key { Key(kind, id) }
  }

  datatype OrphanedArtifact = OrphanedArtifact(
    kind: string, id: string, version: nat, danglingReferences: seq<string>)
  {
    function Ident(): Identity { Identity(kind, id, version) }
    function Slot(): Key { Key(kind, id) }
  }

  /** Captured bytes as the evaluator sees them: their digest and what parsing
      them as the row's kind yields. */
  datatype Captured = Captured(digest: string, parsed: Option<Body>)

  type CapturedSources = map<Identity, Captured>

  // -------- lookups --------

  predicate ActiveAt(reg: Entries, ident: Identity) {
    var key := Key(ident.kind, ident.id);
    key in reg && reg[key].version == ident.version && reg[key].active
  }

  predicate ActiveId(reg: Entries, kind: string, id: string) {
    Key(kind, id) in reg && reg[Key(kind, id)].active
  }

  function EntryIdent(reg: Entries, key: Key): Identity
    requires key in reg
  {
    Identity(key.kind, key.id, reg[key].version)
  }

  // -------- dangling references --------

  function MissingRef(reg: Entries, kind: string, id: string): seq<string> {
    if ActiveId(reg, kind, id) then [] else [kind + ":" + id]
  }

  function MissingOptional(reg: Entries, kind: string, id: Option<string>): seq<string> {
    if id.Some? then MissingRef(reg, kind, id.value) else []
  }

  function Dangling(reg: Entries, body: Body): seq<string> {
    match body
    case RouteBody(agent, workflow, pack) =>
      MissingOptional(reg, "agent", agent) + MissingOptional(reg, "workflow", workflow) +
        MissingOptional(reg, "pack", pack)
    case WorkflowBody(agent, pack) =>
      MissingRef(reg, "agent", agent) + MissingRef(reg, "pack", pack)
    case PlainBody => []
  }

  function OwnerAcceptedNewlyDangling(reg: Entries, kind: string, source: Option<Captured>): seq<string> {
    match source
    case None => ["owner_accepted_source_missing"]
    case Some(captured) =>
      if kind == "template" then
        if captured.parsed.Some? then [] else ["owner_accepted_template_parse_failed"]
      else if captured.parsed.Some? then Dangling(reg, captured.parsed.value)
      else ["owner_accepted_parse_failed"]
  }

  predicate FingerprintAllows(current: seq<string>, accepted: Fingerprint) {
    || current == []
    || (accepted.Accepted? && forall reference <- current :: reference in accepted.references)
  }

  // -------- find_orphans and exclude_orphans --------

  function OrphanOf(reg: Entries, item: LearnedArtifact): Option<OrphanedArtifact> {
    if !item.overlay || (item.kind != "route" && item.kind != "workflow") || !ActiveAt(reg, item.Ident()) then None
    else
      var dangling := Dangling(reg, reg[item.Slot()].body);
      if dangling == [] then None else Some(OrphanedArtifact(item.kind, item.id, item.version, dangling))
  }

  function Idents(orphans: seq<OrphanedArtifact>): set<Identity> {
    set orphan <- orphans :: orphan.Ident()
  }

  function Exclude(reg: Entries, gone: set<Identity>): (r: Entries)
    ensures r.Keys <= reg.Keys
  {
    map key <- reg | EntryIdent(reg, key) !in gone :: reg[key]
  }

  /** `inner` is obtained from `outer` by removing entries. */
  ghost predicate Sub(inner: Entries, outer: Entries) {
    forall key <- inner :: key in outer && inner[key] == outer[key]
  }

  lemma ExcludeAppend(reg: Entries, a: set<Identity>, b: set<Identity>)
    ensures Exclude(Exclude(reg, a), b) == Exclude(reg, a + b)
  {
    var lhs, rhs := Exclude(Exclude(reg, a), b), Exclude(reg, a + b);
    assert forall key :: key in lhs <==> key in rhs;
  }

  lemma IdentsAppend(a: seq<OrphanedArtifact>, b: seq<OrphanedArtifact>)
    ensures Idents(a + b) == Idents(a) + Idents(b)
  {
    assert forall o :: o in a + b <==> o in a || o in b;
  }

  lemma IdentsPermuted(a: seq<OrphanedArtifact>, b: seq<OrphanedArtifact>)
    requires multiset(a) == multiset(b)
    ensures Idents(a) == Idents(b)
  {
    assert forall o :: o in a <==> o in multiset(a);
    assert forall o :: o in b <==> o in multiset(b);
  }

  /** The references a body carries, each with the kind it is looked up under. */
  ghost predicate Carries(body: Body, kind: string, id: string) {
    match body
    case RouteBody(agent, workflow, pack) =>
      || (kind == "agent" && agent == Some(id)) || (kind == "workflow" && workflow == Some(id))
      || (kind == "pack" && pack == Some(id))
    case WorkflowBody(agent, pack) => (kind == "agent" && agent == id) || (kind == "pack" && pack == id)
    case PlainBody => false
  }

  /** `reference` names something the body carries that is not active under its own kind. */
  ghost predicate Misses(reg: Entries, body: Body, reference: string) {
    exists kind, id :: Carries(body, kind, id) && !ActiveId(reg, kind, id) && reference == kind + ":" + id
  }

  lemma MissesAt(reg: Entries, body: Body, kind: string, id: string)
    requires Carries(body, kind, id) && !ActiveId(reg, kind, id)
    ensures Misses(reg, body, kind + ":" + id)
  {
  }

  /** What dangles is exactly what the body carries and the registry does not have. */
  lemma DanglingExactly(reg: Entries, body: Body, reference: string)
    ensures reference in Dangling(reg, body) <==> Misses(reg, body, reference)
  {
    if reference in Dangling(reg, body) {
      match body
      case RouteBody(agent, workflow, pack) =>
        if reference in MissingOptional(reg, "agent", agent) {
          MissesAt(reg, body, "agent", agent.value);
        } else if reference in MissingOptional(reg, "workflow", workflow) {
          MissesAt(reg, body, "workflow", workflow.value);
        } else {
          MissesAt(reg, body, "pack", pack.value);
        }
      case WorkflowBody(agent, pack) =>
        if reference in MissingRef(reg, "agent", agent) {
          MissesAt(reg, body, "agent", agent);
        } else {
          MissesAt(reg, body, "pack", pack);
        }
    }
  }

  /** Removing entries can only make more references dangle. */
  lemma DanglingAntitone(inner: Entries, outer: Entries, body: Body)
    requires Sub(inner, outer)
    ensures forall reference <- Dangling(outer, body) :: reference in Dangling(inner, body)
  {
  }

  lemma NewlyDanglingAntitone(inner: Entries, outer: Entries, kind: string, source: Option<Captured>)
    requires Sub(inner, outer)
    ensures forall reference <- OwnerAcceptedNewlyDangling(outer, kind, source) ::
              reference in OwnerAcceptedNewlyDangling(inner, kind, source)
  {
    if source.Some? && source.value.parsed.Some? {
      DanglingAntitone(inner, outer, source.value.parsed.value);
    }
  }

  /** The mutable registry. `ExcludeOrphans` removes exact versions only. */
  class ArtifactRegistry {
    var entries: Entries

    constructor (initial: Entries)
      ensures entries == initial
    {
      entries := initial;
    }

    method ExcludeOrphans(orphans: seq<OrphanedArtifact>)
      modifies this
      ensures entries == Exclude(old(entries), Idents(orphans))
    {
      var i := 0;
      assert entries == Exclude(entries, Idents(orphans[..0]));
      while i < |orphans|
        invariant 0 <= i <= |orphans|
        invariant entries == Exclude(old(entries), Idents(orphans[..i]))
      {
        var orphan := orphans[i];
        ghost var before := entries;
        if orphan.Slot() in entries && entries[orphan.Slot()].version == orphan.version {
          entries := entries - {orphan.Slot()};
        }
        assert entries == Exclude(before, {orphan.Ident()});
        assert Idents(orphans[..i + 1]) == Idents(orphans[..i]) + {orphan.Ident()} by {
          assert orphans[..i + 1] == orphans[..i] + [orphan];
          IdentsAppend(orphans[..i], [orphan]);
          assert Idents([orphan]) == {orphan.Ident()};
        }
        ExcludeAppend(old(entries), Idents(orphans[..i]), {orphan.Ident()});
        i := i + 1;
      }
      assert orphans[..i] == orphans;
    }
  }
}
