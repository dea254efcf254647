/** Minting a worker's sub-grant from its master's grant. */
module WorkerGrant {
  import opened Orders
  import opened ByteStrings
  import opened GrantChain
  import opened Gate

  datatype BoundParam = BoundParam(name: string, value: string)

  datatype CommissionSpec = CommissionSpec(allowedActions: seq<ActionId>, boundParameters: seq<BoundParam>,
                                           expiresBefore: int)

  datatype MintError =
    | ParentChainInvalid
    | ActionNotInParentAuthority(action: ActionId)
    | ActionNonDelegable(action: ActionId)
    | ExpiryWidens
    | ParameterConflict(name: string)

  datatype MintResult = Minted(grant: TaskGrant) | Failed(error: MintError)

  /** What minting draws from outside: a new id, the clock and a bearer token. */
  datatype Fresh = Fresh(id: Ulid, issuedAt: int, taskToken: string)

  // -------- specification --------

  /** Why an action may not be delegated; non-delegable is reported first. */
  function Undelegable(parent: TaskGrant, catalog: ActionCatalog, a: ActionId): Option<MintError> {
    if a in catalog.nonDelegable then Some(ActionNonDelegable(a))
    else if !EffectivelyAllows(parent, a) then Some(ActionNotInParentAuthority(a))
    else None
  }

  /** The first objection in list order. */
  function FirstUndelegable(parent: TaskGrant, catalog: ActionCatalog, actions: seq<ActionId>): Option<MintError>
    decreases |actions|
  {
    if actions == [] then None
    else if Undelegable(parent, catalog, actions[0]).Some? then Undelegable(parent, catalog, actions[0])
    else FirstUndelegable(parent, catalog, actions[1..])
  }

  /** The earliest instant at which the grant stops: a time outlives it exactly when it is
      later than the root expiry or than some expiry caveat. */
  predicate Outlives(parent: TaskGrant, at: int) {
    at > parent.root.expiresAt || exists c :: c in Caveats(parent.chain) && c.ExpiresBefore? && at > c.at
  }

  /** The value a chain binds a name to; the last binding counts. */
  function Binding(cs: seq<Caveat>, name: string): Option<string>
    decreases |cs|
  {
    if cs == [] then None
    else
      var last := cs[|cs| - 1];
      if last.BoundParameter? && last.name == name then Some(last.value) else Binding(cs[..|cs| - 1], name)
  }

  predicate Conflicts(cs: seq<Caveat>, p: BoundParam) {
    Binding(cs, p.name).Some? && Binding(cs, p.name).value != p.value
  }

  function FirstConflict(cs: seq<Caveat>, ps: seq<BoundParam>): Option<string>
    decreases |ps|
  {
    if ps == [] then None
    else if Conflicts(cs, ps[0]) then Some(ps[0].name)
    else FirstConflict(cs, ps[1..])
  }

  function BindingCaveats(ps: seq<BoundParam>): seq<Caveat> {
    seq(|ps|, i requires 0 <= i < |ps| => BoundParameter(ps[i].name, ps[i].value))
  }

  function ClosingCaveats(spec: CommissionSpec): seq<Caveat> {
    [ExpiresBefore(spec.expiresBefore), OutputChannelAllowlist([]), EgressClassAllowlist([]),
     ProvenanceLabelAllowlist([])]
  }

  /** The caveats every worker carries, whatever it was commissioned for. */
  function WorkerCaveats(spec: CommissionSpec): seq<Caveat> {
    [ActionAllowlist(spec.allowedActions)] + BindingCaveats(spec.boundParameters)
    + ClosingCaveats(spec)
  }

  function WorkerStep(parent: TaskGrant, spec: CommissionSpec, id: Ulid): ChainStep {
    ChainStep(id, Some(parent.id), parent.mode, [], WorkerCaveats(spec))
  }

  /** Why minting fails, in the order of the checks. */
  function Objection(mac: Mac, key: Bytes, parent: TaskGrant, spec: CommissionSpec,
                     catalog: ActionCatalog): Option<MintError> {
    if !Verifies(mac, key, parent) then Some(ParentChainInvalid)
    else if FirstUndelegable(parent, catalog, spec.allowedActions).Some? then
      FirstUndelegable(parent, catalog, spec.allowedActions)
    else if Outlives(parent, spec.expiresBefore) then Some(ExpiryWidens)
    else match FirstConflict(Caveats(parent.chain), spec.boundParameters)
      case Some(name) => Some(ParameterConflict(name))
      case None => None
  }

  function Worker(mac: Mac, key: Bytes, parent: TaskGrant, spec: CommissionSpec, fresh_: Fresh): TaskGrant {
    var chain := parent.chain + [WorkerStep(parent, spec, fresh_.id)];
    parent.(id := fresh_.id, issuedBy := "kernel", issuedAt := fresh_.issuedAt, selectionTokens := [],
            taskToken := fresh_.taskToken, parentGrantId := Some(parent.id), chain := chain,
            caveatMac := MacHex(mac, key, parent.root, chain))
  }

  // -------- the operation --------

  /** The self-check at the end never fails: a child extended from a verified parent's tip
      verifies under the key. */
  method MintWorkerGrant(mac: Mac, key: Bytes, parent: TaskGrant, spec: CommissionSpec, catalog: ActionCatalog,
                         fresh_: Fresh)
    returns (r: MintResult)
    ensures r == match Objection(mac, key, parent, spec, catalog)
                 case Some(e) => Failed(e)
                 case None => Minted(Worker(mac, key, parent, spec, fresh_))
    ensures r.Minted? ==> Verifies(mac, key, r.grant)
    ensures r.Minted? ==>
              && r.grant.id == fresh_.id && r.grant.issuedAt == fresh_.issuedAt
              && r.grant.taskToken == fresh_.taskToken && r.grant.issuedBy == "kernel"
              && r.grant.parentGrantId == Some(parent.id) && r.grant.selectionTokens == []
              && r.grant.root == parent.root && r.grant.mode == parent.mode
  {
    if !Verifies(mac, key, parent) { return Failed(ParentChainInvalid); }
    var refusal := CheckActions(parent, spec, catalog);
    if refusal.Some? { return Failed(refusal.value); }
    var parentExpiry := ParentExpiry(parent);
    if spec.expiresBefore > parentExpiry { return Failed(ExpiryWidens); }
    var conflict := CheckParameters(parent, spec);
    if conflict.Some? { return Failed(ParameterConflict(conflict.value)); }
    var added := AddedCaveats(spec);
    var step := ChainStep(fresh_.id, Some(parent.id), parent.mode, [], added);
    ChildTip(mac, key, parent, step);
    var sealed := SealChild(mac, parent.caveatMac, step);
    if sealed.None? { assert false; }
    var worker := parent;
    worker := worker.(id := fresh_.id, issuedBy := "kernel", issuedAt := fresh_.issuedAt);
    worker := worker.(selectionTokens := [], taskToken := fresh_.taskToken, parentGrantId := Some(parent.id));
    worker := worker.(chain := worker.chain + [step], caveatMac := sealed.value);
    WorkerVerifies(mac, key, parent, spec, fresh_);
    if !Verifies(mac, key, worker) { assert false; }
    r := Minted(worker);
  }

  method CheckActions(parent: TaskGrant, spec: CommissionSpec,
                      catalog: ActionCatalog) returns (refusal: Option<MintError>)
    ensures refusal == FirstUndelegable(parent, catalog, spec.allowedActions)
  {
    var actions := spec.allowedActions;
    for i := 0 to |actions|
      invariant FirstUndelegable(parent, catalog, actions) == FirstUndelegable(parent, catalog, actions[i..])
    {
      var action := actions[i];
      assert actions[i..][1..] == actions[i + 1..];
      if action in catalog.nonDelegable { return Some(ActionNonDelegable(action)); }
      if !EffectivelyAllows(parent, action) { return Some(ActionNotInParentAuthority(action)); }
    }
    refusal := None;
  }

  /** The root expiry tightened by every expiry caveat. */
  method ParentExpiry(parent: TaskGrant) returns (e: int)
    ensures forall at :: at > e <==> Outlives(parent, at)
  {
    var cs := Caveats(parent.chain);
    e := parent.root.expiresAt;
    for i := 0 to |cs|
      invariant e <= parent.root.expiresAt
      invariant forall c :: c in cs[..i] && c.ExpiresBefore? ==> e <= c.at
      invariant e == parent.root.expiresAt || ExpiresBefore(e) in cs[..i]
    {
      assert cs[..i + 1] == cs[..i] + [cs[i]];
      if cs[i].ExpiresBefore? && cs[i].at < e { e := cs[i].at; }
    }
    assert cs[..|cs|] == cs;
    forall at ensures at > e <==> Outlives(parent, at) {
      if at > e && e != parent.root.expiresAt { assert ExpiresBefore(e) in cs; }
    }
  }

  method CheckParameters(parent: TaskGrant, spec: CommissionSpec) returns (conflict: Option<string>)
    ensures conflict == FirstConflict(Caveats(parent.chain), spec.boundParameters)
  {
    var cs := Caveats(parent.chain);
    var bindings := ParentBindings(cs);
    var ps := spec.boundParameters;
    for i := 0 to |ps|
      invariant FirstConflict(cs, ps) == FirstConflict(cs, ps[i..])
    {
      assert ps[i..][1..] == ps[i + 1..];
      if ps[i].name in bindings && bindings[ps[i].name] != ps[i].value { return Some(ps[i].name); }
    }
    conflict := None;
  }

  method ParentBindings(cs: seq<Caveat>) returns (bindings: map<string, string>)
    ensures forall n :: Binding(cs, n) == if n in bindings then Some(bindings[n]) else None
  {
    bindings := map[];
    for i := 0 to |cs|
      invariant forall n :: Binding(cs[..i], n) == if n in bindings then Some(bindings[n]) else None
    {
      var seen := cs[..i + 1];
      assert seen[..i] == cs[..i] && seen[i] == cs[i];
      if cs[i].BoundParameter? { bindings := bindings[cs[i].name := cs[i].value]; }
    }
    assert cs[..|cs|] == cs;
  }

  method AddedCaveats(spec: CommissionSpec) returns (added: seq<Caveat>)
    ensures added == WorkerCaveats(spec)
  {
    added := [ActionAllowlist(spec.allowedActions)];
    var ps := spec.boundParameters;
    for i := 0 to |ps|
      invariant added == [ActionAllowlist(spec.allowedActions)] + BindingCaveats(ps[..i])
    {
      assert BindingCaveats(ps[..i + 1]) == BindingCaveats(ps[..i]) + [BoundParameter(ps[i].name, ps[i].value)];
      added := added + [BoundParameter(ps[i].name, ps[i].value)];
    }
    assert ps[..|ps|] == ps;
    added := added + [ExpiresBefore(spec.expiresBefore)];
    added := added + [OutputChannelAllowlist([])];
    added := added + [EgressClassAllowlist([])];
    added := added + [ProvenanceLabelAllowlist([])];
  }

  // -------- what minting promises --------

  lemma WorkerVerifies(mac: Mac, key: Bytes, parent: TaskGrant, spec: CommissionSpec, fresh_: Fresh)
    requires Verifies(mac, key, parent)
    ensures Verifies(mac, key, Worker(mac, key, parent, spec, fresh_))
  {
    var step := WorkerStep(parent, spec, fresh_.id);
    var worker := Worker(mac, key, parent, spec, fresh_);
    ShapeSnoc(parent.root.rootGrantId, parent.chain, step);
    MessagesNonEmpty(worker.root, worker.chain);
    HexRoundTrip(Fold(mac, key, Messages(worker.root, worker.chain)));
  }

  /** Exactly the specs within the parent's effective authority are accepted. */
  lemma MintsExactly(mac: Mac, key: Bytes, parent: TaskGrant, spec: CommissionSpec, catalog: ActionCatalog)
    ensures Objection(mac, key, parent, spec, catalog).None? <==>
            && Verifies(mac, key, parent)
            && (forall a :: a in spec.allowedActions ==> a !in catalog.nonDelegable && EffectivelyAllows(parent, a))
            && spec.expiresBefore <= parent.root.expiresAt
            && (forall c :: c in Caveats(parent.chain) && c.ExpiresBefore? ==> spec.expiresBefore <= c.at)
            && (forall p :: p in spec.boundParameters ==> Compatible(Caveats(parent.chain), p))
  {
    DelegableExactly(parent, catalog, spec.allowedActions);
    ConflictExactly(Caveats(parent.chain), spec.boundParameters);
  }

  /** The last caveat that binds `name` binds it to `value`. */
  ghost predicate LastBinds(cs: seq<Caveat>, name: string, value: string) {
    exists i :: 0 <= i < |cs| && cs[i] == BoundParameter(name, value) && UnboundFrom(cs, i + 1, name)
  }

  ghost predicate UnboundFrom(cs: seq<Caveat>, i: nat, name: string) {
    forall k :: i <= k < |cs| && cs[k].BoundParameter? ==> cs[k].name != name
  }

  /** The chain does not bind the parameter to another value, as far as its last binding goes. */
  ghost predicate Compatible(cs: seq<Caveat>, p: BoundParam) {
    forall value :: LastBinds(cs, p.name, value) ==> value == p.value
  }

  lemma {:induction false} BindingExactly(cs: seq<Caveat>, name: string, value: string)
    ensures Binding(cs, name) == Some(value) <==> LastBinds(cs, name, value)
    decreases |cs|
  {
    if cs != [] {
      var front, last := cs[..|cs| - 1], cs[|cs| - 1];
      BindingExactly(front, name, value);
      if last.BoundParameter? && last.name == name {
        assert UnboundFrom(cs, |cs|, name);
      } else {
        if LastBinds(front, name, value) {
          var i :| 0 <= i < |front| && front[i] == BoundParameter(name, value) && UnboundFrom(front, i + 1, name);
          assert cs[i] == front[i] && UnboundFrom(cs, i + 1, name);
        }
        if LastBinds(cs, name, value) {
          var i :| 0 <= i < |cs| && cs[i] == BoundParameter(name, value) && UnboundFrom(cs, i + 1, name);
          assert front[i] == cs[i] && UnboundFrom(front, i + 1, name);
        }
      }
    }
  }

  lemma CompatibleExactly(cs: seq<Caveat>, p: BoundParam)
    ensures Conflicts(cs, p) <==> !Compatible(cs, p)
  {
    forall value ensures Binding(cs, p.name) == Some(value) <==> LastBinds(cs, p.name, value) {
      BindingExactly(cs, p.name, value);
    }
    if Conflicts(cs, p) {
      assert LastBinds(cs, p.name, Binding(cs, p.name).value);
    }
  }

  ghost predicate Delegable(parent: TaskGrant, catalog: ActionCatalog, a: ActionId) {
    a !in catalog.nonDelegable && EffectivelyAllows(parent, a)
  }

  /** `a` is the first action of the list that may not be delegated. */
  ghost predicate FirstRefused(parent: TaskGrant, catalog: ActionCatalog, actions: seq<ActionId>, a: ActionId) {
    exists k :: 0 <= k < |actions| && actions[k] == a && !Delegable(parent, catalog, a)
             && forall b :: b in actions[..k] ==> Delegable(parent, catalog, b)
  }

  ghost predicate FirstContradicted(cs: seq<Caveat>, ps: seq<BoundParam>, name: string) {
    exists k :: 0 <= k < |ps| && ps[k].name == name && !Compatible(cs, ps[k])
             && forall p :: p in ps[..k] ==> Compatible(cs, p)
  }

  lemma {:induction false} RefusedExactly(parent: TaskGrant, catalog: ActionCatalog, actions: seq<ActionId>)
    ensures var r := FirstUndelegable(parent, catalog, actions);
            r.Some? ==> || (exists a :: r == Some(ActionNonDelegable(a)) && a in catalog.nonDelegable
                                     && FirstRefused(parent, catalog, actions, a))
                        || (exists a :: r == Some(ActionNotInParentAuthority(a)) && a !in catalog.nonDelegable
                                     && FirstRefused(parent, catalog, actions, a))
    decreases |actions|
  {
    if actions != [] {
      if Delegable(parent, catalog, actions[0]) {
        RefusedExactly(parent, catalog, actions[1..]);
        forall a | FirstRefused(parent, catalog, actions[1..], a) ensures FirstRefused(parent, catalog, actions, a) {
          var k :| 0 <= k < |actions| - 1 && actions[1..][k] == a
                   && forall b :: b in actions[1..][..k] ==> Delegable(parent, catalog, b);
          assert actions[..k + 1] == [actions[0]] + actions[1..][..k] && actions[k + 1] == a;
        }
      } else {
        assert actions[..0] == [];
        assert FirstRefused(parent, catalog, actions, actions[0]);
      }
    }
  }

  lemma {:induction false} ContradictedExactly(cs: seq<Caveat>, ps: seq<BoundParam>)
    ensures FirstConflict(cs, ps).Some? ==> FirstContradicted(cs, ps, FirstConflict(cs, ps).value)
    decreases |ps|
  {
    if ps != [] {
      CompatibleExactly(cs, ps[0]);
      if Conflicts(cs, ps[0]) {
        assert ps[..0] == [];
      } else if FirstConflict(cs, ps).Some? {
        ContradictedExactly(cs, ps[1..]);
        var name := FirstConflict(cs, ps).value;
        var k :| 0 <= k < |ps| - 1 && ps[1..][k].name == name && !Compatible(cs, ps[1..][k])
                 && forall p :: p in ps[1..][..k] ==> Compatible(cs, p);
        assert ps[..k + 1] == [ps[0]] + ps[1..][..k] && ps[k + 1] == ps[1..][k];
      }
    }
  }

  /** Which error: the parent's chain, then the first action that may not be delegated, with its
      own reason, then the expiry, then the first contradicted parameter. */
  lemma ErrorsInOrder(mac: Mac, key: Bytes, parent: TaskGrant, spec: CommissionSpec, catalog: ActionCatalog)
    requires Objection(mac, key, parent, spec, catalog).Some?
    ensures var delegable := forall a :: a in spec.allowedActions ==> Delegable(parent, catalog, a);
            match Objection(mac, key, parent, spec, catalog).value
            case ParentChainInvalid => !Verifies(mac, key, parent)
            case ActionNonDelegable(a) =>
              && Verifies(mac, key, parent) && a in catalog.nonDelegable
              && FirstRefused(parent, catalog, spec.allowedActions, a)
            case ActionNotInParentAuthority(a) =>
              && Verifies(mac, key, parent) && a !in catalog.nonDelegable
              && FirstRefused(parent, catalog, spec.allowedActions, a)
            case ExpiryWidens =>
              && Verifies(mac, key, parent) && delegable
              && (spec.expiresBefore > parent.root.expiresAt
                  || exists c :: c in Caveats(parent.chain) && c.ExpiresBefore? && spec.expiresBefore > c.at)
            case ParameterConflict(name) =>
              && Verifies(mac, key, parent) && delegable && spec.expiresBefore <= parent.root.expiresAt
              && (forall c :: c in Caveats(parent.chain) && c.ExpiresBefore? ==> spec.expiresBefore <= c.at)
              && FirstContradicted(Caveats(parent.chain), spec.boundParameters, name)
  {
    DelegableExactly(parent, catalog, spec.allowedActions);
    RefusedExactly(parent, catalog, spec.allowedActions);
    ContradictedExactly(Caveats(parent.chain), spec.boundParameters);
  }

  lemma {:induction false} DelegableExactly(parent: TaskGrant, catalog: ActionCatalog, actions: seq<ActionId>)
    ensures FirstUndelegable(parent, catalog, actions).None? <==>
            forall a :: a in actions ==> a !in catalog.nonDelegable && EffectivelyAllows(parent, a)
    decreases |actions|
  {
    if actions != [] {
      DelegableExactly(parent, catalog, actions[1..]);
      assert actions == [actions[0]] + actions[1..];
    }
  }

  lemma {:induction false} ConflictExactly(cs: seq<Caveat>, ps: seq<BoundParam>)
    ensures FirstConflict(cs, ps).None? <==> forall p :: p in ps ==> Compatible(cs, p)
    decreases |ps|
  {
    if ps != [] {
      CompatibleExactly(cs, ps[0]);
      ConflictExactly(cs, ps[1..]);
      assert ps == [ps[0]] + ps[1..];
    }
  }
}
