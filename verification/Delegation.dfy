/** What holds across minting and the gate, for chains of any depth. */
module Delegation {
  import opened Orders
  import opened ByteStrings
  import opened GrantChain
  import opened Gate
  import opened WorkerGrant

  // -------- chains only attenuate --------

  /** `anc` is an earlier point of the chain that ends in `desc`. */
  ghost predicate Ancestor(anc: TaskGrant, desc: TaskGrant) {
    anc.root == desc.root && |anc.chain| <= |desc.chain| && desc.chain[..|anc.chain|] == anc.chain
  }

  lemma {:induction false} CaveatsOnlyGrow(chain: seq<ChainStep>, n: nat)
    requires n <= |chain|
    ensures Caveats(chain[..n]) <= Caveats(chain)
    decreases |chain|
  {
    if n == |chain| {
      assert chain[..n] == chain;
    } else {
      var front := chain[..|chain| - 1];
      assert front[..n] == chain[..n];
      CaveatsOnlyGrow(front, n);
    }
  }

  lemma {:induction false} TokensOnlyShrink(chain: seq<ChainStep>, i: nat, j: nat)
    requires HopsLinked(chain) && i <= j < |chain|
    ensures Elements(chain[j].selectionTokens) <= Elements(chain[i].selectionTokens)
    decreases j - i
  {
    if i < j {
      assert LinkValid(chain[j - 1], chain[j]);
      TokensOnlyShrink(chain, i, j - 1);
    }
  }

  lemma SameTokens(g: TaskGrant)
    requires StructurallyValid(g)
    ensures Elements(g.selectionTokens) == Elements(g.chain[|g.chain| - 1].selectionTokens)
  {
    SortElements(UlidLeq, g.selectionTokens);
    SortElements(UlidLeq, g.chain[|g.chain| - 1].selectionTokens);
  }

  lemma SortElements<T(!new)>(leq: (T, T) -> bool, s: seq<T>)
    ensures Elements(Sort(leq, s)) == Elements(s)
  {
    forall x ensures x in Sort(leq, s) <==> x in s {
      assert x in Sort(leq, s) <==> x in multiset(Sort(leq, s));
      assert x in s <==> x in multiset(s);
    }
  }

  lemma AncestorCaveats(anc: TaskGrant, desc: TaskGrant)
    requires Ancestor(anc, desc)
    ensures forall c :: c in Caveats(anc.chain) ==> c in Caveats(desc.chain)
  {
    CaveatsOnlyGrow(desc.chain, |anc.chain|);
  }

  lemma AncestorTokens(anc: TaskGrant, desc: TaskGrant)
    requires Ancestor(anc, desc) && anc.chain != [] && HopsLinked(desc.chain)
    requires Elements(anc.selectionTokens) == Elements(anc.chain[|anc.chain| - 1].selectionTokens)
    requires Elements(desc.selectionTokens) == Elements(desc.chain[|desc.chain| - 1].selectionTokens)
    ensures Elements(desc.selectionTokens) <= Elements(anc.selectionTokens)
  {
    LastTokens(anc.chain, desc.chain);
  }

  lemma LastTokens(short: seq<ChainStep>, long: seq<ChainStep>)
    requires 0 < |short| <= |long| && long[..|short|] == short && HopsLinked(long)
    ensures Elements(long[|long| - 1].selectionTokens) <= Elements(short[|short| - 1].selectionTokens)
  {
    assert short[|short| - 1] == long[|short| - 1];
    TokensOnlyShrink(long, |short| - 1, |long| - 1);
  }

  lemma LastMode(short: seq<ChainStep>, long: seq<ChainStep>)
    requires 0 < |short| <= |long| && long[..|short|] == short && ShadowStays(long)
    ensures long[|long| - 1].mode == Live ==> short[|short| - 1].mode == Live
  {
    assert short[|short| - 1] == long[|short| - 1];
  }

  lemma InForceBackwards(anc: TaskGrant, desc: TaskGrant, ctx: Context, now: int)
    requires Ancestor(anc, desc) && InForce(desc, ctx, now)
    requires Verifies(ctx.mac, ctx.key.value, anc)
    ensures InForce(anc, ctx, now)
  {
    AncestorCaveats(anc, desc);
    LastMode(anc.chain, desc.chain);
  }

  lemma ContainedBackwards(anc: TaskGrant, desc: TaskGrant, req: ActionRequest, catalog: ActionCatalog)
    requires anc.root == desc.root && forall c :: c in Caveats(anc.chain) ==> c in Caveats(desc.chain)
    requires Contained(desc, req, catalog)
    ensures Contained(anc, req, catalog)
  {
  }

  lemma GrantedBackwards(anc: TaskGrant, desc: TaskGrant, req: ActionRequest, ctx: Context, catalog: ActionCatalog,
                         now: int)
    requires anc.root == desc.root && forall c :: c in Caveats(anc.chain) ==> c in Caveats(desc.chain)
    requires Elements(desc.selectionTokens) <= Elements(anc.selectionTokens)
    requires Granted(desc, req, ctx, catalog, now)
    ensures Granted(anc, req, ctx, catalog, now)
  {
  }

  /** Attenuation is monotone: whatever the gate allows at a later point of a verified chain
      it allows at every earlier verified point, for every request and both origins. */
  lemma AllowIsMonotone(anc: TaskGrant, desc: TaskGrant, req: ActionRequest, origin: ActionOrigin, ctx: Context,
                        catalog: ActionCatalog, now: int)
    requires Ancestor(anc, desc) && ctx.key.Some? && Verifies(ctx.mac, ctx.key.value, anc)
    requires Decide(desc, req, origin, ctx, catalog, now).Allow?
    ensures Decide(anc, req, origin, ctx, catalog, now).Allow?
  {
    AllowExactly(desc, req, origin, ctx, catalog, now);
    AllowExactly(anc, req, origin, ctx, catalog, now);
    InForceBackwards(anc, desc, ctx, now);
    AncestorCaveats(anc, desc);
    ContainedBackwards(anc, desc, req, catalog);
    if origin == Shell {
      SameTokens(anc);
      SameTokens(desc);
      AncestorTokens(anc, desc);
      GrantedBackwards(anc, desc, req, ctx, catalog, now);
    }
  }

  // -------- lineages of minted grants --------

  datatype Commission = Commission(spec: CommissionSpec, catalog: ActionCatalog, drawn: Fresh)

  ghost predicate Mints(mac: Mac, key: Bytes, parent: TaskGrant, c: Commission, child: TaskGrant) {
    && Objection(mac, key, parent, c.spec, c.catalog).None?
    && child == Worker(mac, key, parent, c.spec, c.drawn)
  }

  ghost predicate MintedAt(mac: Mac, key: Bytes, gs: seq<TaskGrant>, cs: seq<Commission>, i: nat)
    requires |gs| == |cs| + 1 && i < |cs|
  {
    Mints(mac, key, gs[i], cs[i], gs[i + 1])
  }

  /** Each grant was minted from the one before it. */
  ghost predicate Lineage(mac: Mac, key: Bytes, gs: seq<TaskGrant>, cs: seq<Commission>) {
    && |gs| == |cs| + 1 && Verifies(mac, key, gs[0])
    && forall i :: 0 <= i < |cs| ==> MintedAt(mac, key, gs, cs, i)
  }

  /** Every grant of a lineage verifies. */
  lemma {:induction false} LineageVerifies(mac: Mac, key: Bytes, gs: seq<TaskGrant>, cs: seq<Commission>, j: nat)
    requires Lineage(mac, key, gs, cs) && j < |gs|
    ensures Verifies(mac, key, gs[j])
    decreases j
  {
    if j > 0 {
      LineageVerifies(mac, key, gs, cs, j - 1);
      assert MintedAt(mac, key, gs, cs, j - 1);
      WorkerVerifies(mac, key, gs[j - 1], cs[j - 1].spec, cs[j - 1].drawn);
    }
  }

  /** What a lineage means for the chains alone. */
  ghost predicate Hop(parent: TaskGrant, c: Commission, child: TaskGrant) {
    && child.root == parent.root && child.selectionTokens == []
    && child.chain == parent.chain + [WorkerStep(parent, c.spec, c.drawn.id)]
  }

  ghost predicate Descent(gs: seq<TaskGrant>, cs: seq<Commission>) {
    |gs| == |cs| + 1 && forall i, j :: 0 <= i < |cs| && j == i + 1 ==> Hop(gs[i], cs[i], gs[j])
  }

  lemma LineageDescends(mac: Mac, key: Bytes, gs: seq<TaskGrant>, cs: seq<Commission>)
    requires Lineage(mac, key, gs, cs)
    ensures Descent(gs, cs)
  {
    forall i, j | 0 <= i < |cs| && j == i + 1 ensures Hop(gs[i], cs[i], gs[j]) {
      assert MintedAt(mac, key, gs, cs, i);
    }
  }

  lemma AncestorStep(anc: TaskGrant, parent: TaskGrant, c: Commission, child: TaskGrant)
    requires Ancestor(anc, parent) && Hop(parent, c, child)
    ensures Ancestor(anc, child)
  {
    assert child.chain[..|anc.chain|] == parent.chain[..|anc.chain|];
  }

  /** Each grant of a lineage is an ancestor of all later ones. */
  lemma {:induction false} DescentAncestors(gs: seq<TaskGrant>, cs: seq<Commission>, i: nat, j: nat)
    requires Descent(gs, cs) && i <= j < |gs|
    ensures Ancestor(gs[i], gs[j])
    decreases j
  {
    if i == j {
      assert gs[i].chain[..|gs[i].chain|] == gs[i].chain;
    } else {
      DescentAncestors(gs, cs, i, j - 1);
      assert Hop(gs[j - 1], cs[j - 1], gs[j]);
      AncestorStep(gs[i], gs[j - 1], cs[j - 1], gs[j]);
    }
  }

  /** Delegation is monotone at any depth. */
  lemma DelegationIsMonotone(key: Bytes, gs: seq<TaskGrant>, cs: seq<Commission>, i: nat, j: nat,
                             req: ActionRequest, origin: ActionOrigin, ctx: Context, catalog: ActionCatalog, now: int)
    requires ctx.key == Some(key) && Lineage(ctx.mac, key, gs, cs) && i <= j < |gs|
    requires Decide(gs[j], req, origin, ctx, catalog, now).Allow?
    ensures Decide(gs[i], req, origin, ctx, catalog, now).Allow?
  {
    LineageDescends(ctx.mac, key, gs, cs);
    DescentAncestors(gs, cs, i, j);
    LineageVerifies(ctx.mac, key, gs, cs, i);
    AllowIsMonotone(gs[i], gs[j], req, origin, ctx, catalog, now);
  }

  /** The caveats of hop `i` bind every later grant. */
  lemma HopBinds(gs: seq<TaskGrant>, cs: seq<Commission>, i: nat, j: nat)
    requires Descent(gs, cs) && i < j < |gs|
    ensures forall c :: c in WorkerCaveats(cs[i].spec) ==> c in Caveats(gs[j].chain)
    ensures gs[j].selectionTokens == []
  {
    assert Hop(gs[i], cs[i], gs[i + 1]);
    CaveatsSnoc(gs[i].chain, WorkerStep(gs[i], cs[i].spec, cs[i].drawn.id));
    DescentAncestors(gs, cs, i + 1, j);
    AncestorCaveats(gs[i + 1], gs[j]);
    assert Hop(gs[j - 1], cs[j - 1], gs[j]);
  }

  lemma WorkerCaveatsNamed(spec: CommissionSpec, p: BoundParam)
    ensures ActionAllowlist(spec.allowedActions) in WorkerCaveats(spec)
    ensures ExpiresBefore(spec.expiresBefore) in WorkerCaveats(spec)
    ensures OutputChannelAllowlist([]) in WorkerCaveats(spec)
    ensures EgressClassAllowlist([]) in WorkerCaveats(spec)
    ensures ProvenanceLabelAllowlist([]) in WorkerCaveats(spec)
    ensures p in spec.boundParameters ==> BoundParameter(p.name, p.value) in WorkerCaveats(spec)
  {
    if p in spec.boundParameters {
      var k :| 0 <= k < |spec.boundParameters| && spec.boundParameters[k] == p;
      assert WorkerCaveats(spec)[k + 1] == BoundParameter(p.name, p.value);
    }
    var n := |spec.boundParameters|;
    assert WorkerCaveats(spec)[0] == ActionAllowlist(spec.allowedActions);
    assert WorkerCaveats(spec)[n + 1..] == ClosingCaveats(spec);
  }

  lemma SomeChannelFails(g: TaskGrant, channels: seq<string>)
    requires OutputChannelAllowlist([]) in Caveats(g.chain) && channels != []
    ensures exists ch :: ch in channels && !EffectivelyAllowsChannel(g, ch)
  {
    assert channels[0] in channels && !EffectivelyAllowsChannel(g, channels[0]);
  }

  lemma NoEgressUnderWorkerCaveats(g: TaskGrant, req: ActionRequest, catalog: ActionCatalog)
    requires OutputChannelAllowlist([]) in Caveats(g.chain) && EgressClassAllowlist([]) in Caveats(g.chain)
    requires Contained(g, req, catalog)
    ensures catalog.egress[req.action] == EgressDeclaration(None, None)
  {
    var decl := catalog.egress[req.action];
    assert decl.egressClass == None;
    if decl.outputChannels.Some? {
      SomeChannelFails(g, decl.outputChannels.value);
    }
  }

  /** Direct egress is impossible for a worker: no descendant is ever allowed an action that
      declares an egress class or an output channel, whoever asks, and no origin passes. */
  lemma WorkersCannotEgress(key: Bytes, gs: seq<TaskGrant>, cs: seq<Commission>, j: nat,
                            req: ActionRequest, origin: ActionOrigin, ctx: Context, catalog: ActionCatalog, now: int)
    requires ctx.key == Some(key) && Lineage(ctx.mac, key, gs, cs) && 0 < j < |gs|
    requires Decide(gs[j], req, origin, ctx, catalog, now).Allow?
    ensures req.action in catalog.egress && catalog.egress[req.action] == EgressDeclaration(None, None)
    ensures forall o :: !EffectivelyAllowsOrigin(gs[j], o)
  {
    AllowExactly(gs[j], req, origin, ctx, catalog, now);
    LineageDescends(ctx.mac, key, gs, cs);
    HopBinds(gs, cs, 0, j);
    WorkerCaveatsNamed(cs[0].spec, BoundParam("", ""));
    NoEgressUnderWorkerCaveats(gs[j], req, catalog);
  }

  lemma ConfinedByHop(g: TaskGrant, spec: CommissionSpec, req: ActionRequest, ctx: Context, catalog: ActionCatalog,
                      now: int)
    requires forall c :: c in WorkerCaveats(spec) ==> c in Caveats(g.chain)
    requires InForce(g, ctx, now) && Contained(g, req, catalog) && Granted(g, req, ctx, catalog, now)
    ensures req.action in spec.allowedActions && req.action !in g.root.deniedActions && now < spec.expiresBefore
    ensures forall p :: p in spec.boundParameters ==> p.name in req.params && req.params[p.name] == p.value
  {
    WorkerCaveatsNamed(spec, BoundParam("", ""));
    forall p | p in spec.boundParameters ensures p.name in req.params && req.params[p.name] == p.value {
      WorkerCaveatsNamed(spec, p);
      assert BoundParameter(p.name, p.value) in Caveats(g.chain);
    }
  }

  lemma CommissionedWithin(mac: Mac, key: Bytes, parent: TaskGrant, c: Commission, child: TaskGrant, a: ActionId)
    requires Mints(mac, key, parent, c, child) && a in c.spec.allowedActions
    ensures a !in c.catalog.nonDelegable && a in parent.root.allowedActions
  {
    MintsExactly(mac, key, parent, c.spec, c.catalog);
  }

  lemma CommissionedAt(mac: Mac, key: Bytes, gs: seq<TaskGrant>, cs: seq<Commission>, i: nat, a: ActionId)
    requires Lineage(mac, key, gs, cs) && i < |cs| && a in cs[i].spec.allowedActions
    ensures a !in cs[i].catalog.nonDelegable && a in gs[i].root.allowedActions
  {
    assert MintedAt(mac, key, gs, cs, i);
    CommissionedWithin(mac, key, gs[i], cs[i], gs[i + 1], a);
  }

  /** From the shell a worker gets only what every hop above it was commissioned for, in time,
      with its bound parameters, never a non-delegable action nor one needing a token. */
  lemma WorkersAreConfined(key: Bytes, gs: seq<TaskGrant>, cs: seq<Commission>, i: nat, j: nat,
                           req: ActionRequest, ctx: Context, catalog: ActionCatalog, now: int)
    requires ctx.key == Some(key) && Lineage(ctx.mac, key, gs, cs) && i < j < |gs|
    requires Decide(gs[j], req, Shell, ctx, catalog, now).Allow?
    ensures req.action in cs[i].spec.allowedActions && req.action !in cs[i].catalog.nonDelegable
    ensures req.action in gs[0].root.allowedActions && req.action !in gs[0].root.deniedActions
    ensures now < cs[i].spec.expiresBefore
    ensures forall p :: p in cs[i].spec.boundParameters ==> p.name in req.params && req.params[p.name] == p.value
    ensures req.action !in catalog.tokenRequiring
  {
    AllowExactly(gs[j], req, Shell, ctx, catalog, now);
    LineageDescends(ctx.mac, key, gs, cs);
    DescentAncestors(gs, cs, 0, i);
    DescentAncestors(gs, cs, 0, j);
    HopBinds(gs, cs, i, j);
    ConfinedByHop(gs[j], cs[i].spec, req, ctx, catalog, now);
    CommissionedAt(ctx.mac, key, gs, cs, i, req.action);
  }

  // -------- the exact authority of a worker --------

  /** What one commission asks of a request, whatever its parent is allowed. */
  ghost predicate HopAllows(spec: CommissionSpec, req: ActionRequest, origin: ActionOrigin, catalog: ActionCatalog,
                            now: int)
  {
    && now < spec.expiresBefore
    && (forall p :: p in spec.boundParameters ==> p.name in req.params && req.params[p.name] == p.value)
    && req.action in catalog.egress && catalog.egress[req.action] == EgressDeclaration(None, None)
    && (origin == Shell ==> req.action in spec.allowedActions && req.action !in catalog.tokenRequiring)
  }

  /** A caveat of the new hop is one of those it was commissioned with. */
  lemma WorkerCaveatKinds(spec: CommissionSpec, c: Caveat)
    requires c in WorkerCaveats(spec)
    ensures || c == ActionAllowlist(spec.allowedActions)
            || (c.BoundParameter? && BoundParam(c.name, c.value) in spec.boundParameters)
            || c in ClosingCaveats(spec)
  {
    var k :| 0 <= k < |WorkerCaveats(spec)| && WorkerCaveats(spec)[k] == c;
    var n := |spec.boundParameters|;
    if 1 <= k <= n {
      assert spec.boundParameters[k - 1] in spec.boundParameters;
    } else if k > n {
      assert ClosingCaveats(spec)[k - n - 1] == c;
    }
  }

  lemma ChildCaveats(parent: TaskGrant, c: Commission, child: TaskGrant)
    requires Hop(parent, c, child)
    ensures Caveats(child.chain) == Caveats(parent.chain) + WorkerCaveats(c.spec)
  {
    CaveatsSnoc(parent.chain, WorkerStep(parent, c.spec, c.drawn.id));
  }

  /** The request meets the new hop's bindings, and with them all bindings agree. */
  lemma ChildBindings(parent: TaskGrant, c: Commission, child: TaskGrant, req: ActionRequest)
    requires Hop(parent, c, child) && BindingsMet(parent, req)
    requires forall p :: p in c.spec.boundParameters ==> p.name in req.params && req.params[p.name] == p.value
    ensures BindingsMet(child, req) && BindingsAgree(Caveats(child.chain))
  {
    ChildCaveats(parent, c, child);
    forall x | x in Caveats(child.chain) && x.BoundParameter?
      ensures x.name in req.params && req.params[x.name] == x.value
    {
      if x !in Caveats(parent.chain) {
        WorkerCaveatKinds(c.spec, x);
        assert BoundParam(x.name, x.value) in c.spec.boundParameters;
      }
    }
  }

  lemma ChildInForce(parent: TaskGrant, c: Commission, child: TaskGrant, req: ActionRequest, ctx: Context, now: int)
    requires Hop(parent, c, child) && InForce(parent, ctx, now) && Verifies(ctx.mac, ctx.key.value, child)
    requires child.mode == parent.mode && now < c.spec.expiresBefore && BindingsAgree(Caveats(child.chain))
    ensures InForce(child, ctx, now)
  {
    ChildCaveats(parent, c, child);
    forall x | x in Caveats(child.chain) ensures !x.ModelTier? && (x.ExpiresBefore? ==> now < x.at) {
      if x !in Caveats(parent.chain) {
        WorkerCaveatKinds(c.spec, x);
      }
    }
  }

  lemma ChildPasses(parent: TaskGrant, c: Commission, child: TaskGrant, a: ActionId)
    requires Hop(parent, c, child) && ActionPasses(parent.chain, a) && a in c.spec.allowedActions
    ensures ActionPasses(child.chain, a)
  {
    ChildCaveats(parent, c, child);
    forall x | x in Caveats(child.chain) && x.ActionAllowlist? ensures a in x.actions {
      if x !in Caveats(parent.chain) {
        WorkerCaveatKinds(c.spec, x);
      }
    }
  }

  /** A request that the parent is allowed and the commission admits is allowed for the child. */
  lemma ChildAllowed(key: Bytes, parent: TaskGrant, c: Commission, child: TaskGrant,
                     req: ActionRequest, origin: ActionOrigin, ctx: Context, catalog: ActionCatalog, now: int)
    requires ctx.key == Some(key) && Verifies(ctx.mac, key, child) && Hop(parent, c, child) && child.mode == parent.mode
    requires Decide(parent, req, origin, ctx, catalog, now).Allow? && HopAllows(c.spec, req, origin, catalog, now)
    ensures Decide(child, req, origin, ctx, catalog, now).Allow?
  {
    AllowExactly(parent, req, origin, ctx, catalog, now);
    AllowExactly(child, req, origin, ctx, catalog, now);
    ChildBindings(parent, c, child, req);
    ChildInForce(parent, c, child, req, ctx, now);
    if origin == Shell {
      ChildPasses(parent, c, child, req.action);
    }
  }

  /** What the child is allowed, its commission admits. */
  lemma ChildObeys(parent: TaskGrant, c: Commission, child: TaskGrant,
                   req: ActionRequest, origin: ActionOrigin, ctx: Context, catalog: ActionCatalog, now: int)
    requires Hop(parent, c, child) && InForce(child, ctx, now) && Contained(child, req, catalog)
    requires origin == Shell ==> Granted(child, req, ctx, catalog, now)
    ensures HopAllows(c.spec, req, origin, catalog, now)
  {
    ChildCaveats(parent, c, child);
    WorkerCaveatsNamed(c.spec, BoundParam("", ""));
    NoEgressUnderWorkerCaveats(child, req, catalog);
    forall p | p in c.spec.boundParameters ensures p.name in req.params && req.params[p.name] == p.value {
      WorkerCaveatsNamed(c.spec, p);
      assert BoundParameter(p.name, p.value) in Caveats(child.chain);
    }
  }

  /** The exact authority of a worker: a request is allowed for it, from either origin, if and
      only if it is allowed for its parent and the commission admits it. */
  lemma WorkerAllowExactly(key: Bytes, parent: TaskGrant, c: Commission, child: TaskGrant,
                           req: ActionRequest, origin: ActionOrigin, ctx: Context, catalog: ActionCatalog, now: int)
    requires ctx.key == Some(key) && Verifies(ctx.mac, key, parent) && Mints(ctx.mac, key, parent, c, child)
    ensures Decide(child, req, origin, ctx, catalog, now).Allow? <==>
            Decide(parent, req, origin, ctx, catalog, now).Allow? && HopAllows(c.spec, req, origin, catalog, now)
  {
    WorkerVerifies(ctx.mac, key, parent, c.spec, c.drawn);
    assert Hop(parent, c, child);
    assert parent.chain[..|parent.chain|] == parent.chain;
    AncestorStep(parent, parent, c, child);
    if Decide(child, req, origin, ctx, catalog, now).Allow? {
      AllowIsMonotone(parent, child, req, origin, ctx, catalog, now);
      AllowExactly(child, req, origin, ctx, catalog, now);
      ChildObeys(parent, c, child, req, origin, ctx, catalog, now);
    } else if Decide(parent, req, origin, ctx, catalog, now).Allow? && HopAllows(c.spec, req, origin, catalog, now) {
      ChildAllowed(key, parent, c, child, req, origin, ctx, catalog, now);
    }
  }

  lemma LineageStep(key: Bytes, gs: seq<TaskGrant>, cs: seq<Commission>, j: nat,
                    req: ActionRequest, origin: ActionOrigin, ctx: Context, catalog: ActionCatalog, now: int)
    requires ctx.key == Some(key) && Lineage(ctx.mac, key, gs, cs) && 0 < j < |gs|
    ensures Decide(gs[j], req, origin, ctx, catalog, now).Allow? <==>
            && Decide(gs[j - 1], req, origin, ctx, catalog, now).Allow?
            && HopAllows(cs[j - 1].spec, req, origin, catalog, now)
  {
    LineageVerifies(ctx.mac, key, gs, cs, j - 1);
    var parent, c, child := gs[j - 1], cs[j - 1], gs[j];
    assert MintedAt(ctx.mac, key, gs, cs, j - 1);
    WorkerAllowExactly(key, parent, c, child, req, origin, ctx, catalog, now);
  }

  ghost predicate HopsAllow(cs: seq<Commission>, j: nat, req: ActionRequest, origin: ActionOrigin,
                            catalog: ActionCatalog, now: int)
    requires j <= |cs|
  {
    forall i :: 0 <= i < j ==> HopAllows(cs[i].spec, req, origin, catalog, now)
  }

  /** Grant `i + 1` of a lineage: it holds there exactly if it holds of grant `i` and the hop admits it. */
  ghost predicate PassedOn(holds: TaskGrant -> bool, admits: Commission -> bool, gs: seq<TaskGrant>,
                           cs: seq<Commission>, i: nat)
    requires i < |cs| && |gs| == |cs| + 1
  {
    holds(gs[i + 1]) <==> holds(gs[i]) && admits(cs[i])
  }

  lemma {:induction false} InheritedFromRoot(holds: TaskGrant -> bool, admits: Commission -> bool,
                                             gs: seq<TaskGrant>, cs: seq<Commission>, j: nat)
    requires j < |gs| == |cs| + 1 && forall i :: 0 <= i < j ==> PassedOn(holds, admits, gs, cs, i)
    ensures holds(gs[j]) <==> holds(gs[0]) && forall i :: 0 <= i < j ==> admits(cs[i])
    decreases j
  {
    if j > 0 {
      InheritedFromRoot(holds, admits, gs, cs, j - 1);
      assert PassedOn(holds, admits, gs, cs, j - 1);
    }
  }

  function AllowedFor(req: ActionRequest, origin: ActionOrigin, ctx: Context, catalog: ActionCatalog,
                      now: int): TaskGrant -> bool
  {
    (g: TaskGrant) => Decide(g, req, origin, ctx, catalog, now).Allow?
  }

  ghost function AdmittedBy(req: ActionRequest, origin: ActionOrigin, catalog: ActionCatalog,
                            now: int): Commission -> bool
  {
    (c: Commission) => HopAllows(c.spec, req, origin, catalog, now)
  }

  lemma AllowIsPassedOn(key: Bytes, gs: seq<TaskGrant>, cs: seq<Commission>, i: nat,
                        req: ActionRequest, origin: ActionOrigin, ctx: Context, catalog: ActionCatalog, now: int)
    requires ctx.key == Some(key) && Lineage(ctx.mac, key, gs, cs) && i < |cs|
    ensures PassedOn(AllowedFor(req, origin, ctx, catalog, now), AdmittedBy(req, origin, catalog, now), gs, cs, i)
  {
    LineageStep(key, gs, cs, i + 1, req, origin, ctx, catalog, now);
  }

  /** At any depth: allowed if and only if the root is allowed it and every hop admits it. */
  lemma LineageAllowExactly(key: Bytes, gs: seq<TaskGrant>, cs: seq<Commission>, j: nat,
                            req: ActionRequest, origin: ActionOrigin, ctx: Context, catalog: ActionCatalog, now: int)
    requires ctx.key == Some(key) && Lineage(ctx.mac, key, gs, cs) && j < |gs|
    ensures Decide(gs[j], req, origin, ctx, catalog, now).Allow? <==>
            && Decide(gs[0], req, origin, ctx, catalog, now).Allow?
            && HopsAllow(cs, j, req, origin, catalog, now)
  {
    var holds, admits := AllowedFor(req, origin, ctx, catalog, now), AdmittedBy(req, origin, catalog, now);
    forall i | 0 <= i < j ensures PassedOn(holds, admits, gs, cs, i) {
      AllowIsPassedOn(key, gs, cs, i, req, origin, ctx, catalog, now);
    }
    InheritedFromRoot(holds, admits, gs, cs, j);
  }
}
