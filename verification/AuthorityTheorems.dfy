/** Compose, delegate, gate: what holds from the sources to the decision. */
module AuthorityTheorems {
  import opened Orders
  import opened CanonicalLists
  import opened ByteStrings
  import opened GrantChain
  import opened Gate
  import opened WorkerGrant
  import opened Delegation
  import opened Compose
  import opened ComposeTheorems

  /** The grant that is put to use: tokens bound, then sealed. */
  function SealedRoot(mac: Mac, key: Bytes, g: TaskGrant, tokens: seq<Ulid>): TaskGrant {
    SealRoot(mac, key, g.(selectionTokens := tokens))
  }

  /** What the gate will ask of the composed sources for a shell request. */
  ghost predicate Authorized(i: AuthorityInput, since: int, tokens: seq<Ulid>, req: ActionRequest, ctx: Context,
                             catalog: ActionCatalog, now: int)
  {
    && now < since + RuntimeSeconds(i) * NANOS_PER_SECOND
    && req.action in catalog.ids && req.action in catalog.egress
    && EgressCovered(i, catalog.egress[req.action])
    && (req.action in catalog.tokenRequiring ==>
         TokenBound(i, tokens, req, catalog.tokenRequiring[req.action], ctx, now))
    && !DenyListed(i, req.action)
    && (if ApprovalListed(i, req.action) then ApprovedNow(req, ctx, now) else AllowedOutright(i, req.action))
  }

  ghost predicate EgressCovered(i: AuthorityInput, decl: EgressDeclaration) {
    && (decl.egressClass.Some? ==> decl.egressClass.value in i.pack.egressClasses)
    && (decl.outputChannels.Some? ==>
          && decl.outputChannels.value != []
          && forall ch :: ch in decl.outputChannels.value ==> ch in i.agent.outputChannels)
  }

  ghost predicate TokenBound(i: AuthorityInput, tokens: seq<Ulid>, req: ActionRequest, kind: string, ctx: Context,
                             now: int) {
    exists id :: req.selectionTokenId == Some(id) && id in tokens && id in ctx.tokens
              && ctx.tokens[id] == SelectionToken(kind, i.principal, ctx.tokens[id].expiresAt)
              && now < ctx.tokens[id].expiresAt
  }

  lemma RootInForce(i: AuthorityInput, since: int, id: Ulid, token: string, g: TaskGrant, tokens: seq<Ulid>,
                    key: Bytes, ctx: Context, now: int)
    requires ComposedGrant(i, since, id, token, g) && id != NIL && ctx.key == Some(key)
    ensures InForce(SealedRoot(ctx.mac, key, g, tokens), ctx, now) <==>
            now < since + RuntimeSeconds(i) * NANOS_PER_SECOND
    ensures Caveats(SealedRoot(ctx.mac, key, g, tokens).chain) == []
  {
    SealedRootVerifies(ctx.mac, key, g.(selectionTokens := tokens));
  }

  lemma RootContained(i: AuthorityInput, sealed: TaskGrant, req: ActionRequest, catalog: ActionCatalog)
    requires Caveats(sealed.chain) == [] && sealed.root.allowedEgressClasses == i.pack.egressClasses
    requires Elements(sealed.root.outputChannels) == Elements(i.agent.outputChannels)
    ensures Contained(sealed, req, catalog) <==>
            req.action in catalog.ids && req.action in catalog.egress && EgressCovered(i, catalog.egress[req.action])
  {
    forall ch ensures EffectivelyAllowsChannel(sealed, ch) <==> ch in i.agent.outputChannels {
      assert ch in Elements(sealed.root.outputChannels) <==> ch in Elements(i.agent.outputChannels);
    }
  }

  lemma RootGranted(i: AuthorityInput, sealed: TaskGrant, req: ActionRequest, ctx: Context, catalog: ActionCatalog,
                    now: int)
    requires Caveats(sealed.chain) == [] && ComposedLists(i, sealed.root) && sealed.root.user == i.principal
    ensures Granted(sealed, req, ctx, catalog, now) <==>
            && (req.action in catalog.tokenRequiring ==>
                  TokenBound(i, sealed.selectionTokens, req, catalog.tokenRequiring[req.action], ctx, now))
            && !DenyListed(i, req.action)
            && (if ApprovalListed(i, req.action) then ApprovedNow(req, ctx, now) else AllowedOutright(i, req.action))
  {
    if req.action in catalog.tokenRequiring {
      var kind := catalog.tokenRequiring[req.action];
      assert HoldsToken(sealed, req, kind, ctx, now) <==> TokenBound(i, sealed.selectionTokens, req, kind, ctx, now);
    }
  }

  /** Compose to gate, end to end: exactly when a shell request on a sealed composed root is
      allowed, in terms of the sources alone. */
  lemma ComposedAllowExactly(i: AuthorityInput, since: int, id: Ulid, token: string, g: TaskGrant, tokens: seq<Ulid>,
                             key: Bytes,
                             req: ActionRequest, ctx: Context, catalog: ActionCatalog, now: int)
    requires ComposedGrant(i, since, id, token, g) && id != NIL && ctx.key == Some(key)
    ensures Decide(SealedRoot(ctx.mac, key, g, tokens), req, Shell, ctx, catalog, now).Allow?
       <==> Authorized(i, since, tokens, req, ctx, catalog, now)
  {
    var sealed := SealedRoot(ctx.mac, key, g, tokens);
    AllowExactly(sealed, req, Shell, ctx, catalog, now);
    RootInForce(i, since, id, token, g, tokens, key, ctx, now);
    RootContained(i, sealed, req, catalog);
    RootGranted(i, sealed, req, ctx, catalog, now);
  }

  // -------- more denials, less authority --------

  ghost predicate Wider(small: seq<ActionId>, large: seq<ActionId>) { forall a :: a in small ==> a in large }

  /** The same sources, except that deny lists may have gained ids. */
  ghost predicate DeniesMore(i: AuthorityInput, i': AuthorityInput) {
    && i' == i.(agent := i.agent.(lists := i.agent.lists.(deny := i'.agent.lists.deny)),
                workflow := i.workflow.(lists := i.workflow.lists.(deny := i'.workflow.lists.deny)),
                pack := i.pack.(lists := i.pack.lists.(deny := i'.pack.lists.deny)),
                globalPolicy := i.globalPolicy.(lists := i.globalPolicy.lists.(deny := i'.globalPolicy.lists.deny)),
                session := i.session.(deny := i'.session.deny))
    && Wider(i.agent.lists.deny, i'.agent.lists.deny) && Wider(i.workflow.lists.deny, i'.workflow.lists.deny)
    && Wider(i.pack.lists.deny, i'.pack.lists.deny) && Wider(i.globalPolicy.lists.deny, i'.globalPolicy.lists.deny)
    && Wider(i.session.deny, i'.session.deny)
  }

  /** Denying more never creates an Allow: what is allowed on the root composed with the longer
      deny lists is allowed on the root that the shorter ones compose, which then exists. */
  lemma DenyingMoreNeverAllows(i: AuthorityInput, i': AuthorityInput, universe: ActionCatalog, since: int,
                               id: Ulid, id': Ulid, token: string, token': string, o: Outcome, o': Outcome,
                               tokens: seq<Ulid>, key: Bytes,
                               req: ActionRequest, ctx: Context, catalog: ActionCatalog, now: int)
    requires DeniesMore(i, i') && ctx.key == Some(key) && id != NIL && id' != NIL
    requires Composes(i, universe, since, id, token, o) && Composes(i', universe, since, id', token', o')
    requires o'.Composed? && Decide(SealedRoot(ctx.mac, key, o'.grant, tokens), req, Shell, ctx, catalog, now).Allow?
    ensures o.Composed? && Decide(SealedRoot(ctx.mac, key, o.grant, tokens), req, Shell, ctx, catalog, now).Allow?
  {
    ComposesExactly(i, universe, since, id, token, o);
    ComposesExactly(i', universe, since, id', token', o');
    DenyingMoreStillComposes(i, i', universe);
    ComposedAllowExactly(i', since, id', token', o'.grant, tokens, key, req, ctx, catalog, now);
    AuthorizedBackwards(i, i', since, tokens, req, ctx, catalog, now);
    ComposedAllowExactly(i, since, id, token, o.grant, tokens, key, req, ctx, catalog, now);
  }

  lemma AuthorizedBackwards(i: AuthorityInput, i': AuthorityInput, since: int, tokens: seq<Ulid>, req: ActionRequest,
                            ctx: Context,
                            catalog: ActionCatalog, now: int)
    requires DeniesMore(i, i') && Authorized(i', since, tokens, req, ctx, catalog, now)
    ensures Authorized(i, since, tokens, req, ctx, catalog, now)
  {
    if req.action in catalog.tokenRequiring {
      var kind := catalog.tokenRequiring[req.action];
      assert TokenBound(i', tokens, req, kind, ctx, now);
      assert TokenBound(i, tokens, req, kind, ctx, now);
    }
  }

  /** Denying more ids changes whether a grant is composed exactly if one of them is unknown. */
  lemma DenyingMoreStillComposes(i: AuthorityInput, i': AuthorityInput, catalog: ActionCatalog)
    requires DeniesMore(i, i')
    ensures Composable(i', catalog) <==> Composable(i, catalog) && forall a :: DenyListed(i', a) ==> a in catalog.ids
  {
    CataloguedExactly(i, catalog);
    CataloguedExactly(i', catalog);
  }

  // -------- across all three --------

  /** From composition through any number of mints to the gate: what a shell gets under a
      descendant is something the sources allow outright, and its master could do it too. */
  lemma DescendantsStayWithinComposition(i: AuthorityInput, since: int, id: Ulid, token: string, g: TaskGrant,
                                         tokens: seq<Ulid>, key: Bytes,
                                         gs: seq<TaskGrant>, cs: seq<Commission>, j: nat,
                                         req: ActionRequest, ctx: Context, catalog: ActionCatalog, now: int)
    requires ComposedGrant(i, since, id, token, g) && id != NIL && ctx.key == Some(key)
    requires Lineage(ctx.mac, key, gs, cs) && gs[0] == SealedRoot(ctx.mac, key, g, tokens) && 0 < j < |gs|
    requires Decide(gs[j], req, Shell, ctx, catalog, now).Allow?
    ensures AllowedOutright(i, req.action) && Authorized(i, since, tokens, req, ctx, catalog, now)
  {
    DelegationIsMonotone(key, gs, cs, 0, j, req, Shell, ctx, catalog, now);
    ComposedAllowExactly(i, since, id, token, g, tokens, key, req, ctx, catalog, now);
    WorkersAreConfined(key, gs, cs, 0, j, req, ctx, catalog, now);
    assert gs[0].root.allowedActions == g.root.allowedActions;
  }

  /** The exact authority of any descendant of a composed root, in terms of the sources and the
      commissions alone. */
  lemma DescendantAllowExactly(i: AuthorityInput, since: int, id: Ulid, token: string, g: TaskGrant, tokens: seq<Ulid>,
                               key: Bytes, gs: seq<TaskGrant>, cs: seq<Commission>, j: nat,
                               req: ActionRequest, ctx: Context, catalog: ActionCatalog, now: int)
    requires ComposedGrant(i, since, id, token, g) && id != NIL && ctx.key == Some(key)
    requires Lineage(ctx.mac, key, gs, cs) && gs[0] == SealedRoot(ctx.mac, key, g, tokens) && j < |gs|
    ensures Decide(gs[j], req, Shell, ctx, catalog, now).Allow? <==>
            && Authorized(i, since, tokens, req, ctx, catalog, now)
            && HopsAllow(cs, j, req, Shell, catalog, now)
  {
    LineageAllowExactly(key, gs, cs, j, req, Shell, ctx, catalog, now);
    ComposedAllowExactly(i, since, id, token, g, tokens, key, req, ctx, catalog, now);
  }
}
