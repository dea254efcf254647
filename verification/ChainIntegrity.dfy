/** The chain's tip covers everything the gate relies on. */
module ChainIntegrity {
  import opened Orders
  import opened ByteStrings
  import opened GrantChain
  import opened Gate
  import opened Delegation

  /** No two of the hash calls made to verify the two message lists collide. */
  ghost predicate NoCollision(mac: Mac, key: Bytes, ms: seq<Message>, ms': seq<Message>) {
    forall i, j :: 0 <= i < |ms| && 0 <= j < |ms'| ==> NoCollisionAt(mac, key, ms, ms', i, j)
  }

  ghost predicate NoCollisionAt(mac: Mac, key: Bytes, ms: seq<Message>, ms': seq<Message>, i: nat, j: nat)
    requires i < |ms| && j < |ms'|
  {
    var k, k' := Fold(mac, key, ms[..i]), Fold(mac, key, ms'[..j]);
    mac(k, ms[i]) == mac(k', ms'[j]) ==> k == k' && ms[i] == ms'[j]
  }

  ghost predicate Rooted(ms: seq<Message>) {
    ms != [] && ms[0].RootMessage? && forall i :: 1 <= i < |ms| ==> !ms[i].RootMessage?
  }

  lemma FoldLast(mac: Mac, key: Bytes, ms: seq<Message>, n: nat)
    requires 1 <= n <= |ms|
    ensures Fold(mac, key, ms[..n]) == mac(Fold(mac, key, ms[..n - 1]), ms[n - 1])
  {
    assert ms[..n][..n - 1] == ms[..n - 1];
  }

  /** Equal tips come from equal message lists. */
  lemma {:induction false} FoldInjective(mac: Mac, key: Bytes, ms: seq<Message>, ms': seq<Message>, a: nat, b: nat)
    requires 1 <= a <= |ms| && 1 <= b <= |ms'| && Rooted(ms) && Rooted(ms') && NoCollision(mac, key, ms, ms')
    requires Fold(mac, key, ms[..a]) == Fold(mac, key, ms'[..b])
    ensures ms[..a] == ms'[..b]
    decreases a
  {
    FoldLast(mac, key, ms, a);
    FoldLast(mac, key, ms', b);
    assert NoCollisionAt(mac, key, ms, ms', a - 1, b - 1);
    assert ms[a - 1] == ms'[b - 1];
    if a > 1 && b > 1 {
      FoldInjective(mac, key, ms, ms', a - 1, b - 1);
      assert ms[..a] == ms[..a - 1] + [ms[a - 1]] && ms'[..b] == ms'[..b - 1] + [ms'[b - 1]];
    } else {
      assert a == 1 && b == 1;
    }
  }

  lemma SameHexSameTip(a: Bytes, b: Bytes)
    requires EncodeHex(a) == EncodeHex(b)
    ensures a == b
  {
    HexRoundTrip(a);
    HexRoundTrip(b);
  }

  lemma SameMessages(mac: Mac, key: Bytes, g: TaskGrant, g': TaskGrant)
    requires Verifies(mac, key, g) && Verifies(mac, key, g') && g.caveatMac == g'.caveatMac
    requires NoCollision(mac, key, Messages(g.root, g.chain), Messages(g'.root, g'.chain))
    ensures Messages(g.root, g.chain) == Messages(g'.root, g'.chain)
  {
    var ms, ms' := Messages(g.root, g.chain), Messages(g'.root, g'.chain);
    MessagesNonEmpty(g.root, g.chain);
    MessagesNonEmpty(g'.root, g'.chain);
    SameHexSameTip(Fold(mac, key, ms), Fold(mac, key, ms'));
    assert ms[..|ms|] == ms && ms'[..|ms'|] == ms';
    FoldInjective(mac, key, ms, ms', |ms|, |ms'|);
  }

  // -------- reading authority back from the messages --------

  lemma {:induction false} CaveatsFromMessages(r: RootAuthority, chain: seq<ChainStep>, k: Caveat)
    ensures CaveatMessage(k) in Messages(r, chain) <==> exists c :: c in Caveats(chain) && CanonicalCaveat(c) == k
    decreases |chain|
  {
    if chain != [] {
      var front, last := chain[..|chain| - 1], chain[|chain| - 1];
      CaveatsFromMessages(r, front, k);
      StepCaveats(last, k);
      assert CaveatMessage(k) in Messages(r, chain) <==>
             CaveatMessage(k) in Messages(r, front) || CaveatMessage(k) in StepMessages(last);
    }
  }

  lemma StepCaveats(s: ChainStep, k: Caveat)
    ensures CaveatMessage(k) in StepMessages(s) <==> exists c :: c in s.addedCaveats && CanonicalCaveat(c) == k
  {
    var ms := CaveatMessages(s.addedCaveats);
    assert CaveatMessage(k) in StepMessages(s) <==> CaveatMessage(k) in ms;
    if CaveatMessage(k) in ms {
      MessageOrigin(s.addedCaveats, k);
    }
    if c :| c in s.addedCaveats && CanonicalCaveat(c) == k {
      MessageOf(s.addedCaveats, c);
    }
  }

  lemma MessageOrigin(cs: seq<Caveat>, k: Caveat)
    requires CaveatMessage(k) in CaveatMessages(cs)
    ensures exists c :: c in cs && CanonicalCaveat(c) == k
  {
    var i :| 0 <= i < |cs| && CaveatMessages(cs)[i] == CaveatMessage(k);
    assert cs[i] in cs && CanonicalCaveat(cs[i]) == k;
  }

  lemma MessageOf(cs: seq<Caveat>, c: Caveat)
    requires c in cs
    ensures CaveatMessage(CanonicalCaveat(c)) in CaveatMessages(cs)
  {
    var i :| 0 <= i < |cs| && cs[i] == c;
    assert CaveatMessages(cs)[i] == CaveatMessage(CanonicalCaveat(c));
  }

  /** The caveats of a chain with list order forgotten. */
  ghost function Canonicals(chain: seq<ChainStep>): set<Caveat> {
    set c | c in Caveats(chain) :: CanonicalCaveat(c)
  }

  lemma SameCaveats(r: RootAuthority, chain: seq<ChainStep>, r': RootAuthority, chain': seq<ChainStep>)
    requires Messages(r, chain) == Messages(r', chain')
    ensures Canonicals(chain) == Canonicals(chain')
  {
    forall k ensures k in Canonicals(chain) <==> k in Canonicals(chain') {
      CaveatsFromMessages(r, chain, k);
      CaveatsFromMessages(r', chain', k);
    }
  }

  lemma ListsAgree(a: seq<string>, b: seq<string>)
    requires Sort(StringLeq, a) == Sort(StringLeq, b)
    ensures Elements(a) == Elements(b)
  {
    SortElements(StringLeq, a);
    SortElements(StringLeq, b);
  }

  /** Counterparts have the same scalars and list the same members. */
  ghost predicate SameContent(c: Caveat, d: Caveat) {
    match c
    case ActionAllowlist(actions) => d.ActionAllowlist? && Elements(actions) == Elements(d.actions)
    case OutputChannelAllowlist(channels) => d.OutputChannelAllowlist? && Elements(channels) == Elements(d.channels)
    case EgressClassAllowlist(classes) => d.EgressClassAllowlist? && Elements(classes) == Elements(d.classes)
    case ProvenanceLabelAllowlist(origins) => d.ProvenanceLabelAllowlist? && Elements(origins) == Elements(d.origins)
    case _ => c == d
  }

  lemma CanonicalContent(c: Caveat, d: Caveat)
    requires CanonicalCaveat(c) == CanonicalCaveat(d)
    ensures SameContent(c, d)
  {
    match c
    case ActionAllowlist(actions) => ListsAgree(actions, d.actions);
    case OutputChannelAllowlist(channels) => ListsAgree(channels, d.channels);
    case EgressClassAllowlist(classes) => ListsAgree(classes, d.classes);
    case ProvenanceLabelAllowlist(origins) => ListsAgree(origins, d.origins);
    case _ =>
  }

  /** Every caveat of one chain has a counterpart in the other. */
  lemma Counterpart(chain: seq<ChainStep>, chain': seq<ChainStep>, c: Caveat) returns (d: Caveat)
    requires Canonicals(chain) == Canonicals(chain') && c in Caveats(chain)
    ensures d in Caveats(chain') && SameContent(c, d)
  {
    assert CanonicalCaveat(c) in Canonicals(chain');
    d :| d in Caveats(chain') && CanonicalCaveat(d) == CanonicalCaveat(c);
    CanonicalContent(c, d);
  }

  // -------- whatever one chain lets through, its counterpart lets through --------

  lemma ActionPassesToo(chain: seq<ChainStep>, chain': seq<ChainStep>, a: ActionId)
    requires Canonicals(chain) == Canonicals(chain') && ActionPasses(chain', a)
    ensures ActionPasses(chain, a)
  {
    forall c | c in Caveats(chain) && c.ActionAllowlist? ensures a in c.actions {
      var d := Counterpart(chain, chain', c);
      assert a in Elements(d.actions);
    }
  }

  lemma EgressToo(chain: seq<ChainStep>, chain': seq<ChainStep>, x: string)
    requires Canonicals(chain) == Canonicals(chain')
    requires forall d :: d in Caveats(chain') && d.EgressClassAllowlist? ==> x in d.classes
    ensures forall c :: c in Caveats(chain) && c.EgressClassAllowlist? ==> x in c.classes
  {
    forall c | c in Caveats(chain) && c.EgressClassAllowlist? ensures x in c.classes {
      var d := Counterpart(chain, chain', c);
      assert x in Elements(d.classes);
    }
  }

  lemma ChannelsToo(chain: seq<ChainStep>, chain': seq<ChainStep>, x: string)
    requires Canonicals(chain) == Canonicals(chain')
    requires forall d :: d in Caveats(chain') && d.OutputChannelAllowlist? ==> x in d.channels
    ensures forall c :: c in Caveats(chain) && c.OutputChannelAllowlist? ==> x in c.channels
  {
    forall c | c in Caveats(chain) && c.OutputChannelAllowlist? ensures x in c.channels {
      var d := Counterpart(chain, chain', c);
      assert x in Elements(d.channels);
    }
  }

  predicate Scalar(c: Caveat) { c.BoundParameter? || c.ExpiresBefore? || c.ModelTier? }

  /** Scalar caveats are the same in both. */
  lemma ScalarsAgree(chain: seq<ChainStep>, chain': seq<ChainStep>, c: Caveat)
    requires Canonicals(chain) == Canonicals(chain') && Scalar(c)
    ensures c in Caveats(chain) <==> c in Caveats(chain')
  {
    if c in Caveats(chain) { var d := Counterpart(chain, chain', c); }
    if c in Caveats(chain') { var d := Counterpart(chain', chain, c); }
  }

  /** What the gate reads of a grant, compared with list order forgotten. */
  ghost predicate SameRoot(r: RootAuthority, r': RootAuthority) {
    && r.expiresAt == r'.expiresAt && r.user == r'.user
    && Elements(r.allowedActions) == Elements(r'.allowedActions)
    && Elements(r.approvalRequiredActions) == Elements(r'.approvalRequiredActions)
    && Elements(r.deniedActions) == Elements(r'.deniedActions)
    && Elements(r.allowedEgressClasses) == Elements(r'.allowedEgressClasses)
    && Elements(r.outputChannels) == Elements(r'.outputChannels)
  }

  lemma RootsAgree(r: RootAuthority, r': RootAuthority)
    requires CanonicalRoot(r) == CanonicalRoot(r')
    ensures SameRoot(r, r')
  {
    ListsAgree(r.allowedActions, r'.allowedActions);
    ListsAgree(r.approvalRequiredActions, r'.approvalRequiredActions);
    ListsAgree(r.deniedActions, r'.deniedActions);
    ListsAgree(r.allowedEgressClasses, r'.allowedEgressClasses);
    ListsAgree(r.outputChannels, r'.outputChannels);
  }

  ghost predicate SameView(g: TaskGrant, g': TaskGrant) {
    && SameRoot(g.root, g'.root) && g.id == g'.id && g.mode == g'.mode
    && Elements(g.selectionTokens) == Elements(g'.selectionTokens)
    && Canonicals(g.chain) == Canonicals(g'.chain)
  }

  lemma MembersAgree<T(!new)>(a: seq<T>, b: seq<T>)
    requires Elements(a) == Elements(b)
    ensures forall x :: x in a <==> x in b
  {
    forall x ensures x in a <==> x in b {
      assert x in Elements(a) <==> x in Elements(b);
    }
  }

  lemma AuthorityAgrees(g: TaskGrant, g': TaskGrant, x: string)
    requires SameView(g, g')
    ensures EffectivelyAllows(g, x) <==> EffectivelyAllows(g', x)
    ensures EffectivelyApprovalRequired(g, x) <==> EffectivelyApprovalRequired(g', x)
  {
    MembersAgree(g.root.allowedActions, g'.root.allowedActions);
    MembersAgree(g.root.approvalRequiredActions, g'.root.approvalRequiredActions);
    if ActionPasses(g'.chain, x) { ActionPassesToo(g.chain, g'.chain, x); }
    if ActionPasses(g.chain, x) { ActionPassesToo(g'.chain, g.chain, x); }
  }

  lemma EgressAgrees(g: TaskGrant, g': TaskGrant, x: string)
    requires SameView(g, g')
    ensures EffectivelyAllowsEgress(g, x) <==> EffectivelyAllowsEgress(g', x)
  {
    MembersAgree(g.root.allowedEgressClasses, g'.root.allowedEgressClasses);
    if EffectivelyAllowsEgress(g', x) { EgressToo(g.chain, g'.chain, x); }
    if EffectivelyAllowsEgress(g, x) { EgressToo(g'.chain, g.chain, x); }
  }

  lemma ChannelsAgree(g: TaskGrant, g': TaskGrant, x: string)
    requires SameView(g, g')
    ensures EffectivelyAllowsChannel(g, x) <==> EffectivelyAllowsChannel(g', x)
  {
    MembersAgree(g.root.outputChannels, g'.root.outputChannels);
    if EffectivelyAllowsChannel(g', x) { ChannelsToo(g.chain, g'.chain, x); }
    if EffectivelyAllowsChannel(g, x) { ChannelsToo(g'.chain, g.chain, x); }
  }

  lemma EgressDenialAgrees(g: TaskGrant, g': TaskGrant, a: ActionId, catalog: ActionCatalog)
    requires SameView(g, g')
    ensures EgressDenial(g, a, catalog) == EgressDenial(g', a, catalog)
  {
    forall x: string
      ensures EffectivelyAllowsEgress(g, x) <==> EffectivelyAllowsEgress(g', x)
      ensures EffectivelyAllowsChannel(g, x) <==> EffectivelyAllowsChannel(g', x)
    {
      EgressAgrees(g, g', x);
      ChannelsAgree(g, g', x);
    }
  }

  /** The checks that read only scalar caveats. */
  lemma ScalarChecks(cs: seq<Caveat>, cs': seq<Caveat>, g: TaskGrant, g': TaskGrant, req: ActionRequest, now: int)
    requires cs == Caveats(g.chain) && cs' == Caveats(g'.chain) && g.root.expiresAt == g'.root.expiresAt
    requires forall c :: Scalar(c) ==> (c in cs <==> c in cs')
    ensures BindingsAgree(cs) <==> BindingsAgree(cs')
    ensures BindingsMet(g, req) <==> BindingsMet(g', req)
    ensures IsExpired(g, now) <==> IsExpired(g', now)
    ensures HasUnsupportedCaveats(g) <==> HasUnsupportedCaveats(g')
  {
    assert forall c: Caveat :: c.BoundParameter? || c.ExpiresBefore? || c.ModelTier? ==> Scalar(c);
  }

  lemma ScalarChecksAgree(g: TaskGrant, g': TaskGrant, req: ActionRequest, now: int)
    requires SameView(g, g')
    ensures BindingsAgree(Caveats(g.chain)) <==> BindingsAgree(Caveats(g'.chain))
    ensures BindingsMet(g, req) <==> BindingsMet(g', req)
    ensures IsExpired(g, now) <==> IsExpired(g', now)
    ensures HasUnsupportedCaveats(g) <==> HasUnsupportedCaveats(g')
  {
    forall c | Scalar(c) ensures c in Caveats(g.chain) <==> c in Caveats(g'.chain) {
      ScalarsAgree(g.chain, g'.chain, c);
    }
    ScalarChecks(Caveats(g.chain), Caveats(g'.chain), g, g', req, now);
  }

  lemma TokenAgrees(g: TaskGrant, g': TaskGrant, req: ActionRequest, kind: string, ctx: Context, now: int)
    requires SameView(g, g')
    ensures ValidateSelectionToken(g, req, kind, ctx, now) == ValidateSelectionToken(g', req, kind, ctx, now)
  {
    MembersAgree(g.selectionTokens, g'.selectionTokens);
  }

  lemma SameViewSameFindings(g: TaskGrant, g': TaskGrant, req: ActionRequest, ctx: Context, catalog: ActionCatalog,
                             now: int)
    requires SameView(g, g') && (ChainValid(g, ctx) <==> ChainValid(g', ctx))
    ensures Examine(g, req, ctx, catalog, now) == Examine(g', req, ctx, catalog, now)
  {
    ScalarChecksAgree(g, g', req, now);
    EgressDenialAgrees(g, g', req.action, catalog);
    AuthorityAgrees(g, g', req.action);
    MembersAgree(g.root.deniedActions, g'.root.deniedActions);
    if req.action in catalog.tokenRequiring {
      TokenAgrees(g, g', req, catalog.tokenRequiring[req.action], ctx, now);
    }
  }

  lemma VerifiedView(mac: Mac, key: Bytes, g: TaskGrant, g': TaskGrant)
    requires Verifies(mac, key, g) && Verifies(mac, key, g')
    requires Messages(g.root, g.chain) == Messages(g'.root, g'.chain)
    ensures SameView(g, g')
  {
    SameCaveats(g.root, g.chain, g'.root, g'.chain);
    MessagesNonEmpty(g.root, g.chain);
    MessagesNonEmpty(g'.root, g'.chain);
    RootsAgree(g.root, g'.root);
    LastBind(g.root, g.chain);
    LastBind(g'.root, g'.chain);
    SameTokens(g);
    SameTokens(g');
    SortElements(UlidLeq, g.chain[|g.chain| - 1].selectionTokens);
    SortElements(UlidLeq, g'.chain[|g'.chain| - 1].selectionTokens);
  }

  lemma LastBind(r: RootAuthority, chain: seq<ChainStep>)
    requires chain != []
    ensures Messages(r, chain) != [] && Messages(r, chain)[|Messages(r, chain)| - 1] == StepBind(chain[|chain| - 1])
  {
  }

  /** The same root authority: every single field equal, every list equal up to order. */
  ghost predicate SameAuthority(r: RootAuthority, r': RootAuthority) {
    && r.rootGrantId == r'.rootGrantId && r.expiresAt == r'.expiresAt && r.limits == r'.limits && r.user == r'.user
    && r.purpose == r'.purpose && r.eventId == r'.eventId && r.routeId == r'.routeId && r.agentId == r'.agentId
    && r.workflowId == r'.workflowId && r.capabilityPackId == r'.capabilityPackId && r.threadId == r'.threadId
    && multiset(r.allowedActions) == multiset(r'.allowedActions)
    && multiset(r.approvalRequiredActions) == multiset(r'.approvalRequiredActions)
    && multiset(r.deniedActions) == multiset(r'.deniedActions)
    && multiset(r.allowedEgressClasses) == multiset(r'.allowedEgressClasses)
    && multiset(r.outputChannels) == multiset(r'.outputChannels)
  }

  lemma SortedExactly(a: seq<string>, b: seq<string>)
    ensures Sort(StringLeq, a) == Sort(StringLeq, b) <==> multiset(a) == multiset(b)
  {
    if multiset(a) == multiset(b) {
      StringOrder();
      SortCanonical(StringLeq, a, b);
    }
  }

  /** What a root's message covers: all of its fields, and nothing of the order of its lists. */
  lemma RootCoveredExactly(r: RootAuthority, r': RootAuthority)
    ensures RootMessage(CanonicalRoot(r)) == RootMessage(CanonicalRoot(r')) <==> SameAuthority(r, r')
  {
    SortedExactly(r.allowedActions, r'.allowedActions);
    SortedExactly(r.approvalRequiredActions, r'.approvalRequiredActions);
    SortedExactly(r.deniedActions, r'.deniedActions);
    SortedExactly(r.allowedEgressClasses, r'.allowedEgressClasses);
    SortedExactly(r.outputChannels, r'.outputChannels);
  }

  ghost predicate SameTerms(c: Caveat, d: Caveat) {
    match c
    case ActionAllowlist(actions) => d.ActionAllowlist? && multiset(actions) == multiset(d.actions)
    case OutputChannelAllowlist(channels) => d.OutputChannelAllowlist? && multiset(channels) == multiset(d.channels)
    case EgressClassAllowlist(classes) => d.EgressClassAllowlist? && multiset(classes) == multiset(d.classes)
    case ProvenanceLabelAllowlist(origins) => d.ProvenanceLabelAllowlist? && multiset(origins) == multiset(d.origins)
    case _ => d == c
  }

  /** What a caveat's message covers: its kind and all of its terms, up to order. */
  lemma CaveatCoveredExactly(c: Caveat, d: Caveat)
    ensures CaveatMessage(CanonicalCaveat(c)) == CaveatMessage(CanonicalCaveat(d)) <==> SameTerms(c, d)
  {
    match (c, d)
    case (ActionAllowlist(x), ActionAllowlist(y)) => SortedExactly(x, y);
    case (OutputChannelAllowlist(x), OutputChannelAllowlist(y)) => SortedExactly(x, y);
    case (EgressClassAllowlist(x), EgressClassAllowlist(y)) => SortedExactly(x, y);
    case (ProvenanceLabelAllowlist(x), ProvenanceLabelAllowlist(y)) => SortedExactly(x, y);
    case _ =>
  }

  /** What a hop's binding covers: its ids, its mode and its tokens up to order. */
  lemma StepCoveredExactly(s: ChainStep, s': ChainStep)
    ensures StepBind(s) == StepBind(s') <==>
            && s.grantId == s'.grantId && s.parentGrantId == s'.parentGrantId && s.mode == s'.mode
            && multiset(s.selectionTokens) == multiset(s'.selectionTokens)
  {
    if multiset(s.selectionTokens) == multiset(s'.selectionTokens) {
      SortCanonical(UlidLeq, s.selectionTokens, s'.selectionTokens);
    }
  }

  /** Integrity: two grants that verify with the same tip get the same answer to every
      request, so no unauthenticated difference between them can matter to the gate. */
  lemma TipFixesDecision(key: Bytes, g: TaskGrant, g': TaskGrant, req: ActionRequest, origin: ActionOrigin,
                         ctx: Context, catalog: ActionCatalog, now: int)
    requires ctx.key == Some(key) && Verifies(ctx.mac, key, g) && Verifies(ctx.mac, key, g')
    requires g.caveatMac == g'.caveatMac
    requires NoCollision(ctx.mac, key, Messages(g.root, g.chain), Messages(g'.root, g'.chain))
    ensures Decide(g, req, origin, ctx, catalog, now) == Decide(g', req, origin, ctx, catalog, now)
    ensures g.id == g'.id && g.parentGrantId == g'.parentGrantId && SameAuthority(g.root, g'.root)
  {
    RootCoveredExactly(g.root, g'.root);
    LastBind(g.root, g.chain);
    LastBind(g'.root, g'.chain);
    SameMessages(ctx.mac, key, g, g');
    VerifiedView(ctx.mac, key, g, g');
    MessagesNonEmpty(g.root, g.chain);
    MessagesNonEmpty(g'.root, g'.chain);
    ScalarChecksAgree(g, g', req, now);
    SameViewSameFindings(g, g', req, ctx, catalog, now);
  }
}
