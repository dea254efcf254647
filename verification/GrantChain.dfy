/** Task grants and their authenticated chain of attenuations. */
module GrantChain {
  import opened Orders
  import opened ByteStrings

  type ActionId = string
  type Ulid = nat
  const NIL: Ulid := 0

  /** The 32 bytes a keyed hash yields. */
  type Tip = b: Bytes | |b| == 32 witness seq(32, _ => 0)

  datatype GrantMode = Live | Shadow

  datatype GrantLimits = GrantLimits(maxModelCalls: nat, maxArtifacts: nat, maxRuntimeSeconds: nat)

  datatype Caveat =
    | ActionAllowlist(actions: seq<ActionId>)
    | BoundParameter(name: string, value: string)
    | ExpiresBefore(at: int)
    | ModelTier(maxTier: string)
    | OutputChannelAllowlist(channels: seq<string>)
    | EgressClassAllowlist(classes: seq<string>)
    | ProvenanceLabelAllowlist(origins: seq<string>)

  datatype ChainStep = ChainStep(grantId: Ulid, parentGrantId: Option<Ulid>, mode: GrantMode,
                                 selectionTokens: seq<Ulid>, addedCaveats: seq<Caveat>)

  /** What every hop of a chain shares; authenticated as the chain's base. */
  datatype RootAuthority = RootAuthority(
    rootGrantId: Ulid, expiresAt: int,
    allowedActions: seq<ActionId>, approvalRequiredActions: seq<ActionId>, deniedActions: seq<ActionId>,
    allowedEgressClasses: seq<string>, outputChannels: seq<string>, limits: GrantLimits,
    user: Ulid, purpose: string, eventId: Ulid, routeId: string, agentId: string, workflowId: string,
    capabilityPackId: string, threadId: Option<string>)

  /** `root` gathers the fields that are copied unchanged from the root grant to every
      descendant; the others belong to this grant alone. */
  datatype TaskGrant = TaskGrant(
    id: Ulid, issuedBy: string, issuedAt: int, root: RootAuthority, selectionTokens: seq<Ulid>,
    taskToken: string, parentGrantId: Option<Ulid>, mode: GrantMode, chain: seq<ChainStep>, caveatMac: Bytes)

  // -------- what is authenticated --------

  predicate UlidLeq(a: Ulid, b: Ulid) { a <= b }

  function CanonicalRoot(r: RootAuthority): RootAuthority {
    r.(allowedActions := Sort(StringLeq, r.allowedActions),
       approvalRequiredActions := Sort(StringLeq, r.approvalRequiredActions),
       deniedActions := Sort(StringLeq, r.deniedActions),
       allowedEgressClasses := Sort(StringLeq, r.allowedEgressClasses),
       outputChannels := Sort(StringLeq, r.outputChannels))
  }

  function CanonicalCaveat(c: Caveat): Caveat {
    match c
    case ActionAllowlist(actions) => ActionAllowlist(Sort(StringLeq, actions))
    case OutputChannelAllowlist(channels) => OutputChannelAllowlist(Sort(StringLeq, channels))
    case EgressClassAllowlist(classes) => EgressClassAllowlist(Sort(StringLeq, classes))
    case ProvenanceLabelAllowlist(origins) => ProvenanceLabelAllowlist(Sort(StringLeq, origins))
    case _ => c
  }

  /** The canonical JSON messages; the three shapes have different keys. */
  datatype Message =
    | RootMessage(root: RootAuthority)
    | CaveatMessage(caveat: Caveat)
    | StepMessage(grantId: Ulid, parentGrantId: Option<Ulid>, mode: GrantMode, tokens: seq<Ulid>)

  type Mac = (Bytes, Message) -> Tip

  function StepBind(s: ChainStep): Message {
    StepMessage(s.grantId, s.parentGrantId, s.mode, Sort(UlidLeq, s.selectionTokens))
  }

  function CaveatMessages(cs: seq<Caveat>): seq<Message> {
    seq(|cs|, i requires 0 <= i < |cs| => CaveatMessage(CanonicalCaveat(cs[i])))
  }

  /** The messages of one hop: its caveats, then its binding. */
  function StepMessages(s: ChainStep): seq<Message> { CaveatMessages(s.addedCaveats) + [StepBind(s)] }

  function Messages(r: RootAuthority, chain: seq<ChainStep>): seq<Message>
    decreases |chain|
  {
    if chain == [] then [RootMessage(CanonicalRoot(r))]
    else Messages(r, chain[..|chain| - 1]) + StepMessages(chain[|chain| - 1])
  }

  /** Each message is hashed under the tip before it. */
  function Fold(mac: Mac, start: Bytes, ms: seq<Message>): Bytes
    ensures ms != [] ==> |Fold(mac, start, ms)| == 32
    decreases |ms|
  {
    if ms == [] then start else mac(Fold(mac, start, ms[..|ms| - 1]), ms[|ms| - 1])
  }

  function MacHex(mac: Mac, key: Bytes, r: RootAuthority, chain: seq<ChainStep>): Bytes {
    if chain == [] then [] else EncodeHex(Fold(mac, key, Messages(r, chain)))
  }

  // -------- the chain's shape --------

  predicate LinkValid(prev: ChainStep, step: ChainStep) {
    && step.parentGrantId == Some(prev.grantId)
    && Elements(step.selectionTokens) <= Elements(prev.selectionTokens)
  }

  predicate HopsLinked(chain: seq<ChainStep>) {
    forall i, j :: 0 <= i < |chain| && 0 <= j < |chain| && j == i + 1 ==> LinkValid(chain[i], chain[j])
  }

  /** No live hop after a shadow one. */
  predicate ShadowStays(chain: seq<ChainStep>) {
    forall i, j :: 0 <= i < j < |chain| && chain[i].mode == Shadow ==> chain[j].mode == Shadow
  }

  predicate ChainShape(rootGrantId: Ulid, chain: seq<ChainStep>) {
    && rootGrantId != NIL && chain != []
    && chain[0].grantId == rootGrantId && chain[0].parentGrantId.None?
    && HopsLinked(chain) && ShadowStays(chain)
  }

  predicate StructurallyValid(g: TaskGrant) {
    && ChainShape(g.root.rootGrantId, g.chain)
    && var last := g.chain[|g.chain| - 1];
      && last.grantId == g.id && last.parentGrantId == g.parentGrantId && last.mode == g.mode
      && Sort(UlidLeq, last.selectionTokens) == Sort(UlidLeq, g.selectionTokens)
  }

  /** The checks on one grant, hop by hop. */
  method CheckStructure(g: TaskGrant) returns (ok: bool)
    ensures ok == StructurallyValid(g)
  {
    if g.root.rootGrantId == NIL || g.chain == [] { return false; }
    var first := g.chain[0];
    if first.grantId != g.root.rootGrantId || first.parentGrantId != None { return false; }
    var hops := CheckHops(g.chain);
    if !hops { return false; }
    var last := g.chain[|g.chain| - 1];
    if last.grantId != g.id || last.parentGrantId != g.parentGrantId || last.mode != g.mode { return false; }
    return Sort(UlidLeq, last.selectionTokens) == Sort(UlidLeq, g.selectionTokens);
  }

  method CheckHops(chain: seq<ChainStep>) returns (ok: bool)
    requires chain != []
    ensures ok == (HopsLinked(chain) && ShadowStays(chain))
  {
    var effectiveTokens := Elements(chain[0].selectionTokens);
    var shadowSeen := chain[0].mode == Shadow;
    var i := 1;
    while i < |chain|
      invariant 1 <= i <= |chain|
      invariant HopsLinked(chain[..i]) && ShadowStays(chain[..i])
      invariant shadowSeen <==> chain[i - 1].mode == Shadow
      invariant effectiveTokens == Elements(chain[i - 1].selectionTokens)
    {
      var step := chain[i];
      ExtendHops(chain, i);
      if step.parentGrantId != Some(chain[i - 1].grantId) { return false; }
      var next := Elements(step.selectionTokens);
      if !(next <= effectiveTokens) { return false; }
      effectiveTokens := next;
      if shadowSeen && step.mode == Live { return false; }
      shadowSeen := shadowSeen || step.mode == Shadow;
      i := i + 1;
    }
    assert chain[..i] == chain;
    return true;
  }

  /** One more hop: what must hold of it, and what fails for the chain otherwise. */
  lemma ExtendHops(chain: seq<ChainStep>, i: nat)
    requires 1 <= i < |chain| && HopsLinked(chain[..i]) && ShadowStays(chain[..i])
    ensures HopsLinked(chain[..i + 1]) <==> LinkValid(chain[i - 1], chain[i])
    ensures ShadowStays(chain[..i + 1]) <==> (chain[i - 1].mode == Shadow ==> chain[i].mode == Shadow)
    ensures HopsLinked(chain) ==> LinkValid(chain[i - 1], chain[i])
    ensures ShadowStays(chain) ==> (chain[i - 1].mode == Shadow ==> chain[i].mode == Shadow)
  {
    var part, more := chain[..i], chain[..i + 1];
    assert more[i - 1] == chain[i - 1] && more[i] == chain[i];
    if LinkValid(chain[i - 1], chain[i]) {
      forall j, k | 0 <= j && k == j + 1 && k < |more| ensures LinkValid(more[j], more[k]) {
        if k < i { assert LinkValid(part[j], part[k]); }
      }
    }
    if chain[i - 1].mode == Shadow ==> chain[i].mode == Shadow {
      forall j, k | 0 <= j < k < |more| && more[j].mode == Shadow ensures more[k].mode == Shadow {
        assert part[j] == more[j];
        if k < i { assert part[k] == more[k]; }
        else if j < i - 1 { assert part[i - 1].mode == Shadow; }
      }
    }
  }

  /** Refold the chain and compare. */
  predicate Verifies(mac: Mac, key: Bytes, g: TaskGrant) {
    g.caveatMac != [] && StructurallyValid(g) && MacHex(mac, key, g.root, g.chain) == g.caveatMac
  }

  /** Seal a root once its authority is final. */
  function SealRoot(mac: Mac, key: Bytes, g: TaskGrant): TaskGrant {
    var root := if g.root.rootGrantId == NIL then g.root.(rootGrantId := g.id) else g.root;
    var chain := [ChainStep(g.id, None, g.mode, g.selectionTokens, [])];
    g.(root := root, parentGrantId := None, chain := chain, caveatMac := MacHex(mac, key, root, chain))
  }

  /** Extend a parent's tip by one hop, without the key. */
  function SealChild(mac: Mac, parentMac: Bytes, step: ChainStep): Option<Bytes> {
    match DecodeHex(parentMac)
    case None => None
    case Some(tip) => Some(EncodeHex(Fold(mac, tip, StepMessages(step))))
  }

  // -------- effective authority --------

  function Caveats(chain: seq<ChainStep>): seq<Caveat>
    decreases |chain|
  {
    if chain == [] then [] else Caveats(chain[..|chain| - 1]) + chain[|chain| - 1].addedCaveats
  }

  predicate ActionPasses(chain: seq<ChainStep>, a: ActionId) {
    forall c :: c in Caveats(chain) && c.ActionAllowlist? ==> a in c.actions
  }

  predicate EffectivelyAllows(g: TaskGrant, a: ActionId) {
    a in g.root.allowedActions && ActionPasses(g.chain, a)
  }

  predicate EffectivelyApprovalRequired(g: TaskGrant, a: ActionId) {
    a in g.root.approvalRequiredActions && ActionPasses(g.chain, a)
  }

  predicate EffectivelyAllowsEgress(g: TaskGrant, class_: string) {
    class_ in g.root.allowedEgressClasses
    && forall c :: c in Caveats(g.chain) && c.EgressClassAllowlist? ==> class_ in c.classes
  }

  predicate EffectivelyAllowsChannel(g: TaskGrant, channel: string) {
    channel in g.root.outputChannels
    && forall c :: c in Caveats(g.chain) && c.OutputChannelAllowlist? ==> channel in c.channels
  }

  /** There is no root list of origins: without such a caveat every origin passes. */
  predicate EffectivelyAllowsOrigin(g: TaskGrant, origin: string) {
    forall c :: c in Caveats(g.chain) && c.ProvenanceLabelAllowlist? ==> origin in c.origins
  }

  predicate IsExpired(g: TaskGrant, now: int) {
    now >= g.root.expiresAt || exists c :: c in Caveats(g.chain) && c.ExpiresBefore? && now >= c.at
  }

  /** No name is bound to two values. */
  predicate BindingsAgree(cs: seq<Caveat>) {
    forall c, d :: c in cs && d in cs && c.BoundParameter? && d.BoundParameter? && c.name == d.name ==>
      c.value == d.value
  }

  /** The loop that looks for a conflicting binding. */
  method CheckBindings(g: TaskGrant) returns (ok: bool)
    ensures ok == BindingsAgree(Caveats(g.chain))
  {
    var cs := Caveats(g.chain);
    var bindings: map<string, string> := map[];
    for i := 0 to |cs|
      invariant forall c :: c in cs[..i] && c.BoundParameter? ==> c.name in bindings && bindings[c.name] == c.value
      invariant forall n :: n in bindings ==> BoundParameter(n, bindings[n]) in cs[..i]
    {
      assert cs[..i + 1] == cs[..i] + [cs[i]];
      if cs[i].BoundParameter? {
        if cs[i].name in bindings && bindings[cs[i].name] != cs[i].value {
          assert BoundParameter(cs[i].name, bindings[cs[i].name]) in cs;
          return false;
        }
        bindings := bindings[cs[i].name := cs[i].value];
      }
    }
    assert cs[..|cs|] == cs;
    return true;
  }

  // -------- facts --------

  lemma CaveatsSnoc(chain: seq<ChainStep>, step: ChainStep)
    ensures Caveats(chain + [step]) == Caveats(chain) + step.addedCaveats
  {
    assert (chain + [step])[..|chain|] == chain;
  }

  lemma MessagesSnoc(r: RootAuthority, chain: seq<ChainStep>, step: ChainStep)
    ensures Messages(r, chain + [step]) == Messages(r, chain) + StepMessages(step)
  {
    assert (chain + [step])[..|chain|] == chain;
  }

  lemma {:induction false} FoldAppend(mac: Mac, start: Bytes, a: seq<Message>, b: seq<Message>)
    ensures Fold(mac, start, a + b) == Fold(mac, Fold(mac, start, a), b)
    decreases |b|
  {
    if b == [] {
      assert a + b == a;
    } else {
      var ab := a + b;
      assert ab[..|ab| - 1] == a + b[..|b| - 1] && ab[|ab| - 1] == b[|b| - 1];
      FoldAppend(mac, start, a, b[..|b| - 1]);
    }
  }

  lemma {:induction false} MessagesNonEmpty(r: RootAuthority, chain: seq<ChainStep>)
    ensures Messages(r, chain) != [] && Messages(r, chain)[0] == RootMessage(CanonicalRoot(r))
    ensures forall i :: 1 <= i < |Messages(r, chain)| ==> !Messages(r, chain)[i].RootMessage?
    decreases |chain|
  {
    if chain != [] {
      MessagesNonEmpty(r, chain[..|chain| - 1]);
    }
  }

  /** Extending the tip of a verified parent is the same as refolding the longer chain. */
  lemma ChildTip(mac: Mac, key: Bytes, parent: TaskGrant, step: ChainStep)
    requires Verifies(mac, key, parent)
    ensures SealChild(mac, parent.caveatMac, step) == Some(MacHex(mac, key, parent.root, parent.chain + [step]))
  {
    var ms := Messages(parent.root, parent.chain);
    MessagesNonEmpty(parent.root, parent.chain);
    HexRoundTrip(Fold(mac, key, ms));
    MessagesSnoc(parent.root, parent.chain, step);
    FoldAppend(mac, key, ms, StepMessages(step));
  }

  /** A well-linked hop keeps the chain's shape. */
  lemma ShapeSnoc(rootId: Ulid, chain: seq<ChainStep>, step: ChainStep)
    requires ChainShape(rootId, chain)
    requires LinkValid(chain[|chain| - 1], step) && step.mode == chain[|chain| - 1].mode
    ensures ChainShape(rootId, chain + [step])
  {
    var longer := chain + [step];
    forall i, j | 0 <= i && j == i + 1 && j < |longer| ensures LinkValid(longer[i], longer[j]) {
      if j < |chain| { assert LinkValid(chain[i], chain[j]); }
    }
  }

  /** Each hop names the one before as its parent, carries no token that one does not, and is
      shadow if that one is. */
  ghost predicate Descends(chain: seq<ChainStep>) {
    forall i :: 1 <= i < |chain| ==>
      && chain[i].parentGrantId == Some(chain[i - 1].grantId)
      && (forall t :: t in chain[i].selectionTokens ==> t in chain[i - 1].selectionTokens)
      && (chain[i - 1].mode == Shadow ==> chain[i].mode == Shadow)
  }

  lemma {:induction false} ShadowReaches(chain: seq<ChainStep>, i: nat, j: nat)
    requires Descends(chain) && i <= j < |chain| && chain[i].mode == Shadow
    ensures chain[j].mode == Shadow
    decreases j - i
  {
    if i < j {
      ShadowReaches(chain, i, j - 1);
    }
  }

  lemma DescendsExactly(chain: seq<ChainStep>)
    ensures HopsLinked(chain) && ShadowStays(chain) <==> Descends(chain)
  {
    if HopsLinked(chain) && ShadowStays(chain) {
      forall i | 1 <= i < |chain| ensures LinkValid(chain[i - 1], chain[i]) {}
    }
    if Descends(chain) {
      forall i, j | 0 <= i < |chain| && 0 <= j < |chain| && j == i + 1 ensures LinkValid(chain[i], chain[j]) {}
      forall i, j | 0 <= i < j < |chain| && chain[i].mode == Shadow ensures chain[j].mode == Shadow {
        ShadowReaches(chain, i, j);
      }
    }
  }

  /** A chain from the root's own id down to this grant, whose last hop carries this grant's id,
      parent, mode and tokens. */
  ghost predicate Lineal(g: TaskGrant) {
    && g.root.rootGrantId != 0 && g.chain != [] && Descends(g.chain)
    && g.chain[0].grantId == g.root.rootGrantId && g.chain[0].parentGrantId == None
    && var last := g.chain[|g.chain| - 1];
      && last.grantId == g.id && last.parentGrantId == g.parentGrantId && last.mode == g.mode
      && multiset(last.selectionTokens) == multiset(g.selectionTokens)
  }

  lemma TokensExactly(a: seq<Ulid>, b: seq<Ulid>)
    ensures Sort(UlidLeq, a) == Sort(UlidLeq, b) <==> multiset(a) == multiset(b)
  {
    if multiset(a) == multiset(b) {
      SortCanonical(UlidLeq, a, b);
    }
  }

  lemma LinealExactly(g: TaskGrant)
    ensures StructurallyValid(g) <==> Lineal(g)
  {
    DescendsExactly(g.chain);
    if g.chain != [] {
      TokensExactly(g.chain[|g.chain| - 1].selectionTokens, g.selectionTokens);
    }
  }

  lemma TipShown(mac: Mac, key: Bytes, r: RootAuthority, chain: seq<ChainStep>)
    requires chain != []
    ensures MacHex(mac, key, r, chain) == EncodeHex(Fold(mac, key, Messages(r, chain))) != []
  {
    MessagesNonEmpty(r, chain);
    HexRoundTrip(Fold(mac, key, Messages(r, chain)));
  }

  /** Exactly which grants verify: the lineal ones that show the refolded tip. */
  lemma VerifiesExactly(mac: Mac, key: Bytes, g: TaskGrant)
    ensures Verifies(mac, key, g) <==>
            Lineal(g) && g.caveatMac == EncodeHex(Fold(mac, key, Messages(g.root, g.chain)))
  {
    LinealExactly(g);
    if g.chain != [] {
      TipShown(mac, key, g.root, g.chain);
    }
  }

  /** A sealed root carries no caveat, and verifies exactly if its id is not the nil id and it was
      not bound to another root before. */
  lemma SealedRootVerifies(mac: Mac, key: Bytes, g: TaskGrant)
    ensures Verifies(mac, key, SealRoot(mac, key, g)) <==>
            g.id != NIL && (g.root.rootGrantId == NIL || g.root.rootGrantId == g.id)
    ensures Caveats(SealRoot(mac, key, g).chain) == []
  {
    var sealed := SealRoot(mac, key, g);
    VerifiesExactly(mac, key, sealed);
    assert sealed.chain[..0] == [];
  }
}
