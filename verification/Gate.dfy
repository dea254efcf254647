/** The single mediation point: one action request against one task grant. */
module Gate {
  import opened Orders
  import opened ByteStrings
  import opened GrantChain

  type Digest = string

  datatype EgressDeclaration = EgressDeclaration(outputChannels: Option<seq<string>>, egressClass: Option<string>)

  datatype ActionCatalog = ActionCatalog(
    ids: set<ActionId>, kernelOrigin: set<ActionId>, nonDelegable: set<ActionId>,
    tokenRequiring: map<ActionId, string>, egress: map<ActionId, EgressDeclaration>)

  datatype ApprovalDecision = Approved | RejectedByOwner | Edited

  datatype ApprovalRecord = ApprovalRecord(payloadDigest: Digest, targetDigest: Digest, expiresAt: int,
                                           decision: ApprovalDecision)

  datatype SelectionToken = SelectionToken(tokenType: string, user: Ulid, expiresAt: int)

  datatype ActionRequest = ActionRequest(
    id: Ulid, action: ActionId, payloadDigest: Option<Digest>, targetDigest: Option<Digest>,
    selectionTokenId: Option<Ulid>, params: map<string, string>)

  datatype ActionOrigin = Kernel | Shell

  /** What the caller looks up for the gate. */
  datatype Context = Context(mac: Mac, key: Option<Bytes>, approvals: map<Ulid, ApprovalRecord>,
                             tokens: map<Ulid, SelectionToken>)

  datatype DenialReason =
    | NotGranted | ExplicitDeny | GrantExpired | ApprovalMissing | ApprovalDigestMismatch | ApprovalExpired
    | SelectionTokenInvalid | KernelOriginNotTrusted | UnknownAction | CaveatWidening
    | EgressClassNotGranted | OutputChannelNotGranted

  datatype GateDecision = Allow | Deny(reason: DenialReason) | ApprovalRequired(approvalType: string) | EffectSuppressed

  predicate Matches(approval: ApprovalRecord, payload: Digest, target: Digest, now: int) {
    && approval.decision == Approved && now < approval.expiresAt
    && approval.payloadDigest == payload && approval.targetDigest == target
  }

  predicate HasUnsupportedCaveats(g: TaskGrant) {
    exists c :: c in Caveats(g.chain) && c.ModelTier?
  }

  predicate ChainValid(g: TaskGrant, ctx: Context) {
    && g.caveatMac != []
    && ctx.key.Some?
    && Verifies(ctx.mac, ctx.key.value, g)
    && StructurallyValid(g)
    && !HasUnsupportedCaveats(g)
  }

  function ValidateSelectionToken(g: TaskGrant, req: ActionRequest, expectedType: string, ctx: Context,
                                  now: int): Option<DenialReason> {
    if req.selectionTokenId.None? then Some(SelectionTokenInvalid)
    else if req.selectionTokenId.value !in g.selectionTokens then Some(SelectionTokenInvalid)
    else if req.selectionTokenId.value !in ctx.tokens then Some(SelectionTokenInvalid)
    else
      var token := ctx.tokens[req.selectionTokenId.value];
      if token.tokenType != expectedType then Some(SelectionTokenInvalid)
      else if token.expiresAt <= now then Some(SelectionTokenInvalid)
      else if token.user != g.root.user then Some(SelectionTokenInvalid)
      else None
  }

  function ResolveApprovalRequired(req: ActionRequest, ctx: Context, now: int): GateDecision {
    if req.id !in ctx.approvals then ApprovalRequired(req.action)
    else
      var approval := ctx.approvals[req.id];
      if req.payloadDigest.Some? && req.targetDigest.Some?
         && Matches(approval, req.payloadDigest.value, req.targetDigest.value, now) then Allow
      else if now >= approval.expiresAt then Deny(ApprovalExpired)
      else if approval.decision != Approved then Deny(ApprovalMissing)
      else Deny(ApprovalDigestMismatch)
  }

  /** The declared egress of an action, checked against the effective authority. */
  function EgressDenial(g: TaskGrant, action: ActionId, catalog: ActionCatalog): Option<DenialReason> {
    if action !in catalog.egress then Some(CaveatWidening)
    else
      var decl := catalog.egress[action];
      if decl.egressClass.Some? && !EffectivelyAllowsEgress(g, decl.egressClass.value) then Some(EgressClassNotGranted)
      else if decl.outputChannels.Some?
              && (decl.outputChannels.value == []
                  || exists ch :: ch in decl.outputChannels.value && !EffectivelyAllowsChannel(g, ch))
      then Some(OutputChannelNotGranted)
      else None
  }

  /** Every bound parameter is present in the request with its bound value. */
  predicate BindingsMet(g: TaskGrant, req: ActionRequest) {
    forall c :: c in Caveats(g.chain) && c.BoundParameter? ==> c.name in req.params && req.params[c.name] == c.value
  }

  /** What the gate finds out about a grant and a request. */
  datatype Findings = Findings(
    authentic: bool, expired: bool, catalogued: bool, denied: bool, egress: Option<DenialReason>, bound: bool,
    token: Option<DenialReason>, approvalListed: bool, allowed: bool)

  function Examine(g: TaskGrant, req: ActionRequest, ctx: Context, catalog: ActionCatalog, now: int): Findings {
    Findings(
      ChainValid(g, ctx) && BindingsAgree(Caveats(g.chain)),
      IsExpired(g, now),
      req.action in catalog.ids,
      req.action in g.root.deniedActions,
      EgressDenial(g, req.action, catalog),
      BindingsMet(g, req),
      if req.action in catalog.tokenRequiring
      then ValidateSelectionToken(g, req, catalog.tokenRequiring[req.action], ctx, now) else None,
      EffectivelyApprovalRequired(g, req.action),
      EffectivelyAllows(g, req.action))
  }

  /** The order in which the findings decide. */
  function Precedence(f: Findings, req: ActionRequest, origin: ActionOrigin, ctx: Context, catalog: ActionCatalog,
                      now: int): GateDecision {
    if !f.authentic then Deny(CaveatWidening)
    else if f.expired then Deny(GrantExpired)
    else if !f.catalogued then Deny(UnknownAction)
    else if origin == Shell && f.denied then Deny(ExplicitDeny)
    else if f.egress.Some? then Deny(f.egress.value)
    else if !f.bound then Deny(CaveatWidening)
    else if origin == Kernel then
      if req.action in catalog.kernelOrigin then Allow else Deny(KernelOriginNotTrusted)
    else if f.token.Some? then Deny(f.token.value)
    else if f.approvalListed then ResolveApprovalRequired(req, ctx, now)
    else if f.allowed then Allow
    else Deny(NotGranted)
  }

  /** A shadow grant never executes and never asks. */
  function Suppressed(mode: GrantMode, decision: GateDecision): GateDecision {
    if mode == Shadow && (decision.Allow? || decision.ApprovalRequired?) then EffectSuppressed else decision
  }

  function Decide(g: TaskGrant, req: ActionRequest, origin: ActionOrigin, ctx: Context, catalog: ActionCatalog,
                  now: int): GateDecision {
    Suppressed(g.mode, Precedence(Examine(g, req, ctx, catalog, now), req, origin, ctx, catalog, now))
  }

  // -------- when the gate allows --------

  /** The grant is authentic, consistent, understood and in time. */
  ghost predicate Standing(g: TaskGrant, ctx: Context, now: int) {
    && ctx.key.Some? && Verifies(ctx.mac, ctx.key.value, g)
    && BindingsAgree(Caveats(g.chain))
    && now < g.root.expiresAt
    && (forall c :: c in Caveats(g.chain) ==> !c.ModelTier? && (c.ExpiresBefore? ==> now < c.at))
  }

  ghost predicate InForce(g: TaskGrant, ctx: Context, now: int) { Standing(g, ctx, now) && g.mode == Live }

  /** The request respects the catalog's egress declaration and every bound parameter. */
  ghost predicate Contained(g: TaskGrant, req: ActionRequest, catalog: ActionCatalog) {
    && req.action in catalog.ids && req.action in catalog.egress && BindingsMet(g, req)
    && var decl := catalog.egress[req.action];
      && (decl.egressClass.Some? ==> EffectivelyAllowsEgress(g, decl.egressClass.value))
      && (decl.outputChannels.Some? ==>
            && decl.outputChannels.value != []
            && forall ch :: ch in decl.outputChannels.value ==> EffectivelyAllowsChannel(g, ch))
  }

  /** A live token of the expected type, bound to this grant and its user. */
  ghost predicate HoldsToken(g: TaskGrant, req: ActionRequest, expectedType: string, ctx: Context, now: int) {
    exists id :: req.selectionTokenId == Some(id) && id in g.selectionTokens && id in ctx.tokens
              && ctx.tokens[id] == SelectionToken(expectedType, g.root.user, ctx.tokens[id].expiresAt)
              && now < ctx.tokens[id].expiresAt
  }

  /** The owner approved exactly this payload and target for this request, and still does. */
  ghost predicate ApprovedNow(req: ActionRequest, ctx: Context, now: int) {
    exists a :: req.id in ctx.approvals && ctx.approvals[req.id] == a && a.decision == Approved && now < a.expiresAt
             && req.payloadDigest == Some(a.payloadDigest) && req.targetDigest == Some(a.targetDigest)
  }

  ghost predicate TokenMet(g: TaskGrant, req: ActionRequest, ctx: Context, catalog: ActionCatalog, now: int) {
    req.action in catalog.tokenRequiring ==> HoldsToken(g, req, catalog.tokenRequiring[req.action], ctx, now)
  }

  ghost predicate Granted(g: TaskGrant, req: ActionRequest, ctx: Context, catalog: ActionCatalog, now: int) {
    && req.action !in g.root.deniedActions && TokenMet(g, req, ctx, catalog, now)
    && ActionPasses(g.chain, req.action)
    && (if req.action in g.root.approvalRequiredActions then ApprovedNow(req, ctx, now)
         else req.action in g.root.allowedActions)
  }

  /** All but an approval is in place and the owner was never asked. */
  ghost predicate Unasked(g: TaskGrant, req: ActionRequest, ctx: Context, catalog: ActionCatalog, now: int) {
    && req.action !in g.root.deniedActions && TokenMet(g, req, ctx, catalog, now)
    && ActionPasses(g.chain, req.action)
    && req.action in g.root.approvalRequiredActions && req.id !in ctx.approvals
  }

  lemma TokenCheck(g: TaskGrant, req: ActionRequest, expectedType: string, ctx: Context, now: int)
    ensures ValidateSelectionToken(g, req, expectedType, ctx, now).None? <==> HoldsToken(g, req, expectedType, ctx, now)
  {
    if ValidateSelectionToken(g, req, expectedType, ctx, now).None? {
      var id := req.selectionTokenId.value;
      assert id in ctx.tokens && ctx.tokens[id] == SelectionToken(expectedType, g.root.user, ctx.tokens[id].expiresAt);
    }
  }

  lemma ApprovalCheck(req: ActionRequest, ctx: Context, now: int)
    ensures ResolveApprovalRequired(req, ctx, now).Allow? <==> ApprovedNow(req, ctx, now)
    ensures ResolveApprovalRequired(req, ctx, now).ApprovalRequired? <==> req.id !in ctx.approvals
  {
  }

  lemma StandingCheck(g: TaskGrant, ctx: Context, now: int)
    ensures Standing(g, ctx, now) <==>
            ChainValid(g, ctx) && BindingsAgree(Caveats(g.chain)) && !IsExpired(g, now)
  {
    if ChainValid(g, ctx) && BindingsAgree(Caveats(g.chain)) && !IsExpired(g, now) {
      forall c | c in Caveats(g.chain) ensures !c.ModelTier? && (c.ExpiresBefore? ==> now < c.at) {}
    }
  }

  lemma ContainedCheck(g: TaskGrant, req: ActionRequest, catalog: ActionCatalog)
    ensures Contained(g, req, catalog) <==>
            req.action in catalog.ids && EgressDenial(g, req.action, catalog).None? && BindingsMet(g, req)
  {
  }

  /** What the gate finds, in terms of the conditions. */
  lemma FindingsExactly(g: TaskGrant, req: ActionRequest, ctx: Context, catalog: ActionCatalog, now: int)
    ensures var f := Examine(g, req, ctx, catalog, now);
            && (f.authentic && !f.expired <==> Standing(g, ctx, now))
            && (f.catalogued && f.egress.None? && f.bound <==> Contained(g, req, catalog))
            && (f.token.None? <==> TokenMet(g, req, ctx, catalog, now))
            && (f.token.Some? ==> f.token.value == SelectionTokenInvalid)
            && (f.egress.Some? ==> f.egress.value in {CaveatWidening, EgressClassNotGranted, OutputChannelNotGranted})
  {
    StandingCheck(g, ctx, now);
    ContainedCheck(g, req, catalog);
    if req.action in catalog.tokenRequiring {
      TokenCheck(g, req, catalog.tokenRequiring[req.action], ctx, now);
    }
  }

  /** Exactly when the gate allows, for both origins. */
  lemma AllowExactly(g: TaskGrant, req: ActionRequest, origin: ActionOrigin, ctx: Context, catalog: ActionCatalog,
                     now: int)
    ensures Decide(g, req, origin, ctx, catalog, now).Allow? <==>
            && InForce(g, ctx, now) && Contained(g, req, catalog)
            && (if origin == Kernel then req.action in catalog.kernelOrigin else Granted(g, req, ctx, catalog, now))
  {
    FindingsExactly(g, req, ctx, catalog, now);
    ApprovalCheck(req, ctx, now);
  }

  /** The owner is asked exactly where everything but an approval is in place and no decision
      was ever recorded: a changed payload is denied, never asked again. */
  lemma AskedOnlyOnce(g: TaskGrant, req: ActionRequest, origin: ActionOrigin, ctx: Context, catalog: ActionCatalog,
                      now: int)
    ensures var decision := Decide(g, req, origin, ctx, catalog, now);
            && (decision.ApprovalRequired? <==>
                  && InForce(g, ctx, now) && Contained(g, req, catalog) && origin == Shell
                  && Unasked(g, req, ctx, catalog, now))
            && (decision.ApprovalRequired? ==> decision.approvalType == req.action)
  {
    FindingsExactly(g, req, ctx, catalog, now);
    ApprovalCheck(req, ctx, now);
  }

  /** Under a shadow grant nothing is executed and nobody is asked: its effect is suppressed
      exactly where a live grant standing as it does would be allowed or would ask. */
  lemma SuppressedExactly(g: TaskGrant, req: ActionRequest, origin: ActionOrigin, ctx: Context, catalog: ActionCatalog,
                          now: int)
    ensures Decide(g, req, origin, ctx, catalog, now).EffectSuppressed? <==>
            && g.mode == Shadow && Standing(g, ctx, now) && Contained(g, req, catalog)
            && (if origin == Kernel then req.action in catalog.kernelOrigin
                else Granted(g, req, ctx, catalog, now) || Unasked(g, req, ctx, catalog, now))
  {
    FindingsExactly(g, req, ctx, catalog, now);
    ApprovalCheck(req, ctx, now);
  }

  // -------- when and why the gate denies --------

  lemma PrecedenceOrder(f: Findings, mode: GrantMode, req: ActionRequest, origin: ActionOrigin, ctx: Context,
                        catalog: ActionCatalog, now: int)
    requires f.egress.Some? ==> f.egress.value in {CaveatWidening, EgressClassNotGranted, OutputChannelNotGranted}
    requires f.token.Some? ==> f.token.value == SelectionTokenInvalid
    ensures var decision := Suppressed(mode, Precedence(f, req, origin, ctx, catalog, now));
            && (!f.authentic ==> decision == Deny(CaveatWidening))
            && (decision == Deny(GrantExpired) <==> f.authentic && f.expired)
            && (decision == Deny(UnknownAction) <==> f.authentic && !f.expired && !f.catalogued)
            && (decision == Deny(ExplicitDeny) <==>
                 f.authentic && !f.expired && f.catalogued && origin == Shell && f.denied)
  {
  }

  /** Integrity failures are reported before expiry, expiry before the catalog, and an explicit
      deny before any egress or token objection. */
  lemma DenialOrder(g: TaskGrant, req: ActionRequest, origin: ActionOrigin, ctx: Context, catalog: ActionCatalog,
                    now: int)
    ensures var decision := Decide(g, req, origin, ctx, catalog, now);
            var authentic := ChainValid(g, ctx) && BindingsAgree(Caveats(g.chain));
            && (!authentic ==> decision == Deny(CaveatWidening))
            && (decision == Deny(GrantExpired) <==> authentic && IsExpired(g, now))
            && (decision == Deny(UnknownAction) <==> authentic && !IsExpired(g, now) && req.action !in catalog.ids)
            && (decision == Deny(ExplicitDeny) <==>
                  && authentic && !IsExpired(g, now) && req.action in catalog.ids
                  && origin == Shell && req.action in g.root.deniedActions)
  {
    FindingsExactly(g, req, ctx, catalog, now);
    PrecedenceOrder(Examine(g, req, ctx, catalog, now), g.mode, req, origin, ctx, catalog, now);
  }

  /** The request gets as far as its declared egress. */
  ghost predicate Reached(g: TaskGrant, req: ActionRequest, origin: ActionOrigin, ctx: Context, catalog: ActionCatalog,
                          now: int) {
    Standing(g, ctx, now) && req.action in catalog.ids && !(origin == Shell && req.action in g.root.deniedActions)
  }

  ghost predicate ClassMet(g: TaskGrant, decl: EgressDeclaration) {
    decl.egressClass.Some? ==> EffectivelyAllowsEgress(g, decl.egressClass.value)
  }

  ghost predicate ChannelsMet(g: TaskGrant, decl: EgressDeclaration) {
    decl.outputChannels.Some? ==>
      && decl.outputChannels.value != []
      && forall ch :: ch in decl.outputChannels.value ==> EffectivelyAllowsChannel(g, ch)
  }

  lemma EgressReasons(g: TaskGrant, a: ActionId, catalog: ActionCatalog)
    ensures var r := EgressDenial(g, a, catalog);
            && (r == Some(CaveatWidening) <==> a !in catalog.egress)
            && (r == Some(EgressClassNotGranted) <==> a in catalog.egress && !ClassMet(g, catalog.egress[a]))
            && (r == Some(OutputChannelNotGranted) <==>
                  a in catalog.egress && ClassMet(g, catalog.egress[a]) && !ChannelsMet(g, catalog.egress[a]))
            && (r.None? <==> a in catalog.egress && ClassMet(g, catalog.egress[a]) && ChannelsMet(g, catalog.egress[a]))
  {
  }

  /** An undeclared action, then the egress class, then the channels, then the bound parameters,
      for both origins; an origin the catalog does not trust comes after those. */
  lemma ContainmentDenials(g: TaskGrant, req: ActionRequest, origin: ActionOrigin, ctx: Context,
                           catalog: ActionCatalog, now: int)
    requires Reached(g, req, origin, ctx, catalog, now)
    ensures var decision := Decide(g, req, origin, ctx, catalog, now);
            var declared := req.action in catalog.egress;
            && (decision == Deny(CaveatWidening) <==>
                  !declared || (ClassMet(g, catalog.egress[req.action]) && ChannelsMet(g, catalog.egress[req.action])
                                && !BindingsMet(g, req)))
            && (decision == Deny(EgressClassNotGranted) <==> declared && !ClassMet(g, catalog.egress[req.action]))
            && (decision == Deny(OutputChannelNotGranted) <==>
                  declared && ClassMet(g, catalog.egress[req.action]) && !ChannelsMet(g, catalog.egress[req.action]))
            && (decision == Deny(KernelOriginNotTrusted) <==>
                  Contained(g, req, catalog) && origin == Kernel && req.action !in catalog.kernelOrigin)
  {
    FindingsExactly(g, req, ctx, catalog, now);
    EgressReasons(g, req.action, catalog);
  }

  /** What an approval on record lacks: it has run out, or it was not an approval, or it is for
      another payload or target. */
  lemma ApprovalReasons(req: ActionRequest, ctx: Context, now: int)
    requires req.id in ctx.approvals
    ensures var decision := ResolveApprovalRequired(req, ctx, now);
            var a := ctx.approvals[req.id];
            && (decision == Deny(ApprovalExpired) <==> a.expiresAt <= now)
            && (decision == Deny(ApprovalMissing) <==> now < a.expiresAt && a.decision != Approved)
            && (decision == Deny(ApprovalDigestMismatch) <==>
                  && now < a.expiresAt && a.decision == Approved
                  && !(req.payloadDigest == Some(a.payloadDigest) && req.targetDigest == Some(a.targetDigest)))
  {
  }

  /** A shell request that is contained: the token first, then the approval on record for an
      approval-listed action, and `NotGranted` exactly for one in neither effective list. */
  lemma ShellDenials(g: TaskGrant, req: ActionRequest, ctx: Context, catalog: ActionCatalog, now: int)
    requires Reached(g, req, Shell, ctx, catalog, now) && Contained(g, req, catalog)
    ensures var decision := Decide(g, req, Shell, ctx, catalog, now);
            var held := TokenMet(g, req, ctx, catalog, now);
            var judged := held && EffectivelyApprovalRequired(g, req.action) && req.id in ctx.approvals;
            && (decision == Deny(SelectionTokenInvalid) <==> !held)
            && (decision == Deny(ApprovalExpired) <==> judged && ctx.approvals[req.id].expiresAt <= now)
            && (decision == Deny(ApprovalMissing) <==>
                  judged && now < ctx.approvals[req.id].expiresAt && ctx.approvals[req.id].decision != Approved)
            && (decision == Deny(ApprovalDigestMismatch) <==>
                  && judged && now < ctx.approvals[req.id].expiresAt && ctx.approvals[req.id].decision == Approved
                  && !(&& req.payloadDigest == Some(ctx.approvals[req.id].payloadDigest)
                       && req.targetDigest == Some(ctx.approvals[req.id].targetDigest)))
            && (decision == Deny(NotGranted) <==>
                  held && !EffectivelyApprovalRequired(g, req.action) && !EffectivelyAllows(g, req.action))
  {
    FindingsExactly(g, req, ctx, catalog, now);
    ApprovalCheck(req, ctx, now);
    if req.id in ctx.approvals { ApprovalReasons(req, ctx, now); }
  }
}
