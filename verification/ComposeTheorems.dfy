/** What composition yields, in terms of the fields of its sources. */
module ComposeTheorems {
  import opened Orders
  import opened CanonicalLists
  import opened GrantChain
  import opened Gate
  import opened Compose

  // -------- which inputs yield a grant --------

  ghost predicate AllActive(i: AuthorityInput) {
    && i.route.lifecycle == Active && i.agent.lifecycle == Active && i.workflow.lifecycle == Active
    && i.pack.lifecycle == Active && i.globalPolicy.lifecycle == Active
  }

  ghost predicate Verified(i: AuthorityInput) {
    i.route.verifiedSource == Some(true) ==> i.event.verifiedSource && i.identityVerified
  }

  ghost predicate ListsKnown(lists: ActionLists, catalog: ActionCatalog) {
    AllKnown(lists.allow, catalog) && AllKnown(lists.approval, catalog) && AllKnown(lists.deny, catalog)
  }

  /** Every id of the fifteen lists is in the catalog. */
  ghost predicate AllCatalogued(i: AuthorityInput, catalog: ActionCatalog) {
    && ListsKnown(i.agent.lists, catalog) && ListsKnown(i.workflow.lists, catalog) && ListsKnown(i.pack.lists, catalog)
    && ListsKnown(i.globalPolicy.lists, catalog) && ListsKnown(i.session, catalog)
  }

  /** From public over internal and private to unknown, which only an unknown maximum admits. */
  ghost predicate Within(c: Classification, max: Classification) {
    match max
    case Public => c == Public
    case Internal => c == Public || c == Internal
    case Private => c != Unknown
    case Unknown => true
  }

  ghost predicate WithinPack(i: AuthorityInput) {
    i.pack.classificationMax.Some? ==> Within(i.event.classification, i.pack.classificationMax.value)
  }

  /** Exactly the inputs that yield a grant. */
  ghost predicate Composable(i: AuthorityInput, catalog: ActionCatalog) {
    AllActive(i) && !i.route.denies && Verified(i) && AllCatalogued(i, catalog) && WithinPack(i)
  }

  lemma SourcesExactly(i: AuthorityInput, catalog: ActionCatalog)
    ensures SourcesKnown(Sources(i), catalog) <==> AllCatalogued(i, catalog)
  {
    var s := Sources(i);
    if SourcesKnown(s, catalog) {
      assert AllKnown(s[0].0, catalog) && AllKnown(s[1].0, catalog) && AllKnown(s[2].0, catalog);
      assert AllKnown(s[3].0, catalog) && AllKnown(s[4].0, catalog) && AllKnown(s[5].0, catalog);
      assert AllKnown(s[6].0, catalog) && AllKnown(s[7].0, catalog) && AllKnown(s[8].0, catalog);
      assert AllKnown(s[9].0, catalog) && AllKnown(s[10].0, catalog) && AllKnown(s[11].0, catalog);
      assert AllKnown(s[12].0, catalog) && AllKnown(s[13].0, catalog) && AllKnown(s[14].0, catalog);
    }
  }

  lemma CataloguedExactly(i: AuthorityInput, catalog: ActionCatalog)
    ensures AllCatalogued(i, catalog) <==>
            && (forall a :: DenyListed(i, a) || ApprovalListed(i, a) || Candidate(i, a) ==> a in catalog.ids)
            && AllKnown(i.globalPolicy.lists.allow, catalog) && AllKnown(i.session.allow, catalog)
  {
  }

  lemma InactiveExactly(i: AuthorityInput)
    ensures var r := FirstInactive(Lifecycles(i));
            && (r.None? <==> AllActive(i))
            && r == (if i.route.lifecycle != Active then Some(NotActive("route", i.route.lifecycle))
                     else if i.agent.lifecycle != Active then Some(NotActive("agent", i.agent.lifecycle))
                     else if i.workflow.lifecycle != Active then Some(NotActive("workflow", i.workflow.lifecycle))
                     else if i.pack.lifecycle != Active then Some(NotActive("capability_pack", i.pack.lifecycle))
                     else if i.globalPolicy.lifecycle != Active then
                       Some(NotActive("global_policy", i.globalPolicy.lifecycle))
                     else None)
  {
    var l := Lifecycles(i);
    assert l[0..] == l && l[5..] == [];
    InactiveAt(l, 0);
    InactiveAt(l, 1);
    InactiveAt(l, 2);
    InactiveAt(l, 3);
    InactiveAt(l, 4);
  }

  lemma InactiveAt(ls: seq<(string, Lifecycle)>, k: nat)
    requires k < |ls|
    ensures FirstInactive(ls[k..]) ==
            if ls[k].1 != Active then Some(NotActive(ls[k].0, ls[k].1)) else FirstInactive(ls[k + 1..])
  {
    assert ls[k..][1..] == ls[k + 1..];
  }

  lemma ComposesExactly(i: AuthorityInput, catalog: ActionCatalog, now: int, id: Ulid, token: string, o: Outcome)
    requires Composes(i, catalog, now, id, token, o)
    ensures o.Composed? <==> Composable(i, catalog)
    ensures o.Composed? ==> ComposedGrant(i, now, id, token, o.grant)
  {
    InactiveExactly(i);
    SourcesExactly(i, catalog);
  }

  /** Which refusal comes first: the lifecycles in their order, the deny route, the missing
      verification, an uncatalogued id, the classification. */
  lemma RefusalsInOrder(i: AuthorityInput, catalog: ActionCatalog, now: int, id: Ulid, token: string, o: Outcome)
    requires Composes(i, catalog, now, id, token, o)
    ensures i.route.lifecycle != Active ==> o == Refused(NotActive("route", i.route.lifecycle))
    ensures i.route.lifecycle == Active && i.agent.lifecycle != Active ==>
              o == Refused(NotActive("agent", i.agent.lifecycle))
    ensures i.route.lifecycle == i.agent.lifecycle == Active && i.workflow.lifecycle != Active ==>
              o == Refused(NotActive("workflow", i.workflow.lifecycle))
    ensures (&& i.route.lifecycle == i.agent.lifecycle == i.workflow.lifecycle == Active
             && i.pack.lifecycle != Active) ==> o == Refused(NotActive("capability_pack", i.pack.lifecycle))
    ensures (&& i.route.lifecycle == i.agent.lifecycle == i.workflow.lifecycle == i.pack.lifecycle == Active
             && i.globalPolicy.lifecycle != Active) ==>
              o == Refused(NotActive("global_policy", i.globalPolicy.lifecycle))
    ensures AllActive(i) && i.route.denies ==> o == Refused(DenyRoute(i.route.id))
    ensures AllActive(i) && !i.route.denies && !Verified(i) ==> o == Refused(SourceNotVerified)
    ensures o.UnknownActionId? <==> AllActive(i) && !i.route.denies && Verified(i) && !AllCatalogued(i, catalog)
    ensures AllActive(i) && !i.route.denies && Verified(i) && AllCatalogued(i, catalog) && !WithinPack(i) ==>
              o == Refused(ClassificationExceeded(i.event.classification, i.pack.classificationMax.value))
  {
    InactiveExactly(i);
    SourcesExactly(i, catalog);
  }

  // -------- which unknown id is reported --------

  /** `id` is the first uncatalogued one of its list. */
  ghost predicate FirstOf(ids: seq<ActionId>, catalog: ActionCatalog, id: ActionId) {
    exists j :: 0 <= j < |ids| && ids[j] == id && id !in catalog.ids && AllKnown(ids[..j], catalog)
  }

  /** In one source the allow list comes before the approval list, and that before the deny list. */
  ghost predicate FirstIn(lists: ActionLists, allow: string, approval: string, deny: string, catalog: ActionCatalog,
                          id: ActionId, source: string) {
    || (source == allow && FirstOf(lists.allow, catalog, id))
    || (source == approval && AllKnown(lists.allow, catalog) && FirstOf(lists.approval, catalog, id))
    || (source == deny && AllKnown(lists.allow, catalog) && AllKnown(lists.approval, catalog)
        && FirstOf(lists.deny, catalog, id))
  }

  ghost predicate FirstInAgent(i: AuthorityInput, catalog: ActionCatalog, id: ActionId, source: string) {
    FirstIn(i.agent.lists, "agent.designed_tools", "agent.approval_required_tools", "agent.denied_tools",
            catalog, id, source)
  }

  ghost predicate FirstInWorkflow(i: AuthorityInput, catalog: ActionCatalog, id: ActionId, source: string) {
    && ListsKnown(i.agent.lists, catalog)
    && FirstIn(i.workflow.lists, "workflow.candidate_allowed_actions", "workflow.approval_required",
               "workflow.denied_actions", catalog, id, source)
  }

  ghost predicate FirstInPack(i: AuthorityInput, catalog: ActionCatalog, id: ActionId, source: string) {
    && ListsKnown(i.agent.lists, catalog) && ListsKnown(i.workflow.lists, catalog)
    && FirstIn(i.pack.lists, "pack.candidate_allowed_actions", "pack.approval_required", "pack.denied_actions",
               catalog, id, source)
  }

  ghost predicate FirstInPolicy(i: AuthorityInput, catalog: ActionCatalog, id: ActionId, source: string) {
    && ListsKnown(i.agent.lists, catalog) && ListsKnown(i.workflow.lists, catalog) && ListsKnown(i.pack.lists, catalog)
    && FirstIn(i.globalPolicy.lists, "global_policy.candidate_allowed_actions", "global_policy.approval_required",
               "global_policy.denied_actions", catalog, id, source)
  }

  ghost predicate FirstInSession(i: AuthorityInput, catalog: ActionCatalog, id: ActionId, source: string) {
    && ListsKnown(i.agent.lists, catalog) && ListsKnown(i.workflow.lists, catalog) && ListsKnown(i.pack.lists, catalog)
    && ListsKnown(i.globalPolicy.lists, catalog)
    && FirstIn(i.session, "session.candidate_allowed_actions", "session.approval_required", "session.denied_actions",
               catalog, id, source)
  }

  /** The reported id is the first uncatalogued one of the list that is named, everything in the
      lists before it being catalogued. */
  lemma UnknownNamed(i: AuthorityInput, catalog: ActionCatalog, now: int, id: Ulid, token: string, o: Outcome)
    requires Composes(i, catalog, now, id, token, o) && o.UnknownActionId?
    ensures || FirstInAgent(i, catalog, o.id, o.source) || FirstInWorkflow(i, catalog, o.id, o.source)
            || FirstInPack(i, catalog, o.id, o.source) || FirstInPolicy(i, catalog, o.id, o.source)
            || FirstInSession(i, catalog, o.id, o.source)
  {
    var s := Sources(i);
    var k, j :| 0 <= k < |s| && 0 <= j < |s[k].0| && s[k].0[j] == o.id && s[k].1 == o.source
                && o.id !in catalog.ids && AllKnown(s[k].0[..j], catalog)
                && forall m :: 0 <= m < k ==> AllKnown(s[m].0, catalog);
    assert FirstOf(s[k].0, catalog, o.id);
    NamedAt(i, catalog, k, o.id);
  }

  lemma NamedAt(i: AuthorityInput, catalog: ActionCatalog, k: nat, id: ActionId)
    requires k < 15 && FirstOf(Sources(i)[k].0, catalog, id)
    requires forall m :: 0 <= m < k ==> AllKnown(Sources(i)[m].0, catalog)
    ensures var source := Sources(i)[k].1;
            if k < 3 then FirstInAgent(i, catalog, id, source)
            else if k < 6 then FirstInWorkflow(i, catalog, id, source)
            else if k < 9 then FirstInPack(i, catalog, id, source)
            else if k < 12 then FirstInPolicy(i, catalog, id, source)
            else FirstInSession(i, catalog, id, source)
  {
    var s := Sources(i);
    assert k >= 1 ==> AllKnown(s[0].0, catalog);
    assert k >= 2 ==> AllKnown(s[1].0, catalog);
    assert k >= 3 ==> AllKnown(s[2].0, catalog);
    assert k >= 4 ==> AllKnown(s[3].0, catalog);
    assert k >= 5 ==> AllKnown(s[4].0, catalog);
    assert k >= 6 ==> AllKnown(s[5].0, catalog);
    assert k >= 7 ==> AllKnown(s[6].0, catalog);
    assert k >= 8 ==> AllKnown(s[7].0, catalog);
    assert k >= 9 ==> AllKnown(s[8].0, catalog);
    assert k >= 10 ==> AllKnown(s[9].0, catalog);
    assert k >= 11 ==> AllKnown(s[10].0, catalog);
    assert k >= 12 ==> AllKnown(s[11].0, catalog);
    assert k >= 13 ==> AllKnown(s[12].0, catalog);
    assert k >= 14 ==> AllKnown(s[13].0, catalog);
  }

  // -------- what the grant holds --------

  /** The action lists of a composed root, in terms of the source lists: a deny anywhere wins, an
      approval anywhere comes next, and an allow needs a candidate that no non-empty policy
      leaves out. */
  lemma ComposedMembers(i: AuthorityInput, now: int, id: Ulid, token: string, g: TaskGrant, a: ActionId)
    requires ComposedGrant(i, now, id, token, g)
    ensures var denied := a in i.agent.lists.deny + i.workflow.lists.deny + i.pack.lists.deny
                               + i.globalPolicy.lists.deny + i.session.deny;
            var asked := a in i.agent.lists.approval + i.workflow.lists.approval + i.pack.lists.approval
                              + i.globalPolicy.lists.approval + i.session.approval;
            && (a in g.root.deniedActions <==> denied)
            && (a in g.root.approvalRequiredActions <==> asked && !denied)
            && (a in g.root.allowedActions <==>
                  && a in i.agent.lists.allow + i.workflow.lists.allow + i.pack.lists.allow
                  && (i.globalPolicy.lists.allow != [] ==> a in i.globalPolicy.lists.allow)
                  && (i.session.allow != [] ==> a in i.session.allow)
                  && !denied && !asked)
  {
  }

  /** A composed grant runs for the agent's time or the pack's, whichever is shorter. */
  lemma ComposedRuntime(i: AuthorityInput, now: int, id: Ulid, token: string, g: TaskGrant)
    requires ComposedGrant(i, now, id, token, g)
    ensures var seconds := g.root.limits.maxRuntimeSeconds;
            && g.root.expiresAt == now + seconds * 1_000_000_000 && seconds <= i.agent.limits.maxRuntimeSeconds
            && (i.pack.maxRuntimeSeconds.Some? ==> seconds <= i.pack.maxRuntimeSeconds.value)
            && (seconds == i.agent.limits.maxRuntimeSeconds || Some(seconds) == i.pack.maxRuntimeSeconds)
            && g.root.limits.maxModelCalls == i.agent.limits.maxModelCalls
            && g.root.limits.maxArtifacts == i.agent.limits.maxArtifacts
  {
  }

  /** A composed grant is a live, unsealed root of the kernel, with the time, id and token it was
      given and the identities of its sources. */
  lemma ComposedIdentity(i: AuthorityInput, now: int, id: Ulid, token: string, g: TaskGrant)
    requires ComposedGrant(i, now, id, token, g)
    ensures g.id == id && g.issuedBy == "kernel" && g.issuedAt == now && g.taskToken == token && g.mode == Live
    ensures g.selectionTokens == [] && g.parentGrantId == None && g.chain == [] && g.caveatMac == []
    ensures g.root.rootGrantId == NIL && g.root.user == i.principal && g.root.purpose == i.purpose
    ensures g.root.eventId == i.event.id && g.root.routeId == i.route.id && g.root.agentId == i.agent.id
    ensures g.root.workflowId == i.workflow.id && g.root.capabilityPackId == i.pack.id && g.root.threadId == None
    ensures g.root.allowedEgressClasses == i.pack.egressClasses
    ensures forall ch :: ch in g.root.outputChannels <==> ch in i.agent.outputChannels
  {
    forall ch ensures ch in g.root.outputChannels <==> ch in i.agent.outputChannels {
      assert ch in Elements(g.root.outputChannels) <==> ch in Elements(i.agent.outputChannels);
    }
  }

  /** Composition does not depend on the order in which sets are walked. */
  lemma ComposedUnique(i: AuthorityInput, now: int, id: Ulid, token: string, g: TaskGrant, g': TaskGrant)
    requires ComposedGrant(i, now, id, token, g) && ComposedGrant(i, now, id, token, g')
    ensures g == g'
  {
    StringOrder();
    SameMembers(g.root.deniedActions, g'.root.deniedActions);
    SameMembers(g.root.approvalRequiredActions, g'.root.approvalRequiredActions);
    SameMembers(g.root.allowedActions, g'.root.allowedActions);
    StrictUnique(StringLeq, g.root.outputChannels, g'.root.outputChannels);
  }

  lemma SameMembers(a: seq<string>, b: seq<string>)
    requires TotalOrder(StringLeq) && Strict(StringLeq, a) && Strict(StringLeq, b) && forall x :: x in a <==> x in b
    ensures a == b
  {
    assert Elements(a) == Elements(b);
    StrictUnique(StringLeq, a, b);
  }
}
