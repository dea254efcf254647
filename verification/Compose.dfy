/** Composing a task's authority from its five sources. */
module Compose {
  import opened Orders
  import opened CanonicalLists
  import opened GrantChain
  import opened Gate

  datatype Lifecycle = Active | Inactive(state: string)
  datatype Classification = Public | Internal | Private | Unknown

  datatype ActionLists = ActionLists(allow: seq<ActionId>, approval: seq<ActionId>, deny: seq<ActionId>)

  datatype Event = Event(id: Ulid, verifiedSource: bool, classification: Classification)
  datatype Route = Route(id: string, lifecycle: Lifecycle, denies: bool, verifiedSource: Option<bool>)
  datatype Policy = Policy(lifecycle: Lifecycle, lists: ActionLists)
  datatype Agent = Agent(id: string, lifecycle: Lifecycle, lists: ActionLists, outputChannels: seq<string>,
                         limits: GrantLimits)
  datatype Workflow = Workflow(id: string, lifecycle: Lifecycle, lists: ActionLists)
  datatype Pack = Pack(id: string, lifecycle: Lifecycle, lists: ActionLists, classificationMax: Option<Classification>,
                       maxRuntimeSeconds: Option<nat>, egressClasses: seq<string>)

  datatype AuthorityInput = AuthorityInput(
    event: Event, identityVerified: bool, route: Route, globalPolicy: Policy, agent: Agent, workflow: Workflow,
    pack: Pack, session: ActionLists, principal: Ulid, purpose: string)

  datatype Refusal =
    | NotActive(kind: string, lifecycle: Lifecycle)
    | DenyRoute(id: string)
    | SourceNotVerified
    | ClassificationExceeded(found: Classification, max: Classification)

  datatype Outcome =
    | Composed(grant: TaskGrant)
    | Refused(reason: Refusal)
    | UnknownActionId(id: ActionId, source: string)

  // -------- specification --------

  function Rank(c: Classification): nat {
    match c case Public => 0 case Internal => 1 case Private => 2 case Unknown => 3
  }

  function Lifecycles(i: AuthorityInput): seq<(string, Lifecycle)> {
    [("route", i.route.lifecycle), ("agent", i.agent.lifecycle), ("workflow", i.workflow.lifecycle),
     ("capability_pack", i.pack.lifecycle), ("global_policy", i.globalPolicy.lifecycle)]
  }

  function FirstInactive(ls: seq<(string, Lifecycle)>): Option<Refusal>
    decreases |ls|
  {
    if ls == [] then None
    else if ls[0].1 != Active then Some(NotActive(ls[0].0, ls[0].1))
    else FirstInactive(ls[1..])
  }

  /** The refusals that precede the catalog check, in order. */
  function EarlyRefusal(i: AuthorityInput): Option<Refusal> {
    if FirstInactive(Lifecycles(i)).Some? then FirstInactive(Lifecycles(i))
    else if i.route.denies then Some(DenyRoute(i.route.id))
    else if i.route.verifiedSource == Some(true) && !(i.event.verifiedSource && i.identityVerified) then
      Some(SourceNotVerified)
    else None
  }

  /** The fifteen lists with their names, in the order in which they are checked. */
  function Sources(i: AuthorityInput): seq<(seq<ActionId>, string)> {
    [(i.agent.lists.allow, "agent.designed_tools"),
     (i.agent.lists.approval, "agent.approval_required_tools"),
     (i.agent.lists.deny, "agent.denied_tools"),
     (i.workflow.lists.allow, "workflow.candidate_allowed_actions"),
     (i.workflow.lists.approval, "workflow.approval_required"),
     (i.workflow.lists.deny, "workflow.denied_actions"),
     (i.pack.lists.allow, "pack.candidate_allowed_actions"),
     (i.pack.lists.approval, "pack.approval_required"),
     (i.pack.lists.deny, "pack.denied_actions"),
     (i.globalPolicy.lists.allow, "global_policy.candidate_allowed_actions"),
     (i.globalPolicy.lists.approval, "global_policy.approval_required"),
     (i.globalPolicy.lists.deny, "global_policy.denied_actions"),
     (i.session.allow, "session.candidate_allowed_actions"),
     (i.session.approval, "session.approval_required"),
     (i.session.deny, "session.denied_actions")]
  }

  ghost predicate AllKnown(ids: seq<ActionId>, catalog: ActionCatalog) { forall a :: a in ids ==> a in catalog.ids }

  ghost predicate SourcesKnown(sources: seq<(seq<ActionId>, string)>, catalog: ActionCatalog) {
    forall k :: 0 <= k < |sources| ==> AllKnown(sources[k].0, catalog)
  }

  /** `(id, source)` is the first unknown id, all lists and entries before it being known. */
  ghost predicate FirstUnknown(sources: seq<(seq<ActionId>, string)>, catalog: ActionCatalog, id: ActionId,
                               source: string) {
    exists k, j :: 0 <= k < |sources| && 0 <= j < |sources[k].0| && sources[k].0[j] == id && sources[k].1 == source
                && id !in catalog.ids
                && AllKnown(sources[k].0[..j], catalog)
                && forall m :: 0 <= m < k ==> AllKnown(sources[m].0, catalog)
  }

  predicate Candidate(i: AuthorityInput, a: ActionId) {
    a in i.agent.lists.allow || a in i.workflow.lists.allow || a in i.pack.lists.allow
  }

  predicate DenyListed(i: AuthorityInput, a: ActionId) {
    a in i.agent.lists.deny || a in i.workflow.lists.deny || a in i.pack.lists.deny
    || a in i.globalPolicy.lists.deny || a in i.session.deny
  }

  predicate ApprovalListed(i: AuthorityInput, a: ActionId) {
    a in i.agent.lists.approval || a in i.workflow.lists.approval || a in i.pack.lists.approval
    || a in i.globalPolicy.lists.approval || a in i.session.approval
  }

  /** An empty policy list does not narrow; a non-empty one is a whitelist. */
  predicate PassesPolicy(policy: seq<ActionId>, a: ActionId) { policy == [] || a in policy }

  /** Allowed outright: a candidate that passes both policies and is in no deny and no
      approval list. */
  predicate AllowedOutright(i: AuthorityInput, a: ActionId) {
    && Candidate(i, a) && PassesPolicy(i.globalPolicy.lists.allow, a) && PassesPolicy(i.session.allow, a)
    && !DenyListed(i, a) && !ApprovalListed(i, a)
  }

  function RuntimeSeconds(i: AuthorityInput): nat {
    match i.pack.maxRuntimeSeconds
    case Some(limit) => if limit <= i.agent.limits.maxRuntimeSeconds then limit else i.agent.limits.maxRuntimeSeconds
    case None => i.agent.limits.maxRuntimeSeconds
  }

  const NANOS_PER_SECOND := 1_000_000_000

  predicate TooSensitive(i: AuthorityInput) {
    i.pack.classificationMax.Some? && Rank(i.event.classification) > Rank(i.pack.classificationMax.value)
  }

  /** The lists of a composed grant: canonical, with exactly the right members. */
  ghost predicate ComposedLists(i: AuthorityInput, r: RootAuthority) {
    && (forall a :: a in r.deniedActions <==> DenyListed(i, a))
    && (forall a :: a in r.approvalRequiredActions <==> ApprovalListed(i, a) && !DenyListed(i, a))
    && (forall a :: a in r.allowedActions <==> AllowedOutright(i, a))
    && Elements(r.outputChannels) == Elements(i.agent.outputChannels)
    && Strict(StringLeq, r.deniedActions) && Strict(StringLeq, r.approvalRequiredActions)
    && Strict(StringLeq, r.allowedActions) && Strict(StringLeq, r.outputChannels)
  }

  /** An unsealed live root for this input. */
  ghost predicate ComposedGrant(i: AuthorityInput, now: int, id: Ulid, token: string, g: TaskGrant) {
    && ComposedLists(i, g.root)
    && g == TaskGrant(id, "kernel", now,
                      RootAuthority(NIL, now + RuntimeSeconds(i) * NANOS_PER_SECOND, g.root.allowedActions,
                                    g.root.approvalRequiredActions, g.root.deniedActions, i.pack.egressClasses,
                                    g.root.outputChannels, i.agent.limits.(maxRuntimeSeconds := RuntimeSeconds(i)),
                                    i.principal, i.purpose, i.event.id, i.route.id, i.agent.id, i.workflow.id,
                                    i.pack.id, None),
                      [], token, None, Live, [], [])
  }

  ghost predicate Composes(i: AuthorityInput, catalog: ActionCatalog, now: int, id: Ulid, token: string, o: Outcome) {
    if EarlyRefusal(i).Some? then o == Refused(EarlyRefusal(i).value)
    else if !SourcesKnown(Sources(i), catalog) then
      o.UnknownActionId? && FirstUnknown(Sources(i), catalog, o.id, o.source)
    else if TooSensitive(i) then
      o == Refused(ClassificationExceeded(i.event.classification, i.pack.classificationMax.value))
    else o.Composed? && ComposedGrant(i, now, id, token, o.grant)
  }

  // -------- the operation --------

  method UnknownCandidate(i: AuthorityInput, catalog: ActionCatalog) returns (r: Option<(ActionId, string)>)
    ensures r.None? <==> SourcesKnown(Sources(i), catalog)
    ensures r.Some? ==> FirstUnknown(Sources(i), catalog, r.value.0, r.value.1)
  {
    var sources := Sources(i);
    for k := 0 to |sources|
      invariant forall m :: 0 <= m < k ==> AllKnown(sources[m].0, catalog)
    {
      var (ids, name) := sources[k];
      for j := 0 to |ids|
        invariant AllKnown(ids[..j], catalog)
      {
        if ids[j] !in catalog.ids {
          r := Some((ids[j], name));
          UnknownNotKnown(sources, catalog, ids[j], name);
          return;
        }
        assert ids[..j + 1] == ids[..j] + [ids[j]];
      }
      assert ids[..|ids|] == ids;
    }
    r := None;
  }

  method Narrow(candidate: set<ActionId>, policy: seq<ActionId>) returns (r: set<ActionId>)
    ensures forall a :: a in r <==> a in candidate && PassesPolicy(policy, a)
  {
    if policy == [] { return candidate; }
    var allowed := Elements(policy);
    r := set a | a in candidate && a in allowed;
  }

  method CheckLifecycles(ls: seq<(string, Lifecycle)>) returns (r: Option<Refusal>)
    ensures r == FirstInactive(ls)
  {
    for k := 0 to |ls|
      invariant FirstInactive(ls) == FirstInactive(ls[k..])
    {
      if ls[k].1 != Active { return Some(NotActive(ls[k].0, ls[k].1)); }
      assert ls[k..][1..] == ls[k + 1..];
    }
    r := None;
  }

  method ComposeAuthority(i: AuthorityInput, catalog: ActionCatalog, now: int, id: Ulid,
                          token: string) returns (o: Outcome)
    ensures Composes(i, catalog, now, id, token, o)
  {
    var inactive := CheckLifecycles(Lifecycles(i));
    if inactive.Some? { return Refused(inactive.value); }
    if i.route.denies { return Refused(DenyRoute(i.route.id)); }
    if i.route.verifiedSource == Some(true) && !(i.event.verifiedSource && i.identityVerified) {
      return Refused(SourceNotVerified);
    }
    var unknown := UnknownCandidate(i, catalog);
    if unknown.Some? { return UnknownActionId(unknown.value.0, unknown.value.1); }
    var allow := GatherAllowed(i);
    if i.pack.classificationMax.Some? && Rank(i.event.classification) > Rank(i.pack.classificationMax.value) {
      return Refused(ClassificationExceeded(i.event.classification, i.pack.classificationMax.value));
    }
    var root := SettleLists(i, allow, now);
    o := Composed(TaskGrant(id, "kernel", now, root, [], token, None, Live, [], []));
  }

  /** Steps 1 to 3: gather the candidates, then narrow by both policies. */
  method GatherAllowed(i: AuthorityInput) returns (allow: set<ActionId>)
    ensures forall a :: a in allow <==>
              Candidate(i, a) && PassesPolicy(i.globalPolicy.lists.allow, a) && PassesPolicy(i.session.allow, a)
  {
    allow := {};
    allow := allow + Elements(i.agent.lists.allow);
    allow := allow + Elements(i.workflow.lists.allow);
    allow := allow + Elements(i.pack.lists.allow);
    allow := Narrow(allow, i.globalPolicy.lists.allow);
    allow := Narrow(allow, i.session.allow);
  }

  method GatherDenied(i: AuthorityInput) returns (deny: set<ActionId>)
    ensures forall a :: a in deny <==> DenyListed(i, a)
  {
    deny := {};
    deny := deny + Elements(i.agent.lists.deny);
    deny := deny + Elements(i.workflow.lists.deny);
    deny := deny + Elements(i.pack.lists.deny);
    deny := deny + Elements(i.globalPolicy.lists.deny);
    deny := deny + Elements(i.session.deny);
  }

  method GatherApproval(i: AuthorityInput) returns (approval: set<ActionId>)
    ensures forall a :: a in approval <==> ApprovalListed(i, a)
  {
    approval := {};
    approval := approval + Elements(i.agent.lists.approval);
    approval := approval + Elements(i.workflow.lists.approval);
    approval := approval + Elements(i.pack.lists.approval);
    approval := approval + Elements(i.globalPolicy.lists.approval);
    approval := approval + Elements(i.session.approval);
  }

  /** Steps 5 to 8: gather denies and approvals, settle precedence, list canonically. */
  method SettleLists(i: AuthorityInput, candidates: set<ActionId>, now: int) returns (r: RootAuthority)
    requires forall a :: a in candidates <==>
               Candidate(i, a) && PassesPolicy(i.globalPolicy.lists.allow, a) && PassesPolicy(i.session.allow, a)
    ensures ComposedLists(i, r)
    ensures r == RootAuthority(NIL, now + RuntimeSeconds(i) * NANOS_PER_SECOND, r.allowedActions,
                               r.approvalRequiredActions, r.deniedActions, i.pack.egressClasses,
                               r.outputChannels, i.agent.limits.(maxRuntimeSeconds := RuntimeSeconds(i)),
                               i.principal, i.purpose, i.event.id, i.route.id, i.agent.id, i.workflow.id, i.pack.id,
                               None)
  {
    var deny := GatherDenied(i);
    var approval := GatherApproval(i);
    approval := set a | a in approval && a !in deny;
    var allow := set a | a in candidates && a !in deny && a !in approval;
    var allowedActions := ListOf(allow);
    var approvalActions := ListOf(approval);
    var deniedActions := ListOf(deny);
    StringOrder();
    CanonicalIs(StringLeq, i.agent.outputChannels);
    var channels := Canonical(StringLeq, i.agent.outputChannels);
    r := RootAuthority(NIL, now + RuntimeSeconds(i) * NANOS_PER_SECOND, allowedActions, approvalActions, deniedActions,
                       i.pack.egressClasses, channels, i.agent.limits.(maxRuntimeSeconds := RuntimeSeconds(i)),
                       i.principal, i.purpose, i.event.id, i.route.id, i.agent.id, i.workflow.id, i.pack.id, None);
  }

  lemma UnknownNotKnown(sources: seq<(seq<ActionId>, string)>, catalog: ActionCatalog, id: ActionId, source: string)
    requires FirstUnknown(sources, catalog, id, source)
    ensures !SourcesKnown(sources, catalog)
  {
    var k, j :| 0 <= k < |sources| && 0 <= j < |sources[k].0| && sources[k].0[j] == id && sources[k].1 == source
             && id !in catalog.ids
             && AllKnown(sources[k].0[..j], catalog)
             && forall m :: 0 <= m < k ==> AllKnown(sources[m].0, catalog);
    assert sources[k].0[j] in sources[k].0;
    assert !AllKnown(sources[k].0, catalog);
  }
}
