/**
 * A transition configuration rebuilt from the engine's tests: six named
 * account states, the edges between them, and the policy those edges
 * amount to (which fraud intervention leads where, how a blocked account is
 * left, when a user-led completion is accepted). It also holds the
 * configurations the tests swap in to provoke each refusal.
 */
module TransitionConfig {
  import opened Wrappers
  import opened Constants
  import opened StateEngine

  datatype StateName =
    | AccountIsOkay
    | AccountIsSuspended
    | AccountNeedsPswReset
    | AccountNeedsIDReset
    | AccountNeedsIDResetAdnPswReset
    | AccountIsBlocked
    | AccountIsNotOkay

  function StateNameText(n: StateName): string
  {
    match n
    case AccountIsOkay => "AccountIsOkay"
    case AccountIsSuspended => "AccountIsSuspended"
    case AccountNeedsPswReset => "AccountNeedsPswReset"
    case AccountNeedsIDReset => "AccountNeedsIDReset"
    case AccountNeedsIDResetAdnPswReset => "AccountNeedsIDResetAdnPswReset"
    case AccountIsBlocked => "AccountIsBlocked"
    case AccountIsNotOkay => "AccountIsNotOkay"
  }

  // Flags as StateDetails(blocked, suspended, resetPassword, reproveIdentity).
  const OkayFlags: StateDetails := NoFlags
  const SuspendedFlags: StateDetails := StateDetails(false, true, false, false)
  const NeedsPswResetFlags: StateDetails := StateDetails(false, true, true, false)
  const NeedsIDResetFlags: StateDetails := StateDetails(false, true, false, true)
  const NeedsBothFlags: StateDetails := StateDetails(false, true, true, true)
  const BlockedFlags: StateDetails := StateDetails(true, false, false, false)
  const AllFlags: StateDetails := StateDetails(true, true, true, true)

  /** The names of the configured states (the tests also name a state that is never configured). */
  predicate Configured(n: StateName)
  {
    n != AccountIsNotOkay
  }

  const ConfiguredStates: set<StateName> := {
    AccountIsOkay, AccountIsSuspended, AccountNeedsPswReset,
    AccountNeedsIDReset, AccountNeedsIDResetAdnPswReset, AccountIsBlocked}

  function FlagsOf(n: StateName): StateDetails
    requires Configured(n)
  {
    match n
    case AccountIsOkay => OkayFlags
    case AccountIsSuspended => SuspendedFlags
    case AccountNeedsPswReset => NeedsPswResetFlags
    case AccountNeedsIDReset => NeedsIDResetFlags
    case AccountNeedsIDResetAdnPswReset => NeedsBothFlags
    case AccountIsBlocked => BlockedFlags
  }

  /** The position of each configured state in the configuration's node list. */
  function NodeIndex(n: StateName): nat
    requires Configured(n)
  {
    match n
    case AccountIsOkay => 0
    case AccountIsSuspended => 1
    case AccountNeedsPswReset => 2
    case AccountNeedsIDReset => 3
    case AccountNeedsIDResetAdnPswReset => 4
    case AccountIsBlocked => 5
  }

  /** The configuration of the account-state engine, as the tests exercise it (edges 12 and 13 mirror 8 and 9 for the test client). */
  const Config: Graph<StateName> := Graph(
    [Node(AccountIsOkay, OkayFlags),
     Node(AccountIsSuspended, SuspendedFlags),
     Node(AccountNeedsPswReset, NeedsPswResetFlags),
     Node(AccountNeedsIDReset, NeedsIDResetFlags),
     Node(AccountNeedsIDResetAdnPswReset, NeedsBothFlags),
     Node(AccountIsBlocked, BlockedFlags)],
    map n | n in ConfiguredStates :: AdjacencyOf(n),
    map id: nat | 1 <= id <= 13 :: EdgeById(id))

  /** The adjacency lists of the test configuration: the ids of the edges leaving each state, in order. */
  function AdjacencyOf(n: StateName): (r: seq<nat>)
    requires Configured(n)
    ensures forall k :: 0 <= k < |r| ==> 1 <= r[k] <= 13
  {
    match n
    case AccountIsOkay => [1, 3, 5, 6, 7]
    case AccountIsSuspended => [4, 5, 6, 7, 1]
    case AccountNeedsPswReset => [1, 4, 3, 8, 6, 7, 12]
    case AccountNeedsIDReset => [7, 5, 3, 4, 10, 1]
    case AccountNeedsIDResetAdnPswReset => [1, 6, 9, 5, 11, 4, 3, 13]
    case AccountIsBlocked => [2]
  }

  /** The edges of the test configuration, by id (ids 1 to 13). */
  function EdgeById(id: nat): Edge<StateName>
    requires 1 <= id <= 13
  {
    match id
    case 1 => Edge(AccountIsBlocked, FraudBlockAccount, Some(AisAccountBlocked))
    case 2 => Edge(AccountIsOkay, FraudUnblockAccount, Some(AisAccountUnblocked))
    case 3 => Edge(AccountIsSuspended, FraudSuspendAccount, Some(AisAccountSuspended))
    case 4 => Edge(AccountIsOkay, FraudUnsuspendAccount, Some(AisAccountUnsuspended))
    case 5 => Edge(AccountNeedsPswReset, FraudForcedUserPasswordReset, Some(AisForcedUserPasswordReset))
    case 6 => Edge(AccountNeedsIDReset, FraudForcedUserIdentityReverification, Some(AisForcedUserIdentityVerify))
    case 7 => Edge(AccountNeedsIDResetAdnPswReset, FraudForcedUserPasswordResetAndIdentityReverification,
                   Some(AisForcedUserPasswordResetAndIdentityVerify))
    case 8 => Edge(AccountIsOkay, AuthPasswordResetSuccessful, None)
    case 9 => Edge(AccountNeedsIDReset, AuthPasswordResetSuccessful, None)
    case 10 => Edge(AccountIsOkay, IpvAccountInterventionEnd, None)
    case 11 => Edge(AccountNeedsPswReset, IpvAccountInterventionEnd, None)
    case 12 => Edge(AccountIsOkay, AuthPasswordResetSuccessfulForTestClient, None)
    case 13 => Edge(AccountNeedsIDReset, AuthPasswordResetSuccessfulForTestClient, None)
    case _ => assert false; Edge(AccountIsOkay, FraudBlockAccount, None)
  }

  /** Each configured state sits at its own position, where it is found both by its name and by its flags. */
  lemma ConfigLookups(n: StateName)
    requires Configured(n)
    ensures NodeIndex(n) < |Config.nodes| && Config.nodes[NodeIndex(n)] == Node(n, FlagsOf(n))
    ensures FindByName(Config.nodes, n) == Some(NodeIndex(n))
    ensures FindByState(Config.nodes, FlagsOf(n)) == Some(NodeIndex(n))
  {
    FindByNameUnique(Config.nodes, NodeIndex(n));
    FindByStateUnique(Config.nodes, NodeIndex(n));
  }

  /** Every edge of the test configuration leads to a configured state. */
  lemma EdgesReachConfigured(id: nat)
    requires 1 <= id <= 13
    ensures Configured(EdgeById(id).to)
  {
  }

  /** The test configuration passes validation, and no two of its states share their flags. */
  lemma ConfigIsValid()
    ensures NewEngine(Config).Success?
    ensures forall i, j :: 0 <= i < j < |Config.nodes| ==> Config.nodes[i].state != Config.nodes[j].state
  {
    forall id | id in Config.edges
      ensures HasNode(Config, Config.edges[id].to)
    {
      var to := EdgeById(id).to;
      EdgesReachConfigured(id);
      ConfigLookups(to);
    }
  }

  /**
   * One step of the test configuration from a configured state, read off its
   * adjacency list and edges: the first edge fired by the event, refused
   * when it leads back to the same state.
   */
  function ConfigStep(n: StateName, e: EventName): Result<Transition<StateName>, TransitionError<StateName>>
    requires Configured(n)
  {
    var ids := AdjacencyOf(n);
    match FirstFiring(ids, e)
    case None => Failure(TransitionNotAllowed(e, n))
    case Some(k) =>
      var edge := EdgeById(ids[k]);
      EdgesReachConfigured(ids[k]);
      if edge.to == n then Failure(SameAsCurrentState)
      else Success(Transition(n, edge.to, FlagsOf(edge.to), edge.interventionName))
  }

  /** The position in ids of the first of the test configuration's edges that the event fires. */
  function FirstFiring(ids: seq<nat>, e: EventName, from: nat := 0): (r: Option<nat>)
    requires from <= |ids|
    requires forall k :: 0 <= k < |ids| ==> 1 <= ids[k] <= 13
    ensures r.Some? ==> from <= r.value < |ids| && EdgeById(ids[r.value]).event == e
    decreases |ids| - from
  {
    if from == |ids| then None
    else if EdgeById(ids[from]).event == e then Some(from)
    else FirstFiring(ids, e, from + 1)
  }

  /** On ids that name edges of the test configuration, the engine's edge lookup is FirstFiring. */
  lemma {:induction false} FindEdgeOnConfig(ids: seq<nat>, e: EventName, from: nat)
    requires from <= |ids|
    requires forall k :: 0 <= k < |ids| ==> 1 <= ids[k] <= 13
    ensures FindEdge(Config.edges, ids, e, from) == FirstFiring(ids, e, from)
    decreases |ids| - from
  {
    if from < |ids| {
      assert ids[from] in Config.edges && Config.edges[ids[from]] == EdgeById(ids[from]);
      FindEdgeOnConfig(ids, e, from + 1);
    }
  }

  /** Distinct configured states carry distinct flags. */
  lemma FlagsDistinct(a: StateName, b: StateName)
    requires Configured(a) && Configured(b)
    ensures FlagsOf(a) == FlagsOf(b) <==> a == b
  {
  }

  /** A configured state is found by its flags at a node of that name, which has the state's adjacency list. */
  lemma ConfigSource(n: StateName)
    requires Configured(n)
    ensures FindByState(Config.nodes, FlagsOf(n)) == Some(NodeIndex(n))
    ensures NodeIndex(n) < |Config.nodes| && Config.nodes[NodeIndex(n)].name == n
    ensures n in Config.adjacency && Config.adjacency[n] == AdjacencyOf(n) && AdjacencyOf(n) != []
  {
    ConfigLookups(n);
    assert n in ConfiguredStates;
  }

  /** An edge of the test configuration leads to a configured state, found by its name at a node with its flags. */
  lemma ConfigTarget(id: nat)
    requires id in Config.edges
    ensures Config.edges[id] == EdgeById(id) && Configured(EdgeById(id).to)
    ensures FindByName(Config.nodes, EdgeById(id).to) == Some(NodeIndex(EdgeById(id).to))
    ensures NodeIndex(EdgeById(id).to) < |Config.nodes|
    ensures Config.nodes[NodeIndex(EdgeById(id).to)].state == FlagsOf(EdgeById(id).to)
  {
    EdgesReachConfigured(id);
    ConfigLookups(EdgeById(id).to);
  }

  /** Resolving on the test configuration from a configured state is that step. */
  lemma ResolveOnConfig(n: StateName, e: EventName)
    requires Configured(n)
    ensures Resolve(Config, e, Some(FlagsOf(n))) == ConfigStep(n, e)
  {
    ConfigSource(n);
    var ids := AdjacencyOf(n);
    FindEdgeOnConfig(ids, e, 0);
    match FindEdge(Config.edges, ids, e)
    case None =>
    case Some(k) =>
      var id := ids[k];
      assert 1 <= id <= 13;
      ConfigTarget(id);
      FlagsDistinct(EdgeById(id).to, n);
  }

  // ---------------------------------------------------------------------
  // The transitions the tests expect

  /** An accepted transition: the state reached and the intervention recorded. */
  datatype Expected = Expected(target: StateName, name: Option<InterventionType>)

  /**
   * The tests' table of transitions: what each event does to an account in
   * each configured state; none where the event is refused. Every accepted
   * event leads to another configured state, and records an intervention
   * exactly when it is a fraud intervention.
   */
  function ExpectedTransition(n: StateName, e: EventName): (r: Option<Expected>)
    requires Configured(n)
    ensures r.Some? ==> Configured(r.value.target) && r.value.target != n
    ensures r.Some? ==> (r.value.name.Some? <==> !IsUserLed(e))
  {
    if n == AccountIsBlocked then
      if e == FraudUnblockAccount then Some(Expected(AccountIsOkay, Some(AisAccountUnblocked))) else None
    else match e
      case FraudBlockAccount => Some(Expected(AccountIsBlocked, Some(AisAccountBlocked)))
      case FraudUnblockAccount => None
      case FraudSuspendAccount =>
        if n == AccountIsSuspended then None else Some(Expected(AccountIsSuspended, Some(AisAccountSuspended)))
      case FraudUnsuspendAccount =>
        if n == AccountIsOkay then None else Some(Expected(AccountIsOkay, Some(AisAccountUnsuspended)))
      case FraudForcedUserPasswordReset =>
        if n == AccountNeedsPswReset then None else Some(Expected(AccountNeedsPswReset, Some(AisForcedUserPasswordReset)))
      case FraudForcedUserIdentityReverification =>
        if n == AccountNeedsIDReset then None else Some(Expected(AccountNeedsIDReset, Some(AisForcedUserIdentityVerify)))
      case FraudForcedUserPasswordResetAndIdentityReverification =>
        if n == AccountNeedsIDResetAdnPswReset then None
        else Some(Expected(AccountNeedsIDResetAdnPswReset, Some(AisForcedUserPasswordResetAndIdentityVerify)))
      case AuthPasswordResetSuccessful | AuthPasswordResetSuccessfulForTestClient =>
        if n == AccountNeedsPswReset then Some(Expected(AccountIsOkay, None))
        else if n == AccountNeedsIDResetAdnPswReset then Some(Expected(AccountNeedsIDReset, None))
        else None
      case IpvAccountInterventionEnd =>
        if n == AccountNeedsIDReset then Some(Expected(AccountIsOkay, None))
        else if n == AccountNeedsIDResetAdnPswReset then Some(Expected(AccountNeedsPswReset, None))
        else None
  }

  /** What resolving should give according to the table. */
  function TableResult(n: StateName, e: EventName): Result<Transition<StateName>, TransitionError<StateName>>
    requires Configured(n)
  {
    match ExpectedTransition(n, e)
    case None => Failure(TransitionNotAllowed(e, n))
    case Some(x) => Success(Transition(n, x.target, FlagsOf(x.target), x.name))
  }

  /** Each step from a configured state agrees with the table, for the interventions and for the completions. */
  lemma StepFollowsTable(n: StateName, e: EventName)
    requires Configured(n)
    ensures ConfigStep(n, e) == TableResult(n, e)
  {
    if !IsUserLed(e) {
      match n
      case AccountIsOkay => InterventionsFromOkay(e);
      case AccountIsSuspended => InterventionsFromSuspended(e);
      case AccountNeedsPswReset => InterventionsFromNeedsPswReset(e);
      case AccountNeedsIDReset => InterventionsFromNeedsIDReset(e);
      case AccountNeedsIDResetAdnPswReset => InterventionsFromNeedsBoth(e);
      case AccountIsBlocked => InterventionsFromBlocked(e);
    } else {
      match n
      case AccountIsOkay => CompletionsFromOkay(e);
      case AccountIsSuspended => CompletionsFromSuspended(e);
      case AccountNeedsPswReset => CompletionsFromNeedsPswReset(e);
      case AccountNeedsIDReset => CompletionsFromNeedsIDReset(e);
      case AccountNeedsIDResetAdnPswReset => CompletionsFromNeedsBoth(e);
      case AccountIsBlocked => CompletionsFromBlocked(e);
    }
  }

  lemma InterventionsFromOkay(e: EventName)
    requires !IsUserLed(e)
    ensures ConfigStep(AccountIsOkay, e) == TableResult(AccountIsOkay, e)
  {
    match e
    case FraudSuspendAccount =>
    case FraudUnsuspendAccount =>
    case FraudBlockAccount =>
    case FraudUnblockAccount =>
    case FraudForcedUserPasswordReset =>
    case FraudForcedUserIdentityReverification =>
    case FraudForcedUserPasswordResetAndIdentityReverification =>
    case _ => assert false;
  }

  lemma CompletionsFromOkay(e: EventName)
    requires IsUserLed(e)
    ensures ConfigStep(AccountIsOkay, e) == TableResult(AccountIsOkay, e)
  {
    match e
    case IpvAccountInterventionEnd =>
    case AuthPasswordResetSuccessful =>
    case AuthPasswordResetSuccessfulForTestClient =>
    case _ => assert false;
  }

  lemma InterventionsFromSuspended(e: EventName)
    requires !IsUserLed(e)
    ensures ConfigStep(AccountIsSuspended, e) == TableResult(AccountIsSuspended, e)
  {
    match e
    case FraudSuspendAccount =>
    case FraudUnsuspendAccount =>
    case FraudBlockAccount =>
    case FraudUnblockAccount =>
    case FraudForcedUserPasswordReset =>
    case FraudForcedUserIdentityReverification =>
    case FraudForcedUserPasswordResetAndIdentityReverification =>
    case _ => assert false;
  }

  lemma CompletionsFromSuspended(e: EventName)
    requires IsUserLed(e)
    ensures ConfigStep(AccountIsSuspended, e) == TableResult(AccountIsSuspended, e)
  {
    match e
    case IpvAccountInterventionEnd =>
    case AuthPasswordResetSuccessful =>
    case AuthPasswordResetSuccessfulForTestClient =>
    case _ => assert false;
  }

  lemma InterventionsFromNeedsPswReset(e: EventName)
    requires !IsUserLed(e)
    ensures ConfigStep(AccountNeedsPswReset, e) == TableResult(AccountNeedsPswReset, e)
  {
    match e
    case FraudSuspendAccount =>
    case FraudUnsuspendAccount =>
    case FraudBlockAccount =>
    case FraudUnblockAccount =>
    case FraudForcedUserPasswordReset =>
    case FraudForcedUserIdentityReverification =>
    case FraudForcedUserPasswordResetAndIdentityReverification =>
    case _ => assert false;
  }

  lemma CompletionsFromNeedsPswReset(e: EventName)
    requires IsUserLed(e)
    ensures ConfigStep(AccountNeedsPswReset, e) == TableResult(AccountNeedsPswReset, e)
  {
    match e
    case IpvAccountInterventionEnd =>
    case AuthPasswordResetSuccessful =>
    case AuthPasswordResetSuccessfulForTestClient =>
    case _ => assert false;
  }

  lemma InterventionsFromNeedsIDReset(e: EventName)
    requires !IsUserLed(e)
    ensures ConfigStep(AccountNeedsIDReset, e) == TableResult(AccountNeedsIDReset, e)
  {
    match e
    case FraudSuspendAccount =>
    case FraudUnsuspendAccount =>
    case FraudBlockAccount =>
    case FraudUnblockAccount =>
    case FraudForcedUserPasswordReset =>
    case FraudForcedUserIdentityReverification =>
    case FraudForcedUserPasswordResetAndIdentityReverification =>
    case _ => assert false;
  }

  lemma CompletionsFromNeedsIDReset(e: EventName)
    requires IsUserLed(e)
    ensures ConfigStep(AccountNeedsIDReset, e) == TableResult(AccountNeedsIDReset, e)
  {
    match e
    case IpvAccountInterventionEnd =>
    case AuthPasswordResetSuccessful =>
    case AuthPasswordResetSuccessfulForTestClient =>
    case _ => assert false;
  }

  lemma InterventionsFromNeedsBoth(e: EventName)
    requires !IsUserLed(e)
    ensures ConfigStep(AccountNeedsIDResetAdnPswReset, e) == TableResult(AccountNeedsIDResetAdnPswReset, e)
  {
    match e
    case FraudSuspendAccount =>
    case FraudUnsuspendAccount =>
    case FraudBlockAccount =>
    case FraudUnblockAccount =>
    case FraudForcedUserPasswordReset =>
    case FraudForcedUserIdentityReverification =>
    case FraudForcedUserPasswordResetAndIdentityReverification =>
    case _ => assert false;
  }

  lemma CompletionsFromNeedsBoth(e: EventName)
    requires IsUserLed(e)
    ensures ConfigStep(AccountNeedsIDResetAdnPswReset, e) == TableResult(AccountNeedsIDResetAdnPswReset, e)
  {
    match e
    case IpvAccountInterventionEnd =>
    case AuthPasswordResetSuccessful =>
    case AuthPasswordResetSuccessfulForTestClient =>
    case _ => assert false;
  }

  lemma InterventionsFromBlocked(e: EventName)
    requires !IsUserLed(e)
    ensures ConfigStep(AccountIsBlocked, e) == TableResult(AccountIsBlocked, e)
  {
    match e
    case FraudSuspendAccount =>
    case FraudUnsuspendAccount =>
    case FraudBlockAccount =>
    case FraudUnblockAccount =>
    case FraudForcedUserPasswordReset =>
    case FraudForcedUserIdentityReverification =>
    case FraudForcedUserPasswordResetAndIdentityReverification =>
    case _ => assert false;
  }

  lemma CompletionsFromBlocked(e: EventName)
    requires IsUserLed(e)
    ensures ConfigStep(AccountIsBlocked, e) == TableResult(AccountIsBlocked, e)
  {
    match e
    case IpvAccountInterventionEnd =>
    case AuthPasswordResetSuccessful =>
    case AuthPasswordResetSuccessfulForTestClient =>
    case _ => assert false;
  }


  /**
   * The test configuration resolves every event, from every configured
   * state, exactly as the tests' table says; an account with no record is
   * resolved as one with no flags.
   */
  lemma ConfigFollowsTable(n: StateName, e: EventName)
    requires Configured(n)
    ensures Resolve(Config, e, Some(FlagsOf(n))) == TableResult(n, e)
    ensures Resolve(Config, e, None) == TableResult(AccountIsOkay, e)
  {
    ResolveOnConfig(n, e);
    ResolveOnConfig(AccountIsOkay, e);
    NoRecordIsNoFlags(Config, e);
    StepFollowsTable(n, e);
    StepFollowsTable(AccountIsOkay, e);
  }

  // ---------------------------------------------------------------------
  // The policy the table amounts to

  /** Where a fraud intervention leads, whatever the state it is applied to, and the intervention it records. */
  datatype Outcome = Outcome(target: StateDetails, name: InterventionType)

  /** The fraud interventions applicable to an open account and their outcomes; none for the other events. */
  function FraudOutcome(e: EventName): Option<Outcome>
  {
    match e
    case FraudBlockAccount => Some(Outcome(BlockedFlags, AisAccountBlocked))
    case FraudSuspendAccount => Some(Outcome(SuspendedFlags, AisAccountSuspended))
    case FraudUnsuspendAccount => Some(Outcome(OkayFlags, AisAccountUnsuspended))
    case FraudForcedUserPasswordReset => Some(Outcome(NeedsPswResetFlags, AisForcedUserPasswordReset))
    case FraudForcedUserIdentityReverification => Some(Outcome(NeedsIDResetFlags, AisForcedUserIdentityVerify))
    case FraudForcedUserPasswordResetAndIdentityReverification =>
      Some(Outcome(NeedsBothFlags, AisForcedUserPasswordResetAndIdentityVerify))
    case _ => None
  }

  /**
   * A fraud intervention applied to an open account (any configured state
   * but blocked) leads to the same state and records the same intervention
   * whatever the state it starts from; it is refused only where the account
   * already is in that state.
   */
  lemma FraudPolicy(e: EventName, n: StateName)
    requires FraudOutcome(e).Some? && Configured(n) && n != AccountIsBlocked
    ensures var o := FraudOutcome(e).value;
      var r := Resolve(Config, e, Some(FlagsOf(n)));
      && (r.Success? <==> o.target != FlagsOf(n))
      && (r.Success? ==> r.value.target == o.target && r.value.interventionName == Some(o.name))
  {
    ConfigFollowsTable(n, e);
  }

  /** A blocked account accepts only the unblock intervention, which reopens it with no flags. */
  lemma BlockedPolicy(e: EventName)
    ensures Resolve(Config, e, Some(BlockedFlags)).Success? <==> e == FraudUnblockAccount
    ensures e == FraudUnblockAccount ==>
      Resolve(Config, e, Some(BlockedFlags)) == Success(Transition(AccountIsBlocked, AccountIsOkay, OkayFlags, Some(AisAccountUnblocked)))
  {
    ConfigFollowsTable(AccountIsBlocked, e);
  }

  /** The unblock intervention is refused on every account that is not blocked, including one with no record. */
  lemma UnblockOnlyFromBlocked(n: StateName)
    requires Configured(n) && n != AccountIsBlocked
    ensures Resolve(Config, FraudUnblockAccount, Some(FlagsOf(n))).Failure?
    ensures Resolve(Config, FraudUnblockAccount, None).Failure?
  {
    ConfigFollowsTable(n, FraudUnblockAccount);
  }

  /**
   * A successful password reset is accepted exactly where a password reset
   * is pending; it clears that requirement, and the account stays suspended
   * exactly when an identity re-proof is still pending.
   */
  lemma PasswordResetPolicy(n: StateName, e: EventName)
    requires Configured(n) && IsPasswordResetSuccess(e)
    ensures var s := FlagsOf(n);
      var r := Resolve(Config, e, Some(s));
      && (r.Success? <==> s.resetPassword)
      && (r.Success? ==> r.value.target == StateDetails(false, s.reproveIdentity, false, s.reproveIdentity))
      && (r.Success? ==> r.value.interventionName.None?)
  {
    ConfigFollowsTable(n, e);
  }

  /**
   * A successful identity re-proof is accepted exactly where one is
   * pending; it clears that requirement, and the account stays suspended
   * exactly when a password reset is still pending.
   */
  lemma IdentityPolicy(n: StateName)
    requires Configured(n)
    ensures var s := FlagsOf(n);
      var r := Resolve(Config, IpvAccountInterventionEnd, Some(s));
      && (r.Success? <==> s.reproveIdentity)
      && (r.Success? ==> r.value.target == StateDetails(false, s.resetPassword, s.resetPassword, false))
      && (r.Success? ==> r.value.interventionName.None?)
  {
    ConfigFollowsTable(n, IpvAccountInterventionEnd);
  }

  /** An account whose flags match no configured state is refused whatever the event, with its own message and metric. */
  lemma UnknownStateRefused(e: EventName)
    ensures Resolve(Config, e, Some(AllFlags)) == Failure(StateNotFound)
    ensures ErrorMessage<StateName>(StateNotFound, StateNameText) ==
      Some("Account state does not exists in current configuration.")
    ensures ErrorMetric<StateName>(StateNotFound) == Some(StateNotFoundInCurrentConfig)
  {
    StateNotFoundExactly(Config, e, Some(AllFlags));
  }

  // ---------------------------------------------------------------------
  // Configurations swapped in to provoke the refusals

  /** Two states sharing the no-flag state; the only edge leads from one to the other. */
  const SameFlagsConfig: Graph<StateName> := Graph(
    [Node(AccountIsOkay, NoFlags), Node(AccountIsBlocked, NoFlags)],
    map[AccountIsOkay := [1]],
    map[1 := Edge(AccountIsBlocked, FraudBlockAccount, Some(AisAccountBlocked))])

  /** A blocked state with no adjacency list. */
  const NoTransitionsConfig: Graph<StateName> := Graph(
    [Node(AccountIsOkay, NoFlags), Node(AccountIsBlocked, BlockedFlags)],
    map[AccountIsOkay := [1]],
    map[1 := Edge(AccountIsBlocked, FraudBlockAccount, Some(AisAccountBlocked))])

  /** An edge to a state the configuration does not define. */
  const MissingTargetConfig: Graph<StateName> := Graph(
    [Node(AccountIsOkay, NoFlags), Node(AccountIsBlocked, NoFlags)],
    map[AccountIsOkay := [1]],
    map[1 := Edge(AccountIsNotOkay, FraudBlockAccount, Some(AisAccountBlocked))])

  /** A node without an adjacency list. */
  const MissingAdjacencyConfig: Graph<StateName> := Graph(
    [Node(AccountIsOkay, NoFlags), Node(AccountIsBlocked, NoFlags)],
    map[AccountIsOkay := [1]],
    map[1 := Edge(AccountIsOkay, FraudBlockAccount, Some(AisAccountBlocked))])

  /** Every node has an adjacency list, but the edge leads to an undefined state. */
  const DanglingEdgeConfig: Graph<StateName> := Graph(
    [Node(AccountIsOkay, NoFlags), Node(AccountIsBlocked, NoFlags)],
    map[AccountIsOkay := [1], AccountIsBlocked := [1]],
    map[1 := Edge(AccountIsNotOkay, FraudBlockAccount, Some(AisAccountBlocked))])

  /** An edge whose target carries the current flags is refused as a transition to the same state. */
  lemma SameFlagsRefused()
    ensures var r := Resolve(SameFlagsConfig, FraudBlockAccount, Some(NoFlags));
      && r == Failure(SameAsCurrentState)
      && ErrorMessage(r.error, StateNameText) == Some("Computed new state is the same as the current state.")
      && ErrorMetric(r.error) == Some(TransitionSameAsCurrentState)
  {
    var g := SameFlagsConfig;
    assert FindByState(g.nodes, NoFlags) == Some(0);
    assert FindEdge(g.edges, g.adjacency[AccountIsOkay], FraudBlockAccount) == Some(0);
    assert FindByName(g.nodes, AccountIsBlocked, 1) == Some(1);
    assert FindByName(g.nodes, AccountIsBlocked) == Some(1);
  }

  /** A state without an adjacency list refuses every event, naming the state. */
  lemma NoTransitionsRefused(e: EventName)
    ensures var r := Resolve(NoTransitionsConfig, e, Some(BlockedFlags));
      && r == Failure(NoTransitions(AccountIsBlocked))
      && ErrorMessage(r.error, StateNameText) ==
           Some("There are no allowed transitions from state " + "AccountIsBlocked" + " in current configurations")
      && ErrorMetric(r.error) == Some(NoTransitionsFoundInConfig)
  {
    var g := NoTransitionsConfig;
    assert FindByState(g.nodes, BlockedFlags) == Some(1);
  }

  /** An edge to an undefined state is refused when taken, naming the missing state. */
  lemma MissingTargetRefused()
    ensures var r := Resolve(MissingTargetConfig, FraudBlockAccount, Some(NoFlags));
      && r == Failure(TargetStateNotFound(AccountIsNotOkay))
      && ErrorMessage(r.error, StateNameText) == Some("state " + "AccountIsNotOkay" + " not found in current config.")
      && ErrorMetric(r.error) == Some(StateNotFoundInCurrentConfig)
  {
    var g := MissingTargetConfig;
    assert FindByState(g.nodes, NoFlags) == Some(0);
    assert FindEdge(g.edges, g.adjacency[AccountIsOkay], FraudBlockAccount) == Some(0);
    FindByNameSpec(g.nodes, AccountIsNotOkay, 0);
    assert FindByName(g.nodes, AccountIsNotOkay) == None;
  }

  /** Building an engine refuses both malformed configurations. */
  lemma MalformedConfigsRejected()
    ensures NewEngine(MissingAdjacencyConfig) == Failure(InvalidConfiguration)
    ensures NewEngine(DanglingEdgeConfig) == Failure(InvalidConfiguration)
    ensures InvalidConfigurationMessage == "Invalid state engine configuration detected."
    ensures ConfigErrorMetric(InvalidConfiguration) == InvalidStateEngineConfiguration
  {
    assert MissingAdjacencyConfig.nodes[1].name !in MissingAdjacencyConfig.adjacency;
    assert !HasNode(DanglingEdgeConfig, DanglingEdgeConfig.edges[1].to);
  }

  /** A code missing from the code table is refused, with the code in the message. */
  lemma UnknownCodeRefused(codes: map<nat, EventName>)
    requires 111 !in codes
    ensures InterventionForCode(codes, 111) == Failure(CodeNotFound(111))
    ensures CodeErrorMessage(CodeNotFound(111)) == "code: " + "111" + " is not found in current configuration"
    ensures CodeErrorMetric(CodeNotFound(111)) == NoInterventionFoundForThisCode
  {
    assert DecimalText(1) == "1";
    assert DecimalText(11) == "11";
    assert DecimalText(111) == "111";
  }
}
