/**
 * The account-state transition policy: a configuration graph whose nodes are
 * named account states (four flags each), whose adjacency lists give the
 * edges leaving each node, and whose edges carry the event that fires them,
 * the node they lead to and, for fraud interventions, the intervention name.
 *
 * A graph is validated once, when an engine is built from it; Resolve then
 * answers, for an event and the account's current flags (none when the
 * account has no record yet), either the target flags and intervention name
 * or the reason the event is refused.
 *
 * Node names are a type parameter: the service uses strings, the test
 * configuration in TransitionConfig an enumeration of its state names.
 */
module StateEngine {
  import opened Wrappers
  import opened Constants

  datatype Node<N> = Node(name: N, state: StateDetails)

  datatype Edge<N> = Edge(to: N, event: EventName, interventionName: Option<InterventionType>)

  /** A transition configuration: nodes in declaration order, adjacency lists of edge ids, and the edges by id. */
  datatype Graph<N(==)> = Graph(nodes: seq<Node<N>>, adjacency: map<N, seq<nat>>, edges: map<nat, Edge<N>>)

  /** A resolved transition: the node left, the node reached, its flags and the intervention name of the edge taken. */
  datatype Transition<N> = Transition(from: N, to: N, target: StateDetails, interventionName: Option<InterventionType>)

  /** Why an event is refused. */
  datatype TransitionError<N> =
    | StateNotFound
    | NoTransitions(state: N)
    | TransitionNotAllowed(event: EventName, state: N)
    | TargetStateNotFound(target: N)
    | SameAsCurrentState

  datatype ConfigError = InvalidConfiguration

  /** The flags of an account with no intervention on record. */
  const NoFlags: StateDetails := StateDetails(false, false, false, false)

  /** The flags an account is taken to have: its record's, or none when it has no record. */
  function CurrentFlags(current: Option<StateDetails>): StateDetails
  {
    if current.Some? then current.value else NoFlags
  }

  predicate HasNode<N(==)>(g: Graph<N>, name: N)
  {
    exists i :: 0 <= i < |g.nodes| && g.nodes[i].name == name
  }

  /**
   * A valid configuration: every node has an adjacency list (possibly
   * empty), every edge id an adjacency list names is an edge, and every edge
   * leads to a node of the graph.
   */
  predicate ValidConfiguration<N(==)>(g: Graph<N>)
  {
    && (forall i :: 0 <= i < |g.nodes| ==> g.nodes[i].name in g.adjacency)
    && (forall n, k :: n in g.adjacency && 0 <= k < |g.adjacency[n]| ==> g.adjacency[n][k] in g.edges)
    && (forall id :: id in g.edges ==> HasNode(g, g.edges[id].to))
  }

  /** An engine holds a configuration that passed validation. */
  type Engine<N(==)> = g: Graph<N> | ValidConfiguration(g) witness Graph([], map[], map[])

  /** getInstance: builds an engine from a configuration, refusing an invalid one. */
  function NewEngine<N(==)>(g: Graph<N>): (r: Result<Engine<N>, ConfigError>)
    ensures r.Success? <==> ValidConfiguration(g)
    ensures r.Success? ==> r.value == g
  {
    if ValidConfiguration(g) then Success(g) else Failure(InvalidConfiguration)
  }

  // ---------------------------------------------------------------------
  // Lookups

  /** The position of the first node, at or after position from, with the given flags. */
  function FindByState<N(==)>(nodes: seq<Node<N>>, s: StateDetails, from: nat := 0): (r: Option<nat>)
    requires from <= |nodes|
    ensures r.Some? ==> from <= r.value < |nodes| && nodes[r.value].state == s
    decreases |nodes| - from
  {
    if from == |nodes| then None
    else if nodes[from].state == s then Some(from)
    else FindByState(nodes, s, from + 1)
  }

  /** FindByState finds the first node at or after from with the flags, and finds none exactly when there is none. */
  lemma {:induction false} FindByStateSpec<N>(nodes: seq<Node<N>>, s: StateDetails, from: nat)
    requires from <= |nodes|
    ensures var r := FindByState(nodes, s, from);
      && (r.Some? ==> from <= r.value < |nodes| && nodes[r.value].state == s)
      && (r.Some? ==> forall j :: from <= j < r.value ==> nodes[j].state != s)
      && (r.None? <==> forall j :: from <= j < |nodes| ==> nodes[j].state != s)
    decreases |nodes| - from
  {
    if from < |nodes| && nodes[from].state != s {
      FindByStateSpec(nodes, s, from + 1);
    }
  }

  /** The position of the first node, at or after position from, with the given name. */
  function FindByName<N(==)>(nodes: seq<Node<N>>, name: N, from: nat := 0): (r: Option<nat>)
    requires from <= |nodes|
    ensures r.Some? ==> from <= r.value < |nodes| && nodes[r.value].name == name
    decreases |nodes| - from
  {
    if from == |nodes| then None
    else if nodes[from].name == name then Some(from)
    else FindByName(nodes, name, from + 1)
  }

  /** FindByName finds the first node at or after from with the name, and finds none exactly when there is none. */
  lemma {:induction false} FindByNameSpec<N>(nodes: seq<Node<N>>, name: N, from: nat)
    requires from <= |nodes|
    ensures var r := FindByName(nodes, name, from);
      && (r.Some? ==> from <= r.value < |nodes| && nodes[r.value].name == name)
      && (r.Some? ==> forall j :: from <= j < r.value ==> nodes[j].name != name)
      && (r.None? <==> forall j :: from <= j < |nodes| ==> nodes[j].name != name)
    decreases |nodes| - from
  {
    if from < |nodes| && nodes[from].name != name {
      FindByNameSpec(nodes, name, from + 1);
    }
  }

  /** In a sequence of nodes with pairwise distinct flags, each node is found by its flags. */
  lemma FindByStateUnique<N>(nodes: seq<Node<N>>, i: nat)
    requires i < |nodes| && forall j :: 0 <= j < |nodes| && j != i ==> nodes[j].state != nodes[i].state
    ensures FindByState(nodes, nodes[i].state) == Some(i)
  {
    FindByStateSpec(nodes, nodes[i].state, 0);
  }

  /** In a sequence of nodes with pairwise distinct names, each node is found by its name. */
  lemma FindByNameUnique<N>(nodes: seq<Node<N>>, i: nat)
    requires i < |nodes| && forall j :: 0 <= j < |nodes| && j != i ==> nodes[j].name != nodes[i].name
    ensures FindByName(nodes, nodes[i].name) == Some(i)
  {
    FindByNameSpec(nodes, nodes[i].name, 0);
  }

  /** An adjacency entry that names an edge fired by the event. */
  predicate Fires<N(==)>(edges: map<nat, Edge<N>>, id: nat, event: EventName)
  {
    id in edges && edges[id].event == event
  }

  /** The position, at or after position from in an adjacency list, of the first edge fired by the event. */
  function FindEdge<N(==)>(edges: map<nat, Edge<N>>, ids: seq<nat>, event: EventName, from: nat := 0): (r: Option<nat>)
    requires from <= |ids|
    ensures r.Some? ==> from <= r.value < |ids| && Fires(edges, ids[r.value], event)
    decreases |ids| - from
  {
    if from == |ids| then None
    else if Fires(edges, ids[from], event) then Some(from)
    else FindEdge(edges, ids, event, from + 1)
  }

  /** FindEdge finds the first entry at or after from whose edge the event fires, and none exactly when there is none. */
  lemma {:induction false} FindEdgeSpec<N>(edges: map<nat, Edge<N>>, ids: seq<nat>, event: EventName, from: nat)
    requires from <= |ids|
    ensures var r := FindEdge(edges, ids, event, from);
      && (r.Some? ==> from <= r.value < |ids| && Fires(edges, ids[r.value], event))
      && (r.Some? ==> forall k :: from <= k < r.value ==> !Fires(edges, ids[k], event))
      && (r.None? <==> forall k :: from <= k < |ids| ==> !Fires(edges, ids[k], event))
    decreases |ids| - from
  {
    if from < |ids| && !Fires(edges, ids[from], event) {
      FindEdgeSpec(edges, ids, event, from + 1);
    }
  }

  // ---------------------------------------------------------------------
  // Resolution

  /**
   * applyEventTransition: finds the node of the current flags, the first edge
   * of its adjacency list fired by the event, and the node that edge leads
   * to; refuses the event when any of these is missing, when the adjacency
   * list is absent or empty, or when the target flags are the current ones.
   */
  function Resolve<N(==)>(g: Graph<N>, event: EventName, current: Option<StateDetails>): (r: Result<Transition<N>, TransitionError<N>>)
    ensures r.Success? ==> r.value.target != CurrentFlags(current)
  {
    var flags := CurrentFlags(current);
    match FindByState(g.nodes, flags)
    case None => Failure(StateNotFound)
    case Some(i) =>
      var from := g.nodes[i].name;
      if from !in g.adjacency || g.adjacency[from] == [] then Failure(NoTransitions(from))
      else
        var ids := g.adjacency[from];
        match FindEdge(g.edges, ids, event)
        case None => Failure(TransitionNotAllowed(event, from))
        case Some(k) =>
          var edge := g.edges[ids[k]];
          match FindByName(g.nodes, edge.to)
          case None => Failure(TargetStateNotFound(edge.to))
          case Some(j) =>
            if g.nodes[j].state == flags then Failure(SameAsCurrentState)
            else Success(Transition(from, edge.to, g.nodes[j].state, edge.interventionName))
  }

  /** An account with no record is resolved as one whose flags are all unset. */
  lemma NoRecordIsNoFlags<N>(g: Graph<N>, event: EventName)
    ensures Resolve(g, event, None) == Resolve(g, event, Some(NoFlags))
  {
  }

  /** An account whose flags no node carries is refused as not found, and only such an account. */
  lemma StateNotFoundExactly<N>(g: Graph<N>, event: EventName, current: Option<StateDetails>)
    ensures Resolve(g, event, current) == Failure(StateNotFound) <==>
      forall i :: 0 <= i < |g.nodes| ==> g.nodes[i].state != CurrentFlags(current)
  {
    FindByStateSpec(g.nodes, CurrentFlags(current), 0);
  }

  /**
   * applyEventTransition on a validated engine: a missing target node cannot
   * be reported there, since every edge reaches a node, and a state is
   * reported to have no transitions only when its adjacency list is empty.
   */
  function ApplyEventTransition<N(==)>(engine: Engine<N>, event: EventName, current: Option<StateDetails>): (r: Result<Transition<N>, TransitionError<N>>)
    ensures r.Failure? ==> !r.error.TargetStateNotFound?
    ensures r.Failure? && r.error.NoTransitions? ==> r.error.state in engine.adjacency && engine.adjacency[r.error.state] == []
  {
    ValidEngineResolves(engine, event, current);
    Resolve(engine, event, current)
  }

  /**
   * On a valid configuration, a missing target node is never reported, and
   * a missing adjacency list is reported only for a state whose list is
   * empty.
   */
  lemma ValidEngineResolves<N>(g: Graph<N>, event: EventName, current: Option<StateDetails>)
    requires ValidConfiguration(g)
    ensures var r := Resolve(g, event, current);
      && (r.Failure? ==> !r.error.TargetStateNotFound?)
      && (r.Failure? && r.error.NoTransitions? ==> r.error.state in g.adjacency && g.adjacency[r.error.state] == [])
  {
    var flags := CurrentFlags(current);
    FindByStateSpec(g.nodes, flags, 0);
    if FindByState(g.nodes, flags).Some? {
      var i := FindByState(g.nodes, flags).value;
      var ids := g.adjacency[g.nodes[i].name];
      FindEdgeSpec(g.edges, ids, event, 0);
      if FindEdge(g.edges, ids, event).Some? {
        var edge := g.edges[ids[FindEdge(g.edges, ids, event).value]];
        FindByNameSpec(g.nodes, edge.to, 0);
      }
    }
  }

  /**
   * Every successful resolution follows one edge: the current flags are those
   * of the first node carrying them, the edge is the first one of that node's
   * adjacency list fired by the event, and the target is the first node named
   * by the edge.
   */
  lemma ResolvedEdge<N>(g: Graph<N>, event: EventName, current: Option<StateDetails>) returns (i: nat, k: nat, j: nat)
    requires Resolve(g, event, current).Success?
    ensures i < |g.nodes| && g.nodes[i].state == CurrentFlags(current)
    ensures forall i' :: 0 <= i' < i ==> g.nodes[i'].state != CurrentFlags(current)
    ensures g.nodes[i].name in g.adjacency && k < |g.adjacency[g.nodes[i].name]|
    ensures Fires(g.edges, g.adjacency[g.nodes[i].name][k], event)
    ensures forall k' :: 0 <= k' < k ==> !Fires(g.edges, g.adjacency[g.nodes[i].name][k'], event)
    ensures j < |g.nodes| && g.nodes[j].name == g.edges[g.adjacency[g.nodes[i].name][k]].to
    ensures forall j' :: 0 <= j' < j ==> g.nodes[j'].name != g.nodes[j].name
    ensures Resolve(g, event, current) ==
      Success(Transition(g.nodes[i].name, g.nodes[j].name, g.nodes[j].state, g.edges[g.adjacency[g.nodes[i].name][k]].interventionName))
  {
    FindByStateSpec(g.nodes, CurrentFlags(current), 0);
    i := FindByState(g.nodes, CurrentFlags(current)).value;
    var ids := g.adjacency[g.nodes[i].name];
    FindEdgeSpec(g.edges, ids, event, 0);
    k := FindEdge(g.edges, ids, event).value;
    FindByNameSpec(g.nodes, g.edges[ids[k]].to, 0);
    j := FindByName(g.nodes, g.edges[ids[k]].to).value;
  }

  /**
   * Conversely, an event fired from the current node along an edge to a node
   * with other flags is accepted, provided no earlier edge of the list is
   * fired by the same event.
   */
  lemma {:induction false} EdgeResolves<N>(g: Graph<N>, event: EventName, current: Option<StateDetails>, i: nat, k: nat, j: nat)
    requires i < |g.nodes| && g.nodes[i].state == CurrentFlags(current)
    requires forall i' :: 0 <= i' < i ==> g.nodes[i'].state != CurrentFlags(current)
    requires g.nodes[i].name in g.adjacency && k < |g.adjacency[g.nodes[i].name]|
    requires Fires(g.edges, g.adjacency[g.nodes[i].name][k], event)
    requires forall k' :: 0 <= k' < k ==> !Fires(g.edges, g.adjacency[g.nodes[i].name][k'], event)
    requires j < |g.nodes| && g.nodes[j].name == g.edges[g.adjacency[g.nodes[i].name][k]].to
    requires forall j' :: 0 <= j' < j ==> g.nodes[j'].name != g.nodes[j].name
    requires g.nodes[j].state != CurrentFlags(current)
    ensures Resolve(g, event, current) ==
      Success(Transition(g.nodes[i].name, g.nodes[j].name, g.nodes[j].state, g.edges[g.adjacency[g.nodes[i].name][k]].interventionName))
  {
    var ids := g.adjacency[g.nodes[i].name];
    FindByStateSpec(g.nodes, CurrentFlags(current), 0);
    assert FindByState(g.nodes, CurrentFlags(current)) == Some(i);
    FindEdgeSpec(g.edges, ids, event, 0);
    assert FindEdge(g.edges, ids, event) == Some(k);
    FindByNameSpec(g.nodes, g.edges[ids[k]].to, 0);
    assert FindByName(g.nodes, g.edges[ids[k]].to) == Some(j);
  }

  /** An event that fires no edge of the current node's adjacency list is refused as not allowed there. */
  lemma EventNotAllowed<N>(g: Graph<N>, event: EventName, current: Option<StateDetails>, i: nat)
    requires i < |g.nodes| && g.nodes[i].state == CurrentFlags(current)
    requires forall i' :: 0 <= i' < i ==> g.nodes[i'].state != CurrentFlags(current)
    requires g.nodes[i].name in g.adjacency && g.adjacency[g.nodes[i].name] != []
    requires forall k :: 0 <= k < |g.adjacency[g.nodes[i].name]| ==> !Fires(g.edges, g.adjacency[g.nodes[i].name][k], event)
    ensures Resolve(g, event, current) == Failure(TransitionNotAllowed(event, g.nodes[i].name))
  {
    FindByStateSpec(g.nodes, CurrentFlags(current), 0);
    assert FindByState(g.nodes, CurrentFlags(current)) == Some(i);
    FindEdgeSpec(g.edges, g.adjacency[g.nodes[i].name], event, 0);
  }

  /** The node of the current flags refuses every event as having no transitions exactly when its adjacency list is absent or empty. */
  lemma NoTransitionsExactly<N>(g: Graph<N>, event: EventName, current: Option<StateDetails>, i: nat)
    requires i < |g.nodes| && g.nodes[i].state == CurrentFlags(current)
    requires forall i' :: 0 <= i' < i ==> g.nodes[i'].state != CurrentFlags(current)
    ensures Resolve(g, event, current) == Failure(NoTransitions(g.nodes[i].name)) <==>
      g.nodes[i].name !in g.adjacency || g.adjacency[g.nodes[i].name] == []
  {
    FindByStateSpec(g.nodes, CurrentFlags(current), 0);
    assert FindByState(g.nodes, CurrentFlags(current)) == Some(i);
  }

  /** The first edge fired by the event, leading to a name no node carries, is refused naming that target. */
  lemma TargetMissingRefused<N>(g: Graph<N>, event: EventName, current: Option<StateDetails>, i: nat, k: nat)
    requires i < |g.nodes| && g.nodes[i].state == CurrentFlags(current)
    requires forall i' :: 0 <= i' < i ==> g.nodes[i'].state != CurrentFlags(current)
    requires g.nodes[i].name in g.adjacency && k < |g.adjacency[g.nodes[i].name]|
    requires Fires(g.edges, g.adjacency[g.nodes[i].name][k], event)
    requires forall k' :: 0 <= k' < k ==> !Fires(g.edges, g.adjacency[g.nodes[i].name][k'], event)
    requires forall j :: 0 <= j < |g.nodes| ==> g.nodes[j].name != g.edges[g.adjacency[g.nodes[i].name][k]].to
    ensures Resolve(g, event, current) == Failure(TargetStateNotFound(g.edges[g.adjacency[g.nodes[i].name][k]].to))
  {
    var ids := g.adjacency[g.nodes[i].name];
    FindByStateSpec(g.nodes, CurrentFlags(current), 0);
    assert FindByState(g.nodes, CurrentFlags(current)) == Some(i);
    FindEdgeSpec(g.edges, ids, event, 0);
    assert FindEdge(g.edges, ids, event) == Some(k);
    FindByNameSpec(g.nodes, g.edges[ids[k]].to, 0);
  }

  /**
   * No-op rejection: when the first edge fired by the event leads to a node
   * carrying the current flags, the event is refused as a transition to the
   * same state.
   */
  lemma SameStateRefused<N>(g: Graph<N>, event: EventName, current: Option<StateDetails>, i: nat, k: nat, j: nat)
    requires i < |g.nodes| && g.nodes[i].state == CurrentFlags(current)
    requires forall i' :: 0 <= i' < i ==> g.nodes[i'].state != CurrentFlags(current)
    requires g.nodes[i].name in g.adjacency && k < |g.adjacency[g.nodes[i].name]|
    requires Fires(g.edges, g.adjacency[g.nodes[i].name][k], event)
    requires forall k' :: 0 <= k' < k ==> !Fires(g.edges, g.adjacency[g.nodes[i].name][k'], event)
    requires j < |g.nodes| && g.nodes[j].name == g.edges[g.adjacency[g.nodes[i].name][k]].to
    requires forall j' :: 0 <= j' < j ==> g.nodes[j'].name != g.nodes[j].name
    requires g.nodes[j].state == CurrentFlags(current)
    ensures Resolve(g, event, current) == Failure(SameAsCurrentState)
  {
    var ids := g.adjacency[g.nodes[i].name];
    FindByStateSpec(g.nodes, CurrentFlags(current), 0);
    assert FindByState(g.nodes, CurrentFlags(current)) == Some(i);
    FindEdgeSpec(g.edges, ids, event, 0);
    assert FindEdge(g.edges, ids, event) == Some(k);
    FindByNameSpec(g.nodes, g.edges[ids[k]].to, 0);
    assert FindByName(g.nodes, g.edges[ids[k]].to) == Some(j);
  }

  // ---------------------------------------------------------------------
  // What a refusal reports

  /** The metric a refusal publishes; a transition that is simply not allowed publishes none here. */
  function ErrorMetric<N(==)>(e: TransitionError<N>): (r: Option<MetricName>)
    ensures r.None? <==> e.TransitionNotAllowed?
    ensures r == Some(StateNotFoundInCurrentConfig) <==> e.StateNotFound? || e.TargetStateNotFound?
  {
    match e
    case StateNotFound => Some(StateNotFoundInCurrentConfig)
    case NoTransitions(_) => Some(NoTransitionsFoundInConfig)
    case TransitionNotAllowed(_, _) => None
    case TargetStateNotFound(_) => Some(StateNotFoundInCurrentConfig)
    case SameAsCurrentState => Some(TransitionSameAsCurrentState)
  }

  /** The StateTransitionError message of a refusal, given how node names are written; none for a transition not allowed. */
  function ErrorMessage<N(==)>(e: TransitionError<N>, nameText: N -> string): (r: Option<string>)
    ensures r.None? <==> e.TransitionNotAllowed?
    ensures e.NoTransitions? ==> |r.value| >= 44 + |nameText(e.state)| && r.value[44..44 + |nameText(e.state)|] == nameText(e.state)
    ensures e.TargetStateNotFound? ==> |r.value| >= 6 + |nameText(e.target)| && r.value[6..6 + |nameText(e.target)|] == nameText(e.target)
  {
    match e
    case StateNotFound => Some("Account state does not exists in current configuration.")
    case NoTransitions(s) =>
      var prefix := "There are no allowed transitions from state ";
      var m := prefix + nameText(s) + " in current configurations";
      assert |prefix| == 44 && m[44..44 + |nameText(s)|] == nameText(s);
      Some(m)
    case TransitionNotAllowed(_, _) => None
    case TargetStateNotFound(s) =>
      var m := "state " + nameText(s) + " not found in current config.";
      assert m[6..6 + |nameText(s)|] == nameText(s);
      Some(m)
    case SameAsCurrentState => Some("Computed new state is the same as the current state.")
  }

  const InvalidConfigurationMessage: string := "Invalid state engine configuration detected."

  /** The metric a refused configuration publishes. */
  function ConfigErrorMetric(e: ConfigError): MetricName
  {
    InvalidStateEngineConfiguration
  }

  // ---------------------------------------------------------------------
  // Intervention codes

  datatype CodeError = CodeNotFound(code: nat)

  /** The decimal numeral of a natural number. */
  function DecimalText(n: nat): (r: string)
    ensures |r| >= 1
    ensures forall c :: 0 <= c < |r| ==> '0' <= r[c] <= '9'
  {
    var digit := ['0' + (n % 10) as char];
    if n < 10 then digit else DecimalText(n / 10) + digit
  }

  /** The value a decimal numeral denotes. */
  function DecimalValue(s: string): nat
    requires forall c :: 0 <= c < |s| ==> '0' <= s[c] <= '9'
  {
    if s == [] then 0 else 10 * DecimalValue(s[..|s| - 1]) + (s[|s| - 1] - '0') as nat
  }

  /** Reading back the numeral of n gives n. */
  lemma {:induction false} DecimalRoundTrip(n: nat)
    ensures DecimalValue(DecimalText(n)) == n
  {
    var r := DecimalText(n);
    assert r[..|r| - 1] == (if n < 10 then [] else DecimalText(n / 10));
    if n >= 10 {
      DecimalRoundTrip(n / 10);
    }
  }

  /** getInterventionEnumFromCode: the event a TICF intervention code stands for in the configuration's code table. */
  function InterventionForCode(codes: map<nat, EventName>, code: nat): (r: Result<EventName, CodeError>)
    ensures r.Success? <==> code in codes
    ensures r.Success? ==> r.value == codes[code]
    ensures r.Failure? ==> r.error.code == code
  {
    if code in codes then Success(codes[code]) else Failure(CodeNotFound(code))
  }

  /** The message of an unknown code: the code can be read back from the digits between its fixed prefix and suffix. */
  function CodeErrorMessage(e: CodeError): (r: string)
    ensures |r| > 6 + 38 && r[..6] == "code: " && r[|r| - 38..] == " is not found in current configuration"
    ensures forall c :: 6 <= c < |r| - 38 ==> '0' <= r[c] <= '9'
    ensures DecimalValue(r[6..|r| - 38]) == e.code
  {
    DecimalRoundTrip(e.code);
    var digits := DecimalText(e.code);
    assert ("code: " + digits + " is not found in current configuration")[6..|digits| + 6] == digits;
    "code: " + DecimalText(e.code) + " is not found in current configuration"
  }

  function CodeErrorMetric(e: CodeError): MetricName
  {
    NoInterventionFoundForThisCode
  }
}
