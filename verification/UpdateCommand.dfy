/**
 * The builder of the partial storage update that records an account-state
 * transition: which attributes are set, which stale timestamps are removed,
 * which audit-history entry is appended, and which latency metrics are
 * reported.
 *
 * The update expression is kept in its clause structure (the SET actions in
 * order, then the REMOVE list); ExpressionText renders it in the store's
 * syntax. Apply gives a descriptor its meaning on a stored account record,
 * and UpdatedRecord states the intended effect attribute by attribute; the
 * builder is proved to produce a descriptor whose meaning is that effect.
 */
module UpdateCommand {
  import opened Wrappers
  import opened Constants

  /**
   * An audit-history entry. The history encoder is not part of this model:
   * the entry is kept as the pair (event, event timestamp) it is computed
   * from, so equal entries come from equal pairs and nothing more is taken for granted.
   */
  datatype HistoryString = HistoryString(event: IngressEvent, eventTimestampMs: int)

  /** A stored attribute value: the BOOL, N, S and L shapes, and an encoded history entry (an S value). */
  datatype AttrValue =
    | Bool(b: bool)
    | Num(n: int)
    | Str(s: string)
    | List(items: seq<AttrValue>)
    | HistoryEntry(h: HistoryString)

  /** The attributes of a stored account record the core writes, and any other attribute by its name. */
  datatype Attribute =
    | Blocked | Suspended | ResetPassword | ReproveIdentity | UpdatedAt
    | ReprovedIdentityAt | ResetPasswordAt | Intervention | AppliedAt | SentAt | History
    | OtherAttribute(name: string)

  /** The attribute's name in the store. */
  function AttributeName(a: Attribute): string
  {
    match a
    case Blocked => "blocked"
    case Suspended => "suspended"
    case ResetPassword => "resetPassword"
    case ReproveIdentity => "reproveIdentity"
    case UpdatedAt => "updatedAt"
    case ReprovedIdentityAt => "reprovedIdentityAt"
    case ResetPasswordAt => "resetPasswordAt"
    case Intervention => "intervention"
    case AppliedAt => "appliedAt"
    case SentAt => "sentAt"
    case History => "history"
    case OtherAttribute(name) => name
  }

  /** A stored account record: attribute to value. */
  type Item = map<Attribute, AttrValue>

  /** The `#…` placeholders the descriptor's ExpressionAttributeNames define. */
  datatype NamePlaceholder =
    | NBlocked | NSuspended | NResetPassword | NReproveIdentity | NUpdatedAt
    | NReprovedIdentityAt | NResetPasswordAt | NIntervention | NAppliedAt | NSentAt | NHistory

  function NameText(p: NamePlaceholder): string
  {
    match p
    case NBlocked => "#B"
    case NSuspended => "#S"
    case NResetPassword => "#RP"
    case NReproveIdentity => "#RI"
    case NUpdatedAt => "#UA"
    case NReprovedIdentityAt => "#RIdA"
    case NResetPasswordAt => "#RPswdA"
    case NIntervention => "#INT"
    case NAppliedAt => "#AA"
    case NSentAt => "#SA"
    case NHistory => "#H"
  }

  /** The `:…` placeholders the descriptor's ExpressionAttributeValues define. */
  datatype ValuePlaceholder =
    | VBlocked | VSuspended | VResetPassword | VReproveIdentity | VUpdatedAt
    | VReprovedIdentityAt | VResetPasswordAt | VIntervention | VAppliedAt | VSentAt | VEmptyList | VHistoryEntry

  function ValueText(p: ValuePlaceholder): string
  {
    match p
    case VBlocked => ":b"
    case VSuspended => ":s"
    case VResetPassword => ":rp"
    case VReproveIdentity => ":ri"
    case VUpdatedAt => ":ua"
    case VReprovedIdentityAt => ":rida"
    case VResetPasswordAt => ":rpswda"
    case VIntervention => ":int"
    case VAppliedAt => ":aa"
    case VSentAt => ":sa"
    case VEmptyList => ":empty_list"
    case VHistoryEntry => ":h"
  }

  /** One action of the SET clause. */
  datatype SetAction =
      /** `#name = :value` */
    | Assign(namePh: NamePlaceholder, valuePh: ValuePlaceholder)
      /** `#name = list_append(if_not_exists(#name, :empty), :item)` */
    | AppendToList(listPh: NamePlaceholder, emptyPh: ValuePlaceholder, itemPh: ValuePlaceholder)

  /** An update expression: `SET` and its actions, then `REMOVE` and its attributes when there are any. */
  datatype UpdateExpression = UpdateExpression(sets: seq<SetAction>, removes: seq<Attribute>)

  /** The partial update handed to the store: ExpressionAttributeNames, ExpressionAttributeValues, UpdateExpression. */
  datatype UpdateDescriptor = UpdateDescriptor(
    names: map<NamePlaceholder, Attribute>,
    values: map<ValuePlaceholder, AttrValue>,
    expression: UpdateExpression)

  datatype BuildError = InterventionNameMissing

  datatype LatencyKind = ReproveIdentityLatency | PasswordResetLatency | SuspensionLatency

  /** A latency dimension of a TIME_TO_RESOLVE metric, in seconds. */
  datatype Latency = Latency(kind: LatencyKind, seconds: int)

  /** One emitted metric: its name and, for TIME_TO_RESOLVE, its latency dimension. */
  datatype Metric = Metric(name: MetricName, latency: Option<Latency>)

  /** The SET actions every update starts with: the four flags and updatedAt. */
  const BaseActions: seq<SetAction> :=
    [Assign(NBlocked, VBlocked), Assign(NSuspended, VSuspended), Assign(NResetPassword, VResetPassword), Assign(NReproveIdentity, VReproveIdentity), Assign(NUpdatedAt, VUpdatedAt)]

  /** The attributes an update may touch; every other attribute of the record is left as it was. */
  const TouchedAttributes: set<Attribute> :=
    {Blocked, Suspended, ResetPassword, ReproveIdentity, UpdatedAt, ReprovedIdentityAt,
     ResetPasswordAt, Intervention, AppliedAt, SentAt, History}

  // ---------------------------------------------------------------------
  // Times and metrics

  /** The event time in milliseconds: the millisecond timestamp when the event has one, else its seconds times 1000. */
  function EventTimestamp(e: IngressEvent): (r: int)
    ensures e.eventTimestampMs.Some? ==> r == e.eventTimestampMs.value
    ensures e.eventTimestampMs.None? ==> r % 1000 == 0 && r / 1000 == e.timestamp
  {
    if e.eventTimestampMs.Some? then e.eventTimestampMs.value else e.timestamp * 1000
  }

  /**
   * The whole seconds elapsed between a previous time in seconds and now in
   * milliseconds: now, in seconds and rounded down, minus the previous time.
   */
  function SecondsSince(nowMs: int, previousSeconds: int): (r: int)
    ensures (previousSeconds + r) * 1000 <= nowMs < (previousSeconds + r + 1) * 1000
  {
    nowMs / 1000 - previousSeconds
  }

  /** The TIME_TO_RESOLVE metric of one kind for an action resolved now. */
  function ResolutionMetric(kind: LatencyKind, nowMs: int, previousSeconds: int): Metric
  {
    Metric(TimeToResolve, Some(Latency(kind, SecondsSince(nowMs, previousSeconds))))
  }

  // ---------------------------------------------------------------------
  // What an update descriptor does to a stored record

  /** A record whose history, when present, is a list (the shape the store keeps it in). */
  predicate WellFormedRecord(item: Item)
  {
    History in item ==> item[History].List?
  }

  /** The history entries of a record, none when it has no history yet. */
  function PriorHistory(item: Item): seq<AttrValue>
    requires WellFormedRecord(item)
  {
    if History in item then item[History].items else []
  }

  /** Every placeholder the action mentions has an entry in the descriptor's names or values. */
  predicate ActionResolved(a: SetAction, d: UpdateDescriptor)
  {
    match a
    case Assign(n, v) => n in d.names && v in d.values
    case AppendToList(n, e, i) => n in d.names && e in d.values && i in d.values
  }

  /** Every placeholder the expression mentions has an entry in the descriptor's names or values. */
  predicate PlaceholdersResolved(d: UpdateDescriptor)
  {
    forall k :: 0 <= k < |d.expression.sets| ==> ActionResolved(d.expression.sets[k], d)
  }

  /** The name placeholders the SET actions mention. */
  function NamesUsed(actions: seq<SetAction>): set<NamePlaceholder>
  {
    if actions == [] then {}
    else (match actions[0] case Assign(n, _) => {n} case AppendToList(n, _, _) => {n}) + NamesUsed(actions[1..])
  }

  /** The value placeholders the SET actions mention. */
  function ValuesUsed(actions: seq<SetAction>): set<ValuePlaceholder>
  {
    if actions == [] then {}
    else (match actions[0] case Assign(_, v) => {v} case AppendToList(_, e, i) => {e, i}) + ValuesUsed(actions[1..])
  }

  /** The placeholders of a SET list extended by `+=` are those of its two parts. */
  lemma {:induction false} UsedAppend(a: seq<SetAction>, b: seq<SetAction>)
    ensures NamesUsed(a + b) == NamesUsed(a) + NamesUsed(b)
    ensures ValuesUsed(a + b) == ValuesUsed(a) + ValuesUsed(b)
  {
    if a == [] {
      assert a + b == b;
    } else {
      assert (a + b)[0] == a[0] && (a + b)[1..] == a[1..] + b;
      UsedAppend(a[1..], b);
    }
  }

  /**
   * The descriptor's names and values have an entry for exactly the
   * placeholders its SET actions mention: none is missing and none is unused.
   */
  predicate PlaceholdersExact(d: UpdateDescriptor)
  {
    d.names.Keys == NamesUsed(d.expression.sets) && d.values.Keys == ValuesUsed(d.expression.sets)
  }

  /**
   * One SET action. Operands are read from the record as it was before the
   * update (`before`); the assignment goes into the record being built.
   * An unresolved placeholder, or a list operation on a non-list, fails.
   */
  function ApplyAction(a: SetAction, d: UpdateDescriptor, before: Item, item: Item): Option<Item>
  {
    match a
    case Assign(n, v) =>
      if n in d.names && v in d.values then Some(item[d.names[n] := d.values[v]]) else None
    case AppendToList(n, e, i) =>
      if n in d.names && e in d.values && i in d.values then
        var attr := d.names[n];
        var current := if attr in before then before[attr] else d.values[e];
        if current.List? && d.values[i].List? then Some(item[attr := List(current.items + d.values[i].items)])
        else None
      else None
  }

  function ApplyActions(actions: seq<SetAction>, d: UpdateDescriptor, before: Item, item: Item): Option<Item>
    decreases |actions|
  {
    if actions == [] then Some(item)
    else match ApplyAction(actions[0], d, before, item)
      case None => None
      case Some(next) => ApplyActions(actions[1..], d, before, next)
  }

  /** The record after the store applies the descriptor: the SET actions in order, then the REMOVE list. */
  function Apply(d: UpdateDescriptor, item: Item): Option<Item>
  {
    match ApplyActions(d.expression.sets, d, item, item)
    case None => None
    case Some(updated) => Some(updated - (set a | a in d.expression.removes))
  }

  /**
   * The intended effect of a transition to finalState caused by eventName on
   * a stored record: the flags and updatedAt are set; a user-led completion
   * records its completion time and leaves the history alone; any other event
   * records its intervention, when it was applied and sent, appends exactly
   * one history entry, and drops the timestamp of every pending action the
   * final state still requires.
   */
  function UpdatedRecord(
    item: Item, finalState: StateDetails, eventName: EventName, currentTimestamp: int,
    interventionEvent: IngressEvent, interventionName: Option<InterventionType>): Item
    requires WellFormedRecord(item)
    requires IsUserLed(eventName) || interventionName.Some?
  {
    var ts := EventTimestamp(interventionEvent);
    var flags := FlagsSet(item, finalState, currentTimestamp);
    if eventName == IpvAccountInterventionEnd then flags[ReprovedIdentityAt := Num(ts)]
    else if IsPasswordResetSuccess(eventName) then flags[ResetPasswordAt := Num(ts)]
    else
      InterventionRecorded(item, finalState, currentTimestamp, interventionEvent, interventionName.value)
        - StaleTimestamps(finalState)
  }

  /** Applied to any well-formed stored record, the descriptor has exactly the effect UpdatedRecord describes. */
  ghost predicate HasEffect(
    d: UpdateDescriptor, finalState: StateDetails, eventName: EventName, currentTimestamp: int,
    interventionEvent: IngressEvent, interventionName: Option<InterventionType>)
  {
    && (IsUserLed(eventName) || interventionName.Some?)
    && forall item :: WellFormedRecord(item) ==>
         Apply(d, item) == Some(UpdatedRecord(item, finalState, eventName, currentTimestamp, interventionEvent, interventionName))
  }

  /** Every transition records the final flags and the update time, and keeps the history a list. */
  lemma FlagsRecorded(
    item: Item, finalState: StateDetails, eventName: EventName, currentTimestamp: int,
    interventionEvent: IngressEvent, interventionName: Option<InterventionType>)
    requires WellFormedRecord(item)
    requires IsUserLed(eventName) || interventionName.Some?
    ensures var r := UpdatedRecord(item, finalState, eventName, currentTimestamp, interventionEvent, interventionName);
      && WellFormedRecord(r)
      && Blocked in r && r[Blocked] == Bool(finalState.blocked)
      && Suspended in r && r[Suspended] == Bool(finalState.suspended)
      && ResetPassword in r && r[ResetPassword] == Bool(finalState.resetPassword)
      && ReproveIdentity in r && r[ReproveIdentity] == Bool(finalState.reproveIdentity)
      && UpdatedAt in r && r[UpdatedAt] == Num(currentTimestamp)
  {
  }

  /** Every transition leaves every attribute it does not touch as it was. */
  lemma UntouchedKept(
    item: Item, finalState: StateDetails, eventName: EventName, currentTimestamp: int,
    interventionEvent: IngressEvent, interventionName: Option<InterventionType>)
    requires WellFormedRecord(item)
    requires IsUserLed(eventName) || interventionName.Some?
    ensures var r := UpdatedRecord(item, finalState, eventName, currentTimestamp, interventionEvent, interventionName);
      forall k :: k !in TouchedAttributes ==> (k in r <==> k in item) && (k in item ==> r[k] == item[k])
  {
  }

  /**
   * A user-led completion stamps the completion time of the action it
   * completes and leaves the intervention and the history as they were.
   */
  lemma UserLedEffect(
    item: Item, finalState: StateDetails, eventName: EventName, currentTimestamp: int,
    interventionEvent: IngressEvent, interventionName: Option<InterventionType>)
    requires WellFormedRecord(item) && IsUserLed(eventName)
    ensures var r := UpdatedRecord(item, finalState, eventName, currentTimestamp, interventionEvent, interventionName);
      && (eventName == IpvAccountInterventionEnd ==>
            ReprovedIdentityAt in r && r[ReprovedIdentityAt] == Num(EventTimestamp(interventionEvent)))
      && (IsPasswordResetSuccess(eventName) ==>
            ResetPasswordAt in r && r[ResetPasswordAt] == Num(EventTimestamp(interventionEvent)))
      && PriorHistory(r) == PriorHistory(item)
      && (Intervention in r <==> Intervention in item) && (Intervention in item ==> r[Intervention] == item[Intervention])
  {
  }

  /** The record an intervention builds before the stale timestamps are removed. */
  function InterventionRecorded(
    item: Item, finalState: StateDetails, currentTimestamp: int, interventionEvent: IngressEvent, name: InterventionType): Item
    requires WellFormedRecord(item)
  {
    var ts := EventTimestamp(interventionEvent);
    FlagsSet(item, finalState, currentTimestamp)
        [Intervention := Str(InterventionString(name))][SentAt := Num(ts)][AppliedAt := Num(currentTimestamp)]
        [History := List(PriorHistory(item) + [HistoryEntry(HistoryString(interventionEvent, ts))])]
  }

  /**
   * An intervention records its name, when it was applied (now) and sent
   * (the event time), and appends exactly one history entry.
   */
  lemma InterventionEffect(
    item: Item, finalState: StateDetails, eventName: EventName, currentTimestamp: int,
    interventionEvent: IngressEvent, name: InterventionType)
    requires WellFormedRecord(item) && !IsUserLed(eventName)
    ensures var r := UpdatedRecord(item, finalState, eventName, currentTimestamp, interventionEvent, Some(name));
      && Intervention in r && r[Intervention] == Str(InterventionString(name))
      && AppliedAt in r && r[AppliedAt] == Num(currentTimestamp)
      && SentAt in r && r[SentAt] == Num(EventTimestamp(interventionEvent))
      && PriorHistory(r) == PriorHistory(item) + [HistoryEntry(HistoryString(interventionEvent, EventTimestamp(interventionEvent)))]
  {
    InterventionUpdated(item, finalState, eventName, currentTimestamp, interventionEvent, name);
    var pre := InterventionRecorded(item, finalState, currentTimestamp, interventionEvent, name);
    var stale := StaleTimestamps(finalState);
    assert Intervention !in stale && AppliedAt !in stale && SentAt !in stale && History !in stale;
  }

  /** An intervention's record is the record it builds less the stale timestamps. */
  lemma InterventionUpdated(
    item: Item, finalState: StateDetails, eventName: EventName, currentTimestamp: int,
    interventionEvent: IngressEvent, name: InterventionType)
    requires WellFormedRecord(item) && !IsUserLed(eventName)
    ensures UpdatedRecord(item, finalState, eventName, currentTimestamp, interventionEvent, Some(name)) ==
      InterventionRecorded(item, finalState, currentTimestamp, interventionEvent, name) - StaleTimestamps(finalState)
  {
  }

  /**
   * An intervention removes the timestamp of a pending action exactly when
   * the final state requires that action again, and keeps it otherwise.
   */
  lemma StaleTimestampsRemoved(
    item: Item, finalState: StateDetails, eventName: EventName, currentTimestamp: int,
    interventionEvent: IngressEvent, name: InterventionType)
    requires WellFormedRecord(item) && !IsUserLed(eventName)
    ensures var r := UpdatedRecord(item, finalState, eventName, currentTimestamp, interventionEvent, Some(name));
      && (ResetPasswordAt in r <==> !finalState.resetPassword && ResetPasswordAt in item)
      && (ReprovedIdentityAt in r <==> !finalState.reproveIdentity && ReprovedIdentityAt in item)
  {
    InterventionUpdated(item, finalState, eventName, currentTimestamp, interventionEvent, name);
    var pre := InterventionRecorded(item, finalState, currentTimestamp, interventionEvent, name);
    assert (ResetPasswordAt in pre <==> ResetPasswordAt in item) && (ReprovedIdentityAt in pre <==> ReprovedIdentityAt in item);
  }

  // ---------------------------------------------------------------------
  // The builder

  /**
   * buildPartialUpdateAccountStateCommand: starts from the base descriptor
   * (four flags and updatedAt), then, by event, adds the completion timestamp
   * of a user-led event, or fails when an intervention event has no
   * intervention name, or adds the intervention, its times, the history
   * append and the REMOVE clause; it reports latency metrics on the way.
   */
  method BuildPartialUpdateAccountStateCommand(
    finalState: StateDetails, eventName: EventName, currentTimestamp: int,
    interventionEvent: IngressEvent, previousAppliedAt: int, interventionName: Option<InterventionType>)
    returns (r: Result<UpdateDescriptor, BuildError>, metrics: seq<Metric>)
    ensures r.Failure? <==> !IsUserLed(eventName) && interventionName.None?
    ensures r.Success? ==> PlaceholdersResolved(r.value) && PlaceholdersExact(r.value)
    ensures r.Success? ==> |r.value.expression.sets| > 5 && r.value.expression.sets[..5] == BaseActions
    ensures r.Success? ==> HasEffect(r.value, finalState, eventName, currentTimestamp, interventionEvent, interventionName)
    ensures r.Success? && IsUserLed(eventName) ==> r.value.expression.removes == []
    ensures r.Success? && !IsUserLed(eventName) ==>
      && (ResetPasswordAt in r.value.expression.removes <==> finalState.resetPassword)
      && (ReprovedIdentityAt in r.value.expression.removes <==> finalState.reproveIdentity)
    ensures r.Success? && !IsUserLed(eventName) ==> r.value.expression.removes == StaleList(finalState)
    ensures eventName == IpvAccountInterventionEnd ==>
      metrics == [ResolutionMetric(ReproveIdentityLatency, currentTimestamp, previousAppliedAt)]
    ensures IsPasswordResetSuccess(eventName) ==>
      metrics == [ResolutionMetric(PasswordResetLatency, currentTimestamp, previousAppliedAt)]
    ensures r.Failure? ==> metrics == [Metric(InterventionDidNotHaveNameInCurrentConfig, None)]
    ensures !IsUserLed(eventName) && interventionName.Some? ==>
      metrics == if eventName == FraudUnsuspendAccount
                 then [ResolutionMetric(SuspensionLatency, currentTimestamp, previousAppliedAt)] else []
  {
    var eventTimestamp := if interventionEvent.eventTimestampMs.Some? then interventionEvent.eventTimestampMs.value
                          else interventionEvent.timestamp * 1000;
    assert eventTimestamp == EventTimestamp(interventionEvent);
    var names := BaseNames;
    var values := BaseValues(finalState, currentTimestamp);
    var expression := UpdateExpression(BaseActions, []);
    metrics := [];
    if eventName == IpvAccountInterventionEnd {
      names := names[NReprovedIdentityAt := ReprovedIdentityAt];
      values := values[VReprovedIdentityAt := Num(eventTimestamp)];
      expression := expression.(sets := expression.sets + [Assign(NReprovedIdentityAt, VReprovedIdentityAt)]);
      metrics := metrics + [ResolutionMetric(ReproveIdentityLatency, currentTimestamp, previousAppliedAt)];
      r := Success(UpdateDescriptor(names, values, expression));
      CompletionDescriptor(r.value, finalState, eventName, currentTimestamp, interventionEvent, interventionName,
                           NReprovedIdentityAt, VReprovedIdentityAt, ReprovedIdentityAt);
      return;
    }
    if eventName == AuthPasswordResetSuccessful || eventName == AuthPasswordResetSuccessfulForTestClient {
      names := names[NResetPasswordAt := ResetPasswordAt];
      values := values[VResetPasswordAt := Num(eventTimestamp)];
      expression := expression.(sets := expression.sets + [Assign(NResetPasswordAt, VResetPasswordAt)]);
      metrics := metrics + [ResolutionMetric(PasswordResetLatency, currentTimestamp, previousAppliedAt)];
      r := Success(UpdateDescriptor(names, values, expression));
      CompletionDescriptor(r.value, finalState, eventName, currentTimestamp, interventionEvent, interventionName,
                           NResetPasswordAt, VResetPasswordAt, ResetPasswordAt);
      return;
    }
    if interventionName.None? {
      metrics := metrics + [Metric(InterventionDidNotHaveNameInCurrentConfig, None)];
      return Failure(InterventionNameMissing), metrics;
    }
    if eventName == FraudUnsuspendAccount {
      metrics := metrics + [ResolutionMetric(SuspensionLatency, currentTimestamp, previousAppliedAt)];
    }
    var extended := AddIntervention(UpdateDescriptor(names, values, expression), finalState, currentTimestamp,
                                    eventTimestamp, interventionEvent, interventionName.value);
    assert !IsUserLed(eventName);
    r := Success(extended);
    InterventionDescriptor(r.value, finalState, eventName, currentTimestamp, interventionEvent, interventionName.value);
  }

  /**
   * The builder's additions for an intervention: the intervention name, when
   * it was applied and sent, the history append, and the REMOVE clause.
   */
  method AddIntervention(
    base: UpdateDescriptor, finalState: StateDetails, currentTimestamp: int, eventTimestamp: int,
    interventionEvent: IngressEvent, name: InterventionType) returns (d: UpdateDescriptor)
    requires base == UpdateDescriptor(BaseNames, BaseValues(finalState, currentTimestamp), UpdateExpression(BaseActions, []))
    requires eventTimestamp == EventTimestamp(interventionEvent)
    ensures d.names == InterventionNames
    ensures d.values == InterventionValues(finalState, currentTimestamp, interventionEvent, name)
    ensures d.expression == UpdateExpression(BaseActions + InterventionActions, StaleList(finalState))
  {
    var names := base.names;
    var values := base.values;
    var expression := base.expression;
    names := names[NIntervention := Intervention];
    values := values[VIntervention := Str(InterventionString(name))];
    names := names[NAppliedAt := AppliedAt];
    values := values[VAppliedAt := Num(currentTimestamp)];
    names := names[NSentAt := SentAt];
    values := values[VSentAt := Num(eventTimestamp)];
    names := names[NHistory := History];
    values := values[VEmptyList := List([])];
    values := values[VHistoryEntry := List([HistoryEntry(HistoryString(interventionEvent, eventTimestamp))])];
    expression := expression.(sets := expression.sets + InterventionActions);
    var removes := StaleRemoves(finalState);
    expression := expression.(removes := removes);
    d := UpdateDescriptor(names, values, expression);
  }

  /**
   * The REMOVE clause of an intervention, chosen by the final flags as the
   * builder does: the timestamp of each action the final state requires again.
   */
  method StaleRemoves(finalState: StateDetails) returns (removes: seq<Attribute>)
    ensures removes == StaleList(finalState)
  {
    removes := [];
    if finalState.resetPassword && finalState.reproveIdentity {
      removes := [ResetPasswordAt, ReprovedIdentityAt];
    } else if finalState.resetPassword && !finalState.reproveIdentity {
      removes := [ResetPasswordAt];
    } else if !finalState.resetPassword && finalState.reproveIdentity {
      removes := [ReprovedIdentityAt];
    }
  }

  /** The ExpressionAttributeNames every descriptor starts with. */
  const BaseNames: map<NamePlaceholder, Attribute> :=
    map[NBlocked := Blocked, NSuspended := Suspended, NResetPassword := ResetPassword, NReproveIdentity := ReproveIdentity, NUpdatedAt := UpdatedAt]

  /** The ExpressionAttributeValues every descriptor starts with. */
  function BaseValues(finalState: StateDetails, currentTimestamp: int): map<ValuePlaceholder, AttrValue>
  {
    map[VBlocked := Bool(finalState.blocked), VSuspended := Bool(finalState.suspended),
        VResetPassword := Bool(finalState.resetPassword), VReproveIdentity := Bool(finalState.reproveIdentity),
        VUpdatedAt := Num(currentTimestamp)]
  }

  /** The record the base actions build: the four flags and updatedAt set. */
  function FlagsSet(item: Item, finalState: StateDetails, currentTimestamp: int): Item
  {
    item[Blocked := Bool(finalState.blocked)][Suspended := Bool(finalState.suspended)]
        [ResetPassword := Bool(finalState.resetPassword)][ReproveIdentity := Bool(finalState.reproveIdentity)]
        [UpdatedAt := Num(currentTimestamp)]
  }

  /** The descriptor maps the base placeholders as the base descriptor does. */
  predicate BaseResolved(d: UpdateDescriptor, finalState: StateDetails, currentTimestamp: int)
  {
    && NBlocked in d.names && d.names[NBlocked] == Blocked
    && NSuspended in d.names && d.names[NSuspended] == Suspended
    && NResetPassword in d.names && d.names[NResetPassword] == ResetPassword
    && NReproveIdentity in d.names && d.names[NReproveIdentity] == ReproveIdentity
    && NUpdatedAt in d.names && d.names[NUpdatedAt] == UpdatedAt
    && VBlocked in d.values && d.values[VBlocked] == Bool(finalState.blocked)
    && VSuspended in d.values && d.values[VSuspended] == Bool(finalState.suspended)
    && VResetPassword in d.values && d.values[VResetPassword] == Bool(finalState.resetPassword)
    && VReproveIdentity in d.values && d.values[VReproveIdentity] == Bool(finalState.reproveIdentity)
    && VUpdatedAt in d.values && d.values[VUpdatedAt] == Num(currentTimestamp)
  }

  /** Maps that agree with the base maps on the base placeholders resolve them as the base does. */
  lemma BaseKept(d: UpdateDescriptor, finalState: StateDetails, currentTimestamp: int)
    requires forall n :: n in BaseNames ==> n in d.names && d.names[n] == BaseNames[n]
    requires forall v :: v in BaseValues(finalState, currentTimestamp) ==>
      v in d.values && d.values[v] == BaseValues(finalState, currentTimestamp)[v]
    ensures BaseResolved(d, finalState, currentTimestamp)
  {
  }

  /** Maps with the base keys resolve every base action. */
  lemma BaseActionsResolved(d: UpdateDescriptor)
    requires NBlocked in d.names && NSuspended in d.names && NResetPassword in d.names
    requires NReproveIdentity in d.names && NUpdatedAt in d.names
    requires VBlocked in d.values && VSuspended in d.values && VResetPassword in d.values
    requires VReproveIdentity in d.values && VUpdatedAt in d.values
    ensures forall k :: 0 <= k < |BaseActions| ==> ActionResolved(BaseActions[k], d)
  {
    var acts := BaseActions;
    assert ActionResolved(acts[0], d) && ActionResolved(acts[1], d) && ActionResolved(acts[2], d);
    assert ActionResolved(acts[3], d) && ActionResolved(acts[4], d);
  }

  /** Two resolved action lists make a resolved expression when joined. */
  lemma ActionsResolvedAppend(xs: seq<SetAction>, ys: seq<SetAction>, d: UpdateDescriptor)
    requires forall k :: 0 <= k < |xs| ==> ActionResolved(xs[k], d)
    requires forall k :: 0 <= k < |ys| ==> ActionResolved(ys[k], d)
    ensures forall k :: 0 <= k < |xs + ys| ==> ActionResolved((xs + ys)[k], d)
  {
  }

  /** The base actions, applied to a record, set the four flags and updatedAt. */
  lemma ApplyBase(d: UpdateDescriptor, finalState: StateDetails, currentTimestamp: int, before: Item, item: Item)
    requires BaseResolved(d, finalState, currentTimestamp)
    ensures ApplyActions(BaseActions, d, before, item) == Some(FlagsSet(item, finalState, currentTimestamp))
  {
    var a := BaseActions;
    assert a[1..][1..][1..][1..][1..] == [];
  }

  /** Applying a sequence of actions is applying a prefix and then the rest. */
  lemma {:induction false} ApplyActionsAppend(xs: seq<SetAction>, ys: seq<SetAction>, d: UpdateDescriptor, before: Item, item: Item)
    ensures ApplyActions(xs + ys, d, before, item) ==
      match ApplyActions(xs, d, before, item)
      case None => None
      case Some(next) => ApplyActions(ys, d, before, next)
    decreases |xs|
  {
    if xs == [] {
      assert xs + ys == ys;
    } else {
      assert (xs + ys)[1..] == xs[1..] + ys;
      match ApplyAction(xs[0], d, before, item)
      case None =>
      case Some(next) => ApplyActionsAppend(xs[1..], ys, d, before, next);
    }
  }

  // ---------------------------------------------------------------------
  // User-led completions

  /**
   * A descriptor made of the base actions and one more assignment sets the
   * flags, updatedAt and that one attribute, and removes nothing.
   */
  lemma ApplyCompletion(
    d: UpdateDescriptor, item: Item, finalState: StateDetails, currentTimestamp: int,
    namePh: NamePlaceholder, valuePh: ValuePlaceholder, attr: Attribute, v: AttrValue)
    requires BaseResolved(d, finalState, currentTimestamp)
    requires namePh in d.names && d.names[namePh] == attr && valuePh in d.values && d.values[valuePh] == v
    requires d.expression == UpdateExpression(BaseActions + [Assign(namePh, valuePh)], [])
    ensures Apply(d, item) == Some(FlagsSet(item, finalState, currentTimestamp)[attr := v])
  {
    var flags := FlagsSet(item, finalState, currentTimestamp);
    var updated := flags[attr := v];
    var last := [Assign(namePh, valuePh)];
    assert ApplyActions(d.expression.sets, d, item, item) == Some(updated) by {
      ApplyBase(d, finalState, currentTimestamp, item, item);
      assert ApplyActions(last[1..], d, item, updated) == Some(updated) by {
        assert last[1..] == [];
      }
      ApplyActionsAppend(BaseActions, last, d, item, item);
    }
    assert updated - (set a | a in d.expression.removes) == updated by {
      assert (set a | a in d.expression.removes) == {};
      assert updated - {} == updated;
    }
  }

  /**
   * The descriptor built for a user-led completion resolves its placeholders,
   * starts with the base actions and has the effect UpdatedRecord describes.
   */
  lemma CompletionDescriptor(
    d: UpdateDescriptor, finalState: StateDetails, eventName: EventName, currentTimestamp: int,
    interventionEvent: IngressEvent, interventionName: Option<InterventionType>,
    namePh: NamePlaceholder, valuePh: ValuePlaceholder, attr: Attribute)
    requires (eventName == IpvAccountInterventionEnd && namePh == NReprovedIdentityAt &&
              valuePh == VReprovedIdentityAt && attr == ReprovedIdentityAt) ||
             (IsPasswordResetSuccess(eventName) && namePh == NResetPasswordAt &&
              valuePh == VResetPasswordAt && attr == ResetPasswordAt)
    requires d == UpdateDescriptor(
        BaseNames[namePh := attr],
        BaseValues(finalState, currentTimestamp)[valuePh := Num(EventTimestamp(interventionEvent))],
        UpdateExpression(BaseActions + [Assign(namePh, valuePh)], []))
    ensures PlaceholdersResolved(d) && PlaceholdersExact(d)
    ensures |d.expression.sets| > 5 && d.expression.sets[..5] == BaseActions
    ensures HasEffect(d, finalState, eventName, currentTimestamp, interventionEvent, interventionName)
  {
    CompletionExact(d, finalState, currentTimestamp, namePh, valuePh, attr, EventTimestamp(interventionEvent));
    CompletionMapsResolved(finalState, currentTimestamp, interventionEvent, namePh, valuePh, attr);
    BaseActionsResolved(d);
    ActionsResolvedAppend(BaseActions, [Assign(namePh, valuePh)], d);
    assert d.expression.sets[..5] == BaseActions;
    CompletionHasEffect(d, finalState, eventName, currentTimestamp, interventionEvent, interventionName, namePh, valuePh, attr);
  }

  /** A descriptor with the base actions and the completion's assignment has the completion's effect. */
  lemma CompletionHasEffect(
    d: UpdateDescriptor, finalState: StateDetails, eventName: EventName, currentTimestamp: int,
    interventionEvent: IngressEvent, interventionName: Option<InterventionType>,
    namePh: NamePlaceholder, valuePh: ValuePlaceholder, attr: Attribute)
    requires (eventName == IpvAccountInterventionEnd && attr == ReprovedIdentityAt) ||
             (IsPasswordResetSuccess(eventName) && attr == ResetPasswordAt)
    requires BaseResolved(d, finalState, currentTimestamp)
    requires namePh in d.names && d.names[namePh] == attr
    requires valuePh in d.values && d.values[valuePh] == Num(EventTimestamp(interventionEvent))
    requires d.expression == UpdateExpression(BaseActions + [Assign(namePh, valuePh)], [])
    ensures HasEffect(d, finalState, eventName, currentTimestamp, interventionEvent, interventionName)
  {
    forall item | WellFormedRecord(item)
      ensures Apply(d, item) == Some(UpdatedRecord(item, finalState, eventName, currentTimestamp, interventionEvent, interventionName))
    {
      ApplyCompletion(d, item, finalState, currentTimestamp, namePh, valuePh, attr, Num(EventTimestamp(interventionEvent)));
    }
  }

  /** A completion's maps resolve the base placeholders and the completion's own pair. */
  lemma CompletionMapsResolved(
    finalState: StateDetails, currentTimestamp: int, interventionEvent: IngressEvent,
    namePh: NamePlaceholder, valuePh: ValuePlaceholder, attr: Attribute)
    requires (namePh == NReprovedIdentityAt && valuePh == VReprovedIdentityAt) ||
             (namePh == NResetPasswordAt && valuePh == VResetPasswordAt)
    ensures var d := UpdateDescriptor(
        BaseNames[namePh := attr],
        BaseValues(finalState, currentTimestamp)[valuePh := Num(EventTimestamp(interventionEvent))],
        UpdateExpression(BaseActions + [Assign(namePh, valuePh)], []));
      && BaseResolved(d, finalState, currentTimestamp)
      && namePh in d.names && d.names[namePh] == attr
      && valuePh in d.values && d.values[valuePh] == Num(EventTimestamp(interventionEvent))
  {
    var d := UpdateDescriptor(
        BaseNames[namePh := attr],
        BaseValues(finalState, currentTimestamp)[valuePh := Num(EventTimestamp(interventionEvent))],
        UpdateExpression(BaseActions + [Assign(namePh, valuePh)], []));
    BaseKept(d, finalState, currentTimestamp);
  }

  // ---------------------------------------------------------------------
  // Interventions

  /** The ExpressionAttributeNames of an intervention's descriptor. */
  const InterventionNames: map<NamePlaceholder, Attribute> :=
    BaseNames[NIntervention := Intervention][NAppliedAt := AppliedAt][NSentAt := SentAt][NHistory := History]

  /** The ExpressionAttributeValues of an intervention's descriptor. */
  function InterventionValues(
    finalState: StateDetails, currentTimestamp: int, interventionEvent: IngressEvent, name: InterventionType): map<ValuePlaceholder, AttrValue>
  {
    BaseValues(finalState, currentTimestamp)
      [VIntervention := Str(InterventionString(name))][VAppliedAt := Num(currentTimestamp)]
      [VSentAt := Num(EventTimestamp(interventionEvent))][VEmptyList := List([])]
      [VHistoryEntry := List([HistoryEntry(HistoryString(interventionEvent, EventTimestamp(interventionEvent)))])]
  }

  /** The SET actions an intervention adds after the base actions. */
  const InterventionActions: seq<SetAction> :=
    [Assign(NIntervention, VIntervention), Assign(NSentAt, VSentAt), Assign(NAppliedAt, VAppliedAt),
     AppendToList(NHistory, VEmptyList, VHistoryEntry)]

  /** The descriptor maps the intervention's placeholders as an intervention's descriptor does. */
  predicate InterventionResolved(
    d: UpdateDescriptor, finalState: StateDetails, currentTimestamp: int, interventionEvent: IngressEvent, name: InterventionType)
  {
    BaseResolved(d, finalState, currentTimestamp) && InterventionPairsResolved(d, currentTimestamp, interventionEvent, name)
  }

  /** The descriptor maps the placeholders of the intervention's own actions as an intervention's descriptor does. */
  predicate InterventionPairsResolved(
    d: UpdateDescriptor, currentTimestamp: int, interventionEvent: IngressEvent, name: InterventionType)
  {
    && NIntervention in d.names && d.names[NIntervention] == Intervention
    && NAppliedAt in d.names && d.names[NAppliedAt] == AppliedAt
    && NSentAt in d.names && d.names[NSentAt] == SentAt
    && NHistory in d.names && d.names[NHistory] == History
    && VIntervention in d.values && d.values[VIntervention] == Str(InterventionString(name))
    && VAppliedAt in d.values && d.values[VAppliedAt] == Num(currentTimestamp)
    && VSentAt in d.values && d.values[VSentAt] == Num(EventTimestamp(interventionEvent))
    && VEmptyList in d.values && d.values[VEmptyList] == List([])
    && VHistoryEntry in d.values &&
       d.values[VHistoryEntry] == List([HistoryEntry(HistoryString(interventionEvent, EventTimestamp(interventionEvent)))])
  }


  /** The intervention's names map resolves every name placeholder it uses. */
  lemma InterventionNamesResolved()
    ensures NBlocked in InterventionNames && InterventionNames[NBlocked] == Blocked
    ensures NSuspended in InterventionNames && InterventionNames[NSuspended] == Suspended
    ensures NResetPassword in InterventionNames && InterventionNames[NResetPassword] == ResetPassword
    ensures NReproveIdentity in InterventionNames && InterventionNames[NReproveIdentity] == ReproveIdentity
    ensures NUpdatedAt in InterventionNames && InterventionNames[NUpdatedAt] == UpdatedAt
    ensures NIntervention in InterventionNames && InterventionNames[NIntervention] == Intervention
    ensures NAppliedAt in InterventionNames && InterventionNames[NAppliedAt] == AppliedAt
    ensures NSentAt in InterventionNames && InterventionNames[NSentAt] == SentAt
    ensures NHistory in InterventionNames && InterventionNames[NHistory] == History
  {
  }

  /** The intervention's values map resolves every value placeholder it uses. */
  lemma InterventionValuesResolved(
    finalState: StateDetails, currentTimestamp: int, interventionEvent: IngressEvent, name: InterventionType)
    ensures var m := InterventionValues(finalState, currentTimestamp, interventionEvent, name);
      && VBlocked in m && m[VBlocked] == Bool(finalState.blocked)
      && VSuspended in m && m[VSuspended] == Bool(finalState.suspended)
      && VResetPassword in m && m[VResetPassword] == Bool(finalState.resetPassword)
      && VReproveIdentity in m && m[VReproveIdentity] == Bool(finalState.reproveIdentity)
      && VUpdatedAt in m && m[VUpdatedAt] == Num(currentTimestamp)
      && VIntervention in m && m[VIntervention] == Str(InterventionString(name))
      && VAppliedAt in m && m[VAppliedAt] == Num(currentTimestamp)
      && VSentAt in m && m[VSentAt] == Num(EventTimestamp(interventionEvent))
      && VEmptyList in m && m[VEmptyList] == List([])
      && VHistoryEntry in m &&
         m[VHistoryEntry] == List([HistoryEntry(HistoryString(interventionEvent, EventTimestamp(interventionEvent)))])
  {
  }

  /** A descriptor with the intervention's maps resolves the intervention's placeholders. */
  lemma InterventionMapsResolved(
    d: UpdateDescriptor, finalState: StateDetails, currentTimestamp: int, interventionEvent: IngressEvent, name: InterventionType)
    requires d.names == InterventionNames
    requires d.values == InterventionValues(finalState, currentTimestamp, interventionEvent, name)
    ensures InterventionResolved(d, finalState, currentTimestamp, interventionEvent, name)
  {
    InterventionNamesResolved();
    InterventionValuesResolved(finalState, currentTimestamp, interventionEvent, name);
  }

  /** Four actions that each succeed, applied in order, end at the last one's result. */
  lemma ApplyFourActions(
    acts: seq<SetAction>, d: UpdateDescriptor, before: Item, f0: Item, f1: Item, f2: Item, f3: Item, f4: Item)
    requires |acts| == 4
    requires ApplyAction(acts[0], d, before, f0) == Some(f1)
    requires ApplyAction(acts[1], d, before, f1) == Some(f2)
    requires ApplyAction(acts[2], d, before, f2) == Some(f3)
    requires ApplyAction(acts[3], d, before, f3) == Some(f4)
    ensures ApplyActions(acts, d, before, f0) == Some(f4)
  {
    assert ApplyActions(acts[1..][1..][1..][1..], d, before, f4) == Some(f4) by {
      assert acts[1..][1..][1..][1..] == [];
    }
    assert ApplyActions(acts[1..][1..][1..], d, before, f3) == Some(f4);
    assert ApplyActions(acts[1..][1..], d, before, f2) == Some(f4);
    assert ApplyActions(acts[1..], d, before, f1) == Some(f4);
  }

  /** The intervention's own actions, on any working copy, record it and append one history entry. */
  lemma InterventionSteps(
    d: UpdateDescriptor, item: Item, f0: Item, currentTimestamp: int, interventionEvent: IngressEvent, name: InterventionType)
    requires WellFormedRecord(item)
    requires InterventionPairsResolved(d, currentTimestamp, interventionEvent, name)
    ensures var ts := EventTimestamp(interventionEvent);
      ApplyActions(InterventionActions, d, item, f0) ==
      Some(f0[Intervention := Str(InterventionString(name))][SentAt := Num(ts)][AppliedAt := Num(currentTimestamp)]
             [History := List(PriorHistory(item) + [HistoryEntry(HistoryString(interventionEvent, ts))])])
  {
    var ts := EventTimestamp(interventionEvent);
    var acts := InterventionActions;
    var f1 := f0[Intervention := Str(InterventionString(name))];
    var f2 := f1[SentAt := Num(ts)];
    var f3 := f2[AppliedAt := Num(currentTimestamp)];
    var f4 := f3[History := List(PriorHistory(item) + [HistoryEntry(HistoryString(interventionEvent, ts))])];
    assert ApplyAction(acts[3], d, item, f3) == Some(f4) by {
      if History in item {
        assert item[History].List?;
      }
    }
    ApplyFourActions(acts, d, item, f0, f1, f2, f3, f4);
  }

  /** The intervention's own actions, after the base ones, record it and append one history entry. */
  lemma ApplyInterventionTail(
    d: UpdateDescriptor, item: Item, finalState: StateDetails, currentTimestamp: int,
    interventionEvent: IngressEvent, name: InterventionType)
    requires WellFormedRecord(item)
    requires InterventionPairsResolved(d, currentTimestamp, interventionEvent, name)
    ensures ApplyActions(InterventionActions, d, item, FlagsSet(item, finalState, currentTimestamp)) ==
      Some(InterventionRecorded(item, finalState, currentTimestamp, interventionEvent, name))
  {
    InterventionSteps(d, item, FlagsSet(item, finalState, currentTimestamp), currentTimestamp, interventionEvent, name);
  }

  /** All SET actions of an intervention's descriptor build InterventionRecorded. */
  lemma ApplyInterventionSets(
    d: UpdateDescriptor, item: Item, finalState: StateDetails, currentTimestamp: int,
    interventionEvent: IngressEvent, name: InterventionType)
    requires WellFormedRecord(item)
    requires InterventionResolved(d, finalState, currentTimestamp, interventionEvent, name)
    requires d.expression.sets == BaseActions + InterventionActions
    ensures ApplyActions(d.expression.sets, d, item, item) ==
      Some(InterventionRecorded(item, finalState, currentTimestamp, interventionEvent, name))
  {
    ApplyBase(d, finalState, currentTimestamp, item, item);
    ApplyInterventionTail(d, item, finalState, currentTimestamp, interventionEvent, name);
    ApplyActionsAppend(BaseActions, InterventionActions, d, item, item);
  }

  /** The attributes an intervention removes: the timestamps of the actions the final state requires again. */
  function StaleTimestamps(finalState: StateDetails): set<Attribute>
  {
    (if finalState.resetPassword then {ResetPasswordAt} else {}) + (if finalState.reproveIdentity then {ReprovedIdentityAt} else {})
  }

  /** The REMOVE list of an intervention, in the builder's order. */
  function StaleList(finalState: StateDetails): seq<Attribute>
  {
    (if finalState.resetPassword then [ResetPasswordAt] else []) + (if finalState.reproveIdentity then [ReprovedIdentityAt] else [])
  }

  /** The REMOVE list names each stale timestamp exactly once, and nothing else. */
  lemma StaleListExact(finalState: StateDetails)
    ensures forall a :: a in StaleList(finalState) <==> a in StaleTimestamps(finalState)
    ensures |StaleList(finalState)| == |StaleTimestamps(finalState)|
    ensures forall p, q :: 0 <= p < q < |StaleList(finalState)| ==> StaleList(finalState)[p] != StaleList(finalState)[q]
  {
  }

  /** The base actions mention exactly the base placeholders. */
  lemma BaseUsed(finalState: StateDetails, currentTimestamp: int)
    ensures NamesUsed(BaseActions) == BaseNames.Keys
    ensures ValuesUsed(BaseActions) == BaseValues(finalState, currentTimestamp).Keys
  {
    var acts := BaseActions;
    assert acts[1..][1..][1..][1..][1..] == [];
    assert BaseNames.Keys == {NBlocked, NSuspended, NResetPassword, NReproveIdentity, NUpdatedAt};
    assert BaseValues(finalState, currentTimestamp).Keys == {VBlocked, VSuspended, VResetPassword, VReproveIdentity, VUpdatedAt};
  }

  /** A completion descriptor's maps hold exactly the placeholders its actions mention. */
  lemma CompletionExact(d: UpdateDescriptor, finalState: StateDetails, currentTimestamp: int,
                        namePh: NamePlaceholder, valuePh: ValuePlaceholder, attr: Attribute, ts: int)
    requires d.names == BaseNames[namePh := attr]
    requires d.values == BaseValues(finalState, currentTimestamp)[valuePh := Num(ts)]
    requires d.expression.sets == BaseActions + [Assign(namePh, valuePh)]
    ensures PlaceholdersExact(d)
  {
    BaseUsed(finalState, currentTimestamp);
    UsedAppend(BaseActions, [Assign(namePh, valuePh)]);
    assert NamesUsed([Assign(namePh, valuePh)]) == {namePh};
    assert ValuesUsed([Assign(namePh, valuePh)]) == {valuePh};
    assert d.names.Keys == BaseNames.Keys + {namePh};
    assert d.values.Keys == BaseValues(finalState, currentTimestamp).Keys + {valuePh};
  }

  /** An intervention descriptor's maps hold exactly the placeholders its actions mention. */
  lemma InterventionExact(d: UpdateDescriptor, finalState: StateDetails, currentTimestamp: int,
                          interventionEvent: IngressEvent, name: InterventionType)
    requires d.names == InterventionNames
    requires d.values == InterventionValues(finalState, currentTimestamp, interventionEvent, name)
    requires d.expression.sets == BaseActions + InterventionActions
    ensures PlaceholdersExact(d)
  {
    BaseUsed(finalState, currentTimestamp);
    InterventionUsed();
    UsedAppend(BaseActions, InterventionActions);
  }

  /** The intervention's own actions mention exactly the intervention's placeholders. */
  lemma InterventionUsed()
    ensures NamesUsed(InterventionActions) == {NIntervention, NSentAt, NAppliedAt, NHistory}
    ensures ValuesUsed(InterventionActions) == {VIntervention, VSentAt, VAppliedAt, VEmptyList, VHistoryEntry}
  {
    var acts := InterventionActions;
    assert acts[1..][1..][1..][1..] == [];
  }

  /**
   * The descriptor built for an intervention resolves its placeholders,
   * starts with the base actions and has the effect UpdatedRecord describes.
   */
  lemma InterventionDescriptor(
    d: UpdateDescriptor, finalState: StateDetails, eventName: EventName, currentTimestamp: int,
    interventionEvent: IngressEvent, name: InterventionType)
    requires !IsUserLed(eventName)
    requires d.names == InterventionNames
    requires d.values == InterventionValues(finalState, currentTimestamp, interventionEvent, name)
    requires d.expression.sets == BaseActions + InterventionActions
    requires d.expression.removes == StaleList(finalState)
    ensures PlaceholdersResolved(d) && PlaceholdersExact(d)
    ensures && (ResetPasswordAt in d.expression.removes <==> finalState.resetPassword)
            && (ReprovedIdentityAt in d.expression.removes <==> finalState.reproveIdentity)
    ensures |d.expression.sets| > 5 && d.expression.sets[..5] == BaseActions
    ensures HasEffect(d, finalState, eventName, currentTimestamp, interventionEvent, Some(name))
  {
    StaleListExact(finalState);
    InterventionExact(d, finalState, currentTimestamp, interventionEvent, name);
    InterventionMapsResolved(d, finalState, currentTimestamp, interventionEvent, name);
    InterventionPlaceholders(d, finalState, currentTimestamp, interventionEvent, name);
    assert d.expression.sets[..5] == BaseActions;
    InterventionHasEffect(d, finalState, eventName, currentTimestamp, interventionEvent, name);
  }

  /** A descriptor with the intervention's maps, actions and REMOVE list has the intervention's effect. */
  lemma InterventionHasEffect(
    d: UpdateDescriptor, finalState: StateDetails, eventName: EventName, currentTimestamp: int,
    interventionEvent: IngressEvent, name: InterventionType)
    requires !IsUserLed(eventName)
    requires InterventionResolved(d, finalState, currentTimestamp, interventionEvent, name)
    requires d.expression.sets == BaseActions + InterventionActions
    requires forall a :: a in d.expression.removes <==> a in StaleTimestamps(finalState)
    ensures HasEffect(d, finalState, eventName, currentTimestamp, interventionEvent, Some(name))
  {
    assert (set a | a in d.expression.removes) == StaleTimestamps(finalState);
    forall item | WellFormedRecord(item)
      ensures Apply(d, item) == Some(UpdatedRecord(item, finalState, eventName, currentTimestamp, interventionEvent, Some(name)))
    {
      ApplyIntervention(d, item, finalState, eventName, currentTimestamp, interventionEvent, name);
    }
  }

  /** An intervention's descriptor resolves every placeholder its actions mention. */
  lemma InterventionPlaceholders(
    d: UpdateDescriptor, finalState: StateDetails, currentTimestamp: int, interventionEvent: IngressEvent, name: InterventionType)
    requires InterventionResolved(d, finalState, currentTimestamp, interventionEvent, name)
    requires d.expression.sets == BaseActions + InterventionActions
    ensures PlaceholdersResolved(d)
  {
    BaseActionsResolved(d);
    InterventionActionsResolved(d);
    ActionsResolvedAppend(BaseActions, InterventionActions, d);
  }

  /** Maps with the intervention's keys resolve every action an intervention adds. */
  lemma InterventionActionsResolved(d: UpdateDescriptor)
    requires NIntervention in d.names && NAppliedAt in d.names && NSentAt in d.names && NHistory in d.names
    requires VIntervention in d.values && VAppliedAt in d.values && VSentAt in d.values
    requires VEmptyList in d.values && VHistoryEntry in d.values
    ensures forall k :: 0 <= k < |InterventionActions| ==> ActionResolved(InterventionActions[k], d)
  {
    var acts := InterventionActions;
    assert ActionResolved(acts[0], d) && ActionResolved(acts[1], d) && ActionResolved(acts[2], d) && ActionResolved(acts[3], d);
  }


  /** An intervention's descriptor, applied to a well-formed record, builds UpdatedRecord. */
  lemma ApplyIntervention(
    d: UpdateDescriptor, item: Item, finalState: StateDetails, eventName: EventName, currentTimestamp: int,
    interventionEvent: IngressEvent, name: InterventionType)
    requires WellFormedRecord(item) && !IsUserLed(eventName)
    requires InterventionResolved(d, finalState, currentTimestamp, interventionEvent, name)
    requires d.expression.sets == BaseActions + InterventionActions
    requires (set a | a in d.expression.removes) == StaleTimestamps(finalState)
    ensures Apply(d, item) == Some(UpdatedRecord(item, finalState, eventName, currentTimestamp, interventionEvent, Some(name)))
  {
    ApplyInterventionSets(d, item, finalState, currentTimestamp, interventionEvent, name);
    InterventionUpdated(item, finalState, eventName, currentTimestamp, interventionEvent, name);
  }

  /** The expression in the store's syntax. */
  function ExpressionText(e: UpdateExpression): string
  {
    "SET " + ActionsText(e.sets) + (if e.removes == [] then "" else " REMOVE " + NamesText(e.removes))
  }

  function ActionText(a: SetAction): string
  {
    match a
    case Assign(n, v) => NameText(n) + " = " + ValueText(v)
    case AppendToList(n, e, i) =>
      NameText(n) + " = list_append(if_not_exists(" + NameText(n) + ", " + ValueText(e) + "), " + ValueText(i) + ")"
  }

  function ActionsText(actions: seq<SetAction>): string
  {
    if actions == [] then ""
    else if |actions| == 1 then ActionText(actions[0])
    else ActionText(actions[0]) + ", " + ActionsText(actions[1..])
  }

  function NamesText(attrs: seq<Attribute>): string
  {
    if attrs == [] then ""
    else if |attrs| == 1 then AttributeName(attrs[0])
    else AttributeName(attrs[0]) + ", " + NamesText(attrs[1..])
  }

  /** The REMOVE clause, or nothing when no attribute is removed. */
  function RemoveText(removes: seq<Attribute>): string
  {
    if removes == [] then "" else " REMOVE " + NamesText(removes)
  }

  /** The text of the base actions: `SET #B = :b, #S = :s, #RP = :rp, #RI = :ri, #UA = :ua`. */
  const BaseSetText: string :=
    "SET " + ("#B = :b, " + ("#S = :s, " + ("#RP = :rp, " + ("#RI = :ri, " + "#UA = :ua"))))

  /** Rendering a joined action list joins the renderings with a comma. */
  lemma {:induction false} ActionsTextAppend(xs: seq<SetAction>, ys: seq<SetAction>)
    requires xs != [] && ys != []
    ensures ActionsText(xs + ys) == ActionsText(xs) + ", " + ActionsText(ys)
    decreases |xs|
  {
    var zs := xs + ys;
    assert zs[0] == xs[0];
    if |xs| == 1 {
      assert zs[1..] == ys;
    } else {
      assert zs[1..] == xs[1..] + ys;
      ActionsTextAppend(xs[1..], ys);
    }
  }

  /** The base actions render as the SET clause every update starts with. */
  lemma BaseActionsText()
    ensures "SET " + ActionsText(BaseActions) == BaseSetText
  {
    var a := BaseActions;
    var t4 := "#UA = :ua";
    var t3 := "#RI = :ri, " + t4;
    var t2 := "#RP = :rp, " + t3;
    var t1 := "#S = :s, " + t2;
    var t0 := "#B = :b, " + t1;
    assert ActionsText(a[4..]) == t4 by {
      assert ActionText(a[4]) == "#UA" + " = " + ":ua";
    }
    assert ActionsText(a[3..]) == t3 by {
      assert a[3..][1..] == a[4..];
      assert ActionText(a[3]) + ", " == "#RI = :ri, ";
    }
    assert ActionsText(a[2..]) == t2 by {
      assert a[2..][1..] == a[3..];
      assert ActionText(a[2]) + ", " == "#RP = :rp, ";
    }
    assert ActionsText(a[1..]) == t1 by {
      assert a[1..][1..] == a[2..];
      assert ActionText(a[1]) + ", " == "#S = :s, ";
    }
    assert ActionsText(a) == t0 by {
      assert ActionText(a[0]) + ", " == "#B = :b, ";
    }
  }

  /**
   * An expression that starts with the base actions renders as the base SET
   * clause, a comma, the remaining actions and the REMOVE clause.
   */
  lemma ExpressionStartsWithBase(e: UpdateExpression)
    requires |e.sets| > 5 && e.sets[..5] == BaseActions
    ensures ExpressionText(e) == BaseSetText + ", " + ActionsText(e.sets[5..]) + RemoveText(e.removes)
  {
    var rest := ActionsText(e.sets[5..]);
    var base := ActionsText(BaseActions);
    var r := RemoveText(e.removes);
    assert e.sets == BaseActions + e.sets[5..];
    ActionsTextAppend(BaseActions, e.sets[5..]);
    BaseActionsText();
    calc {
      ExpressionText(e);
      "SET " + ((base + ", ") + rest) + r;
      { AppendAssoc("SET ", base + ", ", rest); }
      ("SET " + (base + ", ")) + rest + r;
      { AppendAssoc("SET ", base, ", "); }
      ("SET " + base) + ", " + rest + r;
    }
  }

  lemma AppendAssoc(a: string, b: string, c: string)
    ensures a + (b + c) == (a + b) + c
  {
  }
}
