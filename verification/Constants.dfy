/**
 * The closed enumerations and constants the account-intervention core is
 * built on: event names, intervention codes, the user-led events, the layout
 * of an audit-history string, the metric names the core emits, and the two
 * record shapes (account state flags and the incoming event) it consumes.
 */
module Constants {
  import opened Wrappers

  /** EventsEnum: the names of the events the service acts upon. */
  datatype EventName =
    | FraudSuspendAccount
    | FraudUnsuspendAccount
    | FraudBlockAccount
    | FraudUnblockAccount
    | FraudForcedUserPasswordReset
    | FraudForcedUserIdentityReverification
    | FraudForcedUserPasswordResetAndIdentityReverification
      /** The identity-reverification success event (the update builder calls it IPV_IDENTITY_ISSUED). */
    | IpvAccountInterventionEnd
    | AuthPasswordResetSuccessful
    | AuthPasswordResetSuccessfulForTestClient

  function EventString(e: EventName): string
  {
    match e
    case FraudSuspendAccount => "FRAUD_SUSPEND_ACCOUNT"
    case FraudUnsuspendAccount => "FRAUD_UNSUSPEND_ACCOUNT"
    case FraudBlockAccount => "FRAUD_BLOCK_ACCOUNT"
    case FraudUnblockAccount => "FRAUD_UNBLOCK_ACCOUNT"
    case FraudForcedUserPasswordReset => "FRAUD_FORCED_USER_PASSWORD_RESET"
    case FraudForcedUserIdentityReverification => "FRAUD_FORCED_USER_IDENTITY_REVERIFICATION"
    case FraudForcedUserPasswordResetAndIdentityReverification =>
      "FRAUD_FORCED_USER_PASSWORD_RESET_AND_IDENTITY_REVERIFICATION"
    case IpvAccountInterventionEnd => "IPV_ACCOUNT_INTERVENTION_END"
    case AuthPasswordResetSuccessful => "AUTH_PASSWORD_RESET_SUCCESSFUL"
    case AuthPasswordResetSuccessfulForTestClient => "AUTH_PASSWORD_RESET_SUCCESSFUL_FOR_TEST_CLIENT"
  }

  /** The length of each member's string. */
  function EventLength(e: EventName): nat
  {
    match e
    case FraudSuspendAccount => 21
    case FraudUnsuspendAccount => 23
    case FraudBlockAccount => 19
    case FraudUnblockAccount => 21
    case FraudForcedUserPasswordReset => 32
    case FraudForcedUserIdentityReverification => 41
    case FraudForcedUserPasswordResetAndIdentityReverification => 60
    case IpvAccountInterventionEnd => 28
    case AuthPasswordResetSuccessful => 30
    case AuthPasswordResetSuccessfulForTestClient => 46
  }

  lemma EventStringLength(e: EventName)
    ensures |EventString(e)| == EventLength(e)
  {
  }

  /**
   * Distinct members of EventsEnum have distinct strings: the lengths differ,
   * except for FRAUD_SUSPEND_ACCOUNT and FRAUD_UNBLOCK_ACCOUNT, which differ at
   * their seventh character.
   */
  lemma EventStringInjective(a: EventName, b: EventName)
    requires EventString(a) == EventString(b)
    ensures a == b
  {
    EventStringLength(a);
    EventStringLength(b);
    if EventLength(a) == 21 {
      assert EventString(a)[6] == EventString(b)[6];
    }
  }

  /** Every two distinct members of EventsEnum have distinct strings. */
  lemma EventStringsDistinct()
    ensures forall a: EventName, b: EventName :: a != b ==> EventString(a) != EventString(b)
  {
    forall a: EventName, b: EventName | EventString(a) == EventString(b)
      ensures a == b
    {
      EventStringInjective(a, b);
    }
  }

  /** The members of EventsEnum in declaration order. */
  const AllEvents: seq<EventName> :=
    [FraudSuspendAccount, FraudUnsuspendAccount, FraudBlockAccount, FraudUnblockAccount,
     FraudForcedUserPasswordReset, FraudForcedUserIdentityReverification,
     FraudForcedUserPasswordResetAndIdentityReverification, IpvAccountInterventionEnd,
     AuthPasswordResetSuccessful, AuthPasswordResetSuccessfulForTestClient]

  /** EventsEnum has ten members, with ten distinct names. */
  lemma AllEventsDistinct()
    ensures |AllEvents| == 10
    ensures forall i, j :: 0 <= i < j < |AllEvents| ==> EventString(AllEvents[i]) != EventString(AllEvents[j])
  {
    EventStringsDistinct();
  }

  /** No member of EventsEnum is missing from AllEvents. */
  lemma {:induction false} AllEventsComplete(e: EventName)
    ensures e in AllEvents
  {
    var r := AllEvents;
    match e
    case FraudSuspendAccount => assert r[0] == e;
    case FraudUnsuspendAccount => assert r[1] == e;
    case FraudBlockAccount => assert r[2] == e;
    case FraudUnblockAccount => assert r[3] == e;
    case FraudForcedUserPasswordReset => assert r[4] == e;
    case FraudForcedUserIdentityReverification => assert r[5] == e;
    case FraudForcedUserPasswordResetAndIdentityReverification => assert r[6] == e;
    case IpvAccountInterventionEnd => assert r[7] == e;
    case AuthPasswordResetSuccessful => assert r[8] == e;
    case AuthPasswordResetSuccessfulForTestClient => assert r[9] == e;
  }

  /** An event name is the string of exactly one member of EventsEnum. */
  function ParseEvent(s: string): (r: Option<EventName>)
    ensures r.Some? ==> EventString(r.value) == s
    ensures r.None? ==> forall e: EventName :: EventString(e) != s
  {
    if s == "FRAUD_SUSPEND_ACCOUNT" then Some(FraudSuspendAccount)
    else if s == "FRAUD_UNSUSPEND_ACCOUNT" then Some(FraudUnsuspendAccount)
    else if s == "FRAUD_BLOCK_ACCOUNT" then Some(FraudBlockAccount)
    else if s == "FRAUD_UNBLOCK_ACCOUNT" then Some(FraudUnblockAccount)
    else if s == "FRAUD_FORCED_USER_PASSWORD_RESET" then Some(FraudForcedUserPasswordReset)
    else if s == "FRAUD_FORCED_USER_IDENTITY_REVERIFICATION" then Some(FraudForcedUserIdentityReverification)
    else if s == "FRAUD_FORCED_USER_PASSWORD_RESET_AND_IDENTITY_REVERIFICATION" then
      Some(FraudForcedUserPasswordResetAndIdentityReverification)
    else if s == "IPV_ACCOUNT_INTERVENTION_END" then Some(IpvAccountInterventionEnd)
    else if s == "AUTH_PASSWORD_RESET_SUCCESSFUL" then Some(AuthPasswordResetSuccessful)
    else if s == "AUTH_PASSWORD_RESET_SUCCESSFUL_FOR_TEST_CLIENT" then Some(AuthPasswordResetSuccessfulForTestClient)
    else None
  }

  /** Every event name survives a round trip through its string. */
  lemma ParseEventString(e: EventName)
    ensures ParseEvent(EventString(e)) == Some(e)
  {
    var r := ParseEvent(EventString(e));
    assert r.Some?;
    EventStringInjective(r.value, e);
  }

  /** TriggerEventsEnum: the events arriving on the intake queue. */
  datatype TriggerEvent =
    | TicfAccountIntervention
    | TriggerIpvAccountInterventionEnd
    | TriggerAuthPasswordResetSuccessful
    | TriggerAuthPasswordResetSuccessfulForTestClient

  function TriggerString(t: TriggerEvent): string
  {
    match t
    case TicfAccountIntervention => "TICF_ACCOUNT_INTERVENTION"
    case TriggerIpvAccountInterventionEnd => "IPV_ACCOUNT_INTERVENTION_END"
    case TriggerAuthPasswordResetSuccessful => "AUTH_PASSWORD_RESET_SUCCESSFUL"
    case TriggerAuthPasswordResetSuccessfulForTestClient => "AUTH_PASSWORD_RESET_SUCCESSFUL_FOR_TEST_CLIENT"
  }

  /**
   * Every trigger event other than TICF_ACCOUNT_INTERVENTION is the event of
   * the same name in EventsEnum; TICF_ACCOUNT_INTERVENTION is none of them.
   */
  function TriggerAsEvent(t: TriggerEvent): (r: Option<EventName>)
    ensures r.None? <==> forall e: EventName :: EventString(e) != TriggerString(t)
    ensures r.Some? ==> EventString(r.value) == TriggerString(t)
  {
    ParseEvent(TriggerString(t))
  }

  /** TICF_ACCOUNT_INTERVENTION is the only trigger event that is not also an event of EventsEnum. */
  lemma TriggerEventsAreEvents(t: TriggerEvent)
    ensures TriggerAsEvent(t).None? <==> t == TicfAccountIntervention
  {
    if t == TicfAccountIntervention {
      forall e: EventName
        ensures EventString(e) != TriggerString(t)
      {
        EventStringLength(e);
      }
    } else {
      assert EventString(TriggerAsEvent(t).value) == TriggerString(t);
    }
  }

  /** AISInterventionTypes: the intervention codes stored on an account. */
  datatype InterventionType =
    | AisNoIntervention
    | AisAccountSuspended
    | AisAccountUnsuspended
    | AisAccountBlocked
    | AisAccountUnblocked
    | AisForcedUserPasswordReset
    | AisForcedUserIdentityVerify
    | AisForcedUserPasswordResetAndIdentityVerify

  function InterventionString(i: InterventionType): string
  {
    match i
    case AisNoIntervention => "AIS_NO_INTERVENTION"
    case AisAccountSuspended => "AIS_ACCOUNT_SUSPENDED"
    case AisAccountUnsuspended => "AIS_ACCOUNT_UNSUSPENDED"
    case AisAccountBlocked => "AIS_ACCOUNT_BLOCKED"
    case AisAccountUnblocked => "AIS_ACCOUNT_UNBLOCKED"
    case AisForcedUserPasswordReset => "AIS_FORCED_USER_PASSWORD_RESET"
    case AisForcedUserIdentityVerify => "AIS_FORCED_USER_IDENTITY_VERIFY"
    case AisForcedUserPasswordResetAndIdentityVerify => "AIS_FORCED_USER_PASSWORD_RESET_AND_IDENTITY_VERIFY"
  }

  /** The members of AISInterventionTypes: eight codes with eight distinct names, AIS_NO_INTERVENTION first. */
  function AllInterventionTypes(): (r: seq<InterventionType>)
    ensures |r| == 8 && InterventionString(r[0]) == "AIS_NO_INTERVENTION"
    ensures forall i, j :: 0 <= i < j < |r| ==> InterventionString(r[i]) != InterventionString(r[j])
  {
    [AisNoIntervention, AisAccountSuspended, AisAccountUnsuspended, AisAccountBlocked,
     AisAccountUnblocked, AisForcedUserPasswordReset, AisForcedUserIdentityVerify,
     AisForcedUserPasswordResetAndIdentityVerify]
  }

  /** No member of AISInterventionTypes is missing from AllInterventionTypes. */
  lemma {:induction false} AllInterventionTypesComplete(i: InterventionType)
    ensures i in AllInterventionTypes()
  {
    var r := AllInterventionTypes();
    match i
    case AisNoIntervention => assert r[0] == i;
    case AisAccountSuspended => assert r[1] == i;
    case AisAccountUnsuspended => assert r[2] == i;
    case AisAccountBlocked => assert r[3] == i;
    case AisAccountUnblocked => assert r[4] == i;
    case AisForcedUserPasswordReset => assert r[5] == i;
    case AisForcedUserIdentityVerify => assert r[6] == i;
    case AisForcedUserPasswordResetAndIdentityVerify => assert r[7] == i;
  }

  /** The two password-reset successes, the standard one and the test client's. */
  predicate IsPasswordResetSuccess(e: EventName)
  {
    e == AuthPasswordResetSuccessful || e == AuthPasswordResetSuccessfulForTestClient
  }

  /** The events a user causes by completing a required action: the identity-reverification end and the password-reset successes. */
  predicate IsUserLed(e: EventName)
  {
    e == IpvAccountInterventionEnd || IsPasswordResetSuccess(e)
  }

  /** userLedActionList: the events a user causes by completing a required action, each once. */
  function UserLedActionList(): (r: seq<EventName>)
    ensures |r| == 3 && r[0] != r[1] && r[0] != r[2] && r[1] != r[2]
    ensures forall e: EventName :: e in r <==> IsUserLed(e)
  {
    [IpvAccountInterventionEnd, AuthPasswordResetSuccessful, AuthPasswordResetSuccessfulForTestClient]
  }

  /** HistoryStringParts: the seven fields of an audit-history string, in order. */
  datatype HistoryStringPart =
    | EventTimestampMs
    | ComponentIdPart
    | InterventionCode
    | InterventionReason
    | OriginatingComponentId
    | OriginatorReferenceId
    | RequesterId

  /** The numeric value of each member of the (numeric) HistoryStringParts enum. */
  function PartIndex(p: HistoryStringPart): nat
  {
    match p
    case EventTimestampMs => 0
    case ComponentIdPart => 1
    case InterventionCode => 2
    case InterventionReason => 3
    case OriginatingComponentId => 4
    case OriginatorReferenceId => 5
    case RequesterId => 6
  }

  function PartName(p: HistoryStringPart): string
  {
    match p
    case EventTimestampMs => "EVENT_TIMESTAMP_MS"
    case ComponentIdPart => "COMPONENT_ID"
    case InterventionCode => "INTERVENTION_CODE"
    case InterventionReason => "INTERVENTION_REASON"
    case OriginatingComponentId => "ORIGINATING_COMPONENT_ID"
    case OriginatorReferenceId => "ORIGINATOR_REFERENCE_ID"
    case RequesterId => "REQUESTER_ID"
  }

  /** The parts in enum order: part k sits at position k, and every part occurs once. */
  function HistoryLayout(): (r: seq<HistoryStringPart>)
    ensures |r| == 7
    ensures forall k :: 0 <= k < |r| ==> PartIndex(r[k]) == k
  {
    [EventTimestampMs, ComponentIdPart, InterventionCode, InterventionReason,
     OriginatingComponentId, OriginatorReferenceId, RequesterId]
  }

  /**
   * The keys of the object a numeric TypeScript enum compiles to: one key per
   * member name and one reverse-mapping key per numeric value ("0" .. "6"),
   * the integer-like keys first.
   */
  function HistoryEnumObjectKeys(): seq<string>
  {
    ["0", "1", "2", "3", "4", "5", "6"] + seq(|HistoryLayout()|, k requires 0 <= k < |HistoryLayout()| => PartName(HistoryLayout()[k]))
  }

  /** expectedHistoryStringLength: half the enum object's keys, which is the number of parts. */
  function ExpectedHistoryStringLength(): (n: nat)
    ensures n == |HistoryLayout()| == 7
  {
    |HistoryEnumObjectKeys()| / 2
  }

  /** The metric names the modelled core emits. */
  datatype MetricName =
    | TimeToResolve
    | InterventionDidNotHaveNameInCurrentConfig
    | StateNotFoundInCurrentConfig
    | TransitionSameAsCurrentState
    | NoTransitionsFoundInConfig
    | InvalidStateEngineConfiguration
    | NoInterventionFoundForThisCode

  /** StateDetails: the four restriction flags of an account. */
  datatype StateDetails = StateDetails(blocked: bool, suspended: bool, resetPassword: bool, reproveIdentity: bool)

  /**
   * The incoming event as far as the core reads it: its timestamp in seconds,
   * its optional timestamp in milliseconds, and everything else it carries
   * (component, user, intervention extensions), which the core only hands on
   * to the history encoder.
   */
  datatype IngressEvent = IngressEvent(timestamp: int, eventTimestampMs: Option<int>, body: string)
}
