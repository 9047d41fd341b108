# Account interventions: transition policy and update builder

This project models the core of the account-interventions service.

- **The update-descriptor builder** (`buildPartialUpdateAccountStateCommand`). It records one account-state transition as a partial storage update made of three parts:
  - the attribute-name placeholders;
  - the attribute-value placeholders;
  - the update expression: a `SET` list, then an optional `REMOVE` list.
- **The transition policy** of the account-state engine:
  - a configuration graph of named four-flag states, validated once when the engine is built;
  - event resolution against that graph, with its five ways of refusing an event;
  - the lookup of an intervention code;
  - a configuration rebuilt from the engine's tests, with the table of transitions it realises.
- **The closed enumerations** of the service:
  - events, trigger events and intervention codes;
  - the user-led event list;
  - the seven ordered parts of an audit-history string.

Modules:

- `Wrappers`: the `Option` and `Result` types.
- `Constants`: the enumerations and the account flag record `StateDetails`.
- `UpdateCommand`: the builder, written as a method that grows the descriptor step by step, as the source does. `Apply` gives a descriptor its meaning on a stored record. `UpdatedRecord` states the intended effect attribute by attribute. The builder is proved to return a descriptor whose meaning is that effect, on every well-formed record.
- `StateEngine`: the graph, its validity, `NewEngine` (getInstance), `Resolve` (applyEventTransition), the error messages and metrics, and the code lookup.
- `TransitionConfig`: a configuration rebuilt from the engine's tests, as a graph value, the table of transitions the tests expect, and proofs that the graph follows the table and that the table amounts to the service's policy. It also holds the malformed configurations the tests swap in, and what each one yields.

Identity re-proof. The builder and the engine's tests name the identity-success event `IPV_IDENTITY_ISSUED` (src/commons/build-partial-update-state-command.ts:43). The event enumeration calls it `IPV_ACCOUNT_INTERVENTION_END` (src/data-types/constants.ts:45). The model has a single constructor, `IpvAccountInterventionEnd`, with the enumeration's string.

Code-lookup metric. The engine's tests expect `NO_INTERVENTION_FOUND_FOR_THIS_CODE` when a code is unknown (src/services/test/account-state-engine.test.ts:495). The metric enumeration shown has no such member; its nearest member is `INTERVENTION_CODE_NOT_FOUND_IN_CONFIG` (src/data-types/constants.ts:14). The model keeps the tests' name, `NoInterventionFoundForThisCode`.

Resolution refuses an event with NoTransitions when the current state's adjacency list is absent or empty. A configuration is valid when three things hold: every node has an adjacency list, which may be empty; every edge id an adjacency list names exists; and every edge leads to a defined node. The tests exercise only two of these: a missing adjacency list and a dangling edge.

REMOVE direction. The model follows the code at src/commons/build-partial-update-state-command.ts:87-93. An intervention removes `resetPasswordAt` exactly when the final state has `resetPassword` set, and `reprovedIdentityAt` exactly when it has `reproveIdentity` set: a timestamp of an action that is pending again is stale.

## Model

| member | source | states |
|---|---|---|
| UpdateCommand.BuildPartialUpdateAccountStateCommand | src/commons/build-partial-update-state-command.ts:16-95 | Fails exactly when the event is not user-led and has no intervention name; then it reports only INTERVENTION_DID_NOT_HAVE_NAME_IN_CURRENT_CONFIG. Otherwise: the name and value maps hold an entry for exactly the placeholders the SET actions mention, none missing and none unused; the SET list starts with the five base actions; applied to any well-formed record, the descriptor yields UpdatedRecord. A user-led event gets no REMOVE. An intervention removes resetPasswordAt iff final resetPassword, and reprovedIdentityAt iff final reproveIdentity; its REMOVE list is exactly those, in that order, each once. The metrics: one reproveIdentity latency, one passwordReset latency, or a suspension latency for unsuspend only. |
| UpdateCommand.EventTimestamp | src/commons/build-partial-update-state-command.ts:24 | The event time is event_timestamp_ms when the event has one. Otherwise it is a whole number of seconds, namely the event's `timestamp`, expressed in milliseconds. |
| UpdateCommand.SecondsSince | src/commons/build-partial-update-state-command.ts:48 | The latency is the whole number of seconds between the previous applied time and now: previous + r seconds is at or before now, and previous + r + 1 seconds is after it (floor division of the millisecond time). |
| UpdateCommand.FlagsRecorded | src/commons/build-partial-update-state-command.ts:26-42 | Every transition writes the four final flags and updatedAt = now, and keeps the history a list. |
| UpdateCommand.UntouchedKept | src/commons/build-partial-update-state-command.ts:26-94 | An attribute no branch touches is present after the update iff it was before, with the same value. |
| UpdateCommand.UserLedEffect | src/commons/build-partial-update-state-command.ts:43-63 | Identity success stamps reprovedIdentityAt with the event time. Either password-reset success stamps resetPasswordAt with it. Neither changes the intervention or the history. |
| UpdateCommand.InterventionEffect | src/commons/build-partial-update-state-command.ts:73-86 | An intervention records its name, appliedAt = now and sentAt = the event time, and appends exactly one history entry to the prior history (the empty list when there is none). |
| UpdateCommand.StaleRemoves | src/commons/build-partial-update-state-command.ts:87-93 | The REMOVE clause chosen by the final flags is StaleList: resetPasswordAt when resetPassword is set, then reprovedIdentityAt when reproveIdentity is set. |
| UpdateCommand.StaleListExact | src/commons/build-partial-update-state-command.ts:87-93 | That list names each stale timestamp exactly once and nothing else, so no document path repeats. |
| UpdateCommand.CompletionExact | src/commons/build-partial-update-state-command.ts:43-63 | A completion descriptor's name and value maps have entries for exactly the placeholders its SET actions mention. |
| UpdateCommand.InterventionExact | src/commons/build-partial-update-state-command.ts:26-86 | An intervention descriptor's name and value maps have entries for exactly the placeholders its SET actions mention (`:empty_list` is used by if_not_exists). |
| UpdateCommand.StaleTimestampsRemoved | src/commons/build-partial-update-state-command.ts:87-93 | After an intervention, resetPasswordAt survives iff it was present and final resetPassword is false; likewise reprovedIdentityAt with reproveIdentity. |
| UpdateCommand.CompletionDescriptor | src/commons/build-partial-update-state-command.ts:43-63 | The base descriptor extended with one completion-timestamp assignment holds exactly the placeholders its actions mention, keeps the base prefix, and has the user-led effect on every record. |
| UpdateCommand.CompletionHasEffect | src/commons/build-partial-update-state-command.ts:43-63 | Applying the completion descriptor to a well-formed record gives UpdatedRecord for the user-led event. |
| UpdateCommand.InterventionDescriptor | src/commons/build-partial-update-state-command.ts:73-93 | The base descriptor with the intervention, appliedAt, sentAt and history actions, and with the REMOVE list of the stale timestamps in the builder's order, holds exactly the placeholders its actions mention, keeps the base prefix, and has the intervention effect on every record. |
| UpdateCommand.InterventionHasEffect | src/commons/build-partial-update-state-command.ts:73-93 | Applying the intervention descriptor to a well-formed record gives UpdatedRecord for the intervention. |
| UpdateCommand.ApplyInterventionTail | src/commons/build-partial-update-state-command.ts:73-86 | The four intervention actions applied after the base ones give the record with the intervention name, sentAt, appliedAt and the history with the new entry appended (list_append over if_not_exists). |
| UpdateCommand.ApplyBase | src/commons/build-partial-update-state-command.ts:26-42 | The five base actions set exactly the four flags and updatedAt. |
| UpdateCommand.ApplyActionsAppend | src/commons/build-partial-update-state-command.ts:46 | Applying a SET list extended by `+=` is applying the first part, then the rest to its result. |
| UpdateCommand.BaseActionsText | src/commons/build-partial-update-state-command.ts:41 | The base actions render as `SET #B = :b, #S = :s, #RP = :rp, #RI = :ri, #UA = :ua`. |
| UpdateCommand.ExpressionStartsWithBase | src/commons/build-partial-update-state-command.ts:41-93 | Every expression whose SET list starts with the base actions renders as the base SET text, followed by the added actions joined by ", ", followed by the REMOVE clause, if there is one. |
| Constants.AllEventsDistinct | src/data-types/constants.ts:37-48 | EventsEnum has exactly ten members, with pairwise distinct strings. |
| Constants.AllEventsComplete | src/data-types/constants.ts:37-48 | Every event is one of the ten listed. |
| Constants.EventStringInjective | src/data-types/constants.ts:37-48 | Distinct events have distinct strings. |
| Constants.ParseEvent | src/data-types/constants.ts:37-48 | Reading an event string gives the event with that string, and nothing when no event has it. |
| Constants.ParseEventString | src/data-types/constants.ts:37-48 | Reading back an event's string gives the event. |
| Constants.TriggerAsEvent | src/data-types/constants.ts:49-54 | A trigger event maps to the event with the same string, and to none exactly when no event has that string. |
| Constants.TriggerEventsAreEvents | src/data-types/constants.ts:37-54 | TICF_ACCOUNT_INTERVENTION is the only trigger event that is not also an event of EventsEnum. |
| Constants.AllInterventionTypes | src/data-types/constants.ts:55-64 | There are eight intervention codes with distinct strings, the first being AIS_NO_INTERVENTION. |
| Constants.AllInterventionTypesComplete | src/data-types/constants.ts:55-64 | Every intervention code is one of the eight. |
| Constants.UserLedActionList | src/data-types/constants.ts:79-83 | The list has three distinct entries, and an event is in it iff it is user-led: the identity-reverification end or one of the two password-reset successes. The builder's branches use the same predicate. |
| Constants.HistoryLayout | src/data-types/constants.ts:87-95 | Seven history parts, with part k at position k. |
| Constants.ExpectedHistoryStringLength | src/data-types/constants.ts:97 | Half of the enum object's keys (names plus reverse mappings) is 7, the number of parts. |
| StateEngine.NewEngine | src/services/test/account-state-engine.test.ts:611-693 | Building an engine succeeds iff every node has an adjacency list, every id in an adjacency list names an edge, and every edge leads to a defined node; it then holds the configuration unchanged. |
| StateEngine.Resolve | src/services/test/account-state-engine.test.ts:497-533 | A resolved transition never leads to the current flags. |
| StateEngine.StateNotFoundExactly | src/services/test/account-state-engine.test.ts:476-489 | An event is refused with StateNotFound iff no node carries the account's current flags (no flags when there is no record). |
| StateEngine.ApplyEventTransition | src/services/test/account-state-engine.test.ts:325-475 | On an engine built from a validated configuration, TargetStateNotFound is never reported, and NoTransitions only names a state whose adjacency list is empty. |
| StateEngine.ValidEngineResolves | src/services/test/account-state-engine.test.ts:611-693 | On any valid configuration, resolution never reports a missing target, and reports NoTransitions only for a state whose adjacency list is empty. |
| StateEngine.ResolvedEdge | src/services/test/account-state-engine.test.ts:325-440 | Every successful resolution takes the first node with the current flags, the first edge of its adjacency list fired by the event, and the first node named by that edge. |
| StateEngine.EdgeResolves | src/services/test/account-state-engine.test.ts:325-440 | Conversely, such a node, edge and target with different flags give exactly that transition. |
| StateEngine.EventNotAllowed | src/services/test/account-state-engine.test.ts:441-475 | An event that fires no edge of the current node's non-empty adjacency list is refused as not allowed from that node. |
| StateEngine.NoTransitionsExactly | src/services/test/account-state-engine.test.ts:535-571 | The node of the current flags refuses an event with NoTransitions, naming itself, iff its adjacency list is absent or empty. |
| StateEngine.TargetMissingRefused | src/services/test/account-state-engine.test.ts:573-609 | When the first edge fired by the event leads to a name no node carries, the event is refused with TargetStateNotFound naming that target. |
| StateEngine.SameStateRefused | src/services/test/account-state-engine.test.ts:497-533 | When the first edge fired by the event leads to a node with the current flags, the event is refused with SameAsCurrentState, on any graph. |
| StateEngine.ErrorMetric | src/services/test/account-state-engine.test.ts:476-571 | The tests pin a metric for every refusal except TransitionNotAllowed, for which the model gives none. STATE_NOT_FOUND_IN_CURRENT_CONFIG is published exactly for an unknown current state or a missing target. |
| StateEngine.ErrorMessage | src/services/test/account-state-engine.test.ts:476-609 | The tests pin a message for every refusal except TransitionNotAllowed, for which the model gives none. The NoTransitions and TargetStateNotFound messages name the state concerned at its fixed position. |
| StateEngine.CodeErrorMessage | src/services/test/account-state-engine.test.ts:494 | The unknown-code message is `code: `, then decimal digits, then ` is not found in current configuration`. The digits read back as the code. |
| StateEngine.FindByStateSpec | src/services/test/account-state-engine.test.ts:476-489 | The state lookup finds the first node with the flags, or reports that none has them. |
| StateEngine.FindEdgeSpec | src/services/test/account-state-engine.test.ts:441-475 | The edge lookup finds the first edge of the list fired by the event, or reports that none is. |
| StateEngine.InterventionForCode | src/services/test/account-state-engine.test.ts:493-496 | A code resolves iff the code table has it, to the table's event; otherwise the error carries the code. |
| StateEngine.DecimalRoundTrip | src/services/test/account-state-engine.test.ts:494 | The numeral written into the code error reads back as the code. |
| TransitionConfig.ConfigIsValid | src/services/test/account-state-engine.test.ts:9 | The configuration `Config`, rebuilt from the tests, passes validation, and no two of its states share flags. |
| TransitionConfig.ExpectedTransition | src/services/test/account-state-engine.test.ts:325-475 | The tests' table of transitions. Every accepted event leads to another configured state, and records an intervention iff it is a fraud intervention. |
| TransitionConfig.ConfigFollowsTable | src/services/test/account-state-engine.test.ts:325-475 | From every configured state, and from no record, every event resolves exactly as the table of expected transitions says. |
| TransitionConfig.FraudPolicy | src/services/test/account-state-engine.test.ts:327-428 | A fraud intervention on an open account leads to the same flags and records the same intervention whatever the source state. It is refused only where the account already has those flags. |
| TransitionConfig.BlockedPolicy | src/services/test/account-state-engine.test.ts:430-471 | A blocked account accepts only FRAUD_UNBLOCK_ACCOUNT, which leads to no flags with AIS_ACCOUNT_UNBLOCKED. |
| TransitionConfig.UnblockOnlyFromBlocked | src/services/test/account-state-engine.test.ts:443-463 | Unblock is refused on every non-blocked configured state and on an account with no record. |
| TransitionConfig.PasswordResetPolicy | src/services/test/account-state-engine.test.ts:379-428 | Either password-reset success (standard or test client) is accepted iff resetPassword is set. It clears resetPassword, keeps suspended iff reproveIdentity is still set, and records no intervention. |
| TransitionConfig.IdentityPolicy | src/services/test/account-state-engine.test.ts:397-428 | Identity success is accepted iff reproveIdentity is set. It clears reproveIdentity, keeps suspended iff resetPassword is still set, and records no intervention. |
| TransitionConfig.UnknownStateRefused | src/services/test/account-state-engine.test.ts:476-489 | The all-flags account is refused for every event with StateNotFound, its message and STATE_NOT_FOUND_IN_CURRENT_CONFIG. |
| TransitionConfig.SameFlagsRefused | src/services/test/account-state-engine.test.ts:497-533 | An edge to a state with the current flags is refused with SameAsCurrentState, its message and TRANSITION_SAME_AS_CURRENT_STATE. |
| TransitionConfig.NoTransitionsRefused | src/services/test/account-state-engine.test.ts:535-571 | A state without an adjacency list refuses every event, naming AccountIsBlocked in the message, with NO_TRANSITIONS_FOUND_IN_CONFIG. |
| TransitionConfig.MissingTargetRefused | src/services/test/account-state-engine.test.ts:573-609 | An edge to an undefined state is refused when taken, naming AccountIsNotOkay, with STATE_NOT_FOUND_IN_CURRENT_CONFIG. |
| TransitionConfig.MalformedConfigsRejected | src/services/test/account-state-engine.test.ts:611-693 | Both malformed configurations are refused when an engine is built, with the message `Invalid state engine configuration detected.` and INVALID_STATE_ENGINE_CONFIGURATION. |
| TransitionConfig.UnknownCodeRefused | src/services/test/account-state-engine.test.ts:493-496 | Code 111, missing from the table, is refused with the message `code: 111 is not found in current configuration` and NO_INTERVENTION_FOUND_FOR_THIS_CODE. |

## Left out

- The engine's own source file is not part of this model. Its behaviour is taken from its tests. The node lookup by flags takes the first matching node, and the edge lookup takes the first matching edge in adjacency order. Nothing shown decides between several edges that one event fires.
- The singleton instance, and the configuration swapping done with `Object.defineProperty`, are replaced by explicit graph values passed to `Resolve` and `NewEngine`.
- The no-transitions scenario (test lines 535-571) configures AccountIsBlocked with no flags, yet looks the account up by the blocked flags. That works only through the engine's own cached lookup, which is not shown. The model's graph for this scenario gives AccountIsBlocked the blocked flags.
- TransitionConfig.Config: the engine's configuration file is not shown. The graph is rebuilt from the tests' table: its node order, its edge ids 1-13 and the order of its adjacency lists are a reconstruction. The tests never send AUTH_PASSWORD_RESET_SUCCESSFUL_FOR_TEST_CLIENT to the engine. Its edges (ids 12 and 13) copy those of the standard password-reset success, because the builder and userLedActionList treat the two events alike.
- StateEngine.Resolve: the engine's source is not shown. The model refuses an empty adjacency list with NoTransitions, as it does an absent one; the tests decide only the absent case.
- StateEngine.ValidConfiguration: the check that every edge id an adjacency list names exists is the model's own; the tests exercise only the other two conditions.
- The table of intervention codes is not shown. `InterventionForCode` takes it as a parameter.
- The expected update objects at test lines 53-313 describe an older descriptor shape. Only the transitions and the errors are taken from those tests.
- The history-string encoder is not part of this model. A history entry is kept as the pair (event, event timestamp) it is computed from; no delimiter or field encoding is modelled.
- The update expression is kept in its clause structure. Only the base SET prefix and the general shape (base, added actions, REMOVE) are proved about its text. The rendering of numbers in `N` values is not modelled; they are kept as integers.
- Metric publication and logging are kept as the sequence of metrics emitted. The latency is kept as an integer rather than its decimal string.
- Storage I/O, the queue handlers and the test and contract scaffolding are out of scope.
- The `ActiveStateActions` and `State` enumerations (src/data-types/constants.ts:66-77) are not used by the modelled core, and are not modelled. Of the metric names, only those the builder emits and those the engine's tests name are modelled; `STATE_TRANSITION_NOT_ALLOWED_OR_IGNORED` (src/data-types/constants.ts:13) is among those left out.
- StateEngine.ErrorMetric: the engine's source is not shown, and its tests check a refused, not-allowed event only for being thrown (src/services/test/account-state-engine.test.ts:473). Whether TransitionNotAllowed publishes a metric such as `STATE_TRANSITION_NOT_ALLOWED_OR_IGNORED` is not decided; `None` for it means not modelled, not that no metric is published.
- StateEngine.ErrorMessage: for the same reason, the message of a TransitionNotAllowed refusal is not modelled; `None` for it means not modelled, not that the thrown error has no message.
- `COMPONENT_ID` (src/data-types/constants.ts:85) is used only by the history encoder, which is not part of this model.
- JavaScript numbers are modelled as unbounded integers. Precision loss above 2^53 is not modelled.
