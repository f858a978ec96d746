# Verified models of the Volta telephony core

A voice agent negotiates freight by telephone. These Dafny modules model the parts of it whose correctness depends on
state that outlives one call: creating a telephone call exactly once, keeping a bounded set of live calls, handing a call
to a human, limiting requests, converting audio, and merging what was recorded. To check them, run
`dafny verify dfyconfig.toml`.

- `OutboundCalls`, `AttemptStore`, `DurableRow`: an outbound call as status callbacks move it, its row in the attempt table,
  and the two together under callbacks in any order and store faults.
- `OutboundGateway`, `OutboundProtocol`: creating a call behind a durable reservation. The gateway object is proved to
  play a protocol of atomic steps; the protocol is then studied for any number of callers, in every interleaving, with
  crashes, lost writes, lost acknowledgements and any answer of the provider.
- `LiveRuntime`, `LiveRuntimeRuns`, `LiveTelephony`: the in-memory runtime with its three indices, pending table, capacity
  of three and stream claims, as a value with one step per locked block, its runs, and the object whose shared entries
  follow that value. `LiveCapacity` is about slots that are never free again, `LiveCallbacks` about the callbacks that a
  live call depends on.
- `InboundBindings`: the bindings of inbound calls under interleaved accept, consent and stream requests.
- `HandoffBindings`, `HandoffStores`, `HandoffConvergence`: conference presence, the two binding stores against each other,
  and what the presences say after any operations.
- `RateLimiter`, `RateLimiterHistory`: the sliding-window limiter and its runs against the history of all decisions.
- `Mulaw`, `Base64`, `Media`: the G.711 codec (ITU-T G.711, section 3), payload framing (section 4 of RFC 4648) and the
  stateful downsampler.
- `ToolDispatcher`, `StreamBridge`, `AuditTimeline`: the browser's tool barrier, the inbound media loop with its evidence,
  and the audit merge.
- `Wrappers`, `Sets`: shared helpers.

Some expectations turned out not to hold of the code, and the modules prove exactly how far they do:

- A replay does not always agree with the first answer: when a call or failure is committed but the acknowledgement is
  lost, the first caller hears of uncertainty and the next one gets the definite result (`ReplayCanDisagree`). It agrees
  exactly when no such write happened in the run (`ReplayAgreesUnlessUnheard`).
- The durable status can stay behind the live one when a callback is delivered after one that was observed later, and it
  gets ahead when an acknowledgement is lost (`LateCallbackLeavesRowBehind`, `RowLeadsExactly`). If a newer callback is then
  applied first, the row never follows the call again (`LostAcknowledgementParts`). `Apart` is the exact condition for that:
  once it holds the row is frozen, and until then it can still catch up (`ApartForEver`, `CatchUpIsPossible`).
- The two handoff stores part when two handoffs share a call, or when a callback brings a call into a conference that
  another binding has (`SharedCallDivides`, `ClashDivides`); `CallbackHeardAlike` and `StoresAgreeExactly` say exactly when.
- A coordinator that joins before it is attached is not heard: its presence depends on exactly the callbacks since
  (`CoordinatorIsHeardFromAttachment`, `EarlyJoin`).
- A call that has processed 128 callbacks without ending can never end (`FullCallIsFrozen`, `CanEndExactly`,
  `NewCallCanFill`).
- A creation whose clean-up is interrupted leaves its key and session taken for ever (`LeakedExactly`). The task of a
  creation is shielded from the requests that wait for it (api/app/telephony/service.py:573) and nothing in the backend
  cancels it, so only the end of the event loop or a cancellation from outside interrupts it. Together with calls that
  can never end, such keys use up the three slots: no creation ever starts again exactly when they are three
  (`BlockedExactly`, `ThreeInterruptionsBlock`).
- A callback that ends a call before the call is registered is lost, and the call keeps its slot (`EarlyEndKeepsTheSlot`).
- The browser's barrier is not always lifted in the end: it can be exactly while no tracked call was rejected
  (`LiftableExactly`).

## Model

| member | source | states |
|---|---|---|
| OutboundProtocol.AtMostOneCall | backend/src/yuno_backend/integrations/twilio/outbound.py:96-260 | over every interleaving of callers, crashes, lost writes, provider outcomes and status callbacks: at most max_attempts requests per key, and only the last of them may have created a call |
| OutboundProtocol.OneDispatcher | backend/src/yuno_backend/integrations/twilio/outbound.py:105-123 | two callers dispatching one key, at one time or at two times of a run, are the same caller |
| OutboundProtocol.ElectionIsFinal | backend/src/yuno_backend/integrations/twilio/outbound.py:105-123 | the caller whose reservation created the row stays the only one ever elected for the key |
| OutboundProtocol.ConflictExactly | backend/src/yuno_backend/integrations/twilio/outbound.py:116-119 | in every reachable state a permitted request for a taken key is refused as a conflict if and only if its content is not that of the caller that reserved the key, and nothing else changes |
| OutboundProtocol.ResultsAreForTheirContent | backend/src/yuno_backend/integrations/twilio/outbound.py:116-143 | over every run, whoever was told of the result of a key asked for the content that reserved it |
| OutboundProtocol.RefusedExactly | backend/src/yuno_backend/integrations/twilio/outbound.py:96-134 | a request is refused as unauthorised if and only if its disclosure is missing or its authorization is of the future or too old, and as not allowlisted if and only if it is authorised and its destination is not on the list; nothing is written |
| OutboundProtocol.DispatchesExactly | backend/src/yuno_backend/integrations/twilio/outbound.py:96-123 | a request starts a dispatch if and only if it is permitted, its key is new, and the reservation is acknowledged |
| OutboundProtocol.PendingRowsAreExplained | backend/src/yuno_backend/integrations/twilio/outbound.py:203-226 | a row is PENDING only while its dispatcher works or after it died, was cancelled, or told its caller that the store or the outcome is in doubt |
| OutboundProtocol.AnswersAreTruthful | backend/src/yuno_backend/integrations/twilio/outbound.py:165-283 | a definite failure is raised only when no request created anything; a returned call is the one named by the answer to the last request |
| OutboundProtocol.ReplayAgrees | backend/src/yuno_backend/integrations/twilio/outbound.py:136-143 | a repeated request sends nothing and changes nothing, and gets the result of the finished dispatch if and only if that result was not committed with its acknowledgement lost |
| OutboundProtocol.ReplaysNeverDisagree | backend/src/yuno_backend/integrations/twilio/outbound.py:136-143 | once a row is settled, every later replay of it gives the same call (later in its life) or the same error |
| OutboundProtocol.ReplayCanDisagree | backend/src/yuno_backend/integrations/twilio/outbound.py:209-225 | a concrete run in which the caller is told of uncertainty and the next identical request gets the call |
| OutboundProtocol.ReplayAgreesUnlessUnheard | backend/src/yuno_backend/integrations/twilio/outbound.py:136-143 | after any run a repeated request gets the result of the finished dispatch if and only if in no step of the run a call or failure of its key was committed with its acknowledgement lost |
| OutboundProtocol.ExceptionsAreLostAcknowledgements | backend/src/yuno_backend/integrations/twilio/outbound.py:209-225 | the exception arises if and only if some step of the run committed a call or failure without acknowledging it |
| OutboundProtocol.VerdictByOutcome | backend/src/yuno_backend/integrations/twilio/outbound.py:165-260 | an outcome is retried exactly while attempts are left and it is 429, ConnectTimeout, PoolTimeout or ConnectError; it is a definite failure exactly when it rules out a new call and is not retried; the error kind tells the outcome |
| OutboundProtocol.SettledByOutcome | backend/src/yuno_backend/integrations/twilio/outbound.py:165-260 | which category of failure or reason of uncertainty is settled for exactly which outcomes, and that a success is the call of the response |
| OutboundProtocol.ReplayByState | backend/src/yuno_backend/integrations/twilio/outbound.py:262-307 | what a repeated request is told for each state of the row |
| OutboundProtocol.JudgeIsTold | backend/src/yuno_backend/integrations/twilio/outbound.py:165-260 | the state settled after a sequence of requests says what those requests did |
| OutboundProtocol.LostCallerMaySettle | backend/src/yuno_backend/integrations/twilio/outbound.py:203-226 | a caller lost while it writes has settled the row if and only if its write was committed; one lost earlier has not |
| OutboundProtocol.CallbackMovesTheRow | backend/src/yuno_backend/volta/persistence/repositories.py:1403-1429 | a status callback moves the call of a settled row if and only if it is news to it |
| OutboundGateway.TwilioOutboundCallGateway.CreateCall | backend/src/yuno_backend/integrations/twilio/outbound.py:96-123 | one uninterrupted call plays exactly the protocol steps of one caller and returns that caller's answer |
| OutboundGateway.TwilioOutboundCallGateway.Open | backend/src/yuno_backend/integrations/twilio/outbound.py:96-121 | authorisation, allowlist and reservation decide between an early answer and becoming the dispatcher |
| OutboundGateway.TwilioOutboundCallGateway.Dispatch | backend/src/yuno_backend/integrations/twilio/outbound.py:165-260 | the bounded loop plays the retry steps, sends at least one request, and sleeps exactly the first configured back-offs, one between any two requests |
| OutboundGateway.TwilioOutboundCallGateway.Exchange | backend/src/yuno_backend/integrations/twilio/outbound.py:167-185 | one request and the reading of its outcome advance the remaining steps by one round |
| OutboundGateway.TwilioOutboundCallGateway.Record | backend/src/yuno_backend/integrations/twilio/outbound.py:262-307 | a settling write that fails in any way turns the answer into an uncertain outcome |
| OutboundGateway.BoundedBody | backend/src/yuno_backend/integrations/twilio/outbound.py:343-358 | the loop returns the whole body exactly when it is announced and found to be within 65,536 bytes and not empty |
| OutboundCalls.CallNeverRegresses | backend/src/yuno_backend/volta/telephony/services.py:221-267 | whatever callbacks arrive, in any order and number, a call keeps its identity, never moves back, stays within 128 processed ids, and keeps a terminal status |
| OutboundCalls.RedeliveryHasNoEffect | backend/src/yuno_backend/volta/telephony/services.py:244-250 | a callback delivered once has no effect when delivered again at any later time |
| OutboundCalls.CallbackExactly | backend/src/yuno_backend/volta/telephony/services.py:221-267 | by the fields of call and callback: when a callback is refused, when it changes the call, and to which status, time and number |
| OutboundCalls.StatusesInOrder | backend/src/yuno_backend/volta/telephony/services.py:200-218 | which statuses are terminal, and that a status moves on exactly to a later one of the lifecycle |
| OutboundCalls.DeliverSettles | backend/src/yuno_backend/volta/telephony/services.py:235-267 | a callback that was delivered is settled, and exactly the settled ones change nothing |
| OutboundCalls.FullCallIsFrozen | backend/src/yuno_backend/volta/telephony/models.py:404-411 | after 128 processed callbacks no callback changes the call again, not even a terminal one |
| OutboundCalls.RoomAdvances | backend/src/yuno_backend/volta/telephony/models.py:404-411 | below 128 some callback ends the call |
| OutboundCalls.CanEndExactly | backend/src/yuno_backend/volta/telephony/models.py:404-411 | a call that is not over can still end, by any callbacks, if and only if it has processed fewer than 128 |
| OutboundCalls.NewCallCanFill | backend/src/yuno_backend/volta/telephony/models.py:404-411 | for any new call 128 callbacks that fill it without ending it, after which no callbacks end it |
| AttemptStore.TransactionsKeepConstraints | backend/migrations/versions/20260830_26_outbound_call_attempts.py:48-62 | reserving and finishing keep one row per provider call id and updated_at not before created_at |
| AttemptStore.ReserveExactly | backend/src/yuno_backend/volta/persistence/repositories.py:1285-1312 | a reservation is refused if and only if the key is taken by other content; a taken key keeps its row and a free one gets a pending row |
| AttemptStore.FinishExactly | backend/src/yuno_backend/volta/persistence/repositories.py:1366-1429 | by the fields of row and state: each error of the finishing transaction if and only if its condition holds, and otherwise exactly when the state is taken over |
| AttemptStore.SettledOutcomesAreFinal | backend/src/yuno_backend/volta/persistence/repositories.py:1381-1401 | rows are never removed, FAILED and UNCERTAIN rows never change, a SUCCEEDED row only moves its call forward, no write touches another key |
| DurableRow.LiveIsAcknowledged | api/app/telephony/service.py:758-771 | over any callbacks and store faults the live call is the one that the acknowledged callbacks alone determine, and its row is at that state, at an earlier one, or holds one callback of its own |
| DurableRow.RowLeadsExactly | api/app/telephony/service.py:763-771 | a row gets ahead of its live call if and only if a callback that changes the call is committed, observed no earlier than the row was last written, with its acknowledgement lost; it is then ahead by that callback |
| DurableRow.CatchesUpExactly | backend/src/yuno_backend/volta/persistence/repositories.py:1403-1429 | after an acknowledged callback the row equals the live call if and only if it already held that state, or the callback was observed no earlier than the last write, every id of the row is applied to the live call, and the live call is past the row and compatible with it |
| DurableRow.CatchesUpByTimeAndIds | backend/src/yuno_backend/volta/persistence/repositories.py:1465-1495 | unless the last callback of the row was applied late, time, ids and number alone decide; a row that holds a callback of its own catches up only by its redelivery |
| DurableRow.ApartForEver | backend/src/yuno_backend/volta/persistence/repositories.py:1473-1495 | a row whose last callback was overtaken, or whose live call ended otherwise or is full, is frozen: no callbacks and faults change it or make it equal to the live call again |
| DurableRow.CatchUpIsPossible | backend/src/yuno_backend/volta/persistence/repositories.py:1473-1495 | in every other state some callbacks without faults make the row equal to the live call, so that condition is exact |
| DurableRow.RowNeverLeads | api/app/telephony/service.py:758-771 | over any run in which no acknowledgement is lost, lost writes included, the row is never ahead of the live call |
| DurableRow.OrderedCallbacksStayInSync | backend/src/yuno_backend/volta/persistence/repositories.py:1465-1495 | while callbacks are delivered in the order they were observed the row equals the live call throughout if and only if no acknowledgement of a callback that changes the call is lost |
| DurableRow.LateCallbackLeavesRowBehind | backend/src/yuno_backend/volta/persistence/repositories.py:1473-1478 | a concrete call that is completed for the runtime while its row still says ringing |
| DurableRow.LostAcknowledgementParts | api/app/telephony/service.py:763-771 | a concrete run in order, one acknowledgement lost, after which the row says in progress for ever and the call has ended |
| DurableRow.LateRedeliveryEndsTwice | backend/src/yuno_backend/volta/persistence/repositories.py:1473-1495 | a concrete redelivery that comes in time, with every id of the row applied, and leaves row and live call in different terminal statuses |
| LiveRuntimeRuns.NeverMoreThanThree | api/app/telephony/service.py:549-558 | over every interleaving non-terminal registered calls plus pending creations are at most three; a refusal for capacity happens only at three, a start only below |
| LiveRuntimeRuns.AdmissionExactly | api/app/telephony/service.py:528-573 | every creation request has exactly one answer, each if and only if: the registered call, the pending task, a conflict, a taken session, no room, or a new task |
| LiveRuntimeRuns.IndicesAgree | api/app/telephony/service.py:446-450 | the three indices hold the same entries; pending keys and sessions are disjoint from registered ones |
| LiveRuntimeRuns.RegistrationIsFresh | api/app/telephony/service.py:583-605 | registering a created call never overwrites an entry of an index |
| LiveRuntimeRuns.OneTaskPerKey | api/app/telephony/service.py:528-573 | at most one gateway call per key is under way; the same request joins it, another request with its key is refused, and neither changes anything |
| LiveRuntimeRuns.OneTaskPerSession | api/app/telephony/service.py:541-548 | a call session has at most one creation under way and none once it is registered |
| LiveRuntimeRuns.RepeatsGetTheSameCall | api/app/telephony/service.py:528-534 | after a creation succeeded every repetition gets that call in its current state, every other request with its key is refused |
| LiveRuntimeRuns.ResultsKept | api/app/telephony/service.py:583-605 | the call a task returned stays registered under its key and only moves forward |
| LiveRuntimeRuns.BindingYieldedOnce | api/app/telephony/service.py:708-718 | each outbound entry yields its stream binding at most once over its whole life |
| LiveRuntimeRuns.ClaimedExactly | api/app/telephony/service.py:707-719 | in every reachable state a stream gets a binding if and only if it names the provider id and the token the entry is registered with, the call is not over, and the binding was never yielded |
| LiveRuntimeRuns.GrantedToItsToken | api/app/telephony/service.py:707-719 | over every run each binding was yielded to a stream that named the token and provider id of the registration before it |
| LiveRuntimeRuns.ClaimLastsExactly | api/app/telephony/service.py:846-850 | a claim lasts until exactly the end of a stream with the provider id and token of its entry |
| LiveRuntimeRuns.ConsumedForEver | api/app/telephony/service.py:716-718 | claimed implies consumed, and no step undoes consumption |
| LiveRuntimeRuns.StepKeeps | api/app/telephony/service.py:509-611 | every locked block, abort and status step keeps the runtime invariant |
| LiveCapacity.LeakedExactly | api/app/telephony/service.py:606-610 | a key stays pending after its task ended if and only if at some step of the run the creation for it was interrupted |
| LiveCapacity.LeakStaysForEver | api/app/telephony/service.py:606-610 | no later steps ever drop a leaked key |
| LiveCapacity.LeakedKeyIsStuck | api/app/telephony/service.py:535-540 | from then on a request with the key waits for the ended task or is refused |
| LiveCapacity.LeakedSessionIsStuck | api/app/telephony/service.py:544-548 | a request for its session under another key is refused |
| LiveCapacity.BlockedExactly | api/app/telephony/service.py:549-558 | no request ever starts a creation again, whatever happens, if and only if leaked keys and non-terminal calls with 128 processed callbacks are three together; otherwise some events make room for a new request |
| LiveCapacity.StickAll | api/app/telephony/service.py:549-558 | every slot in use can get stuck: from any run, interruptions and callbacks lead to one in which all of them are taken for ever |
| LiveCapacity.ThreeInterruptionsBlock | api/app/telephony/service.py:606-610 | a concrete run of three interrupted creations after which no request ever starts one |
| LiveCallbacks.CallHeardFromRegistration | api/app/telephony/service.py:758-771 | over any run a live call is the registered call after exactly the callbacks that began after its registration and were stored |
| LiveCallbacks.EarlyEndKeepsTheSlot | api/app/telephony/service.py:761-762 | a callback that ends a call before it is registered is lost: until another terminal one comes the call stays active |
| LiveCallbacks.EarlyEnd | api/app/telephony/service.py:761-762 | a concrete run in which that happens |
| LiveTelephony.LiveTelephonyApplication.Answer | api/app/telephony/service.py:528-558 | looking up key, pending key, session and capacity in the order of the program gives the admission of the runtime value |
| LiveTelephony.LiveTelephonyApplication.CountActive | api/app/telephony/service.py:549-552 | the count of non-terminal entries is the size of the active set |
| LiveTelephony.LiveTelephonyApplication.Admit | api/app/telephony/service.py:528-572 | the block takes the runtime value through its admission step |
| LiveTelephony.LiveTelephonyApplication.Register | api/app/telephony/service.py:583-605 | the block takes the runtime value through its registration step, with one new shared entry |
| LiveTelephony.LiveTelephonyApplication.CleanUp | api/app/telephony/service.py:606-610 | the block drops the pending key and session and ends the task |
| LiveTelephony.LiveTelephonyApplication.Claim | api/app/telephony/service.py:707-719 | the block yields the binding and marks the shared entry, or changes nothing |
| LiveTelephony.LiveTelephonyApplication.Release | api/app/telephony/service.py:846-850 | the end of a stream clears the claim of the entry that has its binding and nothing else |
| LiveTelephony.LiveTelephonyApplication.BeginStatus | api/app/telephony/service.py:758-764 | a callback without a registered call changes nothing; under the status lock the next call is computed but not yet visible |
| LiveTelephony.LiveTelephonyApplication.EndStatus | api/app/telephony/service.py:765-771 | the new call becomes visible only if it was stored |
| InboundBindings.OneBindingPerCall | api/app/telephony/service.py:619-756 | all accept, consent and stream steps that succeed for one inbound call get the identical binding, with the correlation id of the first of them |
| InboundBindings.FirstOfferStays | api/app/telephony/service.py:636-657 | the correlation id of a call is fixed by its first successful step |
| InboundBindings.StreamBindingOnce | api/app/telephony/service.py:737-756 | an inbound call gets its stream binding at most once although the end of a stream releases the claim |
| InboundBindings.ConfirmsExactly | api/app/telephony/service.py:649-657 | an accept or consent succeeds if and only if no earlier successful step gave the call another identity |
| InboundBindings.StreamsExactly | api/app/telephony/service.py:737-756 | a stream gets the binding if and only if no earlier successful step gave the call another identity and no stream got it before |
| InboundBindings.FirstBinding | api/app/telephony/service.py:636-657 | the first binding of a call has the identity and the correlation id it came with |
| InboundBindings.ProposesTheCorrelation | api/app/telephony/service.py:619-640 | a request that finds a binding proposes its correlation id again |
| InboundBindings.ClaimLastsExactly | api/app/telephony/service.py:851-854 | a claim lasts until exactly the end of a stream that has the binding |
| InboundBindings.InboundRuntime.Confirm | api/app/telephony/service.py:649-657 | the closing block installs the first binding, confirms an equal identity, and refuses a changed one |
| InboundBindings.InboundRuntime.ClaimStream | api/app/telephony/service.py:738-755 | the block yields the canonical binding once |
| InboundBindings.InboundRuntime.ReleaseStream | api/app/telephony/service.py:851-854 | the block clears only the claim of an equal binding |
| HandoffConvergence.OrderDoesNotMatter | backend/src/yuno_backend/integrations/twilio/handoff.py:121-200 | once the coordinator is attached, two runs with the same callbacks about a binding, reordered, repeated and mixed with any operations about other handoffs, lead it to the same state |
| HandoffConvergence.TableOrderDoesNotMatter | backend/src/yuno_backend/integrations/twilio/handoff.py:225-332 | the same of the table, whatever rows its queries take, on runs that keep calls and conferences apart |
| HandoffConvergence.TableHearsFromAttachment | backend/src/yuno_backend/integrations/twilio/handoff.py:225-332 | on such runs the table, too, has the coordinator as the last word of exactly the callbacks since its attachment |
| HandoffConvergence.HighestSequenceWins | backend/src/yuno_backend/integrations/twilio/handoff.py:121-200 | over any operations that keep calls apart each presence is the word of the callback with the highest sequence number, or what it was before |
| HandoffConvergence.JoinedExactlyWhenBothPresent | backend/src/yuno_backend/integrations/twilio/handoff.py:412-433 | JOINED is reported if and only if both presences, each the last word of all callbacks so far, are true; otherwise a leave is FAILED_SAFE and a join CONNECTING |
| HandoffConvergence.PresentExactly | backend/src/yuno_backend/integrations/twilio/handoff.py:173-200 | a participant that was absent is present if and only if its highest-numbered callback is a join |
| HandoffConvergence.HeardExactly | backend/src/yuno_backend/integrations/twilio/handoff.py:154-169 | a callback is heard if and only if the first binding that has the participant is in its conference, or in none while the participant is its remote side; otherwise nothing changes |
| HandoffConvergence.CountsExactly | backend/src/yuno_backend/integrations/twilio/handoff.py:166-200 | a callback that is heard counts if and only if its id is new and its number above the last of its side; then it sets that presence and the conference, and nothing else |
| HandoffConvergence.AttachesExactly | backend/src/yuno_backend/integrations/twilio/handoff.py:137-152 | an attachment is made if and only if the handoff is known and has no other conference and no other coordinator |
| HandoffConvergence.TableAttachesExactly | backend/src/yuno_backend/integrations/twilio/handoff.py:240-264 | the table attaches under the same condition unless another row has the conference or the coordinator, and only then fails on its constraints |
| HandoffConvergence.RemoteIsHeardFromReservation | backend/src/yuno_backend/integrations/twilio/handoff.py:121-200 | over any operations the presence of the remote side is the last word of exactly the callbacks delivered since its reservation |
| HandoffConvergence.CoordinatorIsHeardFromAttachment | backend/src/yuno_backend/integrations/twilio/handoff.py:137-200 | over any operations the presence of the coordinator is the last word of exactly the callbacks delivered since its attachment |
| HandoffConvergence.EarlyCoordinatorIsLost | backend/src/yuno_backend/integrations/twilio/handoff.py:166-169 | so a coordinator that only joined before it was attached stays absent |
| HandoffConvergence.EarlyJoin | backend/src/yuno_backend/integrations/twilio/handoff.py:166-169 | a concrete run with a join before the attachment, after which the coordinator is absent |
| HandoffConvergence.SharedCallDivides | backend/src/yuno_backend/integrations/twilio/handoff.py:154-169 | a concrete run in which two handoffs share a call: the store in memory refuses what the table records |
| HandoffConvergence.ClashDivides | backend/src/yuno_backend/integrations/twilio/handoff.py:166-169 | a concrete run in which a callback brings its call into the conference of another handoff: memory then has two bindings of one conference, the table refuses |
| HandoffStores.StoresAgreeExactly | backend/src/yuno_backend/integrations/twilio/handoff.py:121-343 | after every operation of a run the table, whatever rows its queries take, has the bindings and the results of the store in memory if and only if each operation met the conditions below in the state it found |
| HandoffStores.StoresAgree | backend/src/yuno_backend/integrations/twilio/handoff.py:121-343 | which is so on every run that keeps calls and conferences apart |
| HandoffStores.CallbackHeardAlike | backend/src/yuno_backend/integrations/twilio/handoff.py:266-332 | in any state the stores agree on a callback if and only if every row the query may take is the first binding with the participant, and a callback newer than that binding has an unseen id and a conference no other row has |
| HandoffStores.StoresAgreeOnCallback | backend/src/yuno_backend/integrations/twilio/handoff.py:266-332 | with distinct calls the stores agree on a callback, whichever row is taken, if and only if it does not put its call into a conference another binding has |
| HandoffStores.StoresAgreeOnAttachment | backend/src/yuno_backend/integrations/twilio/handoff.py:240-264 | the stores agree on an attachment if and only if the handoff is known and an allowed attachment takes nothing another binding has |
| HandoffStores.MemorySidsAreWrittenOnce | backend/src/yuno_backend/integrations/twilio/handoff.py:137-152 | conference and coordinator are written once in memory |
| HandoffStores.TableSidsAreWrittenOnce | backend/src/yuno_backend/integrations/twilio/handoff.py:240-264 | conference and coordinator are written once in the table |
| HandoffStores.AttachedHandoffNeverDials | backend/src/yuno_backend/integrations/twilio/handoff.py:369-378 | once a coordinator is attached, beginning the handoff again never dials |
| HandoffStores.OverlappingBeginningsBothDial | backend/src/yuno_backend/integrations/twilio/handoff.py:369-410 | two overlapping beginnings both dial, and only the first attached coordinator is kept |
| HandoffBindings.InMemoryTwilioHandoffBindingStore.Reserve | backend/src/yuno_backend/integrations/twilio/handoff.py:129-135 | the first reservation of a handoff stays |
| HandoffBindings.InMemoryTwilioHandoffBindingStore.AttachCoordinator | backend/src/yuno_backend/integrations/twilio/handoff.py:137-152 | the new state and the result of an attachment |
| HandoffBindings.InMemoryTwilioHandoffBindingStore.FindOwner | backend/src/yuno_backend/integrations/twilio/handoff.py:156-164 | the first binding in insertion order that has the participant |
| HandoffBindings.InMemoryTwilioHandoffBindingStore.ApplyCallback | backend/src/yuno_backend/integrations/twilio/handoff.py:154-200 | the new state and the result of a callback, in the order of the program's checks |
| RateLimiterHistory.RefinesFullHistory | api/app/middleware/rate_limit.py:58-88 | while the requests come from at most max_identities identities, one is allowed exactly when fewer than request_limit of all requests ever allowed to its identity lie strictly inside the last window |
| RateLimiterHistory.DecisionMatchesHistory | api/app/middleware/rate_limit.py:58-77 | with evictions, the same for the requests allowed since the identity was last evicted |
| RateLimiterHistory.RunMatches | api/app/middleware/rate_limit.py:58-88 | every deque is sorted, at most request_limit long, and inside the window equal to its history; purging never changes a decision |
| RateLimiterHistory.DequesNonEmpty | api/app/middleware/rate_limit.py:61-77 | every deque is non-empty |
| RateLimiterHistory.RunBounded | api/app/middleware/rate_limit.py:79-88 | there are never more than max_identities deques |
| RateLimiterHistory.AllowedSpacing | api/app/middleware/rate_limit.py:70-77 | the i-th and the (i+request_limit)-th allowed request of an identity are at least one window apart |
| RateLimiterHistory.OrderIsLastCheck | api/app/middleware/rate_limit.py:61-68 | the order of the index is the order of the last checks |
| RateLimiterHistory.EvictsLeastRecentlyChecked | api/app/middleware/rate_limit.py:87-88 | an evicted identity was checked before every identity that stays |
| RateLimiter.MakesRoomExactly | api/app/middleware/rate_limit.py:79-88 | a new identity drops exactly those without a request inside the window, and as few of the others as the bound demands; a known one drops none |
| RateLimiterHistory.RetryTimeIsExact | api/app/middleware/rate_limit.py:72-74 | after a denial the identity is denied up to one second before the retry time and allowed from it on, if nothing of it was allowed or evicted in between |
| RateLimiterHistory.DenialRetry | api/app/middleware/rate_limit.py:72-74 | the retry time is the ceiling of the time until the oldest request of a full window expires; the lower bound of one second never applies |
| RateLimiterHistory.RunExtends | api/app/middleware/rate_limit.py:58-77 | every request extends every run |
| RateLimiter.SlidingWindowRateLimiter.Check | api/app/middleware/rate_limit.py:58-77 | the new index and the decision of one check |
| RateLimiter.SlidingWindowRateLimiter.MakeRoom | api/app/middleware/rate_limit.py:79-88 | expired identities go first, then exactly as many of the oldest as needed |
| Mulaw.EncodeIsTheCell | api/app/telephony/media.py:18-25 | a code word is produced for a sample if and only if the sample lies in its quantisation cell |
| Mulaw.DecodeIsMidpoint | api/app/telephony/media.py:10-15 | decoding gives the midpoint of the cell |
| Mulaw.QuantisationError | api/app/telephony/media.py:10-25 | the error against the clamped sample is at most 2^(exponent+2) |
| Mulaw.QuantisationMonotone | api/app/telephony/media.py:10-25 | decode after encode is monotone over all samples |
| Mulaw.CodeWordRoundTrip | api/app/telephony/media.py:10-25 | encode after decode is the identity on all bytes but negative zero |
| Mulaw.PcmToMulaw | scripts/twilio_feasibility/core.py:92-105 | the mask loop returns the byte of the bit-length encoder for every integer sample |
| Base64.SymbolIsInTable | api/app/telephony/media.py:28-46 | the symbols are those of Table 1 of RFC 4648 |
| Base64.ValueIsInTable | api/app/telephony/media.py:28-46 | the alphabet is exactly that table, and the value of a symbol is its place in it |
| Base64.QuantumBits | api/app/telephony/media.py:28-46 | three octets and their four symbols are the same 24 bits, most significant first |
| Base64.DecodeEncode | api/app/telephony/media.py:46-46 | decoding undoes encoding |
| Base64.EncodeDecode | api/app/telephony/media.py:29-32 | encoding undoes decoding exactly on canonical text |
| Media.PayloadRoundTrip | api/app/telephony/media.py:28-46 | the PCM is six times as long as the mu-law; the payload comes back if and only if it is canonical and has no byte 0x7F, otherwise with 0xFF for 0x7F |
| Media.PackIsLittleEndian | api/app/telephony/media.py:28-36 | a sample is sent as its low byte and then its high byte, as a signed number of 16 bits |
| Media.UnpackIsLittleEndian | api/app/telephony/media.py:39-46 | two bytes are read as the low and the high byte of a signed number of 16 bits |
| Media.PayloadsAccepted | api/app/telephony/media.py:28-36 | a payload is accepted if and only if it decodes to 1 to 8,000 octets |
| Media.AudioAccepted | api/app/telephony/media.py:39-46 | audio is sent if and only if it is 1 to 8,000 whole groups of three samples |
| Media.ConvertedExactly | api/app/telephony/media.py:55-68 | what one call of the converter returns and leaves, by the number of its samples |
| Media.Pcm24ToMulawConverter.Convert | api/app/telephony/media.py:55-68 | one chunk returns and leaves exactly what the specification function says |
| Media.EveryThirdAt | api/app/telephony/media.py:60-63 | which samples the phase counter keeps, by index |
| Media.StreamAcceptable | api/app/telephony/media.py:55-68 | a split is converted without an error exactly when every chunk is acceptable |
| Media.StreamIsEveryThird | api/app/telephony/media.py:49-68 | the decoded output of any acceptable split encodes every third sample of the whole stream |
| Media.ChunkingInvariance | api/app/telephony/media.py:49-68 | two acceptable splits of one stream are received alike |
| Media.StreamIsOneShot | api/app/telephony/media.py:39-68 | a stream of whole groups is received as the one-shot conversion sends it |
| ToolDispatcher.BarrierHolds | frontend/src/features/realtime/tool-dispatcher.ts:354-388 | after a disconnect was marked nothing is executed and the call table keeps its ids until a refresh succeeds |
| ToolDispatcher.LiftedOnlyWhenAllFulfilled | frontend/src/features/realtime/tool-dispatcher.ts:361-366 | the refresh that lifts the barrier starts only when every tracked call is fulfilled |
| ToolDispatcher.DisconnectRaisesTheBarrier | frontend/src/features/realtime/tool-dispatcher.ts:378-434 | after a disconnect while some call has no recorded result a new id is refused, whatever its context, until the barrier is lifted |
| ToolDispatcher.RejectionKeepsTheBarrier | frontend/src/features/realtime/tool-dispatcher.ts:354-367 | once a tracked call is rejected and the barrier is up, it is never lifted and nothing is executed again |
| ToolDispatcher.LiftableExactly | frontend/src/features/realtime/tool-dispatcher.ts:354-367 | a raised barrier can still be lifted if and only if no tracked call is rejected |
| ToolDispatcher.ExecutedExactly | frontend/src/features/realtime/tool-dispatcher.ts:378-392 | over every run an id is executed if and only if some step dispatched it untracked, without barrier or reconciliation, with fewer than 128 tracked, and made for the versions, session or selected quote and evidence of the context |
| ToolDispatcher.PromiseStep | frontend/src/features/realtime/tool-dispatcher.ts:394-424 | a promise is settled once, as the event says, and its result recorded only when it is fulfilled |
| ToolDispatcher.BarrierExactly | frontend/src/features/realtime/tool-dispatcher.ts:430-434 | the barrier is raised by a disconnect while some call has no recorded result, and lifted by a refresh that succeeds, and by nothing else |
| ToolDispatcher.ReconciliationExactly | frontend/src/features/realtime/tool-dispatcher.ts:354-376 | how a reconciliation starts, refreshes, gives up and ends, one at a time |
| ToolDispatcher.ExecutedAtMostOnce | frontend/src/features/realtime/tool-dispatcher.ts:378-392 | each provider call id is executed at most once and at most 128 are executed in all |
| ToolDispatcher.DuplicatesShareThePromise | frontend/src/features/realtime/tool-dispatcher.ts:381-382 | an id was executed if and only if a repetition gets its promise without changing anything |
| ToolDispatcher.ResultIsFinal | frontend/src/features/realtime/tool-dispatcher.ts:419-424 | a fulfilled promise keeps its result |
| ToolDispatcher.RealtimeToolDispatcher.Dispatch | frontend/src/features/realtime/tool-dispatcher.ts:378-425 | the new table and the reply, in the order existing, barrier, bound, context |
| ToolDispatcher.RealtimeToolDispatcher.MarkDisconnected | frontend/src/features/realtime/tool-dispatcher.ts:430-434 | the flag is raised exactly when it was or some call has no recorded result |
| ToolDispatcher.RealtimeToolDispatcher.Reconcile | frontend/src/features/realtime/tool-dispatcher.ts:354-360 | a reconciliation starts with the calls tracked at that time, once |
| StreamBridge.TwilioToRealtime | api/app/telephony/bridge.py:98-142 | the loop ends as its messages decide, and for an inbound call captures exactly the first 1,440,000 bytes of the audio of the media frames that it gets to see |
| StreamBridge.RecoveryNeedsEvidence | api/app/telephony/service.py:826-845 | an inbound recovery is completed if and only if there was a valid stop, no disconnect, decoded audio, a speech marker and a correlation id; otherwise the call is failed, and when for missing evidence |
| StreamBridge.EndsExactly | api/app/telephony/bridge.py:98-142 | the loop ends as stopped, violated, disconnected or unable to forward if and only if the first message that is not a taken and forwarded media frame says so: each kind of frame by stream, rising numbers, track, account and payload |
| StreamBridge.LoopHears | api/app/telephony/bridge.py:98-142 | what the loop decodes is, in order, the audio of exactly the inbound media frames that it gets to see |
| StreamBridge.ReportExactly | api/app/telephony/bridge.py:204-245 | how a stream is reported and when there is evidence, for inbound and outbound calls |
| StreamBridge.AcceptedNumbersIncrease | api/app/telephony/bridge.py:106-134 | accepted sequence and chunk numbers strictly increase, above 1 and above 0 |
| StreamBridge.EvidenceIsWhole | api/app/telephony/bridge.py:137-141 | the captured length is a multiple of six, and it is empty only without decoded audio |
| StreamBridge.Conclude | api/app/telephony/bridge.py:204-245 | how the end of the loops, the captured audio and the marker become an outcome and evidence |
| AuditTimeline.AuditItemsFromPages | frontend/src/features/recovery/audit-items.ts:130-166 | for any collation, a total and transitive comparison of texts, the result is in order of time, then id, then kind, and holds exactly the items that no item of the same kind and id was read after, each once |
| AuditTimeline.ItemsExactly | frontend/src/features/recovery/audit-items.ts:134-153 | a page contributes the items of all its eight lists |
| AuditTimeline.ReadInOrder | frontend/src/features/recovery/audit-items.ts:130-159 | pages are read one after the other |
| AuditTimeline.BeforeIsStrictOrder | frontend/src/features/recovery/audit-items.ts:159-165 | comparing time, id and kind by any collation is a strict order, total on identities if the collation tells all texts apart |
| AuditTimeline.CodeUnitsCollate | frontend/src/features/recovery/audit-items.ts:159-165 | the order of code units is such a collation |
| AuditTimeline.StrictExactlyWithoutTies | frontend/src/features/recovery/audit-items.ts:162-165 | the result is strictly increasing if and only if the collation ties no two of its items |
| AuditTimeline.MergedIsLastRead | frontend/src/features/recovery/audit-items.ts:157-159 | the merge map holds, for exactly the identities that occur, the item read last |
| AuditTimeline.KeyIsInjective | frontend/src/features/recovery/audit-items.ts:158-158 | different kinds or ids never share a map key, whatever the ids contain |
| AuditTimeline.OncePerIdentity | frontend/src/features/recovery/audit-items.ts:133-165 | every identity that was read occurs exactly once |
| AuditTimeline.PageOrderDoesNotMatter | frontend/src/features/recovery/audit-items.ts:133-165 | reordering or repeating pages whose shared items agree does not change the result, unless the collation ties two items |
| AuditTimeline.OrderedIsUnique | frontend/src/features/recovery/audit-items.ts:162-165 | a strictly increasing list is determined by its elements |

## Left out

- HTTP routes, schemas, TwiML, logging, authentication and middleware other than the limiter: single-branch mappings.
- The network, the databases and the clocks: provider outcomes, store faults and clock readings are arguments chosen by an
  adversary; the limiter's run theorems take the readings in lock order and assume them non-decreasing.
- Digests and tokens: request fingerprints and event ids are injective, identifiers are numbers compared only for equality.
- DurableRow.ApartForEver: assumes, as CatchesUpByTimeAndIds does, that a callback with the id of the row's last callback
  has its number; the route makes ids of call, number and status (api/app/routers/telephony.py:672-678), and the model
  does not build them.
- The text of error messages and their metadata; the Retry-After value that accompanies a rate-limit error.
- Parsing of provider JSON and of media frames: a body is usable or not, a number in a frame parses or not.
- The inbound application, the recovery, mandate and negotiation services: their answers are arbitrary.
- The WAV container around the evidence audio; the model keeps the PCM bytes.
- The outbound direction of the media bridge, its authority checks and tool delegation, which add only easy members; the
  converter it uses is in `Media`.
- Timing of cancellation: a cancelled caller takes no further step, though a settling write it has begun may be
  committed; the bridge keeps only which loop ended how.
- A tool executor that dispatches again while it is being called: the dispatcher's table is written after the call starts.
- Library internals of base64 decoding: the decoder is that of RFC 4648 in strict mode.
- The account and direction fields that every inbound binding shares: they never differ between two bindings.
- The built-in sort: an insertion sort with the same comparison stands for it.
- Presentation texts of audit items: one number stands for them.
- The OpenAI gateway, the payment mock, the idempotency canonicalisation, migrations as programs, and all components of the
  user interface.
