/**
 At-most-once over every interleaving: what any number of callers, processes and status callbacks can do to one
 idempotency key.
 */
module OutboundProtocol {
  import opened Wrappers
  import opened OutboundCalls
  import opened AttemptStore
  import opened OutboundGateway

  /** The provider answered in a way that rules out a new call, or was never reached. */
  predicate CreatesNothing(outcome: Outcome) {
    match outcome
    case Response(code, _) => !(200 <= code < 300) && code < 500
    case ConnectTimeout => true
    case PoolTimeout => true
    case ConnectError => true
    case _ => false
  }

  ghost predicate NothingCreated(sent: seq<Option<Outcome>>, n: nat)
    requires n <= |sent|
  {
    forall i :: 0 <= i < n ==> sent[i].Some? && CreatesNothing(sent[i].value)
  }

  /** Only the last request may have created a call, or still create one. */
  ghost predicate AtMostOneCreates(sent: seq<Option<Outcome>>) {
    sent == [] || NothingCreated(sent, |sent| - 1)
  }

  predicate Elected(p: Protocol, c: CallerId)
    requires c in p.callers
  {
    var key := p.callers[c].request.key;
    key in p.elected && p.elected[key] == c
  }

  /** The outcomes that the loop may try again after. */
  predicate Retryable(outcome: Outcome) {
    || (outcome.Response? && outcome.code == 429)
    || outcome.ConnectTimeout? || outcome.PoolTimeout? || outcome.ConnectError?
  }

  /** How an outcome is read: retried exactly while attempts are left and it is one of the four retryable ones; a
      definite failure exactly when it rules out a new call and is not retried; and the kind of error says which
      outcome it was. */
  lemma VerdictByOutcome(cfg: Config, outcome: Outcome, attempt: nat, session: Identifier, at: int, verdict: Verdict)
    requires verdict == Judge(cfg, outcome, attempt, session, at)
    ensures verdict.Retry? <==> Retryable(outcome) && attempt < cfg.maxAttempts
    ensures (verdict.Settle? && verdict.state.Failure?) <==> CreatesNothing(outcome) && !verdict.Retry?
    ensures verdict.Settle? && verdict.state.Failure? ==>
      var kind := KindOf(verdict.state.category);
      && (kind == RateLimitError <==> outcome.Response? && outcome.code == 429)
      && (kind == AuthenticationError <==> outcome.Response? && outcome.code == 401)
      && (kind == TimeoutError <==> outcome.ConnectTimeout? || outcome.PoolTimeout?)
      && kind != InvalidResponseError
    ensures verdict.Abandon? <==> outcome.Escapes?
  {}

  /** The state that is settled names the outcome: each category of failure and each reason of uncertainty stands for
      its own outcomes, and a success is the call of the response, as new. */
  lemma SettledByOutcome(cfg: Config, outcome: Outcome, attempt: nat, session: Identifier, at: int, state: State)
    requires Judge(cfg, outcome, attempt, session, at) == Settle(state)
    ensures var code := if outcome.Response? then outcome.code else 0;
      && (state == Failure(RateLimit) <==> code == 429)
      && (state == Failure(Authentication) <==> code == 401)
      && (state == Failure(FailureCategory.Permission) <==> code == 403)
      && (state == Failure(InvalidRequest) <==> code in {400, 405, 409, 415, 422})
      && (state == Failure(ProviderRejected) <==>
            outcome.Response? && code !in {400, 401, 403, 405, 409, 415, 422, 429} && code < 500
            && !(200 <= code < 300))
      && (state == Uncertain(ProviderFailure) <==> code >= 500)
      && (state == Uncertain(InvalidResponse) <==> 200 <= code < 300 && outcome.body.Unusable?)
      && (state.Succeeded? <==> 200 <= code < 300 && outcome.body.Created?)
    ensures state == Failure(TimedOut) <==> outcome.ConnectTimeout? || outcome.PoolTimeout?
    ensures state == Failure(Connection) <==> outcome.ConnectError?
    ensures state == Uncertain(TimedOutWaiting) <==> outcome.LateTimeout?
    ensures state == Uncertain(ConnectionLost) <==> outcome.BrokenRequest?
    ensures state.Succeeded? ==>
      state.call == Call(session, outcome.body.provider, outcome.body.status, at, at, None, [])
  {}

  /** What a repeated request is told of a row: its call, the error of its failure, or that the outcome is uncertain. */
  lemma ReplayByState(attempt: Attempt)
    ensures forall call :: Replay(attempt) == Returned(call) <==> attempt.state == Succeeded(call)
    ensures Replay(attempt) == Raised(OutcomeUncertain) <==> attempt.state.Pending? || attempt.state.Uncertain?
    ensures attempt.state.Failure? ==>
      var category := attempt.state.category;
      Replay(attempt) == Raised(CallFailed(
                                  if category == Authentication then AuthenticationError
                                  else if category == TimedOut then TimeoutError
                                  else if category == RateLimit then RateLimitError
                                  else if category == InvalidResult then InvalidResponseError
                                  else ProviderError))
  {}

  // ---------- The invariant ----------

  /** The answer tells of the dispatch of the key: it is not a refusal, and neither the dispatch nor the reservation was
      cut short. */
  predicate Finished(answer: Answer) {
    answer.Returned? || (answer.Raised? && (answer.error.CallFailed? || answer.error.OutcomeUncertain?))
  }

  /** The answer of the elected caller against the row it left. */
  ghost predicate Faithful(attempt: Attempt, unheard: bool, answer: Answer) {
    match answer
    case Returned(call) => !unheard && attempt.state.Succeeded? && SameIdentity(call, attempt.state.call)
    case Raised(CallFailed(kind)) => !unheard && attempt.state.Failure? && KindOf(attempt.state.category) == kind
    case Raised(OutcomeUncertain) =>
      if unheard then attempt.state.Succeeded? || attempt.state.Failure?
      else attempt.state.Pending? || attempt.state.Uncertain?
    case Raised(StoreFailed) => !unheard && attempt.state.Pending?
    case Raised(Propagated) => !unheard && attempt.state.Pending?
    case Raised(_) => false
  }

  /** What a settled state says about the requests: success names the call in the last answer, failure means that
      nothing was created, uncertainty that the last request may have created a call. */
  ghost predicate ToldBy(state: State, sent: seq<Option<Outcome>>) {
    match state
    case Pending => true
    case Succeeded(call) =>
      && sent != [] && sent[|sent| - 1].Some? && sent[|sent| - 1].value.Response?
      && 200 <= sent[|sent| - 1].value.code < 300
      && sent[|sent| - 1].value.body.Created? && sent[|sent| - 1].value.body.provider == call.provider
    case Uncertain(_) => sent != [] && sent[|sent| - 1].Some? && !CreatesNothing(sent[|sent| - 1].value)
    case Failure(_) => sent != [] && NothingCreated(sent, |sent|)
  }

  ghost predicate PhaseOk(cfg: Config, sent: seq<Option<Outcome>>, phase: Phase) {
    match phase
    case Ready(n) => 1 <= n <= cfg.maxAttempts && |sent| == n - 1 && NothingCreated(sent, |sent|)
    case InFlight(n) => 1 <= n <= cfg.maxAttempts && |sent| == n && sent[n - 1] == None && NothingCreated(sent, n - 1)
    case Writing(state) => !state.Pending? && (state.Succeeded? ==> state.call.Valid()) && ToldBy(state, sent)
    case _ => true
  }

  ghost predicate CallerOk(cfg: Config, p: Protocol, c: CallerId)
    requires c in p.callers
  {
    var request, phase := p.callers[c].request, p.callers[c].phase;
    && (phase.Active() ==>
        && Elected(p, c) && request.key in p.rows && request.key !in p.unheard
        && p.rows[request.key].state.Pending? && p.rows[request.key].fingerprint == request.fingerprint
        && PhaseOk(cfg, p.Sent(request.key), phase))
    && (phase.Done? && Elected(p, c) ==>
        request.key in p.rows && Faithful(p.rows[request.key], request.key in p.unheard, phase.answer))
    && (phase.Done? ==> Tellable(p.rows, request, phase.answer))
  }

  ghost predicate KeyOk(cfg: Config, p: Protocol, key: Key) {
    && |p.Sent(key)| <= cfg.maxAttempts && AtMostOneCreates(p.Sent(key))
    && (key !in p.rows ==> p.Sent(key) == [] && key !in p.elected && key !in p.unheard)
    && (key in p.rows ==> ToldBy(p.rows[key].state, p.Sent(key)) && key in p.elected)
    && (key in p.elected ==> p.elected[key] in p.callers && ElectedFor(p.rows, key, p.callers[p.elected[key]].request))
  }

  /** The row of the key is that of this request. */
  ghost predicate ElectedFor(rows: Rows, key: Key, request: Request) {
    request.key == key && key in rows && rows[key].fingerprint == request.fingerprint
  }

  ghost predicate Inv(cfg: Config, p: Protocol) {
    && cfg.Valid() && ValidRows(p.rows)
    && (forall c :: c in p.callers ==> CallerOk(cfg, p, c))
    && (forall key :: KeyOk(cfg, p, key))
  }

  // ---------- One step touches one key and one caller ----------

  ghost predicate SameAt(p: Protocol, q: Protocol, key: Key) {
    && (key in p.rows <==> key in q.rows) && (key in p.rows ==> p.rows[key] == q.rows[key])
    && p.Sent(key) == q.Sent(key)
    && (key in p.elected <==> key in q.elected) && (key in p.elected ==> p.elected[key] == q.elected[key])
    && (key in p.unheard <==> key in q.unheard)
  }

  /** Between `p` and `q` only caller `c` changed, keeping its request, and only at `key`. */
  ghost predicate Local(p: Protocol, q: Protocol, c: CallerId, key: Key) {
    && c in q.callers && (c in p.callers ==> p.callers[c].request == q.callers[c].request)
    && q.callers[c].request.key == key
    && (forall d :: d in p.callers ==> d in q.callers)
    && (forall d :: d in q.callers && d != c ==> d in p.callers && p.callers[d] == q.callers[d])
    && (forall k :: k != key ==> SameAt(p, q, k))
    && (key in p.rows ==> key in q.rows && q.rows[key].fingerprint == p.rows[key].fingerprint)
  }

  lemma OtherCaller(cfg: Config, p: Protocol, q: Protocol, c: CallerId, key: Key, d: CallerId)
    requires Local(p, q, c, key) && d in p.callers && d != c && CallerOk(cfg, p, d)
    requires p.callers[d].request.key == key && key in p.elected ==> p.elected[key] == c || SameAt(p, q, key)
    requires key in q.elected ==> q.elected[key] == c || SameAt(p, q, key)
    ensures CallerOk(cfg, q, d)
  {
    var k := p.callers[d].request.key;
    if k != key {
      assert SameAt(p, q, k);
    }
  }

  lemma OtherKey(cfg: Config, p: Protocol, q: Protocol, c: CallerId, key: Key, k: Key)
    requires Local(p, q, c, key) && k != key && KeyOk(cfg, p, k)
    ensures KeyOk(cfg, q, k)
  {
    assert SameAt(p, q, k);
  }

  lemma LocalStep(cfg: Config, p: Protocol, q: Protocol, c: CallerId, key: Key)
    requires Inv(cfg, p) && Local(p, q, c, key) && ValidRows(q.rows) && CallerOk(cfg, q, c) && KeyOk(cfg, q, key)
    requires SameAt(p, q, key)
             || ((key in p.elected ==> p.elected[key] == c) && (key in q.elected ==> q.elected[key] == c))
    ensures Inv(cfg, q)
  {
    forall d | d in q.callers
      ensures CallerOk(cfg, q, d)
    {
      if d != c {
        OtherCaller(cfg, p, q, c, key, d);
      }
    }
    forall k
      ensures KeyOk(cfg, q, k)
    {
      if k != key {
        OtherKey(cfg, p, q, c, key, k);
      }
    }
  }

  // ---------- Each kind of step ----------

  /** Only the content that reserved a key is told of its dispatch. */
  ghost predicate Tellable(rows: Rows, request: Request, answer: Answer) {
    Finished(answer) ==> request.key in rows && rows[request.key].fingerprint == request.fingerprint
  }

  lemma EnterKeeps(cfg: Config, p: Protocol, c: CallerId, request: Request, answer: Answer)
    requires Inv(cfg, p) && c !in p.callers && Tellable(p.rows, request, answer)
    ensures Inv(cfg, Enter(p, c, request, Done(answer)))
  {
    var q := Enter(p, c, request, Done(answer));
    assert KeyOk(cfg, p, request.key);
    NewCallerIsNotElected(cfg, p, c);
    LocalStep(cfg, p, q, c, request.key);
  }

  /** The reservation that creates a row elects its caller. */
  function Elect(p: Protocol, c: CallerId, request: Request, now: int, phase: Phase): Protocol {
    var attempt := Attempt(request.fingerprint, Pending, now, now);
    Enter(p.(rows := p.rows[request.key := attempt], elected := p.elected[request.key := c]), c, request, phase)
  }

  lemma ElectKeeps(cfg: Config, p: Protocol, c: CallerId, request: Request, now: int, phase: Phase)
    requires Inv(cfg, p) && c !in p.callers && request.key !in p.rows
    requires phase == Ready(1) || phase == Done(Raised(StoreFailed))
    ensures Inv(cfg, Elect(p, c, request, now, phase))
  {
    assert KeyOk(cfg, p, request.key);
    ReserveKeepsValid(p.rows, request.key, request.fingerprint, now);
    LocalStep(cfg, p, Elect(p, c, request, now, phase), c, request.key);
  }

  lemma BeginCases(cfg: Config, p: Protocol, c: CallerId, request: Request, now: int, fault: Fault)
    ensures var q := Begin(cfg, p, c, request, now, fault);
      || (exists answer :: Tellable(p.rows, request, answer) && q == Enter(p, c, request, Done(answer)))
      || (request.key !in p.rows && (q == Elect(p, c, request, now, Ready(1))
                                     || q == Elect(p, c, request, now, Done(Raised(StoreFailed)))))
  {
    var q := Begin(cfg, p, c, request, now, fault);
    if q.rows == p.rows {
      var answer := q.callers[c].phase.answer;
      assert Tellable(p.rows, request, answer) && q == Enter(p, c, request, Done(answer));
    }
  }

  lemma BeginKeeps(cfg: Config, p: Protocol, c: CallerId, request: Request, now: int, fault: Fault)
    requires Inv(cfg, p) && c !in p.callers
    ensures Inv(cfg, Begin(cfg, p, c, request, now, fault))
  {
    BeginCases(cfg, p, c, request, now, fault);
    var q := Begin(cfg, p, c, request, now, fault);
    if answer :| Tellable(p.rows, request, answer) && q == Enter(p, c, request, Done(answer)) {
      EnterKeeps(cfg, p, c, request, answer);
    } else if q == Elect(p, c, request, now, Ready(1)) {
      ElectKeeps(cfg, p, c, request, now, Ready(1));
    } else {
      ElectKeeps(cfg, p, c, request, now, Done(Raised(StoreFailed)));
    }
  }

  lemma NewCallerIsNotElected(cfg: Config, p: Protocol, c: CallerId)
    requires Inv(cfg, p) && c !in p.callers
    ensures forall key :: key in p.elected ==> p.elected[key] != c
  {
    forall key | key in p.elected
      ensures p.elected[key] != c
    {
      assert KeyOk(cfg, p, key);
    }
  }

  lemma SendKeeps(cfg: Config, p: Protocol, c: CallerId)
    requires Inv(cfg, p) && c in p.callers && p.callers[c].phase.Ready?
    ensures Inv(cfg, SendOne(p, c))
  {
    var key := p.callers[c].request.key;
    assert CallerOk(cfg, p, c) && KeyOk(cfg, p, key);
    LocalStep(cfg, p, SendOne(p, c), c, key);
  }

  lemma JudgeIsTold(cfg: Config, sent: seq<Option<Outcome>>, outcome: Outcome, session: Identifier, at: int)
    requires sent != [] && NothingCreated(sent, |sent| - 1) && sent[|sent| - 1] == Some(outcome)
    ensures var verdict := Judge(cfg, outcome, |sent|, session, at);
      && (verdict.Retry? ==> |sent| < cfg.maxAttempts && NothingCreated(sent, |sent|))
      && (verdict.Settle? ==> ToldBy(verdict.state, sent) && !verdict.state.Pending?
                              && (verdict.state.Succeeded? ==> verdict.state.call.Valid()))
  {}

  lemma ReceiveKeeps(cfg: Config, p: Protocol, c: CallerId, outcome: Outcome, at: int)
    requires Inv(cfg, p) && c in p.callers && p.callers[c].phase.InFlight?
    ensures Inv(cfg, ReceiveOne(cfg, p, c, outcome, at))
  {
    var key := p.callers[c].request.key;
    assert CallerOk(cfg, p, c) && KeyOk(cfg, p, key);
    JudgeIsTold(cfg, Answered(p.Sent(key), outcome), outcome, p.callers[c].request.session, at);
    LocalStep(cfg, p, ReceiveOne(cfg, p, c, outcome, at), c, key);
  }

  lemma SaveKeepsValid(rows: Rows, key: Key, fingerprint: Fingerprint, state: State, at: int, fault: Fault)
    requires ValidRows(rows) && (state.Succeeded? ==> state.call.Valid())
    ensures ValidRows(Save(rows, key, fingerprint, state, at, fault).0)
  {
    TransactionsKeepConstraints(rows, key, fingerprint, state, at);
  }

  /** Saving an outcome over a pending row. */
  lemma SaveSettles(rows: Rows, key: Key, state: State, at: int, fault: Fault)
    requires key in rows && rows[key].state.Pending? && !state.Pending?
    ensures var (after, saved) := Save(rows, key, rows[key].fingerprint, state, at, fault);
      && (after == rows || after == rows[key := rows[key].(state := state, updatedAt := at)])
      && (saved ==> key in after && after[key].state == state)
      && (saved ==> after != rows)
  {}

  lemma StoreKeeps(cfg: Config, p: Protocol, c: CallerId, at: int, fault: Fault)
    requires Inv(cfg, p) && c in p.callers && p.callers[c].phase.Writing?
    ensures Inv(cfg, StoreOne(p, c, at, fault))
  {
    var request, state := p.callers[c].request, p.callers[c].phase.state;
    assert CallerOk(cfg, p, c) && KeyOk(cfg, p, request.key);
    SaveKeepsValid(p.rows, request.key, request.fingerprint, state, at, fault);
    SaveSettles(p.rows, request.key, state, at, fault);
    LocalStep(cfg, p, StoreOne(p, c, at, fault), c, request.key);
  }

  lemma KillKeeps(cfg: Config, p: Protocol, c: CallerId, at: int, fault: Fault)
    requires Inv(cfg, p) && c in p.callers && p.callers[c].phase.Active()
    ensures Inv(cfg, KillOne(p, c, at, fault))
  {
    var request, phase := p.callers[c].request, p.callers[c].phase;
    assert CallerOk(cfg, p, c) && KeyOk(cfg, p, request.key);
    if phase.Writing? {
      SaveKeepsValid(p.rows, request.key, request.fingerprint, phase.state, at, fault);
      SaveSettles(p.rows, request.key, phase.state, at, fault);
    }
    LocalStep(cfg, p, KillOne(p, c, at, fault), c, request.key);
  }

  lemma ObserveKeeps(cfg: Config, p: Protocol, key: Key, call: Call, at: int)
    requires Inv(cfg, p)
    ensures Inv(cfg, ObserveOne(p, key, call, at))
  {
    var q := ObserveOne(p, key, call, at);
    assert KeyOk(cfg, p, key);
    if q.rows != p.rows {
      TransactionsKeepConstraints(p.rows, key, p.rows[key].fingerprint, Succeeded(call), at);
      SettledOutcomesAreFinal(p.rows, key, p.rows[key].fingerprint, Succeeded(call), at, key);
      var c := p.elected[key];
      assert CallerOk(cfg, p, c);
      LocalStep(cfg, p, q, c, key);
    } else {
      assert q == p;
    }
  }

  lemma NextKeeps(cfg: Config, p: Protocol, event: Event)
    requires Inv(cfg, p)
    ensures Inv(cfg, Next(cfg, p, event))
  {
    match event
    case Start(c, request, now, fault) => if c !in p.callers { BeginKeeps(cfg, p, c, request, now, fault); }
    case Send(c) => if c in p.callers && p.callers[c].phase.Ready? { SendKeeps(cfg, p, c); }
    case Receive(c, outcome, at) =>
      if c in p.callers && p.callers[c].phase.InFlight? { ReceiveKeeps(cfg, p, c, outcome, at); }
    case Store(c, at, fault) => if c in p.callers && p.callers[c].phase.Writing? { StoreKeeps(cfg, p, c, at, fault); }
    case Kill(c, at, fault) => if c in p.callers && p.callers[c].phase.Active() { KillKeeps(cfg, p, c, at, fault); }
    case Observed(key, call, at) => ObserveKeeps(cfg, p, key, call, at);
  }

  lemma {:induction false} PlayKeeps(cfg: Config, p: Protocol, events: seq<Event>)
    requires Inv(cfg, p)
    ensures Inv(cfg, Play(cfg, p, events))
  {
    if events != [] {
      PlayKeeps(cfg, p, events[..|events| - 1]);
      NextKeeps(cfg, Play(cfg, p, events[..|events| - 1]), events[|events| - 1]);
    }
  }

  // ---------- Results ----------

  predicate MayCreate(request: Option<Outcome>) {
    request.None? || !CreatesNothing(request.value)
  }

  lemma Reachable(cfg: Config, events: seq<Event>)
    requires cfg.Valid()
    ensures Inv(cfg, Play(cfg, START, events))
  {
    PlayKeeps(cfg, START, events);
  }

  /** Over every interleaving, crash, lost write and answer of the provider, the requests made for one idempotency key
      are at most `maxAttempts`, and at most one of them may ever have created a call: the last. */
  lemma AtMostOneCall(cfg: Config, events: seq<Event>, key: Key, i: nat, j: nat)
    requires cfg.Valid()
    ensures var sent := Play(cfg, START, events).Sent(key);
      && |sent| <= cfg.maxAttempts
      && (i < |sent| && j < |sent| && MayCreate(sent[i]) && MayCreate(sent[j]) ==> i == j == |sent| - 1)
  {
    Reachable(cfg, events);
    assert KeyOk(cfg, Play(cfg, START, events), key);
  }

  lemma NextKeepsElection(cfg: Config, p: Protocol, event: Event, key: Key)
    requires Inv(cfg, p) && key in p.elected
    ensures var q := Next(cfg, p, event); key in q.elected && q.elected[key] == p.elected[key]
  {
    assert KeyOk(cfg, p, key);
  }

  lemma {:induction false} ElectionIsFinal(cfg: Config, p: Protocol, events: seq<Event>, key: Key)
    requires Inv(cfg, p) && key in p.elected
    ensures var q := Play(cfg, p, events); key in q.elected && q.elected[key] == p.elected[key]
  {
    if events != [] {
      var before := events[..|events| - 1];
      ElectionIsFinal(cfg, p, before, key);
      PlayKeeps(cfg, p, before);
      NextKeepsElection(cfg, Play(cfg, p, before), events[|events| - 1], key);
    }
  }

  /** One key has one dispatcher: two callers that are dispatching it, at the same time or at any two times of a run,
      are the same caller. */
  lemma OneDispatcher(cfg: Config, events: seq<Event>, p: Protocol, c: CallerId, more: seq<Event>, q: Protocol,
                      d: CallerId)
    requires cfg.Valid() && p == Play(cfg, START, events) && q == Play(cfg, p, more)
    requires c in p.callers && p.callers[c].phase.Active()
    requires d in q.callers && q.callers[d].phase.Active() && q.callers[d].request.key == p.callers[c].request.key
    ensures c == d
  {
    Reachable(cfg, events);
    PlayKeeps(cfg, p, more);
    assert CallerOk(cfg, p, c) && CallerOk(cfg, q, d);
    ElectionIsFinal(cfg, p, more, p.callers[c].request.key);
  }

  /** The dispatcher told its caller that the store or the outcome is in doubt, or was cancelled. */
  predicate InDoubt(answer: Answer) {
    answer.Raised? && (answer.error.OutcomeUncertain? || answer.error.StoreFailed? || answer.error.Propagated?)
  }

  lemma PendingIsInDoubt(attempt: Attempt, unheard: bool, answer: Answer)
    requires Faithful(attempt, unheard, answer) && attempt.state.Pending?
    ensures InDoubt(answer)
  {}

  /** A row stays pending only while its dispatcher is at work, or after it was lost, cancelled, or told its caller that
      the store or the outcome is in doubt. */
  lemma PendingRowsAreExplained(cfg: Config, events: seq<Event>, p: Protocol, key: Key)
    requires cfg.Valid() && p == Play(cfg, START, events)
    requires key in p.rows && p.rows[key].state.Pending?
    ensures key in p.elected && p.elected[key] in p.callers
    ensures var phase := p.callers[p.elected[key]].phase;
      phase.Active() || phase.Dead? || (phase.Done? && InDoubt(phase.answer))
  {
    Reachable(cfg, events);
    assert KeyOk(cfg, p, key);
    assert CallerOk(cfg, p, p.elected[key]);
    if p.callers[p.elected[key]].phase.Done? {
      PendingIsInDoubt(p.rows[key], key in p.unheard, p.callers[p.elected[key]].phase.answer);
    }
  }

  /** What an answer says about the requests made for it. */
  ghost predicate Truthful(answer: Answer, sent: seq<Option<Outcome>>) {
    match answer
    case Returned(call) =>
      && sent != [] && sent[|sent| - 1].Some? && sent[|sent| - 1].value.Response?
      && sent[|sent| - 1].value.body.Created? && sent[|sent| - 1].value.body.provider == call.provider
    case Raised(CallFailed(_)) => NothingCreated(sent, |sent|)
    case Raised(_) => true
  }

  lemma FaithfulIsTruthful(attempt: Attempt, unheard: bool, answer: Answer, sent: seq<Option<Outcome>>)
    requires Faithful(attempt, unheard, answer) && ToldBy(attempt.state, sent)
    ensures Truthful(answer, sent)
  {}

  /** What the dispatcher told its caller is what the provider did: a definite failure means that no request created
      anything, a returned call is the one named in the answer to the last request. */
  lemma AnswersAreTruthful(cfg: Config, events: seq<Event>, p: Protocol, c: CallerId)
    requires cfg.Valid() && p == Play(cfg, START, events)
    requires c in p.callers && Elected(p, c) && p.callers[c].phase.Done?
    ensures Truthful(p.callers[c].phase.answer, p.Sent(p.callers[c].request.key))
  {
    var key := p.callers[c].request.key;
    Reachable(cfg, events);
    assert CallerOk(cfg, p, c);
    assert KeyOk(cfg, p, key);
    FaithfulIsTruthful(p.rows[key], key in p.unheard, p.callers[c].phase.answer, p.Sent(key));
  }

  // ---------- Replay ----------

  /** The same call, possibly later in its life, or the same error. */
  predicate SameResult(first: Answer, second: Answer) {
    match (first, second)
    case (Returned(a), Returned(b)) => SameIdentity(a, b)
    case (Raised(a), Raised(b)) => a == b
    case _ => false
  }

  lemma ReplayOfFaithful(attempt: Attempt, unheard: bool, answer: Answer)
    requires Faithful(attempt, unheard, answer) && Finished(answer)
    ensures SameResult(answer, Replay(attempt)) <==> !unheard
  {}

  /** A repeated request with the same key and fingerprint sends nothing and changes nothing. It gets the result of the
      finished dispatch, unless that dispatch's call or failure was committed without its caller learning of it: then,
      and only then, the repetition gets the definite result while the dispatcher's caller was told of uncertainty. */
  lemma ReplayAgrees(cfg: Config, events: seq<Event>, p: Protocol, c: CallerId, d: CallerId, request: Request, now: int)
    requires cfg.Valid() && p == Play(cfg, START, events)
    requires c in p.callers && Elected(p, c) && p.callers[c].phase.Done? && Finished(p.callers[c].phase.answer)
    requires d !in p.callers && request.key == p.callers[c].request.key
    requires request.key in p.rows ==> p.rows[request.key].fingerprint == request.fingerprint
    requires ErrorOf(cfg, request, now) == None
    ensures var q := Next(cfg, p, Start(d, request, now, NoFault));
      && q.sent == p.sent && q.rows == p.rows && d in q.callers && q.callers[d].phase.Done?
      && (SameResult(p.callers[c].phase.answer, q.callers[d].phase.answer) <==> request.key !in p.unheard)
  {
    Reachable(cfg, events);
    assert CallerOk(cfg, p, c);
    ReplayOfFaithful(p.rows[request.key], request.key in p.unheard, p.callers[c].phase.answer);
  }

  lemma NextDevelops(cfg: Config, p: Protocol, event: Event, key: Key)
    requires Inv(cfg, p) && key in p.rows
    ensures key in Next(cfg, p, event).rows && Develops(p.rows[key], Next(cfg, p, event).rows[key])
  {
    match event
    case Start(c, request, now, fault) =>
    case Send(c) =>
    case Receive(c, outcome, at) =>
    case Store(c, at, fault) =>
      if c in p.callers && p.callers[c].phase.Writing? {
        var request := p.callers[c].request;
        SettledOutcomesAreFinal(p.rows, request.key, request.fingerprint, p.callers[c].phase.state, at, key);
      }
    case Kill(c, at, fault) =>
      if c in p.callers && p.callers[c].phase.Writing? {
        var request := p.callers[c].request;
        SettledOutcomesAreFinal(p.rows, request.key, request.fingerprint, p.callers[c].phase.state, at, key);
      }
    case Observed(k, call, at) =>
      if k in p.rows {
        SettledOutcomesAreFinal(p.rows, k, p.rows[k].fingerprint, Succeeded(call), at, key);
      }
  }

  lemma DevelopsTransitive(a: Attempt, b: Attempt, c: Attempt)
    requires Develops(a, b) && Develops(b, c)
    ensures Develops(a, c)
  {}

  /** Once a row is settled every replay gives the same result for ever. */
  lemma {:induction false} ReplaysNeverDisagree(cfg: Config, p: Protocol, events: seq<Event>, key: Key)
    requires Inv(cfg, p) && key in p.rows
    ensures var q := Play(cfg, p, events); key in q.rows && Develops(p.rows[key], q.rows[key])
    ensures var q := Play(cfg, p, events);
      !p.rows[key].state.Pending? ==> SameResult(Replay(p.rows[key]), Replay(q.rows[key]))
  {
    if events != [] {
      var before := events[..|events| - 1];
      ReplaysNeverDisagree(cfg, p, before, key);
      PlayKeeps(cfg, p, before);
      NextDevelops(cfg, Play(cfg, p, before), events[|events| - 1], key);
      DevelopsTransitive(p.rows[key], Play(cfg, p, before).rows[key], Play(cfg, p, events).rows[key]);
    }
  }

  // ---------- The first answer ----------

  /** The request may be made: its authorization is of now or of at most the configured time ago, the disclosure was
      accepted, and the destination is on the allowlist. */
  predicate Authorised(cfg: Config, request: Request, now: int) {
    request.disclosure && request.authorizedAt <= now <= request.authorizedAt + cfg.authorizationMaxAge
  }

  predicate Permitted(cfg: Config, request: Request, now: int) {
    Authorised(cfg, request, now) && request.destination in cfg.allowlist
  }

  /** Which requests are refused before the store is asked: exactly the unauthorised ones, and of the others those to a
      destination that is not on the allowlist. Nothing but the new caller's answer changes. */
  lemma RefusedExactly(cfg: Config, p: Protocol, c: CallerId, request: Request, now: int, fault: Fault, q: Protocol)
    requires c !in p.callers && q == Next(cfg, p, Start(c, request, now, fault))
    ensures c in q.callers
    ensures q.callers[c].phase == Done(Raised(Unauthorized)) <==> !Authorised(cfg, request, now)
    ensures q.callers[c].phase == Done(Raised(NotAllowlisted)) <==>
            Authorised(cfg, request, now) && request.destination !in cfg.allowlist
    ensures !Permitted(cfg, request, now) ==> q == p.(callers := q.callers)
  {}

  /** A permitted request starts a dispatch exactly when its key is new and the store acknowledges the reservation. */
  lemma DispatchesExactly(cfg: Config, p: Protocol, c: CallerId, request: Request, now: int, fault: Fault, q: Protocol)
    requires c !in p.callers && q == Next(cfg, p, Start(c, request, now, fault))
    ensures c in q.callers
    ensures q.callers[c].phase == Ready(1) <==>
            Permitted(cfg, request, now) && request.key !in p.rows && fault.NoFault?
    ensures q.callers[c].phase.Done? <==> q.callers[c].phase != Ready(1)
    ensures q.callers[c].request == request && q.sent == p.sent
    ensures request.key in q.rows && request.key !in p.rows ==>
      q.rows[request.key] == Attempt(request.fingerprint, Pending, now, now)
      && request.key in q.elected && q.elected[request.key] == c
    ensures request.key !in p.rows ==>
      (request.key in q.rows <==> Permitted(cfg, request, now) && !fault.Lost?)
  {}

  /** A key that is taken refuses every other content: a permitted request for it gets a conflict exactly when its
      content is not that of the caller that reserved the key, whatever became of that caller, and changes nothing. */
  lemma ConflictExactly(cfg: Config, events: seq<Event>, p: Protocol, c: CallerId, request: Request, now: int,
                        fault: Fault, q: Protocol)
    requires cfg.Valid() && p == Play(cfg, START, events) && c !in p.callers && Permitted(cfg, request, now)
    requires !fault.Lost? && q == Next(cfg, p, Start(c, request, now, fault)) && request.key in p.rows
    ensures request.key in p.elected && p.elected[request.key] in p.callers && c in q.callers
    ensures q.callers[c].phase == Done(Raised(Conflict)) <==>
            request.fingerprint != p.callers[p.elected[request.key]].request.fingerprint
    ensures q == p.(callers := q.callers)
  {
    Reachable(cfg, events);
    assert KeyOk(cfg, p, request.key);
  }

  /** Over every run, whoever was told of the result of a key asked for the content that reserved it. */
  lemma ResultsAreForTheirContent(cfg: Config, events: seq<Event>, p: Protocol, c: CallerId, key: Key)
    requires cfg.Valid() && p == Play(cfg, START, events)
    requires c in p.callers && p.callers[c].request.key == key
    requires p.callers[c].phase.Done? && Finished(p.callers[c].phase.answer)
    ensures key in p.elected && p.elected[key] in p.callers
    ensures p.callers[c].request.fingerprint == p.callers[p.elected[key]].request.fingerprint
  {
    Reachable(cfg, events);
    assert CallerOk(cfg, p, c) && KeyOk(cfg, p, key);
  }

  // ---------- What callers do not see ----------

  /** A caller that is lost while it writes may have settled the row all the same; one that is lost earlier has not. */
  lemma LostCallerMaySettle(cfg: Config, p: Protocol, c: CallerId, at: int, fault: Fault, q: Protocol)
    requires Inv(cfg, p) && c in p.callers && p.callers[c].phase.Active() && q == Next(cfg, p, Kill(c, at, fault))
    ensures c in q.callers && q.callers[c].phase == Dead && q.sent == p.sent
    ensures var key := p.callers[c].request.key;
      && key in p.rows && key in q.rows && p.rows[key].state.Pending?
      && (!q.rows[key].state.Pending? ==>
            p.callers[c].phase == Writing(q.rows[key].state) && q.rows[key].updatedAt == at)
      && (!q.rows[key].state.Pending? <==>
            p.callers[c].phase.Writing? && !fault.Lost? && p.rows[key].createdAt <= at
            && (p.callers[c].phase.state.Succeeded? ==> !IsElsewhere(p.rows, key, p.callers[c].phase.state.call)))
  {
    var request, phase := p.callers[c].request, p.callers[c].phase;
    assert CallerOk(cfg, p, c);
    if phase.Writing? {
      var (after, result) := Finish(p.rows, request.key, request.fingerprint, phase.state, at);
      FinishExactly(p.rows, request.key, request.fingerprint, phase.state, at, after, result);
    }
  }

  /** A status callback moves the call of a settled row exactly when it is news to it. */
  lemma CallbackMovesTheRow(cfg: Config, p: Protocol, key: Key, call: Call, at: int, q: Protocol)
    requires Inv(cfg, p) && key in p.rows && p.rows[key].state.Succeeded? && call.Valid()
    requires q == Next(cfg, p, Observed(key, call, at)) && OneCall(p.rows[key].state.call, call)
    ensures q == p.(rows := q.rows) && key in q.rows && q.rows[key].state.Succeeded?
    ensures q.rows[key].state.call == if IsNewsTo(p.rows[key], call, at) then call else p.rows[key].state.call
  {
    var (after, result) := Finish(p.rows, key, p.rows[key].fingerprint, Succeeded(call), at);
    FinishExactly(p.rows, key, p.rows[key].fingerprint, Succeeded(call), at, after, result);
    if IsElsewhere(p.rows, key, call) {
      var k :| k in p.rows && k != key && p.rows[k].state.Succeeded? && p.rows[k].state.call.provider == call.provider;
      assert Holds(p.rows, k, call.provider) && Holds(p.rows, key, call.provider);
    }
  }

  // ---------- Lost acknowledgements ----------

  /** The event commits the call or failure of `key` and loses the acknowledgement: its caller is about to write a state
      that is not uncertain, and the transaction succeeds. */
  predicate LosesAnswer(p: Protocol, event: Event, key: Key) {
    && event.Store? && event.fault.AckLost? && event.c in p.callers && p.callers[event.c].phase.Writing?
    && p.callers[event.c].request.key == key && !p.callers[event.c].phase.state.Uncertain?
    && Finish(p.rows, key, p.callers[event.c].request.fingerprint, p.callers[event.c].phase.state, event.at).1.Ok?
  }

  lemma UnheardStep(cfg: Config, p: Protocol, event: Event, key: Key)
    requires Inv(cfg, p)
    ensures key in Next(cfg, p, event).unheard <==> key in p.unheard || LosesAnswer(p, event, key)
  {
    if event.Store? && event.c in p.callers && p.callers[event.c].phase.Writing? {
      assert CallerOk(cfg, p, event.c);
    }
  }

  ghost predicate LosesAnswerAt(cfg: Config, events: seq<Event>, i: int, key: Key) {
    0 <= i < |events| && LosesAnswer(Play(cfg, START, events[..i]), events[i], key)
  }

  lemma LosesAnswerBefore(cfg: Config, events: seq<Event>, earlier: seq<Event>, i: int, key: Key)
    requires events != [] && earlier == events[..|events| - 1] && i < |earlier|
    ensures LosesAnswerAt(cfg, events, i, key) <==> LosesAnswerAt(cfg, earlier, i, key)
  {
    if 0 <= i {
      assert events[..i] == earlier[..i];
    }
  }

  lemma UnheardLast(cfg: Config, events: seq<Event>, earlier: seq<Event>, before: Protocol, p: Protocol, key: Key)
    requires cfg.Valid() && events != [] && earlier == events[..|events| - 1]
    requires before == Play(cfg, START, earlier) && p == Play(cfg, START, events)
    ensures key in p.unheard <==> key in before.unheard || LosesAnswerAt(cfg, events, |events| - 1, key)
  {
    Reachable(cfg, earlier);
    UnheardStep(cfg, before, events[|events| - 1], key);
  }

  lemma {:induction false} UnheardHasCause(cfg: Config, events: seq<Event>, p: Protocol, key: Key) returns (i: int)
    requires cfg.Valid() && p == Play(cfg, START, events) && key in p.unheard
    ensures LosesAnswerAt(cfg, events, i, key)
    decreases |events|
  {
    assert events != [];
    var earlier := events[..|events| - 1];
    UnheardLast(cfg, events, earlier, Play(cfg, START, earlier), p, key);
    i := |events| - 1;
    if key in Play(cfg, START, earlier).unheard {
      i := UnheardHasCause(cfg, earlier, Play(cfg, START, earlier), key);
      LosesAnswerBefore(cfg, events, earlier, i, key);
    }
  }

  lemma UnheardGrows(cfg: Config, p: Protocol, event: Event, next: Protocol, key: Key)
    requires key in p.unheard && next == Next(cfg, p, event)
    ensures key in next.unheard
  {}

  lemma {:induction false} UnheardStays(cfg: Config, p: Protocol, events: seq<Event>, key: Key)
    requires key in p.unheard
    ensures key in Play(cfg, p, events).unheard
  {
    if events != [] {
      var before := Play(cfg, p, events[..|events| - 1]);
      UnheardStays(cfg, p, events[..|events| - 1], key);
      UnheardGrows(cfg, before, events[|events| - 1], Play(cfg, p, events), key);
    }
  }

  lemma CauseStep(cfg: Config, events: seq<Event>, key: Key, i: int, next: Protocol)
    requires cfg.Valid() && LosesAnswerAt(cfg, events, i, key) && next == Play(cfg, START, events[..i + 1])
    ensures key in next.unheard
  {
    var part := events[..i + 1];
    assert part[..i] == events[..i] && part[i] == events[i];
    UnheardLast(cfg, part, events[..i], Play(cfg, START, events[..i]), next, key);
  }

  lemma UnheardThrough(cfg: Config, prefix: seq<Event>, rest: seq<Event>, events: seq<Event>, key: Key)
    requires events == prefix + rest && key in Play(cfg, START, prefix).unheard
    ensures key in Play(cfg, START, events).unheard
  {
    PlayConcat(cfg, START, prefix, rest);
    UnheardStays(cfg, Play(cfg, START, prefix), rest, key);
  }

  lemma CauseIsUnheard(cfg: Config, events: seq<Event>, key: Key, i: int)
    requires cfg.Valid() && LosesAnswerAt(cfg, events, i, key)
    ensures key in Play(cfg, START, events).unheard
  {
    CauseStep(cfg, events, key, i, Play(cfg, START, events[..i + 1]));
    UnheardThrough(cfg, events[..i + 1], events[i + 1..], events, key);
  }

  /** A key is among the exceptions exactly when at some moment of the run such an event happened. */
  lemma ExceptionsAreLostAcknowledgements(cfg: Config, events: seq<Event>, p: Protocol, key: Key)
    requires cfg.Valid() && p == Play(cfg, START, events)
    ensures key in p.unheard <==> exists i :: LosesAnswerAt(cfg, events, i, key)
  {
    if key in p.unheard {
      var i := UnheardHasCause(cfg, events, p, key);
    } else if i :| LosesAnswerAt(cfg, events, i, key) {
      CauseIsUnheard(cfg, events, key, i);
    }
  }

  /** So a repeated request gets the result of the finished dispatch exactly when in no step of the run the call or
      failure of its key was committed with the acknowledgement lost. */
  lemma ReplayAgreesUnlessUnheard(cfg: Config, events: seq<Event>, p: Protocol, c: CallerId, d: CallerId,
                                  request: Request, now: int)
    requires cfg.Valid() && p == Play(cfg, START, events)
    requires c in p.callers && Elected(p, c) && p.callers[c].phase.Done? && Finished(p.callers[c].phase.answer)
    requires d !in p.callers && request.key == p.callers[c].request.key
    requires request.key in p.rows ==> p.rows[request.key].fingerprint == request.fingerprint
    requires ErrorOf(cfg, request, now) == None
    ensures var q := Next(cfg, p, Start(d, request, now, NoFault));
      && d in q.callers && q.callers[d].phase.Done?
      && (SameResult(p.callers[c].phase.answer, q.callers[d].phase.answer) <==>
            !exists i :: LosesAnswerAt(cfg, events, i, request.key))
  {
    ReplayAgrees(cfg, events, p, c, d, request, now);
    ExceptionsAreLostAcknowledgements(cfg, events, p, request.key);
  }

  /** The exception does occur: the call is stored, the acknowledgement of the write is lost, the caller is told that
      the outcome is uncertain, and the next identical request gets the call. */
  lemma ReplayCanDisagree(cfg: Config, request: Request, now: int) returns (events: seq<Event>)
    requires cfg.Valid() && ErrorOf(cfg, request, now) == None
    ensures var p := Play(cfg, START, events);
      && 0 in p.callers && Elected(p, 0) && p.callers[0].phase == Done(Raised(OutcomeUncertain))
      && p.callers[0].request == request && request.key in p.unheard
      && request.key in p.rows && Replay(p.rows[request.key]).Returned?
  {
    events := [Start(0, request, now, NoFault), Send(0), Receive(0, Response(201, Created(7, Queued)), now),
               Store(0, now, AckLost)];
    PlayFour(cfg, events[0], events[1], events[2], events[3]);
    var p := AfterCreation(cfg, request, now);
    StoredUnheard(cfg, p, request, now);
  }

  lemma AfterCreation(cfg: Config, request: Request, now: int) returns (p: Protocol)
    requires cfg.Valid() && ErrorOf(cfg, request, now) == None
    ensures p == Next(cfg, Next(cfg, Next(cfg, START, Start(0, request, now, NoFault)), Send(0)),
                      Receive(0, Response(201, Created(7, Queued)), now))
    ensures p.rows == map[request.key := Attempt(request.fingerprint, Pending, now, now)]
    ensures p.callers ==
            map[0 := Caller(request, Writing(Succeeded(Call(request.session, 7, Queued, now, now, None, []))))]
    ensures p.elected == map[request.key := 0]
  {
    p := Next(cfg, START, Start(0, request, now, NoFault));
    assert p.callers == map[0 := Caller(request, Ready(1))];
    p := Next(cfg, p, Send(0));
    assert p.callers == map[0 := Caller(request, InFlight(1))];
    p := Next(cfg, p, Receive(0, Response(201, Created(7, Queued)), now));
  }

  lemma StoredUnheard(cfg: Config, p: Protocol, request: Request, now: int)
    requires p.rows == map[request.key := Attempt(request.fingerprint, Pending, now, now)]
    requires p.callers ==
            map[0 := Caller(request, Writing(Succeeded(Call(request.session, 7, Queued, now, now, None, []))))]
    requires p.elected == map[request.key := 0]
    ensures var q := Next(cfg, p, Store(0, now, AckLost));
      && 0 in q.callers && Elected(q, 0) && q.callers[0] == Caller(request, Done(Raised(OutcomeUncertain)))
      && request.key in q.unheard && request.key in q.rows && Replay(q.rows[request.key]).Returned?
  {}

  lemma PlayFour(cfg: Config, a: Event, b: Event, c: Event, d: Event)
    ensures Play(cfg, START, [a, b, c, d]) == Next(cfg, Next(cfg, Next(cfg, Next(cfg, START, a), b), c), d)
  {
    PlaySingle(cfg, START, a);
    PlayOne(cfg, START, [a], b);
    PlayOne(cfg, START, [a, b], c);
    PlayOne(cfg, START, [a, b, c], d);
    assert [a] + [b] == [a, b] && [a, b] + [c] == [a, b, c] && [a, b, c] + [d] == [a, b, c, d];
  }
}
