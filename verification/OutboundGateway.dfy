/**
 Creating one outbound call behind durable idempotency. A reservation elects the one dispatcher of a key; its bounded
 retry loop may only repeat requests that created nothing.
 The provider, the store's faults and the clock are arguments, chosen by an adversary.
 */
module OutboundGateway {
  import opened Wrappers
  import opened OutboundCalls
  import opened AttemptStore

  datatype Config = Config(maxAttempts: nat, backoff: seq<real>, authorizationMaxAge: int, allowlist: set<nat>) {
    predicate Valid() {
      1 <= maxAttempts <= 3 && maxAttempts - 1 <= |backoff| && 1 <= authorizationMaxAge <= 3600
    }
  }

  datatype Request = Request(key: Key, fingerprint: Fingerprint, session: Identifier, destination: nat,
                             authorizedAt: int, disclosure: bool)

  /** The body of a response: at most 65,536 bytes of JSON naming a call and a known status, or anything else. */
  datatype Body = Unusable | Created(provider: Identifier, status: Status)

  /** How one request to the provider ends; `Escapes` is a cancellation or an exception that no handler names. */
  datatype Outcome =
    | Response(code: int, body: Body)
    | ConnectTimeout | PoolTimeout | ConnectError | LateTimeout | BrokenRequest | Escapes

  datatype ErrorKind = AuthenticationError | TimeoutError | RateLimitError | InvalidResponseError | ProviderError

  datatype GatewayError =
    Unauthorized | NotAllowlisted | Conflict | StoreFailed | OutcomeUncertain | CallFailed(kind: ErrorKind) | Propagated

  datatype Answer = Returned(call: Call) | Raised(error: GatewayError)

  datatype Verdict = Retry | Settle(state: State) | Abandon

  // ---------- Reading a response body ----------

  const MAX_RESPONSE_BYTES := 65_536

  function Joined(chunks: seq<seq<nat>>): seq<nat> {
    if chunks == [] then [] else Joined(chunks[..|chunks| - 1]) + chunks[|chunks| - 1]
  }

  lemma {:induction false} JoinedGrows(chunks: seq<seq<nat>>, i: nat)
    requires i <= |chunks|
    ensures |Joined(chunks[..i])| <= |Joined(chunks)|
  {
    if i < |chunks| {
      assert chunks[..|chunks| - 1][..i] == chunks[..i];
      JoinedGrows(chunks[..|chunks| - 1], i);
    } else {
      assert chunks[..i] == chunks;
    }
  }

  /** The body that arrives in chunks, unless it is empty, longer than the bound, or announced as longer or without a
      number. Reading stops at the first chunk beyond the bound. */
  method BoundedBody(contentLength: Option<Option<int>>, chunks: seq<seq<nat>>) returns (body: Option<seq<nat>>)
    ensures body ==
            if (contentLength.None? || (contentLength.value.Some? && contentLength.value.value <= 65_536))
               && 0 < |Joined(chunks)| <= 65_536
            then Some(Joined(chunks)) else None
  {
    if contentLength.Some? && (contentLength.value.None? || contentLength.value.value > MAX_RESPONSE_BYTES) {
      return None;
    }
    var read: seq<nat> := [];
    for i := 0 to |chunks|
      invariant read == Joined(chunks[..i]) && |read| <= MAX_RESPONSE_BYTES
    {
      assert chunks[..i + 1][..i] == chunks[..i];
      JoinedGrows(chunks, i + 1);
      read := read + chunks[i];
      if |read| > MAX_RESPONSE_BYTES {
        return None;
      }
    }
    assert chunks[..|chunks|] == chunks;
    return if read == [] then None else Some(read);
  }

  // ---------- Reading one outcome ----------

  function CategoryOf(code: int): FailureCategory {
    if code == 401 then Authentication
    else if code == 403 then FailureCategory.Permission
    else if code in {400, 405, 409, 415, 422} then InvalidRequest
    else ProviderRejected
  }

  function KindOf(category: FailureCategory): ErrorKind {
    match category
    case Authentication => AuthenticationError
    case TimedOut => TimeoutError
    case RateLimit => RateLimitError
    case InvalidResult => InvalidResponseError
    case _ => ProviderError
  }

  /** The call as the provider first reports it. */
  function NewCall(session: Identifier, body: Body, at: int): Call
    requires body.Created?
  {
    Call(session, body.provider, body.status, at, at, None, [])
  }

  function Judge(cfg: Config, outcome: Outcome, attempt: nat, session: Identifier, at: int): Verdict {
    match outcome
    case Response(code, body) =>
      if code == 429 then
        if attempt < cfg.maxAttempts then Retry else Settle(Failure(RateLimit))
      else if code >= 500 then Settle(Uncertain(ProviderFailure))
      else if !(200 <= code < 300) then Settle(Failure(CategoryOf(code)))
      else if body.Unusable? then Settle(Uncertain(InvalidResponse))
      else Settle(Succeeded(NewCall(session, body, at)))
    case ConnectTimeout => if attempt < cfg.maxAttempts then Retry else Settle(Failure(TimedOut))
    case PoolTimeout => if attempt < cfg.maxAttempts then Retry else Settle(Failure(TimedOut))
    case ConnectError => if attempt < cfg.maxAttempts then Retry else Settle(Failure(Connection))
    case LateTimeout => Settle(Uncertain(TimedOutWaiting))
    case BrokenRequest => Settle(Uncertain(ConnectionLost))
    case Escapes => Abandon
  }

  function ErrorOf(cfg: Config, request: Request, now: int): Option<GatewayError> {
    var age := now - request.authorizedAt;
    if age < 0 || age > cfg.authorizationMaxAge || !request.disclosure then Some(Unauthorized)
    else if request.destination !in cfg.allowlist then Some(NotAllowlisted)
    else None
  }

  function Replay(attempt: Attempt): Answer {
    match attempt.state
    case Succeeded(call) => Returned(call)
    case Failure(category) => Raised(CallFailed(KindOf(category)))
    case _ => Raised(OutcomeUncertain)
  }

  function AnswerTo(state: State, saved: bool): Answer {
    if !saved then Raised(OutcomeUncertain)
    else
      match state
      case Succeeded(call) => Returned(call)
      case Failure(category) => Raised(CallFailed(KindOf(category)))
      case _ => Raised(OutcomeUncertain)
  }

  // ---------- The protocol: any number of callers, one atomic step at a time ----------

  /** What a caller is about to do, or how it ended. `Ready(n)` sends request `n`; `Dead` is a lost process. */
  datatype Phase = Ready(n: nat) | InFlight(n: nat) | Writing(state: State) | Done(answer: Answer) | Dead
  {
    predicate Active() {
      Ready? || InFlight? || Writing?
    }
  }

  datatype Caller = Caller(request: Request, phase: Phase)

  type CallerId = nat

  /** `sent` lists per key the requests made to the provider with their outcomes, `elected` the caller whose reservation
      created the row, `unheard` the keys whose call or failure was committed while the caller was told otherwise. */
  datatype Protocol = Protocol(rows: Rows, callers: map<CallerId, Caller>, sent: map<Key, seq<Option<Outcome>>>,
                               elected: map<Key, CallerId>, unheard: set<Key>)
  {
    function Sent(key: Key): seq<Option<Outcome>> {
      if key in sent then sent[key] else []
    }

    function With(c: CallerId, phase: Phase): Protocol
      requires c in callers
    {
      this.(callers := callers[c := callers[c].(phase := phase)])
    }
  }

  datatype Event =
    | Start(c: CallerId, request: Request, now: int, fault: Fault)
    | Send(c: CallerId)
    | Receive(c: CallerId, outcome: Outcome, at: int)
    | Store(c: CallerId, at: int, fault: Fault)
    | Kill(c: CallerId, at: int, fault: Fault)
    | Observed(key: Key, call: Call, at: int)

  function Enter(p: Protocol, c: CallerId, request: Request, phase: Phase): Protocol {
    p.(callers := p.callers[c := Caller(request, phase)])
  }

  function Begin(cfg: Config, p: Protocol, c: CallerId, request: Request, now: int, fault: Fault): Protocol {
    if ErrorOf(cfg, request, now).Some? then Enter(p, c, request, Done(Raised(ErrorOf(cfg, request, now).value)))
    else if fault.Lost? then Enter(p, c, request, Done(Raised(StoreFailed)))
    else
      var (rows, result) := Reserve(p.rows, request.key, request.fingerprint, now);
      match result
      case Err(_) => Enter(p, c, request, Done(Raised(Conflict)))
      case Ok(reservation) =>
        var phase :=
          if fault.AckLost? then Done(Raised(StoreFailed))
          else if reservation.created then Ready(1)
          else Done(Replay(reservation.attempt));
        var elected := if reservation.created then p.elected[request.key := c] else p.elected;
        Enter(p.(rows := rows, elected := elected), c, request, phase)
  }

  function SendOne(p: Protocol, c: CallerId): Protocol
    requires c in p.callers && p.callers[c].phase.Ready?
  {
    var key := p.callers[c].request.key;
    p.With(c, InFlight(p.callers[c].phase.n)).(sent := p.sent[key := p.Sent(key) + [None]])
  }

  function Answered(sent: seq<Option<Outcome>>, outcome: Outcome): seq<Option<Outcome>> {
    if sent == [] then [] else sent[|sent| - 1 := Some(outcome)]
  }

  function PhaseAfter(verdict: Verdict, n: nat): Phase {
    match verdict
    case Retry => Ready(n + 1)
    case Settle(state) => Writing(state)
    case Abandon => Done(Raised(Propagated))
  }

  function ReceiveOne(cfg: Config, p: Protocol, c: CallerId, outcome: Outcome, at: int): Protocol
    requires c in p.callers && p.callers[c].phase.InFlight?
  {
    var request, n := p.callers[c].request, p.callers[c].phase.n;
    p.With(c, PhaseAfter(Judge(cfg, outcome, n, request.session, at), n)).(
      sent := p.sent[request.key := Answered(p.Sent(request.key), outcome)])
  }

  function StoreOne(p: Protocol, c: CallerId, at: int, fault: Fault): Protocol
    requires c in p.callers && p.callers[c].phase.Writing?
  {
    var request, state := p.callers[c].request, p.callers[c].phase.state;
    var (rows, saved) := Save(p.rows, request.key, request.fingerprint, state, at, fault);
    p.With(c, Done(AnswerTo(state, saved))).(
      rows := rows,
      unheard := if !saved && rows != p.rows && !state.Uncertain? then p.unheard + {request.key} else p.unheard)
  }

  /** A caller is lost or cancelled; a settling write that it has begun may be committed all the same. */
  function KillOne(p: Protocol, c: CallerId, at: int, fault: Fault): Protocol
    requires c in p.callers && p.callers[c].phase.Active()
  {
    var request, phase := p.callers[c].request, p.callers[c].phase;
    var rows :=
      if phase.Writing? then Save(p.rows, request.key, request.fingerprint, phase.state, at, fault).0 else p.rows;
    p.With(c, Dead).(rows := rows)
  }

  /** A status callback writes a newer state of a call that was created. */
  function ObserveOne(p: Protocol, key: Key, call: Call, at: int): Protocol {
    if key in p.rows && p.rows[key].state.Succeeded? && call.Valid() then
      p.(rows := Finish(p.rows, key, p.rows[key].fingerprint, Succeeded(call), at).0)
    else p
  }

  function Next(cfg: Config, p: Protocol, event: Event): Protocol {
    match event
    case Start(c, request, now, fault) => if c in p.callers then p else Begin(cfg, p, c, request, now, fault)
    case Send(c) => if c in p.callers && p.callers[c].phase.Ready? then SendOne(p, c) else p
    case Receive(c, outcome, at) =>
      if c in p.callers && p.callers[c].phase.InFlight? then ReceiveOne(cfg, p, c, outcome, at) else p
    case Store(c, at, fault) => if c in p.callers && p.callers[c].phase.Writing? then StoreOne(p, c, at, fault) else p
    case Kill(c, at, fault) => if c in p.callers && p.callers[c].phase.Active() then KillOne(p, c, at, fault) else p
    case Observed(key, call, at) => ObserveOne(p, key, call, at)
  }

  function Play(cfg: Config, p: Protocol, events: seq<Event>): Protocol {
    if events == [] then p else Next(cfg, Play(cfg, p, events[..|events| - 1]), events[|events| - 1])
  }

  const START := Protocol(map[], map[], map[], map[], {})

  // ---------- One caller that is not interrupted ----------

  /** Everything the outside world decides during one call of the gateway. */
  datatype World = World(now: int, reserveFault: Fault, outcome: nat -> Outcome, receivedAt: nat -> int, storedAt: int,
                         storeFault: Fault)

  /** The steps of the retry loop from request `n` on. */
  function LoopSteps(cfg: Config, c: CallerId, session: Identifier, world: World, n: nat): seq<Event>
    requires n <= cfg.maxAttempts
    decreases cfg.maxAttempts - n
  {
    [Send(c), Receive(c, world.outcome(n), world.receivedAt(n))]
    + match Judge(cfg, world.outcome(n), n, session, world.receivedAt(n))
      case Retry => LoopSteps(cfg, c, session, world, n + 1)
      case Settle(_) => [Store(c, world.storedAt, world.storeFault)]
      case Abandon => []
  }

  function CallSteps(cfg: Config, p: Protocol, c: CallerId, request: Request, world: World): seq<Event>
    requires cfg.Valid() && c !in p.callers
  {
    [Start(c, request, world.now, world.reserveFault)]
    + if Begin(cfg, p, c, request, world.now, world.reserveFault).callers[c].phase.Ready?
      then LoopSteps(cfg, c, request.session, world, 1) else []
  }

  lemma PlayOne(cfg: Config, p: Protocol, events: seq<Event>, event: Event)
    ensures Play(cfg, p, events + [event]) == Next(cfg, Play(cfg, p, events), event)
  {}

  lemma {:induction false} PlayConcat(cfg: Config, p: Protocol, a: seq<Event>, b: seq<Event>)
    ensures Play(cfg, p, a + b) == Play(cfg, Play(cfg, p, a), b)
  {
    if b == [] {
      assert a + b == a;
    } else {
      var last := |b| - 1;
      assert a + b == a + b[..last] + [b[last]];
      PlayOne(cfg, p, a + b[..last], b[last]);
      PlayConcat(cfg, p, a, b[..last]);
    }
  }

  class TwilioOutboundCallGateway {
    const cfg: Config
    var rows: Rows
    var slept: seq<real>
    ghost var protocol: Protocol

    ghost predicate Valid()
      reads this
    {
      cfg.Valid() && rows == protocol.rows
    }

    ghost predicate Dispatching(c: CallerId, request: Request, n: nat)
      reads this
    {
      && Valid() && 1 <= n <= cfg.maxAttempts
      && c in protocol.callers && protocol.callers[c] == Caller(request, Ready(n))
    }

    constructor (cfg: Config, rows: Rows, ghost protocol: Protocol)
      requires cfg.Valid() && rows == protocol.rows
      ensures Valid() && this.cfg == cfg && this.rows == rows && this.protocol == protocol && slept == []
    {
      this.cfg, this.rows, this.slept := cfg, rows, [];
      this.protocol := protocol;
    }

    /** One call of the gateway plays the protocol's steps for one new caller, and its answer is the caller's. */
    method CreateCall(ghost c: CallerId, request: Request, world: World) returns (answer: Answer)
      requires Valid() && c !in protocol.callers
      modifies this
      ensures Valid()
      ensures protocol == Play(cfg, old(protocol), CallSteps(cfg, old(protocol), c, request, world))
      ensures c in protocol.callers && protocol.callers[c] == Caller(request, Done(answer))
    {
      CallUnfold(cfg, protocol, c, request, world);
      var early := Open(c, request, world);
      if early.Some? {
        return early.value;
      }
      answer := Dispatch(c, request, world);
    }

    /** Checks the request and reserves its key; `None` means that this caller is to dispatch. */
    method Open(ghost c: CallerId, request: Request, world: World) returns (answer: Option<Answer>)
      requires Valid() && c !in protocol.callers
      modifies this
      ensures Valid() && protocol == Begin(cfg, old(protocol), c, request, world.now, world.reserveFault)
      ensures c in protocol.callers
      ensures protocol.callers[c] == Caller(request, if answer.Some? then Done(answer.value) else Ready(1))
    {
      protocol := Begin(cfg, protocol, c, request, world.now, world.reserveFault);
      var refused := ErrorOf(cfg, request, world.now);
      if refused.Some? {
        return Some(Raised(refused.value));
      }
      if world.reserveFault.Lost? {
        return Some(Raised(StoreFailed));
      }
      var (after, result) := Reserve(rows, request.key, request.fingerprint, world.now);
      rows := after;
      if result.Err? {
        return Some(Raised(Conflict));
      }
      if world.reserveFault.AckLost? {
        return Some(Raised(StoreFailed));
      }
      return if result.value.created then None else Some(Replay(result.value.attempt));
    }

    /** The bounded retry loop. Between two requests it sleeps for the configured time. */
    method Dispatch(ghost c: CallerId, request: Request, world: World) returns (answer: Answer)
      requires Dispatching(c, request, 1)
      modifies this
      ensures Valid()
      ensures protocol == Play(cfg, old(protocol), LoopSteps(cfg, c, request.session, world, 1))
      ensures c in protocol.callers && protocol.callers[c] == Caller(request, Done(answer))
      ensures |protocol.Sent(request.key)| > |old(protocol).Sent(request.key)|
      ensures var retries := |protocol.Sent(request.key)| - |old(protocol).Sent(request.key)| - 1;
        retries <= |cfg.backoff| && slept == old(slept) + cfg.backoff[..retries]
    {
      var attempt := 1;
      ghost var goal := Play(cfg, protocol, LoopSteps(cfg, c, request.session, world, 1));
      while true
        invariant Dispatching(c, request, attempt)
        invariant Play(cfg, protocol, LoopSteps(cfg, c, request.session, world, attempt)) == goal
        invariant |protocol.Sent(request.key)| == |old(protocol).Sent(request.key)| + attempt - 1
        invariant slept == old(slept) + cfg.backoff[..attempt - 1]
        decreases cfg.maxAttempts - attempt
      {
        var verdict := Exchange(c, request, world, attempt);
        match verdict {
          case Retry =>
            slept := slept + [cfg.backoff[attempt - 1]];
            attempt := attempt + 1;
          case Settle(state) =>
            answer := Record(c, request, state, world);
            return;
          case Abandon =>
            return Raised(Propagated);
        }
      }
    }

    /** One request to the provider and the reading of its outcome. */
    method Exchange(ghost c: CallerId, request: Request, world: World, n: nat) returns (verdict: Verdict)
      requires Dispatching(c, request, n)
      modifies this
      ensures Valid() && slept == old(slept)
      ensures |protocol.Sent(request.key)| == |old(protocol).Sent(request.key)| + 1
      ensures c in protocol.callers && protocol.callers[c] == Caller(request, PhaseAfter(verdict, n))
      ensures verdict.Retry? ==> n < cfg.maxAttempts
      ensures Play(cfg, old(protocol), LoopSteps(cfg, c, request.session, world, n)) ==
              match verdict
              case Retry => Play(cfg, protocol, LoopSteps(cfg, c, request.session, world, n + 1))
              case Settle(_) => StoreOne(protocol, c, world.storedAt, world.storeFault)
              case Abandon => protocol
    {
      verdict := Judge(cfg, world.outcome(n), n, request.session, world.receivedAt(n));
      ghost var before := protocol;
      protocol := ReceiveOne(cfg, SendOne(protocol, c), c, world.outcome(n), world.receivedAt(n));
      LoopUnfold(cfg, before, protocol, verdict, c, request, world, n);
    }

    /** Writes the settled state; a caller whose write failed in any way is told of uncertainty. */
    method Record(ghost c: CallerId, request: Request, state: State, world: World) returns (answer: Answer)
      requires Valid() && c in protocol.callers && protocol.callers[c] == Caller(request, Writing(state))
      modifies this
      ensures Valid() && slept == old(slept) && protocol.sent == old(protocol).sent
      ensures protocol == StoreOne(old(protocol), c, world.storedAt, world.storeFault)
      ensures c in protocol.callers && protocol.callers[c] == Caller(request, Done(answer))
    {
      protocol := StoreOne(protocol, c, world.storedAt, world.storeFault);
      var (after, saved) := Save(rows, request.key, request.fingerprint, state, world.storedAt, world.storeFault);
      rows := after;
      answer := AnswerTo(state, saved);
    }
  }

  /** One round: a request and its outcome, then what the outcome calls for. */
  lemma LoopUnfold(cfg: Config, p: Protocol, q: Protocol, verdict: Verdict, c: CallerId, request: Request,
                   world: World, n: nat)
    requires n <= cfg.maxAttempts && c in p.callers && p.callers[c] == Caller(request, Ready(n))
    requires q == ReceiveOne(cfg, SendOne(p, c), c, world.outcome(n), world.receivedAt(n))
    requires verdict == Judge(cfg, world.outcome(n), n, request.session, world.receivedAt(n))
    ensures q.rows == p.rows && |q.Sent(request.key)| == |p.Sent(request.key)| + 1 && c in q.callers
    ensures q.callers[c] == Caller(request, PhaseAfter(verdict, n))
    ensures verdict.Retry? ==> n < cfg.maxAttempts
    ensures Play(cfg, p, LoopSteps(cfg, c, request.session, world, n)) ==
            match verdict
            case Retry => Play(cfg, q, LoopSteps(cfg, c, request.session, world, n + 1))
            case Settle(_) => StoreOne(q, c, world.storedAt, world.storeFault)
            case Abandon => q
  {
    var round := [Send(c), Receive(c, world.outcome(n), world.receivedAt(n))];
    PlayRound(cfg, p, q, c, request, world.outcome(n), world.receivedAt(n), n);
    match verdict
    case Retry => PlayConcat(cfg, p, round, LoopSteps(cfg, c, request.session, world, n + 1));
    case Settle(_) =>
      PlayConcat(cfg, p, round, [Store(c, world.storedAt, world.storeFault)]);
      PlaySingle(cfg, q, Store(c, world.storedAt, world.storeFault));
    case Abandon => assert round + [] == round;
  }

  lemma PlaySingle(cfg: Config, p: Protocol, event: Event)
    ensures Play(cfg, p, [event]) == Next(cfg, p, event)
  {}

  lemma PlayRound(cfg: Config, p: Protocol, q: Protocol, c: CallerId, request: Request, outcome: Outcome, at: int,
                  n: nat)
    requires c in p.callers && p.callers[c] == Caller(request, Ready(n))
    requires q == ReceiveOne(cfg, SendOne(p, c), c, outcome, at)
    ensures Play(cfg, p, [Send(c), Receive(c, outcome, at)]) == q
    ensures q.rows == p.rows && |q.Sent(request.key)| == |p.Sent(request.key)| + 1
    ensures c in q.callers
    ensures q.callers[c] == Caller(request, PhaseAfter(Judge(cfg, outcome, n, request.session, at), n))
  {
    PlaySingle(cfg, p, Send(c));
    PlayOne(cfg, p, [Send(c)], Receive(c, outcome, at));
    assert [Send(c)] + [Receive(c, outcome, at)] == [Send(c), Receive(c, outcome, at)];
  }

  lemma CallUnfold(cfg: Config, p: Protocol, c: CallerId, request: Request, world: World)
    requires cfg.Valid() && c !in p.callers
    ensures var q := Begin(cfg, p, c, request, world.now, world.reserveFault);
      && c in q.callers
      && Play(cfg, p, CallSteps(cfg, p, c, request, world)) ==
         if q.callers[c].phase.Ready? then Play(cfg, q, LoopSteps(cfg, c, request.session, world, 1)) else q
  {
    var start := Start(c, request, world.now, world.reserveFault);
    PlaySingle(cfg, p, start);
    var q := Begin(cfg, p, c, request, world.now, world.reserveFault);
    if q.callers[c].phase.Ready? {
      PlayConcat(cfg, p, [start], LoopSteps(cfg, c, request.session, world, 1));
    } else {
      assert [start] + [] == [start];
    }
  }
}
