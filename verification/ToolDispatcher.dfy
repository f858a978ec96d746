/**
 The browser's dispatcher of realtime tool calls: at most one execution per provider call id, and a barrier after a
 disconnect that only a reconciliation lifts. One function per synchronous stretch of code; promises settle in between,
 in any order.
 */
module ToolDispatcher {
  import opened Wrappers

  type CallId = nat
  type Identifier = nat
  type Output = nat

  const MAX_TRACKED_CALLS := 128

  datatype Session = Session(call: Identifier, carrier: Identifier)
  datatype SelectedQuote = SelectedQuote(call: Identifier, carrier: Identifier, quote: Identifier)
  datatype AttachedEvidence = AttachedEvidence(call: Identifier, evidence: Identifier)

  datatype Context = Context(operationVersion: nat, mandateVersion: nat, sessions: seq<Session>,
                             selectedQuote: Option<SelectedQuote>, attachedEvidence: Option<AttachedEvidence>)

  datatype Arguments =
    | RecordQuote(call: Identifier, carrier: Identifier)
    | CreateCommitment(call: Identifier, quote: Identifier, evidence: Identifier)

  datatype Request = Request(id: CallId, operationVersion: nat, mandateVersion: nat, arguments: Arguments)

  predicate MatchesContext(request: Request, context: Context) {
    && request.operationVersion == context.operationVersion && request.mandateVersion == context.mandateVersion
    && match request.arguments
       case RecordQuote(call, carrier) => exists s :: s in context.sessions && s == Session(call, carrier)
       case CreateCommitment(call, quote, evidence) =>
         && context.selectedQuote.Some? && context.attachedEvidence.Some?
         && context.selectedQuote.value.call == call && context.selectedQuote.value.quote == quote
         && context.attachedEvidence.value == AttachedEvidence(call, evidence)
  }

  /** The promise of a tracked call; `recorded` once its result was noted beside it, a little after it was fulfilled. A
      call that fails is fulfilled with an error; it is rejected only if the refresh after a failure throws at once. */
  datatype Pending = Running | Fulfilled(output: Output, recorded: bool) | Rejected

  /** The promise of a reconciliation: waiting for the calls it found, refreshing, or about to run its last handler. */
  datatype Reconciliation = Idle | AwaitingCalls(found: set<CallId>) | Refreshing | Finishing

  datatype Dispatcher = Dispatcher(calls: map<CallId, Pending>, disconnected: bool, reconciliation: Reconciliation,
                                   executed: seq<CallId>)

  const NEW := Dispatcher(map[], false, Idle, [])

  datatype Reply = Unavailable | PromiseOf(id: CallId)

  function AfterDispatch(d: Dispatcher, request: Request, context: Context): (Dispatcher, Reply) {
    if request.id in d.calls then (d, PromiseOf(request.id))
    else if d.disconnected || !d.reconciliation.Idle? then (d, Unavailable)
    else if |d.calls| >= MAX_TRACKED_CALLS then (d, Unavailable)
    else if !MatchesContext(request, context) then (d, Unavailable)
    else
      (d.(calls := d.calls[request.id := Running], executed := d.executed + [request.id]), PromiseOf(request.id))
  }

  predicate Unrecorded(pending: Pending) {
    !(pending.Fulfilled? && pending.recorded)
  }

  function AfterDisconnect(d: Dispatcher): Dispatcher {
    d.(disconnected := d.disconnected || exists id :: id in d.calls && Unrecorded(d.calls[id]))
  }

  function AfterReconcile(d: Dispatcher): Dispatcher {
    if d.disconnected && d.reconciliation.Idle? then d.(reconciliation := AwaitingCalls(d.calls.Keys)) else d
  }

  datatype Event =
    | Dispatched(request: Request, context: Context)
    | CallFulfilled(id: CallId, output: Output)
    | CallRejected(id: CallId)
    | ResultRecorded(id: CallId)
    | Disconnected
    | ReconcileAsked
    | CallsAwaited
    | ContextRefreshed(ok: bool)
    | ReconciliationFinished

  /** All the calls that the reconciliation found are fulfilled. */
  predicate AllFulfilled(d: Dispatcher, found: set<CallId>) {
    forall id :: id in found ==> id in d.calls && d.calls[id].Fulfilled?
  }

  predicate SomeRejected(d: Dispatcher, found: set<CallId>) {
    exists id :: id in found && id in d.calls && d.calls[id].Rejected?
  }

  function Next(d: Dispatcher, event: Event): Dispatcher {
    match event
    case Dispatched(request, context) => AfterDispatch(d, request, context).0
    case CallFulfilled(id, output) =>
      if id in d.calls && d.calls[id].Running? then d.(calls := d.calls[id := Fulfilled(output, false)]) else d
    case CallRejected(id) =>
      if id in d.calls && d.calls[id].Running? then d.(calls := d.calls[id := Rejected]) else d
    case ResultRecorded(id) =>
      if id in d.calls && d.calls[id].Fulfilled? then d.(calls := d.calls[id := d.calls[id].(recorded := true)]) else d
    case Disconnected => AfterDisconnect(d)
    case ReconcileAsked => AfterReconcile(d)
    case CallsAwaited =>
      if !d.reconciliation.AwaitingCalls? then d
      else if SomeRejected(d, d.reconciliation.found) then d.(reconciliation := Finishing)
      else if AllFulfilled(d, d.reconciliation.found) then d.(reconciliation := Refreshing)
      else d
    case ContextRefreshed(ok) =>
      if d.reconciliation.Refreshing? then d.(reconciliation := Finishing, disconnected := d.disconnected && !ok) else d
    case ReconciliationFinished => if d.reconciliation.Finishing? then d.(reconciliation := Idle) else d
  }

  function Play(d: Dispatcher, events: seq<Event>): Dispatcher {
    if events == [] then d else Next(Play(d, events[..|events| - 1]), events[|events| - 1])
  }

  // ---------- The object ----------

  class RealtimeToolDispatcher {
    var calls: map<CallId, Pending>
    var disconnectedWhilePending: bool
    var reconciliation: Reconciliation
    ghost var executed: seq<CallId>

    ghost function View(): Dispatcher
      reads this
    {
      Dispatcher(calls, disconnectedWhilePending, reconciliation, executed)
    }

    constructor ()
      ensures View() == NEW
    {
      calls, disconnectedWhilePending, reconciliation, executed := map[], false, Idle, [];
    }

    method Dispatch(request: Request, context: Context) returns (reply: Reply)
      modifies this
      ensures (View(), reply) == AfterDispatch(old(View()), request, context)
    {
      if request.id in calls {
        return PromiseOf(request.id);
      }
      if disconnectedWhilePending || reconciliation != Idle {
        return Unavailable;
      }
      if |calls| >= MAX_TRACKED_CALLS || !MatchesContext(request, context) {
        return Unavailable;
      }
      executed := executed + [request.id];
      calls := calls[request.id := Running];
      return PromiseOf(request.id);
    }

    /** Looks for a call without a recorded result. */
    method MarkDisconnected()
      modifies this
      ensures View() == AfterDisconnect(old(View()))
    {
      var todo := calls.Keys;
      var outstanding := false;
      while todo != {}
        invariant todo <= calls.Keys
        invariant outstanding <==> exists id :: id in calls && id !in todo && Unrecorded(calls[id])
        decreases todo
      {
        var id :| id in todo;
        if Unrecorded(calls[id]) {
          outstanding := true;
        }
        todo := todo - {id};
      }
      disconnectedWhilePending := disconnectedWhilePending || outstanding;
    }

    method Reconcile()
      modifies this
      ensures View() == AfterReconcile(old(View()))
    {
      if disconnectedWhilePending && reconciliation == Idle {
        reconciliation := AwaitingCalls(calls.Keys);
      }
    }
  }

  // ---------- The invariant ----------

  ghost predicate SameMembers(executed: seq<CallId>, calls: map<CallId, Pending>) {
    forall id :: id in executed <==> id in calls
  }

  ghost predicate Inv(d: Dispatcher) {
    && SameMembers(d.executed, d.calls)
    && (forall i, j :: 0 <= i < j < |d.executed| ==> d.executed[i] != d.executed[j])
    && |d.executed| == |d.calls| <= MAX_TRACKED_CALLS
    && (d.reconciliation.AwaitingCalls? ==> d.disconnected && d.reconciliation.found == d.calls.Keys)
    && (d.reconciliation.Refreshing? ==> d.disconnected && AllFulfilled(d, d.calls.Keys))
  }

  lemma DispatchKeeps(d: Dispatcher, request: Request, context: Context)
    requires Inv(d)
    ensures Inv(AfterDispatch(d, request, context).0)
  {}

  lemma SettleKeeps(d: Dispatcher, id: CallId, pending: Pending)
    requires Inv(d) && id in d.calls && (d.calls[id].Running? || (d.calls[id].Fulfilled? && pending.Fulfilled?))
    ensures Inv(d.(calls := d.calls[id := pending]))
  {}

  lemma NextKeeps(d: Dispatcher, event: Event)
    requires Inv(d)
    ensures Inv(Next(d, event))
  {
    match event
    case Dispatched(request, context) => DispatchKeeps(d, request, context);
    case CallFulfilled(id, output) =>
      if id in d.calls && d.calls[id].Running? { SettleKeeps(d, id, Fulfilled(output, false)); }
    case CallRejected(id) => if id in d.calls && d.calls[id].Running? { SettleKeeps(d, id, Rejected); }
    case ResultRecorded(id) =>
      if id in d.calls && d.calls[id].Fulfilled? { SettleKeeps(d, id, d.calls[id].(recorded := true)); }
    case _ =>
  }

  lemma {:induction false} PlayKeeps(d: Dispatcher, events: seq<Event>)
    requires Inv(d)
    ensures Inv(Play(d, events))
  {
    if events != [] {
      PlayKeeps(d, events[..|events| - 1]);
      NextKeeps(Play(d, events[..|events| - 1]), events[|events| - 1]);
    }
  }

  // ---------- Results ----------

  /** Over every run each provider call id is executed at most once and at most 128 are executed in all. */
  lemma ExecutedAtMostOnce(events: seq<Event>, d: Dispatcher, i: nat, j: nat)
    requires d == Play(NEW, events) && i < |d.executed| && j < |d.executed| && d.executed[i] == d.executed[j]
    ensures i == j && |d.executed| <= MAX_TRACKED_CALLS
  {
    PlayKeeps(NEW, events);
  }

  /** The request was made for what the context holds now: for its operation and mandate versions, and for one of its
      sessions or for the quote and the evidence that are selected. */
  ghost predicate MadeFor(request: Request, context: Context) {
    && request.operationVersion == context.operationVersion
    && request.mandateVersion == context.mandateVersion
    && (forall call, carrier :: request.arguments == RecordQuote(call, carrier) ==>
          Session(call, carrier) in context.sessions)
    && (forall call, quote, evidence :: request.arguments == CreateCommitment(call, quote, evidence) ==>
          && (exists carrier :: context.selectedQuote == Some(SelectedQuote(call, carrier, quote)))
          && context.attachedEvidence == Some(AttachedEvidence(call, evidence)))
  }

  /** The step dispatches a request that is executed: its id is new, neither barrier nor reconciliation is up, fewer
      than 128 ids are tracked, and it was made for the context. */
  ghost predicate Executes(d: Dispatcher, event: Event, id: CallId) {
    && event.Dispatched? && event.request.id == id && id !in d.calls
    && !d.disconnected && d.reconciliation == Idle && |d.calls| < 128
    && MadeFor(event.request, event.context)
  }

  lemma MatchesExactly(request: Request, context: Context)
    ensures MatchesContext(request, context) <==> MadeFor(request, context)
  {
    match request.arguments
    case RecordQuote(call, carrier) =>
    case CreateCommitment(call, quote, evidence) =>
      if context.selectedQuote.Some? {
        var selected := context.selectedQuote.value;
        assert selected == SelectedQuote(selected.call, selected.carrier, selected.quote);
      }
  }

  /** A step executes an id exactly if it is such a dispatch, and executes nothing else. */
  lemma ExecutesExactly(d: Dispatcher, event: Event, id: CallId, next: Dispatcher)
    requires next == Next(d, event)
    ensures Executes(d, event, id) ==>
      next.executed == d.executed + [id] && id in next.calls && next.calls[id] == Running
    ensures next.executed == d.executed || exists x :: Executes(d, event, x)
  {
    if event.Dispatched? {
      MatchesExactly(event.request, event.context);
      assert Executes(d, event, event.request.id) || next.executed == d.executed;
    }
  }

  lemma ExecutedStep(d: Dispatcher, event: Event, id: CallId, next: Dispatcher)
    requires next == Next(d, event)
    ensures id in next.executed <==> id in d.executed || Executes(d, event, id)
  {
    ExecutesExactly(d, event, id, next);
    if next.executed != d.executed {
      var x :| Executes(d, event, x);
      ExecutesExactly(d, event, x, next);
    }
  }

  ghost predicate ExecutesAt(events: seq<Event>, i: int, id: CallId) {
    0 <= i < |events| && Executes(Play(NEW, events[..i]), events[i], id)
  }

  lemma ExecutesBefore(events: seq<Event>, earlier: seq<Event>, i: int, id: CallId)
    requires events != [] && earlier == events[..|events| - 1] && i < |earlier|
    ensures ExecutesAt(events, i, id) <==> ExecutesAt(earlier, i, id)
  {
    if 0 <= i {
      assert events[..i] == earlier[..i];
    }
  }

  lemma {:induction false} ExecutedHasCause(events: seq<Event>, d: Dispatcher, id: CallId) returns (i: int)
    requires d == Play(NEW, events) && id in d.executed
    ensures ExecutesAt(events, i, id)
  {
    var earlier, last := events[..|events| - 1], |events| - 1;
    var before := Play(NEW, earlier);
    ExecutedStep(before, events[last], id, d);
    i := last;
    if id in before.executed {
      i := ExecutedHasCause(earlier, before, id);
      ExecutesBefore(events, earlier, i, id);
    }
  }

  lemma {:induction false} CauseIsExecuted(events: seq<Event>, d: Dispatcher, id: CallId, i: int)
    requires d == Play(NEW, events) && ExecutesAt(events, i, id)
    ensures id in d.executed
  {
    var earlier, last := events[..|events| - 1], |events| - 1;
    var before := Play(NEW, earlier);
    if i < last {
      ExecutesBefore(events, earlier, i, id);
      CauseIsExecuted(earlier, before, id, i);
    }
    ExecutedStep(before, events[last], id, d);
  }

  /** Over every run, exactly the ids of such dispatches are executed. */
  lemma ExecutedExactly(events: seq<Event>, d: Dispatcher, id: CallId)
    requires d == Play(NEW, events)
    ensures id in d.executed <==> exists i :: ExecutesAt(events, i, id)
  {
    if id in d.executed {
      var i := ExecutedHasCause(events, d, id);
    } else if i :| ExecutesAt(events, i, id) {
      CauseIsExecuted(events, d, id, i);
    }
  }

  /** A repetition of a tracked id gets the promise of its one execution and changes nothing, barrier or not. */
  lemma DuplicatesShareThePromise(events: seq<Event>, d: Dispatcher, request: Request, context: Context)
    requires d == Play(NEW, events)
    ensures request.id in d.executed <==> AfterDispatch(d, request, context) == (d, PromiseOf(request.id))
  {
    PlayKeeps(NEW, events);
    if request.id !in d.calls && AfterDispatch(d, request, context).1 == PromiseOf(request.id) {
      assert |AfterDispatch(d, request, context).0.executed| == |d.executed| + 1;
    }
  }

  /** What a promise was fulfilled with is what it stays fulfilled with, so all holders of it see one result. */
  lemma {:induction false} ResultIsFinal(d: Dispatcher, events: seq<Event>, id: CallId)
    requires id in d.calls && d.calls[id].Fulfilled?
    ensures var later := Play(d, events);
      id in later.calls && later.calls[id].Fulfilled? && later.calls[id].output == d.calls[id].output
  {
    if events != [] {
      ResultIsFinal(d, events[..|events| - 1], id);
    }
  }

  /** The event that lifts the barrier: a refresh succeeds. */
  predicate Lifts(d: Dispatcher, event: Event) {
    d.reconciliation.Refreshing? && event == ContextRefreshed(true)
  }

  ghost predicate NeverLifted(d: Dispatcher, events: seq<Event>) {
    events == []
    || (NeverLifted(d, events[..|events| - 1]) && !Lifts(Play(d, events[..|events| - 1]), events[|events| - 1]))
  }

  /** The barrier: after a disconnect was marked, nothing is executed and the table of calls keeps its ids until a
      refresh succeeds that was started when every tracked call was fulfilled. */
  lemma {:induction false} BarrierHolds(d: Dispatcher, events: seq<Event>, later: Dispatcher)
    requires Inv(d) && d.disconnected && NeverLifted(d, events) && later == Play(d, events)
    ensures Inv(later) && later.disconnected && later.executed == d.executed && later.calls.Keys == d.calls.Keys
  {
    if events != [] {
      var before := Play(d, events[..|events| - 1]);
      BarrierHolds(d, events[..|events| - 1], before);
      BarrierStep(before, events[|events| - 1], later);
    }
  }

  lemma BarrierStep(d: Dispatcher, event: Event, next: Dispatcher)
    requires Inv(d) && d.disconnected && !Lifts(d, event) && next == Next(d, event)
    ensures Inv(next) && next.disconnected && next.executed == d.executed && next.calls.Keys == d.calls.Keys
  {
    NextKeeps(d, event);
  }

  lemma LiftedOnlyWhenAllFulfilled(events: seq<Event>, d: Dispatcher, id: CallId)
    requires d == Play(NEW, events) && Lifts(d, ContextRefreshed(true)) && id in d.executed
    ensures id in d.calls && d.calls[id].Fulfilled? && d.disconnected
  {
    PlayKeeps(NEW, events);
  }

  /** A disconnect while some call has no recorded result does raise it: from then on, until it is lifted, a new id is
      refused whatever its context. */
  lemma DisconnectRaisesTheBarrier(events: seq<Event>, d: Dispatcher, id: CallId, more: seq<Event>, later: Dispatcher,
                                   request: Request, context: Context)
    requires d == Play(NEW, events) && id in d.calls && Unrecorded(d.calls[id])
    requires NeverLifted(AfterDisconnect(d), more)
    requires later == Play(AfterDisconnect(d), more) && request.id !in d.calls
    ensures AfterDispatch(later, request, context) == (later, Unavailable)
  {
    PlayKeeps(NEW, events);
    NextKeeps(d, Disconnected);
    BarrierHolds(AfterDisconnect(d), more, later);
  }

  predicate Refused(d: Dispatcher, id: CallId) {
    id in d.calls && d.calls[id].Rejected?
  }

  lemma RefusedStep(d: Dispatcher, event: Event, id: CallId, next: Dispatcher)
    requires Inv(d) && d.disconnected && Refused(d, id) && next == Next(d, event)
    ensures !Lifts(d, event) && Refused(next, id)
  {}

  /** After a tracked call was rejected the barrier, once it is up, is never lifted and nothing is executed again. */
  lemma {:induction false} RejectionKeepsTheBarrier(d: Dispatcher, id: CallId, events: seq<Event>, later: Dispatcher)
    requires Inv(d) && d.disconnected && Refused(d, id) && later == Play(d, events)
    ensures NeverLifted(d, events) && Refused(later, id)
    ensures Inv(later) && later.disconnected && later.executed == d.executed
  {
    if events != [] {
      var before := Play(d, events[..|events| - 1]);
      RejectionKeepsTheBarrier(d, id, events[..|events| - 1], before);
      RefusedStep(before, events[|events| - 1], id, later);
      BarrierHolds(d, events, later);
    }
  }

  // ---------- What each promise and the barrier go through ----------

  /** How the promise of a tracked id goes on: it is settled once, as the event says, and its result is recorded when it
      is fulfilled. */
  lemma PromiseStep(d: Dispatcher, event: Event, id: CallId, next: Dispatcher)
    requires id in d.calls && next == Next(d, event)
    ensures id in next.calls
    ensures next.calls[id].Running? <==>
            d.calls[id].Running? && event != CallRejected(id) && (forall output :: event != CallFulfilled(id, output))
    ensures next.calls[id].Rejected? <==> d.calls[id].Rejected? || (d.calls[id].Running? && event == CallRejected(id))
    ensures forall output :: next.calls[id].Fulfilled? && next.calls[id].output == output <==>
              (d.calls[id].Fulfilled? && d.calls[id].output == output)
              || (d.calls[id].Running? && event == CallFulfilled(id, output))
    ensures next.calls[id].Fulfilled? && next.calls[id].recorded <==>
            d.calls[id].Fulfilled? && (d.calls[id].recorded || event == ResultRecorded(id))
  {}

  /** Some tracked call has no recorded result. */
  predicate Outstanding(d: Dispatcher) {
    exists id :: id in d.calls && (d.calls[id].Running? || d.calls[id].Rejected? || !d.calls[id].recorded)
  }

  /** What raises the barrier and what lifts it. */
  lemma BarrierExactly(d: Dispatcher, event: Event, next: Dispatcher)
    requires next == Next(d, event)
    ensures next.disconnected <==>
            if d.disconnected then !(d.reconciliation == Refreshing && event == ContextRefreshed(true))
            else event == Disconnected && Outstanding(d)
    ensures Lifts(d, event) <==> d.reconciliation == Refreshing && event == ContextRefreshed(true)
  {}

  /** A reconciliation starts only when one is asked for behind the barrier, with all the calls tracked then; one at a
      time. It refreshes when all of them are fulfilled, gives up when one is rejected, and ends after its refresh. */
  lemma ReconciliationExactly(events: seq<Event>, d: Dispatcher, event: Event, next: Dispatcher)
    requires d == Play(NEW, events) && next == Next(d, event)
    ensures next.reconciliation ==
            match d.reconciliation
            case Idle => if event == ReconcileAsked && d.disconnected then AwaitingCalls(d.calls.Keys) else Idle
            case AwaitingCalls(found) =>
              if event != CallsAwaited then AwaitingCalls(found)
              else if exists id :: id in d.calls && d.calls[id].Rejected? then Finishing
              else if forall id :: id in d.calls ==> d.calls[id].Fulfilled? then Refreshing
              else AwaitingCalls(found)
            case Refreshing => if event == ContextRefreshed(true) || event == ContextRefreshed(false) then Finishing
                               else Refreshing
            case Finishing => if event == ReconciliationFinished then Idle else Finishing
  {
    PlayKeeps(NEW, events);
  }

  // ---------- The barrier can be lifted in every other state ----------

  lemma PlayMore(d: Dispatcher, events: seq<Event>, event: Event)
    ensures Play(d, events + [event]) == Next(Play(d, events), event)
    ensures NeverLifted(d, events + [event]) <==> NeverLifted(d, events) && !Lifts(Play(d, events), event)
  {}

  ghost predicate NoneRefused(d: Dispatcher) {
    forall id :: !Refused(d, id)
  }

  ghost predicate RunningIn(d: Dispatcher, todo: set<CallId>) {
    todo <= d.calls.Keys && forall id :: id in d.calls && d.calls[id].Running? ==> id in todo
  }

  /** Only the promises differ. */
  ghost predicate SameCalls(d: Dispatcher, next: Dispatcher) {
    next.calls.Keys == d.calls.Keys && next.disconnected == d.disconnected && next.reconciliation == d.reconciliation
  }

  lemma FulfilOne(d: Dispatcher, todo: set<CallId>, id: CallId, next: Dispatcher)
    requires Inv(d) && NoneRefused(d) && RunningIn(d, todo) && id in todo && next == Next(d, CallFulfilled(id, 0))
    ensures Inv(next) && SameCalls(d, next) && RunningIn(next, todo - {id})
    ensures NoneRefused(next)
  {
    NextKeeps(d, CallFulfilled(id, 0));
    forall x
      ensures !Refused(next, x)
    {
      assert !Refused(d, x);
    }
  }

  lemma AllDone(d: Dispatcher)
    requires NoneRefused(d) && RunningIn(d, {})
    ensures AllFulfilled(d, d.calls.Keys)
  {
    forall id | id in d.calls
      ensures d.calls[id].Fulfilled?
    {
      assert !Refused(d, id);
    }
  }

  /** Fulfils the calls that are still running. */
  lemma {:induction false} FulfilAll(d: Dispatcher, todo: set<CallId>) returns (events: seq<Event>)
    requires Inv(d) && NoneRefused(d) && RunningIn(d, todo)
    ensures Inv(Play(d, events)) && SameCalls(d, Play(d, events))
    ensures AllFulfilled(Play(d, events), Play(d, events).calls.Keys)
    decreases todo
  {
    if todo == {} {
      events := [];
      AllDone(d);
    } else {
      var id :| id in todo;
      var step := CallFulfilled(id, 0);
      FulfilOne(d, todo, id, Next(d, step));
      var rest := FulfilAll(Next(d, step), todo - {id});
      events := [step] + rest;
      PlayAfter(d, step, rest);
    }
  }

  lemma {:induction false} PlayAfter(d: Dispatcher, event: Event, events: seq<Event>)
    ensures Play(d, [event] + events) == Play(Next(d, event), events)
  {
    var all := [event] + events;
    if events == [] {
      assert all[..0] == [];
    } else {
      assert all[..|all| - 1] == [event] + events[..|events| - 1];
      PlayAfter(d, event, events[..|events| - 1]);
    }
  }

  ghost predicate Ready(d: Dispatcher) {
    && d.disconnected && AllFulfilled(d, d.calls.Keys)
    && (d.reconciliation.AwaitingCalls? ==> d.reconciliation.found == d.calls.Keys)
  }

  lemma Restart(d: Dispatcher)
    requires Ready(d) && d.reconciliation.Finishing?
    ensures Next(d, ReconciliationFinished).reconciliation.Idle? && Ready(Next(d, ReconciliationFinished))
  {}

  lemma Ask(d: Dispatcher)
    requires Ready(d) && d.reconciliation.Idle?
    ensures Next(d, ReconcileAsked).reconciliation.AwaitingCalls? && Ready(Next(d, ReconcileAsked))
  {}

  lemma Await(d: Dispatcher)
    requires Ready(d) && d.reconciliation.AwaitingCalls?
    ensures Next(d, CallsAwaited).reconciliation.Refreshing?
  {}

  /** From all calls fulfilled, a reconciliation runs to its refresh. */
  lemma ReachRefresh(d: Dispatcher, events: seq<Event>, s: Dispatcher) returns (more: seq<Event>)
    requires s == Play(d, events) && Ready(s)
    ensures Play(d, more).reconciliation.Refreshing?
    decreases if s.reconciliation.Finishing? then 3 else if s.reconciliation.Idle? then 2 else 1
  {
    match s.reconciliation
    case Finishing =>
      Restart(s);
      PlayMore(d, events, ReconciliationFinished);
      more := ReachRefresh(d, events + [ReconciliationFinished], Next(s, ReconciliationFinished));
    case Idle =>
      Ask(s);
      PlayMore(d, events, ReconcileAsked);
      more := ReachRefresh(d, events + [ReconcileAsked], Next(s, ReconcileAsked));
    case AwaitingCalls(_) =>
      Await(s);
      PlayMore(d, events, CallsAwaited);
      more := events + [CallsAwaited];
    case Refreshing => more := events;
  }

  /** The barrier can still be lifted exactly while no tracked call was rejected. */
  lemma LiftableExactly(events: seq<Event>, d: Dispatcher)
    requires d == Play(NEW, events) && d.disconnected
    ensures (exists more :: !NeverLifted(d, more)) <==> NoneRefused(d)
  {
    PlayKeeps(NEW, events);
    if NoneRefused(d) {
      var fulfilled := FulfilAll(d, d.calls.Keys);
      var more := ReachRefresh(d, fulfilled, Play(d, fulfilled));
      PlayMore(d, more, ContextRefreshed(true));
      assert !NeverLifted(d, more + [ContextRefreshed(true)]);
    } else {
      var id :| Refused(d, id);
      forall more
        ensures NeverLifted(d, more)
      {
        RejectionKeepsTheBarrier(d, id, more, Play(d, more));
      }
    }
  }
}
