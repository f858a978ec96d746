/** Which callbacks a live call depends on: exactly those that arrive after its registration and are stored. */
module LiveCallbacks {
  import opened Wrappers
  import opened OutboundCalls
  import opened LiveRuntime
  import opened LiveRuntimeRuns
  import opened LiveCapacity

  /** The callback that an entry is being updated with, and those that were stored before it. */
  datatype Heard = Heard(current: Option<StatusEvent>, stored: seq<StatusEvent>)

  /** The event as the entry `r` of the call `p` takes it. */
  function HearOne<R>(heard: Heard, s: Runtime<R>, event: Event<R>, p: Identifier, r: R): Heard {
    if !Enabled(s, event) then heard
    else
      match event
      case StatusBegun(e) =>
        if e.provider == p && p in s.byProvider && r in s.entries && ApplyStatusEvent(s.entries[r].call, e).Ok? then
          heard.(current := Some(e))
        else heard
      case StatusEnded(q, stored) =>
        if q != r then heard
        else Heard(None, heard.stored + (if stored && heard.current.Some? then [heard.current.value] else []))
      case _ => heard
  }

  /** What the entry heard during `later`, after `earlier`. */
  function Listen<R>(earlier: seq<Event<R>>, later: seq<Event<R>>, p: Identifier, r: R): Heard {
    if later == [] then Heard(None, [])
    else
      var before := later[..|later| - 1];
      HearOne(Listen(earlier, before, p, r), Play(earlier + before), later[|later| - 1], p, r)
  }

  /** The live call is the registered one after the callbacks that were stored, and the update in flight is the next. */
  ghost predicate Hears<R>(s: Runtime<R>, p: Identifier, r: R, call: Call, heard: Heard) {
    && p in s.byProvider && s.byProvider[p] == r && r in s.entries
    && s.entries[r].call == DeliverAll(call, heard.stored)
    && (r in s.updating <==> heard.current.Some?)
    && (r in s.updating ==> s.updating[r] == Deliver(s.entries[r].call, heard.current.value))
  }

  lemma LockHears<R>(s: Runtime<R>, event: StatusEvent, s': Runtime<R>, p: Identifier, r: R, call: Call, heard: Heard)
    requires Closed(s) && Enabled(s, StatusBegun(event)) && s' == BeginStatus(s, event) && Hears(s, p, r, call, heard)
    requires event.provider in s.byProvider && event.provider != p ==> s.byProvider[event.provider] != r
    ensures Hears(s', p, r, call, HearOne(heard, s, StatusBegun(event), p, r))
  {}

  lemma BeginHears<R>(s: Runtime<R>, event: StatusEvent, s': Runtime<R>, p: Identifier, r: R, call: Call, heard: Heard)
    requires Inv(s) && Enabled(s, StatusBegun(event)) && s' == BeginStatus(s, event) && Hears(s, p, r, call, heard)
    ensures Hears(s', p, r, call, HearOne(heard, s, StatusBegun(event), p, r))
  {
    if event.provider in s.byProvider && event.provider != p {
      ProvidersDiffer(s, event.provider, p);
    }
    LockHears(s, event, s', p, r, call, heard);
  }

  lemma EndHears<R>(s: Runtime<R>, q: R, stored: bool, s': Runtime<R>, p: Identifier, r: R, call: Call, heard: Heard)
    requires Closed(s) && q in s.entries && q in s.updating && s' == EndStatus(s, q, stored)
    requires Hears(s, p, r, call, heard)
    ensures Hears(s', p, r, call, HearOne(heard, s, StatusEnded(q, stored), p, r))
  {
    assert heard.stored + [] == heard.stored;
    if q == r && stored {
      DeliverOne(call, heard.stored, heard.current.value);
    }
  }

  predicate Quiet<R>(event: Event<R>) {
    !event.StatusBegun? && !event.StatusEnded?
  }

  lemma QuietKeepsUpdates<R>(s: Runtime<R>, event: Event<R>, s': Runtime<R>)
    requires Closed(s) && Enabled(s, event) && s' == Step(s, event) && Quiet(event)
    ensures s'.updating == s.updating
  {}

  lemma QuietHears<R>(s: Runtime<R>, event: Event<R>, s': Runtime<R>, p: Identifier, r: R, call: Call, heard: Heard)
    requires Closed(s) && Quiet(event) && Hears(s, p, r, call, heard)
    requires SameFound(s, s', p) && s'.updating == s.updating
    ensures Hears(s', p, r, call, HearOne(heard, s, event, p, r))
  {}

  lemma StepHears<R>(s: Runtime<R>, event: Event<R>, s': Runtime<R>, p: Identifier, r: R, call: Call, heard: Heard)
    requires Inv(s) && Enabled(s, event) && s' == Step(s, event) && Hears(s, p, r, call, heard)
    ensures Hears(s', p, r, call, HearOne(heard, s, event, p, r))
  {
    if event.StatusBegun? {
      BeginHears(s, event.event, s', p, r, call, heard);
    } else if event.StatusEnded? {
      EndHears(s, event.r, event.stored, s', p, r, call, heard);
    } else {
      QuietKeepsUpdates(s, event, s');
      StepKeepsCall(s, event, s', p);
      QuietHears(s, event, s', p, r, call, heard);
    }
  }

  lemma {:induction false} RunHears<R>(earlier: seq<Event<R>>, later: seq<Event<R>>, s: Runtime<R>, p: Identifier, r: R,
                                       call: Call)
    requires s == Play(earlier + later) && Hears(Play(earlier), p, r, call, Heard(None, []))
    ensures Hears(s, p, r, call, Listen(earlier, later, p, r))
  {
    if later == [] {
      assert earlier + later == earlier;
    } else {
      var before := later[..|later| - 1];
      var previous := Play(earlier + before);
      RunHears(earlier, before, previous, p, r, call);
      PlayKeeps(earlier + before);
      PlayLast(earlier, later);
      if Enabled(previous, later[|later| - 1]) {
        StepHears(previous, later[|later| - 1], s, p, r, call, Listen(earlier, before, p, r));
      }
    }
  }

  /** The gateway's answer registers the call. */
  predicate Registers<R>(s: Runtime<R>, t: TaskId, call: Call, r: R, token: Token) {
    Enabled(s, GatewayReturned(t, call, r, token)) && call.provider !in s.byProvider
  }

  lemma RegisterHears<R>(s: Runtime<R>, t: TaskId, call: Call, r: R, token: Token, s': Runtime<R>)
    requires Inv(s) && Registers(s, t, call, r, token) && s' == Register(s, t, call, r, token)
    ensures Hears(s', call.provider, r, call, Heard(None, []))
  {}

  /** A live call is the registered call after exactly the callbacks that began after the registration and were stored,
      in that order. */
  lemma CallHeardFromRegistration<R>(earlier: seq<Event<R>>, t: TaskId, call: Call, r: R, token: Token,
                                     later: seq<Event<R>>, s: Runtime<R>)
    requires Registers(Play(earlier), t, call, r, token)
    requires s == Play(earlier + [GatewayReturned(t, call, r, token)] + later)
    ensures call.provider in s.byProvider && s.byProvider[call.provider] == r && r in s.entries
    ensures var heard := Listen(earlier + [GatewayReturned(t, call, r, token)], later, call.provider, r);
      s.entries[r].call == DeliverAll(call, heard.stored)
  {
    PlayKeeps(earlier);
    PlayNext(earlier, GatewayReturned(t, call, r, token));
    RegisterHears(Play(earlier), t, call, r, token, Play(earlier + [GatewayReturned(t, call, r, token)]));
    RunHears(earlier + [GatewayReturned(t, call, r, token)], later, s, call.provider, r, call);
  }

  // ---------- A call that ends before it is registered ----------

  /** No callback ends the call. */
  ghost predicate NoneEnds<R>(later: seq<Event<R>>, p: Identifier) {
    forall e :: StatusBegun(e) in later && e.provider == p ==> !e.status.Terminal()
  }

  ghost predicate Harmless(heard: Heard) {
    && (heard.current.Some? ==> !heard.current.value.status.Terminal())
    && forall e :: e in heard.stored ==> !e.status.Terminal()
  }

  lemma {:induction false} HeardIsLater<R>(earlier: seq<Event<R>>, later: seq<Event<R>>, p: Identifier, r: R)
    requires NoneEnds(later, p)
    ensures Harmless(Listen(earlier, later, p, r))
  {
    if later != [] {
      var before, last := later[..|later| - 1], later[|later| - 1];
      assert later == before + [last];
      HeardIsLater(earlier, before, p, r);
    }
  }

  lemma {:induction false} HarmlessKeeps(call: Call, events: seq<StatusEvent>)
    requires !call.status.Terminal() && forall e :: e in events ==> !e.status.Terminal()
    ensures !DeliverAll(call, events).status.Terminal()
  {
    if events != [] {
      HarmlessKeeps(call, events[..|events| - 1]);
      assert events[|events| - 1] in events;
    }
  }

  /** A callback that ends a call before it is registered is lost: the call keeps its slot until another one comes. */
  lemma EarlyEndKeepsTheSlot<R>(earlier: seq<Event<R>>, t: TaskId, call: Call, r: R, token: Token,
                                later: seq<Event<R>>, s: Runtime<R>)
    requires Registers(Play(earlier), t, call, r, token) && !call.status.Terminal()
    requires s == Play(earlier + [GatewayReturned(t, call, r, token)] + later) && NoneEnds(later, call.provider)
    ensures call.provider in Active(s.entries, s.byProvider)
  {
    CallHeardFromRegistration(earlier, t, call, r, token, later, s);
    HeardIsLater(earlier + [GatewayReturned(t, call, r, token)], later, call.provider, r);
    HarmlessKeeps(call, Listen(earlier + [GatewayReturned(t, call, r, token)], later, call.provider, r).stored);
  }

  /** A run in which that happens: the call has ended for the provider, and is active for the runtime. */
  lemma EarlyEnd<R>(r: R) returns (events: seq<Event<R>>, s: Runtime<R>)
    ensures |events| == 3 && events[1] == StatusBegun(StatusEvent(5, 7, Completed, 1, 0)) && s == Play(events)
    ensures 7 in Active(s.entries, s.byProvider)
  {
    var request, call := Request(0, Content(0, 0)), Call(0, 7, Queued, 0, 0, None, []);
    var create, end: Event<R> := Create(request, 0), StatusBegun(StatusEvent(5, 7, Completed, 1, 0));
    events := [create, end] + [GatewayReturned(0, call, r, 0)] + [];
    Begun(create, end, request, end.event);
    assert [create] + [end] == [create, end];
    s := Play(events);
    EarlyEndKeepsTheSlot([create, end], 0, call, r, 0, [], s);
  }

  lemma Begun<R>(create: Event<R>, end: Event<R>, request: Request, event: StatusEvent)
    requires create == Create(request, 0) && end == StatusBegun(event)
    ensures var s := Play([create] + [end]);
      0 in s.tasks && s.tasks[0].progress.Calling? && s.entries == map[] && s.byProvider == map[]
  {
    assert Active(Idle<R>().entries, Idle<R>().byProvider) == {};
    PlayNext([], create);
    assert [] + [create] == [create];
    PlayNext([create], end);
  }
}
