/**
 The runtime object: its entries are shared by three indices and updated in place. One method per locked block, each
 taking the runtime value `model` through the step of that block, so that what holds in every run of the value holds
 here.
 */
module LiveTelephony {
  import opened Wrappers
  import opened OutboundCalls
  import opened LiveRuntime
  import Sets

  class OutboundRuntimeEntry {
    var call: Call
    const token: Token
    const request: Request
    var streamClaimed: bool
    var streamConsumed: bool
    /** The call computed by the holder of the entry's status lock, until it is written through. */
    var updating: Option<Call>

    constructor (call: Call, token: Token, request: Request)
      ensures this.call == call && this.token == token && this.request == request
      ensures !streamClaimed && !streamConsumed && updating == None
    {
      this.call, this.token, this.request := call, token, request;
      streamClaimed, streamConsumed, updating := false, false, None;
    }

    function Value(): Entry
      reads this
    {
      Entry(call, token, request, streamClaimed, streamConsumed)
    }
  }

  class LiveTelephonyApplication {
    var byProvider: map<Identifier, OutboundRuntimeEntry>
    var byKey: map<Key, OutboundRuntimeEntry>
    var bySession: map<Identifier, OutboundRuntimeEntry>
    var pending: map<Key, TaskId>
    var pendingSessions: set<Identifier>
    var tasks: map<TaskId, Task>
    ghost var model: Runtime<OutboundRuntimeEntry>

    /** The entry object `r` holds what the runtime value says about it. */
    ghost predicate Holds(r: OutboundRuntimeEntry)
      reads this, r
    {
      && r in model.entries && model.entries[r] == r.Value()
      && (r in model.updating <==> r.updating.Some?)
      && (r in model.updating ==> model.updating[r] == r.updating.value)
    }

    ghost predicate SameTables()
      reads this
    {
      && byProvider == model.byProvider && byKey == model.byKey && bySession == model.bySession
      && pending == model.pending && pendingSessions == model.pendingSessions && tasks == model.tasks
    }

    ghost predicate Valid()
      reads this, model.entries.Keys
    {
      Closed(model) && SameTables() && forall r :: r in model.entries ==> Holds(r)
    }

    constructor ()
      ensures Valid() && model == Runtime(map[], map[], map[], map[], map[], {}, map[], map[], [])
    {
      byProvider, byKey, bySession, pending, pendingSessions, tasks := map[], map[], map[], map[], {}, map[];
      model := Runtime(map[], map[], map[], map[], map[], {}, map[], map[], []);
    }

    /** Looks for a registered or pending call of the request, then for a free session and for room. */
    method Answer(request: Request) returns (answer: Option<Admission>)
      requires Valid()
      ensures answer == LiveRuntime.Answer(model, request)
    {
      if request.key in byKey {
        var existing := byKey[request.key];
        assert Holds(existing);
        return Some(if existing.request.content == request.content then Existing(existing.call) else Conflict);
      }
      if request.key in pending && tasks[pending[request.key]].request.content != request.content {
        return Some(Conflict);
      }
      if request.content.session in bySession {
        return Some(Unauthorized);
      }
      if request.key in pending {
        return Some(Waiting(pending[request.key]));
      }
      if request.content.session in pendingSessions {
        return Some(Unauthorized);
      }
      var active := CountActive();
      return if active + |pending| >= MAX_ACTIVE_CALLS then Some(AtCapacity) else None;
    }

    /** The number of registered calls that are not over. */
    method CountActive() returns (n: nat)
      requires Valid()
      ensures n == |Active(model.entries, model.byProvider)|
    {
      n := 0;
      var todo := byProvider.Keys;
      ghost var active := Active(model.entries, model.byProvider);
      assert active * todo == active;
      while todo != {}
        invariant todo <= byProvider.Keys && n + |active * todo| == |active|
        decreases todo
      {
        var p :| p in todo;
        assert Holds(byProvider[p]);
        Sets.CountOut(active, todo, p);
        if !byProvider[p].call.status.Terminal() {
          n := n + 1;
        }
        todo := todo - {p};
      }
    }

    /** The locked block of a creation request; `t` is the identity of the task it may start. */
    method Admit(request: Request, t: TaskId) returns (admission: Admission)
      requires Valid()
      modifies this
      ensures Valid() && (model, admission) == LiveRuntime.Admit(old(model), request, t)
    {
      var answer := Answer(request);
      if answer.Some? {
        return answer.value;
      }
      ghost var next := LiveRuntime.Admit(model, request, t).0;
      assert Closed(next);
      model := next;
      tasks := tasks[t := Task(request, Calling)];
      pending := pending[request.key := t];
      pendingSessions := pendingSessions + {request.content.session};
      return Waiting(t);
    }

    /** The locked block that registers a created call. */
    method Register(t: TaskId, call: Call, token: Token) returns (r: OutboundRuntimeEntry)
      requires Valid() && t in tasks
      modifies this
      ensures Valid() && fresh(r) && model == LiveRuntime.Register(old(model), t, call, r, token)
    {
      r := new OutboundRuntimeEntry(call, token, tasks[t].request);
      if call.provider in byProvider {
        Reject(t);
      } else {
        Insert(t, call, r);
      }
    }

    method Reject(t: TaskId)
      requires Valid() && t in tasks
      modifies this
      ensures Valid() && model == SetTask(old(model), t, Failing(PROVIDER_ID_ACTIVE))
    {
      model := SetTask(model, t, Failing(PROVIDER_ID_ACTIVE));
      tasks := tasks[t := Task(tasks[t].request, Failing(PROVIDER_ID_ACTIVE))];
    }

    method Insert(t: TaskId, call: Call, r: OutboundRuntimeEntry)
      requires Valid() && t in tasks && call.provider !in byProvider && r !in model.entries
      requires r.Value() == Entry(call, r.token, tasks[t].request, false, false) && r.updating == None
      requires r !in model.updating
      modifies this
      ensures Valid() && model == LiveRuntime.Register(old(model), t, call, r, r.token)
    {
      var request := tasks[t].request;
      ghost var next := LiveRuntime.Register(model, t, call, r, r.token);
      RegisterCloses(model, t, call, r, r.token, next);
      model := next;
      tasks := tasks[t := Task(request, Ended(Ok(call)))];
      byProvider := byProvider[call.provider := r];
      byKey := byKey[request.key := r];
      bySession := bySession[request.content.session := r];
      pending := pending - {request.key};
      pendingSessions := pendingSessions - {request.content.session};
    }

    /** The locked block that runs when the creation raised anything. */
    method CleanUp(t: TaskId)
      requires Valid() && t in tasks && tasks[t].progress.Failing?
      modifies this
      ensures Valid() && model == LiveRuntime.CleanUp(old(model), t)
    {
      model := LiveRuntime.CleanUp(model, t);
      var request := tasks[t].request;
      tasks := tasks[t := Task(request, Ended(Err(tasks[t].progress.error)))];
      pending := pending - {request.key};
      pendingSessions := pendingSessions - {request.content.session};
    }

    /** The entry that may yield its binding to the stream. */
    method FindClaimable(provider: Identifier, token: Token) returns (found: Option<OutboundRuntimeEntry>)
      requires Valid()
      ensures found == Claimed(model, provider, token)
      ensures found.Some? ==> found.value in model.entries
    {
      if provider !in byProvider {
        return None;
      }
      var entry := byProvider[provider];
      assert Holds(entry);
      if entry.token != token || entry.call.status.Terminal() || entry.streamClaimed || entry.streamConsumed {
        return None;
      }
      return Some(entry);
    }

    method Mark(entry: OutboundRuntimeEntry)
      requires Valid() && entry in model.entries
      modifies this, entry
      ensures Valid() && model == Grant(old(model), entry)
    {
      model := Grant(model, entry);
      entry.streamClaimed := true;
      entry.streamConsumed := true;
    }

    /** The locked block that gives a stream the binding of its call; `None` refuses it. */
    method Claim(provider: Identifier, token: Token) returns (yielded: Option<OutboundRuntimeEntry>)
      requires Valid()
      modifies this, model.entries.Keys
      ensures Valid() && model == LiveRuntime.Claim(old(model), provider, token)
      ensures yielded == Claimed(old(model), provider, token)
    {
      yielded := FindClaimable(provider, token);
      if yielded.Some? {
        Mark(yielded.value);
      }
    }

    /** The locked block at the end of a stream. */
    method Release(provider: Identifier, token: Token)
      requires Valid()
      modifies this, model.entries.Keys
      ensures Valid() && model == LiveRuntime.Release(old(model), provider, token)
    {
      if provider in byProvider {
        var entry := byProvider[provider];
        assert Holds(entry);
        if entry.token == token {
          ghost var next := LiveRuntime.Release(model, provider, token);
          assert Closed(next);
          model := next;
          entry.streamClaimed := false;
        }
      }
    }

    /** Looks up the entry of the callback, takes its status lock and computes its next call; `None` is a callback that
        matches no registered call or is refused by it. */
    method BeginStatus(event: StatusEvent) returns (locked: Option<OutboundRuntimeEntry>)
      requires Valid() && (event.provider in byProvider ==> byProvider[event.provider].updating == None)
      modifies this, model.entries.Keys
      ensures Valid() && model == LiveRuntime.BeginStatus(old(model), event)
      ensures locked.Some? <==> event.provider in byProvider && byProvider[event.provider] in model.updating
      ensures locked.Some? ==> locked.value == byProvider[event.provider]
    {
      if event.provider !in byProvider {
        return None;
      }
      var entry := byProvider[event.provider];
      assert Holds(entry);
      var result := ApplyStatusEvent(entry.call, event);
      if result.Err? {
        return None;
      }
      Lock(entry, result.value);
      return Some(entry);
    }

    method Lock(entry: OutboundRuntimeEntry, updated: Call)
      requires Valid() && entry in model.entries
      modifies this, entry
      ensures Valid() && model == SetUpdating(old(model), entry, updated)
    {
      model := SetUpdating(model, entry, updated);
      entry.updating := Some(updated);
    }

    /** Releases the status lock; the call moves on only if it was stored. */
    method EndStatus(entry: OutboundRuntimeEntry, stored: bool)
      requires Valid() && entry in model.entries && entry.updating.Some?
      modifies this, entry
      ensures Valid() && model == LiveRuntime.EndStatus(old(model), entry, stored)
    {
      assert Holds(entry);
      ghost var next := LiveRuntime.EndStatus(model, entry, stored);
      assert Closed(next);
      model := next;
      if stored {
        entry.call := entry.updating.value;
      }
      entry.updating := None;
    }
  }
}
