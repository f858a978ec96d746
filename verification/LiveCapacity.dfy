/**
 The slots of the live runtime that are taken for ever: by creations whose clean-up was interrupted, and by calls that
 can never end. The task of a creation is shielded from the requests that wait for it, so that only the end of the
 event loop or a cancellation from outside interrupts it.
 */
module LiveCapacity {
  import opened Wrappers
  import opened OutboundCalls
  import opened LiveRuntime
  import opened LiveRuntimeRuns
  import Sets

  // ---------- An interrupted clean-up ----------

  /** The task that the key waits for has ended without dropping it: its clean-up was interrupted. */
  ghost predicate Leaked<R>(s: Runtime<R>, key: Key)
    requires Closed(s)
  {
    key in s.pending && s.tasks[s.pending[key]].progress.Ended?
  }

  ghost predicate SameLeak<R>(s: Runtime<R>, s': Runtime<R>, key: Key)
    requires Closed(s) && Leaked(s, key)
  {
    Closed(s') && Leaked(s', key) && s'.pending[key] == s.pending[key]
  }

  lemma AdmitKeepsLeak<R>(s: Runtime<R>, request: Request, t: TaskId, s': Runtime<R>, key: Key)
    requires Inv(s) && Leaked(s, key) && t !in s.tasks && s' == Admit(s, request, t).0
    ensures SameLeak(s, s', key)
  {
    AdmitCloses(s, request, t, s');
  }

  /** A task at work is not the one of a leaked key. */
  lemma NotTheLeak<R>(s: Runtime<R>, t: TaskId, key: Key)
    requires Inv(s) && Leaked(s, key) && t in s.tasks && !s.tasks[t].progress.Ended?
    ensures s.tasks[t].request.key != key && s.pending[key] != t
  {
    assert TaskOk(s.pending, s.tasks, t);
  }

  lemma RegisterKeepsLeak<R>(s: Runtime<R>, t: TaskId, call: Call, r: R, token: Token, s': Runtime<R>, key: Key)
    requires Inv(s) && Leaked(s, key) && t in s.tasks && s.tasks[t].progress.Calling?
    requires s' == Register(s, t, call, r, token)
    ensures SameLeak(s, s', key)
  {
    NotTheLeak(s, t, key);
    RegisterCloses(s, t, call, r, token, s');
  }

  lemma TaskKeepsLeak<R>(s: Runtime<R>, t: TaskId, progress: Progress, s': Runtime<R>, key: Key)
    requires Inv(s) && Leaked(s, key) && t in s.tasks && !s.tasks[t].progress.Ended?
    requires s' == SetTask(s, t, progress) || s' == DropPending(SetTask(s, t, progress), s.tasks[t].request)
    ensures SameLeak(s, s', key)
  {
    NotTheLeak(s, t, key);
  }

  lemma EntriesKeepLeak<R>(s: Runtime<R>, event: Event<R>, s': Runtime<R>, key: Key)
    requires Closed(s) && Enabled(s, event) && s' == Step(s, event) && Leaked(s, key)
    requires event.StatusBegun? || event.StatusEnded? || event.StreamClaimed? || event.StreamFinished?
    ensures SameLeak(s, s', key)
  {
    StepCloses(s, event, s');
  }

  /** No step drops a leaked key. */
  lemma LeakStays<R>(s: Runtime<R>, event: Event<R>, s': Runtime<R>, key: Key)
    requires Inv(s) && Enabled(s, event) && s' == Step(s, event) && Leaked(s, key)
    ensures SameLeak(s, s', key)
  {
    match event
    case Create(request, t) => AdmitKeepsLeak(s, request, t, s', key);
    case GatewayReturned(t, call, r, token) => RegisterKeepsLeak(s, t, call, r, token, s', key);
    case GatewayRaised(t, error) => TaskKeepsLeak(s, t, Failing(error), s', key);
    case CleanedUp(t) => TaskKeepsLeak(s, t, Ended(Err(s.tasks[t].progress.error)), s', key);
    case Aborted(t, error) => TaskKeepsLeak(s, t, Ended(Err(error)), s', key);
    case _ => EntriesKeepLeak(s, event, s', key);
  }

  lemma {:induction false} LeakStaysForEver<R>(events: seq<Event<R>>, more: seq<Event<R>>, key: Key)
    requires Leaked(Play(events), key)
    ensures Leaked(Play(events + more), key)
    ensures Play(events + more).pending[key] == Play(events).pending[key]
  {
    if more == [] {
      assert events + more == events;
    } else {
      var earlier, last := more[..|more| - 1], more[|more| - 1];
      assert events + more == events + earlier + [last];
      assert (events + more)[..|events + more| - 1] == events + earlier;
      LeakStaysForEver(events, earlier, key);
      PlayKeeps(events + earlier);
      if Enabled(Play(events + earlier), last) {
        LeakStays(Play(events + earlier), last, Play(events + more), key);
      }
    }
  }

  /** An interrupted clean-up leaks its key. */
  lemma InterruptedCleanUpLeaks<R>(events: seq<Event<R>>, t: TaskId, error: Failure)
    requires var s := Play(events); t in s.tasks && !s.tasks[t].progress.Ended?
    ensures var s := Play(events + [Aborted(t, error)]);
      var key := Play(events).tasks[t].request.key;
      Leaked(s, key) && s.pending[key] == t
  {
    var s := Play(events);
    PlayKeeps(events);
    assert TaskOk(s.pending, s.tasks, t);
    assert (events + [Aborted(t, error)])[..|events|] == events;
  }

  lemma AdmitLeaksNothing<R>(s: Runtime<R>, request: Request, t: TaskId, s': Runtime<R>, key: Key)
    requires Inv(s) && t !in s.tasks && s' == Admit(s, request, t).0
    requires Closed(s') && Leaked(s', key)
    ensures Leaked(s, key)
  {}

  lemma RegisterLeaksNothing<R>(s: Runtime<R>, t: TaskId, call: Call, r: R, token: Token, s': Runtime<R>, key: Key)
    requires Inv(s) && t in s.tasks && s.tasks[t].progress.Calling? && s' == Register(s, t, call, r, token)
    requires Closed(s') && Leaked(s', key)
    ensures Leaked(s, key)
  {
    assert key in s.pending ==> PendingOk(s.pending, s.pendingSessions, s.tasks, s.byKey, key);
  }

  lemma TaskLeaksNothing<R>(s: Runtime<R>, t: TaskId, progress: Progress, s': Runtime<R>, key: Key)
    requires Inv(s) && t in s.tasks && !s.tasks[t].progress.Ended?
    requires (s' == SetTask(s, t, progress) && (progress.Ended? ==> s.tasks[t].request.key != key))
             || s' == DropPending(SetTask(s, t, progress), s.tasks[t].request)
    requires Closed(s') && Leaked(s', key)
    ensures Leaked(s, key)
  {
    assert key in s.pending ==> PendingOk(s.pending, s.pendingSessions, s.tasks, s.byKey, key);
  }

  /** The event interrupts the creation for the key. */
  predicate Interrupts<R>(s: Runtime<R>, event: Event<R>, key: Key) {
    event.Aborted? && Enabled(s, event) && s.tasks[event.t].request.key == key
  }

  lemma EntriesLeakNothing<R>(s: Runtime<R>, event: Event<R>, s': Runtime<R>, key: Key)
    requires Closed(s) && Enabled(s, event) && s' == Step(s, event) && Closed(s') && Leaked(s', key)
    requires event.StatusBegun? || event.StatusEnded? || event.StreamClaimed? || event.StreamFinished?
    ensures Leaked(s, key)
  {}

  /** Nothing else leaks a key. */
  lemma LeakCause<R>(s: Runtime<R>, event: Event<R>, s': Runtime<R>, key: Key)
    requires Inv(s) && Enabled(s, event) && s' == Step(s, event) && Closed(s') && Leaked(s', key)
    requires !Interrupts(s, event, key)
    ensures Leaked(s, key)
  {
    match event
    case Create(request, t) => AdmitLeaksNothing(s, request, t, s', key);
    case GatewayReturned(t, call, r, token) => RegisterLeaksNothing(s, t, call, r, token, s', key);
    case GatewayRaised(t, error) => TaskLeaksNothing(s, t, Failing(error), s', key);
    case CleanedUp(t) => TaskLeaksNothing(s, t, Ended(Err(s.tasks[t].progress.error)), s', key);
    case Aborted(t, error) => TaskLeaksNothing(s, t, Ended(Err(error)), s', key);
    case _ => EntriesLeakNothing(s, event, s', key);
  }

  ghost predicate InterruptedAt<R>(events: seq<Event<R>>, i: int, key: Key) {
    0 <= i < |events| && Interrupts(Play(events[..i]), events[i], key)
  }

  lemma {:induction false} LeakHasCause<R>(events: seq<Event<R>>, key: Key) returns (i: int)
    requires Leaked(Play(events), key)
    ensures InterruptedAt(events, i, key)
  {
    assert events != [];
    var earlier, last := events[..|events| - 1], events[|events| - 1];
    var s := Play(earlier);
    PlayKeeps(earlier);
    if Leaked(s, key) {
      i := LeakHasCause(earlier, key);
      assert events[..i] == earlier[..i];
    } else {
      i := |events| - 1;
      if !Interrupts(s, last, key) {
        LeakCause(s, last, Play(events), key);
      }
    }
  }

  /** A key is leaked exactly when at some moment of the run the creation for it was interrupted. */
  lemma LeakedExactly<R>(events: seq<Event<R>>, key: Key)
    ensures Leaked(Play(events), key) <==> exists i :: InterruptedAt(events, i, key)
  {
    if Leaked(Play(events), key) {
      var i := LeakHasCause(events, key);
    } else if i :| InterruptedAt(events, i, key) {
      InterruptedCleanUpLeaks(events[..i], events[i].t, events[i].error);
      assert events[..i] + [events[i]] == events[..i + 1] && events[..i + 1] + events[i + 1..] == events;
      LeakStaysForEver(events[..i + 1], events[i + 1..], key);
    }
  }

  /** Every request with a leaked key waits for the ended task or is refused. */
  lemma LeakedKeyIsStuck<R>(events: seq<Event<R>>, s: Runtime<R>, request: Request, n: TaskId)
    requires s == Play(events) && Leaked(s, request.key)
    ensures Admit(s, request, n) ==
            (s, if request == s.tasks[s.pending[request.key]].request then Waiting(s.pending[request.key])
                else Conflict)
  {
    PlayKeeps(events);
    assert PendingOk(s.pending, s.pendingSessions, s.tasks, s.byKey, request.key);
  }

  /** Its session is refused under every other key, too. */
  lemma LeakedSessionIsStuck<R>(events: seq<Event<R>>, s: Runtime<R>, key: Key, request: Request, n: TaskId)
    requires s == Play(events) && Leaked(s, key) && request.key !in s.byKey && request.key !in s.pending
    requires request.content.session == s.tasks[s.pending[key]].request.content.session
    ensures Admit(s, request, n) == (s, Unauthorized)
  {
    PlayKeeps(events);
    assert PendingOk(s.pending, s.pendingSessions, s.tasks, s.byKey, key);
  }

  // ---------- Slots that are taken for ever ----------

  /** The registered calls that are not over and can never end. */
  function Frozen<R>(entries: map<R, Entry>, byProvider: map<Identifier, R>): set<Identifier>
    requires forall p :: p in byProvider ==> byProvider[p] in entries
  {
    set p | p in Active(entries, byProvider) && |entries[byProvider[p]].call.processed| == MAX_PROCESSED_EVENTS
  }

  function LeakedKeys(pending: map<Key, TaskId>, tasks: map<TaskId, Task>): set<Key> {
    set k | k in pending && pending[k] in tasks && tasks[pending[k]].progress.Ended?
  }

  function Leaks<R>(s: Runtime<R>): set<Key> {
    LeakedKeys(s.pending, s.tasks)
  }

  function Stuck<R>(s: Runtime<R>): nat
    requires Closed(s)
  {
    |Frozen(s.entries, s.byProvider)| + |Leaks(s)|
  }

  function Busy<R>(s: Runtime<R>): nat
    requires Closed(s)
  {
    |Active(s.entries, s.byProvider)| + |s.pending|
  }

  lemma StuckIsBusy<R>(s: Runtime<R>)
    requires Closed(s)
    ensures Stuck(s) <= Busy(s)
    ensures Active(s.entries, s.byProvider) == Frozen(s.entries, s.byProvider) && s.pending.Keys == Leaks(s) ==>
      Stuck(s) == Busy(s)
  {
    Sets.SubsetSize(Frozen(s.entries, s.byProvider), Active(s.entries, s.byProvider));
    Sets.SubsetSize(Leaks(s), s.pending.Keys);
    assert |s.pending| == |s.pending.Keys|;
  }

  /** The entry and its call are the same. */
  ghost predicate SameFound<R>(s: Runtime<R>, s': Runtime<R>, p: Identifier)
    requires Closed(s) && p in s.byProvider
  {
    && p in s'.byProvider && s'.byProvider[p] == s.byProvider[p] && s.byProvider[p] in s'.entries
    && s'.entries[s.byProvider[p]].call == s.entries[s.byProvider[p]].call
  }

  lemma AdmitKeepsCall<R>(s: Runtime<R>, request: Request, t: TaskId, s': Runtime<R>, p: Identifier)
    requires Closed(s) && s' == Admit(s, request, t).0 && p in s.byProvider
    ensures SameFound(s, s', p)
  {}

  lemma RegisterKeepsCall<R>(s: Runtime<R>, t: TaskId, call: Call, r: R, token: Token, s': Runtime<R>, p: Identifier)
    requires Closed(s) && t in s.tasks && r !in s.entries && s' == Register(s, t, call, r, token) && p in s.byProvider
    ensures SameFound(s, s', p)
  {}

  lemma UpdateKeepsFullCall<R>(s: Runtime<R>, event: Event<R>, s': Runtime<R>, p: Identifier)
    requires Closed(s) && event.StatusEnded? && Enabled(s, event) && s' == Step(s, event) && p in s.byProvider
    requires MayBecome(s.entries[event.r].call, s.updating[event.r])
    requires |s.entries[s.byProvider[p]].call.processed| == MAX_PROCESSED_EVENTS
    ensures SameFound(s, s', p)
  {}

  lemma ClaimKeepsCall<R>(s: Runtime<R>, provider: Identifier, token: Token, s': Runtime<R>, p: Identifier)
    requires Closed(s) && p in s.byProvider && s' == Claim(s, provider, token)
    ensures SameFound(s, s', p)
  {
    var claimed := Claimed(s, provider, token);
    if claimed.Some? {
      assert s' == Grant(s, claimed.value);
    }
  }

  lemma ReleaseKeepsCall<R>(s: Runtime<R>, provider: Identifier, token: Token, s': Runtime<R>, p: Identifier)
    requires Closed(s) && p in s.byProvider && s' == Release(s, provider, token)
    ensures SameFound(s, s', p)
  {}

  lemma TaskKeepsCall<R>(s: Runtime<R>, event: Event<R>, s': Runtime<R>, p: Identifier)
    requires Closed(s) && Enabled(s, event) && s' == Step(s, event) && p in s.byProvider
    requires !event.StatusEnded? && !event.StreamClaimed? && !event.StreamFinished?
    ensures SameFound(s, s', p)
  {
    match event
    case Create(request, t) => AdmitKeepsCall(s, request, t, s', p);
    case GatewayReturned(t, call, r, token) => RegisterKeepsCall(s, t, call, r, token, s', p);
    case _ =>
  }

  /** Only the end of an update changes a call. */
  lemma StepKeepsCall<R>(s: Runtime<R>, event: Event<R>, s': Runtime<R>, p: Identifier)
    requires Closed(s) && Enabled(s, event) && s' == Step(s, event) && !event.StatusEnded? && p in s.byProvider
    ensures SameFound(s, s', p)
  {
    if event.StreamClaimed? {
      ClaimKeepsCall(s, event.provider, event.token, s', p);
    } else if event.StreamFinished? {
      ReleaseKeepsCall(s, event.provider, event.token, s', p);
    } else {
      TaskKeepsCall(s, event, s', p);
    }
  }

  /** A full call stays as it is, where it is found. */
  lemma FullCallStays<R>(s: Runtime<R>, event: Event<R>, s': Runtime<R>, p: Identifier)
    requires Inv(s) && Enabled(s, event) && s' == Step(s, event) && p in s.byProvider
    requires |s.entries[s.byProvider[p]].call.processed| == MAX_PROCESSED_EVENTS
    ensures SameFound(s, s', p)
  {
    if event.StatusEnded? {
      assert EntryOk(s.entries, s.updating, s.granted, event.r);
      UpdateKeepsFullCall(s, event, s', p);
    } else {
      StepKeepsCall(s, event, s', p);
    }
  }

  lemma StuckStep<R>(s: Runtime<R>, event: Event<R>, s': Runtime<R>)
    requires Inv(s) && Enabled(s, event) && s' == Step(s, event) && Closed(s')
    ensures Frozen(s.entries, s.byProvider) <= Frozen(s'.entries, s'.byProvider)
    ensures Leaks(s) <= Leaks(s')
  {
    forall p | p in Frozen(s.entries, s.byProvider)
      ensures p in Frozen(s'.entries, s'.byProvider)
    {
      FullCallStays(s, event, s', p);
    }
    forall k | k in Leaks(s)
      ensures k in Leaks(s')
    {
      LeakStays(s, event, s', k);
    }
  }

  lemma PlayLast<R>(events: seq<Event<R>>, more: seq<Event<R>>)
    requires more != []
    ensures events + more == (events + more[..|more| - 1]) + [more[|more| - 1]]
    ensures var s := Play(events + more[..|more| - 1]);
      Play(events + more) == if Enabled(s, more[|more| - 1]) then Step(s, more[|more| - 1]) else s
  {
    var all := events + more;
    assert all[..|all| - 1] == events + more[..|more| - 1];
  }

  /** What is stuck stays stuck. */
  lemma {:induction false} StuckStays<R>(events: seq<Event<R>>, more: seq<Event<R>>, s: Runtime<R>, later: Runtime<R>)
    requires s == Play(events) && later == Play(events + more)
    ensures Frozen(s.entries, s.byProvider) <= Frozen(later.entries, later.byProvider) && Leaks(s) <= Leaks(later)
  {
    if more == [] {
      assert events + more == events;
    } else {
      var before := Play(events + more[..|more| - 1]);
      StuckStays(events, more[..|more| - 1], s, before);
      PlayKeeps(events + more[..|more| - 1]);
      PlayLast(events, more);
      if Enabled(before, more[|more| - 1]) {
        StuckStep(before, more[|more| - 1], later);
      }
    }
  }

  // ---------- Every other slot can be freed ----------

  lemma PlayNext<R>(events: seq<Event<R>>, event: Event<R>)
    requires Enabled(Play(events), event)
    ensures Play(events + [event]) == Step(Play(events), event)
  {
    assert (events + [event])[..|events|] == events;
  }

  /** The task of `k` has ended and `k` is not pending any more; nothing else changed but the sessions. */
  ghost predicate Cleared<R>(s: Runtime<R>, s': Runtime<R>, k: Key)
    requires Closed(s) && k in s.pending
  {
    && s'.entries == s.entries && s'.byProvider == s.byProvider && s'.pending == s.pending - {k}
    && (exists result :: s'.tasks == s.tasks[s.pending[k] := Task(s.tasks[s.pending[k]].request, Ended(result))])
  }

  lemma CleanUpClears<R>(s: Runtime<R>, t: TaskId, k: Key, s': Runtime<R>)
    requires Closed(s) && k in s.pending && s.pending[k] == t && s.tasks[t].progress.Failing?
    requires s.tasks[t].request.key == k && s' == CleanUp(s, t)
    ensures Cleared(s, s', k)
  {
    assert s'.tasks == s.tasks[t := Task(s.tasks[t].request, Ended(Err(s.tasks[t].progress.error)))];
  }

  lemma FailThenClear<R>(s: Runtime<R>, t: TaskId, k: Key, next: Runtime<R>, s': Runtime<R>)
    requires Closed(s) && k in s.pending && s.pending[k] == t && next == SetTask(s, t, Failing(0))
    requires Closed(next) && Cleared(next, s', k)
    ensures Cleared(s, s', k)
  {
    var result :| s'.tasks == next.tasks[t := Task(next.tasks[t].request, Ended(result))];
    assert s'.tasks == s.tasks[t := Task(s.tasks[t].request, Ended(result))];
  }

  lemma ClearFailing<R>(events: seq<Event<R>>, s: Runtime<R>, k: Key, t: TaskId)
    requires s == Play(events) && k in s.pending && s.pending[k] == t && s.tasks[t].progress.Failing?
    requires s.tasks[t].request.key == k
    ensures Cleared(s, Play(events + [CleanedUp(t)]), k)
  {
    PlayNext(events, CleanedUp(t));
    CleanUpClears(s, t, k, Play(events + [CleanedUp(t)]));
  }

  lemma ClearTask<R>(events: seq<Event<R>>, s: Runtime<R>, k: Key) returns (more: seq<Event<R>>)
    requires s == Play(events) && Inv(s) && k in s.pending && !Leaked(s, k)
    ensures Cleared(s, Play(events + more), k)
  {
    var t := s.pending[k];
    assert PendingOk(s.pending, s.pendingSessions, s.tasks, s.byKey, k);
    if s.tasks[t].progress.Failing? {
      more := [CleanedUp(t)];
      ClearFailing(events, s, k, t);
    } else {
      var raised := events + [GatewayRaised(t, 0)];
      more := [GatewayRaised(t, 0), CleanedUp(t)];
      PlayNext(events, GatewayRaised(t, 0));
      ClearFailing(raised, Play(raised), k, t);
      FailThenClear(s, t, k, Play(raised), Play(raised + [CleanedUp(t)]));
      assert events + more == raised + [CleanedUp(t)];
    }
  }

  lemma ClearedLeaks(pending: map<Key, TaskId>, tasks: map<TaskId, Task>, k: Key, after: map<TaskId, Task>)
    requires k in pending && k !in LeakedKeys(pending, tasks) && pending[k] in tasks
    requires forall j :: j in pending && j != k ==> pending[j] != pending[k]
    requires pending[k] in after && after == tasks[pending[k] := after[pending[k]]]
    ensures LeakedKeys(pending - {k}, after) == LeakedKeys(pending, tasks)
    ensures |pending - {k}| == |pending| - 1
  {
    assert pending == (pending - {k})[k := pending[k]];
  }

  lemma TasksDiffer<R>(s: Runtime<R>, j: Key, k: Key)
    requires Inv(s) && j in s.pending && k in s.pending && j != k
    ensures s.pending[j] != s.pending[k]
  {
    assert PendingOk(s.pending, s.pendingSessions, s.tasks, s.byKey, j);
    assert PendingOk(s.pending, s.pendingSessions, s.tasks, s.byKey, k);
  }

  lemma ClearedCounts<R>(s: Runtime<R>, s': Runtime<R>, k: Key)
    requires Inv(s) && Closed(s') && k in s.pending && !Leaked(s, k) && Cleared(s, s', k)
    ensures Busy(s') == Busy(s) - 1 && Stuck(s') == Stuck(s)
  {
    forall j | j in s.pending && j != k
      ensures s.pending[j] != s.pending[k]
    {
      TasksDiffer(s, j, k);
    }
    ClearedLeaks(s.pending, s.tasks, k, s'.tasks);
  }

  /** The entry of `p` got a new call; nothing else changed but the updates in flight. */
  ghost predicate Moved<R>(s: Runtime<R>, s': Runtime<R>, p: Identifier, call: Call)
    requires Closed(s) && p in s.byProvider
  {
    && s'.entries == s.entries[s.byProvider[p] := s.entries[s.byProvider[p]].(call := call)]
    && s'.byProvider == s.byProvider && s'.pending == s.pending && s'.tasks == s.tasks
  }

  /** Ends an update in flight without storing it. */
  lemma Unlock<R>(events: seq<Event<R>>, s: Runtime<R>, r: R) returns (more: seq<Event<R>>)
    requires s == Play(events) && r in s.entries
    ensures Play(events + more) == s.(updating := s.updating - {r})
  {
    if r in s.updating {
      more := [StatusEnded(r, false)];
      PlayNext(events, StatusEnded(r, false));
    } else {
      more := [];
      assert events + more == events && s.updating - {r} == s.updating;
    }
  }

  /** Delivers one callback that the call accepts. */
  lemma Hear<R>(events: seq<Event<R>>, s: Runtime<R>, p: Identifier, event: StatusEvent) returns (more: seq<Event<R>>)
    requires s == Play(events) && p in s.byProvider && event.provider == p
    requires ApplyStatusEvent(s.entries[s.byProvider[p]].call, event).Ok?
    ensures Moved(s, Play(events + more), p, Deliver(s.entries[s.byProvider[p]].call, event))
  {
    var r := s.byProvider[p];
    var free := Unlock(events, s, r);
    more := free + [StatusBegun(event), StatusEnded(r, true)];
    PlayNext(events + free, StatusBegun(event));
    PlayNext(events + free + [StatusBegun(event)], StatusEnded(r, true));
    assert events + more == events + free + [StatusBegun(event)] + [StatusEnded(r, true)];
  }

  lemma EndedLeaves<R>(entries: map<R, Entry>, byProvider: map<Identifier, R>, p: Identifier, entry: Entry)
    requires forall q :: q in byProvider ==> byProvider[q] in entries
    requires p in Active(entries, byProvider) && p !in Frozen(entries, byProvider) && entry.call.status.Terminal()
    requires forall q :: q in byProvider && q != p ==> byProvider[q] != byProvider[p]
    ensures Active(entries[byProvider[p] := entry], byProvider) == Active(entries, byProvider) - {p}
    ensures Frozen(entries[byProvider[p] := entry], byProvider) == Frozen(entries, byProvider)
  {}

  lemma EndedCounts<R>(s: Runtime<R>, s': Runtime<R>, p: Identifier, call: Call)
    requires Inv(s) && Closed(s') && p in Active(s.entries, s.byProvider) && p !in Frozen(s.entries, s.byProvider)
    requires Moved(s, s', p, call) && call.status.Terminal()
    ensures Busy(s') == Busy(s) - 1 && Stuck(s') == Stuck(s)
  {
    forall q | q in s.byProvider && q != p
      ensures s.byProvider[q] != s.byProvider[p]
    {
      ProvidersDiffer(s, q, p);
    }
    EndedLeaves(s.entries, s.byProvider, p, s.entries[s.byProvider[p]].(call := call));
  }

  lemma FreeCall<R>(events: seq<Event<R>>, s: Runtime<R>, p: Identifier)
    returns (more: seq<Event<R>>, later: Runtime<R>)
    requires s == Play(events) && p in Active(s.entries, s.byProvider) && p !in Frozen(s.entries, s.byProvider)
    ensures later == Play(events + more) && Busy(later) == Busy(s) - 1 && Stuck(later) == Stuck(s)
  {
    PlayKeeps(events);
    var call := s.entries[s.byProvider[p]].call;
    assert EntryOk(s.entries, s.updating, s.granted, s.byProvider[p]) && call.provider == p;
    var event := RoomAdvances(call);
    more := Hear(events, s, p, event);
    later := Play(events + more);
    EndedCounts(s, later, p, Deliver(call, event));
  }

  lemma FreeTask<R>(events: seq<Event<R>>, s: Runtime<R>, k: Key) returns (more: seq<Event<R>>, later: Runtime<R>)
    requires s == Play(events) && k in s.pending && !Leaked(s, k)
    ensures later == Play(events + more) && Busy(later) == Busy(s) - 1 && Stuck(later) == Stuck(s)
  {
    PlayKeeps(events);
    more := ClearTask(events, s, k);
    later := Play(events + more);
    ClearedCounts(s, later, k);
  }

  lemma FreeOne<R>(events: seq<Event<R>>, s: Runtime<R>) returns (more: seq<Event<R>>, later: Runtime<R>)
    requires s == Play(events) && Busy(s) != Stuck(s)
    ensures later == Play(events + more) && Busy(later) == Busy(s) - 1 && Stuck(later) == Stuck(s)
  {
    StuckIsBusy(s);
    if k :| k in s.pending && !Leaked(s, k) {
      more, later := FreeTask(events, s, k);
    } else {
      assert s.pending.Keys == Leaks(s);
      var p :| p in Active(s.entries, s.byProvider) && p !in Frozen(s.entries, s.byProvider);
      more, later := FreeCall(events, s, p);
    }
  }

  lemma PlayJoin<R>(events: seq<Event<R>>, first: seq<Event<R>>, rest: seq<Event<R>>, later: Runtime<R>)
    requires later == Play((events + first) + rest)
    ensures later == Play(events + (first + rest))
  {
    assert events + (first + rest) == (events + first) + rest;
  }

  lemma NothingMore<R>(events: seq<Event<R>>)
    ensures Play(events + []) == Play(events)
  {
    assert events + [] == events;
  }

  /** Some events free every slot that is not stuck. */
  lemma {:induction false} FreeAll<R>(events: seq<Event<R>>, s: Runtime<R>)
    returns (more: seq<Event<R>>, later: Runtime<R>)
    requires s == Play(events)
    ensures later == Play(events + more) && Busy(later) == Stuck(later) == Stuck(s)
    decreases Busy(s)
  {
    if Busy(s) == Stuck(s) {
      NothingMore(events);
      more, later := [], s;
    } else {
      var first, next := FreeOne(events, s);
      var rest, last := FreeAll(events + first, next);
      PlayJoin(events, first, rest, last);
      more, later := first + rest, last;
    }
  }

  // ---------- When no creation ever starts again ----------

  /** After these events a request starts a creation. */
  ghost predicate StartsAfter<R>(events: seq<Event<R>>, more: seq<Event<R>>, request: Request) {
    Answer(Play(events + more), request).None?
  }

  lemma FreshRequest<R>(s: Runtime<R>) returns (request: Request)
    requires Closed(s) && Busy(s) < MAX_ACTIVE_CALLS
    ensures Answer(s, request).None?
  {
    var key := Sets.Outside(s.byKey.Keys + s.pending.Keys);
    var session := Sets.Outside(s.bySession.Keys + s.pendingSessions);
    request := Request(key, Content(session, 0));
  }

  /** No request ever starts a creation again, whatever happens, exactly when leaked keys and full calls that are not
      over are three together. Until then some events make room again. */
  lemma BlockedExactly<R>(events: seq<Event<R>>)
    ensures (forall more, request :: !StartsAfter(events, more, request)) <==> Stuck(Play(events)) >= MAX_ACTIVE_CALLS
  {
    var s := Play(events);
    if Stuck(s) >= MAX_ACTIVE_CALLS {
      forall more, request
        ensures !StartsAfter(events, more, request)
      {
        StillBlocked(events, more, s, Play(events + more), request);
      }
    } else {
      var more, later := FreeAll(events, s);
      var request := FreshRequest(later);
      assert StartsAfter(events, more, request);
    }
  }

  lemma StillBlocked<R>(events: seq<Event<R>>, more: seq<Event<R>>, s: Runtime<R>, later: Runtime<R>, request: Request)
    requires s == Play(events) && later == Play(events + more) && Stuck(s) >= MAX_ACTIVE_CALLS
    ensures Answer(later, request).Some?
  {
    StuckStays(events, more, s, later);
    Sets.SubsetSize(Frozen(s.entries, s.byProvider), Frozen(later.entries, later.byProvider));
    Sets.SubsetSize(Leaks(s), Leaks(later));
    StuckIsBusy(later);
  }

  // ---------- Both causes occur ----------

  /** An interrupted creation out of a state in which it may start. */
  lemma LeaveBehind<R>(events: seq<Event<R>>, s: Runtime<R>, request: Request, t: TaskId, s': Runtime<R>)
    requires s == Play(events) && Answer(s, request).None? && t !in s.tasks
    requires s' == s.(tasks := s.tasks[t := Task(request, Ended(Err(0)))], pending := s.pending[request.key := t],
                      pendingSessions := s.pendingSessions + {request.content.session})
    ensures Play(events + [Create(request, t), Aborted(t, 0)]) == s'
  {
    var created := events + [Create(request, t)];
    PlayNext(events, Create(request, t));
    AbortNew(s, request, t, Play(created), s');
    PlayNext(created, Aborted(t, 0));
    assert created + [Aborted(t, 0)] == events + [Create(request, t), Aborted(t, 0)];
  }

  lemma AbortNew<R>(s: Runtime<R>, request: Request, t: TaskId, created: Runtime<R>, s': Runtime<R>)
    requires Closed(s) && Answer(s, request).None? && t !in s.tasks && created == Admit(s, request, t).0
    requires s' == s.(tasks := s.tasks[t := Task(request, Ended(Err(0)))], pending := s.pending[request.key := t],
                      pendingSessions := s.pendingSessions + {request.content.session})
    ensures t in created.tasks && created.tasks[t].progress.Calling? && SetTask(created, t, Ended(Err(0))) == s'
  {
    assert created.tasks[t := Task(request, Ended(Err(0)))] == s.tasks[t := Task(request, Ended(Err(0)))];
  }

  function Numbered(n: nat): Request {
    Request(n, Content(n, 0))
  }

  function Interrupted<R>(n: nat): seq<Event<R>> {
    if n == 0 then [] else Interrupted(n - 1) + [Create(Numbered(n), n), Aborted(n, 0)]
  }

  /** What the first `n` interrupted creations leave. */
  function LeftBehind<R>(n: nat): Runtime<R> {
    if n == 0 then Idle()
    else
      var s := LeftBehind<R>(n - 1);
      s.(tasks := s.tasks[n := Task(Numbered(n), Ended(Err(0)))], pending := s.pending[n := n],
         pendingSessions := s.pendingSessions + {n})
  }

  lemma {:induction false} LeftBehindHolds<R>(n: nat)
    ensures var s := LeftBehind<R>(n);
      && s.byKey == map[] && s.bySession == map[] && s.byProvider == map[]
      && (forall k :: k in s.pending ==> 1 <= k <= n) && (forall x :: x in s.pendingSessions ==> 1 <= x <= n)
      && (forall t :: t in s.tasks ==> 1 <= t <= n)
  {
    if n > 0 {
      LeftBehindHolds<R>(n - 1);
    }
  }

  ghost predicate AllEnded(pending: map<Key, TaskId>, tasks: map<TaskId, Task>) {
    forall k :: k in pending ==> pending[k] in tasks && tasks[pending[k]].progress.Ended?
  }

  lemma OneMoreEnded(pending: map<Key, TaskId>, tasks: map<TaskId, Task>, n: nat, task: Task)
    requires AllEnded(pending, tasks) && n !in pending && n !in tasks && task.progress.Ended?
    ensures AllEnded(pending[n := n], tasks[n := task]) && |pending[n := n]| == |pending| + 1
  {}

  lemma {:induction false} LeftBehindEnded<R>(n: nat)
    ensures AllEnded(LeftBehind<R>(n).pending, LeftBehind<R>(n).tasks) && |LeftBehind<R>(n).pending| == n
  {
    if n > 0 {
      LeftBehindEnded<R>(n - 1);
      LeftBehindHolds<R>(n - 1);
      OneMoreEnded(LeftBehind<R>(n - 1).pending, LeftBehind<R>(n - 1).tasks, n, Task(Numbered(n), Ended(Err(0))));
    }
  }

  lemma LeftBehindCounts<R>(n: nat, s: Runtime<R>)
    requires s == LeftBehind<R>(n)
    ensures Closed(s) && Leaks(s) == s.pending.Keys && |s.pending| == n
  {
    LeftBehindHolds<R>(n);
    LeftBehindEnded<R>(n);
  }

  lemma NoneActive<R>(s: Runtime<R>)
    requires Closed(s) && s.byProvider == map[]
    ensures Busy(s) == |s.pending| && Stuck(s) == |Leaks(s)|
  {
    assert Active(s.entries, s.byProvider) == {} && Frozen(s.entries, s.byProvider) == {};
  }

  lemma LeftBehindGrows<R>(n: nat, s: Runtime<R>)
    requires n < MAX_ACTIVE_CALLS && s == LeftBehind<R>(n)
    ensures Closed(s) && Answer(s, Numbered(n + 1)).None? && n + 1 !in s.tasks
    ensures LeftBehind<R>(n + 1) ==
            s.(tasks := s.tasks[n + 1 := Task(Numbered(n + 1), Ended(Err(0)))], pending := s.pending[n + 1 := n + 1],
               pendingSessions := s.pendingSessions + {n + 1})
  {
    LeftBehindHolds<R>(n);
    LeftBehindCounts(n, s);
    NoneActive(s);
  }

  lemma {:induction false} InterruptedLeak<R>(n: nat)
    requires n <= MAX_ACTIVE_CALLS
    ensures Play(Interrupted<R>(n)) == LeftBehind<R>(n)
  {
    if n > 0 {
      InterruptedLeak<R>(n - 1);
      LeftBehindGrows<R>(n - 1, LeftBehind<R>(n - 1));
      LeaveBehind(Interrupted<R>(n - 1), LeftBehind<R>(n - 1), Numbered(n), n, LeftBehind<R>(n));
    }
  }

  lemma LeftBehindStuck<R>(n: nat)
    ensures Closed(LeftBehind<R>(n)) && Stuck(LeftBehind<R>(n)) == n
  {
    LeftBehindHolds<R>(n);
    LeftBehindCounts(n, LeftBehind<R>(n));
    NoneActive(LeftBehind<R>(n));
    assert |LeftBehind<R>(n).pending| == |LeftBehind<R>(n).pending.Keys|;
  }

  /** Three interrupted creations are enough. */
  lemma ThreeInterruptionsBlock<R>() returns (events: seq<Event<R>>)
    ensures |events| == 6 && forall more, request :: !StartsAfter(events, more, request)
  {
    events := Interrupted(3);
    InterruptedLeak<R>(3);
    LeftBehindStuck<R>(3);
    BlockedExactly(events);
  }

  lemma FillOne<R>(events: seq<Event<R>>, s: Runtime<R>, p: Identifier)
    returns (more: seq<Event<R>>, later: Runtime<R>)
    requires s == Play(events) && p in Active(s.entries, s.byProvider) && p !in Frozen(s.entries, s.byProvider)
    ensures later == Play(events + more) && p in Active(later.entries, later.byProvider) && Busy(later) == Busy(s)
    ensures |later.entries[later.byProvider[p]].call.processed| == |s.entries[s.byProvider[p]].call.processed| + 1
  {
    PlayKeeps(events);
    var call := s.entries[s.byProvider[p]].call;
    assert EntryOk(s.entries, s.updating, s.granted, s.byProvider[p]) && call.provider == p;
    var id := Unseen(call.processed);
    var event := StatusEvent(id, p, call.status, call.Sequence() + 1, call.createdAt);
    assert Deliver(call, event) == Advance(call, event);
    more := Hear(events, s, p, event);
    later := Play(events + more);
    StaysActive(s, later, p, Deliver(call, event));
  }

  lemma FullIsFrozen<R>(events: seq<Event<R>>, s: Runtime<R>, p: Identifier)
    requires s == Play(events) && p in Active(s.entries, s.byProvider)
    ensures |s.entries[s.byProvider[p]].call.processed| <= MAX_PROCESSED_EVENTS
  {
    PlayKeeps(events);
    assert EntryOk(s.entries, s.updating, s.granted, s.byProvider[p]);
  }

  /** Callbacks fill any registered call that is not over: it stays where it is, and is frozen. */
  lemma {:induction false} CanFill<R>(events: seq<Event<R>>, s: Runtime<R>, p: Identifier)
    returns (more: seq<Event<R>>, later: Runtime<R>)
    requires s == Play(events) && p in Active(s.entries, s.byProvider)
    ensures later == Play(events + more) && p in Frozen(later.entries, later.byProvider) && Busy(later) == Busy(s)
    decreases MAX_PROCESSED_EVENTS - |s.entries[s.byProvider[p]].call.processed|
  {
    if p in Frozen(s.entries, s.byProvider) {
      NothingMore(events);
      more, later := [], s;
    } else {
      var first, next := FillOne(events, s, p);
      FullIsFrozen(events + first, next, p);
      var rest, last := CanFill(events + first, next, p);
      PlayJoin(events, first, rest, last);
      more, later := first + rest, last;
    }
  }

  lemma StaysActive<R>(s: Runtime<R>, s': Runtime<R>, p: Identifier, call: Call)
    requires Inv(s) && Closed(s') && p in Active(s.entries, s.byProvider)
    requires Moved(s, s', p, call) && !call.status.Terminal()
    ensures Active(s'.entries, s'.byProvider) == Active(s.entries, s.byProvider) && Busy(s') == Busy(s)
  {
    assert forall q :: q in s.byProvider && s.byProvider[q] == s.byProvider[p] ==> q == p;
  }
  lemma MoreStuck<R>(s: Runtime<R>, later: Runtime<R>)
    requires Closed(s) && Closed(later)
    requires Frozen(s.entries, s.byProvider) <= Frozen(later.entries, later.byProvider) && Leaks(s) <= Leaks(later)
    requires Frozen(s.entries, s.byProvider) != Frozen(later.entries, later.byProvider) || Leaks(s) != Leaks(later)
    ensures Stuck(s) < Stuck(later)
  {
    var frozen, frozenLater := Frozen(s.entries, s.byProvider), Frozen(later.entries, later.byProvider);
    Sets.SubsetSize(frozen, frozenLater);
    Sets.SubsetSize(Leaks(s), Leaks(later));
    if p :| p in frozenLater && p !in frozen {
      Sets.SubsetSize(frozen + {p}, frozenLater);
    } else {
      var k :| k in Leaks(later) && k !in Leaks(s);
      Sets.SubsetSize(Leaks(s) + {k}, Leaks(later));
    }
  }

  lemma Interrupt<R>(events: seq<Event<R>>, s: Runtime<R>, k: Key) returns (more: seq<Event<R>>, later: Runtime<R>)
    requires s == Play(events) && k in s.pending && !Leaked(s, k)
    ensures later == Play(events + more) && Busy(later) == Busy(s) && Leaked(later, k)
  {
    var t := s.pending[k];
    PlayKeeps(events);
    assert PendingOk(s.pending, s.pendingSessions, s.tasks, s.byKey, k);
    more := [Aborted(t, 0)];
    PlayNext(events, Aborted(t, 0));
    later := Play(events + more);
  }

  lemma StickOne<R>(events: seq<Event<R>>, s: Runtime<R>) returns (more: seq<Event<R>>, later: Runtime<R>)
    requires s == Play(events) && Busy(s) != Stuck(s)
    ensures later == Play(events + more) && Busy(later) == Busy(s) && Stuck(later) > Stuck(s)
  {
    StuckIsBusy(s);
    if k :| k in s.pending && !Leaked(s, k) {
      more, later := Interrupt(events, s, k);
      assert k in Leaks(later) && k !in Leaks(s);
    } else {
      assert s.pending.Keys == Leaks(s);
      var p :| p in Active(s.entries, s.byProvider) && p !in Frozen(s.entries, s.byProvider);
      more, later := CanFill(events, s, p);
    }
    StuckStays(events, more, s, later);
    MoreStuck(s, later);
  }

  /** Every slot that is taken can get stuck: from any run, interruptions and callbacks alone lead to one in which all
      the slots in use are taken for ever. */
  lemma {:induction false} StickAll<R>(events: seq<Event<R>>, s: Runtime<R>)
    returns (more: seq<Event<R>>, later: Runtime<R>)
    requires s == Play(events)
    ensures later == Play(events + more) && Stuck(later) == Busy(later) == Busy(s)
    decreases Busy(s) - Stuck(s)
  {
    StuckIsBusy(s);
    if Busy(s) == Stuck(s) {
      NothingMore(events);
      more, later := [], s;
    } else {
      var first, next := StickOne(events, s);
      StuckIsBusy(next);
      var rest, last := StickAll(events + first, next);
      PlayJoin(events, first, rest, last);
      more, later := first + rest, last;
    }
  }
}
