/** Whole runs of the live runtime: every interleaving of its locked blocks, and the object that runs them. */
module LiveRuntimeRuns {
  import opened Wrappers
  import opened OutboundCalls
  import opened LiveRuntime

  datatype Event<R(==)> =
    | Create(request: Request, t: TaskId)
    | GatewayReturned(t: TaskId, call: Call, r: R, token: Token)
    | GatewayRaised(t: TaskId, error: Failure)
    | CleanedUp(t: TaskId)
    | Aborted(t: TaskId, error: Failure)
    | StatusBegun(event: StatusEvent)
    | StatusEnded(r: R, stored: bool)
    | StreamClaimed(provider: Identifier, token: Token)
    | StreamFinished(provider: Identifier, token: Token)

  /** What has to hold for a block to run now: new objects are new, a task runs one block after another, and the status
      lock of an entry is free or held. */
  predicate Enabled<R>(s: Runtime<R>, event: Event<R>) {
    match event
    case Create(_, t) => t !in s.tasks
    case GatewayReturned(t, call, r, _) =>
      t in s.tasks && s.tasks[t].progress.Calling? && r !in s.entries && call.Valid()
    case GatewayRaised(t, _) => t in s.tasks && s.tasks[t].progress.Calling?
    case CleanedUp(t) => t in s.tasks && s.tasks[t].progress.Failing?
    case Aborted(t, _) => t in s.tasks && !s.tasks[t].progress.Ended?
    case StatusBegun(e) => e.provider in s.byProvider ==> s.byProvider[e.provider] !in s.updating
    case StatusEnded(r, _) => r in s.entries && r in s.updating
    case _ => true
  }

  function Step<R>(s: Runtime<R>, event: Event<R>): Runtime<R>
    requires Closed(s) && Enabled(s, event)
  {
    match event
    case Create(request, t) => Admit(s, request, t).0
    case GatewayReturned(t, call, r, token) => Register(s, t, call, r, token)
    case GatewayRaised(t, error) => SetTask(s, t, Failing(error))
    case CleanedUp(t) => CleanUp(s, t)
    case Aborted(t, error) => SetTask(s, t, Ended(Err(error)))
    case StatusBegun(e) => BeginStatus(s, e)
    case StatusEnded(r, stored) => EndStatus(s, r, stored)
    case StreamClaimed(provider, token) => Claim(s, provider, token)
    case StreamFinished(provider, token) => Release(s, provider, token)
  }

  lemma StepKeeps<R>(s: Runtime<R>, event: Event<R>)
    requires Inv(s) && Enabled(s, event)
    ensures Inv(Step(s, event))
  {
    match event
    case Create(request, t) => AdmitKeeps(s, request, t);
    case GatewayReturned(t, call, r, token) => RegisterKeeps(s, t, call, r, token);
    case GatewayRaised(t, error) => FailKeeps(s, t, Failing(error));
    case CleanedUp(t) => CleanUpKeeps(s, t);
    case Aborted(t, error) => FailKeeps(s, t, Ended(Err(error)));
    case StatusBegun(e) => BeginStatusKeeps(s, e);
    case StatusEnded(r, stored) => EndStatusKeeps(s, r, stored);
    case StreamClaimed(provider, token) => ClaimKeeps(s, provider, token);
    case StreamFinished(provider, token) => ReleaseKeeps(s, provider, token);
  }

  function Idle<R>(): Runtime<R> {
    Runtime(map[], map[], map[], map[], map[], {}, map[], map[], [])
  }

  /** No step leaves a dangling reference in a table. */
  lemma StepCloses<R>(s: Runtime<R>, event: Event<R>, s': Runtime<R>)
    requires Closed(s) && Enabled(s, event) && s' == Step(s, event)
    ensures Closed(s')
  {
    match event
    case Create(request, t) => AdmitCloses(s, request, t, s');
    case GatewayReturned(t, call, r, token) => RegisterCloses(s, t, call, r, token, s');
    case _ =>
  }

  /** An event that is not enabled does nothing. */
  function Play<R>(events: seq<Event<R>>): (s: Runtime<R>)
    ensures Closed(s)
  {
    if events == [] then Idle()
    else
      var s := Play(events[..|events| - 1]);
      var event := events[|events| - 1];
      if Enabled(s, event) then (StepCloses(s, event, Step(s, event)); Step(s, event)) else s
  }

  /** The invariant holds in every run. */
  lemma {:induction false} PlayKeeps<R>(events: seq<Event<R>>)
    ensures Inv(Play(events))
  {
    if events != [] {
      var s := Play(events[..|events| - 1]);
      PlayKeeps(events[..|events| - 1]);
      if Enabled(s, events[|events| - 1]) {
        StepKeeps(s, events[|events| - 1]);
      }
    } else {
      IdleKeeps<R>();
    }
  }

  lemma IdleKeeps<R>()
    ensures Inv(Idle<R>())
  {}

  // ---------- Capacity and indices ----------

  /** Non-terminal registered calls and pending creations never exceed three, over every interleaving; a creation is
      refused for capacity only when there are three, and one is started only when there are fewer. */
  lemma NeverMoreThanThree<R>(events: seq<Event<R>>, s: Runtime<R>, busy: nat, request: Request, t: TaskId)
    requires s == Play(events) && busy == |Active(s.entries, s.byProvider)| + |s.pending|
    ensures busy <= 3
    ensures Admit(s, request, t).1 == AtCapacity ==> busy == 3
    ensures t !in s.tasks && Admit(s, request, t).1 == Waiting(t) ==> busy < 3
  {
    PlayKeeps(events);
    AdmissionByCapacity(s, busy, request, t, Admit(s, request, t).1);
  }

  lemma AdmissionByCapacity<R>(s: Runtime<R>, busy: nat, request: Request, t: TaskId, admission: Admission)
    requires Closed(s) && busy == |Active(s.entries, s.byProvider)| + |s.pending|
    requires admission == Admit(s, request, t).1
    ensures admission == AtCapacity ==> busy >= MAX_ACTIVE_CALLS
    ensures t !in s.tasks && admission == Waiting(t) ==> busy < MAX_ACTIVE_CALLS
  {}

  /** The key is registered, or its creation is pending, for this content. */
  ghost predicate KeyIsFor<R>(s: Runtime<R>, key: Key, content: Content)
    requires Closed(s)
  {
    || (key in s.byKey && s.entries[s.byKey[key]].request.content == content)
    || (key in s.pending && s.tasks[s.pending[key]].request.content == content)
  }

  ghost predicate KeyIsTaken<R>(s: Runtime<R>, key: Key) {
    key in s.byKey || key in s.pending
  }

  /** Some registered or pending creation is for the session. */
  ghost predicate SessionIsTaken<R>(s: Runtime<R>, session: Identifier) {
    session in s.bySession || session in s.pendingSessions
  }

  /** Every creation request has exactly one answer: a taken key gets its call or its task for the same content and a
      conflict for any other; a free key is refused for a taken session, then for want of room, and starts otherwise. */
  lemma AdmissionExactly<R>(events: seq<Event<R>>, s: Runtime<R>, request: Request, t: TaskId, busy: nat,
                            admission: Admission)
    requires s == Play(events) && t !in s.tasks && admission == Admit(s, request, t).1
    requires busy == |Active(s.entries, s.byProvider)| + |s.pending|
    ensures forall call :: admission == Existing(call) <==>
              request.key in s.byKey && KeyIsFor(s, request.key, request.content)
              && call == s.entries[s.byKey[request.key]].call
    ensures admission == Conflict <==> KeyIsTaken(s, request.key) && !KeyIsFor(s, request.key, request.content)
    ensures forall u :: u != t ==> (admission == Waiting(u) <==>
              request.key in s.pending && s.pending[request.key] == u && KeyIsFor(s, request.key, request.content))
    ensures admission == Unauthorized <==>
            !KeyIsTaken(s, request.key) && SessionIsTaken(s, request.content.session)
    ensures admission == AtCapacity <==>
            !KeyIsTaken(s, request.key) && !SessionIsTaken(s, request.content.session) && busy == 3
    ensures admission == Waiting(t) <==>
            !KeyIsTaken(s, request.key) && !SessionIsTaken(s, request.content.session) && busy < 3
    ensures admission != Waiting(t) ==> Admit(s, request, t).0 == s
  {
    if request.key in s.pending {
      PendingIsUnregistered(events, s, request.key);
    }
    NeverMoreThanThree(events, s, busy, request, t);
  }

  lemma PendingIsUnregistered<R>(events: seq<Event<R>>, s: Runtime<R>, key: Key)
    requires s == Play(events) && key in s.pending
    ensures key !in s.byKey && s.pending[key] in s.tasks
    ensures s.tasks[s.pending[key]].request.content.session !in s.bySession
  {
    PlayKeeps(events);
    assert PendingOk(s.pending, s.pendingSessions, s.tasks, s.byKey, key);
  }

  lemma SameRange<R>(s: Runtime<R>)
    requires Inv(s)
    ensures s.byProvider.Values == s.byKey.Values == s.bySession.Values
  {}

  /** The three indices hold the same entries; pending keys and sessions are not among the registered ones. */
  lemma IndicesAgree<R>(events: seq<Event<R>>, s: Runtime<R>)
    requires s == Play(events)
    ensures s.byProvider.Values == s.byKey.Values == s.bySession.Values
    ensures s.pending.Keys !! s.byKey.Keys && s.pendingSessions !! s.bySession.Keys
  {
    PlayKeeps(events);
    SameRange(s);
    forall k | k in s.pending
      ensures k !in s.byKey
    {
      assert PendingOk(s.pending, s.pendingSessions, s.tasks, s.byKey, k);
    }
  }

  /** Registration never overwrites an entry of any index. */
  lemma RegistrationIsFresh<R>(events: seq<Event<R>>, s: Runtime<R>, t: TaskId)
    requires s == Play(events) && t in s.tasks && s.tasks[t].progress.Calling?
    ensures s.tasks[t].request.key !in s.byKey && s.tasks[t].request.content.session !in s.bySession
  {
    PlayKeeps(events);
    assert TaskOk(s.pending, s.tasks, t);
    assert PendingOk(s.pending, s.pendingSessions, s.tasks, s.byKey, s.tasks[t].request.key);
  }

  // ---------- One gateway call, one result ----------

  /** At most one task per key is at work, so at most one call of the gateway; while it is, a request with the same key
      and content joins it and one with other content is refused, and neither changes anything. */
  lemma OneTaskPerKey<R>(events: seq<Event<R>>, s: Runtime<R>, t: TaskId, u: TaskId, request: Request, n: TaskId)
    requires s == Play(events)
    requires t in s.tasks && !s.tasks[t].progress.Ended? && request.key == s.tasks[t].request.key
    ensures u in s.tasks && !s.tasks[u].progress.Ended? && s.tasks[u].request.key == request.key ==> u == t
    ensures Admit(s, request, n) == (s, if request == s.tasks[t].request then Waiting(t) else Conflict)
  {
    PlayKeeps(events);
    assert TaskOk(s.pending, s.tasks, t);
    assert PendingOk(s.pending, s.pendingSessions, s.tasks, s.byKey, request.key);
    if u in s.tasks {
      assert TaskOk(s.pending, s.tasks, u);
    }
  }

  /** A call session has at most one creation at work, and none once it has a registered call. */
  lemma OneTaskPerSession<R>(events: seq<Event<R>>, s: Runtime<R>, t: TaskId, u: TaskId)
    requires s == Play(events)
    requires t in s.tasks && !s.tasks[t].progress.Ended? && u in s.tasks && !s.tasks[u].progress.Ended?
    requires s.tasks[t].request.content.session == s.tasks[u].request.content.session
    ensures t == u && s.tasks[t].request.content.session !in s.bySession
  {
    PlayKeeps(events);
    assert TaskOk(s.pending, s.tasks, t) && TaskOk(s.pending, s.tasks, u);
    assert PendingOk(s.pending, s.pendingSessions, s.tasks, s.byKey, s.tasks[t].request.key);
  }

  /** The call a task returned is the registered call of its key, which may have moved on since. */
  ghost predicate ResultKept<R>(entries: map<R, Entry>, byKey: map<Key, R>, task: Task) {
    task.progress.Ended? && task.progress.result.Ok? ==>
      && task.request.key in byKey && byKey[task.request.key] in entries
      && entries[byKey[task.request.key]].request == task.request
      && NotBehind(task.progress.result.value, entries[byKey[task.request.key]].call)
  }

  /** Entries stay under their keys, keep their requests, and their calls only move forward. */
  ghost predicate KeepsEntries<R>(entries: map<R, Entry>, byKey: map<Key, R>, entries': map<R, Entry>,
                                  byKey': map<Key, R>)
  {
    forall k :: k in byKey && byKey[k] in entries ==>
      && k in byKey' && byKey'[k] == byKey[k] && byKey[k] in entries'
      && entries'[byKey[k]].request == entries[byKey[k]].request
      && NotBehind(entries[byKey[k]].call, entries'[byKey[k]].call)
  }

  lemma KeepsInserted<R>(entries: map<R, Entry>, byKey: map<Key, R>, r: R, entry: Entry)
    requires r !in entries && entry.request.key !in byKey
    ensures KeepsEntries(entries, byKey, entries[r := entry], byKey[entry.request.key := r])
  {}

  /** What every step keeps: the entries with their consumed marks, and the result of the task `u`. */
  ghost predicate Advances<R>(s: Runtime<R>, s': Runtime<R>, u: TaskId) {
    && KeepsEntries(s.entries, s.byKey, s'.entries, s'.byKey)
    && (u in s'.tasks && (u !in s.tasks || s.tasks[u] != s'.tasks[u]) ==> ResultKept(s'.entries, s'.byKey, s'.tasks[u]))
    && (forall r :: r in s.entries ==> r in s'.entries && (s.entries[r].consumed ==> s'.entries[r].consumed))
  }

  lemma AdmitChanges<R>(s: Runtime<R>, request: Request, t: TaskId, s': Runtime<R>)
    requires Closed(s) && s' == Admit(s, request, t).0
    ensures s'.entries == s.entries && s'.byKey == s.byKey
    ensures s'.tasks == s.tasks || s'.tasks == s.tasks[t := Task(request, Calling)]
  {}

  lemma AdmitAdvances<R>(s: Runtime<R>, s': Runtime<R>, t: TaskId, request: Request, u: TaskId)
    requires s'.entries == s.entries && s'.byKey == s.byKey
    requires s'.tasks == s.tasks || s'.tasks == s.tasks[t := Task(request, Calling)]
    ensures Advances(s, s', u)
  {}

  lemma RegisterAdvances<R>(s: Runtime<R>, t: TaskId, call: Call, q: R, token: Token, s': Runtime<R>, u: TaskId)
    requires Inv(s) && t in s.tasks && s.tasks[t].progress.Calling? && q !in s.entries
    requires call.provider !in s.byProvider && s' == Register(s, t, call, q, token)
    ensures Advances(s, s', u)
  {
    var request := s.tasks[t].request;
    assert TaskOk(s.pending, s.tasks, t);
    assert PendingOk(s.pending, s.pendingSessions, s.tasks, s.byKey, request.key);
    KeepsInserted(s.entries, s.byKey, q, Entry(call, token, request, false, false));
  }

  lemma TaskAdvances<R>(s: Runtime<R>, t: TaskId, progress: Progress, s': Runtime<R>, u: TaskId)
    requires t in s.tasks && (progress.Ended? ==> progress.result.Err?)
    requires s' == SetTask(s, t, progress) || s' == DropPending(SetTask(s, t, progress), s.tasks[t].request)
    ensures Advances(s, s', u)
  {}

  lemma StatusAdvances<R>(s: Runtime<R>, event: StatusEvent, s': Runtime<R>, u: TaskId)
    requires Closed(s) && s' == BeginStatus(s, event)
    ensures Advances(s, s', u)
  {}

  lemma EntryAdvances<R>(s: Runtime<R>, q: R, entry: Entry, s': Runtime<R>, u: TaskId)
    requires q in s.entries && entry.request == s.entries[q].request && NotBehind(s.entries[q].call, entry.call)
    requires s.entries[q].consumed ==> entry.consumed
    requires s'.entries == s.entries[q := entry] && s'.byKey == s.byKey && s'.tasks == s.tasks
    ensures Advances(s, s', u)
  {}

  lemma EndStatusAdvances<R>(s: Runtime<R>, q: R, stored: bool, s': Runtime<R>, u: TaskId)
    requires Inv(s) && q in s.entries && q in s.updating && s' == EndStatus(s, q, stored)
    ensures Advances(s, s', u)
  {
    assert EntryOk(s.entries, s.updating, s.granted, q);
    var entry := if stored then s.entries[q].(call := s.updating[q]) else s.entries[q];
    assert !stored ==> s.entries[q := entry] == s.entries;
    EntryAdvances(s, q, entry, s', u);
  }

  lemma StreamAdvances<R>(s: Runtime<R>, provider: Identifier, token: Token, s': Runtime<R>, u: TaskId)
    requires Inv(s) && (s' == Claim(s, provider, token) || s' == Release(s, provider, token))
    ensures Advances(s, s', u)
  {
    if s' != s {
      var q := s.byProvider[provider];
      EntryAdvances(s, q, s'.entries[q], s', u);
    }
  }

  lemma StepAdvances<R>(s: Runtime<R>, event: Event<R>, s': Runtime<R>, u: TaskId)
    requires Inv(s) && Enabled(s, event) && s' == Step(s, event)
    ensures Advances(s, s', u)
  {
    match event
    case Create(request, t) =>
      AdmitChanges(s, request, t, s');
      AdmitAdvances(s, s', t, request, u);
    case GatewayReturned(t, call, q, token) =>
      if call.provider in s.byProvider {
        TaskAdvances(s, t, Failing(PROVIDER_ID_ACTIVE), s', u);
      } else {
        RegisterAdvances(s, t, call, q, token, s', u);
      }
    case GatewayRaised(t, error) => TaskAdvances(s, t, Failing(error), s', u);
    case CleanedUp(t) => TaskAdvances(s, t, Ended(Err(s.tasks[t].progress.error)), s', u);
    case Aborted(t, error) => TaskAdvances(s, t, Ended(Err(error)), s', u);
    case StatusBegun(e) => StatusAdvances(s, e, s', u);
    case StatusEnded(q, stored) => EndStatusAdvances(s, q, stored, s', u);
    case StreamClaimed(provider, token) => StreamAdvances(s, provider, token, s', u);
    case StreamFinished(provider, token) => StreamAdvances(s, provider, token, s', u);
  }

  lemma AdvanceKeepsResult<R>(s: Runtime<R>, s': Runtime<R>, t: TaskId)
    requires Advances(s, s', t) && t in s'.tasks
    requires t in s.tasks ==> ResultKept(s.entries, s.byKey, s.tasks[t])
    ensures ResultKept(s'.entries, s'.byKey, s'.tasks[t])
  {}

  lemma {:induction false} ResultsKept<R>(events: seq<Event<R>>, s: Runtime<R>, t: TaskId)
    requires s == Play(events) && t in s.tasks
    ensures ResultKept(s.entries, s.byKey, s.tasks[t])
  {
    PlayKeeps(events);
    if events != [] {
      PlayKeeps(events[..|events| - 1]);
      var before := Play(events[..|events| - 1]);
      var event := events[|events| - 1];
      if t in before.tasks {
        ResultsKept(events[..|events| - 1], before, t);
      }
      if Enabled(before, event) {
        StepAdvances(before, event, s, t);
        AdvanceKeepsResult(before, s, t);
      }
    }
  }

  /** After a creation succeeded, every request with its key and content gets that same call, in its current state, and
      every other request with its key is refused. */
  lemma RepeatsGetTheSameCall<R>(events: seq<Event<R>>, s: Runtime<R>, t: TaskId, request: Request, n: TaskId)
    requires s == Play(events)
    requires t in s.tasks && s.tasks[t].progress.Ended? && s.tasks[t].progress.result.Ok?
    requires request.key == s.tasks[t].request.key
    ensures Admit(s, request, n).0 == s
    ensures request != s.tasks[t].request ==> Admit(s, request, n).1 == Conflict
    ensures var admission := Admit(s, request, n).1;
      request == s.tasks[t].request ==>
        admission.Existing? && NotBehind(s.tasks[t].progress.result.value, admission.call)
  {
    PlayKeeps(events);
    ResultsKept(events, s, t);
  }

  // ---------- Streams ----------

  /** Each entry yields its stream binding at most once over its whole life: an entry that yields it now has not done so
      before and is marked for ever. */
  lemma BindingYieldedOnce<R>(events: seq<Event<R>>, s: Runtime<R>, provider: Identifier, token: Token, i: nat, j: nat)
    requires s == Play(events)
    ensures i < j < |s.granted| ==> s.granted[i] != s.granted[j]
    ensures var yielded := Claimed(s, provider, token);
      yielded.Some? ==> yielded.value !in s.granted && Claim(s, provider, token).granted == s.granted + [yielded.value]
  {
    PlayKeeps(events);
    var yielded := Claimed(s, provider, token);
    if yielded.Some? {
      assert EntryOk(s.entries, s.updating, s.granted, yielded.value);
    }
  }

  /** A stream gets the binding of an entry exactly when it names the provider id and the token that the entry is
      registered with, the call is not over, and the binding was never yielded before. */
  lemma ClaimedExactly<R>(events: seq<Event<R>>, s: Runtime<R>, provider: Identifier, token: Token, r: R)
    requires s == Play(events)
    ensures Claimed(s, provider, token) == Some(r) <==>
            provider in s.byProvider && s.byProvider[provider] == r && s.entries[r].token == token
            && !s.entries[r].call.status.Terminal() && r !in s.granted
    ensures Claimed(s, provider, token) == Some(r) ==>
      var entry := Claim(s, provider, token).entries[r];
      entry.claimed && entry.consumed && entry == s.entries[r].(claimed := true, consumed := true)
  {
    PlayKeeps(events);
    if provider in s.byProvider {
      assert EntryOk(s.entries, s.updating, s.granted, s.byProvider[provider]);
    }
  }

  /** What an entry is registered with stays. */
  ghost predicate SameEntry<R>(s: Runtime<R>, s': Runtime<R>, r: R) {
    && r in s.entries && r in s'.entries && s'.entries[r].token == s.entries[r].token
    && s'.entries[r].call.provider == s.entries[r].call.provider
  }

  lemma AdmitKeepsEntry<R>(s: Runtime<R>, request: Request, t: TaskId, s': Runtime<R>, r: R)
    requires Closed(s) && s' == Admit(s, request, t).0 && r in s.entries
    ensures SameEntry(s, s', r) && s'.entries == s.entries
  {}

  lemma RegisterKeepsEntry<R>(s: Runtime<R>, t: TaskId, call: Call, q: R, token: Token, s': Runtime<R>, r: R)
    requires t in s.tasks && q !in s.entries && s' == Register(s, t, call, q, token)
    ensures r in s.entries ==> SameEntry(s, s', r)
    ensures r in s'.entries && r !in s.entries ==>
      r == q && s'.entries[r].token == token && s'.entries[r].call == call && call.provider !in s.byProvider
  {}

  lemma EndStatusKeepsEntry<R>(s: Runtime<R>, q: R, stored: bool, s': Runtime<R>, r: R)
    requires Inv(s) && q in s.entries && q in s.updating && s' == EndStatus(s, q, stored) && r in s.entries
    ensures SameEntry(s, s', r)
  {
    assert EntryOk(s.entries, s.updating, s.granted, q);
  }

  lemma StreamKeepsEntry<R>(s: Runtime<R>, provider: Identifier, token: Token, s': Runtime<R>, r: R)
    requires Closed(s) && (s' == Claim(s, provider, token) || s' == Release(s, provider, token)) && r in s.entries
    ensures SameEntry(s, s', r)
  {}

  lemma StepKeepsEntry<R>(s: Runtime<R>, event: Event<R>, s': Runtime<R>, r: R)
    requires Inv(s) && Enabled(s, event) && s' == Step(s, event) && r in s.entries
    ensures SameEntry(s, s', r)
  {
    match event
    case Create(request, t) => AdmitKeepsEntry(s, request, t, s', r);
    case GatewayReturned(t, call, q, token) => RegisterKeepsEntry(s, t, call, q, token, s', r);
    case StatusEnded(q, stored) => EndStatusKeepsEntry(s, q, stored, s', r);
    case StreamClaimed(provider, token) => StreamKeepsEntry(s, provider, token, s', r);
    case StreamFinished(provider, token) => StreamKeepsEntry(s, provider, token, s', r);
    case _ =>
  }

  lemma OnlyRegisteringAdds<R>(s: Runtime<R>, event: Event<R>, s': Runtime<R>, r: R)
    requires Closed(s) && Enabled(s, event) && s' == Step(s, event) && r !in s.entries && r in s'.entries
    requires r in s.updating ==> r in s.entries
    ensures event.GatewayReturned? && event.r == r && s'.entries[r].token == event.token
    ensures s'.entries[r].call == event.call && event.call.provider !in s.byProvider
  {
    match event
    case Create(request, t) => AdmitChanges(s, request, t, s');
    case GatewayReturned(t, call, q, token) => RegisterKeepsEntry(s, t, call, q, token, s', r);
    case _ =>
  }

  /** At this step the gateway's call is registered as the entry `r`, with this token. */
  ghost predicate RegisteredAt<R>(events: seq<Event<R>>, i: int, r: R, provider: Identifier, token: Token) {
    && 0 <= i < |events| && events[i].GatewayReturned? && Enabled(Play(events[..i]), events[i])
    && events[i].r == r && events[i].token == token && events[i].call.provider == provider
    && provider !in Play(events[..i]).byProvider
  }

  /** At this step a stream that names the provider id and the token gets the binding of `r`. */
  ghost predicate GrantedAt<R>(events: seq<Event<R>>, j: int, r: R, provider: Identifier, token: Token) {
    && 0 <= j < |events| && events[j] == StreamClaimed(provider, token)
    && Claimed(Play(events[..j]), provider, token) == Some(r)
  }

  /** Every entry was registered, with the token and the provider id that it has. */
  lemma {:induction false} EntryWasRegistered<R>(events: seq<Event<R>>, s: Runtime<R>, r: R) returns (i: int)
    requires s == Play(events) && r in s.entries
    ensures RegisteredAt(events, i, r, s.entries[r].call.provider, s.entries[r].token)
  {
    var earlier, last := events[..|events| - 1], events[|events| - 1];
    var before := Play(earlier);
    PlayKeeps(earlier);
    if r in before.entries {
      if Enabled(before, last) {
        StepKeepsEntry(before, last, s, r);
      }
      i := EntryWasRegistered(earlier, before, r);
      assert events[..i] == earlier[..i];
    } else {
      OnlyRegisteringAdds(before, last, s, r);
      i := |events| - 1;
    }
  }

  lemma GrantStep<R>(s: Runtime<R>, event: Event<R>, s': Runtime<R>)
    requires Closed(s) && Enabled(s, event) && s' == Step(s, event)
    ensures s'.granted == s.granted
         || (event.StreamClaimed? && Claimed(s, event.provider, event.token).Some?
             && s'.granted == s.granted + [Claimed(s, event.provider, event.token).value])
  {}

  lemma {:induction false} WasGrantedAt<R>(events: seq<Event<R>>, s: Runtime<R>, k: nat)
    returns (j: int, provider: Identifier, token: Token)
    requires s == Play(events) && k < |s.granted|
    ensures GrantedAt(events, j, s.granted[k], provider, token)
  {
    var earlier, last := events[..|events| - 1], events[|events| - 1];
    var before := Play(earlier);
    if k < |before.granted| {
      if Enabled(before, last) {
        GrantStep(before, last, s);
      }
      j, provider, token := WasGrantedAt(earlier, before, k);
      assert events[..j] == earlier[..j];
    } else {
      GrantStep(before, last, s);
      j, provider, token := |events| - 1, last.provider, last.token;
    }
  }

  /** Over every run, whoever got a binding named the provider id and the token that its entry was registered with, and
      did so after the registration. */
  lemma GrantedToItsToken<R>(events: seq<Event<R>>, s: Runtime<R>, k: nat)
    returns (i: int, j: int, provider: Identifier, token: Token)
    requires s == Play(events) && k < |s.granted|
    ensures i < j && RegisteredAt(events, i, s.granted[k], provider, token)
    ensures GrantedAt(events, j, s.granted[k], provider, token)
  {
    j, provider, token := WasGrantedAt(events, s, k);
    var before := Play(events[..j]);
    PlayKeeps(events[..j]);
    i := EntryWasRegistered(events[..j], before, s.granted[k]);
    assert events[..j][..i] == events[..i];
  }

  lemma AdmitKeepsClaim<R>(s: Runtime<R>, request: Request, t: TaskId, s': Runtime<R>)
    requires Closed(s) && s' == Admit(s, request, t).0
    ensures s'.entries == s.entries
  {}

  lemma OtherKeepsClaim<R>(s: Runtime<R>, event: Event<R>, s': Runtime<R>, r: R)
    requires Closed(s) && Enabled(s, event) && s' == Step(s, event) && r in s.entries && s.entries[r].claimed
    requires !event.StreamFinished?
    ensures r in s'.entries && s'.entries[r].claimed
  {
    if event.Create? {
      AdmitKeepsClaim(s, event.request, event.t, s');
    }
  }

  lemma ProvidersDiffer<R>(s: Runtime<R>, q: Identifier, p: Identifier)
    requires Inv(s) && p in s.byProvider && q in s.byProvider && q != p
    ensures s.byProvider[q] != s.byProvider[p]
  {}

  lemma ReleaseEndsClaim<R>(s: Runtime<R>, provider: Identifier, token: Token, s': Runtime<R>, p: Identifier)
    requires Closed(s) && s' == Release(s, provider, token) && p in s.byProvider && s.entries[s.byProvider[p]].claimed
    requires provider in s.byProvider && provider != p ==> s.byProvider[provider] != s.byProvider[p]
    ensures s.byProvider[p] in s'.entries
    ensures s'.entries[s.byProvider[p]].claimed <==> !(provider == p && token == s.entries[s.byProvider[p]].token)
  {}

  /** A claim lasts until exactly the end of a stream with the provider id and the token of its entry. */
  lemma ClaimLastsExactly<R>(events: seq<Event<R>>, s: Runtime<R>, event: Event<R>, p: Identifier, s': Runtime<R>)
    requires s == Play(events) && Enabled(s, event) && s' == Step(s, event)
    requires p in s.byProvider && s.entries[s.byProvider[p]].claimed
    ensures s.byProvider[p] in s'.entries
    ensures s'.entries[s.byProvider[p]].claimed <==> event != StreamFinished(p, s.entries[s.byProvider[p]].token)
  {
    PlayKeeps(events);
    if event.StreamFinished? {
      if event.provider in s.byProvider && event.provider != p {
        ProvidersDiffer(s, event.provider, p);
      }
      ReleaseEndsClaim(s, event.provider, event.token, s', p);
    } else {
      OtherKeepsClaim(s, event, s', s.byProvider[p]);
    }
  }

  /** A claimed entry is consumed, and consumption is never undone. */
  lemma ConsumedForEver<R>(s: Runtime<R>, event: Event<R>, s': Runtime<R>, r: R)
    requires Inv(s) && Enabled(s, event) && s' == Step(s, event) && r in s.entries
    ensures s.entries[r].claimed ==> s.entries[r].consumed
    ensures r in s'.entries && (s.entries[r].consumed ==> s'.entries[r].consumed)
  {
    assert EntryOk(s.entries, s.updating, s.granted, r);
    StepAdvances(s, event, s', 0);
  }
}
