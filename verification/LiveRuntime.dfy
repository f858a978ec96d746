/**
 The in-memory runtime above the gateway: three indices over the live calls, a table of pending creations, and the
 claims of their media streams. One function per block that runs under the runtime's lock; whatever may happen between
 two such blocks is a choice of the adversary. `R` stands for a reference to a runtime entry.
 */
module LiveRuntime {
  import opened Wrappers
  import opened OutboundCalls
  import Sets

  type Key = nat
  type TaskId = nat
  type Token = nat
  type Failure = nat

  const MAX_ACTIVE_CALLS := 3

  /** What a request asks for, without its key; the fingerprint is injective in it. */
  datatype Content = Content(session: Identifier, details: nat)

  datatype Request = Request(key: Key, content: Content)

  datatype Entry = Entry(call: Call, token: Token, request: Request, claimed: bool, consumed: bool)

  /** A creation under way: calling the gateway, on its way to clean up after an exception, or ended. */
  datatype Progress = Calling | Failing(error: Failure) | Ended(result: Result<Call, Failure>)

  datatype Task = Task(request: Request, progress: Progress)

  datatype Runtime<R(==)> = Runtime(
    entries: map<R, Entry>,
    byProvider: map<Identifier, R>, byKey: map<Key, R>, bySession: map<Identifier, R>,
    pending: map<Key, TaskId>, pendingSessions: set<Identifier>,
    tasks: map<TaskId, Task>,
    updating: map<R, Call>,
    granted: seq<R>)

  datatype Admission = Existing(call: Call) | Conflict | Unauthorized | AtCapacity | Waiting(task: TaskId)

  /** The registered calls that are not over, by provider id. */
  function Active<R>(entries: map<R, Entry>, byProvider: map<Identifier, R>): set<Identifier>
    requires forall p :: p in byProvider ==> byProvider[p] in entries
  {
    set p | p in byProvider && !entries[byProvider[p]].call.status.Terminal()
  }

  // ---------- Creating a call ----------

  ghost predicate Closed<R>(s: Runtime<R>) {
    && (forall p :: p in s.byProvider ==> s.byProvider[p] in s.entries)
    && (forall k :: k in s.byKey ==> s.byKey[k] in s.entries)
    && (forall k :: k in s.pending ==> s.pending[k] in s.tasks)
  }

  /** The decision of one creation request, unless it is the first of its key and may start. */
  function Answer<R>(s: Runtime<R>, request: Request): Option<Admission>
    requires Closed(s)
  {
    var key, session := request.key, request.content.session;
    if key in s.byKey then
      var entry := s.entries[s.byKey[key]];
      Some(if entry.request.content == request.content then Existing(entry.call) else Conflict)
    else if key in s.pending && s.tasks[s.pending[key]].request.content != request.content then Some(Conflict)
    else if session in s.bySession then Some(Unauthorized)
    else if key in s.pending then Some(Waiting(s.pending[key]))
    else if session in s.pendingSessions then Some(Unauthorized)
    else if |Active(s.entries, s.byProvider)| + |s.pending| >= MAX_ACTIVE_CALLS then Some(AtCapacity)
    else None
  }

  /** A creation request; `t` is the task it starts when it is the first of its key. */
  function Admit<R>(s: Runtime<R>, request: Request, t: TaskId): (Runtime<R>, Admission)
    requires Closed(s)
  {
    match Answer(s, request)
    case Some(admission) => (s, admission)
    case None =>
      (s.(tasks := s.tasks[t := Task(request, Calling)], pending := s.pending[request.key := t],
          pendingSessions := s.pendingSessions + {request.content.session}),
       Waiting(t))
  }

  function SetTask<R>(s: Runtime<R>, t: TaskId, progress: Progress): Runtime<R>
    requires t in s.tasks
  {
    s.(tasks := s.tasks[t := s.tasks[t].(progress := progress)])
  }

  function DropPending<R>(s: Runtime<R>, request: Request): Runtime<R> {
    s.(pending := s.pending - {request.key}, pendingSessions := s.pendingSessions - {request.content.session})
  }

  const PROVIDER_ID_ACTIVE: Failure := 0

  /** The gateway returned a call: register it under its three identifiers, as the new entry `r`. */
  function Register<R>(s: Runtime<R>, t: TaskId, call: Call, r: R, token: Token): Runtime<R>
    requires t in s.tasks
  {
    var request := s.tasks[t].request;
    if call.provider in s.byProvider then SetTask(s, t, Failing(PROVIDER_ID_ACTIVE))
    else
      s.(tasks := s.tasks[t := Task(request, Ended(Ok(call)))],
         entries := s.entries[r := Entry(call, token, request, false, false)],
         byProvider := s.byProvider[call.provider := r],
         byKey := s.byKey[request.key := r],
         bySession := s.bySession[request.content.session := r],
         pending := s.pending - {request.key},
         pendingSessions := s.pendingSessions - {request.content.session})
  }

  function CleanUp<R>(s: Runtime<R>, t: TaskId): Runtime<R>
    requires t in s.tasks && s.tasks[t].progress.Failing?
  {
    DropPending(SetTask(s, t, Ended(Err(s.tasks[t].progress.error))), s.tasks[t].request)
  }

  // ---------- Status callbacks, one at a time per entry ----------

  function SetUpdating<R>(s: Runtime<R>, r: R, updated: Call): Runtime<R> {
    s.(updating := s.updating[r := updated])
  }

  /** A callback looks up its call and, unless none is registered, takes the status lock of the entry and computes the
      new call, which is written through before it becomes visible. Entries stay where they are found, so the lookup
      and the lock are one step here. */
  function BeginStatus<R>(s: Runtime<R>, event: StatusEvent): Runtime<R>
    requires Closed(s)
  {
    if event.provider !in s.byProvider then s
    else
      var r := s.byProvider[event.provider];
      match ApplyStatusEvent(s.entries[r].call, event)
      case Ok(updated) => SetUpdating(s, r, updated)
      case Err(_) => s
  }

  function EndStatus<R>(s: Runtime<R>, r: R, stored: bool): Runtime<R>
    requires r in s.entries && r in s.updating
  {
    var entries := if stored then s.entries[r := s.entries[r].(call := s.updating[r])] else s.entries;
    s.(entries := entries, updating := s.updating - {r})
  }

  // ---------- Media streams ----------

  /** The entry whose binding the stream gets, if it gets one. */
  function Claimed<R>(s: Runtime<R>, provider: Identifier, token: Token): Option<R>
    requires Closed(s)
  {
    if provider !in s.byProvider then None
    else
      var entry := s.entries[s.byProvider[provider]];
      if entry.token != token || entry.call.status.Terminal() || entry.claimed || entry.consumed then None
      else Some(s.byProvider[provider])
  }

  function Grant<R>(s: Runtime<R>, r: R): Runtime<R>
    requires r in s.entries
  {
    s.(entries := s.entries[r := s.entries[r].(claimed := true, consumed := true)], granted := s.granted + [r])
  }

  function Claim<R>(s: Runtime<R>, provider: Identifier, token: Token): Runtime<R>
    requires Closed(s)
  {
    match Claimed(s, provider, token)
    case None => s
    case Some(r) => Grant(s, r)
  }

  /** The end of a stream releases the claim of the entry that still has its binding. */
  function Release<R>(s: Runtime<R>, provider: Identifier, token: Token): Runtime<R>
    requires Closed(s)
  {
    if provider in s.byProvider && s.entries[s.byProvider[provider]].token == token then
      var r := s.byProvider[provider];
      s.(entries := s.entries[r := s.entries[r].(claimed := false)])
    else s
  }

  // ---------- The invariant ----------

  /** The entry `r` is found under each of its three identifiers. */
  ghost predicate Found<R>(entries: map<R, Entry>, byProvider: map<Identifier, R>, byKey: map<Key, R>,
                           bySession: map<Identifier, R>, r: R)
  {
    && r in entries
    && entries[r].call.provider in byProvider && byProvider[entries[r].call.provider] == r
    && entries[r].request.key in byKey && byKey[entries[r].request.key] == r
    && entries[r].request.content.session in bySession && bySession[entries[r].request.content.session] == r
  }

  /** The three indices hold the same entries, each under its own identifiers. */
  ghost predicate Indexed<R>(entries: map<R, Entry>, byProvider: map<Identifier, R>, byKey: map<Key, R>,
                             bySession: map<Identifier, R>)
  {
    && (forall p :: p in byProvider ==>
          Found(entries, byProvider, byKey, bySession, byProvider[p]) && entries[byProvider[p]].call.provider == p)
    && (forall k :: k in byKey ==>
          Found(entries, byProvider, byKey, bySession, byKey[k]) && entries[byKey[k]].request.key == k)
    && (forall x :: x in bySession ==>
          Found(entries, byProvider, byKey, bySession, bySession[x])
          && entries[bySession[x]].request.content.session == x)
  }

  /** The task a pending key waits for is for that key, its session is marked, and neither is registered. */
  ghost predicate PendingOk<R>(pending: map<Key, TaskId>, sessions: set<Identifier>, tasks: map<TaskId, Task>,
                               byKey: map<Key, R>, k: Key)
    requires k in pending
  {
    && k !in byKey && pending[k] in tasks && tasks[pending[k]].request.key == k
    && tasks[pending[k]].request.content.session in sessions
  }

  /** A task at work is the one its key waits for. */
  ghost predicate TaskOk(pending: map<Key, TaskId>, tasks: map<TaskId, Task>, t: TaskId)
    requires t in tasks
  {
    tasks[t].progress.Ended? || (tasks[t].request.key in pending && pending[tasks[t].request.key] == t)
  }

  /** No two pending creations share a session. */
  ghost predicate SessionsDiffer(pending: map<Key, TaskId>, tasks: map<TaskId, Task>) {
    forall j, k :: j in pending && k in pending && j != k && pending[j] in tasks && pending[k] in tasks ==>
      tasks[pending[j]].request.content.session != tasks[pending[k]].request.content.session
  }

  ghost predicate Waiters<R>(pending: map<Key, TaskId>, sessions: set<Identifier>, tasks: map<TaskId, Task>,
                             byKey: map<Key, R>, bySession: map<Identifier, R>)
  {
    && (forall k :: k in pending ==> PendingOk(pending, sessions, tasks, byKey, k))
    && (forall t :: t in tasks ==> TaskOk(pending, tasks, t))
    && (forall x :: x in sessions ==> x !in bySession)
    && SessionsDiffer(pending, tasks)
  }

  /** What a callback can make of a call; one that is full stays as it is. */
  ghost predicate MayBecome(call: Call, updated: Call) {
    updated.Valid() && NotBehind(call, updated) && (|call.processed| == MAX_PROCESSED_EVENTS ==> updated == call)
  }

  ghost predicate EntryOk<R>(entries: map<R, Entry>, updating: map<R, Call>, granted: seq<R>, r: R)
    requires r in entries
  {
    && entries[r].call.Valid()
    && (entries[r].claimed ==> entries[r].consumed)
    && (entries[r].consumed <==> r in granted)
    && (r in updating ==> MayBecome(entries[r].call, updating[r]))
  }

  ghost predicate Streams<R>(entries: map<R, Entry>, updating: map<R, Call>, granted: seq<R>) {
    && (forall r :: r in entries ==> EntryOk(entries, updating, granted, r))
    && (forall r :: r in updating ==> r in entries)
    && (forall r :: r in granted ==> r in entries)
    && (forall i, j :: 0 <= i < j < |granted| ==> granted[i] != granted[j])
  }

  ghost predicate Inv<R>(s: Runtime<R>) {
    && Closed(s)
    && Indexed(s.entries, s.byProvider, s.byKey, s.bySession)
    && Waiters(s.pending, s.pendingSessions, s.tasks, s.byKey, s.bySession)
    && Streams(s.entries, s.updating, s.granted)
    && |Active(s.entries, s.byProvider)| + |s.pending| <= MAX_ACTIVE_CALLS
  }

  // ---------- No dangling references ----------

  lemma AdmitCloses<R>(s: Runtime<R>, request: Request, t: TaskId, s': Runtime<R>)
    requires Closed(s) && s' == Admit(s, request, t).0
    ensures Closed(s')
  {}

  lemma RegisterCloses<R>(s: Runtime<R>, t: TaskId, call: Call, r: R, token: Token, s': Runtime<R>)
    requires Closed(s) && t in s.tasks && s' == Register(s, t, call, r, token)
    ensures Closed(s')
  {}

  // ---------- Counting ----------

  /** Registering one call adds at most one active call. */
  lemma ActiveGrows<R>(entries: map<R, Entry>, byProvider: map<Identifier, R>, r: R, entry: Entry)
    requires r !in entries && (forall p :: p in byProvider ==> byProvider[p] in entries)
    ensures |Active(entries[r := entry], byProvider[entry.call.provider := r])| <= |Active(entries, byProvider)| + 1
  {
    var p := entry.call.provider;
    assert Active(entries[r := entry], byProvider[p := r]) <= Active(entries, byProvider) + {p};
    Sets.SubsetSize(Active(entries[r := entry], byProvider[p := r]), Active(entries, byProvider) + {p});
  }

  /** No change of an entry makes a call active again. */
  lemma ActiveShrinks<R>(entries: map<R, Entry>, byProvider: map<Identifier, R>, r: R, entry: Entry)
    requires r in entries && (forall p :: p in byProvider ==> byProvider[p] in entries)
    requires entries[r].call.status.Terminal() ==> entry.call.status.Terminal()
    ensures |Active(entries[r := entry], byProvider)| <= |Active(entries, byProvider)|
  {
    Sets.SubsetSize(Active(entries[r := entry], byProvider), Active(entries, byProvider));
  }

  // ---------- Changes to one part ----------

  lemma IndexEntry<R>(entries: map<R, Entry>, byProvider: map<Identifier, R>, byKey: map<Key, R>,
                      bySession: map<Identifier, R>, r: R, entry: Entry)
    requires Indexed(entries, byProvider, byKey, bySession) && r !in entries
    requires entry.call.provider !in byProvider && entry.request.key !in byKey
    requires entry.request.content.session !in bySession
    ensures Indexed(entries[r := entry], byProvider[entry.call.provider := r], byKey[entry.request.key := r],
                    bySession[entry.request.content.session := r])
  {}

  lemma ReplaceEntry<R>(entries: map<R, Entry>, byProvider: map<Identifier, R>, byKey: map<Key, R>,
                        bySession: map<Identifier, R>, r: R, entry: Entry)
    requires Indexed(entries, byProvider, byKey, bySession) && r in entries
    requires entry.call.provider == entries[r].call.provider && entry.request == entries[r].request
    ensures Indexed(entries[r := entry], byProvider, byKey, bySession)
  {}

  lemma AddWaiter<R>(pending: map<Key, TaskId>, sessions: set<Identifier>, tasks: map<TaskId, Task>, byKey: map<Key, R>,
                     bySession: map<Identifier, R>, t: TaskId, request: Request)
    requires Waiters(pending, sessions, tasks, byKey, bySession) && t !in tasks
    requires request.key !in pending && request.key !in byKey
    requires request.content.session !in sessions && request.content.session !in bySession
    ensures Waiters(pending[request.key := t], sessions + {request.content.session}, tasks[t := Task(request, Calling)],
                    byKey, bySession)
  {}

  lemma MoveTask<R>(pending: map<Key, TaskId>, sessions: set<Identifier>, tasks: map<TaskId, Task>, byKey: map<Key, R>,
                    bySession: map<Identifier, R>, t: TaskId, progress: Progress)
    requires Waiters(pending, sessions, tasks, byKey, bySession) && t in tasks && !tasks[t].progress.Ended?
    ensures Waiters(pending, sessions, tasks[t := tasks[t].(progress := progress)], byKey, bySession)
  {}

  /** The end of the task `t` that its key waits for. */
  lemma DropWaiter<R>(pending: map<Key, TaskId>, sessions: set<Identifier>, tasks: map<TaskId, Task>,
                      byKey: map<Key, R>, bySession: map<Identifier, R>, t: TaskId)
    requires Waiters(pending, sessions, tasks, byKey, bySession) && t in tasks
    requires tasks[t].request.key in pending && pending[tasks[t].request.key] == t && tasks[t].progress.Ended?
    ensures Waiters(pending - {tasks[t].request.key}, sessions - {tasks[t].request.content.session}, tasks, byKey,
                    bySession)
  {}

  lemma RegisterWaiter<R>(pending: map<Key, TaskId>, sessions: set<Identifier>, tasks: map<TaskId, Task>,
                          byKey: map<Key, R>, bySession: map<Identifier, R>, key: Key, session: Identifier, r: R)
    requires Waiters(pending, sessions, tasks, byKey, bySession) && key !in pending && session !in sessions
    ensures Waiters(pending, sessions, tasks, byKey[key := r], bySession[session := r])
  {}

  lemma EntryChanges<R>(entries: map<R, Entry>, updating: map<R, Call>, granted: seq<R>, r: R, entry: Entry,
                        updating': map<R, Call>, granted': seq<R>)
    requires Streams(entries, updating, granted)
    requires forall q :: q in updating' ==> q == r || q in updating
    requires forall q :: q != r && q in updating ==> q in updating' && updating'[q] == updating[q]
    requires forall q :: q in granted' ==> q == r || q in granted
    requires forall q :: q in granted && q != r ==> q in granted'
    requires forall i, j :: 0 <= i < j < |granted'| ==> granted'[i] != granted'[j]
    requires EntryOk(entries[r := entry], updating', granted', r)
    ensures Streams(entries[r := entry], updating', granted')
  {}

  // ---------- Each block keeps the invariant ----------

  lemma Assemble<R>(s: Runtime<R>)
    requires Closed(s) && Indexed(s.entries, s.byProvider, s.byKey, s.bySession)
    requires Waiters(s.pending, s.pendingSessions, s.tasks, s.byKey, s.bySession)
    requires Streams(s.entries, s.updating, s.granted)
    requires |Active(s.entries, s.byProvider)| + |s.pending| <= MAX_ACTIVE_CALLS
    ensures Inv(s)
  {}

  lemma AdmitKeeps<R>(s: Runtime<R>, request: Request, t: TaskId)
    requires Inv(s) && t !in s.tasks
    ensures Inv(Admit(s, request, t).0)
  {
    if Answer(s, request).None? {
      AddWaiter(s.pending, s.pendingSessions, s.tasks, s.byKey, s.bySession, t, request);
      assert |s.pending[request.key := t]| == |s.pending| + 1;
    }
  }

  lemma FailKeeps<R>(s: Runtime<R>, t: TaskId, progress: Progress)
    requires Inv(s) && t in s.tasks && !s.tasks[t].progress.Ended?
    ensures Inv(SetTask(s, t, progress))
  {
    MoveTask(s.pending, s.pendingSessions, s.tasks, s.byKey, s.bySession, t, progress);
  }

  lemma EndTask<R>(s: Runtime<R>, t: TaskId, result: Result<Call, Failure>)
    requires Inv(s) && t in s.tasks && !s.tasks[t].progress.Ended?
    ensures Inv(DropPending(SetTask(s, t, Ended(result)), s.tasks[t].request))
    ensures |s.pending - {s.tasks[t].request.key}| == |s.pending| - 1
  {
    var key := s.tasks[t].request.key;
    assert TaskOk(s.pending, s.tasks, t);
    MoveTask(s.pending, s.pendingSessions, s.tasks, s.byKey, s.bySession, t, Ended(result));
    DropWaiter(s.pending, s.pendingSessions, SetTask(s, t, Ended(result)).tasks, s.byKey, s.bySession, t);
    assert s.pending == (s.pending - {key})[key := t];
  }

  lemma CleanUpKeeps<R>(s: Runtime<R>, t: TaskId)
    requires Inv(s) && t in s.tasks && s.tasks[t].progress.Failing?
    ensures Inv(CleanUp(s, t))
  {
    EndTask(s, t, Err(s.tasks[t].progress.error));
  }

  lemma RegisterKeeps<R>(s: Runtime<R>, t: TaskId, call: Call, r: R, token: Token)
    requires Inv(s) && t in s.tasks && s.tasks[t].progress.Calling? && r !in s.entries && call.Valid()
    ensures Inv(Register(s, t, call, r, token))
  {
    var request := s.tasks[t].request;
    if call.provider in s.byProvider {
      FailKeeps(s, t, Failing(PROVIDER_ID_ACTIVE));
    } else {
      assert TaskOk(s.pending, s.tasks, t) && PendingOk(s.pending, s.pendingSessions, s.tasks, s.byKey, request.key);
      EndTask(s, t, Ok(call));
      RegisterEnded(s, DropPending(SetTask(s, t, Ended(Ok(call))), request), request, call, r, token);
    }
  }

  function Insert<R>(s: Runtime<R>, r: R, entry: Entry): Runtime<R> {
    s.(entries := s.entries[r := entry],
       byProvider := s.byProvider[entry.call.provider := r],
       byKey := s.byKey[entry.request.key := r],
       bySession := s.bySession[entry.request.content.session := r])
  }

  lemma RegisterEnded<R>(s: Runtime<R>, ended: Runtime<R>, request: Request, call: Call, r: R, token: Token)
    requires Inv(s) && Inv(ended) && r !in ended.entries && call.Valid()
    requires ended == s.(tasks := ended.tasks, pending := ended.pending, pendingSessions := ended.pendingSessions)
    requires |ended.pending| == |s.pending| - 1
    requires call.provider !in s.byProvider && request.key !in s.byKey && request.content.session !in s.bySession
    requires request.key !in ended.pending && request.content.session !in ended.pendingSessions
    ensures Inv(Insert(ended, r, Entry(call, token, request, false, false)))
  {
    var entry := Entry(call, token, request, false, false);
    IndexEntry(ended.entries, ended.byProvider, ended.byKey, ended.bySession, r, entry);
    RegisterWaiter(ended.pending, ended.pendingSessions, ended.tasks, ended.byKey, ended.bySession, request.key,
                   request.content.session, r);
    ActiveGrows(s.entries, s.byProvider, r, entry);
    EntryChanges(s.entries, s.updating, s.granted, r, entry, s.updating, s.granted);
    Assemble(Insert(ended, r, entry));
  }

  lemma BeginStatusKeeps<R>(s: Runtime<R>, event: StatusEvent)
    requires Inv(s) && (event.provider in s.byProvider ==> s.byProvider[event.provider] !in s.updating)
    ensures Inv(BeginStatus(s, event))
  {
    if event.provider in s.byProvider {
      var r := s.byProvider[event.provider];
      assert EntryOk(s.entries, s.updating, s.granted, r);
      LockKeeps(s, r, event);
    }
  }

  lemma LockKeeps<R>(s: Runtime<R>, r: R, event: StatusEvent)
    requires Inv(s) && r in s.entries && r !in s.updating
    ensures ApplyStatusEvent(s.entries[r].call, event).Ok? ==>
      Inv(SetUpdating(s, r, ApplyStatusEvent(s.entries[r].call, event).value))
  {
    assert EntryOk(s.entries, s.updating, s.granted, r);
    DeliverAdvances(s.entries[r].call, event);
    if ApplyStatusEvent(s.entries[r].call, event).Ok? {
      assert s.entries[r := s.entries[r]] == s.entries;
      EntryChanges(s.entries, s.updating, s.granted, r, s.entries[r],
                   s.updating[r := Deliver(s.entries[r].call, event)], s.granted);
    }
  }

  lemma EntryKeeps<R>(s: Runtime<R>, r: R, entry: Entry, updating: map<R, Call>, granted: seq<R>)
    requires Inv(s) && r in s.entries
    requires entry.request == s.entries[r].request && NotBehind(s.entries[r].call, entry.call)
    requires Streams(s.entries[r := entry], updating, granted)
    ensures Inv(s.(entries := s.entries[r := entry], updating := updating, granted := granted))
  {
    ReplaceEntry(s.entries, s.byProvider, s.byKey, s.bySession, r, entry);
    ActiveShrinks(s.entries, s.byProvider, r, entry);
    Assemble(s.(entries := s.entries[r := entry], updating := updating, granted := granted));
  }

  lemma EndStatusKeeps<R>(s: Runtime<R>, r: R, stored: bool)
    requires Inv(s) && r in s.entries && r in s.updating
    ensures Inv(EndStatus(s, r, stored))
  {
    assert EntryOk(s.entries, s.updating, s.granted, r);
    var entry := if stored then s.entries[r].(call := s.updating[r]) else s.entries[r];
    assert !stored ==> s.entries[r := entry] == s.entries;
    EntryChanges(s.entries, s.updating, s.granted, r, entry, s.updating - {r}, s.granted);
    EntryKeeps(s, r, entry, s.updating - {r}, s.granted);
  }

  lemma ClaimKeeps<R>(s: Runtime<R>, provider: Identifier, token: Token)
    requires Inv(s)
    ensures Inv(Claim(s, provider, token))
  {
    var result := Claimed(s, provider, token);
    if result.Some? {
      var r := result.value;
      var entry := s.entries[r].(claimed := true, consumed := true);
      assert EntryOk(s.entries, s.updating, s.granted, r);
      EntryChanges(s.entries, s.updating, s.granted, r, entry, s.updating, s.granted + [r]);
      EntryKeeps(s, r, entry, s.updating, s.granted + [r]);
    }
  }

  lemma ReleaseKeeps<R>(s: Runtime<R>, provider: Identifier, token: Token)
    requires Inv(s)
    ensures Inv(Release(s, provider, token))
  {
    if provider in s.byProvider && s.entries[s.byProvider[provider]].token == token {
      var r := s.byProvider[provider];
      var entry := s.entries[r].(claimed := false);
      assert EntryOk(s.entries, s.updating, s.granted, r);
      EntryChanges(s.entries, s.updating, s.granted, r, entry, s.updating, s.granted);
      EntryKeeps(s, r, entry, s.updating, s.granted);
    }
  }
}
