/**
 One outbound call as the provider's status callbacks move it, and the durable row that follows it.
 Identifiers are numbers, compared only for equality; instants are integers.
 */
module OutboundCalls {
  import opened Wrappers

  type Identifier = nat

  datatype Status =
    Queued | Initiated | Ringing | InProgress | Completed | Busy | Failed | NoAnswer | Canceled
  {
    predicate Terminal() {
      Completed? || Busy? || Failed? || NoAnswer? || Canceled?
    }

    function Rank(): nat {
      match this
      case Queued => 0
      case Initiated => 1
      case Ringing => 2
      case InProgress => 3
      case _ => 4
    }
  }

  function Transition(current: Status, incoming: Status): Status {
    if current.Terminal() || incoming.Rank() < current.Rank() then current else incoming
  }

  /** Identity and number of the last callback that was applied. */
  datatype Cursor = Cursor(eventId: Identifier, sequence: nat)

  const MAX_PROCESSED_EVENTS: nat := 128

  datatype Call = Call(session: Identifier, provider: Identifier, status: Status, createdAt: int, statusUpdatedAt: int,
                       cursor: Option<Cursor>, processed: seq<Identifier>)
  {
    /** What the constructor of a call checks. */
    predicate Valid() {
      && createdAt <= statusUpdatedAt
      && |processed| <= MAX_PROCESSED_EVENTS
      && (forall i, j :: 0 <= i < j < |processed| ==> processed[i] != processed[j])
      && (cursor.Some? ==> cursor.value.eventId in processed)
    }

    /** -1 before the first callback. */
    function Sequence(): int {
      if cursor.Some? then cursor.value.sequence else -1
    }
  }

  datatype StatusEvent =
    StatusEvent(id: Identifier, provider: Identifier, status: Status, sequence: nat, observedAt: int)

  datatype EventError = OtherCall | TooManyEvents

  predicate Stale(call: Call, event: StatusEvent) {
    event.id in call.processed || event.sequence <= call.Sequence()
  }

  function Max(a: int, b: int): int {
    if a < b then b else a
  }

  function Advance(call: Call, event: StatusEvent): Call {
    var status := Transition(call.status, event.status);
    var updatedAt := if status != call.status then Max(Max(call.createdAt, event.observedAt), call.statusUpdatedAt)
                     else call.statusUpdatedAt;
    call.(status := status, statusUpdatedAt := updatedAt, cursor := Some(Cursor(event.id, event.sequence)),
          processed := call.processed + [event.id])
  }

  function ApplyStatusEvent(call: Call, event: StatusEvent): Result<Call, EventError> {
    if event.provider != call.provider then Err(OtherCall)
    else if Stale(call, event) then Ok(call)
    else if |call.processed| >= MAX_PROCESSED_EVENTS then Err(TooManyEvents)
    else Ok(Advance(call, event))
  }

  // ---------- One callback ----------

  predicate Over(status: Status) {
    status in {Completed, Busy, Failed, NoAnswer, Canceled}
  }

  /** A call goes through queued, initiated, ringing and in progress, and may be over at any time. */
  predicate ComesAfter(later: Status, status: Status) {
    match status
    case Queued => later != Queued
    case Initiated => later != Queued && later != Initiated
    case Ringing => later == InProgress || Over(later)
    case InProgress => Over(later)
    case _ => false
  }

  lemma StatusesInOrder(status: Status, incoming: Status)
    ensures status.Terminal() <==> Over(status)
    ensures Transition(status, incoming) == if ComesAfter(incoming, status) then incoming else status
    ensures status.Rank() <= incoming.Rank() && (status.Terminal() ==> incoming == status) <==>
            incoming == status || ComesAfter(incoming, status)
  {}

  /** The callback is for the call, its id is new, and its number is above that of the last one applied. */
  predicate IsNews(call: Call, event: StatusEvent) {
    && event.provider == call.provider && event.id !in call.processed
    && (call.cursor.Some? ==> event.sequence > call.cursor.value.sequence)
  }

  /** What a callback does: it is refused for another call, or as the 129th; it changes the call exactly when it is news
      and there is room; then the status moves on if the reported one comes later, and only then its time, to the latest
      of the times known. */
  lemma CallbackExactly(call: Call, event: StatusEvent, next: Call)
    requires call.Valid() && next == Deliver(call, event)
    ensures ApplyStatusEvent(call, event) == Err(OtherCall) <==> event.provider != call.provider
    ensures ApplyStatusEvent(call, event) == Err(TooManyEvents) <==> IsNews(call, event) && |call.processed| == 128
    ensures next != call <==> IsNews(call, event) && |call.processed| < 128
    ensures next != call ==>
      && next.processed == call.processed + [event.id] && next.cursor == Some(Cursor(event.id, event.sequence))
      && next.status == (if ComesAfter(event.status, call.status) then event.status else call.status)
      && (next.status == call.status ==> next.statusUpdatedAt == call.statusUpdatedAt)
      && (next.status != call.status ==>
            && call.createdAt <= next.statusUpdatedAt && call.statusUpdatedAt <= next.statusUpdatedAt
            && event.observedAt <= next.statusUpdatedAt
            && next.statusUpdatedAt in {call.createdAt, call.statusUpdatedAt, event.observedAt})
    ensures next.session == call.session && next.provider == call.provider && next.createdAt == call.createdAt
  {
    StatusesInOrder(call.status, event.status);
    assert |Advance(call, event).processed| == |call.processed| + 1;
  }

  // ---------- Callbacks in any number and any order ----------

  /** A raised error leaves the call as it was. */
  function Deliver(call: Call, event: StatusEvent): Call {
    match ApplyStatusEvent(call, event)
    case Ok(next) => next
    case Err(_) => call
  }

  function DeliverAll(call: Call, events: seq<StatusEvent>): Call {
    if events == [] then call else Deliver(DeliverAll(call, events[..|events| - 1]), events[|events| - 1])
  }

  lemma DeliverOne(call: Call, events: seq<StatusEvent>, event: StatusEvent)
    ensures DeliverAll(call, events + [event]) == Deliver(DeliverAll(call, events), event)
    ensures events + [] == events
  {
    assert (events + [event])[..|events|] == events;
  }

  /** `later` is the same call, not behind `earlier` in any respect. */
  ghost predicate NotBehind(earlier: Call, later: Call) {
    && later.session == earlier.session && later.provider == earlier.provider && later.createdAt == earlier.createdAt
    && earlier.statusUpdatedAt <= later.statusUpdatedAt
    && earlier.status.Rank() <= later.status.Rank()
    && (earlier.status.Terminal() ==> later.status == earlier.status)
    && earlier.Sequence() <= later.Sequence()
    && earlier.processed <= later.processed
  }

  lemma NotBehindTransitive(a: Call, b: Call, c: Call)
    requires NotBehind(a, b) && NotBehind(b, c)
    ensures NotBehind(a, c)
  {}

  lemma DeliverAdvances(call: Call, event: StatusEvent)
    requires call.Valid()
    ensures Deliver(call, event).Valid() && NotBehind(call, Deliver(call, event))
  {}

  /** Whatever arrives, in whatever order and however often, the call never moves backwards, keeps its identity, stays
      within its bounds, and stays in a terminal status once it has one. */
  lemma {:induction false} CallNeverRegresses(call: Call, events: seq<StatusEvent>)
    requires call.Valid()
    ensures DeliverAll(call, events).Valid() && NotBehind(call, DeliverAll(call, events))
    ensures var later := DeliverAll(call, events);
      && (later.status == call.status || ComesAfter(later.status, call.status))
      && later.createdAt <= later.statusUpdatedAt && |later.processed| <= 128
      && (forall i, j :: 0 <= i < j < |later.processed| ==> later.processed[i] != later.processed[j])
  {
    StatusesInOrder(call.status, DeliverAll(call, events).status);
    if events != [] {
      var last := |events| - 1;
      CallNeverRegresses(call, events[..last]);
      DeliverAdvances(DeliverAll(call, events[..last]), events[last]);
      NotBehindTransitive(call, DeliverAll(call, events[..last]), DeliverAll(call, events));
    }
  }

  /** The event has no effect any more. */
  ghost predicate Settled(call: Call, event: StatusEvent) {
    event.provider != call.provider || Stale(call, event) || |call.processed| >= MAX_PROCESSED_EVENTS
  }

  lemma DeliverSettles(call: Call, event: StatusEvent)
    requires call.Valid()
    ensures Settled(Deliver(call, event), event)
    ensures Settled(call, event) <==> Deliver(call, event) == call
  {}

  lemma SettledStays(call: Call, later: Call, event: StatusEvent)
    requires NotBehind(call, later) && later.Valid() && Settled(call, event)
    ensures Settled(later, event)
  {}

  /** A callback that was delivered once has no effect when it is delivered again, however much later. */
  lemma {:induction false} RedeliveryHasNoEffect(call: Call, events: seq<StatusEvent>, k: nat)
    requires call.Valid() && k < |events|
    ensures Deliver(DeliverAll(call, events), events[k]) == DeliverAll(call, events)
  {
    SettledAfterDelivery(call, events, k);
    CallNeverRegresses(call, events);
    DeliverSettles(DeliverAll(call, events), events[k]);
  }

  lemma {:induction false} SettledAfterDelivery(call: Call, events: seq<StatusEvent>, k: nat)
    requires call.Valid() && k < |events|
    ensures Settled(DeliverAll(call, events), events[k])
  {
    var last := |events| - 1;
    var before := DeliverAll(call, events[..last]);
    CallNeverRegresses(call, events[..last]);
    if k == last {
      DeliverSettles(before, events[last]);
    } else {
      SettledAfterDelivery(call, events[..last], k);
      DeliverAdvances(before, events[last]);
      SettledStays(before, DeliverAll(call, events), events[k]);
    }
  }

  /** A call that has applied its 128th callback is frozen: no callback changes it again, not even one that would end
      it. As long as there is room, some callback still ends it. */
  lemma {:induction false} FullCallIsFrozen(call: Call, events: seq<StatusEvent>)
    requires call.Valid() && |call.processed| == MAX_PROCESSED_EVENTS
    ensures DeliverAll(call, events) == call
  {
    if events != [] {
      FullCallIsFrozen(call, events[..|events| - 1]);
    }
  }

  lemma RoomAdvances(call: Call) returns (event: StatusEvent)
    requires call.Valid() && |call.processed| < MAX_PROCESSED_EVENTS
    ensures Deliver(call, event) != call && Deliver(call, event).status.Terminal()
  {
    var id := Unseen(call.processed);
    event := StatusEvent(id, call.provider, Completed, call.Sequence() + 1, call.createdAt);
    DeliverSettles(call, event);
  }

  ghost predicate EndsBy(call: Call, events: seq<StatusEvent>) {
    DeliverAll(call, events).status.Terminal()
  }

  /** A call that is not over can still end exactly when it has room for one more callback. */
  lemma CanEndExactly(call: Call)
    requires call.Valid() && !call.status.Terminal()
    ensures (exists events :: EndsBy(call, events)) <==> |call.processed| < MAX_PROCESSED_EVENTS
  {
    if |call.processed| < MAX_PROCESSED_EVENTS {
      var event := RoomAdvances(call);
      assert [event][..0] == [];
      assert EndsBy(call, [event]);
    } else {
      forall events: seq<StatusEvent>
        ensures !EndsBy(call, events)
      {
        FullCallIsFrozen(call, events);
      }
    }
  }

  /** The callback number `n` of a call that stays in its status. */
  function Filler(call: Call, n: nat): StatusEvent {
    StatusEvent(n, call.provider, call.status, n, call.createdAt)
  }

  function Fillers(call: Call, n: nat): seq<StatusEvent> {
    seq(n, i requires 0 <= i < n => Filler(call, i))
  }

  lemma {:induction false} FillersFill(call: Call, n: nat)
    requires call.Valid() && call.processed == [] && call.cursor == None && !call.status.Terminal()
    requires n <= MAX_PROCESSED_EVENTS
    ensures var filled := DeliverAll(call, Fillers(call, n));
      && filled.Valid() && filled.status == call.status && filled.provider == call.provider
      && |filled.processed| == n && filled.Sequence() == n - 1 && (forall id :: id in filled.processed ==> id < n)
  {
    if n > 0 {
      FillersFill(call, n - 1);
      assert Fillers(call, n)[..n - 1] == Fillers(call, n - 1);
      DeliverAdvances(DeliverAll(call, Fillers(call, n - 1)), Filler(call, n - 1));
    }
  }

  /** A new call can be filled by 128 callbacks that do not end it, and then nothing ends it. */
  lemma NewCallCanFill(call: Call) returns (events: seq<StatusEvent>)
    requires call.Valid() && call.processed == [] && call.cursor == None && !call.status.Terminal()
    ensures |events| == MAX_PROCESSED_EVENTS
    ensures forall later :: !EndsBy(call, events + later)
  {
    events := Fillers(call, MAX_PROCESSED_EVENTS);
    FillersFill(call, MAX_PROCESSED_EVENTS);
    var full := DeliverAll(call, events);
    forall later
      ensures !EndsBy(call, events + later)
    {
      DeliverInParts(call, events, later);
      FullCallIsFrozen(full, later);
    }
  }

  lemma {:induction false} DeliverInParts(call: Call, first: seq<StatusEvent>, second: seq<StatusEvent>)
    ensures DeliverAll(call, first + second) == DeliverAll(DeliverAll(call, first), second)
  {
    var all := first + second;
    if second == [] {
      assert all == first;
    } else {
      assert all[..|all| - 1] == first + second[..|second| - 1];
      DeliverInParts(call, first, second[..|second| - 1]);
    }
  }

  lemma {:induction false} Unseen(ids: seq<Identifier>) returns (id: Identifier)
    ensures forall i :: 0 <= i < |ids| ==> ids[i] < id
  {
    if ids == [] {
      id := 0;
    } else {
      var rest := Unseen(ids[..|ids| - 1]);
      id := if rest <= ids[|ids| - 1] then ids[|ids| - 1] + 1 else rest;
    }
  }
}
