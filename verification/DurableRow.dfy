/**
 A live call and its durable row under status callbacks. Every callback is applied to the live call and written through
 before it becomes visible; the write may be lost, or committed without the runtime learning of it.
 */
module DurableRow {
  import opened Wrappers
  import opened OutboundCalls
  import opened AttemptStore

  /** The row under `key`, seen with the fingerprint of its call. */
  datatype Place = Place(key: Key, fingerprint: Fingerprint)

  datatype Delivery = Delivery(event: StatusEvent, fault: Fault)

  /** Observing a callback: apply it to the live call, write the result through, and keep it if nothing was raised. */
  function Observe(rows: Rows, place: Place, live: Call, delivery: Delivery): (Rows, Call) {
    match ApplyStatusEvent(live, delivery.event)
    case Err(_) => (rows, live)
    case Ok(updated) =>
      var (after, saved) :=
        Save(rows, place.key, place.fingerprint, Succeeded(updated), delivery.event.observedAt, delivery.fault);
      (after, if saved then updated else live)
  }

  function ObserveAll(rows: Rows, place: Place, live: Call, deliveries: seq<Delivery>): (Rows, Call) {
    if deliveries == [] then (rows, live)
    else
      var (before, call) := ObserveAll(rows, place, live, deliveries[..|deliveries| - 1]);
      Observe(before, place, call, deliveries[|deliveries| - 1])
  }

  // ---------- How row and live call can stand to each other ----------

  /** The row is that of the live call, at the same callback or at an earlier one. */
  ghost predicate Follows(row: Call, live: Call) {
    NotBehind(row, live) && (row == live || row.Sequence() < live.Sequence())
  }

  /** The callback would change the call. */
  predicate Fresh(call: Call, event: StatusEvent) {
    event.provider == call.provider && !Stale(call, event) && |call.processed| < MAX_PROCESSED_EVENTS
  }

  /** The row holds one callback that was applied to an earlier state of the live call, or to its present one, and whose
      write the runtime did not hear of. */
  ghost predicate Forks(base: Call, event: StatusEvent, row: Call, live: Call) {
    && base.Valid() && Fresh(base, event) && row == Advance(base, event)
    && NotBehind(base, live) && (live == base || |base.processed| < |live.processed|)
  }

  ghost predicate Related(row: Call, live: Call) {
    live.Valid() && row.Valid() && (Follows(row, live) || exists base, event :: Forks(base, event, row, live))
  }

  ghost predicate Stored(rows: Rows, place: Place) {
    && ValidRows(rows) && place.key in rows && rows[place.key].fingerprint == place.fingerprint
    && rows[place.key].state.Succeeded?
  }

  function RowCall(rows: Rows, place: Place): Call
    requires place.key in rows && rows[place.key].state.Succeeded?
  {
    rows[place.key].state.call
  }

  lemma RelatedIdentity(row: Call, live: Call)
    requires Related(row, live)
    ensures SameIdentity(row, live)
  {}

  /** A write through to a stored row of the same call never fails: it leaves the row, or replaces it by the new call
      when that passes the store's test. */
  lemma FinishStored(rows: Rows, place: Place, updated: Call, at: int, after: Rows)
    requires Stored(rows, place) && updated.Valid() && SameIdentity(RowCall(rows, place), updated)
    requires after == Finish(rows, place.key, place.fingerprint, Succeeded(updated), at).0
    ensures Finish(rows, place.key, place.fingerprint, Succeeded(updated), at).1.Ok?
    ensures Stored(after, place)
    ensures var row := RowCall(rows, place);
      if updated != row && IsMonotonicUpdate(rows[place.key], updated, at)
      then RowCall(after, place) == updated && after[place.key].updatedAt == at
      else after == rows
  {
    assert Holds(rows, place.key, updated.provider);
    TransactionsKeepConstraints(rows, place.key, place.fingerprint, Succeeded(updated), at);
  }

  lemma DeliverValid(live: Call, event: StatusEvent)
    requires live.Valid() && ApplyStatusEvent(live, event).Ok?
    ensures ApplyStatusEvent(live, event).value == Deliver(live, event)
    ensures Deliver(live, event).Valid() && NotBehind(live, Deliver(live, event))
    ensures Deliver(live, event) == if Fresh(live, event) then Advance(live, event) else live
  {}

  /** What one observation does, in terms of the row's call and the live call. */
  lemma ObserveCases(rows: Rows, place: Place, live: Call, delivery: Delivery, after: Rows, now: Call, updated: Call)
    requires Stored(rows, place) && Related(RowCall(rows, place), live)
    requires (after, now) == Observe(rows, place, live, delivery) && updated == Deliver(live, delivery.event)
    ensures Stored(after, place)
    ensures ApplyStatusEvent(live, delivery.event).Err? ==> after == rows && now == live && updated == live
    ensures ApplyStatusEvent(live, delivery.event).Ok? ==>
      && now == (if delivery.fault.NoFault? then updated else live)
      && (if !delivery.fault.Lost? && updated != RowCall(rows, place)
             && IsMonotonicUpdate(rows[place.key], updated, delivery.event.observedAt)
          then RowCall(after, place) == updated && after[place.key].updatedAt == delivery.event.observedAt
          else after == rows)
  {
    if ApplyStatusEvent(live, delivery.event).Ok? {
      RelatedIdentity(RowCall(rows, place), live);
      DeliverValid(live, delivery.event);
      if !delivery.fault.Lost? {
        FinishStored(rows, place, updated, delivery.event.observedAt,
                     Finish(rows, place.key, place.fingerprint, Succeeded(updated), delivery.event.observedAt).0);
      }
    }
  }

  // ---------- Every run ----------

  lemma ForkOn(base: Call, event: StatusEvent, row: Call, live: Call, later: Call)
    requires Forks(base, event, row, live) && NotBehind(live, later)
    requires later == live || |live.processed| < |later.processed|
    ensures Forks(base, event, row, later)
  {
    NotBehindTransitive(base, live, later);
  }

  lemma LiveMovesOn(row: Call, live: Call, event: StatusEvent)
    requires Related(row, live)
    ensures Related(row, Deliver(live, event))
    ensures Follows(row, live) ==> Follows(row, Deliver(live, event))
  {
    var later := Deliver(live, event);
    DeliverAdvances(live, event);
    if Follows(row, live) {
      NotBehindTransitive(row, live, later);
    } else {
      var base, e :| Forks(base, e, row, live);
      ForkOn(base, e, row, live, later);
    }
  }

  /** The row moved to what the live call would become: it equals the live call, or is that one callback ahead of it. */
  lemma RowMovesOn(live: Call, event: StatusEvent, row: Call)
    requires live.Valid() && ApplyStatusEvent(live, event).Ok? && row == Deliver(live, event)
    ensures Related(row, live) && Related(row, row)
    ensures Fresh(live, event) ==> Forks(live, event, row, live) && !Follows(row, live)
    ensures !Fresh(live, event) ==> row == live
  {
    DeliverValid(live, event);
    assert Follows(row, row);
    if Fresh(live, event) {
      assert Forks(live, event, row, live);
    }
  }

  lemma ObserveKeeps(rows: Rows, place: Place, live: Call, delivery: Delivery, after: Rows, now: Call)
    requires Stored(rows, place) && Related(RowCall(rows, place), live)
    requires (after, now) == Observe(rows, place, live, delivery)
    ensures Stored(after, place) && Related(RowCall(after, place), now)
    ensures now == if delivery.fault.NoFault? then Deliver(live, delivery.event) else live
  {
    var updated := Deliver(live, delivery.event);
    ObserveCases(rows, place, live, delivery, after, now, updated);
    LiveMovesOn(RowCall(rows, place), live, delivery.event);
    if ApplyStatusEvent(live, delivery.event).Ok? {
      RowMovesOn(live, delivery.event, updated);
    }
  }

  /** The callbacks whose write was acknowledged. */
  function Acknowledged(deliveries: seq<Delivery>): seq<StatusEvent> {
    if deliveries == [] then []
    else
      var last := deliveries[|deliveries| - 1];
      Acknowledged(deliveries[..|deliveries| - 1]) + (if last.fault.NoFault? then [last.event] else [])
  }

  /** Over any run of callbacks and store faults the live call is the one that the acknowledged callbacks alone
      determine, and the row follows it or holds one callback of its own. */
  lemma {:induction false} LiveIsAcknowledged(rows: Rows, place: Place, live: Call, deliveries: seq<Delivery>,
                                              after: Rows, now: Call)
    requires Stored(rows, place) && Related(RowCall(rows, place), live)
    requires (after, now) == ObserveAll(rows, place, live, deliveries)
    ensures Stored(after, place) && Related(RowCall(after, place), now)
    ensures now == DeliverAll(live, Acknowledged(deliveries))
  {
    if deliveries != [] {
      var earlier, last := deliveries[..|deliveries| - 1], deliveries[|deliveries| - 1];
      var (before, call) := ObserveAll(rows, place, live, earlier);
      LiveIsAcknowledged(rows, place, live, earlier, before, call);
      ObserveKeeps(before, place, call, last, after, now);
      DeliverOne(live, Acknowledged(earlier), last.event);
    }
  }

  // ---------- When the row leads ----------

  lemma MonotonicFollower(stored: Attempt, updated: Call, at: int)
    requires stored.state.Succeeded? && Follows(stored.state.call, updated) && stored.state.call != updated
    requires updated.Valid()
    ensures IsMonotonicUpdate(stored, updated, at) <==> stored.updatedAt <= at
  {}

  /** A row that follows its live call stops following it exactly when a callback that changes the call is committed in
      time with its acknowledgement lost; the row is then that one callback ahead. */
  lemma RowLeadsExactly(rows: Rows, place: Place, live: Call, delivery: Delivery, after: Rows, now: Call)
    requires Stored(rows, place) && live.Valid() && Follows(RowCall(rows, place), live)
    requires (after, now) == Observe(rows, place, live, delivery)
    ensures place.key in after && after[place.key].state.Succeeded?
    ensures !Follows(RowCall(after, place), now) <==>
            delivery.fault.AckLost? && Fresh(live, delivery.event)
            && rows[place.key].updatedAt <= delivery.event.observedAt
    ensures !Follows(RowCall(after, place), now) ==>
      now == live && RowCall(after, place) == Advance(live, delivery.event)
  {
    var row, updated := RowCall(rows, place), Deliver(live, delivery.event);
    ObserveCases(rows, place, live, delivery, after, now, updated);
    LiveMovesOn(row, live, delivery.event);
    if ApplyStatusEvent(live, delivery.event).Ok? {
      DeliverValid(live, delivery.event);
      RowMovesOn(live, delivery.event, updated);
      if row != updated {
        MonotonicFollower(rows[place.key], updated, delivery.event.observedAt);
      }
    }
  }

  // ---------- When the row catches up ----------

  predicate AllIn(ids: seq<Identifier>, others: seq<Identifier>) {
    forall id | id in ids :: id in others
  }

  /** The state of the live call that the row held last is among those the store lets it move to. */
  predicate Compatible(row: Call, live: Call) {
    && row.statusUpdatedAt <= live.statusUpdatedAt && row.status.Rank() <= live.status.Rank()
    && (row.status.Terminal() ==> live.status == row.status)
  }

  /** The last callback of the row. */
  predicate LacksLast(row: Call, live: Call) {
    row.cursor.Some? && row.cursor.value.eventId !in live.processed
  }

  /** An event with an id that the row holds last has the number that the row holds; ids are made of call, number and
      status. */
  predicate SameNumber(row: Call, event: StatusEvent) {
    row.cursor.Some? && event.id == row.cursor.value.eventId ==> event.sequence == row.cursor.value.sequence
  }

  /** After an acknowledged callback the row equals the live call exactly when it already held that state, or the
      callback was observed no earlier than the row was last written, every callback of the row is applied to the live
      call, and the live call is past the row's number and compatible with it. */
  lemma CatchesUpExactly(rows: Rows, place: Place, live: Call, event: StatusEvent, after: Rows, now: Call)
    requires Stored(rows, place) && Related(RowCall(rows, place), live)
    requires (after, now) == Observe(rows, place, live, Delivery(event, NoFault))
    requires ApplyStatusEvent(live, event).Ok?
    ensures place.key in after && after[place.key].state.Succeeded?
    ensures var row := RowCall(rows, place);
      RowCall(after, place) == now <==>
        row == now
        || (rows[place.key].updatedAt <= event.observedAt && AllIn(row.processed, now.processed)
            && row.Sequence() < now.Sequence() && Compatible(row, now))
  {
    ObserveCases(rows, place, live, Delivery(event, NoFault), after, now, Deliver(live, event));
  }

  /** Unless the row's last callback was applied to the live call late, its time, its ids and its number decide alone: a
      row that follows catches up exactly on time, and one that holds a callback of its own never does but by the
      redelivery that makes the live call equal to it. */
  lemma CatchesUpByTimeAndIds(rows: Rows, place: Place, live: Call, event: StatusEvent, after: Rows, now: Call)
    requires Stored(rows, place) && Related(RowCall(rows, place), live)
    requires Follows(RowCall(rows, place), live) || LacksLast(RowCall(rows, place), live)
    requires (after, now) == Observe(rows, place, live, Delivery(event, NoFault))
    requires ApplyStatusEvent(live, event).Ok? && SameNumber(RowCall(rows, place), event)
    ensures place.key in after && after[place.key].state.Succeeded?
    ensures var row := RowCall(rows, place);
      RowCall(after, place) == now <==>
        row == now || (Follows(row, live) && rows[place.key].updatedAt <= event.observedAt)
    ensures var row := RowCall(rows, place);
      RowCall(after, place) == now <==>
        row == now
        || (rows[place.key].updatedAt <= event.observedAt && AllIn(row.processed, now.processed)
            && row.Sequence() < now.Sequence())
  {
    var row := RowCall(rows, place);
    CatchesUpExactly(rows, place, live, event, after, now);
    ObserveKeeps(rows, place, live, Delivery(event, NoFault), after, now);
    LiveMovesOn(row, live, event);
    if !Follows(row, live) {
      LacksUntilRedelivered(row, live, event);
    }
  }

  lemma LacksUntilRedelivered(row: Call, live: Call, event: StatusEvent)
    requires row.Valid() && live.Valid() && LacksLast(row, live) && SameNumber(row, event)
    ensures var now := Deliver(live, event);
      AllIn(row.processed, now.processed) ==> now.Sequence() == row.Sequence()
  {
    assert row.cursor.value.eventId in row.processed;
  }

  // ---------- When the row can never catch up ----------

  predicate Full(live: Call) {
    |live.processed| == MAX_PROCESSED_EVENTS
  }

  /** The row's last callback was overtaken: the live call never applied it and is no longer before its number. */
  predicate Overtaken(row: Call, live: Call) {
    LacksLast(row, live) && row.Sequence() <= live.Sequence()
  }

  /** The live call is over, in a status or at a time that the row may not move to. */
  predicate OverApart(row: Call, live: Call) {
    live.status.Terminal() && !Compatible(row, live)
  }

  /** The live call has no room left for what the row would need: the row's last callback, and then one more. */
  predicate NoRoom(row: Call, live: Call) {
    if Full(live) then
      row != live
      && !(AllIn(row.processed, live.processed) && row.Sequence() < live.Sequence() && Compatible(row, live))
    else
      |live.processed| == MAX_PROCESSED_EVENTS - 1 && LacksLast(row, live)
      && row.processed != live.processed + [row.cursor.value.eventId]
  }

  /** Row and live call are apart for good. */
  predicate Apart(row: Call, live: Call) {
    Overtaken(row, live) || OverApart(row, live) || NoRoom(row, live)
  }

  ghost predicate AllSameNumber(row: Call, deliveries: seq<Delivery>) {
    forall i :: 0 <= i < |deliveries| ==> SameNumber(row, deliveries[i].event)
  }

  lemma ApartStays(stored: Attempt, live: Call, event: StatusEvent, at: int)
    requires stored.state.Succeeded? && stored.state.call.Valid() && live.Valid()
    requires Apart(stored.state.call, live) && SameNumber(stored.state.call, event)
    ensures Apart(stored.state.call, Deliver(live, event))
    ensures stored.state.call != Deliver(live, event) && !IsMonotonicUpdate(stored, Deliver(live, event), at)
  {
    var row, now := stored.state.call, Deliver(live, event);
    DeliverAdvances(live, event);
    if Overtaken(row, live) {
      assert row.cursor.value.eventId in row.processed;
      assert Overtaken(row, now);
    } else if OverApart(row, live) {
      assert OverApart(row, now);
    } else if Full(live) {
      assert now == live;
    } else {
      assert row.cursor.value.eventId in row.processed;
      if now != live {
        assert now.processed == live.processed + [event.id];
      }
    }
  }

  /** Once they are apart, no callback and no fault ever changes the row or makes it equal to the live call again. */
  lemma {:induction false} ApartForEver(rows: Rows, place: Place, live: Call, deliveries: seq<Delivery>, after: Rows,
                                        now: Call)
    requires Stored(rows, place) && Related(RowCall(rows, place), live) && Apart(RowCall(rows, place), live)
    requires AllSameNumber(RowCall(rows, place), deliveries)
    requires (after, now) == ObserveAll(rows, place, live, deliveries)
    ensures after == rows && RowCall(rows, place) != now && Apart(RowCall(rows, place), now)
    ensures Related(RowCall(rows, place), now)
  {
    var row := RowCall(rows, place);
    if deliveries == [] {
      assert row.cursor.Some? ==> row.cursor.value.eventId in row.processed;
    } else {
      var earlier, last := deliveries[..|deliveries| - 1], deliveries[|deliveries| - 1];
      var (before, call) := ObserveAll(rows, place, live, earlier);
      ApartForEver(rows, place, live, earlier, before, call);
      ApartStays(rows[place.key], call, last.event, last.event.observedAt);
      ObserveCases(before, place, call, last, after, now, Deliver(call, last.event));
      LiveMovesOn(row, call, last.event);
    }
  }

  // ---------- How it can still catch up ----------

  lemma ObserveSingle(rows: Rows, place: Place, live: Call, delivery: Delivery)
    ensures ObserveAll(rows, place, live, [delivery]) == Observe(rows, place, live, delivery)
  {
    assert [delivery][..0] == [];
  }

  lemma ObserveTwo(rows: Rows, place: Place, live: Call, first: Delivery, second: Delivery)
    ensures ObserveAll(rows, place, live, [first, second]) ==
            var (before, call) := Observe(rows, place, live, first); Observe(before, place, call, second)
  {
    assert [first, second][..1] == [first];
    ObserveSingle(rows, place, live, first);
  }

  /** A callback that changes nothing in the live call and is observed late enough. */
  lemma StaleCallback(row: Call, live: Call, at: int) returns (event: StatusEvent)
    requires live.Valid() && live.Sequence() >= 0 && !LacksLast(row, live)
    ensures ApplyStatusEvent(live, event) == Ok(live) && SameNumber(row, event) && event.observedAt == at
  {
    var id := Unseen(live.processed);
    event := StatusEvent(id, live.provider, live.status, 0, at);
  }

  /** A callback that takes the live call past the row and into a state the row may move to. */
  lemma PassingCallback(row: Call, live: Call, at: int) returns (event: StatusEvent)
    requires live.Valid() && !Full(live) && AllIn(row.processed, live.processed) && !LacksLast(row, live)
    requires live.status.Terminal() ==> Compatible(row, live)
    ensures ApplyStatusEvent(live, event).Ok? && SameNumber(row, event) && event.observedAt >= at
    ensures var now := Deliver(live, event);
      AllIn(row.processed, now.processed) && row.Sequence() < now.Sequence() && Compatible(row, now)
  {
    var id := Unseen(live.processed);
    var status := if row.status.Terminal() then row.status else Completed;
    event := StatusEvent(id, live.provider, status, Max(Max(row.Sequence(), live.Sequence()), 0) + 1,
                         Max(at, row.statusUpdatedAt));
    assert Fresh(live, event);
  }

  /** When the live call has applied every callback of the row, one more callback is enough. */
  lemma OneMore(rows: Rows, place: Place, live: Call) returns (event: StatusEvent)
    requires Stored(rows, place) && Related(RowCall(rows, place), live) && RowCall(rows, place) != live
    requires AllIn(RowCall(rows, place).processed, live.processed) && !LacksLast(RowCall(rows, place), live)
    requires !OverApart(RowCall(rows, place), live) && !NoRoom(RowCall(rows, place), live)
    ensures SameNumber(RowCall(rows, place), event)
    ensures var (after, now) := Observe(rows, place, live, Delivery(event, NoFault));
      place.key in after && after[place.key].state == Succeeded(now)
  {
    var row, at := RowCall(rows, place), rows[place.key].updatedAt;
    if row.Sequence() < live.Sequence() && Compatible(row, live) {
      event := StaleCallback(row, live, at);
    } else {
      event := PassingCallback(row, live, at);
    }
    DeliverValid(live, event);
    var (after, now) := Observe(rows, place, live, Delivery(event, NoFault));
    ObserveKeeps(rows, place, live, Delivery(event, NoFault), after, now);
    CatchesUpExactly(rows, place, live, event, after, now);
  }

  /** Applying the row's last callback late does not put the live call over in a way the row may not follow. */
  lemma LateButCompatible(base: Call, event: StatusEvent, row: Call, live: Call)
    requires Forks(base, event, row, live) && live.Valid() && !OverApart(row, live)
    requires Fresh(live, event)
    ensures !OverApart(row, Advance(live, event))
    ensures AllIn(row.processed, Advance(live, event).processed) && !LacksLast(row, Advance(live, event))
  {}

  /** Unless they are apart for good, some callbacks without faults make the row equal to the live call again. */
  lemma CatchUpIsPossible(rows: Rows, place: Place, live: Call) returns (deliveries: seq<Delivery>)
    requires Stored(rows, place) && Related(RowCall(rows, place), live) && !Apart(RowCall(rows, place), live)
    ensures AllSameNumber(RowCall(rows, place), deliveries)
    ensures forall i :: 0 <= i < |deliveries| ==> deliveries[i].fault == NoFault
    ensures var (after, now) := ObserveAll(rows, place, live, deliveries);
      place.key in after && after[place.key].state == Succeeded(now)
  {
    var row := RowCall(rows, place);
    if row == live {
      deliveries := [];
    } else if Follows(row, live) {
      assert row.cursor.Some? ==> row.cursor.value.eventId in row.processed;
      var event := OneMore(rows, place, live);
      deliveries := [Delivery(event, NoFault)];
      ObserveSingle(rows, place, live, deliveries[0]);
    } else {
      var base, last :| Forks(base, last, row, live);
      if last.id in live.processed {
        var event := OneMore(rows, place, live);
        deliveries := [Delivery(event, NoFault)];
        ObserveSingle(rows, place, live, deliveries[0]);
      } else {
        deliveries := Redeliver(rows, place, live, base, last);
      }
    }
  }

  lemma Redeliver(rows: Rows, place: Place, live: Call, base: Call, last: StatusEvent)
    returns (deliveries: seq<Delivery>)
    requires Stored(rows, place) && Related(RowCall(rows, place), live) && !Apart(RowCall(rows, place), live)
    requires Forks(base, last, RowCall(rows, place), live) && last.id !in live.processed
    ensures AllSameNumber(RowCall(rows, place), deliveries)
    ensures forall i :: 0 <= i < |deliveries| ==> deliveries[i].fault == NoFault
    ensures var (after, now) := ObserveAll(rows, place, live, deliveries);
      place.key in after && after[place.key].state == Succeeded(now)
  {
    var row, first := RowCall(rows, place), Delivery(last, NoFault);
    var (before, call) := Observe(rows, place, live, first);
    DeliverValid(live, last);
    ObserveKeeps(rows, place, live, first, before, call);
    CatchesUpExactly(rows, place, live, last, before, call);
    ObserveCases(rows, place, live, first, before, call, call);
    if row == call {
      deliveries := [first];
      ObserveSingle(rows, place, live, first);
    } else {
      assert live != base;
      LateButCompatible(base, last, row, live);
      assert before == rows;
      var event := OneMore(rows, place, call);
      deliveries := [first, Delivery(event, NoFault)];
      ObserveTwo(rows, place, live, first, deliveries[1]);
    }
  }

  // ---------- Runs in order ----------

  /** Over a run in which no acknowledgement is lost the row never leads. */
  lemma {:induction false} RowNeverLeads(rows: Rows, place: Place, live: Call, deliveries: seq<Delivery>, after: Rows,
                                         now: Call)
    requires Stored(rows, place) && live.Valid() && Follows(RowCall(rows, place), live)
    requires forall i :: 0 <= i < |deliveries| ==> !deliveries[i].fault.AckLost?
    requires (after, now) == ObserveAll(rows, place, live, deliveries)
    ensures Stored(after, place) && now.Valid() && Follows(RowCall(after, place), now)
  {
    if deliveries != [] {
      var earlier, last := deliveries[..|deliveries| - 1], deliveries[|deliveries| - 1];
      var (before, call) := ObserveAll(rows, place, live, earlier);
      RowNeverLeads(rows, place, live, earlier, before, call);
      ObserveKeeps(before, place, call, last, after, now);
      RowLeadsExactly(before, place, call, last, after, now);
    }
  }

  /** Each callback is observed no earlier than the one delivered before it, and none before `start`. */
  ghost predicate InOrder(deliveries: seq<Delivery>, start: int) {
    deliveries == [] ||
    (var last := |deliveries| - 1;
     InOrder(deliveries[..last], start) && LastTime(deliveries[..last], start) <= deliveries[last].event.observedAt)
  }

  function LastTime(deliveries: seq<Delivery>, start: int): int {
    if deliveries == [] then start else deliveries[|deliveries| - 1].event.observedAt
  }

  /** After the run and after each part of it the row equals the live call. */
  ghost predicate InSync(rows: Rows, place: Place, live: Call, deliveries: seq<Delivery>) {
    var (after, now) := ObserveAll(rows, place, live, deliveries);
    && place.key in after && after[place.key].state == Succeeded(now)
    && (deliveries == [] || InSync(rows, place, live, deliveries[..|deliveries| - 1]))
  }

  /** No callback that changes the live call has its acknowledgement lost. */
  ghost predicate Heard(rows: Rows, place: Place, live: Call, deliveries: seq<Delivery>) {
    deliveries == [] ||
    (var last := deliveries[|deliveries| - 1];
     && Heard(rows, place, live, deliveries[..|deliveries| - 1])
     && !(last.fault.AckLost? && Fresh(ObserveAll(rows, place, live, deliveries[..|deliveries| - 1]).1, last.event)))
  }

  lemma SyncStep(rows: Rows, place: Place, live: Call, delivery: Delivery, after: Rows, now: Call)
    requires Stored(rows, place) && live.Valid() && RowCall(rows, place) == live
    requires rows[place.key].updatedAt <= delivery.event.observedAt
    requires (after, now) == Observe(rows, place, live, delivery)
    ensures Stored(after, place) && now.Valid() && after[place.key].updatedAt <= delivery.event.observedAt
    ensures RowCall(after, place) == now <==> !(delivery.fault.AckLost? && Fresh(live, delivery.event))
  {
    ObserveKeeps(rows, place, live, delivery, after, now);
    ObserveCases(rows, place, live, delivery, after, now, Deliver(live, delivery.event));
    RowLeadsExactly(rows, place, live, delivery, after, now);
    if ApplyStatusEvent(live, delivery.event).Ok? {
      DeliverValid(live, delivery.event);
    }
  }

  /** While callbacks are delivered in the order they were observed, the row equals the live call throughout exactly
      when no acknowledgement of a callback that changes the call is lost; writes that are lost do no harm. */
  lemma {:induction false} OrderedCallbacksStayInSync(rows: Rows, place: Place, live: Call, deliveries: seq<Delivery>,
                                                      after: Rows, now: Call)
    requires Stored(rows, place) && live.Valid() && RowCall(rows, place) == live
    requires InOrder(deliveries, rows[place.key].updatedAt)
    requires (after, now) == ObserveAll(rows, place, live, deliveries)
    ensures InSync(rows, place, live, deliveries) <==> Heard(rows, place, live, deliveries)
    ensures InSync(rows, place, live, deliveries) ==> Stored(after, place) && now.Valid()
    ensures InSync(rows, place, live, deliveries) ==>
      after[place.key].updatedAt <= LastTime(deliveries, rows[place.key].updatedAt)
  {
    if deliveries != [] {
      var earlier, last := deliveries[..|deliveries| - 1], deliveries[|deliveries| - 1];
      var (before, call) := ObserveAll(rows, place, live, earlier);
      OrderedCallbacksStayInSync(rows, place, live, earlier, before, call);
      if InSync(rows, place, live, earlier) {
        SyncStep(before, place, call, last, after, now);
      }
    }
  }

  // ---------- What does go wrong ----------

  const RINGING := Call(1, 2, Ringing, 0, 5, Some(Cursor(7, 1)), [7])

  const ROWS: Rows := map[0 := Attempt(0, Succeeded(RINGING), 0, 5)]

  const PLACE := Place(0, 0)

  /** A callback delivered out of order: the call is completed for the runtime while its row still says ringing. */
  lemma LateCallbackLeavesRowBehind() returns (delivery: Delivery)
    ensures Stored(ROWS, PLACE) && RowCall(ROWS, PLACE) == RINGING && RINGING.Valid()
    ensures var (after, now) := Observe(ROWS, PLACE, RINGING, delivery);
      now.status == Completed && after == ROWS
  {
    delivery := Delivery(StatusEvent(8, 2, Completed, 2, 4), NoFault);
  }

  function RowOf(call: Call, updatedAt: int): Rows {
    map[0 := Attempt(0, Succeeded(call), 0, updatedAt)]
  }

  lemma UnheardWrite(event: StatusEvent)
    requires Fresh(RINGING, event) && event.observedAt >= 5
    ensures Observe(ROWS, PLACE, RINGING, Delivery(event, AckLost)) ==
            (RowOf(Advance(RINGING, event), event.observedAt), RINGING)
  {
    var updated := Advance(RINGING, event);
    assert IsMonotonicUpdate(ROWS[0], updated, event.observedAt);
    assert !TakenByOther(ROWS, 0, 2);
    assert ROWS[0 := ROWS[0].(state := Succeeded(updated), updatedAt := event.observedAt)] ==
           RowOf(updated, event.observedAt);
  }

  lemma RefusedWrite(row: Call, updatedAt: int, live: Call, event: StatusEvent)
    requires ApplyStatusEvent(live, event).Ok? && SameIdentity(row, live) && Deliver(live, event) != row
    requires !IsMonotonicUpdate(Attempt(0, Succeeded(row), 0, updatedAt), Deliver(live, event), event.observedAt)
    ensures Observe(RowOf(row, updatedAt), PLACE, live, Delivery(event, NoFault)) ==
            (RowOf(row, updatedAt), Deliver(live, event))
  {}

  /** An acknowledgement lost, then a newer callback in order and without a fault: the row is in progress for ever while
      the call has ended. */
  lemma LostAcknowledgementParts() returns (deliveries: seq<Delivery>)
    ensures InOrder(deliveries, ROWS[0].updatedAt) && |deliveries| == 2 && deliveries[1].fault == NoFault
    ensures var (after, now) := ObserveAll(ROWS, PLACE, RINGING, deliveries);
      && now.status == Completed && 0 in after && after[0].state.Succeeded?
      && after[0].state.call.status == InProgress && Apart(after[0].state.call, now)
  {
    var unheard, newer := StatusEvent(8, 2, InProgress, 2, 6), StatusEvent(9, 2, Completed, 3, 9);
    var row, now := Advance(RINGING, unheard), Advance(RINGING, newer);
    deliveries := [Delivery(unheard, AckLost), Delivery(newer, NoFault)];
    assert deliveries[..1] == [deliveries[0]] && [deliveries[0]][..0] == [];
    UnheardWrite(unheard);
    assert 8 in row.processed && 8 !in now.processed;
    RefusedWrite(row, 6, RINGING, newer);
    ObserveTwo(ROWS, PLACE, RINGING, deliveries[0], deliveries[1]);
  }

  /** Redelivering the unheard callback after another one was applied can be too late even when nothing newer than it
      was: row and live call have ended differently, although every callback of the row is applied and the time is
      right. */
  lemma LateRedeliveryEndsTwice() returns (deliveries: seq<Delivery>)
    ensures |deliveries| == 3 && deliveries[2].fault == NoFault && deliveries[2].event == deliveries[0].event
    ensures deliveries[1].event.sequence < deliveries[0].event.sequence
    ensures var (after, now) := ObserveAll(ROWS, PLACE, RINGING, deliveries);
      && 0 in after && after[0].state.Succeeded? && after[0].updatedAt <= deliveries[2].event.observedAt
      && now.status == Completed && after[0].state.call.status == Failed
      && AllIn(after[0].state.call.processed, now.processed) && Apart(after[0].state.call, now)
  {
    var unheard, other := StatusEvent(9, 2, Failed, 3, 6), StatusEvent(8, 2, Completed, 2, 6);
    var row, live := Advance(RINGING, unheard), Advance(RINGING, other);
    deliveries := [Delivery(unheard, AckLost), Delivery(other, NoFault), Delivery(unheard, NoFault)];
    assert deliveries[..2] == [deliveries[0], deliveries[1]];
    UnheardWrite(unheard);
    assert 9 in row.processed && 9 !in live.processed;
    RefusedWrite(row, 6, RINGING, other);
    RefusedWrite(row, 6, live, unheard);
    ObserveTwo(ROWS, PLACE, RINGING, deliveries[0], deliveries[1]);
    assert AllIn(row.processed, Advance(live, unheard).processed);
  }
}
