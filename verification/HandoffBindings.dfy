/**
 Who is present in the conference of a human handoff: one last-writer-wins register per participant, fed by callbacks
 that may be duplicated and reordered, kept once in memory and once in a table.
 */
module HandoffBindings {
  import opened Wrappers

  type Identifier = nat

  /** A join or leave callback. Its event id is a digest of its fields, `stamp` among them, so equal ids mean equal
      callbacks; a callback is its own event id here. */
  datatype Callback = Callback(participant: Identifier, conference: Identifier, joined: bool, sequence: nat, stamp: nat)

  /** Whether a participant is present, by the highest sequence number heard. */
  datatype Presence = Presence(present: bool, last: Option<nat>) {
    function Last(): int {
      if last.Some? then last.value else -1
    }
  }

  datatype Binding = Binding(handoff: Identifier, call: Identifier, remoteSid: Identifier,
                             conference: Option<Identifier>, coordinatorSid: Option<Identifier>,
                             remote: Presence, coordinator: Presence)
  {
    predicate Owns(participant: Identifier) {
      participant == remoteSid || coordinatorSid == Some(participant)
    }

    /** The side of the participant; the remote side wins if one call were on both. */
    function Side(participant: Identifier): Presence {
      if participant == remoteSid then remote else coordinator
    }
  }

  datatype Error = PermissionDenied | UnknownHandoff | IntegrityViolation

  type Applied = Result<(Binding, bool), Error>

  const ABSENT := Presence(false, None)

  function NewBinding(handoff: Identifier, call: Identifier, remoteSid: Identifier): Binding {
    Binding(handoff, call, remoteSid, None, None, ABSENT, ABSENT)
  }

  predicate Newer(b: Binding, cb: Callback) {
    cb.sequence > b.Side(cb.participant).Last()
  }

  function InConference(b: Binding, conference: Identifier): Binding {
    if b.conference.None? then b.(conference := Some(conference)) else b
  }

  function Heard(b: Binding, cb: Callback): Binding {
    var presence := Presence(cb.joined, Some(cb.sequence));
    if cb.participant == b.remoteSid then b.(remote := presence) else b.(coordinator := presence)
  }

  function Attached(b: Binding, conference: Identifier, coordinatorSid: Identifier): Binding {
    b.(conference := Some(conference), coordinatorSid := Some(coordinatorSid))
  }

  predicate MayAttach(b: Binding, conference: Identifier, coordinatorSid: Identifier) {
    (b.conference.None? || b.conference == Some(conference))
    && (b.coordinatorSid.None? || b.coordinatorSid == Some(coordinatorSid))
  }

  // ---------- The store in memory ----------

  type Bindings = map<Identifier, Binding>

  /** `order` is the order of insertion, `events` the ids of the callbacks that changed something. */
  datatype Memory = Memory(order: seq<Identifier>, bindings: Bindings, events: set<Callback>) {
    ghost predicate Valid() {
      && (forall h :: h in order <==> h in bindings)
      && (forall h :: h in bindings ==> bindings[h].handoff == h)
    }
  }

  function MemoryReserve(m: Memory, b: Binding): (Memory, Binding) {
    if b.handoff in m.bindings then (m, m.bindings[b.handoff])
    else (m.(order := m.order + [b.handoff], bindings := m.bindings[b.handoff := b]), b)
  }

  function MemoryAttach(m: Memory, handoff: Identifier, conference: Identifier, coordinatorSid: Identifier)
    : (Memory, Result<Binding, Error>)
  {
    if handoff !in m.bindings then (m, Err(UnknownHandoff))
    else if !MayAttach(m.bindings[handoff], conference, coordinatorSid) then (m, Err(PermissionDenied))
    else
      var updated := Attached(m.bindings[handoff], conference, coordinatorSid);
      (m.(bindings := m.bindings[handoff := updated]), Ok(updated))
  }

  /** The first binding, in the order of insertion, that owns the participant. */
  function Owner(order: seq<Identifier>, bindings: Bindings, participant: Identifier): (h: Option<Identifier>)
    ensures h.Some? ==> h.value in bindings && bindings[h.value].Owns(participant)
    ensures h.None? ==> forall k :: k in order && k in bindings ==> !bindings[k].Owns(participant)
  {
    if order == [] then None
    else if order[0] in bindings && bindings[order[0]].Owns(participant) then Some(order[0])
    else Owner(order[1..], bindings, participant)
  }

  function MemoryApplyTo(m: Memory, h: Identifier, cb: Callback): (Memory, Applied)
    requires h in m.bindings
  {
    var b := m.bindings[h];
    if b.conference.None? && cb.participant != b.remoteSid then (m, Err(PermissionDenied))
    else if b.conference.Some? && b.conference.value != cb.conference then (m, Err(PermissionDenied))
    else
      var c := InConference(b, cb.conference);
      if cb in m.events || !Newer(c, cb) then (m, Ok((c, false)))
      else (m.(bindings := m.bindings[h := Heard(c, cb)], events := m.events + {cb}), Ok((Heard(c, cb), true)))
  }

  function MemoryApply(m: Memory, cb: Callback): (Memory, Applied) {
    match Owner(m.order, m.bindings, cb.participant)
    case None => (m, Err(PermissionDenied))
    case Some(h) => MemoryApplyTo(m, h, cb)
  }

  class InMemoryTwilioHandoffBindingStore {
    var order: seq<Identifier>
    var bindings: Bindings
    var events: set<Callback>

    function View(): Memory
      reads this
    {
      Memory(order, bindings, events)
    }

    constructor ()
      ensures View() == Memory([], map[], {})
    {
      order, bindings, events := [], map[], {};
    }

    method Reserve(b: Binding) returns (reserved: Binding)
      modifies this
      ensures (View(), reserved) == MemoryReserve(old(View()), b)
    {
      if b.handoff in bindings {
        return bindings[b.handoff];
      }
      order := order + [b.handoff];
      bindings := bindings[b.handoff := b];
      return b;
    }

    method AttachCoordinator(handoff: Identifier, conference: Identifier, coordinatorSid: Identifier)
      returns (result: Result<Binding, Error>)
      modifies this
      ensures (View(), result) == MemoryAttach(old(View()), handoff, conference, coordinatorSid)
    {
      if handoff !in bindings {
        return Err(UnknownHandoff);
      }
      if !MayAttach(bindings[handoff], conference, coordinatorSid) {
        return Err(PermissionDenied);
      }
      var updated := Attached(bindings[handoff], conference, coordinatorSid);
      bindings := bindings[handoff := updated];
      return Ok(updated);
    }

    method FindOwner(participant: Identifier) returns (h: Option<Identifier>)
      ensures h == Owner(order, bindings, participant)
    {
      var i := 0;
      assert order[0..] == order;
      while i < |order|
        invariant 0 <= i <= |order|
        invariant Owner(order, bindings, participant) == Owner(order[i..], bindings, participant)
      {
        assert order[i..][1..] == order[i + 1..];
        if order[i] in bindings && bindings[order[i]].Owns(participant) {
          return Some(order[i]);
        }
        i := i + 1;
      }
      return None;
    }

    method ApplyCallback(cb: Callback) returns (result: Applied)
      modifies this
      ensures (View(), result) == MemoryApply(old(View()), cb)
    {
      var owner := FindOwner(cb.participant);
      if owner.None? {
        return Err(PermissionDenied);
      }
      var b := bindings[owner.value];
      if b.conference.None? {
        if cb.participant != b.remoteSid {
          return Err(PermissionDenied);
        }
        b := b.(conference := Some(cb.conference));
      } else if b.conference.value != cb.conference {
        return Err(PermissionDenied);
      }
      if cb in events {
        return Ok((b, false));
      }
      if cb.participant == b.remoteSid {
        if cb.sequence <= b.remote.Last() {
          return Ok((b, false));
        }
        b := b.(remote := Presence(cb.joined, Some(cb.sequence)));
      } else {
        if cb.sequence <= b.coordinator.Last() {
          return Ok((b, false));
        }
        b := b.(coordinator := Presence(cb.joined, Some(cb.sequence)));
      }
      bindings := bindings[owner.value := b];
      events := events + {cb};
      return Ok((b, true));
    }
  }

  // ---------- The store in a table ----------

  predicate Selected(b: Binding, cb: Callback) {
    || (b.conference == Some(cb.conference) && b.Owns(cb.participant))
    || (b.conference.None? && b.remoteSid == cb.participant)
  }

  /** Another row already has the conference. */
  predicate ConferenceTaken(rows: Bindings, h: Identifier, conference: Identifier) {
    exists k :: k in rows && k != h && rows[k].conference == Some(conference)
  }

  predicate CoordinatorTaken(rows: Bindings, h: Identifier, coordinatorSid: Identifier) {
    exists k :: k in rows && k != h && rows[k].coordinatorSid == Some(coordinatorSid)
  }

  function TableReserve(rows: Bindings, b: Binding): (Bindings, Binding) {
    if b.handoff in rows then (rows, rows[b.handoff]) else (rows[b.handoff := b], b)
  }

  function TableAttach(rows: Bindings, handoff: Identifier, conference: Identifier, coordinatorSid: Identifier)
    : (Bindings, Result<Binding, Error>)
  {
    if handoff !in rows || !MayAttach(rows[handoff], conference, coordinatorSid) then (rows, Err(PermissionDenied))
    else if ConferenceTaken(rows, handoff, conference) || CoordinatorTaken(rows, handoff, coordinatorSid) then
      (rows, Err(IntegrityViolation))
    else
      var updated := Attached(rows[handoff], conference, coordinatorSid);
      (rows[handoff := updated], Ok(updated))
  }

  function TableApplyTo(rows: Bindings, h: Identifier, cb: Callback): (Bindings, Applied)
    requires h in rows
  {
    var c := InConference(rows[h], cb.conference);
    if !Newer(c, cb) then (rows, Ok((c, false)))
    else if ConferenceTaken(rows, h, cb.conference) then (rows, Err(IntegrityViolation))
    else (rows[h := Heard(c, cb)], Ok((Heard(c, cb), true)))
  }

  /** The query takes the first of the selected rows in no particular order, so what it does is a relation. */
  ghost predicate TableApplies(rows: Bindings, cb: Callback, after: Bindings, result: Applied) {
    || ((forall h :: h in rows ==> !Selected(rows[h], cb)) && after == rows && result == Err(PermissionDenied))
    || exists h :: h in rows && Selected(rows[h], cb) && (after, result) == TableApplyTo(rows, h, cb)
  }

  // ---------- The status that is reported ----------

  datatype Status = Joined | FailedSafe | Connecting

  function StatusOf(b: Binding, cb: Callback): Status {
    if b.remote.present && b.coordinator.present then Joined
    else if !cb.joined then FailedSafe
    else Connecting
  }
}
