/** What a binding's presences say after any operations: which callbacks they depend on, and that arrival does not
    matter. */
module HandoffConvergence {
  import opened Wrappers
  import opened HandoffBindings
  import opened HandoffStores

  /** A callback is heard exactly when the first binding that has the participant is one the table could take: it is in
      the callback's conference, or in none while the participant is its remote side. Otherwise nothing changes. */
  lemma HeardExactly(m: Memory, cb: Callback)
    ensures var owner := Owner(m.order, m.bindings, cb.participant);
      && (MemoryApply(m, cb).1.Ok? <==> owner.Some? && Selected(m.bindings[owner.value], cb))
      && (MemoryApply(m, cb).1.Err? ==> MemoryApply(m, cb) == (m, Err(PermissionDenied)))
  {}

  /** The side of the binding that has the participant, the remote one if both have. */
  function SideOf(b: Binding, participant: Identifier): Presence {
    if b.remoteSid == participant then b.remote else b.coordinator
  }

  /** What a callback that is heard does: it counts exactly if its id is new and its number above the last one heard of
      its side; then it settles the conference and says whether that side is present, and nothing else changes. */
  lemma CountsExactly(m: Memory, cb: Callback, h: Identifier, after: Memory, b: Binding, counted: bool)
    requires Owner(m.order, m.bindings, cb.participant) == Some(h) && Selected(m.bindings[h], cb)
    requires (after, Ok((b, counted))) == MemoryApply(m, cb)
    ensures counted <==> cb !in m.events
                         && (SideOf(m.bindings[h], cb.participant).last.Some? ==>
                               cb.sequence > SideOf(m.bindings[h], cb.participant).last.value)
    ensures counted ==>
      && after == Memory(m.order, m.bindings[h := b], m.events + {cb}) && b.conference == Some(cb.conference)
      && SideOf(b, cb.participant) == Presence(cb.joined, Some(cb.sequence))
      && (b.remoteSid == cb.participant ==> b.coordinator == m.bindings[h].coordinator)
      && (b.remoteSid != cb.participant ==> b.remote == m.bindings[h].remote)
    ensures !counted ==> after == m && b.remote == m.bindings[h].remote && b.coordinator == m.bindings[h].coordinator
    ensures b.handoff == m.bindings[h].handoff && b.call == m.bindings[h].call
    ensures b.remoteSid == m.bindings[h].remoteSid && b.coordinatorSid == m.bindings[h].coordinatorSid
  {}

  /** An attachment is made exactly if the handoff is known and has neither another conference nor another coordinator;
      it gives the binding both, and changes nothing else. */
  lemma AttachesExactly(m: Memory, h: Identifier, conference: Identifier, coordinatorSid: Identifier, after: Memory,
                        result: Result<Binding, Error>)
    requires (after, result) == MemoryAttach(m, h, conference, coordinatorSid)
    ensures result == Err(UnknownHandoff) <==> h !in m.bindings
    ensures result.Ok? <==>
            h in m.bindings
            && (m.bindings[h].conference.Some? ==> m.bindings[h].conference.value == conference)
            && (m.bindings[h].coordinatorSid.Some? ==> m.bindings[h].coordinatorSid.value == coordinatorSid)
    ensures result.Err? ==> after == m
    ensures result.Ok? ==>
      && after == m.(bindings := m.bindings[h := result.value])
      && result.value == m.bindings[h].(conference := Some(conference), coordinatorSid := Some(coordinatorSid))
  {}

  /** The table attaches under the same condition, unless another row has the conference or the coordinator; only there
      does it fail on its constraints. */
  lemma TableAttachesExactly(rows: Bindings, h: Identifier, conference: Identifier, coordinatorSid: Identifier,
                             after: Bindings, result: Result<Binding, Error>)
    requires (after, result) == TableAttach(rows, h, conference, coordinatorSid)
    ensures var fits := h in rows
                        && (rows[h].conference.Some? ==> rows[h].conference.value == conference)
                        && (rows[h].coordinatorSid.Some? ==> rows[h].coordinatorSid.value == coordinatorSid);
      var taken := exists k :: k in rows && k != h
                               && (rows[k].conference == Some(conference)
                                   || rows[k].coordinatorSid == Some(coordinatorSid));
      && (result == Err(PermissionDenied) <==> !fits)
      && (result == Err(IntegrityViolation) <==> fits && taken)
      && (result.Ok? <==> fits && !taken)
    ensures result.Err? ==> after == rows
    ensures result.Ok? ==>
      && after == rows[h := result.value]
      && result.value == rows[h].(conference := Some(conference), coordinatorSid := Some(coordinatorSid))
  {}

  // ---------- One operation ----------

  /** The binding has its conference and its coordinator. */
  predicate Complete(b: Binding) {
    b.conference.Some? && b.coordinatorSid.Some?
  }

  /** The callback is about `participant` in the conference of the binding, which may still be any. */
  predicate Concerns(b: Binding, cb: Callback, participant: Identifier) {
    cb.participant == participant && (b.conference.None? || b.conference == Some(cb.conference))
  }

  /** Everything but the presences. */
  predicate SameCalls(b: Binding, c: Binding) {
    b.(remote := ABSENT, coordinator := ABSENT) == c.(remote := ABSENT, coordinator := ABSENT)
  }

  /** The participant can be heard of: it is on the binding, and only the remote side before there is a conference. */
  predicate Audible(b: Binding, participant: Identifier) {
    b.Owns(participant) && (b.conference.Some? || participant == b.remoteSid)
  }

  /** The operation is a callback about the participant above what was heard, which `p` was. */
  predicate Tells(b: Binding, p: Presence, op: Operation, participant: Identifier) {
    op.Deliver? && Concerns(b, op.cb, participant) && op.cb.sequence > p.Last()
  }

  /** From `b` to `c` only what was open is settled, and the presence goes from `p` to what the operation tells. */
  predicate Moves(b: Binding, c: Binding, p: Presence, q: Presence, op: Operation, participant: Identifier) {
    && c.remoteSid == b.remoteSid && (b.conference.Some? ==> c.conference == b.conference)
    && (b.coordinatorSid.Some? ==> c.coordinatorSid == b.coordinatorSid)
    && (if Tells(b, p, op, participant)
        then q == Presence(op.cb.joined, Some(op.cb.sequence)) && c.conference == Some(op.cb.conference)
        else q == p)
  }

  lemma DeliverMoves(m: Memory, h: Identifier, cb: Callback, participant: Identifier, after: Memory)
    requires Tracks(m) && h in m.bindings && Audible(m.bindings[h], participant) && after == MemoryApply(m, cb).0
    ensures h in after.bindings && Audible(after.bindings[h], participant)
    ensures Moves(m.bindings[h], after.bindings[h], m.bindings[h].Side(participant),
                  after.bindings[h].Side(participant), Deliver(cb), participant)
  {
    if m.bindings[h].Owns(cb.participant) {
      OwnerIs(m, cb.participant, h);
    }
  }

  lemma OperationMoves(m: Memory, h: Identifier, op: Operation, participant: Identifier, after: Memory)
    requires Tracks(m) && h in m.bindings && Audible(m.bindings[h], participant) && after == MemoryStep(m, op).0
    ensures h in after.bindings && Audible(after.bindings[h], participant)
    ensures Moves(m.bindings[h], after.bindings[h], m.bindings[h].Side(participant),
                  after.bindings[h].Side(participant), op, participant)
  {
    if op.Deliver? {
      DeliverMoves(m, h, op.cb, participant, after);
    }
  }

  // ---------- The last word ----------

  /** `p` is the word of the highest-numbered callback about the participant, or `start` if none is above it. */
  ghost predicate LastWord(b: Binding, start: Presence, ops: seq<Operation>, participant: Identifier, p: Presence) {
    && start.Last() <= p.Last()
    && (forall cb :: Deliver(cb) in ops && Concerns(b, cb, participant) ==> cb.sequence <= p.Last())
    && (p == start || Told(b, ops, participant, p))
    && (p.Last() == start.Last() ==> p == start)
  }

  ghost predicate Told(b: Binding, ops: seq<Operation>, participant: Identifier, p: Presence) {
    exists cb :: Deliver(cb) in ops && Concerns(b, cb, participant) && p == Presence(cb.joined, Some(cb.sequence))
  }

  lemma LastWordStep(b: Binding, c: Binding, start: Presence, ops: seq<Operation>, participant: Identifier, p: Presence,
                     op: Operation, q: Presence, longer: seq<Operation>)
    requires LastWord(b, start, ops, participant, p) && (b.conference.None? ==> p == start)
    requires Moves(b, c, p, q, op, participant) && longer == ops + [op]
    ensures LastWord(c, start, longer, participant, q) && (c.conference.None? ==> q == start)
  {
    assert forall cb :: Deliver(cb) in longer <==> Deliver(cb) in ops || op == Deliver(cb);
    if Tells(b, p, op, participant) {
      assert Deliver(op.cb) in longer && Concerns(c, op.cb, participant);
    } else if p != start {
      var cb :| Deliver(cb) in ops && Concerns(b, cb, participant) && p == Presence(cb.joined, Some(cb.sequence));
      assert Deliver(cb) in longer && Concerns(c, cb, participant);
    }
  }

  /** Every operation of the run keeps calls apart. */
  ghost predicate CallsApartFrom(m: Memory, ops: seq<Operation>) {
    ops == []
    || (CallsApartFrom(m, ops[..|ops| - 1]) && CallsApart(MemoryRun(m, ops[..|ops| - 1]), ops[|ops| - 1]))
  }

  /** After any operations that keep calls apart, each participant's presence is what the callback with the highest
      sequence number said. */
  lemma {:induction false} HighestSequenceWins(m: Memory, h: Identifier, ops: seq<Operation>, participant: Identifier,
                                               after: Memory)
    requires Tracks(m) && CallsApartFrom(m, ops) && h in m.bindings && Audible(m.bindings[h], participant)
    requires after == MemoryRun(m, ops)
    ensures Tracks(after) && h in after.bindings && Audible(after.bindings[h], participant)
    ensures LastWord(after.bindings[h], m.bindings[h].Side(participant), ops, participant,
                     after.bindings[h].Side(participant))
    ensures after.bindings[h].conference.None? ==>
      after.bindings[h].Side(participant) == m.bindings[h].Side(participant)
  {
    if ops != [] {
      var earlier, op := ops[..|ops| - 1], ops[|ops| - 1];
      var before := MemoryRun(m, earlier);
      HighestSequenceWins(m, h, earlier, participant, before);
      StepKeepsTrack(before, op);
      OperationMoves(before, h, op, participant, after);
      LastWordStep(before.bindings[h], after.bindings[h], m.bindings[h].Side(participant), earlier, participant,
                   before.bindings[h].Side(participant), op, after.bindings[h].Side(participant), ops);
    }
  }

  /** The sequence number decides: two callbacks about one participant with the same number say the same. */
  ghost predicate SequencesDecide(b: Binding, ops: seq<Operation>) {
    forall cb, d :: Deliver(cb) in ops && Deliver(d) in ops && cb.sequence == d.sequence ==>
      (forall x :: Concerns(b, cb, x) && Concerns(b, d, x) ==> cb.joined == d.joined)
  }

  /** The callback is a join, and no callback about the participant has a higher number. */
  ghost predicate LastIsJoin(b: Binding, ops: seq<Operation>, participant: Identifier, cb: Callback) {
    && Deliver(cb) in ops && Concerns(b, cb, participant) && cb.joined
    && forall d :: Deliver(d) in ops && Concerns(b, d, participant) ==> d.sequence <= cb.sequence
  }

  /** What the last word says of a participant that was absent: it is present exactly when its highest-numbered callback
      is a join. */
  lemma PresentExactly(b: Binding, ops: seq<Operation>, participant: Identifier, p: Presence)
    requires LastWord(b, ABSENT, ops, participant, p) && SequencesDecide(b, ops)
    ensures p.present <==> exists cb :: LastIsJoin(b, ops, participant, cb)
  {
    if p.present {
      var cb :| Deliver(cb) in ops && Concerns(b, cb, participant) && p == Presence(cb.joined, Some(cb.sequence));
      assert LastIsJoin(b, ops, participant, cb);
    }
    if cb :| LastIsJoin(b, ops, participant, cb) {
      assert cb.sequence <= p.Last();
      var d :| Deliver(d) in ops && Concerns(b, d, participant) && p == Presence(d.joined, Some(d.sequence));
      assert d.sequence == cb.sequence;
    }
  }

  // ---------- From when on a participant is heard ----------

  lemma {:induction false} RunSplits(m: Memory, first: seq<Operation>, second: seq<Operation>)
    ensures MemoryRun(m, first + second) == MemoryRun(MemoryRun(m, first), second)
    ensures CallsApartFrom(m, first + second) ==>
      CallsApartFrom(m, first) && CallsApartFrom(MemoryRun(m, first), second)
  {
    if second == [] {
      assert first + second == first;
    } else {
      var all, rest := first + second, second[..|second| - 1];
      assert all[..|all| - 1] == first + rest && all[|all| - 1] == second[|second| - 1];
      RunSplits(m, first, rest);
    }
  }

  /** A binding whose coordinator is not a call of its own never heard of a coordinator. */
  predicate Unheard(b: Binding) {
    b.coordinatorSid.None? || b.coordinatorSid == Some(b.remoteSid) ==> b.coordinator == ABSENT
  }

  lemma {:induction false} RunKeeps(ops: seq<Operation>, h: Identifier)
    requires CallsApartFrom(EMPTY, ops)
    ensures Tracks(MemoryAfter(ops))
    ensures h in MemoryAfter(ops).bindings ==> Unheard(MemoryAfter(ops).bindings[h])
  {
    if ops != [] {
      RunKeeps(ops[..|ops| - 1], h);
      StepKeepsTrack(MemoryAfter(ops[..|ops| - 1]), ops[|ops| - 1]);
    }
  }

  lemma RunAround(earlier: seq<Operation>, op: Operation, later: seq<Operation>, ops: seq<Operation>)
    returns (before: Memory, next: Memory)
    requires CallsApartFrom(EMPTY, ops) && ops == earlier + [op] + later
    ensures before == MemoryAfter(earlier) && next == MemoryStep(before, op).0
    ensures MemoryAfter(ops) == MemoryRun(next, later)
    ensures CallsApartFrom(EMPTY, earlier) && CallsApart(before, op) && CallsApartFrom(next, later)
  {
    var upTo := earlier + [op];
    RunSplits(EMPTY, upTo, later);
    assert upTo[..|upTo| - 1] == earlier;
    before, next := MemoryAfter(earlier), MemoryAfter(upTo);
  }

  /** The remote side is heard from its reservation on: whatever else happens, its presence is the last word of exactly
      the callbacks delivered since, in the conference that the binding has come to. */
  lemma RemoteIsHeardFromReservation(earlier: seq<Operation>, h: Identifier, call: Identifier, remoteSid: Identifier,
                                     later: seq<Operation>, ops: seq<Operation>)
    requires CallsApartFrom(EMPTY, ops) && ops == earlier + [Reserve(h, call, remoteSid)] + later
    requires h !in MemoryAfter(earlier).bindings
    ensures h in MemoryAfter(ops).bindings && MemoryAfter(ops).bindings[h].remoteSid == remoteSid
    ensures var b := MemoryAfter(ops).bindings[h]; LastWord(b, ABSENT, later, remoteSid, b.remote)
  {
    var before, next := RunAround(earlier, Reserve(h, call, remoteSid), later, ops);
    RunKeeps(earlier, h);
    StepKeepsTrack(before, Reserve(h, call, remoteSid));
    RemoteStays(next, h, later);
    HighestSequenceWins(next, h, later, remoteSid, MemoryAfter(ops));
  }

  lemma {:induction false} RemoteStays(m: Memory, h: Identifier, ops: seq<Operation>)
    requires h in m.bindings
    ensures WrittenOnce(m.bindings, MemoryRun(m, ops).bindings)
  {
    if ops != [] {
      RemoteStays(m, h, ops[..|ops| - 1]);
      MemorySidsAreWrittenOnce(MemoryRun(m, ops[..|ops| - 1]), ops[|ops| - 1]);
    }
  }

  /** The attachment is made, and gives the binding its coordinator. */
  ghost predicate FirstAttachment(m: Memory, h: Identifier, conference: Identifier, coordinatorSid: Identifier) {
    && h in m.bindings && m.bindings[h].coordinatorSid.None? && m.bindings[h].remoteSid != coordinatorSid
    && MayAttach(m.bindings[h], conference, coordinatorSid)
  }

  /** The coordinator is heard from its attachment on: its presence is the last word of exactly the callbacks delivered
      since. What was delivered before is lost, whatever it said. */
  lemma CoordinatorIsHeardFromAttachment(earlier: seq<Operation>, h: Identifier, conference: Identifier,
                                         coordinatorSid: Identifier, later: seq<Operation>, ops: seq<Operation>)
    requires CallsApartFrom(EMPTY, ops) && ops == earlier + [Attach(h, conference, coordinatorSid)] + later
    requires FirstAttachment(MemoryAfter(earlier), h, conference, coordinatorSid)
    ensures h in MemoryAfter(ops).bindings
    ensures var b := MemoryAfter(ops).bindings[h];
      && b.conference == Some(conference) && b.coordinatorSid == Some(coordinatorSid)
      && LastWord(b, ABSENT, later, coordinatorSid, b.coordinator)
  {
    var before, next := RunAround(earlier, Attach(h, conference, coordinatorSid), later, ops);
    RunKeeps(earlier, h);
    StepKeepsTrack(before, Attach(h, conference, coordinatorSid));
    RemoteStays(next, h, later);
    HighestSequenceWins(next, h, later, coordinatorSid, MemoryAfter(ops));
  }

  /** So a coordinator that joined before it was attached stays absent until another callback about it comes. */
  lemma EarlyCoordinatorIsLost(earlier: seq<Operation>, h: Identifier, conference: Identifier,
                               coordinatorSid: Identifier, later: seq<Operation>, ops: seq<Operation>)
    requires CallsApartFrom(EMPTY, ops) && ops == earlier + [Attach(h, conference, coordinatorSid)] + later
    requires FirstAttachment(MemoryAfter(earlier), h, conference, coordinatorSid)
    requires forall cb :: Deliver(cb) in later ==> cb.participant != coordinatorSid
    ensures h in MemoryAfter(ops).bindings && Complete(MemoryAfter(ops).bindings[h])
    ensures MemoryAfter(ops).bindings[h].coordinator == ABSENT
  {
    CoordinatorIsHeardFromAttachment(earlier, h, conference, coordinatorSid, later, ops);
  }

  // ---------- Arrival does not matter ----------

  lemma {:induction false} CompleteStays(m: Memory, h: Identifier, ops: seq<Operation>)
    requires h in m.bindings && Complete(m.bindings[h])
    ensures h in MemoryRun(m, ops).bindings && SameCalls(m.bindings[h], MemoryRun(m, ops).bindings[h])
    ensures m.bindings[h].coordinatorSid == Some(m.bindings[h].remoteSid) ==>
      MemoryRun(m, ops).bindings[h].coordinator == m.bindings[h].coordinator
  {
    if ops != [] {
      CompleteStays(m, h, ops[..|ops| - 1]);
    }
  }

  /** The same callbacks about the binding are delivered. */
  ghost predicate SameWords(b: Binding, ops: seq<Operation>, others: seq<Operation>) {
    forall cb: Callback :: b.Owns(cb.participant) && Concerns(b, cb, cb.participant) ==>
      (Deliver(cb) in ops <==> Deliver(cb) in others)
  }

  lemma OneLastWord(b: Binding, start: Presence, participant: Identifier, ops: seq<Operation>, p: Presence,
                    others: seq<Operation>, q: Presence)
    requires b.Owns(participant) && SequencesDecide(b, ops) && SameWords(b, ops, others)
    requires LastWord(b, start, ops, participant, p) && LastWord(b, start, others, participant, q)
    ensures p == q
  {
    assert forall cb :: Concerns(b, cb, participant) ==> (Deliver(cb) in ops <==> Deliver(cb) in others);
  }

  lemma SameSides(m: Memory, h: Identifier, participant: Identifier, ops: seq<Operation>, after: Memory,
                  others: seq<Operation>, other: Memory)
    requires Tracks(m) && CallsApartFrom(m, ops) && CallsApartFrom(m, others)
    requires h in m.bindings && Complete(m.bindings[h]) && m.bindings[h].Owns(participant)
    requires SequencesDecide(m.bindings[h], ops) && SameWords(m.bindings[h], ops, others)
    requires after == MemoryRun(m, ops) && other == MemoryRun(m, others)
    ensures h in after.bindings && h in other.bindings
    ensures after.bindings[h].Side(participant) == other.bindings[h].Side(participant)
  {
    CompleteStays(m, h, ops);
    CompleteStays(m, h, others);
    HighestSequenceWins(m, h, ops, participant, after);
    HighestSequenceWins(m, h, others, participant, other);
    LastWordIn(m.bindings[h], after.bindings[h], m.bindings[h].Side(participant), ops, participant,
               after.bindings[h].Side(participant));
    LastWordIn(m.bindings[h], other.bindings[h], m.bindings[h].Side(participant), others, participant,
               other.bindings[h].Side(participant));
    OneLastWord(m.bindings[h], m.bindings[h].Side(participant), participant, ops,
                after.bindings[h].Side(participant), others, other.bindings[h].Side(participant));
  }

  /** Only the conference of the binding matters to the last word. */
  lemma LastWordIn(b: Binding, c: Binding, start: Presence, ops: seq<Operation>, participant: Identifier, p: Presence)
    requires b.conference == c.conference && LastWord(c, start, ops, participant, p)
    ensures LastWord(b, start, ops, participant, p)
  {
    assert forall cb :: Concerns(b, cb, participant) == Concerns(c, cb, participant);
  }

  /** Once the coordinator is attached, two runs with the same callbacks about the binding, reordered, repeated and
      mixed with any operations about other handoffs in any way, lead it to the same state, and so to the same joined
      verdict. */
  lemma OrderDoesNotMatter(m: Memory, h: Identifier, ops: seq<Operation>, after: Memory, others: seq<Operation>,
                           other: Memory)
    requires Tracks(m) && CallsApartFrom(m, ops) && CallsApartFrom(m, others)
    requires h in m.bindings && Complete(m.bindings[h])
    requires SequencesDecide(m.bindings[h], ops) && SameWords(m.bindings[h], ops, others)
    requires after == MemoryRun(m, ops) && other == MemoryRun(m, others)
    ensures h in after.bindings && h in other.bindings && after.bindings[h] == other.bindings[h]
  {
    var b := m.bindings[h];
    SameSides(m, h, b.remoteSid, ops, after, others, other);
    SameSides(m, h, b.coordinatorSid.value, ops, after, others, other);
    CompleteStays(m, h, ops);
    CompleteStays(m, h, others);
  }

  /** What is reported for a callback: joined exactly when both presences say so, and each of them is the last word of
      all the callbacks so far, this one included; otherwise a leave fails safe, and a join is still connecting. */
  lemma JoinedExactlyWhenBothPresent(m: Memory, h: Identifier, ops: seq<Operation>, after: Memory, cb: Callback,
                                     participant: Identifier)
    requires Tracks(m) && CallsApartFrom(m, ops) && after == MemoryRun(m, ops)
    requires h in m.bindings && Complete(m.bindings[h])
    requires m.bindings[h].Owns(cb.participant) && m.bindings[h].conference == Some(cb.conference)
    requires m.bindings[h].Owns(participant)
    ensures MemoryApply(after, cb).1.Ok?
    ensures var reported := MemoryApply(after, cb).1.value.0;
      && LastWord(reported, m.bindings[h].Side(participant), ops + [Deliver(cb)], participant,
                  reported.Side(participant))
      && (StatusOf(reported, cb) == Joined <==> reported.remote.present && reported.coordinator.present)
      && (StatusOf(reported, cb) == FailedSafe <==>
            !(reported.remote.present && reported.coordinator.present) && !cb.joined)
      && (StatusOf(reported, cb) == Connecting <==>
            !(reported.remote.present && reported.coordinator.present) && cb.joined)
  {
    var longer := ops + [Deliver(cb)];
    assert longer[..|ops|] == ops;
    CompleteStays(m, h, ops);
    HighestSequenceWins(m, h, ops, participant, after);
    HighestSequenceWins(m, h, longer, participant, MemoryRun(m, longer));
    OwnerIs(after, cb.participant, h);
  }

  // ---------- The same of the table ----------

  lemma {:induction false} ApartKeepsCalls(ops: seq<Operation>)
    requires ApartThroughout(ops)
    ensures CallsApartFrom(EMPTY, ops)
  {
    if ops != [] {
      ApartKeepsCalls(ops[..|ops| - 1]);
    }
  }

  lemma {:induction false} ApartBefore(first: seq<Operation>, second: seq<Operation>)
    requires ApartThroughout(first + second)
    ensures ApartThroughout(first)
  {
    if second == [] {
      assert first + second == first;
    } else {
      var all, rest := first + second, second[..|second| - 1];
      assert all[..|all| - 1] == first + rest;
      ApartBefore(first, rest);
    }
  }

  /** A run of the table in two parts is a run of the store in memory that continues the state after the first part. */
  lemma TableContinues(earlier: seq<Operation>, ops: seq<Operation>, rows: Bindings, outcome: Option<Outcome>)
    requires ApartThroughout(earlier + ops) && TableReaches(earlier + ops, rows, outcome)
    ensures Tracks(MemoryAfter(earlier)) && CallsApartFrom(MemoryAfter(earlier), ops)
    ensures rows == MemoryRun(MemoryAfter(earlier), ops).bindings
  {
    ApartBefore(earlier, ops);
    StoresAgree(earlier);
    StoresAgree(earlier + ops);
    ApartKeepsCalls(earlier + ops);
    RunSplits(EMPTY, earlier, ops);
  }

  /** On runs that keep calls and conferences apart, arrival does not matter to the table either, whatever rows its
      queries take. */
  lemma TableOrderDoesNotMatter(earlier: seq<Operation>, before: Bindings, first: Option<Outcome>, h: Identifier,
                                ops: seq<Operation>, rows: Bindings, outcome: Option<Outcome>,
                                others: seq<Operation>, otherRows: Bindings, other: Option<Outcome>)
    requires ApartThroughout(earlier + ops) && ApartThroughout(earlier + others)
    requires TableReaches(earlier, before, first) && h in before && Complete(before[h])
    requires TableReaches(earlier + ops, rows, outcome) && TableReaches(earlier + others, otherRows, other)
    requires SequencesDecide(before[h], ops) && SameWords(before[h], ops, others)
    ensures h in rows && h in otherRows && rows[h] == otherRows[h]
  {
    var m := MemoryAfter(earlier);
    ApartBefore(earlier, ops);
    StoresAgree(earlier);
    TableContinues(earlier, ops, rows, outcome);
    TableContinues(earlier, others, otherRows, other);
    OrderDoesNotMatter(m, h, ops, MemoryRun(m, ops), others, MemoryRun(m, others));
  }

  /** The table hears the coordinator from its attachment on, too. */
  lemma TableHearsFromAttachment(earlier: seq<Operation>, h: Identifier, conference: Identifier,
                                 coordinatorSid: Identifier, later: seq<Operation>, ops: seq<Operation>, rows: Bindings,
                                 outcome: Option<Outcome>)
    requires ApartThroughout(ops) && ops == earlier + [Attach(h, conference, coordinatorSid)] + later
    requires FirstAttachment(MemoryAfter(earlier), h, conference, coordinatorSid)
    requires TableReaches(ops, rows, outcome)
    ensures h in rows && rows[h].conference == Some(conference) && rows[h].coordinatorSid == Some(coordinatorSid)
    ensures LastWord(rows[h], ABSENT, later, coordinatorSid, rows[h].coordinator)
  {
    StoresAgree(ops);
    ApartKeepsCalls(ops);
    CoordinatorIsHeardFromAttachment(earlier, h, conference, coordinatorSid, later, ops);
  }

  // ---------- Where the guarantees end ----------

  /** A coordinator joins, and is attached afterwards: it counts as absent. */
  lemma EarlyJoin() returns (ops: seq<Operation>)
    ensures CallsApartFrom(EMPTY, ops)
    ensures ops == [Reserve(1, 7, 5), Deliver(Callback(6, 10, true, 1, 0)), Attach(1, 10, 6)]
    ensures 1 in MemoryAfter(ops).bindings && Complete(MemoryAfter(ops).bindings[1])
    ensures MemoryAfter(ops).bindings[1].coordinator == ABSENT
  {
    ops := [Reserve(1, 7, 5), Deliver(Callback(6, 10, true, 1, 0)), Attach(1, 10, 6)];
    assert ops[..2][..1] == ops[..1] && ops[..1][..0] == [];
    assert MemoryRun(EMPTY, ops[..1]) == Memory([1], map[1 := NewBinding(1, 7, 5)], {});
    OneMoreApart(EMPTY, ops[..1]);
    assert MemoryRun(EMPTY, ops[..2]) == Memory([1], map[1 := NewBinding(1, 7, 5)], {});
    OneMoreApart(EMPTY, ops[..2]);
    OneMoreApart(EMPTY, ops);
    assert MemoryRun(EMPTY, ops) == Memory([1], map[1 := Attached(NewBinding(1, 7, 5), 10, 6)], {});
  }

  lemma OneMoreApart(m: Memory, ops: seq<Operation>)
    requires ops != [] && CallsApartFrom(m, ops[..|ops| - 1])
    requires CallsApart(MemoryRun(m, ops[..|ops| - 1]), ops[|ops| - 1])
    ensures CallsApartFrom(m, ops)
  {}

  /** Two handoffs of one call share its remote side. Then the stores part: the one in memory asks the binding inserted
      first and refuses, the table finds the binding of the conference and records the join. */
  lemma SharedCallDivides() returns (m: Memory, cb: Callback, after: Bindings)
    ensures m.Valid() && m == MemoryAfter([Reserve(1, 7, 5), Attach(1, 10, 6), Reserve(2, 7, 5), Attach(2, 20, 8)])
    ensures MemoryApply(m, cb).1 == Err(PermissionDenied)
    ensures 2 in after && after[2].remote.present
    ensures TableApplies(m.bindings, cb, after, Ok((after[2], true)))
  {
    var ops := [Reserve(1, 7, 5), Attach(1, 10, 6), Reserve(2, 7, 5), Attach(2, 20, 8)];
    m := TwoHandoffs(ops);
    cb := Callback(5, 20, true, 1, 0);
    after := m.bindings[2 := Heard(m.bindings[2], cb)];
    assert Selected(m.bindings[2], cb);
    assert TableApplyTo(m.bindings, 2, cb) == (after, Ok((after[2], true)));
  }

  lemma TwoHandoffs(ops: seq<Operation>) returns (m: Memory)
    requires ops == [Reserve(1, 7, 5), Attach(1, 10, 6), Reserve(2, 7, 5), Attach(2, 20, 8)]
    ensures m == MemoryAfter(ops)
    ensures m == Memory([1, 2], map[1 := Attached(NewBinding(1, 7, 5), 10, 6),
                                    2 := Attached(NewBinding(2, 7, 5), 20, 8)], {})
  {
    assert ops[..3][..2] == ops[..2] && ops[..2][..1] == ops[..1] && ops[..1][..0] == [];
    assert MemoryRun(EMPTY, ops[..1]) == Memory([1], map[1 := NewBinding(1, 7, 5)], {});
    assert MemoryRun(EMPTY, ops[..2]) == Memory([1], map[1 := Attached(NewBinding(1, 7, 5), 10, 6)], {});
    assert MemoryRun(EMPTY, ops[..3]) ==
           Memory([1, 2], map[1 := Attached(NewBinding(1, 7, 5), 10, 6), 2 := NewBinding(2, 7, 5)], {});
    m := MemoryRun(EMPTY, ops);
  }

  /** Two handoffs of different calls, the second not in a conference yet. A callback that brings its call into the
      conference of the first one is recorded in memory, where both bindings then have that conference, and is refused
      by the table as a second row of the conference. */
  lemma ClashDivides() returns (m: Memory, cb: Callback)
    ensures m.Valid() && m == MemoryAfter([Reserve(1, 7, 5), Attach(1, 10, 6), Reserve(2, 8, 9)])
    ensures Clash(m.bindings, cb, 2) && MemoryApply(m, cb).1.Ok?
    ensures !ConferencesDiffer(MemoryApply(m, cb).0.bindings)
    ensures forall after, result :: TableApplies(m.bindings, cb, after, result) ==>
      after == m.bindings && result == Err(IntegrityViolation)
  {
    var ops := [Reserve(1, 7, 5), Attach(1, 10, 6), Reserve(2, 8, 9)];
    m := SecondReserved(ops);
    cb := Callback(9, 10, true, 1, 0);
    SecondClashes(m, cb);
  }

  lemma SecondClashes(m: Memory, cb: Callback)
    requires m == Memory([1, 2], map[1 := Attached(NewBinding(1, 7, 5), 10, 6), 2 := NewBinding(2, 8, 9)], {})
    requires cb == Callback(9, 10, true, 1, 0)
    ensures m.Valid() && Clash(m.bindings, cb, 2) && MemoryApply(m, cb).1.Ok?
    ensures !ConferencesDiffer(MemoryApply(m, cb).0.bindings)
    ensures forall after, result :: TableApplies(m.bindings, cb, after, result) ==>
      after == m.bindings && result == Err(IntegrityViolation)
  {
    assert m.order[1..][0] == 2;
    assert MemoryApply(m, cb) == MemoryApplyTo(m, 2, cb);
    assert m.bindings[1].conference == Some(10);
    SharedConference(MemoryApply(m, cb).0.bindings, 1, 2);
    assert Clash(m.bindings, cb, 2);
    assert TableApplyTo(m.bindings, 2, cb) == (m.bindings, Err(IntegrityViolation));
    assert Selected(m.bindings[2], cb) && !Selected(m.bindings[1], cb);
  }

  lemma SharedConference(bindings: Bindings, h: Identifier, k: Identifier)
    requires h in bindings && k in bindings && h != k
    requires bindings[h].conference.Some? && bindings[k].conference == bindings[h].conference
    ensures !ConferencesDiffer(bindings)
  {}

  lemma SecondReserved(ops: seq<Operation>) returns (m: Memory)
    requires ops == [Reserve(1, 7, 5), Attach(1, 10, 6), Reserve(2, 8, 9)]
    ensures m == MemoryAfter(ops)
    ensures m == Memory([1, 2], map[1 := Attached(NewBinding(1, 7, 5), 10, 6), 2 := NewBinding(2, 8, 9)], {})
  {
    assert ops[..2][..1] == ops[..1] && ops[..1][..0] == [];
    assert MemoryRun(EMPTY, ops[..1]) == Memory([1], map[1 := NewBinding(1, 7, 5)], {});
    assert MemoryRun(EMPTY, ops[..2]) == Memory([1], map[1 := Attached(NewBinding(1, 7, 5), 10, 6)], {});
    m := MemoryRun(EMPTY, ops);
  }
}
