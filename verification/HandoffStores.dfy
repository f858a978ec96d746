/** The two binding stores against each other, and the state that reordered and repeated callbacks lead to. */
module HandoffStores {
  import opened Wrappers
  import opened HandoffBindings

  // ---------- The invariant of runs over distinct calls ----------

  /** No call is on two bindings. */
  ghost predicate Distinct(bindings: Bindings) {
    forall h, k, x :: h in bindings && k in bindings && bindings[h].Owns(x) && bindings[k].Owns(x) ==> h == k
  }

  ghost predicate ConferencesDiffer(bindings: Bindings) {
    forall h, k :: h in bindings && k in bindings && h != k && bindings[h].conference.Some? ==>
      bindings[h].conference != bindings[k].conference
  }

  /** A callback whose id was seen is not above the last sequence number of its participant. */
  ghost predicate SeenAt(bindings: Bindings, cb: Callback, h: Identifier) {
    h in bindings && bindings[h].Owns(cb.participant) && !Newer(bindings[h], cb)
  }

  ghost predicate SeenIsStale(m: Memory) {
    forall cb :: cb in m.events ==> exists h :: SeenAt(m.bindings, cb, h)
  }

  ghost predicate Tracks(m: Memory) {
    m.Valid() && Distinct(m.bindings) && SeenIsStale(m)
  }

  ghost predicate Inv(m: Memory) {
    Tracks(m) && ConferencesDiffer(m.bindings)
  }

  // ---------- One callback ----------

  lemma OwnerIs(m: Memory, participant: Identifier, h: Identifier)
    requires m.Valid() && Distinct(m.bindings) && h in m.bindings && m.bindings[h].Owns(participant)
    ensures Owner(m.order, m.bindings, participant) == Some(h)
  {}

  /** The row is the binding that the store in memory asks, and if the callback is newer than what it heard, then the
      callback's id was not seen and no other row has the conference. */
  ghost predicate TakenAlike(m: Memory, cb: Callback, h: Identifier)
    requires h in m.bindings
  {
    && Owner(m.order, m.bindings, cb.participant) == Some(h)
    && (Newer(m.bindings[h], cb) ==> cb !in m.events && !ConferenceTaken(m.bindings, h, cb.conference))
  }

  ghost predicate HeardAlike(m: Memory, cb: Callback) {
    forall h :: h in m.bindings && Selected(m.bindings[h], cb) ==> TakenAlike(m, cb, h)
  }

  lemma TakenRow(m: Memory, cb: Callback, h: Identifier)
    requires m.Valid() && h in m.bindings && Selected(m.bindings[h], cb)
    ensures TableApplyTo(m.bindings, h, cb) == (MemoryApply(m, cb).0.bindings, MemoryApply(m, cb).1)
        <==> TakenAlike(m, cb, h)
  {}

  /** The two stores answer a callback alike and reach the same bindings, whichever row the query takes, exactly when
      every row that it may take is taken alike. */
  lemma CallbackHeardAlike(m: Memory, cb: Callback)
    requires m.Valid()
    ensures (forall after, result :: TableApplies(m.bindings, cb, after, result) ==>
               (after, result) == (MemoryApply(m, cb).0.bindings, MemoryApply(m, cb).1))
        <==> HeardAlike(m, cb)
  {
    forall h | h in m.bindings && Selected(m.bindings[h], cb)
      ensures TableApplyTo(m.bindings, h, cb) == (MemoryApply(m, cb).0.bindings, MemoryApply(m, cb).1)
          <==> TakenAlike(m, cb, h)
      ensures TableApplies(m.bindings, cb, TableApplyTo(m.bindings, h, cb).0, TableApplyTo(m.bindings, h, cb).1)
    {
      TakenRow(m, cb, h);
    }
  }

  /** The branch in which the stores part: the callback would put its call into a conference another binding has. */
  ghost predicate Clash(bindings: Bindings, cb: Callback, h: Identifier) {
    && h in bindings && bindings[h].remoteSid == cb.participant && bindings[h].conference.None?
    && Newer(bindings[h], cb) && ConferenceTaken(bindings, h, cb.conference)
  }

  /** With distinct calls and conferences that branch is all that is left. */
  lemma DistinctHeardAlike(m: Memory, cb: Callback)
    requires Inv(m)
    ensures HeardAlike(m, cb) <==> forall h :: !Clash(m.bindings, cb, h)
  {
    forall h | h in m.bindings && Selected(m.bindings[h], cb)
      ensures TakenAlike(m, cb, h) <==> !Clash(m.bindings, cb, h)
    {
      OwnerIs(m, cb.participant, h);
    }
    forall h | Clash(m.bindings, cb, h)
      ensures Selected(m.bindings[h], cb)
    {
    }
  }

  /** On bindings with distinct calls and conferences the stores agree on a callback exactly when it does not put its
      call into a conference that another binding has. */
  lemma StoresAgreeOnCallback(m: Memory, cb: Callback)
    requires Inv(m)
    ensures (forall after, result :: TableApplies(m.bindings, cb, after, result) ==>
               (after, result) == (MemoryApply(m, cb).0.bindings, MemoryApply(m, cb).1))
        <==> (forall h :: !Clash(m.bindings, cb, h))
  {
    CallbackHeardAlike(m, cb);
    DistinctHeardAlike(m, cb);
  }

  /** The same for attaching a coordinator: the handoff must be known, and an attachment that the binding allows must
      not take a conference or a coordinator that another binding has. */
  lemma StoresAgreeOnAttachment(m: Memory, handoff: Identifier, conference: Identifier, coordinatorSid: Identifier)
    requires m.Valid()
    ensures (MemoryAttach(m, handoff, conference, coordinatorSid).0.bindings,
             MemoryAttach(m, handoff, conference, coordinatorSid).1)
            == TableAttach(m.bindings, handoff, conference, coordinatorSid)
        <==> handoff in m.bindings
             && (MayAttach(m.bindings[handoff], conference, coordinatorSid) ==>
                   !ConferenceTaken(m.bindings, handoff, conference)
                   && !CoordinatorTaken(m.bindings, handoff, coordinatorSid))
  {}

  // ---------- Runs of both stores ----------

  datatype Operation =
    | Reserve(handoff: Identifier, call: Identifier, remoteSid: Identifier)
    | Attach(handoff: Identifier, conference: Identifier, coordinatorSid: Identifier)
    | Deliver(cb: Callback)

  datatype Outcome =
    Reserved(binding: Binding) | Attachment(result: Result<Binding, Error>) | Application(applied: Applied)

  function MemoryStep(m: Memory, op: Operation): (Memory, Outcome) {
    match op
    case Reserve(handoff, call, remoteSid) =>
      var (after, b) := MemoryReserve(m, NewBinding(handoff, call, remoteSid));
      (after, Reserved(b))
    case Attach(handoff, conference, coordinatorSid) =>
      var (after, result) := MemoryAttach(m, handoff, conference, coordinatorSid);
      (after, Attachment(result))
    case Deliver(cb) =>
      var (after, applied) := MemoryApply(m, cb);
      (after, Application(applied))
  }

  ghost predicate TableStep(rows: Bindings, op: Operation, after: Bindings, outcome: Outcome) {
    match op
    case Reserve(handoff, call, remoteSid) =>
      outcome.Reserved? && (after, outcome.binding) == TableReserve(rows, NewBinding(handoff, call, remoteSid))
    case Attach(handoff, conference, coordinatorSid) =>
      outcome.Attachment? && (after, outcome.result) == TableAttach(rows, handoff, conference, coordinatorSid)
    case Deliver(cb) => outcome.Application? && TableApplies(rows, cb, after, outcome.applied)
  }

  ghost predicate OwnedByOther(bindings: Bindings, h: Identifier, participant: Identifier) {
    exists k :: k in bindings && k != h && bindings[k].Owns(participant)
  }

  /** The operation is one on which the two stores agree. */
  ghost predicate Agreed(m: Memory, op: Operation) {
    match op
    case Reserve(_, _, _) => true
    case Attach(handoff, conference, coordinatorSid) =>
      handoff in m.bindings
      && (MayAttach(m.bindings[handoff], conference, coordinatorSid) ==>
            !ConferenceTaken(m.bindings, handoff, conference)
            && !CoordinatorTaken(m.bindings, handoff, coordinatorSid))
    case Deliver(cb) => HeardAlike(m, cb)
  }

  ghost predicate StepsAlike(m: Memory, op: Operation) {
    forall after, outcome :: TableStep(m.bindings, op, after, outcome) ==>
      after == MemoryStep(m, op).0.bindings && outcome == MemoryStep(m, op).1
  }

  lemma StepAgreesExactly(m: Memory, op: Operation)
    requires m.Valid()
    ensures StepsAlike(m, op) <==> Agreed(m, op)
  {
    match op
    case Reserve(handoff, call, remoteSid) =>
    case Attach(handoff, conference, coordinatorSid) =>
      var (after, result) := TableAttach(m.bindings, handoff, conference, coordinatorSid);
      StoresAgreeOnAttachment(m, handoff, conference, coordinatorSid);
      assert TableStep(m.bindings, op, after, Attachment(result));
    case Deliver(cb) =>
      CallbackHeardAlike(m, cb);
      forall after, result | TableApplies(m.bindings, cb, after, result)
        ensures TableStep(m.bindings, op, after, Application(result))
      {
      }
  }

  /** The table always has some answer. */
  lemma TableAnswers(rows: Bindings, op: Operation) returns (after: Bindings, outcome: Outcome)
    ensures TableStep(rows, op, after, outcome)
  {
    match op
    case Reserve(handoff, call, remoteSid) =>
      var (next, b) := TableReserve(rows, NewBinding(handoff, call, remoteSid));
      after, outcome := next, Reserved(b);
    case Attach(handoff, conference, coordinatorSid) =>
      var (next, result) := TableAttach(rows, handoff, conference, coordinatorSid);
      after, outcome := next, Attachment(result);
    case Deliver(cb) =>
      if h :| h in rows && Selected(rows[h], cb) {
        var (next, result) := TableApplyTo(rows, h, cb);
        after, outcome := next, Application(result);
      } else {
        after, outcome := rows, Application(Err(PermissionDenied));
      }
  }

  /** The operation keeps calls apart: neither a new binding nor an attachment that is made brings a call that another
      binding has. */
  ghost predicate CallsApart(m: Memory, op: Operation) {
    match op
    case Reserve(handoff, _, remoteSid) => handoff in m.bindings || !OwnedByOther(m.bindings, handoff, remoteSid)
    case Attach(handoff, conference, coordinatorSid) =>
      handoff in m.bindings && MayAttach(m.bindings[handoff], conference, coordinatorSid) ==>
        !OwnedByOther(m.bindings, handoff, coordinatorSid)
    case Deliver(_) => true
  }

  /** It keeps conferences apart as well: an attachment names a known handoff and no conference of another binding,
      and a callback does not clash. */
  ghost predicate Apart(m: Memory, op: Operation) {
    && CallsApart(m, op)
    && match op
       case Reserve(_, _, _) => true
       case Attach(handoff, conference, coordinatorSid) =>
         handoff in m.bindings
         && (MayAttach(m.bindings[handoff], conference, coordinatorSid) ==>
               !ConferenceTaken(m.bindings, handoff, conference))
       case Deliver(cb) => forall h :: !Clash(m.bindings, cb, h)
  }

  lemma ApartIsAgreed(m: Memory, op: Operation)
    requires Inv(m) && Apart(m, op)
    ensures Agreed(m, op)
  {
    if op.Deliver? {
      DistinctHeardAlike(m, op.cb);
    }
  }

  lemma SameSeen(m: Memory, after: Memory)
    requires SeenIsStale(m) && after.events == m.events
    requires forall cb, h :: SeenAt(m.bindings, cb, h) ==> SeenAt(after.bindings, cb, h)
    ensures SeenIsStale(after)
  {
    forall cb | cb in after.events
      ensures exists h :: SeenAt(after.bindings, cb, h)
    {
      var h :| SeenAt(m.bindings, cb, h);
      assert SeenAt(after.bindings, cb, h);
    }
  }

  lemma HeardKeepsSeen(m: Memory, h: Identifier, cb: Callback, d: Callback, after: Bindings)
    requires Tracks(m) && h in m.bindings && m.bindings[h].Owns(cb.participant) && Newer(m.bindings[h], cb)
    requires d in m.events || d == cb
    requires after == m.bindings[h := Heard(InConference(m.bindings[h], cb.conference), cb)]
    ensures exists k :: SeenAt(after, d, k)
  {
    if d == cb {
      assert SeenAt(after, d, h);
    } else {
      var k :| SeenAt(m.bindings, d, k);
      assert SeenAt(after, d, k);
    }
  }

  lemma HeardKeepsTrack(m: Memory, h: Identifier, cb: Callback)
    requires Tracks(m) && h in m.bindings && m.bindings[h].Owns(cb.participant)
    ensures Tracks(MemoryApplyTo(m, h, cb).0)
  {
    var after := MemoryApplyTo(m, h, cb).0;
    if after != m {
      forall d | d in after.events
        ensures exists k :: SeenAt(after.bindings, d, k)
      {
        HeardKeepsSeen(m, h, cb, d, after.bindings);
      }
    }
  }

  lemma StepKeepsTrack(m: Memory, op: Operation)
    requires Tracks(m) && CallsApart(m, op)
    ensures Tracks(MemoryStep(m, op).0)
  {
    match op
    case Reserve(handoff, call, remoteSid) => SameSeen(m, MemoryStep(m, op).0);
    case Attach(handoff, conference, coordinatorSid) => SameSeen(m, MemoryStep(m, op).0);
    case Deliver(cb) =>
      var owner := Owner(m.order, m.bindings, cb.participant);
      if owner.Some? {
        HeardKeepsTrack(m, owner.value, cb);
      }
  }

  lemma SetConference(bindings: Bindings, h: Identifier, conference: Identifier, after: Bindings)
    requires ConferencesDiffer(bindings) && h in bindings
    requires bindings[h].conference.Some? || !ConferenceTaken(bindings, h, conference)
    requires bindings[h].conference in {None, Some(conference)}
    requires h in after && after == bindings[h := after[h]] && after[h].conference == Some(conference)
    ensures ConferencesDiffer(after)
  {}

  lemma StepKeeps(m: Memory, op: Operation)
    requires Inv(m) && Apart(m, op)
    ensures Inv(MemoryStep(m, op).0)
  {
    StepKeepsTrack(m, op);
    match op
    case Reserve(handoff, call, remoteSid) =>
    case Attach(handoff, conference, coordinatorSid) =>
      if handoff in m.bindings && MayAttach(m.bindings[handoff], conference, coordinatorSid) {
        SetConference(m.bindings, handoff, conference, MemoryStep(m, op).0.bindings);
      }
    case Deliver(cb) =>
      var owner := Owner(m.order, m.bindings, cb.participant);
      if owner.Some? && MemoryStep(m, op).0 != m {
        assert m.bindings[owner.value].conference.None? ==> !Clash(m.bindings, cb, owner.value);
        SetConference(m.bindings, owner.value, cb.conference, MemoryStep(m, op).0.bindings);
      }
  }

  const EMPTY := Memory([], map[], {})

  function MemoryRun(m: Memory, ops: seq<Operation>): Memory {
    if ops == [] then m else MemoryStep(MemoryRun(m, ops[..|ops| - 1]), ops[|ops| - 1]).0
  }

  function MemoryAfter(ops: seq<Operation>): Memory {
    MemoryRun(EMPTY, ops)
  }

  ghost predicate ApartThroughout(ops: seq<Operation>) {
    ops == [] || (ApartThroughout(ops[..|ops| - 1]) && Apart(MemoryAfter(ops[..|ops| - 1]), ops[|ops| - 1]))
  }

  ghost predicate AgreedThroughout(ops: seq<Operation>) {
    ops == [] || (AgreedThroughout(ops[..|ops| - 1]) && Agreed(MemoryAfter(ops[..|ops| - 1]), ops[|ops| - 1]))
  }

  /** The table may go from empty to `rows` by the operations, the last of them with this outcome. */
  ghost predicate TableReaches(ops: seq<Operation>, rows: Bindings, outcome: Option<Outcome>)
    decreases |ops|, 0
  {
    if ops == [] then rows == map[] && outcome == None
    else outcome.Some? && TableExtends(ops[..|ops| - 1], ops[|ops| - 1], rows, outcome.value)
  }

  ghost predicate TableExtends(earlierOps: seq<Operation>, op: Operation, rows: Bindings, outcome: Outcome)
    decreases |earlierOps|, 1
  {
    exists before, earlier :: TableReaches(earlierOps, before, earlier) && TableStep(before, op, rows, outcome)
  }

  function LastOutcome(ops: seq<Operation>): Option<Outcome> {
    if ops == [] then None else Some(MemoryStep(MemoryAfter(ops[..|ops| - 1]), ops[|ops| - 1]).1)
  }

  /** Whatever rows its queries take, after these operations the table holds the bindings of the store in memory, and
      the last of the operations returned what it returned there. */
  ghost predicate RunsAlike(ops: seq<Operation>) {
    forall rows, outcome :: TableReaches(ops, rows, outcome) ==>
      rows == MemoryAfter(ops).bindings && outcome == LastOutcome(ops)
  }

  lemma {:induction false} MemoryStaysValid(ops: seq<Operation>)
    ensures MemoryAfter(ops).Valid()
  {
    if ops != [] {
      MemoryStaysValid(ops[..|ops| - 1]);
    }
  }

  lemma {:induction false} TableFollows(ops: seq<Operation>)
    requires AgreedThroughout(ops)
    ensures RunsAlike(ops) && TableReaches(ops, MemoryAfter(ops).bindings, LastOutcome(ops))
  {
    if ops != [] {
      var earlier, op := ops[..|ops| - 1], ops[|ops| - 1];
      var m := MemoryAfter(earlier);
      TableFollows(earlier);
      MemoryStaysValid(earlier);
      StepAgreesExactly(m, op);
      var after, outcome := TableAnswers(m.bindings, op);
      assert TableExtends(earlier, op, after, outcome);
      forall rows, result | TableReaches(ops, rows, result)
        ensures rows == MemoryAfter(ops).bindings && result == LastOutcome(ops)
      {
        assert TableExtends(earlier, op, rows, result.value);
      }
    }
  }

  /** The stores agree after each operation of a run exactly when each of the operations is one on which they agree. */
  lemma {:induction false} StoresAgreeExactly(ops: seq<Operation>)
    ensures (forall n :: 0 <= n <= |ops| ==> RunsAlike(ops[..n])) <==> AgreedThroughout(ops)
  {
    assert ops[..|ops|] == ops;
    if ops == [] {
      TableFollows(ops);
    } else {
      var earlier, op := ops[..|ops| - 1], ops[|ops| - 1];
      StoresAgreeExactly(earlier);
      assert forall n :: 0 <= n <= |earlier| ==> earlier[..n] == ops[..n];
      if AgreedThroughout(ops) {
        TableFollows(ops);
      } else if AgreedThroughout(earlier) {
        PartsAt(earlier, op, ops);
      }
    }
  }

  lemma PartsAt(earlier: seq<Operation>, op: Operation, ops: seq<Operation>)
    requires AgreedThroughout(earlier) && !Agreed(MemoryAfter(earlier), op)
    requires ops != [] && earlier == ops[..|ops| - 1] && op == ops[|ops| - 1]
    ensures !RunsAlike(ops)
  {
    var m := MemoryAfter(earlier);
    TableFollows(earlier);
    MemoryStaysValid(earlier);
    StepAgreesExactly(m, op);
    var after, outcome :| TableStep(m.bindings, op, after, outcome)
                          && !(after == MemoryStep(m, op).0.bindings && outcome == MemoryStep(m, op).1);
    assert TableExtends(earlier, op, after, outcome);
    assert TableReaches(ops, after, Some(outcome));
  }

  /** On every run that keeps calls and conferences apart the table, whatever rows its queries take, returns the results
      of the store in memory, step by step, and holds the same bindings. */
  lemma {:induction false} StoresAgree(ops: seq<Operation>)
    requires ApartThroughout(ops)
    ensures Inv(MemoryAfter(ops)) && AgreedThroughout(ops) && RunsAlike(ops)
  {
    if ops != [] {
      var earlier, op := ops[..|ops| - 1], ops[|ops| - 1];
      StoresAgree(earlier);
      ApartIsAgreed(MemoryAfter(earlier), op);
      StepKeeps(MemoryAfter(earlier), op);
    }
    TableFollows(ops);
  }

  /** Conference and coordinator are written once: no operation of either store changes one that is there. */
  ghost predicate WrittenOnce(before: Bindings, after: Bindings) {
    forall h :: h in before ==>
      && h in after && after[h].remoteSid == before[h].remoteSid
      && (before[h].conference.Some? ==> after[h].conference == before[h].conference)
      && (before[h].coordinatorSid.Some? ==> after[h].coordinatorSid == before[h].coordinatorSid)
  }

  lemma MemorySidsAreWrittenOnce(m: Memory, op: Operation)
    ensures WrittenOnce(m.bindings, MemoryStep(m, op).0.bindings)
  {}

  lemma TableSidsAreWrittenOnce(rows: Bindings, op: Operation, after: Bindings, outcome: Outcome)
    requires TableStep(rows, op, after, outcome)
    ensures WrittenOnce(rows, after)
  {}

  // ---------- Beginning a handoff ----------

  /** Beginning a handoff reserves its binding and goes on to dial the coordinator only while the binding has none. */
  predicate Dials(m: Memory, b: Binding) {
    MemoryReserve(m, b).1.coordinatorSid.None?
  }

  /** Once a coordinator is attached, beginning the same handoff again never dials, whatever happens in between. */
  lemma {:induction false} AttachedHandoffNeverDials(m: Memory, ops: seq<Operation>, b: Binding)
    requires b.handoff in m.bindings && m.bindings[b.handoff].coordinatorSid.Some?
    ensures var after := MemoryRun(m, ops);
      && b.handoff in after.bindings && !Dials(after, b)
      && after.bindings[b.handoff].coordinatorSid == m.bindings[b.handoff].coordinatorSid
  {
    if ops != [] {
      AttachedHandoffNeverDials(m, ops[..|ops| - 1], b);
      MemorySidsAreWrittenOnce(MemoryRun(m, ops[..|ops| - 1]), ops[|ops| - 1]);
    }
  }

  /** Two beginnings that overlap both dial; only the coordinator attached first is kept, the other is refused. */
  lemma OverlappingBeginningsBothDial(m: Memory, b: Binding, conference: Identifier, first: Identifier,
                                      second: Identifier)
    requires b.handoff !in m.bindings && b == NewBinding(b.handoff, b.call, b.remoteSid) && first != second
    ensures var reserved := MemoryReserve(m, b).0;
      var (attached, result) := MemoryAttach(reserved, b.handoff, conference, first);
      && Dials(m, b) && Dials(reserved, b) && result.Ok?
      && MemoryAttach(attached, b.handoff, conference, second) == (attached, Err(PermissionDenied))
  {}
}
