/**
 The durable table of outbound call attempts: one row per idempotency key, read and written in short transactions.
 The request fingerprint and the keys are numbers, compared only for equality.
 */
module AttemptStore {
  import opened Wrappers
  import opened OutboundCalls

  type Key = nat
  type Fingerprint = nat

  datatype FailureCategory =
    Authentication | Permission | RateLimit | TimedOut | Connection | InvalidRequest | ProviderRejected | InvalidResult

  datatype UncertainReason = TimedOutWaiting | ConnectionLost | InvalidResponse | ProviderFailure

  datatype State =
    Pending | Succeeded(call: Call) | Uncertain(reason: UncertainReason) | Failure(category: FailureCategory)

  datatype Attempt = Attempt(fingerprint: Fingerprint, state: State, createdAt: int, updatedAt: int)

  type Rows = map<Key, Attempt>

  datatype StoreError = IdempotencyConflict | MissingState | IdentityConflict | IntegrityViolation | InvalidValue

  datatype Reservation = Reservation(attempt: Attempt, created: bool)

  // ---------- The table's constraints ----------

  ghost predicate ValidAttempt(attempt: Attempt) {
    && attempt.createdAt <= attempt.updatedAt
    && (attempt.state.Succeeded? ==> attempt.state.call.Valid())
  }

  predicate Holds(rows: Rows, key: Key, provider: Identifier) {
    key in rows && rows[key].state.Succeeded? && rows[key].state.call.provider == provider
  }

  /** A provider call id occurs in at most one row. */
  ghost predicate ValidRows(rows: Rows) {
    && (forall k :: k in rows ==> ValidAttempt(rows[k]))
    && (forall j, k, p :: Holds(rows, j, p) && Holds(rows, k, p) ==> j == k)
  }

  predicate TakenByOther(rows: Rows, key: Key, provider: Identifier) {
    exists k :: k in rows && k != key && Holds(rows, k, provider)
  }

  // ---------- Transactions ----------

  function Reserve(rows: Rows, key: Key, fingerprint: Fingerprint, now: int): (Rows, Result<Reservation, StoreError>) {
    if key in rows then
      if rows[key].fingerprint != fingerprint then (rows, Err(IdempotencyConflict))
      else (rows, Ok(Reservation(rows[key], false)))
    else
      var attempt := Attempt(fingerprint, Pending, now, now);
      (rows[key := attempt], Ok(Reservation(attempt, true)))
  }

  predicate SameIdentity(stored: Call, incoming: Call) {
    stored.session == incoming.session && stored.provider == incoming.provider && stored.createdAt == incoming.createdAt
  }

  predicate IsMonotonicUpdate(stored: Attempt, incoming: Call, at: int)
    requires stored.state.Succeeded?
  {
    var call := stored.state.call;
    && stored.updatedAt <= at
    && call.statusUpdatedAt <= incoming.statusUpdatedAt
    && (forall id | id in call.processed :: id in incoming.processed)
    && (if call.status.Terminal() then incoming.status == call.status
        else Transition(call.status, incoming.status) == incoming.status)
    && incoming.cursor.Some?
    && call.Sequence() < incoming.Sequence()
  }

  function Write(rows: Rows, key: Key, state: State, at: int): (Rows, Result<Attempt, StoreError>)
    requires key in rows
  {
    var finished := rows[key].(state := state, updatedAt := at);
    if at < finished.createdAt then (rows, Err(InvalidValue))
    else if state.Succeeded? && TakenByOther(rows, key, state.call.provider) then (rows, Err(IntegrityViolation))
    else (rows[key := finished], Ok(finished))
  }

  function Finish(rows: Rows, key: Key, fingerprint: Fingerprint, state: State, at: int)
    : (Rows, Result<Attempt, StoreError>)
  {
    if key !in rows then (rows, Err(MissingState))
    else if rows[key].fingerprint != fingerprint then (rows, Err(IdempotencyConflict))
    else if rows[key].state.Pending? then Write(rows, key, state, at)
    else if !(rows[key].state.Succeeded? && state.Succeeded?) then (rows, Ok(rows[key]))
    else if !SameIdentity(rows[key].state.call, state.call) then (rows, Err(IdentityConflict))
    else if state.call == rows[key].state.call || !IsMonotonicUpdate(rows[key], state.call, at) then
      (rows, Ok(rows[key]))
    else Write(rows, key, state, at)
  }

  /** A transaction commits and says so, does not commit, or commits without the caller learning of it. */
  datatype Fault = NoFault | Lost | AckLost

  /** A finishing transaction under a fault, and whether the caller saw it succeed. */
  function Save(rows: Rows, key: Key, fingerprint: Fingerprint, state: State, at: int, fault: Fault): (Rows, bool) {
    if fault.Lost? then (rows, false)
    else
      var (after, result) := Finish(rows, key, fingerprint, state, at);
      (after, fault.NoFault? && result.Ok?)
  }

  // ---------- What a finishing transaction does ----------

  /** The call is news to the row: nothing in it is older, all that the row processed is in it, its status is the same
      or comes later, and its last callback has a higher number. */
  predicate IsNewsTo(row: Attempt, call: Call, at: int)
    requires row.state.Succeeded?
  {
    var known := row.state.call;
    && row.updatedAt <= at && known.statusUpdatedAt <= call.statusUpdatedAt
    && (forall id | id in known.processed :: id in call.processed)
    && (call.status == known.status || ComesAfter(call.status, known.status))
    && call.cursor.Some? && (known.cursor.Some? ==> call.cursor.value.sequence > known.cursor.value.sequence)
  }

  /** Two reports are of one call: same session, same provider id, created at the same time. */
  predicate OneCall(a: Call, b: Call) {
    a.session == b.session && a.provider == b.provider && a.createdAt == b.createdAt
  }

  /** A reservation is refused exactly for a key that is taken by other content; a taken key keeps its row, and a free
      one gets a pending row. */
  lemma ReserveExactly(rows: Rows, key: Key, fingerprint: Fingerprint, now: int, after: Rows,
                       result: Result<Reservation, StoreError>)
    requires (after, result) == Reserve(rows, key, fingerprint, now)
    ensures result == Err(IdempotencyConflict) <==> key in rows && rows[key].fingerprint != fingerprint
    ensures result.Ok? <==> key !in rows || rows[key].fingerprint == fingerprint
    ensures key in rows ==> after == rows && (result.Ok? ==> result.value == Reservation(rows[key], false))
    ensures key !in rows ==>
      && after == rows[key := Attempt(fingerprint, Pending, now, now)]
      && result == Ok(Reservation(after[key], true))
  {}

  /** The row takes the state: it was pending, or the state is news of its call. */
  predicate Takes(row: Attempt, state: State, at: int) {
    row.state.Pending?
    || (row.state.Succeeded? && state.Succeeded? && OneCall(row.state.call, state.call)
        && IsNewsTo(row, state.call, at))
  }

  /** The provider's call id is that of another row. */
  predicate IsElsewhere(rows: Rows, key: Key, call: Call) {
    exists k :: k in rows && k != key && rows[k].state.Succeeded? && rows[k].state.call.provider == call.provider
  }

  lemma MonotonicExactly(row: Attempt, call: Call, at: int)
    requires row.state.Succeeded?
    ensures IsMonotonicUpdate(row, call, at) <==> IsNewsTo(row, call, at)
  {
    StatusesInOrder(row.state.call.status, call.status);
  }

  lemma ElsewhereExactly(rows: Rows, key: Key, call: Call)
    ensures TakenByOther(rows, key, call.provider) <==> IsElsewhere(rows, key, call)
  {
    if TakenByOther(rows, key, call.provider) {
      var k :| k in rows && k != key && Holds(rows, k, call.provider);
    }
    if IsElsewhere(rows, key, call) {
      var k :| k in rows && k != key && rows[k].state.Succeeded? && rows[k].state.call.provider == call.provider;
      assert Holds(rows, k, call.provider);
    }
  }

  /** When the transaction is refused, and why; when it writes, and what; in all other cases it returns the row. */
  lemma FinishExactly(rows: Rows, key: Key, fingerprint: Fingerprint, state: State, at: int, after: Rows,
                      result: Result<Attempt, StoreError>)
    requires (after, result) == Finish(rows, key, fingerprint, state, at)
    ensures result == Err(MissingState) <==> key !in rows
    ensures result == Err(IdempotencyConflict) <==> key in rows && rows[key].fingerprint != fingerprint
    ensures result.Err? ==> after == rows
    ensures result.Ok? ==> key in after && result.value == after[key]
    ensures key in rows && rows[key].fingerprint == fingerprint ==>
      var row := rows[key];
      && (result == Err(IdentityConflict) <==>
            row.state.Succeeded? && state.Succeeded? && !OneCall(row.state.call, state.call))
      && (result == Err(InvalidValue) <==> Takes(row, state, at) && at < row.createdAt)
      && (result == Err(IntegrityViolation) <==>
            Takes(row, state, at) && row.createdAt <= at && state.Succeeded? && IsElsewhere(rows, key, state.call))
      && (result.Ok? ==>
            after == if Takes(row, state, at) then rows[key := Attempt(fingerprint, state, row.createdAt, at)]
                     else rows)
  {
    if key in rows && rows[key].state.Succeeded? && state.Succeeded? {
      MonotonicExactly(rows[key], state.call, at);
    }
    if state.Succeeded? {
      ElsewhereExactly(rows, key, state.call);
    }
  }

  // ---------- What every transaction keeps ----------

  lemma WriteKeepsValid(rows: Rows, key: Key, state: State, at: int)
    requires ValidRows(rows) && key in rows && (state.Succeeded? ==> state.call.Valid())
    ensures ValidRows(Write(rows, key, state, at).0)
  {
    var after := Write(rows, key, state, at).0;
    forall j, k, p | Holds(after, j, p) && Holds(after, k, p)
      ensures j == k
    {
      assert j != key ==> Holds(rows, j, p);
      assert k != key ==> Holds(rows, k, p);
    }
  }

  lemma TransactionsKeepConstraints(rows: Rows, key: Key, fingerprint: Fingerprint, state: State, at: int)
    requires ValidRows(rows) && (state.Succeeded? ==> state.call.Valid())
    ensures ValidRows(Reserve(rows, key, fingerprint, at).0)
    ensures ValidRows(Finish(rows, key, fingerprint, state, at).0)
  {
    ReserveKeepsValid(rows, key, fingerprint, at);
    if key in rows {
      WriteKeepsValid(rows, key, state, at);
    }
  }

  lemma ReserveKeepsValid(rows: Rows, key: Key, fingerprint: Fingerprint, at: int)
    requires ValidRows(rows)
    ensures ValidRows(Reserve(rows, key, fingerprint, at).0)
  {
    var after := Reserve(rows, key, fingerprint, at).0;
    forall j, k, p | Holds(after, j, p) && Holds(after, k, p)
      ensures j == k
    {
      assert Holds(rows, j, p) && Holds(rows, k, p);
    }
  }

  /** How a row may develop: a pending row settles once; a settled row keeps its outcome, and a successful one only
      lets its call move forward. */
  ghost predicate Develops(before: Attempt, after: Attempt) {
    && after.fingerprint == before.fingerprint && after.createdAt == before.createdAt
    && (before.state.Uncertain? || before.state.Failure? ==> after == before)
    && (before.state.Succeeded? ==>
        && after.state.Succeeded? && SameIdentity(before.state.call, after.state.call)
        && before.updatedAt <= after.updatedAt
        && before.state.call.statusUpdatedAt <= after.state.call.statusUpdatedAt
        && before.state.call.status.Rank() <= after.state.call.status.Rank()
        && (before.state.call.status.Terminal() ==> after.state.call.status == before.state.call.status))
  }

  /** Rows are never deleted, settled outcomes are never replaced, and no write touches another key. */
  lemma SettledOutcomesAreFinal(rows: Rows, key: Key, fingerprint: Fingerprint, state: State, at: int, k: Key)
    requires k in rows
    ensures var after := Finish(rows, key, fingerprint, state, at).0;
      k in after && Develops(rows[k], after[k]) && (k != key ==> after[k] == rows[k])
    ensures var after := Reserve(rows, key, fingerprint, at).0;
      k in after && after[k] == rows[k]
  {}
}
