/**
 The bindings of inbound calls. Accepting a call, recording consent and starting the stream each ask the inbound
 application first and only then, in a later locked block, install or confirm the binding; they interleave freely.
 */
module InboundBindings {
  import opened Wrappers

  type Identifier = nat

  /** What the inbound application answers; it may answer anything. */
  datatype Details = Details(operation: Identifier, session: Identifier, provider: Identifier, token: nat)

  datatype Binding = Binding(details: Details, correlation: Option<Identifier>)

  datatype Entry = Entry(binding: Binding, claimed: bool, consumed: bool)

  type Entries = map<Identifier, Entry>

  // ---------- The locked blocks ----------

  function ExistingBinding(entries: Entries, provider: Identifier): Option<Binding> {
    if provider in entries then Some(entries[provider].binding) else None
  }

  /** The correlation id a call keeps is the one that was there when the request came, else the request's own. */
  function Correlation(existing: Option<Binding>, own: Identifier): Option<Identifier> {
    if existing.Some? && existing.value.correlation.Some? then existing.value.correlation else Some(own)
  }

  /** The canonical binding after an accept or a consent, or `None` for a changed identity. */
  function Install(entries: Entries, provider: Identifier, binding: Binding): (Entries, Option<Binding>) {
    if provider !in entries then (entries[provider := Entry(binding, false, false)], Some(binding))
    else if entries[provider].binding.details == binding.details then (entries, Some(entries[provider].binding))
    else (entries, None)
  }

  /** The binding that a started stream gets, or `None`. */
  function StartStream(entries: Entries, provider: Identifier, binding: Binding): (Entries, Option<Binding>) {
    if provider !in entries then (entries[provider := Entry(binding, true, true)], Some(binding))
    else
      var entry := entries[provider];
      if entry.binding.details != binding.details || entry.claimed || entry.consumed then (entries, None)
      else (entries[provider := entry.(claimed := true, consumed := true)], Some(entry.binding))
  }

  function FinishStream(entries: Entries, provider: Identifier, binding: Binding): Entries {
    if provider in entries && entries[provider].binding == binding then
      entries[provider := entries[provider].(claimed := false)]
    else entries
  }

  // ---------- The object ----------

  class InboundRuntime {
    var entries: Entries

    constructor ()
      ensures entries == map[]
    {
      entries := map[];
    }

    /** The closing block of both `accept_inbound_call` and `record_inbound_consent`. */
    method Confirm(provider: Identifier, binding: Binding) returns (canonical: Option<Binding>)
      modifies this
      ensures (entries, canonical) == Install(old(entries), provider, binding)
    {
      if provider !in entries {
        entries := entries[provider := Entry(binding, false, false)];
        canonical := Some(binding);
      } else if entries[provider].binding.details == binding.details {
        canonical := Some(entries[provider].binding);
      } else {
        canonical := None;
      }
    }

    method ClaimStream(provider: Identifier, binding: Binding) returns (yielded: Option<Binding>)
      modifies this
      ensures (entries, yielded) == StartStream(old(entries), provider, binding)
    {
      if provider in entries {
        var existing := entries[provider];
        if existing.binding.details != binding.details || existing.claimed || existing.consumed {
          return None;
        }
        entries := entries[provider := existing.(claimed := true, consumed := true)];
        return Some(existing.binding);
      }
      entries := entries[provider := Entry(binding, true, true)];
      return Some(binding);
    }

    method ReleaseStream(provider: Identifier, binding: Binding)
      modifies this
      ensures entries == FinishStream(old(entries), provider, binding)
    {
      if provider in entries && entries[provider].binding == binding {
        entries := entries[provider := entries[provider].(claimed := false)];
      }
    }
  }

  // ---------- Interleaved runs ----------

  type CallerId = nat

  /** A request between its first block and its last: what it found, and its own correlation id. */
  datatype Request = Request(provider: Identifier, own: Identifier, existing: Option<Binding>)

  datatype Result = Result(provider: Identifier, binding: Binding)

  /** `offered` records with which correlation id the first binding of a call came, `results` every binding handed out,
      `streams` the calls whose stream got its binding. */
  datatype State = State(entries: Entries, requests: map<CallerId, Request>,
                         offered: map<Identifier, Option<Identifier>>, results: seq<Result>, streams: seq<Identifier>)

  datatype Event =
    | Asked(c: CallerId, provider: Identifier, own: Identifier)
    | Confirmed(c: CallerId, details: Details)
    | StreamStarted(provider: Identifier, details: Details, correlation: Option<Identifier>)
    | StreamFinished(provider: Identifier, binding: Binding)

  function Handed(s: State, provider: Identifier, offer: Option<Identifier>, after: Entries, got: Option<Binding>)
    : State
  {
    s.(entries := after,
       offered := if provider in s.entries then s.offered else s.offered[provider := offer],
       results := if got.Some? then s.results + [Result(provider, got.value)] else s.results)
  }

  function Next(s: State, event: Event): State {
    match event
    case Asked(c, provider, own) =>
      s.(requests := s.requests[c := Request(provider, own, ExistingBinding(s.entries, provider))])
    case Confirmed(c, details) =>
      if c !in s.requests then s
      else
        var request := s.requests[c];
        var (after, got) :=
          Install(s.entries, request.provider, Binding(details, Correlation(request.existing, request.own)));
        Handed(s, request.provider, Some(request.own), after, got).(requests := s.requests - {c})
    case StreamStarted(provider, details, correlation) =>
      var (after, got) := StartStream(s.entries, provider, Binding(details, correlation));
      Handed(s, provider, correlation, after, got).(
        streams := if got.Some? then s.streams + [provider] else s.streams)
    case StreamFinished(provider, binding) => s.(entries := FinishStream(s.entries, provider, binding))
  }

  function Play(events: seq<Event>): State {
    if events == [] then State(map[], map[], map[], [], [])
    else Next(Play(events[..|events| - 1]), events[|events| - 1])
  }

  // ---------- The invariant ----------

  ghost predicate EntryOk(s: State, p: Identifier) {
    && (p in s.offered <==> p in s.entries)
    && (p in s.entries ==> s.entries[p].binding.correlation == s.offered[p])
    && (p in s.entries && s.entries[p].claimed ==> s.entries[p].consumed)
    && (p in s.streams <==> p in s.entries && s.entries[p].consumed)
  }

  ghost predicate ResultOk(entries: Entries, result: Result) {
    result.provider in entries && result.binding == entries[result.provider].binding
  }

  /** What a request found at its start is still there. */
  ghost predicate RequestOk(entries: Entries, request: Request) {
    request.existing.Some? ==>
      request.provider in entries && entries[request.provider].binding == request.existing.value
  }

  ghost predicate Inv(s: State) {
    && (forall p :: EntryOk(s, p))
    && (forall i :: 0 <= i < |s.results| ==> ResultOk(s.entries, s.results[i]))
    && (forall c :: c in s.requests ==> RequestOk(s.entries, s.requests[c]))
    && (forall i, j :: 0 <= i < j < |s.streams| ==> s.streams[i] != s.streams[j])
  }

  /** No block replaces or removes a binding. */
  ghost predicate BindingsKept(before: Entries, after: Entries) {
    forall p :: p in before ==> p in after && after[p].binding == before[p].binding
  }

  lemma HandedKeeps(s: State, provider: Identifier, offer: Option<Identifier>, after: Entries, got: Option<Binding>)
    requires Inv(s) && BindingsKept(s.entries, after)
    requires got.Some? ==> ResultOk(after, Result(provider, got.value))
    ensures var s' := Handed(s, provider, offer, after, got);
      && (forall i :: 0 <= i < |s'.results| ==> ResultOk(after, s'.results[i]))
      && (forall c :: c in s.requests ==> RequestOk(after, s.requests[c]))
  {}

  lemma EntriesKeep(s: State, s': State, provider: Identifier)
    requires Inv(s) && EntryOk(s', provider)
    requires forall p :: p != provider ==>
      && (p in s.entries <==> p in s'.entries) && (p in s.entries ==> s'.entries[p] == s.entries[p])
      && (p in s.offered <==> p in s'.offered) && (p in s.offered ==> s'.offered[p] == s.offered[p])
      && (p in s.streams <==> p in s'.streams)
    ensures forall p :: EntryOk(s', p)
  {
    forall p
      ensures EntryOk(s', p)
    {
      assert EntryOk(s, p);
    }
  }

  lemma ConfirmKeeps(s: State, c: CallerId, details: Details)
    requires Inv(s) && c in s.requests
    ensures Inv(Next(s, Confirmed(c, details)))
  {
    var request := s.requests[c];
    var (after, got) :=
      Install(s.entries, request.provider, Binding(details, Correlation(request.existing, request.own)));
    HandedKeeps(s, request.provider, Some(request.own), after, got);
    assert RequestOk(s.entries, request) && EntryOk(s, request.provider);
    EntriesKeep(s, Next(s, Confirmed(c, details)), request.provider);
  }

  lemma StreamKeeps(s: State, provider: Identifier, details: Details, correlation: Option<Identifier>)
    requires Inv(s)
    ensures Inv(Next(s, StreamStarted(provider, details, correlation)))
  {
    var (after, got) := StartStream(s.entries, provider, Binding(details, correlation));
    HandedKeeps(s, provider, correlation, after, got);
    assert EntryOk(s, provider);
    EntriesKeep(s, Next(s, StreamStarted(provider, details, correlation)), provider);
  }

  lemma FinishKeeps(s: State, provider: Identifier, binding: Binding)
    requires Inv(s)
    ensures Inv(Next(s, StreamFinished(provider, binding)))
  {
    var after := FinishStream(s.entries, provider, binding);
    HandedKeeps(s, provider, None, after, None);
    assert EntryOk(s, provider);
    EntriesKeep(s, Next(s, StreamFinished(provider, binding)), provider);
  }

  lemma AskKeeps(s: State, c: CallerId, provider: Identifier, own: Identifier)
    requires Inv(s)
    ensures Inv(Next(s, Asked(c, provider, own)))
  {
    EntriesKeep(s, Next(s, Asked(c, provider, own)), provider) by {
      assert EntryOk(s, provider);
    }
  }

  lemma {:induction false} RunKeeps(events: seq<Event>)
    ensures Inv(Play(events))
  {
    if events != [] {
      var before := events[..|events| - 1];
      RunKeeps(before);
      match events[|events| - 1]
      case Asked(c, provider, own) => AskKeeps(Play(before), c, provider, own);
      case Confirmed(c, details) => if c in Play(before).requests { ConfirmKeeps(Play(before), c, details); }
      case StreamStarted(provider, details, correlation) => StreamKeeps(Play(before), provider, details, correlation);
      case StreamFinished(provider, binding) => FinishKeeps(Play(before), provider, binding);
    }
  }

  /** Every accept, consent and stream step that succeeds for one inbound call gets the identical binding, and its
      correlation id is the one the first of them came with. */
  lemma OneBindingPerCall(events: seq<Event>, s: State, i: nat, j: nat)
    requires s == Play(events)
    requires i < |s.results| && j < |s.results| && s.results[i].provider == s.results[j].provider
    ensures s.results[i].binding == s.results[j].binding
    ensures s.results[i].provider in s.offered
    ensures s.results[i].binding.correlation == s.offered[s.results[i].provider]
  {
    RunKeeps(events);
    assert ResultOk(s.entries, s.results[i]) && ResultOk(s.entries, s.results[j]);
    assert EntryOk(s, s.results[i].provider);
  }

  /** The offer of a call is made by its first successful step and never changes. */
  lemma FirstOfferStays(s: State, event: Event, p: Identifier)
    requires Inv(s) && p in s.offered
    ensures p in Next(s, event).offered && Next(s, event).offered[p] == s.offered[p]
  {
    assert EntryOk(s, p);
  }

  /** No call gets its stream binding twice, although the end of a stream releases the claim. */
  lemma StreamBindingOnce(events: seq<Event>, s: State, i: nat, j: nat)
    requires s == Play(events) && i < |s.streams| && j < |s.streams| && s.streams[i] == s.streams[j]
    ensures i == j
    ensures s.streams[i] in s.entries && s.entries[s.streams[i]].consumed
  {
    RunKeeps(events);
    assert EntryOk(s, s.streams[i]);
  }

  // ---------- Which steps succeed ----------

  /** Every binding that is there was handed out. */
  ghost predicate WasHanded(s: State, p: Identifier) {
    p in s.entries ==> exists i :: 0 <= i < |s.results| && s.results[i] == Result(p, s.entries[p].binding)
  }

  lemma HandedStays(s: State, next: State, p: Identifier)
    requires WasHanded(s, p) && s.results <= next.results
    requires p in next.entries ==>
      (p in s.entries && next.entries[p].binding == s.entries[p].binding)
      || (next.results != [] && next.results[|next.results| - 1] == Result(p, next.entries[p].binding))
    ensures WasHanded(next, p)
  {
    if p in next.entries && p in s.entries && next.entries[p].binding == s.entries[p].binding {
      var i :| 0 <= i < |s.results| && s.results[i] == Result(p, s.entries[p].binding);
      assert next.results[i] == s.results[i];
    }
  }

  lemma {:induction false} BindingsWereHanded(events: seq<Event>, s: State, p: Identifier)
    requires s == Play(events)
    ensures WasHanded(s, p)
  {
    if events != [] {
      var before := Play(events[..|events| - 1]);
      BindingsWereHanded(events[..|events| - 1], before, p);
      HandedStays(before, s, p);
    }
  }

  /** No successful step so far gave the call another identity. */
  ghost predicate SameIdentityAs(s: State, provider: Identifier, details: Details) {
    forall i :: 0 <= i < |s.results| && s.results[i].provider == provider ==> s.results[i].binding.details == details
  }

  lemma IdentityIsThatOfTheEntry(events: seq<Event>, s: State, p: Identifier, details: Details)
    requires s == Play(events)
    ensures SameIdentityAs(s, p, details) <==> p !in s.entries || s.entries[p].binding.details == details
  {
    RunKeeps(events);
    BindingsWereHanded(events, s, p);
    forall i | 0 <= i < |s.results| && s.results[i].provider == p
      ensures p in s.entries && s.results[i].binding == s.entries[p].binding
    {
      assert ResultOk(s.entries, s.results[i]);
    }
  }

  /** The step hands out a binding for the call. */
  ghost predicate Succeeds(s: State, next: State, provider: Identifier) {
    |next.results| == |s.results| + 1 && s.results <= next.results && next.results[|s.results|].provider == provider
  }

  /** An accept or a consent succeeds exactly when no step before it gave the call another identity; otherwise nothing
      is handed out, and no binding changes. */
  lemma ConfirmsExactly(events: seq<Event>, s: State, c: CallerId, details: Details, next: State)
    requires s == Play(events) && c in s.requests && next == Next(s, Confirmed(c, details))
    ensures Succeeds(s, next, s.requests[c].provider) <==> SameIdentityAs(s, s.requests[c].provider, details)
    ensures !SameIdentityAs(s, s.requests[c].provider, details) ==>
      next.results == s.results && next.entries == s.entries
    ensures Succeeds(s, next, s.requests[c].provider) ==> next.results[|s.results|].binding.details == details
    ensures next.requests == s.requests - {c}
  {
    IdentityIsThatOfTheEntry(events, s, s.requests[c].provider, details);
  }

  /** A stream gets the binding of its call exactly when no step before it gave the call another identity and no stream
      got it before. */
  lemma StreamsExactly(events: seq<Event>, s: State, provider: Identifier, details: Details,
                       correlation: Option<Identifier>, next: State)
    requires s == Play(events) && next == Next(s, StreamStarted(provider, details, correlation))
    ensures Succeeds(s, next, provider) <==> SameIdentityAs(s, provider, details) && provider !in s.streams
    ensures next.streams == if Succeeds(s, next, provider) then s.streams + [provider] else s.streams
    ensures !Succeeds(s, next, provider) ==> next.results == s.results && next.entries == s.entries
    ensures Succeeds(s, next, provider) ==> next.results[|s.results|].binding.details == details
    ensures Succeeds(s, next, provider) ==> provider in next.entries && next.entries[provider].claimed
  {
    RunKeeps(events);
    assert EntryOk(s, provider);
    IdentityIsThatOfTheEntry(events, s, provider, details);
  }

  /** The first binding of a call keeps the identity and the correlation id it came with: an accept or a consent brings
      its own id, a stream the id it was started with. */
  lemma FirstBinding(events: seq<Event>, s: State, event: Event, p: Identifier, next: State)
    requires s == Play(events) && next == Next(s, event) && p !in s.entries && p in next.entries
    ensures next.offered[p] == next.entries[p].binding.correlation
    ensures (event.StreamStarted? && event.provider == p
             && next.entries[p].binding == Binding(event.details, event.correlation))
         || (event.Confirmed? && event.c in s.requests && s.requests[event.c].provider == p
             && next.entries[p].binding == Binding(event.details, Some(s.requests[event.c].own)))
  {
    RunKeeps(events);
    RunKeeps(events + [event]);
    assert (events + [event])[..|events|] == events;
    assert EntryOk(next, p);
    if event.Confirmed? && event.c in s.requests {
      assert RequestOk(s.entries, s.requests[event.c]);
    }
  }

  /** A request finds the binding that is there, and proposes its correlation id again. */
  lemma ProposesTheCorrelation(events: seq<Event>, s: State, c: CallerId, provider: Identifier, own: Identifier,
                               s': State)
    requires s == Play(events) && s' == Play(events + [Asked(c, provider, own)])
    ensures c in s'.requests && s'.requests[c].provider == provider && s'.requests[c].own == own
    ensures s'.requests[c].existing.Some? <==> provider in s.entries
    ensures provider in s.entries && s.entries[provider].binding.correlation.Some? ==>
      Correlation(s'.requests[c].existing, own) == s.entries[provider].binding.correlation
    ensures provider !in s.entries || s.entries[provider].binding.correlation.None? ==>
      Correlation(s'.requests[c].existing, own) == Some(own)
  {
    assert (events + [Asked(c, provider, own)])[..|events|] == events;
  }

  /** The claim of a call lasts until exactly the end of a stream that has its binding. */
  lemma ClaimLastsExactly(events: seq<Event>, s: State, event: Event, p: Identifier, next: State)
    requires s == Play(events) && next == Next(s, event) && p in s.entries && s.entries[p].claimed
    ensures p in next.entries
    ensures next.entries[p].claimed <==> event != StreamFinished(p, s.entries[p].binding)
  {}
}
