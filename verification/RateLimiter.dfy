/**
 The sliding-window limiter for authenticated mutations: a least-recently-used index of request deques,
 bounded in the number of identities, against the history of everything it ever allowed.
 The clock reading of a check is a parameter; the run theorems take the readings in lock order.
 */
module RateLimiter {
  import opened Wrappers

  /** An authorised caller's fingerprint; it is only ever compared for equality. */
  type Identity = nat

  datatype Config = Config(requestLimit: nat, windowSeconds: real, maxIdentities: nat) {
    predicate Valid() {
      requestLimit >= 1 && windowSeconds > 0.0 && maxIdentities >= 1
    }
  }

  datatype Decision = Allowed | Denied(retryAfterSeconds: int)

  /** An ordered dictionary from identities to the times of their recent allowed requests. */
  datatype Windows = Windows(order: seq<Identity>, deques: map<Identity, seq<real>>) {
    ghost predicate Valid() {
      && (forall i :: i in order <==> i in deques)
      && (forall i, j :: 0 <= i < j < |order| ==> order[i] != order[j])
    }

    function Deque(identity: Identity): seq<real> {
      if identity in deques then deques[identity] else []
    }
  }

  function Ceil(x: real): int {
    -((-x).Floor)
  }

  // ---------- One check, as a function ----------

  function DropExpired(requests: seq<real>, threshold: real): seq<real> {
    if requests != [] && requests[0] <= threshold then DropExpired(requests[1..], threshold) else requests
  }

  /** The order that is left when the identities in `dead` are deleted. */
  function Keep(order: seq<Identity>, dead: set<Identity>): seq<Identity> {
    if order == [] then []
    else
      var last := |order| - 1;
      Keep(order[..last], dead) + (if order[last] in dead then [] else [order[last]])
  }

  function Delete(w: Windows, dead: set<Identity>): Windows {
    Windows(Keep(w.order, dead), w.deques - dead)
  }

  predicate Expired(requests: seq<real>, threshold: real) {
    requests == [] || requests[|requests| - 1] <= threshold
  }

  function ExpiredIdentities(w: Windows, threshold: real): set<Identity> {
    set i | i in w.deques && Expired(w.deques[i], threshold)
  }

  function Purge(w: Windows, threshold: real): Windows {
    Delete(w, ExpiredIdentities(w, threshold))
  }

  function Members(order: seq<Identity>): set<Identity> {
    set i | i in order
  }

  /** How many of the oldest entries have to go so that one more identity fits. */
  function Surplus(size: nat, maxIdentities: nat): (n: nat)
    requires maxIdentities >= 1
    ensures n <= size && size - n < maxIdentities
  {
    if size < maxIdentities then 0 else size - maxIdentities + 1
  }

  function EvictOldest(w: Windows, n: nat): Windows
    requires n <= |w.order|
  {
    Windows(w.order[n..], w.deques - Members(w.order[..n]))
  }

  function Touch(w: Windows, identity: Identity, requests: seq<real>): Windows {
    Windows(Keep(w.order, {identity}) + [identity], w.deques[identity := requests])
  }

  /** The entry set that a check starts from, and the identities evicted to make room for a new one. */
  function Admit(cfg: Config, w: Windows, identity: Identity, threshold: real): (Windows, seq<Identity>)
    requires cfg.Valid() && w.Valid()
  {
    if identity in w.deques then (w, [])
    else
      var live := Purge(w, threshold);
      var n := Surplus(|live.order|, cfg.maxIdentities);
      (EvictOldest(live, n), live.order[..n])
  }

  function Decide(cfg: Config, requests: seq<real>, now: real): (Decision, seq<real>)
    requires cfg.Valid()
  {
    if |requests| >= cfg.requestLimit then
      var retry := Ceil(cfg.windowSeconds - (now - requests[0]));
      (Denied(if retry < 1 then 1 else retry), requests)
    else (Allowed, requests + [now])
  }

  /** The new index, the decision, and the identities that were evicted. */
  function CheckOnce(cfg: Config, w: Windows, identity: Identity, now: real): (Windows, Decision, seq<Identity>)
    requires cfg.Valid() && w.Valid()
  {
    var threshold := now - cfg.windowSeconds;
    var (room, evicted) := Admit(cfg, w, identity, threshold);
    var (decision, requests) := Decide(cfg, DropExpired(room.Deque(identity), threshold), now);
    (Touch(room, identity, requests), decision, evicted)
  }

  // ---------- Structure of the ordered dictionary ----------

  lemma {:induction false} KeepProperties(order: seq<Identity>, dead: set<Identity>)
    requires forall i, j :: 0 <= i < j < |order| ==> order[i] != order[j]
    ensures var rest := Keep(order, dead);
      && (forall x :: x in rest <==> x in order && x !in dead)
      && (forall i, j :: 0 <= i < j < |rest| ==> rest[i] != rest[j])
      && |rest| <= |order|
  {
    if order != [] {
      var last := |order| - 1;
      KeepProperties(order[..last], dead);
      assert order == order[..last] + [order[last]];
      assert order[last] !in order[..last];
    }
  }

  lemma {:induction false} KeepShrinks(order: seq<Identity>, dead: set<Identity>, x: Identity)
    requires x in order && x in dead
    ensures |Keep(order, dead)| < |order|
  {
    var last := |order| - 1;
    KeepNoLonger(order[..last], dead);
    if order[last] !in dead {
      assert order == order[..last] + [order[last]];
      KeepShrinks(order[..last], dead, x);
    }
  }

  lemma {:induction false} KeepNoLonger(order: seq<Identity>, dead: set<Identity>)
    ensures |Keep(order, dead)| <= |order|
  {
    if order != [] {
      KeepNoLonger(order[..|order| - 1], dead);
    }
  }

  lemma KeepAppend(order: seq<Identity>, x: Identity, dead: set<Identity>)
    ensures Keep(order + [x], dead) == Keep(order, dead) + (if x in dead then [] else [x])
  {}

  lemma {:induction false} KeepTwice(order: seq<Identity>, a: set<Identity>, b: set<Identity>)
    ensures Keep(Keep(order, a), b) == Keep(order, a + b)
  {
    if order != [] {
      var last := |order| - 1;
      KeepTwice(order[..last], a, b);
      if order[last] in a {
        assert Keep(order, a) == Keep(order[..last], a);
      } else {
        KeepAppend(Keep(order[..last], a), order[last], b);
      }
    }
  }

  lemma {:induction false} KeepAll(order: seq<Identity>)
    ensures Keep(order, {}) == order
  {
    if order != [] {
      KeepAll(order[..|order| - 1]);
    }
  }

  lemma DeleteValid(w: Windows, dead: set<Identity>)
    requires w.Valid()
    ensures Delete(w, dead).Valid() && |Delete(w, dead).order| <= |w.order|
  {
    KeepProperties(w.order, dead);
  }

  lemma EvictValid(w: Windows, n: nat)
    requires w.Valid() && n <= |w.order|
    ensures EvictOldest(w, n).Valid()
    ensures forall x :: x in w.order[..n] ==> x !in w.order[n..]
  {}

  lemma AdmitValid(cfg: Config, w: Windows, identity: Identity, threshold: real)
    requires cfg.Valid() && w.Valid()
    ensures var (room, evicted) := Admit(cfg, w, identity, threshold);
      && room.Valid()
      && (identity in w.deques ==> identity in room.deques)
      && (identity !in w.deques ==> identity !in room.deques && |room.order| < cfg.maxIdentities)
  {
    if identity !in w.deques {
      DeleteValid(w, ExpiredIdentities(w, threshold));
      var live := Purge(w, threshold);
      EvictValid(live, Surplus(|live.order|, cfg.maxIdentities));
    }
  }

  lemma TouchValid(w: Windows, identity: Identity, requests: seq<real>)
    requires w.Valid()
    ensures var after := Touch(w, identity, requests);
      && after.Valid() && identity in after.deques
      && |after.order| <= |w.order| + (if identity in w.deques then 0 else 1)
  {
    KeepProperties(w.order, {identity});
    if identity in w.deques {
      KeepShrinks(w.order, {identity}, identity);
    }
  }

  lemma AdmitSize(cfg: Config, w: Windows, identity: Identity, threshold: real)
    requires cfg.Valid() && w.Valid()
    ensures |Admit(cfg, w, identity, threshold).0.order| <= |w.order|
  {
    if identity !in w.deques {
      DeleteValid(w, ExpiredIdentities(w, threshold));
    }
  }

  /** A check keeps the dictionary well formed and within its bound. */
  lemma CheckKeepsBound(cfg: Config, w: Windows, identity: Identity, now: real)
    requires cfg.Valid() && w.Valid() && |w.order| <= cfg.maxIdentities
    ensures var after := CheckOnce(cfg, w, identity, now).0;
      after.Valid() && |after.order| <= cfg.maxIdentities && identity in after.deques
  {
    var threshold := now - cfg.windowSeconds;
    AdmitValid(cfg, w, identity, threshold);
    AdmitSize(cfg, w, identity, threshold);
    var room := Admit(cfg, w, identity, threshold).0;
    var requests := Decide(cfg, DropExpired(room.Deque(identity), threshold), now).1;
    assert CheckOnce(cfg, w, identity, now).0 == Touch(room, identity, requests);
    TouchValid(room, identity, requests);
  }

  lemma AdmitDeque(cfg: Config, w: Windows, identity: Identity, threshold: real)
    requires cfg.Valid() && w.Valid()
    ensures Admit(cfg, w, identity, threshold).0.Deque(identity) == w.Deque(identity)
  {}

  lemma CheckInSteps(cfg: Config, w: Windows, room: Windows, identity: Identity, now: real, requests: seq<real>)
    requires cfg.Valid() && w.Valid()
    requires room == Admit(cfg, w, identity, now - cfg.windowSeconds).0 && requests == room.Deque(identity)
    ensures var (decision, kept) := Decide(cfg, DropExpired(requests, now - cfg.windowSeconds), now);
      && CheckOnce(cfg, w, identity, now).0 == Touch(room, identity, kept)
      && CheckOnce(cfg, w, identity, now).1 == decision
  {}

  // ---------- Making room ----------

  /** The identities with a request inside the window. */
  function LiveIdentities(w: Windows, threshold: real): set<Identity> {
    set i | i in w.deques && w.deques[i] != [] && w.deques[i][|w.deques[i]| - 1] > threshold
  }

  lemma {:induction false} DistinctMembers(order: seq<Identity>)
    requires forall i, j :: 0 <= i < j < |order| ==> order[i] != order[j]
    ensures |Members(order)| == |order|
  {
    if order != [] {
      var last := |order| - 1;
      DistinctMembers(order[..last]);
      assert Members(order) == Members(order[..last]) + {order[last]};
    }
  }

  lemma PurgeKeepsLive(w: Windows, threshold: real)
    requires w.Valid()
    ensures var live := Purge(w, threshold);
      && live.Valid() && live.deques.Keys == LiveIdentities(w, threshold) == Members(live.order)
      && |live.order| == |LiveIdentities(w, threshold)|
  {
    KeepProperties(w.order, ExpiredIdentities(w, threshold));
    DistinctMembers(Purge(w, threshold).order);
  }

  lemma SizeOf(w: Windows)
    requires w.Valid()
    ensures w.deques.Keys == Members(w.order) && |w.deques| == |w.order|
  {
    DistinctMembers(w.order);
    assert w.deques.Keys == Members(w.order);
    assert |w.deques| == |w.deques.Keys|;
  }

  lemma EvictsTheOldest(w: Windows, n: nat, room: Windows)
    requires w.Valid() && n <= |w.order| && room == EvictOldest(w, n)
    ensures room.Valid() && Members(w.order[..n]) <= w.deques.Keys
    ensures room.deques.Keys == w.deques.Keys - Members(w.order[..n])
    ensures |room.deques| + n == |w.order|
  {
    EvictValid(w, n);
    SizeOf(room);
    forall i | i in w.order[..n]
      ensures i in w.deques
    {
      assert i in w.order;
    }
  }

  /** A new identity drops those without a request inside the window, and then as many of the others as are needed to
      stay within the bound, and no more; all that stay keep their requests. A known identity drops none. */
  lemma MakesRoomExactly(cfg: Config, w: Windows, identity: Identity, threshold: real, room: Windows,
                         evicted: seq<Identity>)
    requires cfg.Valid() && w.Valid() && (room, evicted) == Admit(cfg, w, identity, threshold)
    ensures identity in w.deques ==> room == w && evicted == []
    ensures identity !in w.deques ==>
      && Members(evicted) <= LiveIdentities(w, threshold)
      && room.deques.Keys == LiveIdentities(w, threshold) - Members(evicted)
      && (|evicted| == 0 || |room.deques| == cfg.maxIdentities - 1)
      && |evicted| + |room.deques| == |LiveIdentities(w, threshold)|
      && |room.deques| < cfg.maxIdentities
    ensures forall i :: i in room.deques ==> i in w.deques && room.deques[i] == w.deques[i]
  {
    if identity !in w.deques {
      PurgeKeepsLive(w, threshold);
      var live := Purge(w, threshold);
      EvictsTheOldest(live, Surplus(|live.order|, cfg.maxIdentities), room);
    }
  }

  // ---------- The limiter object ----------

  class SlidingWindowRateLimiter {
    const cfg: Config
    var windows: Windows

    ghost predicate Valid()
      reads this
    {
      cfg.Valid() && windows.Valid() && |windows.order| <= cfg.maxIdentities
    }

    constructor (cfg: Config)
      requires cfg.Valid()
      ensures Valid() && this.cfg == cfg && windows == Windows([], map[])
    {
      this.cfg := cfg;
      windows := Windows([], map[]);
    }

    method Check(identity: Identity, now: real) returns (decision: Decision)
      requires Valid()
      modifies this
      ensures Valid()
      ensures windows == CheckOnce(cfg, old(windows), identity, now).0
      ensures decision == CheckOnce(cfg, old(windows), identity, now).1
    {
      ghost var before := windows;
      var threshold := now - cfg.windowSeconds;
      var requests: seq<real>;
      if identity !in windows.deques {
        MakeRoom(threshold);
        requests := [];
      } else {
        requests := windows.deques[identity];
      }
      assert windows == Admit(cfg, before, identity, threshold).0;
      ghost var whole := requests;
      AdmitDeque(cfg, before, identity, threshold);
      while requests != [] && requests[0] <= threshold
        invariant DropExpired(requests, threshold) == DropExpired(whole, threshold)
      {
        requests := requests[1..];
      }
      if |requests| >= cfg.requestLimit {
        var retryAfter := Ceil(cfg.windowSeconds - (now - requests[0]));
        decision := Denied(if retryAfter < 1 then 1 else retryAfter);
      } else {
        requests := requests + [now];
        decision := Allowed;
      }
      CheckInSteps(cfg, before, windows, identity, now, whole);
      windows := Touch(windows, identity, requests);
      CheckKeepsBound(cfg, before, identity, now);
    }

    /** Drops expired identities, then the least recently checked ones until a new identity fits. */
    method MakeRoom(threshold: real)
      requires Valid()
      modifies this
      ensures var live := Purge(old(windows), threshold);
        windows == EvictOldest(live, Surplus(|live.order|, cfg.maxIdentities))
    {
      DeleteAll(ExpiredIdentities(windows, threshold));
      ghost var live := windows;
      assert live == Purge(old(windows), threshold);
      ghost var popped: nat := 0;
      EvictNone(live);
      while |windows.order| >= cfg.maxIdentities
        invariant popped <= |live.order| && windows == EvictOldest(live, popped)
        invariant |windows.order| == |live.order| - popped
        invariant popped <= Surplus(|live.order|, cfg.maxIdentities)
        decreases |windows.order|
      {
        EvictOneMore(live, popped, windows);
        var oldest := windows.order[0];
        windows := Windows(windows.order[1..], windows.deques - {oldest});
        popped := popped + 1;
      }
    }

    method DeleteAll(expired: set<Identity>)
      modifies this
      ensures windows == Delete(old(windows), expired)
    {
      KeepAll(windows.order);
      var todo := expired;
      assert expired - todo == {};
      while todo != {}
        invariant todo <= expired && windows == Delete(old(windows), expired - todo)
        decreases todo
      {
        var identity :| identity in todo;
        KeepTwice(old(windows).order, expired - todo, {identity});
        windows := Windows(Keep(windows.order, {identity}), windows.deques - {identity});
        assert expired - todo + {identity} == expired - (todo - {identity});
        todo := todo - {identity};
      }
      assert expired - todo == expired;
    }
  }

  lemma EvictNone(w: Windows)
    ensures EvictOldest(w, 0) == w
  {}

  lemma EvictOneMore(w: Windows, n: nat, part: Windows)
    requires n < |w.order| && part == EvictOldest(w, n)
    ensures |part.order| == |w.order| - n
    ensures EvictOldest(w, n + 1) == Windows(part.order[1..], part.deques - {part.order[0]})
  {}
}
