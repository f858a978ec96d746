/**
 Whole runs of the limiter, checked against the log of every decision it made. Readings of the clock are
 taken in lock order and assumed non-decreasing.
 */
module RateLimiterHistory {
  import opened Wrappers
  import opened RateLimiter
  import Sets

  datatype Record = Record(identity: Identity, now: real, decision: Decision, evicted: seq<Identity>)

  /** The index before and after every check, and what each check decided. */
  datatype Run = Run(states: seq<Windows>, log: seq<Record>)

  ghost predicate Checked(cfg: Config, before: Windows, record: Record, after: Windows) {
    && cfg.Valid() && before.Valid()
    && (after, record.decision, record.evicted) == CheckOnce(cfg, before, record.identity, record.now)
  }

  /** Names an index of a run, to bring the check at that index into a proof. */
  ghost predicate At(i: int) {
    true
  }

  ghost predicate IsRun(cfg: Config, run: Run) {
    && cfg.Valid()
    && |run.states| == |run.log| + 1
    && run.states[0] == Windows([], map[])
    && forall i {:trigger At(i)} :: At(i) && 0 <= i < |run.log| ==>
        Checked(cfg, run.states[i], run.log[i], run.states[i + 1])
  }

  ghost predicate Ordered(log: seq<Record>) {
    forall i, j :: 0 <= i < j < |log| ==> log[i].now <= log[j].now
  }

  lemma CheckAt(cfg: Config, run: Run, i: nat)
    requires IsRun(cfg, run) && i < |run.log|
    ensures Checked(cfg, run.states[i], run.log[i], run.states[i + 1])
  {
    assert At(i);
  }

  /** Any sequence of requests has a run, and the run of the requests so far can be extended by any request. */
  lemma RunExtends(cfg: Config, run: Run, identity: Identity, now: real) returns (longer: Run)
    requires IsRun(cfg, run)
    ensures IsRun(cfg, longer)
    ensures |longer.log| == |run.log| + 1 && longer.log[..|run.log|] == run.log
    ensures longer.log[|run.log|].identity == identity && longer.log[|run.log|].now == now
  {
    var n := |run.log|;
    RunBounded(cfg, run, n);
    var (after, decision, evicted) := CheckOnce(cfg, run.states[n], identity, now);
    longer := Run(run.states + [after], run.log + [Record(identity, now, decision, evicted)]);
    forall i | At(i) && 0 <= i < n + 1
      ensures Checked(cfg, longer.states[i], longer.log[i], longer.states[i + 1])
    {
    }
  }

  lemma CheckedBound(cfg: Config, before: Windows, record: Record, after: Windows)
    requires Checked(cfg, before, record, after) && |before.order| <= cfg.maxIdentities
    ensures after.Valid() && |after.order| <= cfg.maxIdentities
  {
    CheckKeepsBound(cfg, before, record.identity, record.now);
  }

  lemma BoundAt(cfg: Config, run: Run, n: nat)
    requires IsRun(cfg, run) && n < |run.log| && |run.states[n].order| <= cfg.maxIdentities
    ensures run.states[n + 1].Valid() && |run.states[n + 1].order| <= cfg.maxIdentities
  {
    CheckAt(cfg, run, n);
    CheckedBound(cfg, run.states[n], run.log[n], run.states[n + 1]);
  }

  /** In every reachable state there are at most `maxIdentities` deques. */
  lemma {:induction false} RunBounded(cfg: Config, run: Run, n: nat)
    requires IsRun(cfg, run) && n <= |run.log|
    ensures run.states[n].Valid() && |run.states[n].order| <= cfg.maxIdentities
  {
    if n > 0 {
      RunBounded(cfg, run, n - 1);
      BoundAt(cfg, run, n - 1);
    }
  }

  // ---------- The reference: the history of allowed requests ----------

  /** The time a record adds to the history of `x`. */
  function Adds(record: Record, x: Identity): seq<real> {
    if record.identity == x && record.decision.Allowed? then [record.now] else []
  }

  /** Times of the requests of `x` allowed by the first `n` checks, counted from the last time `x` was evicted. */
  function History(log: seq<Record>, n: nat, x: Identity): seq<real>
    requires n <= |log|
  {
    if n == 0 then []
    else (if x in log[n - 1].evicted then [] else History(log, n - 1, x)) + Adds(log[n - 1], x)
  }

  /** Times of all the requests of `x` allowed by the first `n` checks, whatever was evicted. */
  function AllowedTimes(log: seq<Record>, n: nat, x: Identity): seq<real>
    requires n <= |log|
  {
    if n == 0 then [] else AllowedTimes(log, n - 1, x) + Adds(log[n - 1], x)
  }

  /** Index of the last check of `x` among the first `n`, -1 if there was none. */
  function LastCheck(log: seq<Record>, n: nat, x: Identity): (i: int)
    requires n <= |log|
    ensures -1 <= i < n
  {
    if n == 0 then -1 else if log[n - 1].identity == x then n - 1 else LastCheck(log, n - 1, x)
  }

  /** The times strictly inside the window that starts at `threshold`. */
  function Recent(times: seq<real>, threshold: real): (recent: seq<real>)
    ensures |recent| <= |times|
  {
    if times == [] then []
    else
      var last := |times| - 1;
      Recent(times[..last], threshold) + (if times[last] > threshold then [times[last]] else [])
  }

  /** The times are sorted and none is later than `now`. */
  ghost predicate Ascending(times: seq<real>, now: real) {
    times == [] || (times[|times| - 1] <= now && Ascending(times[..|times| - 1], times[|times| - 1]))
  }

  // ---------- Facts about windows of times ----------

  lemma RecentAppend(times: seq<real>, t: real, threshold: real)
    ensures Recent(times + [t], threshold) == Recent(times, threshold) + (if t > threshold then [t] else [])
  {}

  lemma {:induction false} RecentTwice(times: seq<real>, early: real, late: real)
    requires early <= late
    ensures Recent(Recent(times, early), late) == Recent(times, late)
  {
    if times != [] {
      var last := |times| - 1;
      RecentTwice(times[..last], early, late);
      if times[last] > early {
        RecentAppend(Recent(times[..last], early), times[last], late);
      } else {
        assert Recent(times, early) == Recent(times[..last], early);
      }
    }
  }

  /** Two time lists that agree inside a window agree inside every later window. */
  lemma RecentLater(a: seq<real>, b: seq<real>, early: real, late: real)
    requires early <= late && Recent(a, early) == Recent(b, early)
    ensures Recent(a, late) == Recent(b, late)
  {
    RecentTwice(a, early, late);
    RecentTwice(b, early, late);
  }

  lemma {:induction false} AscendingLater(times: seq<real>, now: real, later: real)
    requires Ascending(times, now) && now <= later
    ensures Ascending(times, later)
  {}

  /** What `Ascending` says element by element. */
  lemma {:induction false} AscendingOrder(times: seq<real>, now: real, i: nat, j: nat)
    requires Ascending(times, now) && i <= j < |times|
    ensures times[i] <= times[j] <= now
  {
    var last := |times| - 1;
    if j < last {
      AscendingOrder(times[..last], times[last], i, j);
    } else if i < last {
      AscendingOrder(times[..last], times[last], i, last - 1);
    }
  }

  lemma {:induction false} RecentNone(times: seq<real>, threshold: real)
    requires Ascending(times, threshold)
    ensures Recent(times, threshold) == []
  {
    if times != [] {
      AscendingLater(times[..|times| - 1], times[|times| - 1], threshold);
      RecentNone(times[..|times| - 1], threshold);
    }
  }

  lemma {:induction false} RecentAll(times: seq<real>, threshold: real)
    requires forall i :: 0 <= i < |times| ==> times[i] > threshold
    ensures Recent(times, threshold) == times
  {
    if times != [] {
      RecentAll(times[..|times| - 1], threshold);
    }
  }

  lemma {:induction false} RecentConcat(a: seq<real>, b: seq<real>, threshold: real)
    ensures Recent(a + b, threshold) == Recent(a, threshold) + Recent(b, threshold)
  {
    if b == [] {
      assert a + b == a;
    } else {
      var last := |b| - 1;
      assert a + b == a + b[..last] + [b[last]];
      RecentAppend(a + b[..last], b[last], threshold);
      RecentConcat(a, b[..last], threshold);
    }
  }

  /** On a sorted deque, popping expired entries from the left keeps exactly the window. */
  lemma {:induction false} DropExpiredIsRecent(times: seq<real>, threshold: real, now: real)
    requires Ascending(times, now)
    ensures DropExpired(times, threshold) == Recent(times, threshold)
  {
    if times != [] && times[0] <= threshold {
      AscendingTail(times, 1, now);
      DropExpiredIsRecent(times[1..], threshold, now);
      assert times == times[..1] + times[1..];
      RecentConcat(times[..1], times[1..], threshold);
      assert times[..1][..0] == [];
    } else {
      forall i | 0 <= i < |times|
        ensures times[i] > threshold
      {
        AscendingOrder(times, now, 0, i);
      }
      RecentAll(times, threshold);
    }
  }

  lemma {:induction false} AscendingTail(times: seq<real>, i: nat, now: real)
    requires Ascending(times, now) && i <= |times|
    ensures Ascending(times[i..], now)
  {
    if i < |times| {
      var last := |times| - 1;
      AscendingTail(times[..last], i, times[last]);
      assert times[i..][..last - i] == times[..last][i..];
    }
  }

  lemma {:induction false} RecentAscending(times: seq<real>, threshold: real, now: real)
    requires Ascending(times, now)
    ensures Ascending(Recent(times, threshold), now)
  {
    if times != [] {
      var last := |times| - 1;
      RecentAscending(times[..last], threshold, times[last]);
      if times[last] > threshold {
        AscendingAppend(Recent(times[..last], threshold), times[last], now);
      } else {
        assert Recent(times, threshold) == Recent(times[..last], threshold);
        AscendingLater(Recent(times[..last], threshold), times[last], now);
      }
    }
  }

  lemma AscendingAppend(times: seq<real>, t: real, now: real)
    requires Ascending(times, t) && t <= now
    ensures Ascending(times + [t], now)
  {}

  /** In a sorted list everything from a live entry on is live. */
  lemma RecentAtLeast(times: seq<real>, now: real, i: nat, threshold: real)
    requires Ascending(times, now) && i < |times| && times[i] > threshold
    ensures |Recent(times, threshold)| >= |times| - i
  {
    assert times == times[..i] + times[i..];
    RecentConcat(times[..i], times[i..], threshold);
    forall j | 0 <= j < |times[i..]|
      ensures times[i..][j] > threshold
    {
      AscendingOrder(times, now, i, i + j);
    }
    RecentAll(times[i..], threshold);
  }

  // ---------- One check, identity by identity ----------

  /** What making room does to one identity. */
  lemma RoomFor(cfg: Config, w: Windows, identity: Identity, threshold: real, x: Identity)
    requires cfg.Valid() && w.Valid()
    ensures var (room, evicted) := Admit(cfg, w, identity, threshold);
      && room.Valid()
      && (x in room.deques ==> x in w.deques && room.deques[x] == w.deques[x] && x !in evicted)
      && (x in evicted ==> x in w.deques && x !in room.deques && x != identity)
      && (x in w.deques && x !in room.deques && x !in evicted ==> Expired(w.deques[x], threshold))
      && room.Deque(identity) == w.Deque(identity)
  {
    if identity !in w.deques {
      var dead := ExpiredIdentities(w, threshold);
      DeleteValid(w, dead);
      var live := Purge(w, threshold);
      EvictValid(live, Surplus(|live.order|, cfg.maxIdentities));
      KeepProperties(w.order, dead);
    }
  }

  /** The effect of one check on identity `x`: on the checked identity a decision over its live deque, on any other
      identity nothing, expiry or eviction. */
  ghost predicate StepFor(cfg: Config, before: Windows, record: Record, after: Windows, x: Identity)
    requires cfg.Valid()
  {
    var threshold := record.now - cfg.windowSeconds;
    if x == record.identity then
      && x !in record.evicted && x in after.deques
      && (record.decision, after.deques[x]) == Decide(cfg, DropExpired(before.Deque(x), threshold), record.now)
    else
      && (x in record.evicted ==> x !in after.deques)
      && (x in after.deques ==> x in before.deques && after.deques[x] == before.deques[x])
      && (x !in record.evicted ==>
          after.Deque(x) == before.Deque(x) || (after.Deque(x) == [] && Expired(before.Deque(x), threshold)))
  }

  lemma OwnCheck(cfg: Config, before: Windows, record: Record, after: Windows)
    requires Checked(cfg, before, record, after)
    ensures StepFor(cfg, before, record, after, record.identity)
  {
    if record.identity in before.deques {
      KnownCheck(cfg, before, record, after);
    } else {
      NewCheck(cfg, before, record, after);
    }
  }

  lemma KnownCheck(cfg: Config, before: Windows, record: Record, after: Windows)
    requires Checked(cfg, before, record, after) && record.identity in before.deques
    ensures StepFor(cfg, before, record, after, record.identity)
  {}

  lemma NewCheck(cfg: Config, before: Windows, record: Record, after: Windows)
    requires Checked(cfg, before, record, after) && record.identity !in before.deques
    ensures StepFor(cfg, before, record, after, record.identity)
  {
    RoomFor(cfg, before, record.identity, record.now - cfg.windowSeconds, record.identity);
  }

  lemma OtherCheck(cfg: Config, before: Windows, record: Record, after: Windows, x: Identity)
    requires Checked(cfg, before, record, after) && x != record.identity
    ensures StepFor(cfg, before, record, after, x)
  {}

  lemma StepAt(cfg: Config, run: Run, i: nat, x: Identity)
    requires IsRun(cfg, run) && i < |run.log|
    ensures StepFor(cfg, run.states[i], run.log[i], run.states[i + 1], x)
  {
    CheckAt(cfg, run, i);
    if x == run.log[i].identity {
      OwnCheck(cfg, run.states[i], run.log[i], run.states[i + 1]);
    } else {
      OtherCheck(cfg, run.states[i], run.log[i], run.states[i + 1], x);
    }
  }

  // ---------- The invariant of every run ----------

  /** A well-formed deque that is, inside the window, equal to its history. */
  ghost predicate Matches(cfg: Config, deque: seq<real>, history: seq<real>, now: real) {
    && |deque| <= cfg.requestLimit
    && Ascending(deque, now) && Ascending(history, now)
    && Recent(deque, now - cfg.windowSeconds) == Recent(history, now - cfg.windowSeconds)
  }

  lemma MatchesLater(cfg: Config, deque: seq<real>, history: seq<real>, now: real, later: real)
    requires Matches(cfg, deque, history, now) && now <= later
    ensures Matches(cfg, deque, history, later)
  {
    AscendingLater(deque, now, later);
    AscendingLater(history, now, later);
    RecentLater(deque, history, now - cfg.windowSeconds, later - cfg.windowSeconds);
  }

  lemma DecideCases(cfg: Config, live: seq<real>, now: real)
    requires cfg.Valid()
    ensures Decide(cfg, live, now).0.Allowed? <==> |live| < cfg.requestLimit
    ensures Decide(cfg, live, now).1 == live + (if |live| < cfg.requestLimit then [now] else [])
  {}

  /** Popping the expired entries leaves the window of the history. */
  lemma DropMatches(cfg: Config, deque: seq<real>, history: seq<real>, now: real)
    requires Matches(cfg, deque, history, now)
    ensures var live := DropExpired(deque, now - cfg.windowSeconds);
      live == Recent(history, now - cfg.windowSeconds) && Matches(cfg, live, history, now)
  {
    var threshold := now - cfg.windowSeconds;
    DropExpiredIsRecent(deque, threshold, now);
    RecentAscending(deque, threshold, now);
    RecentTwice(deque, threshold, threshold);
  }

  lemma AppendMatches(cfg: Config, deque: seq<real>, history: seq<real>, now: real)
    requires Matches(cfg, deque, history, now) && |deque| < cfg.requestLimit
    ensures Matches(cfg, deque + [now], history + [now], now)
  {}

  lemma ForgetMatches(cfg: Config, deque: seq<real>, history: seq<real>, now: real)
    requires Matches(cfg, deque, history, now) && Expired(deque, now - cfg.windowSeconds)
    ensures Matches(cfg, [], history, now)
  {
    ExpiredIsEmpty(deque, now, now - cfg.windowSeconds);
  }

  lemma ExpiredIsEmpty(deque: seq<real>, now: real, threshold: real)
    requires Ascending(deque, now) && Expired(deque, threshold)
    ensures Recent(deque, threshold) == []
  {
    if deque != [] {
      RecentNone(deque, threshold);
    }
  }

  lemma OwnStep(cfg: Config, before: Windows, record: Record, after: Windows, history: seq<real>)
    requires cfg.Valid() && StepFor(cfg, before, record, after, record.identity)
    requires Matches(cfg, before.Deque(record.identity), history, record.now)
    ensures Matches(cfg, after.Deque(record.identity), history + Adds(record, record.identity), record.now)
    ensures after.Deque(record.identity) != []
    ensures record.decision.Allowed? <==> |Recent(history, record.now - cfg.windowSeconds)| < cfg.requestLimit
  {
    var live := DropExpired(before.Deque(record.identity), record.now - cfg.windowSeconds);
    DecideCases(cfg, live, record.now);
    DropMatches(cfg, before.Deque(record.identity), history, record.now);
    if |live| < cfg.requestLimit {
      AppendMatches(cfg, live, history, record.now);
    } else {
      assert history + [] == history;
    }
  }

  lemma OtherStep(cfg: Config, before: Windows, record: Record, after: Windows, history: seq<real>, x: Identity)
    requires cfg.Valid() && StepFor(cfg, before, record, after, x) && x != record.identity
    requires Matches(cfg, before.Deque(x), history, record.now)
    ensures Matches(cfg, after.Deque(x), if x in record.evicted then [] else history, record.now)
  {
    if x !in record.evicted && after.Deque(x) != before.Deque(x) {
      ForgetMatches(cfg, before.Deque(x), history, record.now);
    }
  }

  lemma HistoryStep(log: seq<Record>, n: nat, x: Identity)
    requires n < |log|
    ensures x !in log[n].evicted ==> History(log, n + 1, x) == History(log, n, x) + Adds(log[n], x)
    ensures x in log[n].evicted && x != log[n].identity ==> History(log, n + 1, x) == []
  {}

  /** In every run every deque is sorted, at most `requestLimit` long, and equal to the history of its identity inside
      the window. */
  lemma {:induction false} RunMatches(cfg: Config, run: Run, n: nat, x: Identity, now: real)
    requires IsRun(cfg, run) && Ordered(run.log) && n <= |run.log|
    requires n > 0 ==> run.log[n - 1].now <= now
    ensures Matches(cfg, run.states[n].Deque(x), History(run.log, n, x), now)
  {
    if n > 0 {
      var record, history := run.log[n - 1], History(run.log, n - 1, x);
      RunMatches(cfg, run, n - 1, x, record.now);
      StepAt(cfg, run, n - 1, x);
      HistoryStep(run.log, n - 1, x);
      if x == record.identity {
        OwnStep(cfg, run.states[n - 1], record, run.states[n], history);
      } else {
        OtherStep(cfg, run.states[n - 1], record, run.states[n], history, x);
        assert history + [] == history;
      }
      MatchesLater(cfg, run.states[n].Deque(x), History(run.log, n, x), record.now, now);
    }
  }

  /** In every run every deque is non-empty. */
  lemma {:induction false} DequesNonEmpty(cfg: Config, run: Run, n: nat, x: Identity)
    requires IsRun(cfg, run) && Ordered(run.log) && n <= |run.log|
    requires x in run.states[n].deques
    ensures run.states[n].deques[x] != []
  {
    if n > 0 {
      var record := run.log[n - 1];
      StepAt(cfg, run, n - 1, x);
      if x == record.identity {
        RunMatches(cfg, run, n - 1, x, record.now);
        OwnStep(cfg, run.states[n - 1], record, run.states[n], History(run.log, n - 1, x));
      } else {
        DequesNonEmpty(cfg, run, n - 1, x);
      }
    }
  }

  // ---------- The decision ----------

  /** In every run, evictions included, a request is allowed exactly when fewer than the limit of the requests
      allowed to its identity since its last eviction lie strictly inside the window. */
  lemma DecisionMatchesHistory(cfg: Config, run: Run, n: nat, history: seq<real>)
    requires IsRun(cfg, run) && Ordered(run.log) && n < |run.log|
    requires history == History(run.log, n, run.log[n].identity)
    ensures run.log[n].decision.Allowed? <==>
            |Recent(history, run.log[n].now - cfg.windowSeconds)| < cfg.requestLimit
  {
    RunMatches(cfg, run, n, run.log[n].identity, run.log[n].now);
    StepAt(cfg, run, n, run.log[n].identity);
    OwnDecision(cfg, run.states[n], run.log[n], run.states[n + 1], history);
  }

  lemma OwnDecision(cfg: Config, before: Windows, record: Record, after: Windows, history: seq<real>)
    requires cfg.Valid() && StepFor(cfg, before, record, after, record.identity)
    requires Matches(cfg, before.Deque(record.identity), history, record.now)
    ensures record.decision.Allowed? <==> |Recent(history, record.now - cfg.windowSeconds)| < cfg.requestLimit
  {
    OwnStep(cfg, before, record, after, history);
  }

  /** The first `n` requests come from identities in `known`. */
  ghost predicate OnlyFrom(log: seq<Record>, n: nat, known: set<Identity>)
    requires n <= |log|
  {
    forall i {:trigger At(i)} :: At(i) && 0 <= i < n ==> log[i].identity in known
  }

  lemma {:induction false} DistinctSize(order: seq<Identity>)
    requires forall i, j :: 0 <= i < j < |order| ==> order[i] != order[j]
    ensures |Members(order)| == |order|
  {
    if order != [] {
      var last := |order| - 1;
      DistinctSize(order[..last]);
      assert order == order[..last] + [order[last]];
      assert Members(order) == Members(order[..last]) + {order[last]};
      assert order[last] !in order[..last];
    }
  }

  lemma {:induction false} IndexedWereSeen(cfg: Config, run: Run, n: nat, known: set<Identity>, x: Identity)
    requires IsRun(cfg, run) && n <= |run.log| && OnlyFrom(run.log, n, known)
    requires x in run.states[n].deques
    ensures x in known
  {
    if n > 0 {
      StepAt(cfg, run, n - 1, x);
      assert At(n - 1);
      if x != run.log[n - 1].identity {
        IndexedWereSeen(cfg, run, n - 1, known, x);
      }
    }
  }

  lemma RoomWithoutEviction(cfg: Config, before: Windows, record: Record, after: Windows)
    requires Checked(cfg, before, record, after)
    requires record.identity in before.deques || |before.order| < cfg.maxIdentities
    ensures record.evicted == []
  {
    DeleteValid(before, ExpiredIdentities(before, record.now - cfg.windowSeconds));
  }

  lemma FewIdentitiesHaveRoom(cfg: Config, run: Run, n: nat, known: set<Identity>)
    requires IsRun(cfg, run) && n < |run.log|
    requires OnlyFrom(run.log, n + 1, known) && |known| <= cfg.maxIdentities
    ensures run.log[n].identity in run.states[n].deques || |run.states[n].order| < cfg.maxIdentities
  {
    var order, newcomer := run.states[n].order, run.log[n].identity;
    RunBounded(cfg, run, n);
    DistinctSize(order);
    if newcomer !in run.states[n].deques {
      forall x | x in Members(order)
        ensures x in known
      {
        IndexedWereSeen(cfg, run, n, known, x);
      }
      assert At(n);
      Sets.SubsetSize(Members(order) + {newcomer}, known);
    }
  }

  /** Nobody is evicted while the requests come from at most `maxIdentities` identities. */
  lemma NothingEvicted(cfg: Config, run: Run, n: nat, known: set<Identity>)
    requires IsRun(cfg, run) && n < |run.log|
    requires OnlyFrom(run.log, n + 1, known) && |known| <= cfg.maxIdentities
    ensures run.log[n].evicted == []
  {
    FewIdentitiesHaveRoom(cfg, run, n, known);
    CheckAt(cfg, run, n);
    RoomWithoutEviction(cfg, run.states[n], run.log[n], run.states[n + 1]);
  }

  lemma {:induction false} HistoryIsComplete(cfg: Config, run: Run, n: nat, known: set<Identity>, x: Identity)
    requires IsRun(cfg, run) && n <= |run.log|
    requires OnlyFrom(run.log, n, known) && |known| <= cfg.maxIdentities
    ensures History(run.log, n, x) == AllowedTimes(run.log, n, x)
  {
    if n > 0 {
      NothingEvicted(cfg, run, n - 1, known);
      HistoryIsComplete(cfg, run, n - 1, known, x);
    }
  }

  /** Refinement of the full-history limiter: as long as the requests came from at most `maxIdentities` identities, a
      request is allowed exactly when fewer than the limit of all requests ever allowed to its identity lie strictly
      inside the window. */
  lemma RefinesFullHistory(cfg: Config, run: Run, n: nat, known: set<Identity>, allowed: seq<real>)
    requires IsRun(cfg, run) && Ordered(run.log) && n < |run.log|
    requires OnlyFrom(run.log, n, known) && |known| <= cfg.maxIdentities
    requires allowed == AllowedTimes(run.log, n, run.log[n].identity)
    ensures run.log[n].decision.Allowed? <==>
            |Recent(allowed, run.log[n].now - cfg.windowSeconds)| < cfg.requestLimit
  {
    HistoryIsComplete(cfg, run, n, known, run.log[n].identity);
    DecisionMatchesHistory(cfg, run, n, allowed);
  }

  // ---------- Spacing ----------

  ghost predicate Spaced(cfg: Config, times: seq<real>) {
    forall i {:trigger At(i)} :: At(i) && 0 <= i && i + cfg.requestLimit < |times| ==>
      times[i + cfg.requestLimit] - times[i] >= cfg.windowSeconds
  }

  lemma OldestExpired(cfg: Config, times: seq<real>, now: real, k: nat)
    requires cfg.Valid() && Ascending(times, now) && k + cfg.requestLimit == |times|
    requires |Recent(times, now - cfg.windowSeconds)| < cfg.requestLimit
    ensures times[k] <= now - cfg.windowSeconds
  {
    if times[k] > now - cfg.windowSeconds {
      RecentAtLeast(times, now, k, now - cfg.windowSeconds);
    }
  }

  lemma SpacedAppend(cfg: Config, times: seq<real>, now: real)
    requires cfg.Valid() && Spaced(cfg, times)
    requires |times| >= cfg.requestLimit ==> now - times[|times| - cfg.requestLimit] >= cfg.windowSeconds
    ensures Spaced(cfg, times + [now])
  {}

  lemma SpacedStep(cfg: Config, times: seq<real>, now: real)
    requires cfg.Valid() && Spaced(cfg, times) && Ascending(times, now)
    requires |Recent(times, now - cfg.windowSeconds)| < cfg.requestLimit
    ensures Spaced(cfg, times + [now])
  {
    if |times| >= cfg.requestLimit {
      OldestExpired(cfg, times, now, |times| - cfg.requestLimit);
    }
    SpacedAppend(cfg, times, now);
  }

  lemma SpacedAdds(cfg: Config, log: seq<Record>, n: nat, x: Identity, history: seq<real>)
    requires cfg.Valid() && n < |log| && history == History(log, n, x)
    requires Spaced(cfg, history) && Ascending(history, log[n].now)
    requires log[n].identity == x ==> x !in log[n].evicted
    requires Adds(log[n], x) != [] ==> |Recent(history, log[n].now - cfg.windowSeconds)| < cfg.requestLimit
    ensures Spaced(cfg, History(log, n + 1, x))
  {
    HistoryStep(log, n, x);
    if Adds(log[n], x) != [] {
      SpacedStep(cfg, history, log[n].now);
    } else if x !in log[n].evicted {
      assert History(log, n + 1, x) == history;
    }
  }

  lemma HistoryAscending(cfg: Config, run: Run, n: nat, x: Identity, now: real)
    requires IsRun(cfg, run) && Ordered(run.log) && n <= |run.log|
    requires n > 0 ==> run.log[n - 1].now <= now
    ensures Ascending(History(run.log, n, x), now)
  {
    RunMatches(cfg, run, n, x, now);
  }

  lemma OwnStays(cfg: Config, run: Run, n: nat)
    requires IsRun(cfg, run) && n < |run.log|
    ensures run.log[n].identity !in run.log[n].evicted
  {
    StepAt(cfg, run, n, run.log[n].identity);
  }

  lemma SpacedAt(cfg: Config, run: Run, n: nat, x: Identity)
    requires IsRun(cfg, run) && Ordered(run.log) && n < |run.log| && Spaced(cfg, History(run.log, n, x))
    ensures Spaced(cfg, History(run.log, n + 1, x))
  {
    var history := History(run.log, n, x);
    HistoryAscending(cfg, run, n, x, run.log[n].now);
    if x == run.log[n].identity {
      OwnStays(cfg, run, n);
      DecisionMatchesHistory(cfg, run, n, history);
    }
    SpacedAdds(cfg, run.log, n, x, history);
  }

  /** The limit holds over every window, not only at the moment of a check: any two requests of an identity that are
      `requestLimit` allowed requests apart are at least one window apart. */
  lemma {:induction false} AllowedSpacing(cfg: Config, run: Run, n: nat, x: Identity)
    requires IsRun(cfg, run) && Ordered(run.log) && n <= |run.log|
    ensures Spaced(cfg, History(run.log, n, x))
  {
    if n > 0 {
      AllowedSpacing(cfg, run, n - 1, x);
      SpacedAt(cfg, run, n - 1, x);
    }
  }

  // ---------- Order of eviction ----------

  /** The order is that of the last checks, all of them before check `bound`. */
  ghost predicate ByLastCheck(order: seq<Identity>, log: seq<Record>, n: nat, bound: int)
    requires n <= |log|
  {
    order == [] ||
    (var last := |order| - 1;
     && 0 <= LastCheck(log, n, order[last]) < bound
     && ByLastCheck(order[..last], log, n, LastCheck(log, n, order[last])))
  }

  lemma {:induction false} ByLastCheckLater(order: seq<Identity>, log: seq<Record>, n: nat, bound: int, later: int)
    requires n <= |log| && ByLastCheck(order, log, n, bound) && bound <= later
    ensures ByLastCheck(order, log, n, later)
  {}

  /** What `ByLastCheck` says entry by entry. */
  lemma {:induction false} ByLastCheckOrder(order: seq<Identity>, log: seq<Record>, n: nat, bound: int, i: nat, j: nat)
    requires n <= |log| && ByLastCheck(order, log, n, bound) && i < j < |order|
    ensures 0 <= LastCheck(log, n, order[i]) < LastCheck(log, n, order[j]) < bound
  {
    var last := |order| - 1;
    if j < last {
      ByLastCheckOrder(order[..last], log, n, LastCheck(log, n, order[last]), i, j);
    } else if i < last - 1 {
      ByLastCheckOrder(order[..last], log, n, LastCheck(log, n, order[last]), i, last - 1);
    }
  }

  lemma {:induction false} KeepByLastCheck(order: seq<Identity>, dead: set<Identity>, log: seq<Record>, n: nat,
                                           bound: int)
    requires n <= |log| && ByLastCheck(order, log, n, bound)
    ensures ByLastCheck(Keep(order, dead), log, n, bound)
  {
    if order != [] {
      var last := |order| - 1;
      var kept := Keep(order[..last], dead);
      KeepByLastCheck(order[..last], dead, log, n, LastCheck(log, n, order[last]));
      if order[last] in dead {
        assert Keep(order, dead) == kept;
        ByLastCheckLater(kept, log, n, LastCheck(log, n, order[last]), bound);
      } else {
        assert (kept + [order[last]])[..|kept|] == kept;
      }
    }
  }

  lemma {:induction false} DropByLastCheck(order: seq<Identity>, k: nat, log: seq<Record>, n: nat, bound: int)
    requires n <= |log| && k <= |order| && ByLastCheck(order, log, n, bound)
    ensures ByLastCheck(order[k..], log, n, bound)
  {
    if k < |order| {
      var last := |order| - 1;
      DropByLastCheck(order[..last], k, log, n, LastCheck(log, n, order[last]));
      assert order[k..][..last - k] == order[..last][k..];
    }
  }

  /** How one check changes the order: the entries in `dead` are deleted, the first `k` of the rest are evicted, and
      the checked identity becomes the last. */
  ghost predicate Reordered(before: seq<Identity>, record: Record, after: seq<Identity>, dead: set<Identity>,
                            live: seq<Identity>, k: nat)
  {
    && live == Keep(before, dead) && k <= |live|
    && record.evicted == live[..k]
    && after == Keep(live[k..], {record.identity}) + [record.identity]
  }

  lemma CheckReorders(cfg: Config, before: Windows, record: Record, after: Windows)
    returns (dead: set<Identity>, live: seq<Identity>, k: nat)
    requires Checked(cfg, before, record, after)
    ensures Reordered(before.order, record, after.order, dead, live, k)
  {
    if record.identity in before.deques {
      dead, live, k := {}, before.order, 0;
      KnownReorders(cfg, before, record, after);
    } else {
      dead := ExpiredIdentities(before, record.now - cfg.windowSeconds);
      live := Keep(before.order, dead);
      k := Surplus(|live|, cfg.maxIdentities);
    }
  }

  lemma KnownReorders(cfg: Config, before: Windows, record: Record, after: Windows)
    requires Checked(cfg, before, record, after) && record.identity in before.deques
    ensures Reordered(before.order, record, after.order, {}, before.order, 0)
  {
    KeepAll(before.order);
    assert before.order[0..] == before.order;
  }

  lemma ReorderAt(cfg: Config, run: Run, n: nat) returns (dead: set<Identity>, live: seq<Identity>, k: nat)
    requires IsRun(cfg, run) && n < |run.log|
    ensures Reordered(run.states[n].order, run.log[n], run.states[n + 1].order, dead, live, k)
  {
    CheckAt(cfg, run, n);
    dead, live, k := CheckReorders(cfg, run.states[n], run.log[n], run.states[n + 1]);
  }

  lemma {:induction false} NextByLastCheck(order: seq<Identity>, log: seq<Record>, n: nat, bound: int)
    requires n < |log| && ByLastCheck(order, log, n, bound) && log[n].identity !in order
    ensures ByLastCheck(order, log, n + 1, bound)
  {
    if order != [] {
      NextByLastCheck(order[..|order| - 1], log, n, LastCheck(log, n, order[|order| - 1]));
    }
  }

  lemma {:induction false} KeepMembers(order: seq<Identity>, dead: set<Identity>, x: Identity)
    requires x in Keep(order, dead)
    ensures x in order && x !in dead
  {
    var last := |order| - 1;
    if x in Keep(order[..last], dead) {
      KeepMembers(order[..last], dead, x);
    }
  }

  lemma TouchByLastCheck(order: seq<Identity>, log: seq<Record>, n: nat)
    requires n < |log| && ByLastCheck(order, log, n, n)
    ensures ByLastCheck(Keep(order, {log[n].identity}) + [log[n].identity], log, n + 1, n + 1)
  {
    var x := log[n].identity;
    var kept := Keep(order, {x});
    KeepByLastCheck(order, {x}, log, n, n);
    if x in kept {
      KeepMembers(order, {x}, x);
    }
    NextByLastCheck(kept, log, n, n);
    assert (kept + [x])[..|kept|] == kept;
  }

  /** The index is always in the order of the last check. */
  lemma {:induction false} OrderIsLastCheck(cfg: Config, run: Run, n: nat)
    requires IsRun(cfg, run) && n <= |run.log|
    ensures ByLastCheck(run.states[n].order, run.log, n, n)
  {
    if n > 0 {
      OrderIsLastCheck(cfg, run, n - 1);
      var dead, live, k := ReorderAt(cfg, run, n - 1);
      KeepByLastCheck(run.states[n - 1].order, dead, run.log, n - 1, n - 1);
      DropByLastCheck(live, k, run.log, n - 1, n - 1);
      TouchByLastCheck(live[k..], run.log, n - 1);
    }
  }

  /** An evicted identity was last checked before every identity that stays. */
  lemma EvictsLeastRecentlyChecked(cfg: Config, run: Run, n: nat, gone: Identity, kept: Identity)
    requires IsRun(cfg, run) && n < |run.log|
    requires gone in run.log[n].evicted
    requires kept in run.states[n + 1].order && kept != run.log[n].identity
    ensures LastCheck(run.log, n, gone) < LastCheck(run.log, n, kept)
  {
    OrderIsLastCheck(cfg, run, n);
    var dead, live, k := ReorderAt(cfg, run, n);
    KeepByLastCheck(run.states[n].order, dead, run.log, n, n);
    KeepMembers(live[k..], {run.log[n].identity}, kept);
    var i :| 0 <= i < k && live[..k][i] == gone;
    var j :| 0 <= j < |live| - k && live[k..][j] == kept;
    ByLastCheckOrder(live, run.log, n, n, i, k + j);
  }

  // ---------- The retry time ----------

  /** From check `from` up to check `to` no request of `x` is allowed and `x` is not evicted. */
  ghost predicate Quiet(log: seq<Record>, from: nat, to: nat, x: Identity)
    requires from <= to <= |log|
  {
    forall i {:trigger At(i)} :: At(i) && from <= i < to ==> x !in log[i].evicted && Adds(log[i], x) == []
  }

  lemma {:induction false} QuietHistory(log: seq<Record>, from: nat, to: nat, x: Identity)
    requires from <= to <= |log| && Quiet(log, from, to, x)
    ensures History(log, to, x) == History(log, from, x)
  {
    if from < to {
      QuietHistory(log, from, to - 1, x);
      assert At(to - 1);
    }
  }

  lemma {:induction false} RecentLive(times: seq<real>, threshold: real)
    ensures forall i :: 0 <= i < |Recent(times, threshold)| ==> Recent(times, threshold)[i] > threshold
  {
    if times != [] {
      RecentLive(times[..|times| - 1], threshold);
    }
  }

  /** The retry time counts whole seconds until the oldest request of the full window expires; the program's lower
      bound of one second never applies. */
  lemma DenialRetry(cfg: Config, deque: seq<real>, history: seq<real>, now: real) returns (first: real)
    requires cfg.Valid() && Matches(cfg, deque, history, now)
    requires Decide(cfg, DropExpired(deque, now - cfg.windowSeconds), now).0.Denied?
    ensures var retry := Decide(cfg, DropExpired(deque, now - cfg.windowSeconds), now).0.retryAfterSeconds;
      && (retry - 1) as real < first + cfg.windowSeconds - now <= retry as real
      && retry == Ceil(cfg.windowSeconds - (now - first))
    ensures var window := Recent(history, now - cfg.windowSeconds);
      && |window| == cfg.requestLimit && window[0] == first
      && Ascending(window, now)
  {
    var threshold := now - cfg.windowSeconds;
    DropMatches(cfg, deque, history, now);
    RecentLive(history, threshold);
    first := Recent(history, threshold)[0];
  }

  lemma FirstExpires(window: seq<real>, now: real, late: real)
    requires window != [] && Ascending(window, now)
    ensures |Recent(window, late)| < |window| <==> window[0] <= late
  {}

  /** `retry` is the whole number of seconds until the oldest request of the full window expires. */
  ghost predicate RetryOf(cfg: Config, window: seq<real>, now: real, retry: int) {
    && |window| == cfg.requestLimit && window != [] && Ascending(window, now)
    && (retry - 1) as real < window[0] + cfg.windowSeconds - now <= retry as real
  }

  lemma RetryBounds(cfg: Config, window: seq<real>, t: real, u: real, retry: int)
    requires cfg.Valid() && RetryOf(cfg, window, t, retry) && window[0] > t - cfg.windowSeconds
    ensures retry >= 1
    ensures u <= t + (retry - 1) as real ==> window[0] > u - cfg.windowSeconds
    ensures u >= t + retry as real ==> window[0] <= u - cfg.windowSeconds
  {}

  /** A full window denies until its oldest request has expired and then allows. */
  lemma WindowReopens(times: seq<real>, window: seq<real>, live: seq<real>, now: real, early: real, late: real)
    requires early <= late && window == Recent(times, early) && live == Recent(times, late)
    requires window != [] && Ascending(window, now)
    ensures |live| < |window| <==> window[0] <= late
  {
    RecentTwice(times, early, late);
    FirstExpires(window, now, late);
  }

  lemma RunRetry(cfg: Config, run: Run, n: nat, t: real, retry: int, history: seq<real>, window: seq<real>)
    requires IsRun(cfg, run) && Ordered(run.log) && n < |run.log| && run.log[n].decision == Denied(retry)
    requires history == History(run.log, n, run.log[n].identity) && t == run.log[n].now
    requires window == Recent(history, t - cfg.windowSeconds)
    ensures RetryOf(cfg, window, t, retry) && window[0] > t - cfg.windowSeconds
  {
    RunMatches(cfg, run, n, run.log[n].identity, t);
    StepAt(cfg, run, n, run.log[n].identity);
    OwnRetry(cfg, run.states[n], run.log[n], run.states[n + 1], retry, history, window);
  }

  lemma OwnRetry(cfg: Config, before: Windows, record: Record, after: Windows, retry: int, history: seq<real>,
                 window: seq<real>)
    requires cfg.Valid() && StepFor(cfg, before, record, after, record.identity) && record.decision == Denied(retry)
    requires Matches(cfg, before.Deque(record.identity), history, record.now)
    requires window == Recent(history, record.now - cfg.windowSeconds)
    ensures RetryOf(cfg, window, record.now, retry) && window[0] > record.now - cfg.windowSeconds
  {
    RecentLive(history, record.now - cfg.windowSeconds);
    var first := DenialRetry(cfg, before.Deque(record.identity), history, record.now);
  }

  lemma DeniedUntil(cfg: Config, times: seq<real>, window: seq<real>, live: seq<real>, t: real, u: real, retry: int)
    requires cfg.Valid() && t <= u
    requires window == Recent(times, t - cfg.windowSeconds) && live == Recent(times, u - cfg.windowSeconds)
    requires RetryOf(cfg, window, t, retry) && window[0] > t - cfg.windowSeconds
    ensures retry >= 1
    ensures u <= t + (retry - 1) as real ==> |live| >= cfg.requestLimit
    ensures u >= t + retry as real ==> |live| < cfg.requestLimit
  {
    RetryBounds(cfg, window, t, u, retry);
    WindowReopens(times, window, live, t, t - cfg.windowSeconds, u - cfg.windowSeconds);
  }

  lemma HistoryReopens(cfg: Config, run: Run, n: nat, t: real, u: real, retry: int, history: seq<real>,
                       window: seq<real>, live: seq<real>)
    requires IsRun(cfg, run) && Ordered(run.log) && n < |run.log| && run.log[n].decision == Denied(retry)
    requires history == History(run.log, n, run.log[n].identity) && t == run.log[n].now && t <= u
    requires window == Recent(history, t - cfg.windowSeconds) && live == Recent(history, u - cfg.windowSeconds)
    ensures retry >= 1
    ensures u <= t + (retry - 1) as real ==> |live| >= cfg.requestLimit
    ensures u >= t + retry as real ==> |live| < cfg.requestLimit
  {
    RunRetry(cfg, run, n, t, retry, history, window);
    DeniedUntil(cfg, history, window, live, t, u, retry);
  }

  lemma QuietDecision(cfg: Config, run: Run, n: nat, m: nat, history: seq<real>, live: seq<real>)
    requires IsRun(cfg, run) && Ordered(run.log) && n < m < |run.log|
    requires run.log[m].identity == run.log[n].identity && Quiet(run.log, n, m, run.log[n].identity)
    requires history == History(run.log, n, run.log[n].identity)
    requires live == Recent(history, run.log[m].now - cfg.windowSeconds)
    ensures run.log[m].decision.Allowed? <==> |live| < cfg.requestLimit
  {
    QuietHistory(run.log, n, m, run.log[n].identity);
    DecisionMatchesHistory(cfg, run, m, history);
  }

  /** The retry time is exact. After a denial at time t with retry time r, whatever else is checked meanwhile, a request
      of the same identity is still denied at every moment up to t + r - 1 and allowed at every moment from t + r on,
      provided no other request of it was allowed and it was not evicted in between. */
  lemma RetryTimeIsExact(cfg: Config, run: Run, n: nat, m: nat, retry: int)
    requires IsRun(cfg, run) && Ordered(run.log) && n < m < |run.log|
    requires run.log[n].decision == Denied(retry)
    requires run.log[m].identity == run.log[n].identity
    requires Quiet(run.log, n, m, run.log[n].identity)
    ensures retry >= 1
    ensures run.log[m].now <= run.log[n].now + (retry - 1) as real ==> run.log[m].decision.Denied?
    ensures run.log[m].now >= run.log[n].now + retry as real ==> run.log[m].decision.Allowed?
  {
    var history := History(run.log, n, run.log[n].identity);
    var live := Recent(history, run.log[m].now - cfg.windowSeconds);
    var window := Recent(history, run.log[n].now - cfg.windowSeconds);
    HistoryReopens(cfg, run, n, run.log[n].now, run.log[m].now, retry, history, window, live);
    QuietDecision(cfg, run, n, m, history, live);
  }
}
