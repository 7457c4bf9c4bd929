/** common/rate-limit.go: the in-memory rate limiter. Each key holds a bounded queue of admission
    times, and a background sweep drops idle keys. The clock is an input and never goes back. The
    expiration is a duration in whole seconds, rounded down: 0 is a positive duration under a second.
    Without a positive duration no sweeper is started and runs have no sweeps. */
module RateLimit {

  type Store = map<string, seq<int>>

  /** The pair of arguments a caller passes for a key: `maxRequestNum` and `duration`. */
  datatype Limit = Limit(max: nat, window: int)

  /** No queue in the store is empty. */
  predicate Valid(store: Store) {
    forall key :: key in store ==> store[key] != []
  }

  /** One request, under the mutex. */
  function Requested(store: Store, key: string, limit: Limit, now: int): (r: (Store, bool))
    requires Valid(store)
  {
    if key !in store then (store[key := [now]], true)
    else
      var queue := store[key];
      if |queue| < limit.max then (store[key := queue + [now]], true)
      else if now - queue[0] >= limit.window then (store[key := queue[1..] + [now]], true)
      else (store, false)
  }

  predicate Idle(queue: seq<int>, expiration: nat, now: int) {
    queue == [] || now - queue[|queue| - 1] > expiration
  }

  /** One sweep, under the mutex. */
  function Swept(store: Store, expiration: nat, now: int): (r: Store) {
    map key | key in store && !Idle(store[key], expiration, now) :: store[key]
  }

  class InMemoryRateLimiter {
    var store: Store
    const expiration: nat

    constructor (expiration: nat)
      ensures store == map[] && this.expiration == expiration
    {
      store := map[];
      this.expiration := expiration;
    }

    method Request(key: string, maxRequestNum: nat, duration: int, now: int) returns (admitted: bool)
      requires Valid(store)
      modifies this`store
      ensures Valid(store)
      ensures (store, admitted) == Requested(old(store), key, Limit(maxRequestNum, duration), now)
    {
      if key in store {
        var queue := store[key];
        if |queue| < maxRequestNum {
          store := store[key := queue + [now]];
          return true;
        } else {
          if now - queue[0] >= duration {
            queue := queue[1..];
            store := store[key := queue + [now]];
            return true;
          } else {
            return false;
          }
        }
      } else {
        var queue: seq<int> := [];
        store := store[key := queue + [now]];
        assert queue + [now] == [now];
      }
      return true;
    }

    /** One pass of the eviction loop. Go visits the keys in an arbitrary order. */
    method ClearExpiredItems(now: int)
      requires Valid(store)
      modifies this`store
      ensures Valid(store)
      ensures store == Swept(old(store), expiration, now)
    {
      var todo := store.Keys;
      while todo != {}
        invariant todo <= store.Keys <= old(store).Keys
        invariant forall key :: key in store ==> store[key] == old(store)[key]
        invariant forall key :: key in old(store) && key !in todo ==>
                    (key in store <==> !Idle(old(store)[key], expiration, now))
        decreases todo
      {
        var key :| key in todo;
        var queue := store[key];
        if |queue| == 0 || now - queue[|queue| - 1] > expiration {
          store := store - {key};
        }
        todo := todo - {key};
      }
    }
  }

  // ----- Runs ------------------------------------------------------------------

  datatype Event = Request(key: string, now: int) | Sweep(now: int)

  /** What the limiter does over a run: its final store and the answer to each event. */
  datatype Trace = Trace(store: Store, answers: seq<bool>)

  function RunLimiter(limits: string -> Limit, expiration: nat, events: seq<Event>): (t: Trace)
    ensures Valid(t.store) && |t.answers| == |events|
  {
    if events == [] then Trace(map[], [])
    else
      var before := RunLimiter(limits, expiration, events[..|events| - 1]);
      match events[|events| - 1]
      case Request(key, now) =>
        var (store, admitted) := Requested(before.store, key, limits(key), now);
        Trace(store, before.answers + [admitted])
      case Sweep(now) =>
        Trace(Swept(before.store, expiration, now), before.answers + [true])
  }

  // ----- The rule the limiter should implement -----------------------------------

  /** All admissions of every key so far, and the answers. */
  datatype Ledger = Ledger(admitted: map<string, seq<int>>, answers: seq<bool>)

  function AdmittedOf(admitted: map<string, seq<int>>, key: string): seq<int> {
    if key in admitted then admitted[key] else []
  }

  /** The number of admissions less than `window` seconds old. */
  function Recent(times: seq<int>, window: int, now: int): (n: nat)
    ensures n <= |times|
  {
    if times == [] then 0
    else Recent(times[..|times| - 1], window, now) + if now - times[|times| - 1] < window then 1 else 0
  }

  /** A maximum of 0 still admits one request per window. */
  function Capacity(limit: Limit): (n: nat)
    ensures n >= 1
  {
    if limit.max == 0 then 1 else limit.max
  }

  /** The sliding-window rule: admit while fewer than `Capacity` admissions are recent. */
  function RunWindow(limits: string -> Limit, events: seq<Event>): (l: Ledger)
    ensures |l.answers| == |events|
  {
    if events == [] then Ledger(map[], [])
    else
      var before := RunWindow(limits, events[..|events| - 1]);
      match events[|events| - 1]
      case Request(key, now) =>
        var times := AdmittedOf(before.admitted, key);
        if Recent(times, limits(key).window, now) < Capacity(limits(key))
        then Ledger(before.admitted[key := times + [now]], before.answers + [true])
        else Ledger(before.admitted, before.answers + [false])
      case Sweep(_) => Ledger(before.admitted, before.answers + [true])
  }

  predicate ClockNeverGoesBack(events: seq<Event>) {
    forall i, j :: 0 <= i < j < |events| ==> events[i].now <= events[j].now
  }

  predicate NoSweeps(events: seq<Event>) {
    forall i :: 0 <= i < |events| ==> events[i].Request?
  }

  /** The runs of a limiter: `sweeper` is that it was initialised with a positive duration. */
  predicate Possible(sweeper: bool, events: seq<Event>) {
    ClockNeverGoesBack(events) && (sweeper || NoSweeps(events))
  }

  // ----- The queue represents the window -----------------------------------------

  predicate Sorted(times: seq<int>) {
    forall i, j :: 0 <= i < j < |times| ==> times[i] <= times[j]
  }

  predicate NoneAfter(times: seq<int>, clock: int) {
    forall i :: 0 <= i < |times| ==> times[i] <= clock
  }

  predicate AllOld(times: seq<int>, window: int, now: int) {
    forall i :: 0 <= i < |times| ==> now - times[i] >= window
  }

  /** The queue is the tail of the admission history; what it has dropped no longer matters. */
  predicate Represents(queue: seq<int>, times: seq<int>, limit: Limit, clock: int) {
    && Sorted(times)
    && NoneAfter(times, clock)
    && |queue| <= Capacity(limit)
    && |queue| <= |times|
    && queue == times[|times| - |queue|..]
    && (|queue| < Capacity(limit) ==> AllOld(times[..|times| - |queue|], limit.window, clock))
  }

  function QueueOf(store: Store, key: string): seq<int> {
    if key in store then store[key] else []
  }

  ghost predicate Simulates(limits: string -> Limit, store: Store, admitted: map<string, seq<int>>, clock: int) {
    && Valid(store)
    && forall key :: Represents(QueueOf(store, key), AdmittedOf(admitted, key), limits(key), clock)
  }

  lemma {:induction false} OldAreNotRecent(times: seq<int>, window: int, now: int)
    requires AllOld(times, window, now)
    ensures Recent(times, window, now) == 0
  {
    if times != [] { OldAreNotRecent(times[..|times| - 1], window, now); }
  }

  /** In a sorted history fewer than n admissions are recent exactly when the n-th last is old. */
  lemma {:induction false} RecentByNthLast(times: seq<int>, n: nat, window: int, now: int)
    requires Sorted(times) && n >= 1
    ensures Recent(times, window, now) < n <==> |times| < n || now - times[|times| - n] >= window
  {
    if times != [] {
      var init := times[..|times| - 1];
      if now - times[|times| - 1] >= window {
        OldAreNotRecent(times, window, now);
      } else if n > 1 {
        RecentByNthLast(init, n - 1, window, now);
      }
    }
  }

  /** The limiter's test on its queue is the rule's test on the history. */
  lemma SameVerdict(queue: seq<int>, times: seq<int>, limit: Limit, now: int)
    requires Represents(queue, times, limit, now)
    ensures Recent(times, limit.window, now) < Capacity(limit)
       <==> Admits(queue, limit, now)
  {
    var n := Capacity(limit);
    RecentByNthLast(times, n, limit.window, now);
    if |queue| < n <= |times| {
      assert times[..|times| - |queue|][|times| - n] == times[|times| - n];
    }
  }

  lemma LaterClock(queue: seq<int>, times: seq<int>, limit: Limit, clock: int, now: int)
    requires Represents(queue, times, limit, clock) && clock <= now
    ensures Represents(queue, times, limit, now)
  {
  }

  /** The effect of a request on its own queue, with an absent key as the empty queue. */
  predicate Admits(queue: seq<int>, limit: Limit, now: int) {
    |queue| < Capacity(limit) || now - queue[0] >= limit.window
  }

  function Served(queue: seq<int>, limit: Limit, now: int): seq<int> {
    if !Admits(queue, limit, now) then queue
    else (if |queue| < Capacity(limit) then queue else queue[1..]) + [now]
  }

  lemma RequestServesOneQueue(store: Store, key: string, limit: Limit, now: int)
    requires Valid(store)
    ensures var (store', ok) := Requested(store, key, limit, now);
            && Valid(store')
            && ok == Admits(QueueOf(store, key), limit, now)
            && forall k ::
                 QueueOf(store', k) == if k == key then Served(QueueOf(store, key), limit, now) else QueueOf(store, k)
  {
  }

  lemma ServingKeepsRepresentation(queue: seq<int>, times: seq<int>, limit: Limit, now: int)
    requires Represents(queue, times, limit, now)
    ensures var admitted := if Admits(queue, limit, now) then times + [now] else times;
            Represents(Served(queue, limit, now), admitted, limit, now)
  {
    var times' := times + [now];
    if |queue| < Capacity(limit) {
      assert times'[..|times'| - (|queue| + 1)] == times[..|times| - |queue|];
      assert queue + [now] == times'[|times'| - (|queue| + 1)..];
    } else {
      assert queue[1..] + [now] == times'[|times'| - |queue|..];
    }
  }

  /** A queue that may be swept holds only old admissions, so forgetting it changes nothing. */
  lemma SweepKeepsRepresentation(queue: seq<int>, times: seq<int>, limit: Limit, expiration: nat, now: int)
    requires Represents(queue, times, limit, now) && Idle(queue, expiration, now)
    requires limit.window <= expiration + 1
    ensures Represents([], times, limit, now)
  {
    if queue != [] {
      assert queue[|queue| - 1] == times[|times| - 1];
      assert AllOld(times, limit.window, now);
    } else {
      assert times[..|times|] == times;
    }
    assert times[..|times|] == times;
  }

  lemma RequestSimulates(limits: string -> Limit, store: Store, admitted: map<string, seq<int>>, key: string, now: int)
    requires Simulates(limits, store, admitted, now)
    ensures var (store', ok) := Requested(store, key, limits(key), now);
            var times := AdmittedOf(admitted, key);
            && ok == (Recent(times, limits(key).window, now) < Capacity(limits(key)))
            && Simulates(limits, store', if ok then admitted[key := times + [now]] else admitted, now)
  {
    var queue, times, limit := QueueOf(store, key), AdmittedOf(admitted, key), limits(key);
    assert Represents(queue, times, limit, now);
    SameVerdict(queue, times, limit, now);
    RequestServesOneQueue(store, key, limit, now);
    ServingKeepsRepresentation(queue, times, limit, now);
    var (store', ok) := Requested(store, key, limit, now);
    var admitted' := if ok then admitted[key := times + [now]] else admitted;
    forall k
      ensures Represents(QueueOf(store', k), AdmittedOf(admitted', k), limits(k), now)
    {
      if k != key {
        assert Represents(QueueOf(store, k), AdmittedOf(admitted, k), limits(k), now);
      }
    }
  }

  lemma SweepSimulates(limits: string -> Limit, store: Store, admitted: map<string, seq<int>>, expiration: nat,
                       now: int)
    requires Simulates(limits, store, admitted, now)
    requires forall key :: limits(key).window <= expiration + 1
    ensures Simulates(limits, Swept(store, expiration, now), admitted, now)
  {
    var store' := Swept(store, expiration, now);
    forall k
      ensures Represents(QueueOf(store', k), AdmittedOf(admitted, k), limits(k), now)
    {
      assert Represents(QueueOf(store, k), AdmittedOf(admitted, k), limits(k), now);
      if k in store && k !in store' {
        SweepKeepsRepresentation(store[k], AdmittedOf(admitted, k), limits(k), expiration, now);
      }
    }
  }

  lemma LaterClockSimulates(limits: string -> Limit, store: Store, admitted: map<string, seq<int>>, clock: int,
                            now: int)
    requires Simulates(limits, store, admitted, clock) && clock <= now
    ensures Simulates(limits, store, admitted, now)
  {
    forall k
      ensures Represents(QueueOf(store, k), AdmittedOf(admitted, k), limits(k), now)
    {
      LaterClock(QueueOf(store, k), AdmittedOf(admitted, k), limits(k), clock, now);
    }
  }

  /** REFINEMENT. Over every run, wherever sweeps fall, the limiter answers as the sliding-window rule
      does and its queues represent the rule's histories, if no window is longer than the expiration
      plus one second or no sweeper runs. */
  lemma {:induction false} LimiterFollowsWindow(limits: string -> Limit, expiration: nat, events: seq<Event>)
    requires ClockNeverGoesBack(events)
    requires NoSweeps(events) || forall key :: limits(key).window <= expiration + 1
    ensures RunLimiter(limits, expiration, events).answers == RunWindow(limits, events).answers
    ensures forall now :: (events == [] || events[|events| - 1].now <= now) ==>
              Simulates(limits, RunLimiter(limits, expiration, events).store, RunWindow(limits, events).admitted, now)
  {
    if events != [] {
      var init, now := events[..|events| - 1], events[|events| - 1].now;
      LimiterFollowsWindow(limits, expiration, init);
      var store, admitted := RunLimiter(limits, expiration, init).store, RunWindow(limits, init).admitted;
      assert Simulates(limits, store, admitted, now);
      match events[|events| - 1] {
        case Request(key, _) => RequestSimulates(limits, store, admitted, key, now);
        case Sweep(_) => SweepSimulates(limits, store, admitted, expiration, now);
      }
      forall later | now <= later
        ensures Simulates(limits, RunLimiter(limits, expiration, events).store,
                          RunWindow(limits, events).admitted, later)
      {
        LaterClockSimulates(limits, RunLimiter(limits, expiration, events).store,
                            RunWindow(limits, events).admitted, now, later);
      }
    }
  }

  /** An eviction pass keeps a key exactly when its newest admission is at most the expiration old, and
      then keeps its queue. */
  lemma SweepKeepsRecentKeys(store: Store, expiration: nat, now: int, key: string)
    requires Valid(store)
    ensures key in Swept(store, expiration, now) <==>
            key in store && now <= store[key][|store[key]| - 1] + expiration
    ensures key in Swept(store, expiration, now) ==> Swept(store, expiration, now)[key] == store[key]
  {
  }

  // ----- Eviction is invisible -------------------------------------------------------

  /** The run without its sweeps. */
  function Requests(events: seq<Event>): seq<Event> {
    if events == [] then []
    else
      var last := events[|events| - 1];
      if last.Request? then Requests(events[..|events| - 1]) + [last] else Requests(events[..|events| - 1])
  }

  /** The answers the requests got. */
  function Visible(events: seq<Event>, answers: seq<bool>): seq<bool>
    requires |events| == |answers|
  {
    if events == [] then []
    else
      var n := |events| - 1;
      var before := Visible(events[..n], answers[..n]);
      if events[n].Request? then before + [answers[n]] else before
  }

  lemma {:induction false} WindowIgnoresSweeps(limits: string -> Limit, events: seq<Event>)
    ensures RunWindow(limits, events).admitted == RunWindow(limits, Requests(events)).admitted
    ensures Visible(events, RunWindow(limits, events).answers) == RunWindow(limits, Requests(events)).answers
  {
    if events != [] {
      var init, last := events[..|events| - 1], events[|events| - 1];
      WindowIgnoresSweeps(limits, init);
      assert RunWindow(limits, events).answers[..|events| - 1] == RunWindow(limits, init).answers;
      if last.Request? {
        assert Requests(events)[..|Requests(events)| - 1] == Requests(init);
      }
    }
  }

  lemma {:induction false} RequestsKeepClock(events: seq<Event>)
    requires ClockNeverGoesBack(events)
    ensures ClockNeverGoesBack(Requests(events))
    ensures forall i :: 0 <= i < |Requests(events)| ==>
              events != [] && Requests(events)[i].now <= events[|events| - 1].now
  {
    if events != [] { RequestsKeepClock(events[..|events| - 1]); }
  }

  /** Dropping every sweep from a run changes no answer to a request. */
  lemma SweepsAreInvisible(limits: string -> Limit, expiration: nat, events: seq<Event>)
    requires ClockNeverGoesBack(events)
    requires forall key :: limits(key).window <= expiration + 1
    ensures Visible(events, RunLimiter(limits, expiration, events).answers)
            == RunLimiter(limits, expiration, Requests(events)).answers
  {
    RequestsKeepClock(events);
    LimiterFollowsWindow(limits, expiration, events);
    LimiterFollowsWindow(limits, expiration, Requests(events));
    WindowIgnoresSweeps(limits, events);
  }

  /** Sorted and spread out: any Capacity+1 consecutive admissions span at least the window. */
  predicate Spread(times: seq<int>, limit: Limit) {
    && Sorted(times)
    && forall i :: 0 <= i < |times| - Capacity(limit) ==> times[i + Capacity(limit)] - times[i] >= limit.window
  }

  lemma AppendKeepsSpread(times: seq<int>, limit: Limit, now: int)
    requires Spread(times, limit) && NoneAfter(times, now)
    requires Recent(times, limit.window, now) < Capacity(limit)
    ensures Spread(times + [now], limit)
  {
    RecentByNthLast(times, Capacity(limit), limit.window, now);
  }

  /** The rule spreads the admissions of every key out. */
  lemma {:induction false} RuleSpreadsAdmissions(limits: string -> Limit, events: seq<Event>, key: string)
    requires ClockNeverGoesBack(events)
    ensures var times := AdmittedOf(RunWindow(limits, events).admitted, key);
            && Spread(times, limits(key))
            && if events == [] then times == [] else NoneAfter(times, events[|events| - 1].now)
  {
    if events != [] {
      var init, now := events[..|events| - 1], events[|events| - 1].now;
      RuleSpreadsAdmissions(limits, init, key);
      var times := AdmittedOf(RunWindow(limits, init).admitted, key);
      assert NoneAfter(times, now);
      hide Recent, Spread;
      if events[|events| - 1].Request? && Recent(times, limits(key).window, now) < Capacity(limits(key)) {
        AppendKeepsSpread(times, limits(key), now);
      }
    }
  }

  /** The admissions of a key that a run's answers report. */
  function Admissions(events: seq<Event>, answers: seq<bool>, key: string): seq<int>
    requires |events| == |answers|
  {
    if events == [] then []
    else
      var n := |events| - 1;
      var before := Admissions(events[..n], answers[..n], key);
      if events[n].Request? && events[n].key == key && answers[n] then before + [events[n].now] else before
  }

  /** What the rule keeps as admitted is what its answers report. */
  lemma {:induction false} RuleKeepsItsAdmissions(limits: string -> Limit, events: seq<Event>, key: string)
    ensures var l := RunWindow(limits, events); AdmittedOf(l.admitted, key) == Admissions(events, l.answers, key)
  {
    if events != [] {
      var n := |events| - 1;
      RuleKeepsItsAdmissions(limits, events[..n], key);
      assert RunWindow(limits, events).answers[..n] == RunWindow(limits, events[..n]).answers;
    }
  }

  /** SAFETY OVER RUNS. In every run the requests of a key the limiter admits are spread out: any
      Capacity+1 consecutive ones span at least the window. */
  lemma AdmissionsAreSpread(limits: string -> Limit, expiration: nat, events: seq<Event>, key: string)
    requires ClockNeverGoesBack(events)
    requires NoSweeps(events) || forall k :: limits(k).window <= expiration + 1
    ensures Spread(Admissions(events, RunLimiter(limits, expiration, events).answers, key), limits(key))
  {
    LimiterFollowsWindow(limits, expiration, events);
    RuleKeepsItsAdmissions(limits, events, key);
    RuleSpreadsAdmissions(limits, events, key);
  }

  // ----- The condition on the expiration is exact ----------------------------------

  /** k requests for one key, all at time 0. */
  function Burst(key: string, k: nat): (events: seq<Event>)
    ensures |events| == k
    ensures forall i :: 0 <= i < k ==> events[i] == Request(key, 0)
  {
    seq(k, i => Request(key, 0))
  }

  lemma {:induction false} BurstFillsWindow(limits: string -> Limit, expiration: nat, key: string, k: nat)
    requires limits(key).window > 0 && k <= Capacity(limits(key))
    ensures var times := AdmittedOf(RunWindow(limits, Burst(key, k)).admitted, key);
            && |times| == k && (forall i :: 0 <= i < k ==> times[i] == 0)
            && QueueOf(RunLimiter(limits, expiration, Burst(key, k)).store, key) == times
  {
    if k > 0 {
      var init := Burst(key, k)[..k - 1];
      assert init == Burst(key, k - 1);
      BurstFillsWindow(limits, expiration, key, k - 1);
    }
  }

  lemma {:induction false} AllRecent(times: seq<int>, window: int, now: int)
    requires forall i :: 0 <= i < |times| ==> now - times[i] < window
    ensures Recent(times, window, now) == |times|
  {
    if times != [] { AllRecent(times[..|times| - 1], window, now); }
  }

  /** A burst up to the capacity, a sweep one second past the expiration, one more request. */
  function ForgottenBurst(limits: string -> Limit, expiration: nat, key: string): (events: seq<Event>)
    ensures ClockNeverGoesBack(events)
  {
    Burst(key, Capacity(limits(key))) + [Sweep(expiration + 1)] + [Request(key, expiration + 1)]
  }

  lemma TooLongWindowIsForgotten(limits: string -> Limit, expiration: nat, key: string)
    requires limits(key).window > expiration + 1
    ensures var run := ForgottenBurst(limits, expiration, key);
            RunLimiter(limits, expiration, run).answers != RunWindow(limits, run).answers
  {
    var n, now := Capacity(limits(key)), expiration + 1;
    var burst := Burst(key, n);
    var swept := burst + [Sweep(now)];
    var run := ForgottenBurst(limits, expiration, key);
    assert run[..|run| - 1] == swept && swept[..|swept| - 1] == burst;
    BurstFillsWindow(limits, expiration, key, n);
    var times := AdmittedOf(RunWindow(limits, burst).admitted, key);
    AllRecent(times, limits(key).window, now);
    assert RunWindow(limits, swept).admitted == RunWindow(limits, burst).admitted;
    assert key !in RunLimiter(limits, expiration, swept).store;
    var a := RunLimiter(limits, expiration, run).answers;
    var b := RunWindow(limits, run).answers;
    assert a[|a| - 1] && !b[|b| - 1];
  }

  /** EXACTNESS. The limiter is the sliding-window rule on all runs if and only if no sweeper runs or no
      key's window is longer than the expiration plus one second. */
  lemma FollowsWindowIffExpirationLongEnough(limits: string -> Limit, expiration: nat, sweeper: bool)
    ensures (forall events :: Possible(sweeper, events) ==>
               RunLimiter(limits, expiration, events).answers == RunWindow(limits, events).answers)
       <==> !sweeper || forall key :: limits(key).window <= expiration + 1
  {
    if !sweeper || forall key :: limits(key).window <= expiration + 1 {
      forall events | Possible(sweeper, events)
        ensures RunLimiter(limits, expiration, events).answers == RunWindow(limits, events).answers
      {
        LimiterFollowsWindow(limits, expiration, events);
      }
    } else {
      var key :| limits(key).window > expiration + 1;
      TooLongWindowIsForgotten(limits, expiration, key);
      assert Possible(sweeper, ForgottenBurst(limits, expiration, key));
    }
  }

  /** The admissions reported by the forgetful run: a full burst, then one more too early. */
  lemma {:induction false} BurstIsReported(limits: string -> Limit, expiration: nat, key: string, k: nat)
    requires limits(key).window > 0 && k <= Capacity(limits(key))
    ensures var burst := Burst(key, k);
            Admissions(burst, RunLimiter(limits, expiration, burst).answers, key) == seq(k, i => 0)
  {
    if k > 0 {
      var burst := Burst(key, k);
      assert burst[..k - 1] == Burst(key, k - 1);
      BurstIsReported(limits, expiration, key, k - 1);
      BurstFillsWindow(limits, expiration, key, k - 1);
      var answers := RunLimiter(limits, expiration, burst).answers;
      assert answers[..k - 1] == RunLimiter(limits, expiration, burst[..k - 1]).answers;
      assert answers[k - 1];
    }
  }

  /** One more event adds its time to the admissions reported if it is an admitted request of the key. */
  lemma ReportedNext(limits: string -> Limit, expiration: nat, events: seq<Event>, e: Event, key: string)
    ensures var before, after := RunLimiter(limits, expiration, events), RunLimiter(limits, expiration, events + [e]);
            && Admissions(events + [e], after.answers, key) == Admissions(events, before.answers, key)
                 + (if e.Request? && e.key == key && after.answers[|events|] then [e.now] else [])
            && (e.Sweep? ==> after.store == Swept(before.store, expiration, e.now))
            && (e.Request? && e.key !in before.store ==> after.answers[|events|])
  {
    hide Swept;
    assert (events + [e])[..|events|] == events;
    var after := RunLimiter(limits, expiration, events + [e]);
    assert after.answers[..|events|] == RunLimiter(limits, expiration, events).answers;
  }

  /** With a longer window, Capacity+1 admissions can fall within the window. */
  lemma ForgottenBurstIsNotSpread(limits: string -> Limit, expiration: nat, key: string)
    requires limits(key).window > expiration + 1
    ensures var run := ForgottenBurst(limits, expiration, key);
            !Spread(Admissions(run, RunLimiter(limits, expiration, run).answers, key), limits(key))
  {
    hide RunLimiter, RunWindow, Admissions, Burst, Requested;
    var n, now := Capacity(limits(key)), expiration + 1;
    var burst := Burst(key, n);
    var run := ForgottenBurst(limits, expiration, key);
    BurstIsReported(limits, expiration, key, n);
    BurstFillsWindow(limits, expiration, key, n);
    ReportedNext(limits, expiration, burst, Sweep(now), key);
    ReportedNext(limits, expiration, burst + [Sweep(now)], Request(key, now), key);
    var times := Admissions(run, RunLimiter(limits, expiration, run).answers, key);
    assert times == seq(n, i => 0) + [now];
    assert times[0 + n] - times[0] < limits(key).window;
  }

  /** EXACTNESS OF SAFETY. Admissions are spread out in all runs under the same condition, and no other. */
  lemma AdmissionsAreSpreadIff(limits: string -> Limit, expiration: nat, sweeper: bool)
    ensures (forall events, key :: Possible(sweeper, events) ==>
               Spread(Admissions(events, RunLimiter(limits, expiration, events).answers, key), limits(key)))
       <==> !sweeper || forall key :: limits(key).window <= expiration + 1
  {
    if !sweeper || forall key :: limits(key).window <= expiration + 1 {
      forall events, key | Possible(sweeper, events)
        ensures Spread(Admissions(events, RunLimiter(limits, expiration, events).answers, key), limits(key))
      {
        AdmissionsAreSpread(limits, expiration, events, key);
      }
    } else {
      var key :| limits(key).window > expiration + 1;
      ForgottenBurstIsNotSpread(limits, expiration, key);
      assert Possible(sweeper, ForgottenBurst(limits, expiration, key));
    }
  }
}
