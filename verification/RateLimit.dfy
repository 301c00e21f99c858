/** The per-key exponential backoff both reconcilers answer a 429 with. */
module RateLimit {
  import opened Wrappers

  const SECOND := 1_000_000_000
  const BASE := 5 * SECOND
  const MAX := 300 * SECOND
  const SHIFT := 8

  function Power2(n: nat): nat {
    if n == 0 then 1 else 2 * Power2(n - 1)
  }

  /** `backoffFor`: shift the base, but by no more than eight places, and cap the result. */
  function BackoffFor(attempt: int): (d: int)
  {
    var n := if attempt < 0 then 0 else if attempt > SHIFT then SHIFT else attempt;
    var d := BASE * Power2(n);
    if d > MAX then MAX else d
  }

  lemma {:induction false} Power2Grows(m: nat, n: nat)
    requires m <= n
    ensures Power2(m) <= Power2(n)
    decreases n - m
  {
    if m < n {
      Power2Grows(m, n - 1);
    }
  }

  /** Limiting the shift changes nothing: it is the uncapped formula for every attempt. */
  lemma {:induction false} ClampIsInvisible(attempt: nat)
    ensures BackoffFor(attempt) == if BASE * Power2(attempt) > MAX then MAX else BASE * Power2(attempt)
  {
    if attempt > SHIFT {
      Power2Grows(SHIFT, attempt);
      assert Power2(8) == 2 * Power2(7) == 4 * Power2(6) == 8 * Power2(5) == 256;
    }
  }

  lemma {:induction false} BackoffIsEven(attempt: int)
    ensures BackoffFor(attempt) % 2 == 0 && BackoffFor(attempt) >= BASE
  {
    var n := if attempt < 0 then 0 else if attempt > SHIFT then SHIFT else attempt;
    Power2Grows(0, n);
    assert BASE * Power2(n) == 2 * (BASE / 2 * Power2(n));
  }

  /** The schedule in nanoseconds: five seconds at first, then twice as long each time, up to five minutes. */
  lemma {:induction false} ScheduleDoubles(attempt: nat)
    ensures BackoffFor(0) == 5_000_000_000
    ensures BackoffFor(attempt + 1) == if 2 * BackoffFor(attempt) > 300_000_000_000 then 300_000_000_000
                                       else 2 * BackoffFor(attempt)
  {
    ClampIsInvisible(attempt);
    ClampIsInvisible(attempt + 1);
    assert Power2(0) == 1 && BackoffFor(0) == BASE * Power2(0);
  }

  /** The namespaced name of a custom resource. */
  datatype Key = Key(namespace: string, name: string)

  /** A reconcile request met a rate limit, or got an answer or found its object gone. */
  datatype Event = Limited(key: Key) | Answered(key: Key)

  /** How many rate limits `key` met since it was last answered. */
  function Consecutive(events: seq<Event>, key: Key): nat
    decreases |events|
  {
    if events == [] then 0 else
      var last, before := events[|events| - 1], Consecutive(events[..|events| - 1], key);
      if last.key != key then before else if last.Limited? then before + 1 else 0
  }

  /** `wait` is one the `k`th rate limit in a row may be answered with. */
  predicate InSlot(k: nat, wait: int) {
    k > 0 && BackoffFor(k - 1) <= 2 * wait && wait < BackoffFor(k - 1)
  }

  /** Nothing but `k` rate limits of one key. */
  function Limits(key: Key, k: nat): seq<Event> {
    seq(k, i => Limited(key))
  }

  class RateLimitBackoff {
    var attempts: map<Key, nat>
    ghost var events: seq<Event>

    /** The counters are exactly the lengths of the current streaks. */
    ghost predicate Valid()
      reads this
    {
      forall key :: (if key in attempts then attempts[key] else 0) == Consecutive(events, key)
    }

    constructor ()
      ensures Valid() && events == []
    {
      attempts, events := map[], [];
    }

    /** `next`. The draw is the random number below half the delay. The `k`th rate limit in a row waits
        at least half of, and less than, the `k`th delay of the schedule, whatever other keys meet. */
    method Next(key: Key, draw: int) returns (wait: int)
      requires Valid() && 0 <= draw < BackoffFor(Consecutive(events, key)) / 2
      modifies this
      ensures Valid() && events == old(events) + [Limited(key)]
      ensures var k := Consecutive(events, key);
              && k == old(Consecutive(events, key)) + 1
              && InSlot(k, wait) && wait == BackoffFor(k - 1) / 2 + draw
      ensures forall other | other != key :: Consecutive(events, other) == old(Consecutive(events, other))
    {
      var attempt := if key in attempts then attempts[key] else 0;
      attempts := attempts[key := attempt + 1];
      events := events + [Limited(key)];
      assert events[..|events| - 1] == old(events);
      BackoffIsEven(attempt);
      wait := Jittered(BackoffFor(attempt), draw);
    }

    /** `forget`. */
    method Forget(key: Key)
      requires Valid()
      modifies this
      ensures Valid() && events == old(events) + [Answered(key)]
      ensures Consecutive(events, key) == 0
      ensures forall other | other != key :: Consecutive(events, other) == old(Consecutive(events, other))
    {
      attempts := attempts - {key};
      events := events + [Answered(key)];
      assert events[..|events| - 1] == old(events);
    }
  }

  /** `jitter`: between half the delay and the delay. */
  function Jittered(d: int, draw: int): int {
    var half := d / 2;
    if half <= 0 then d else half + draw
  }

  /** A streak of rate limits on one key, with whatever happens to other keys in between, walks through
      the schedule without skipping or repeating a delay, and stays at the cap once it is there. */
  lemma {:induction false} StreakWalksSchedule(before: seq<Event>, streak: seq<Event>, key: Key)
    requires forall e | e in streak :: e.key == key ==> e.Limited?
    ensures Consecutive(before + streak, key) == Consecutive(before, key) + |Of(streak, key)|
    decreases |streak|
  {
    if streak == [] {
      assert before + streak == before;
    } else {
      assert (before + streak)[..|before + streak| - 1] == before + streak[..|streak| - 1];
      StreakWalksSchedule(before, streak[..|streak| - 1], key);
    }
  }

  /** The events of one key. */
  function Of(events: seq<Event>, key: Key): seq<Event>
    decreases |events|
  {
    if events == [] then [] else
      Of(events[..|events| - 1], key) + if events[|events| - 1].key == key then [events[|events| - 1]] else []
  }

  lemma {:induction false} OfLimits(key: Key, k: nat)
    ensures Of(Limits(key, k), key) == Limits(key, k)
  {
    if k > 0 {
      assert Limits(key, k)[..k - 1] == Limits(key, k - 1);
      OfLimits(key, k - 1);
    }
  }

  /** The `k`th rate limit of a streak that goes on from the events before it. */
  lemma LimitsCount(before: seq<Event>, key: Key, k: nat)
    ensures Consecutive(before + Limits(key, k), key) == Consecutive(before, key) + k
    ensures before + Limits(key, k) + [Limited(key)] == before + Limits(key, k + 1)
  {
    StreakWalksSchedule(before, Limits(key, k), key);
    OfLimits(key, k);
    assert Limits(key, k) + [Limited(key)] == Limits(key, k + 1);
  }

  /** The delays never shrink along a streak and are at the cap from the seventh rate limit on. */
  lemma {:induction false} DelaysNeverShrink(m: nat, n: nat)
    requires m <= n
    ensures BackoffFor(m) <= BackoffFor(n) <= MAX
    ensures BackoffFor(n) == MAX <==> n >= 6
  {
    Power2Grows(if m > SHIFT then SHIFT else m, if n > SHIFT then SHIFT else n);
    assert Power2(5) == 2 * Power2(4) == 4 * Power2(3) == 8 * Power2(2) == 32;
    assert Power2(6) == 64;
    if n >= 6 {
      Power2Grows(6, if n > SHIFT then SHIFT else n);
    } else {
      Power2Grows(n, 5);
    }
  }

  // ---------- the connection reconciler ----------

  datatype Condition = Condition(status: bool, reason: string)

  /** What a status write comes to. */
  datatype Fault = Success | Lost | Applied

  /** What a probe comes to. */
  datatype Probe = TooManyRequests | Finished(ready: bool, reason: string)

  /** The FerrVaultConnection reconciler with its finalizer in place: probe, then either back off or
      update the condition. */
  class ConnectionReconciler {
    const backoff: RateLimitBackoff
    var ready: map<Key, Condition>
    var lastCheckedAt: map<Key, int>

    constructor ()
      ensures backoff.Valid() && backoff.events == [] && ready == map[] && lastCheckedAt == map[] && fresh(backoff)
    {
      backoff := new RateLimitBackoff();
      ready, lastCheckedAt := map[], map[];
    }

    /** A 429 leaves the condition and its timestamp as they are and only lengthens the streak of this
        key; anything else ends the streak and rewrites both with one status write. That write may be
        lost, or take effect and report a failure; without success there is an error and no interval. */
    method Reconcile(key: Key, probe: Probe, now: int, draw: int, fault: Fault) returns (requeueAfter: Option<int>)
      requires backoff.Valid() && 0 <= draw < BackoffFor(Consecutive(backoff.events, key)) / 2
      modifies this, backoff
      ensures backoff.Valid()
      ensures probe.TooManyRequests? ==>
                && ready == old(ready) && lastCheckedAt == old(lastCheckedAt)
                && Consecutive(backoff.events, key) == old(Consecutive(backoff.events, key)) + 1
                && requeueAfter.Some? && InSlot(Consecutive(backoff.events, key), requeueAfter.value)
      ensures probe.Finished? ==>
                && ready == (if fault.Lost? then old(ready)
                             else old(ready)[key := Condition(probe.ready, probe.reason)])
                && lastCheckedAt == (if fault.Lost? then old(lastCheckedAt) else old(lastCheckedAt)[key := now])
                && Consecutive(backoff.events, key) == 0
                && requeueAfter == if fault.Success? then Some(600_000_000_000) else None
      ensures forall other | other != key ::
                Consecutive(backoff.events, other) == old(Consecutive(backoff.events, other))
    {
      match probe {
        case TooManyRequests =>
          var wait := backoff.Next(key, draw);
          requeueAfter := Some(wait);
        case Finished(isReady, reason) =>
          backoff.Forget(key);
          if !fault.Lost? {
            lastCheckedAt := lastCheckedAt[key := now];
            ready := ready[key := Condition(isReady, reason)];
          }
          requeueAfter := if fault.Success? then Some(600 * SECOND) else None;
      }
    }
  }
}
