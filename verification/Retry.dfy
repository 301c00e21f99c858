/** The bounded retry loop around every FerrVault call, and the worst-case time it advertises.
    Durations are nanoseconds; the random draw of the jitter and the outcomes are the environment's. */
module Retry {
  import opened Wrappers

  datatype RetryPolicy = RetryPolicy(maxAttempts: int, backoff: seq<int>, jitter: real)

  const SECOND := 1_000_000_000
  const MILLISECOND := 1_000_000
  const REQUEST_TIMEOUT := 10 * SECOND

  const DEFAULT := RetryPolicy(3, [100 * MILLISECOND, 400 * MILLISECOND, 1600 * MILLISECOND], 0.25)

  /** What one send comes to. `Other` stands for the errors that are neither transport nor API errors. */
  datatype Outcome = Success | Transport | Api(status: int) | Other

  /** One attempt: whether the context is cancelled before it, what the send comes to and how long it
      takes, the draw of the jitter, and after how much of the wait the context is cancelled, if ever. */
  datatype Attempt = Attempt(cancelled: bool, outcome: Outcome, took: nat, draw: real, interrupted: Option<nat>)

  type Attempts = nat -> Attempt

  datatype CallError = Cancelled | Failed(outcome: Outcome, attempts: Option<nat>)

  /** `time.Duration(x)`: towards zero. */
  function Trunc(x: real): int {
    if x >= 0.0 then x.Floor else -((-x).Floor)
  }

  predicate Retriable(o: Outcome) {
    o.Transport? || (o.Api? && 500 <= o.status <= 599)
  }

  function Cap(p: RetryPolicy): nat {
    if p.maxAttempts < 1 then 1 else p.maxAttempts
  }

  /** The scheduled delay before the attempt after the `n`th, the last entry being used again past the end. */
  function Scheduled(p: RetryPolicy, n: nat): int
    requires p.backoff != [] && n >= 1
  {
    p.backoff[if n - 1 < |p.backoff| then n - 1 else |p.backoff| - 1]
  }

  /** The delay as the draw scales it, and the ends of its range. */
  function Jittered(base: int, jitter: real, draw: real): real {
    base as real * (1.0 - jitter + 2.0 * jitter * draw)
  }

  function UpperEnd(base: int, jitter: real): real {
    base as real * (1.0 + jitter)
  }

  function LowerEnd(base: int, jitter: real): real {
    base as real * (1.0 - jitter)
  }

  /** `backoffFor`. */
  function Delay(p: RetryPolicy, n: nat, draw: real): int
    requires n >= 1
  {
    if p.backoff == [] then 0
    else if p.jitter <= 0.0 then Scheduled(p, n)
    else Trunc(Jittered(Scheduled(p, n), p.jitter, draw))
  }

  /** `annotateAttempts`: only transport and API errors have a place for the count. */
  function Annotated(o: Outcome, attempts: nat): CallError {
    Failed(o, if o.Transport? || o.Api? then Some(attempts) else None)
  }

  // ---------- the advertised bound ----------

  /** The longest delay before the attempt after the `n`th, as `LongestCall` computes it. */
  function LongestDelay(p: RetryPolicy, n: nat): int
    requires p.backoff != [] && n >= 1
  {
    Trunc(UpperEnd(Scheduled(p, n), p.jitter))
  }

  function LongestDelays(p: RetryPolicy, retries: nat): int
    requires p.backoff != []
  {
    if retries == 0 then 0 else LongestDelays(p, retries - 1) + LongestDelay(p, retries)
  }

  function Bound(p: RetryPolicy, requestTimeout: int): int {
    p.maxAttempts * requestTimeout
    + if p.backoff == [] || p.maxAttempts < 1 then 0 else LongestDelays(p, p.maxAttempts - 1)
  }

  method LongestCall(p: RetryPolicy, requestTimeout: int) returns (total: int)
    ensures total == Bound(p, requestTimeout)
  {
    hide Trunc, UpperEnd;
    total := p.maxAttempts * requestTimeout;
    if |p.backoff| == 0 {
      return;
    }
    var retry := 0;
    while retry < p.maxAttempts - 1
      invariant 0 <= retry && (retry <= p.maxAttempts - 1 || (retry == 0 && p.maxAttempts < 1))
      invariant total == p.maxAttempts * requestTimeout + LongestDelays(p, retry)
    {
      var idx := if retry < |p.backoff| - 1 then retry else |p.backoff| - 1;
      assert p.backoff[idx] == Scheduled(p, retry + 1);
      total := total + Trunc(UpperEnd(p.backoff[idx], p.jitter));
      retry := retry + 1;
    }
  }

  // ---------- the loop ----------

  /** The environment keeps to the request timeout and draws in [0, 1). */
  ghost predicate WithinTimeout(env: Attempts, requestTimeout: int) {
    forall n: nat :: env(n).took <= requestTimeout && 0.0 <= env(n).draw < 1.0
  }

  ghost predicate NeverCancelled(env: Attempts) {
    forall n: nat :: !env(n).cancelled && env(n).interrupted.None?
  }

  /** The time the call takes from its `n`th attempt on; attempts are counted from one. */
  function TimeFrom(p: RetryPolicy, env: Attempts, n: nat): int
    requires 1 <= n <= Cap(p)
    decreases Cap(p) - n
  {
    var a := env(n);
    if a.cancelled then 0
    else if !Retriable(a.outcome) || n == Cap(p) then a.took
    else
      var delay := Delay(p, n, a.draw);
      if delay <= 0 then a.took + TimeFrom(p, env, n + 1)
      else if a.interrupted.Some? && a.interrupted.value < delay then a.took + a.interrupted.value
      else a.took + delay + TimeFrom(p, env, n + 1)
  }

  /** The time of the first `n` sends, and of the waits after them. */
  function TimeSent(env: Attempts, n: nat): nat {
    if n == 0 then 0 else TimeSent(env, n - 1) + env(n).took
  }

  function TimeWaited(p: RetryPolicy, env: Attempts, n: nat): nat {
    if n == 0 then 0 else
      var delay := Delay(p, n, env(n).draw);
      TimeWaited(p, env, n - 1) + if delay > 0 then delay else 0
  }

  /** `doWithRetry`, with a clock: how many sends were made and how much time went by. */
  method DoWithRetry(p: RetryPolicy, env: Attempts)
    returns (attempts: nat, error: Option<CallError>, sends: nat, elapsed: int)
    ensures 1 <= attempts && (attempts <= p.maxAttempts || attempts == 1) && sends <= attempts
    ensures elapsed == TimeFrom(p, env, 1)
    ensures NeverCancelled(env) ==> elapsed == TimeSent(env, attempts) + TimeWaited(p, env, attempts - 1)
    ensures forall k | 1 <= k < attempts ::
              env(k).outcome.Transport? || (env(k).outcome.Api? && 500 <= env(k).outcome.status <= 599)
    ensures forall k: nat | 1 <= k < attempts :: !env(k).outcome.Success? && !env(k).outcome.Other?
    ensures error.None? ==> sends == attempts && env(attempts).outcome.Success?
    ensures error.Some? && error.value.Failed? ==>
              var o := env(attempts).outcome;
              && sends == attempts && !o.Success?
              && error == Some(Failed(o, if o.Transport? || o.Api? then Some(attempts) else None))
              && (attempts < p.maxAttempts ==> o.Other? || (o.Api? && (o.status < 500 || o.status > 599)))
    ensures forall k | 1 <= k < attempts :: !env(k).cancelled
    ensures env(attempts).cancelled ==> error == Some(Cancelled) && sends == attempts - 1
    ensures error == Some(Cancelled) && !env(attempts).cancelled ==>
              && sends == attempts && env(attempts).interrupted.Some?
              && env(attempts).interrupted.value < Delay(p, attempts, env(attempts).draw)
    ensures forall k | 1 <= k < attempts && env(k).interrupted.Some? ::
              env(k).interrupted.value >= Delay(p, k, env(k).draw)
  {
    hide Jittered, Trunc, Scheduled;
    var maxAttempts := p.maxAttempts;
    if maxAttempts < 1 {
      maxAttempts := 1;
    }
    sends, elapsed := 0, 0;
    var attempt := 1;
    while attempt <= maxAttempts
      invariant 1 <= attempt <= maxAttempts == Cap(p) && sends == attempt - 1
      invariant forall k | 1 <= k < attempt :: Retriable(env(k).outcome) && !env(k).cancelled
      invariant forall k | 1 <= k < attempt && env(k).interrupted.Some? ::
                  env(k).interrupted.value >= Delay(p, k, env(k).draw)
      invariant NeverCancelled(env) ==> elapsed == TimeSent(env, attempt - 1) + TimeWaited(p, env, attempt - 1)
      invariant elapsed + TimeFrom(p, env, attempt) == TimeFrom(p, env, 1)
      decreases maxAttempts - attempt
    {
      var a := env(attempt);
      if a.cancelled {
        return attempt, Some(Cancelled), sends, elapsed;
      }
      sends := sends + 1;
      elapsed := elapsed + a.took;
      if a.outcome.Success? {
        return attempt, None, sends, elapsed;
      }
      if !Retriable(a.outcome) || attempt == maxAttempts {
        return attempt, Some(Annotated(a.outcome, attempt)), sends, elapsed;
      }
      var delay := Delay(p, attempt, a.draw);
      if delay > 0 {
        if a.interrupted.Some? && a.interrupted.value < delay {
          return attempt, Some(Cancelled), sends, elapsed + a.interrupted.value;
        }
        elapsed := elapsed + delay;
      }
      attempt := attempt + 1;
    }
    assert false;
  }

  // ---------- the longest a call can take ----------

  /** The largest integer below `y`. */
  function JustBelow(y: real): int {
    -(-y).Floor - 1
  }

  lemma TruncIsMonotone(x: real, y: real)
    requires x <= y
    ensures Trunc(x) <= Trunc(y)
  {
  }

  lemma TruncJustBelow(x: real, y: real)
    requires x < y && y > 0.0
    ensures Trunc(x) <= JustBelow(y)
    ensures JustBelow(y) as real <= x ==> Trunc(x) == JustBelow(y)
  {
  }

  /** The longest wait a scheduled delay can turn into. The draw stays below one, so a positive delay
      stays below its upper end; a jitter above one turns a negative delay into a wait. */
  function MostWaited(base: int, jitter: real): nat {
    if jitter > 0.0 && base > 0 then
      ScalingIsMonotone(base, 1.0, 1.0 + jitter);
      JustBelow(UpperEnd(base, jitter))
    else
      var wait := if jitter <= 0.0 then base else Trunc(LowerEnd(base, jitter));
      if wait > 0 then wait else 0
  }

  /** The draw that makes the wait longest: the first to reach the last full nanosecond. */
  function WorstDraw(base: int, jitter: real): real {
    if jitter <= 0.0 || base <= 0 || LowerEnd(base, jitter) >= MostWaited(base, jitter) as real then 0.0
    else (MostWaited(base, jitter) as real / base as real - 1.0 + jitter) / (2.0 * jitter)
  }

  lemma ScalingIsMonotone(base: int, x: real, y: real)
    requires base >= 0 && x <= y
    ensures base as real * x <= base as real * y
    ensures base > 0 && x < y ==> base as real * x < base as real * y
  {
    assert base as real * (y - x) >= 0.0;
    assert base > 0 && x < y ==> base as real * (y - x) > 0.0;
  }

  lemma JitterSpread(jitter: real, draw: real)
    requires jitter > 0.0 && 0.0 <= draw < 1.0
    ensures 1.0 - jitter <= 1.0 - jitter + 2.0 * jitter * draw < 1.0 + jitter
  {
    assert jitter * draw >= 0.0 && jitter * (1.0 - draw) > 0.0;
  }

  lemma JitteredStaysBelow(base: int, jitter: real, draw: real)
    requires jitter > 0.0 && 0.0 <= draw < 1.0
    ensures base > 0 ==> Jittered(base, jitter, draw) < UpperEnd(base, jitter) && 0.0 < UpperEnd(base, jitter)
    ensures base <= 0 ==> Jittered(base, jitter, draw) <= LowerEnd(base, jitter)
  {
    JitterSpread(jitter, draw);
    if base > 0 {
      ScalingIsMonotone(base, 1.0, 1.0 + jitter);
      ScalingIsMonotone(base, 1.0 - jitter + 2.0 * jitter * draw, 1.0 + jitter);
    } else {
      ScalingIsMonotone(-base, 1.0 - jitter, 1.0 - jitter + 2.0 * jitter * draw);
    }
  }

  lemma DelayIsBounded(p: RetryPolicy, n: nat, draw: real)
    requires n >= 1 && p.backoff != [] && 0.0 <= draw < 1.0
    ensures Delay(p, n, draw) <= MostWaited(Scheduled(p, n), p.jitter)
  {
    var base := Scheduled(p, n);
    if p.jitter > 0.0 {
      hide Trunc, JustBelow, Jittered, UpperEnd, LowerEnd, Scheduled;
      JitteredStaysBelow(base, p.jitter, draw);
      if base > 0 {
        TruncJustBelow(Jittered(base, p.jitter, draw), UpperEnd(base, p.jitter));
      } else {
        TruncIsMonotone(Jittered(base, p.jitter, draw), LowerEnd(base, p.jitter));
      }
    }
  }

  lemma CancelFactor(x: real, y: real, z: real)
    requires x > 0.0 && x * y < x * z
    ensures y < z
  {
    assert y >= z ==> x * (y - z) >= 0.0;
  }

  /** The draw at which a positive delay turns into exactly `w`. */
  lemma SolveDraw(x: real, jitter: real, w: real)
    requires x > 0.0 && jitter > 0.0 && x * (1.0 - jitter) < w < x * (1.0 + jitter)
    ensures var u := (w / x - 1.0 + jitter) / (2.0 * jitter);
            0.0 <= u < 1.0 && x * (1.0 - jitter + 2.0 * jitter * u) == w
  {
    var q := w / x;
    assert x * q == w;
    CancelFactor(x, 1.0 - jitter, q);
    CancelFactor(x, q, 1.0 + jitter);
    var d := 2.0 * jitter;
    var u := (q - 1.0 + jitter) / d;
    assert d * u == q - 1.0 + jitter;
    CancelFactor(d, 0.0, u);
    CancelFactor(d, u, 1.0);
  }

  lemma WorstDrawReaches(base: int, jitter: real)
    requires jitter > 0.0 && base > 0
    ensures var u := WorstDraw(base, jitter);
            0.0 <= u < 1.0 && MostWaited(base, jitter) as real <= Jittered(base, jitter, u)
  {
    var w, x := MostWaited(base, jitter) as real, base as real;
    assert w < UpperEnd(base, jitter);
    if LowerEnd(base, jitter) < w {
      hide MostWaited;
      SolveDraw(x, jitter, w);
    }
  }

  /** The longest wait is one that occurs. */
  lemma LongestWaitOccurs(p: RetryPolicy, n: nat)
    requires n >= 1 && p.backoff != []
    ensures var u := WorstDraw(Scheduled(p, n), p.jitter);
            && 0.0 <= u < 1.0
            && MostWaited(Scheduled(p, n), p.jitter) == if Delay(p, n, u) > 0 then Delay(p, n, u) else 0
  {
    var base := Scheduled(p, n);
    if p.jitter > 0.0 && base > 0 {
      hide Trunc, JustBelow, WorstDraw, Jittered, UpperEnd, LowerEnd, Scheduled;
      var u := WorstDraw(base, p.jitter);
      WorstDrawReaches(base, p.jitter);
      JitteredStaysBelow(base, p.jitter, u);
      TruncJustBelow(Jittered(base, p.jitter, u), UpperEnd(base, p.jitter));
    } else {
      assert Jittered(base, p.jitter, 0.0) == LowerEnd(base, p.jitter);
    }
  }

  function MostWaits(p: RetryPolicy, retries: nat): nat
    requires p.backoff != []
  {
    if retries == 0 then 0 else MostWaits(p, retries - 1) + MostWaited(Scheduled(p, retries), p.jitter)
  }

  lemma {:induction false} MostWaitsGrow(p: RetryPolicy, n: nat, m: nat)
    requires n <= m && p.backoff != []
    ensures MostWaits(p, n) <= MostWaits(p, m)
    decreases m - n
  {
    if n < m {
      MostWaitsGrow(p, n, m - 1);
    }
  }

  /** The longest time from the `n`th attempt on. */
  function MostTime(p: RetryPolicy, requestTimeout: nat, n: nat): int
    requires 1 <= n <= Cap(p)
  {
    (Cap(p) - n + 1) * requestTimeout
    + if p.backoff == [] then 0 else MostWaits(p, Cap(p) - 1) - MostWaits(p, n - 1)
  }

  lemma MostTimeStep(p: RetryPolicy, requestTimeout: nat, n: nat)
    requires 1 <= n < Cap(p)
    ensures MostTime(p, requestTimeout, n)
            == requestTimeout + MostTime(p, requestTimeout, n + 1)
               + if p.backoff == [] then 0 else MostWaited(Scheduled(p, n), p.jitter)
  {
    var left := Cap(p) - n;
    assert (left + 1) * requestTimeout == left * requestTimeout + requestTimeout;
  }

  lemma MostTimeIsEnough(p: RetryPolicy, requestTimeout: nat, n: nat)
    requires 1 <= n <= Cap(p)
    ensures MostTime(p, requestTimeout, n) >= requestTimeout
  {
    hide MostWaited, MostWaits, Cap;
    var left: nat := Cap(p) - n;
    assert (left + 1) * requestTimeout == left * requestTimeout + requestTimeout >= requestTimeout;
    if p.backoff != [] {
      MostWaitsGrow(p, n - 1, Cap(p) - 1);
    }
  }

  lemma NoDelay(p: RetryPolicy, n: nat, draw: real)
    requires n >= 1 && p.backoff == []
    ensures Delay(p, n, draw) == 0
  {
  }

  /** Whatever the policy, no call takes longer. */
  lemma {:induction false} TimeIsBounded(p: RetryPolicy, env: Attempts, requestTimeout: nat, n: nat)
    requires 1 <= n <= Cap(p) && WithinTimeout(env, requestTimeout)
    ensures TimeFrom(p, env, n) <= MostTime(p, requestTimeout, n)
    decreases Cap(p) - n
  {
    var a := env(n);
    if n < Cap(p) {
      hide Delay, MostWaited, MostTime, Cap;
      TimeIsBounded(p, env, requestTimeout, n + 1);
      MostTimeStep(p, requestTimeout, n);
      MostTimeIsEnough(p, requestTimeout, n + 1);
      if p.backoff != [] {
        DelayIsBounded(p, n, a.draw);
      } else {
        NoDelay(p, n, a.draw);
      }
    }
  }

  /** Every send fails as late as it can and is retried after the longest wait. */
  function Slowest(p: RetryPolicy, requestTimeout: nat): Attempts {
    (n: nat) =>
      var draw := if n == 0 || p.backoff == [] then 0.0 else WorstDraw(Scheduled(p, n), p.jitter);
      Attempt(false, Transport, requestTimeout, draw, None)
  }

  lemma SlowestIsWithin(p: RetryPolicy, requestTimeout: nat)
    ensures WithinTimeout(Slowest(p, requestTimeout), requestTimeout)
  {
    forall n: nat | n > 0 && p.backoff != []
      ensures 0.0 <= WorstDraw(Scheduled(p, n), p.jitter) < 1.0
    {
      LongestWaitOccurs(p, n);
    }
  }

  /** The longest time is one some call takes. */
  lemma {:induction false} SlowestTakesMost(p: RetryPolicy, requestTimeout: nat, n: nat)
    requires 1 <= n <= Cap(p)
    ensures TimeFrom(p, Slowest(p, requestTimeout), n) == MostTime(p, requestTimeout, n)
    decreases Cap(p) - n
  {
    if n < Cap(p) {
      hide Delay, MostWaited, WorstDraw, Cap, MostTime;
      SlowestTakesMost(p, requestTimeout, n + 1);
      MostTimeStep(p, requestTimeout, n);
      if p.backoff != [] {
        LongestWaitOccurs(p, n);
      } else {
        NoDelay(p, n, 0.0);
      }
    }
  }

  // ---------- exactly when the advertised bound holds ----------

  ghost predicate BoundCovers(p: RetryPolicy, requestTimeout: nat) {
    forall env: Attempts | WithinTimeout(env, requestTimeout) :: TimeFrom(p, env, 1) <= Bound(p, requestTimeout)
  }

  /** For every policy there is: with an attempt allowed, the bound covers every call exactly when the
      delays it adds up reach the waits these delays can turn into; without one it covers the one send
      the loop makes all the same only if that send takes no time. */
  lemma BoundCoversIff(p: RetryPolicy, requestTimeout: nat)
    ensures BoundCovers(p, requestTimeout) <==>
              if p.maxAttempts < 1 then requestTimeout == 0
              else p.backoff == [] || MostWaits(p, p.maxAttempts - 1) <= LongestDelays(p, p.maxAttempts - 1)
  {
    hide MostWaits, LongestDelays, Slowest;
    var most, bound := MostTime(p, requestTimeout, 1), Bound(p, requestTimeout);
    forall env: Attempts | WithinTimeout(env, requestTimeout)
      ensures TimeFrom(p, env, 1) <= most
    {
      TimeIsBounded(p, env, requestTimeout, 1);
    }
    SlowestIsWithin(p, requestTimeout);
    SlowestTakesMost(p, requestTimeout, 1);
    assert BoundCovers(p, requestTimeout) <==> most <= bound;
    NoWaits(p);
    if p.maxAttempts < 1 {
      assert bound == p.maxAttempts * requestTimeout && most == requestTimeout;
      assert (-p.maxAttempts) * requestTimeout >= 0;
    }
  }

  lemma NoWaits(p: RetryPolicy)
    ensures p.backoff != [] ==> MostWaits(p, 0) == 0
  {
  }

  predicate Sensible(p: RetryPolicy) {
    p.jitter >= 0.0 && forall d | d in p.backoff :: d >= 0
  }

  lemma {:induction false} SensibleWaitsAreCovered(p: RetryPolicy, retries: nat)
    requires Sensible(p) && p.backoff != []
    ensures MostWaits(p, retries) <= LongestDelays(p, retries)
  {
    if retries > 0 {
      SensibleWaitsAreCovered(p, retries - 1);
      var base := Scheduled(p, retries);
      assert base in p.backoff;
      ScalingIsMonotone(base, 1.0, 1.0 + p.jitter);
    }
  }

  /** For a policy with non-negative jitter and delays, the advertised bound covers every call there can
      be exactly when the policy allows at least one attempt. */
  lemma BoundCoversIffOneAttempt(p: RetryPolicy, requestTimeout: nat)
    requires Sensible(p) && requestTimeout > 0
    ensures BoundCovers(p, requestTimeout) <==> p.maxAttempts >= 1
  {
    hide BoundCovers, MostWaits, LongestDelays;
    BoundCoversIff(p, requestTimeout);
    if p.maxAttempts >= 1 && p.backoff != [] {
      SensibleWaitsAreCovered(p, p.maxAttempts - 1);
    }
  }

  /** A negative jitter widens nothing in the loop but narrows the bound, for every request timeout. */
  lemma NegativeJitterBreaksBound(requestTimeout: nat)
    ensures !BoundCovers(RetryPolicy(2, [SECOND], -0.5), requestTimeout)
  {
    var p := RetryPolicy(2, [SECOND], -0.5);
    BoundCoversIff(p, requestTimeout);
    assert MostWaits(p, 1) == MostWaits(p, 0) + MostWaited(SECOND, -0.5) == SECOND;
    assert LongestDelays(p, 1) == LongestDelays(p, 0) + LongestDelay(p, 1) == 500_000_000;
  }

  /** A negative delay is not waited for, but the bound counts it, for every request timeout. */
  lemma NegativeDelayBreaksBound(requestTimeout: nat)
    ensures !BoundCovers(RetryPolicy(2, [-SECOND], 0.0), requestTimeout)
  {
    var p := RetryPolicy(2, [-SECOND], 0.0);
    BoundCoversIff(p, requestTimeout);
    assert LongestDelays(p, 1) == LongestDelays(p, 0) + LongestDelay(p, 1) == -SECOND;
  }

  // ---------- the reconcile timeout ----------

  /** `validateReconcileTimeout`: whether the flag is accepted. */
  method ValidateReconcileTimeout(d: int) returns (accepted: bool)
    ensures accepted <==> d >= 30 * SECOND + 625 * MILLISECOND
    ensures accepted ==> forall env: Attempts | WithinTimeout(env, REQUEST_TIMEOUT) :: TimeFrom(DEFAULT, env, 1) <= d
  {
    var floor := LongestCall(DEFAULT, REQUEST_TIMEOUT);
    DefaultBound();
    BoundCoversIffOneAttempt(DEFAULT, REQUEST_TIMEOUT);
    accepted := !(d < floor);
  }

  lemma DefaultBound()
    ensures Bound(DEFAULT, REQUEST_TIMEOUT) == 30 * SECOND + 625 * MILLISECOND
  {
    assert LongestDelay(DEFAULT, 1) == 125 * MILLISECOND;
    assert LongestDelay(DEFAULT, 2) == 500 * MILLISECOND;
    assert LongestDelays(DEFAULT, 2) == LongestDelays(DEFAULT, 1) + LongestDelay(DEFAULT, 2);
    assert LongestDelays(DEFAULT, 1) == LongestDelays(DEFAULT, 0) + LongestDelay(DEFAULT, 1);
  }

  // ---------- the schedule, in plain words ----------

  /** The wait after the `n`th attempt is the `n`th entry of the schedule, or the last one past the end:
      as it is when there is no jitter or the draw is in the middle, and otherwise scaled by a factor that
      runs from one less the jitter to one plus the jitter. */
  lemma DelayFollowsSchedule(p: RetryPolicy, n: nat, draw: real)
    requires n >= 1
    ensures p.backoff == [] ==> Delay(p, n, draw) == 0
    ensures p.backoff != [] ==>
              var base := if n <= |p.backoff| then p.backoff[n - 1] else p.backoff[|p.backoff| - 1];
              && (p.jitter <= 0.0 ==> Delay(p, n, draw) == base)
              && Delay(p, n, 0.5) == base
              && (p.jitter > 0.0 ==> Delay(p, n, draw) == Trunc(Jittered(base, p.jitter, draw)))
  {
    hide Jittered;
    if p.backoff != [] && p.jitter > 0.0 {
      JitteredSays(Scheduled(p, n), p.jitter, 0.5);
    }
  }

  /** The scaled delay, as the delay and a share of it that the draw turns from minus to plus. */
  lemma JitteredSays(base: int, jitter: real, draw: real)
    ensures Jittered(base, jitter, draw) == base as real + base as real * (jitter * (2.0 * draw - 1.0))
    ensures draw == 0.5 ==> Jittered(base, jitter, draw) == base as real
  {
    var share := jitter * (2.0 * draw - 1.0);
    assert 1.0 - jitter + 2.0 * jitter * draw == 1.0 + share;
    assert base as real * (1.0 + share) == base as real + base as real * share;
  }

  /** Truncation drops the fraction, towards zero. */
  lemma TruncDropsFraction(x: real)
    ensures x >= 0.0 ==> x - 1.0 < Trunc(x) as real <= x
    ensures x <= 0.0 ==> x <= Trunc(x) as real < x + 1.0
  {
  }

  /** The ends of the range: the delay and the jitter's share of it, more or less. */
  lemma EndsAddOrDropShare(base: int, jitter: real)
    ensures UpperEnd(base, jitter) == base as real + base as real * jitter
    ensures LowerEnd(base, jitter) == base as real - base as real * jitter
  {
  }

  /** Allowing one more attempt adds one request timeout and one entry of the schedule, scaled up in full. */
  lemma BoundGrowsByOneRetry(p: RetryPolicy, requestTimeout: int)
    requires p.maxAttempts >= 1
    ensures Bound(p.(maxAttempts := 1), requestTimeout) == requestTimeout
    ensures Bound(p.(maxAttempts := p.maxAttempts + 1), requestTimeout)
            == Bound(p, requestTimeout) + requestTimeout
               + if p.backoff == [] then 0
                 else
                   var base := if p.maxAttempts <= |p.backoff| then p.backoff[p.maxAttempts - 1]
                               else p.backoff[|p.backoff| - 1];
                   Trunc(UpperEnd(base, p.jitter))
  {
    hide Trunc, LongestDelays, UpperEnd;
    var q, one := p.(maxAttempts := p.maxAttempts + 1), p.(maxAttempts := 1);
    assert q.maxAttempts * requestTimeout == p.maxAttempts * requestTimeout + requestTimeout;
    assert one.maxAttempts * requestTimeout == requestTimeout;
    if p.backoff != [] {
      OneMoreDelay(one, 1);
      SameDelays(p, q, p.maxAttempts - 1);
      OneMoreDelay(q, p.maxAttempts);
      assert Bound(q, requestTimeout) == q.maxAttempts * requestTimeout + LongestDelays(q, p.maxAttempts);
    }
  }

  lemma OneMoreDelay(p: RetryPolicy, n: nat)
    requires n >= 1 && p.backoff != []
    ensures LongestDelays(p, 0) == 0
    ensures var base := if n <= |p.backoff| then p.backoff[n - 1] else p.backoff[|p.backoff| - 1];
            LongestDelays(p, n) == LongestDelays(p, n - 1) + Trunc(UpperEnd(base, p.jitter))
  {
    var base := if n <= |p.backoff| then p.backoff[n - 1] else p.backoff[|p.backoff| - 1];
    assert Scheduled(p, n) == base;
    assert LongestDelay(p, n) == Trunc(UpperEnd(base, p.jitter));
  }

  lemma {:induction false} SameDelays(p: RetryPolicy, q: RetryPolicy, retries: nat)
    requires p.backoff == q.backoff != [] && p.jitter == q.jitter
    ensures LongestDelays(p, retries) == LongestDelays(q, retries)
  {
    if retries > 0 {
      SameDelays(p, q, retries - 1);
    }
  }
}
