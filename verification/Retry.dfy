/** The retry loop of a handler and its backoff (Execute and calculateBackoff in
    internal/handler/dispatcher.go). Durations are 64-bit counts of nanoseconds. */
module Retry {
  import opened Wrappers

  const SECOND := 1_000_000_000
  const DEFAULT_CAP := 30 * SECOND
  const TWO_63 := 0x8000_0000_0000_0000
  const TWO_64 := 0x1_0000_0000_0000_0000

  /** A duration as written in the configuration. */
  datatype Field = Unset | Malformed | Parsed(d: int)

  datatype RetryConfig = RetryConfig(count: int, exponential: bool, interval: Field, maxInterval: Field)

  function Wrap64(x: int): int {
    if x % TWO_64 < TWO_63 then x % TWO_64 else x % TWO_64 - TWO_64
  }

  function Pow2(n: nat): nat {
    if n == 0 then 1 else 2 * Pow2(n - 1)
  }

  function Interval(cfg: RetryConfig): int {
    if cfg.interval.Parsed? then cfg.interval.d else SECOND
  }

  function CalculateBackoff(cfg: RetryConfig, attempt: nat): int
    requires attempt >= 1
  {
    if cfg.exponential then
      var wait := Wrap64(Interval(cfg) * Wrap64(Pow2(attempt - 1)));
      if cfg.maxInterval != Unset then
        if cfg.maxInterval.Parsed? && wait > cfg.maxInterval.d then cfg.maxInterval.d else wait
      else if wait > DEFAULT_CAP then DEFAULT_CAP
      else wait
    else Wrap64(Interval(cfg) * attempt)
  }

  // ---- the loop ----

  /** What one attempt comes to. */
  datatype Attempt = Finished(exitCode: int) | Error(error: string) | LimitExceeded | Dropped

  datatype Handler = Handler(
    retry: Option<RetryConfig>,
    checksExitCode: bool,  // a top-level run or builtin
    concise: bool,         // also a top-level database query: it responds inside the action
    hasRespond: bool)

  predicate Fails(h: Handler, a: Attempt) {
    a.Error? || (a.Finished? && h.checksExitCode && a.exitCode != 0)
  }

  function MaxAttempts(h: Handler): (n: nat)
    ensures n >= 1
  {
    if h.retry.Some? && h.retry.value.count > 0 then 1 + h.retry.value.count else 1
  }

  datatype Ending = Succeeded | GaveUp | Signalled | Cancelled | RespondFailed

  /** Why the loop stops after the n-th attempt, if it does. */
  predicate StopsAt(h: Handler, run: nat -> Attempt, cancelled: nat -> bool, n: nat) {
    !Fails(h, run(n)) || n >= MaxAttempts(h) || cancelled(n)
  }

  /** The waits are those between the first attempts. */
  predicate BackoffWaits(cfg: RetryConfig, waits: seq<int>) {
    forall n | 1 <= n <= |waits| :: waits[n - 1] == CalculateBackoff(cfg, n)
  }

  /** A wait that is not positive takes no time. */
  function Waited(waits: seq<int>): nat {
    if waits == [] then 0 else Waited(waits[..|waits| - 1]) + AtLeastZero(waits[|waits| - 1])
  }

  function AtLeastZero(x: int): nat {
    if x > 0 then x else 0
  }

  function Retries(cfg: RetryConfig): nat {
    if cfg.count > 0 then cfg.count else 0
  }

  /** The bounds on the time waited, for the configured number of retries. They hold of every
      configuration with a valid cap, or with an interval that is not negative, overflow or not. */
  ghost predicate TimeIsBounded(cfg: RetryConfig, waits: seq<int>) {
    var k, i := Retries(cfg), Interval(cfg);
    && (cfg.exponential && Cap(cfg).Some? ==> Waited(waits) <= k * AtLeastZero(Cap(cfg).value))
    && (cfg.exponential && i >= 0 ==> Waited(waits) <= i * (Pow2(k) - 1))
    && (!cfg.exponential && i >= 0 ==> 2 * Waited(waits) <= i * (k * (k + 1)))
  }

  /** `run(n)` is the outcome of the n-th attempt; `cancelled(n)`: the context ends during the wait
      after it. `waits` are the waits that ran to their end. */
  method Execute(h: Handler, run: nat -> Attempt, cancelled: nat -> bool, respond: bool)
    returns (attempts: nat, waits: seq<int>, ending: Ending, handledError: bool)
    ensures 1 <= attempts <= MaxAttempts(h) && StopsAt(h, run, cancelled, attempts)
    ensures forall n | 1 <= n < attempts :: !StopsAt(h, run, cancelled, n)
    ensures h.retry.Some? && h.retry.value.count > 0 ==> attempts <= 1 + h.retry.value.count
    ensures h.retry.None? || h.retry.value.count <= 0 ==> attempts == 1
    ensures forall n | 1 <= n < attempts ::
              && (run(n).Error? || (run(n).Finished? && h.checksExitCode && run(n).exitCode != 0))
              && !cancelled(n)
    ensures (run(attempts).Error? || (run(attempts).Finished? && h.checksExitCode && run(attempts).exitCode != 0))
            && !cancelled(attempts) && h.retry.Some? && h.retry.value.count > 0 ==>
              attempts == 1 + h.retry.value.count && ending == GaveUp
    ensures |waits| == attempts - 1
    ensures h.retry.Some? ==> BackoffWaits(h.retry.value, waits) && TimeIsBounded(h.retry.value, waits)
    ensures ending == (if run(attempts).LimitExceeded? || run(attempts).Dropped? then Signalled
                       else if Fails(h, run(attempts)) then
                         if attempts >= MaxAttempts(h) then GaveUp else Cancelled
                       else if h.hasRespond && !h.concise && !respond then RespondFailed
                       else Succeeded)
    ensures handledError <==> ending == GaveUp
  {
    waits := [];
    handledError := false;
    var maxAttempts := 1;
    if h.retry.Some? && h.retry.value.count > 0 {
      maxAttempts := 1 + h.retry.value.count;
    }
    var failed := false;
    if h.retry.Some? {
      RetryTimeIsBounded(h.retry.value, waits);
    }
    hide CalculateBackoff, BackoffWaits, TimeIsBounded;
    attempts := 1;
    while attempts <= maxAttempts
      invariant 1 <= attempts <= maxAttempts + 1 && maxAttempts == MaxAttempts(h)
      invariant attempts <= maxAttempts && |waits| == attempts - 1
      invariant forall n | 1 <= n < attempts :: !StopsAt(h, run, cancelled, n)
      invariant forall n | 1 <= n < attempts ::
                  && (run(n).Error? || (run(n).Finished? && h.checksExitCode && run(n).exitCode != 0))
                  && !cancelled(n)
      invariant h.retry.Some? ==> BackoffWaits(h.retry.value, waits) && TimeIsBounded(h.retry.value, waits)
      decreases maxAttempts - attempts
    {
      var lastErr := run(attempts);
      if lastErr.LimitExceeded? || lastErr.Dropped? {
        ending := Signalled;
        return;
      }
      failed := lastErr.Error?;
      if !failed && h.checksExitCode {
        if lastErr.exitCode != 0 {
          failed := true;
        }
      }
      if !failed {
        break;
      }
      if attempts >= maxAttempts {
        break;
      }
      var backoff := CalculateBackoff(h.retry.value, attempts);
      if cancelled(attempts) {
        ending := Cancelled;
        return;
      }
      OneMoreWait(h.retry.value, waits);
      waits := waits + [backoff];
      RetryTimeIsBounded(h.retry.value, waits);
      attempts := attempts + 1;
    }
    if h.hasRespond && !h.concise && !failed {
      if !respond {
        ending := RespondFailed;
        return;
      }
    }
    if failed {
      handledError := true;
      ending := GaveUp;
    } else {
      ending := Succeeded;
    }
  }

  // ---- the length of a wait ----

  predicate In64(x: int) {
    -TWO_63 <= x < TWO_63
  }

  /** The length before capping, if it were not for the width of the integers. */
  function Ideal(cfg: RetryConfig, attempt: nat): int
    requires attempt >= 1
  {
    Interval(cfg) * Pow2(attempt - 1)
  }

  function Cap(cfg: RetryConfig): Option<int> {
    match cfg.maxInterval
    case Parsed(d) => Some(d)
    case Unset => Some(DEFAULT_CAP)
    case Malformed => None
  }

  function Capped(x: int, cap: Option<int>): int {
    if cap.Some? && x > cap.value then cap.value else x
  }

  lemma WrapTurns(x: int) returns (turns: int)
    ensures Wrap64(x) == x - turns * TWO_64
  {
    turns := if x % TWO_64 < TWO_63 then x / TWO_64 else x / TWO_64 + 1;
  }

  lemma WrapForgetsTurns(x: int, turns: int)
    ensures Wrap64(x - turns * TWO_64) == Wrap64(x)
  {
    assert (x - turns * TWO_64) % TWO_64 == x % TWO_64;
  }

  lemma WrapSmall(x: int)
    requires In64(x)
    ensures Wrap64(x) == x
  {
  }

  lemma WrapRange(x: int)
    ensures In64(Wrap64(x))
    ensures x >= 0 ==> Wrap64(x) <= x
  {
  }

  /** It makes no difference that the power is wrapped before the product is. */
  lemma ProductIsWrappedOnce(i: int, p: int)
    ensures Wrap64(i * Wrap64(p)) == Wrap64(i * p)
  {
    var turns := WrapTurns(p);
    assert i * (p - turns * TWO_64) == i * p - (i * turns) * TWO_64;
    WrapForgetsTurns(i * p, i * turns);
  }

  /** The wait is what 64 bits leave of the power, capped. */
  lemma ExponentialWait(cfg: RetryConfig, attempt: nat)
    requires attempt >= 1 && cfg.exponential
    ensures CalculateBackoff(cfg, attempt) == Capped(Wrap64(Ideal(cfg, attempt)), Cap(cfg))
  {
    ProductIsWrappedOnce(Interval(cfg), Pow2(attempt - 1));
    hide Wrap64, Pow2;
  }

  /** The wait is min(I * 2^(n-1), cap) exactly if the product fits into 64 bits, or is too large for
      them and what is left of it is not below the cap. Intervals may be negative. */
  lemma ExponentialWaitExactly(cfg: RetryConfig, attempt: nat)
    requires attempt >= 1 && cfg.exponential && (Cap(cfg).Some? ==> In64(Cap(cfg).value))
    ensures CalculateBackoff(cfg, attempt) == Capped(Ideal(cfg, attempt), Cap(cfg))
       <==> || In64(Ideal(cfg, attempt))
            || (Ideal(cfg, attempt) >= TWO_63 && Cap(cfg).Some? && Cap(cfg).value <= Wrap64(Ideal(cfg, attempt)))
  {
    ExponentialWait(cfg, attempt);
    WrapRange(Ideal(cfg, attempt));
    if In64(Ideal(cfg, attempt)) {
      WrapSmall(Ideal(cfg, attempt));
    }
    hide CalculateBackoff, Ideal, Wrap64;
  }

  lemma LinearWaitExactly(cfg: RetryConfig, attempt: nat)
    requires attempt >= 1 && !cfg.exponential
    ensures CalculateBackoff(cfg, attempt) == Interval(cfg) * attempt <==> In64(Interval(cfg) * attempt)
  {
    WrapRange(Interval(cfg) * attempt);
  }

  /** The first waits with the default interval of a second, up to the default cap of half a minute;
      a malformed interval is the default, a malformed cap is none. */
  lemma FirstWaits(count: int, interval: Field)
    requires interval == Unset || interval == Malformed
    ensures var cfg := RetryConfig(count, true, interval, Unset);
            && CalculateBackoff(cfg, 1) == 1_000_000_000 && CalculateBackoff(cfg, 2) == 2_000_000_000
            && CalculateBackoff(cfg, 3) == 4_000_000_000 && CalculateBackoff(cfg, 4) == 8_000_000_000
            && CalculateBackoff(cfg, 5) == 16_000_000_000 && CalculateBackoff(cfg, 6) == 30_000_000_000
    ensures CalculateBackoff(RetryConfig(count, true, interval, Malformed), 7) == 64_000_000_000
    ensures var cfg := RetryConfig(count, false, interval, Unset);
            CalculateBackoff(cfg, 1) == 1_000_000_000 && CalculateBackoff(cfg, 100) == 100_000_000_000
  {
    assert Pow2(0) == 1 && Pow2(1) == 2 && Pow2(2) == 4 && Pow2(3) == 8 && Pow2(4) == 16 && Pow2(5) == 32;
    assert Pow2(6) == 64;
  }

  /** A parsed interval d is waited d, 2 d, 4 d, ... or d, 2 d, 3 d, ..., up to a parsed cap. */
  lemma ParsedWaits(cfg: RetryConfig, d: int, n: nat)
    requires cfg.interval == Parsed(d) && n >= 1 && In64(d * Pow2(n - 1)) && In64(d * n)
    ensures !cfg.exponential ==> CalculateBackoff(cfg, n) == d * n
    ensures cfg.exponential && cfg.maxInterval.Parsed? ==>
              CalculateBackoff(cfg, n)
              == if d * Pow2(n - 1) > cfg.maxInterval.d then cfg.maxInterval.d else d * Pow2(n - 1)
    ensures cfg.exponential && cfg.maxInterval.Unset? ==>
              CalculateBackoff(cfg, n) == if d * Pow2(n - 1) > 30_000_000_000 then 30_000_000_000 else d * Pow2(n - 1)
  {
    if cfg.exponential {
      ExponentialWait(cfg, n);
      WrapSmall(d * Pow2(n - 1));
      hide CalculateBackoff, Wrap64, Pow2;
    } else {
      WrapSmall(d * n);
    }
  }

  /** It does go wrong: with an interval of one second the 35th wait is negative, so there is no
      wait at all, after 30 seconds before it. */
  lemma BackoffOverflows()
    ensures var cfg := RetryConfig(40, true, Parsed(SECOND), Unset);
            CalculateBackoff(cfg, 34) == DEFAULT_CAP && CalculateBackoff(cfg, 35) == -1266874889709551616
  {
    assert Pow2(10) == 1024;
    assert Pow2(20) == 1048576;
    assert Pow2(33) == 8589934592 && Pow2(34) == 17179869184;
  }

  lemma {:induction false} Pow2Sum(a: nat, b: nat)
    ensures Pow2(a + b) == Pow2(a) * Pow2(b)
    decreases b
  {
    if b > 0 {
      Pow2Sum(a, b - 1);
      assert Pow2(a) * (2 * Pow2(b - 1)) == 2 * (Pow2(a) * Pow2(b - 1));
    }
  }

  lemma Pow2Of64()
    ensures Pow2(64) == TWO_64
  {
    assert Pow2(8) == 256;
    hide Pow2;
    Pow2Sum(8, 8);
    Pow2Sum(16, 16);
    Pow2Sum(32, 32);
  }

  /** From the 65th wait on there is none, whatever the interval is. */
  lemma LateWaitsAreZero(cfg: RetryConfig, attempt: nat)
    requires attempt >= 65 && cfg.exponential && (Cap(cfg).Some? ==> Cap(cfg).value >= 0)
    ensures CalculateBackoff(cfg, attempt) == 0
  {
    ExponentialWait(cfg, attempt);
    Pow2Of64();
    Pow2Sum(attempt - 65, 64);
    hide Pow2, CalculateBackoff;
    var i, p := Interval(cfg), Pow2(attempt - 65);
    assert i * (p * TWO_64) == (i * p) * TWO_64;
    WrapForgetsTurns(i * (p * TWO_64), i * p);
    WrapSmall(0);
  }

  // ---- as long as 64 bits suffice ----

  lemma {:induction false} Pow2Monotone(a: nat, b: nat)
    requires a <= b
    ensures 1 <= Pow2(a) <= Pow2(b)
    decreases b
  {
    if a < b {
      Pow2Monotone(a, b - 1);
    } else if a > 0 {
      Pow2Monotone(a - 1, b - 1);
    }
  }

  /** All products up to the last wait fit into 64 bits. */
  predicate Fits(cfg: RetryConfig, waits: nat) {
    && Interval(cfg) >= 0
    && if waits == 0 then true
       else if cfg.exponential then Ideal(cfg, waits) < TWO_63
       else Interval(cfg) * waits < TWO_63
  }

  lemma FitsEarlier(cfg: RetryConfig, n: nat, waits: nat)
    requires Fits(cfg, waits) && n <= waits
    ensures Fits(cfg, n)
  {
    if n > 0 {
      Pow2Monotone(n - 1, waits - 1);
      MulMonotone(Interval(cfg), Pow2(n - 1), Pow2(waits - 1));
      MulMonotone(Interval(cfg), n, waits);
    }
  }

  lemma MulMonotone(i: nat, a: nat, b: nat)
    requires a <= b
    ensures 0 <= i * a <= i * b
  {
  }

  lemma WaitLength(cfg: RetryConfig, n: nat)
    requires n >= 1 && Fits(cfg, n)
    ensures cfg.exponential ==> CalculateBackoff(cfg, n) == Capped(Ideal(cfg, n), Cap(cfg))
    ensures !cfg.exponential ==> CalculateBackoff(cfg, n) == Interval(cfg) * n
  {
    if cfg.exponential {
      ExponentialWait(cfg, n);
      MulMonotone(Interval(cfg), 0, Pow2(n - 1));
      WrapSmall(Ideal(cfg, n));
      hide CalculateBackoff, Wrap64;
    } else {
      MulMonotone(Interval(cfg), 0, n);
      LinearWaitExactly(cfg, n);
    }
  }

  /** The waits never get shorter. */
  lemma WaitsNonDecreasing(cfg: RetryConfig, n: nat)
    requires n >= 1 && Fits(cfg, n + 1)
    ensures CalculateBackoff(cfg, n) <= CalculateBackoff(cfg, n + 1)
  {
    FitsEarlier(cfg, n, n + 1);
    WaitLength(cfg, n);
    WaitLength(cfg, n + 1);
    MulMonotone(Interval(cfg), Pow2(n - 1), Pow2(n));
    MulMonotone(Interval(cfg), n, n + 1);
    hide CalculateBackoff;
  }

  /** The k linear waits last exactly I * k * (k + 1) / 2. */
  lemma {:induction false} LinearTotal(cfg: RetryConfig, waits: seq<int>)
    requires BackoffWaits(cfg, waits) && !cfg.exponential && Fits(cfg, |waits|)
    ensures 2 * Waited(waits) == Interval(cfg) * (|waits| * (|waits| + 1))
    decreases |waits|
  {
    hide CalculateBackoff;
    var k := |waits|;
    if k > 0 {
      FrontOfWaits(cfg, waits);
      FitsEarlier(cfg, k - 1, k);
      LinearTotal(cfg, waits[..k - 1]);
      WaitLength(cfg, k);
      MulMonotone(Interval(cfg), 0, k);
      TriangleStep(Interval(cfg), k, Waited(waits[..k - 1]));
      hide Waited, Fits;
    }
  }

  // ---- the time waited ----

  lemma OneMoreWait(cfg: RetryConfig, waits: seq<int>)
    requires BackoffWaits(cfg, waits)
    ensures BackoffWaits(cfg, waits + [CalculateBackoff(cfg, |waits| + 1)])
  {
    hide CalculateBackoff;
  }

  lemma FrontOfWaits(cfg: RetryConfig, waits: seq<int>)
    requires waits != [] && BackoffWaits(cfg, waits)
    ensures BackoffWaits(cfg, waits[..|waits| - 1])
    ensures waits[|waits| - 1] == CalculateBackoff(cfg, |waits|)
    ensures Waited(waits) == Waited(waits[..|waits| - 1]) + AtLeastZero(CalculateBackoff(cfg, |waits|))
  {
    hide CalculateBackoff;
    var front := waits[..|waits| - 1];
    forall n | 1 <= n <= |front|
      ensures front[n - 1] == CalculateBackoff(cfg, n)
    {
      assert front[n - 1] == waits[n - 1];
    }
    assert waits[|waits| - 1] == CalculateBackoff(cfg, |waits|);
  }

  /** What is left of a number in 64 bits is never more than the number. */
  lemma WaitAtMost(cfg: RetryConfig, n: nat)
    requires n >= 1
    ensures cfg.exponential && Cap(cfg).Some? ==> CalculateBackoff(cfg, n) <= Cap(cfg).value
    ensures cfg.exponential && Interval(cfg) >= 0 ==> AtLeastZero(CalculateBackoff(cfg, n)) <= Ideal(cfg, n)
    ensures !cfg.exponential && Interval(cfg) >= 0 ==> AtLeastZero(CalculateBackoff(cfg, n)) <= Interval(cfg) * n
  {
    if cfg.exponential {
      ExponentialWait(cfg, n);
    }
    if Interval(cfg) >= 0 {
      MulMonotone(Interval(cfg), 0, n);
      MulMonotone(Interval(cfg), 0, Pow2(n - 1));
    }
    WrapRange(Ideal(cfg, n));
    WrapRange(Interval(cfg) * n);
    hide Wrap64, Pow2;
  }

  lemma DoublingStep(i: int, p: int, total: int, wait: int)
    requires total <= i * (p - 1) && wait <= i * p
    ensures total + wait <= i * (2 * p - 1)
  {
    assert i * (2 * p - 1) == i * (p - 1) + i * p;
  }

  lemma CappedStep(cap: int, k: int, total: int, wait: int)
    requires total <= (k - 1) * cap && wait <= cap
    ensures total + wait <= k * cap
  {
    assert k * cap == (k - 1) * cap + cap;
  }

  lemma TriangleStep(i: int, k: int, total: int)
    ensures 2 * total == i * ((k - 1) * k) ==> 2 * (total + i * k) == i * (k * (k + 1))
    ensures 2 * total <= i * ((k - 1) * k) ==> 2 * (total + i * k) <= i * (k * (k + 1))
  {
    assert k * (k + 1) == (k - 1) * k + 2 * k;
    assert i * ((k - 1) * k + 2 * k) == i * ((k - 1) * k) + i * (2 * k);
    assert i * (2 * k) == 2 * (i * k);
  }

  /** k exponential waits last at most k times the cap, overflow or not. */
  lemma {:induction false} CappedTotal(cfg: RetryConfig, waits: seq<int>)
    requires BackoffWaits(cfg, waits) && cfg.exponential && Cap(cfg).Some?
    ensures Waited(waits) <= |waits| * AtLeastZero(Cap(cfg).value)
    decreases |waits|
  {
    hide CalculateBackoff;
    var k := |waits|;
    if k > 0 {
      FrontOfWaits(cfg, waits);
      CappedTotal(cfg, waits[..k - 1]);
      WaitAtMost(cfg, k);
      hide Waited;
      CappedStep(AtLeastZero(Cap(cfg).value), k, Waited(waits[..k - 1]), AtLeastZero(CalculateBackoff(cfg, k)));
    }
  }

  /** They last at most I * (2^k - 1), overflow or not. */
  lemma {:induction false} ExponentialTotal(cfg: RetryConfig, waits: seq<int>)
    requires BackoffWaits(cfg, waits) && cfg.exponential && Interval(cfg) >= 0
    ensures Waited(waits) <= Interval(cfg) * (Pow2(|waits|) - 1)
    decreases |waits|
  {
    hide CalculateBackoff;
    var k := |waits|;
    if k > 0 {
      FrontOfWaits(cfg, waits);
      ExponentialTotal(cfg, waits[..k - 1]);
      WaitAtMost(cfg, k);
      assert Pow2(k) == 2 * Pow2(k - 1);
      hide Waited, Pow2;
      DoublingStep(Interval(cfg), Pow2(k - 1), Waited(waits[..k - 1]), AtLeastZero(CalculateBackoff(cfg, k)));
    }
  }

  /** k linear waits last at most I * k * (k + 1) / 2, overflow or not. */
  lemma {:induction false} LinearTotalAtMost(cfg: RetryConfig, waits: seq<int>)
    requires BackoffWaits(cfg, waits) && !cfg.exponential && Interval(cfg) >= 0
    ensures 2 * Waited(waits) <= Interval(cfg) * (|waits| * (|waits| + 1))
    decreases |waits|
  {
    hide CalculateBackoff;
    var k := |waits|;
    if k > 0 {
      FrontOfWaits(cfg, waits);
      LinearTotalAtMost(cfg, waits[..k - 1]);
      WaitAtMost(cfg, k);
      TriangleStep(Interval(cfg), k, Waited(waits[..k - 1]));
      hide Waited;
    }
  }

  lemma TriangleMonotone(a: nat, b: nat)
    requires a <= b
    ensures 0 <= a * (a + 1) <= b * (b + 1)
  {
    MulMonotone(a, a + 1, b + 1);
    MulMonotone(b + 1, a, b);
  }

  /** However many of the configured retries are needed, the time waited is within the bounds. */
  lemma RetryTimeIsBounded(cfg: RetryConfig, waits: seq<int>)
    requires BackoffWaits(cfg, waits) && |waits| <= Retries(cfg)
    ensures TimeIsBounded(cfg, waits)
  {
    hide CalculateBackoff, BackoffWaits, Waited;
    var k, r, i := |waits|, Retries(cfg), Interval(cfg);
    if cfg.exponential && Cap(cfg).Some? {
      CappedTotal(cfg, waits);
      MulMonotone(AtLeastZero(Cap(cfg).value), k, r);
    }
    if cfg.exponential && i >= 0 {
      ExponentialTotal(cfg, waits);
      Pow2Monotone(k, r);
      MulMonotone(i, Pow2(k) - 1, Pow2(r) - 1);
    }
    if !cfg.exponential && i >= 0 {
      LinearTotalAtMost(cfg, waits);
      TriangleMonotone(k, r);
      MulMonotone(i, k * (k + 1), r * (r + 1));
    }
  }
}
