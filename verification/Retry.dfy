/** Retrying with exponential backoff, in Go's 64-bit durations. */
module Retry {
  import opened Values

  const MAX_INT64 := 0x7fff_ffff_ffff_ffff
  const MILLISECOND := 1_000_000
  const SECOND := 1_000_000_000

  datatype RetryConfig = RetryConfig(maxAttempts: int, baseDelay: int, maxDelay: int)

  const DEFAULT_CONFIG := RetryConfig(3, 200 * MILLISECOND, 5 * SECOND)

  function Pow2(k: nat): (p: nat)
    ensures p > 0
  {
    if k == 0 then 1 else 2 * Pow2(k - 1)
  }

  /** The value a 64-bit signed register holds. */
  function Wrap64(x: int): (r: int)
    ensures -MAX_INT64 - 1 <= r <= MAX_INT64
    ensures -MAX_INT64 - 1 <= x <= MAX_INT64 ==> r == x
  {
    (x + MAX_INT64 + 1) % (2 * (MAX_INT64 + 1)) - MAX_INT64 - 1
  }

  /** `1 << k` on a Duration: shifting by 64 or more leaves nothing. */
  function ShiftOne(k: nat): int {
    if k < 64 then Wrap64(Pow2(k)) else 0
  }

  /** The delay after attempt `k` has failed. */
  function Delay(cfg: RetryConfig, k: nat): int {
    var d := Wrap64(cfg.baseDelay * ShiftOne(k));
    if d > cfg.maxDelay then cfg.maxDelay else d
  }

  /** What an attempt brings: bytes or an error. Attempts beyond the list fail. */
  datatype Attempt = Got(data: Bytes) | Failed

  function AttemptAt(attempts: seq<Attempt>, k: nat): Attempt {
    if k < |attempts| then attempts[k] else Failed
  }

  /** Whether the context is done during the delay after attempt `k`. */
  predicate CancelledAt(cancels: seq<bool>, k: nat) {
    k < |cancels| && cancels[k]
  }

  /** The last attempt made: the first from `k` on that succeeds, is the last allowed, or is followed by a
      cancellation. */
  function LastAttempt(n: nat, attempts: seq<Attempt>, cancels: seq<bool>, k: nat): (s: nat)
    requires k < n
    ensures k <= s < n
    ensures AttemptAt(attempts, s).Got? || s == n - 1 || CancelledAt(cancels, s)
    ensures forall j :: k <= j < s ==> AttemptAt(attempts, j).Failed? && !CancelledAt(cancels, j)
    decreases n - k
  {
    if AttemptAt(attempts, k).Got? || k == n - 1 || CancelledAt(cancels, k) then k
    else LastAttempt(n, attempts, cancels, k + 1)
  }

  datatype RetryResult = Succeeded(data: Bytes) | Cancelled | Exhausted

  function RetryOutcome(n: int, attempts: seq<Attempt>, cancels: seq<bool>): RetryResult {
    if n <= 0 then Exhausted
    else
      var s := LastAttempt(n, attempts, cancels, 0);
      match AttemptAt(attempts, s)
      case Got(data) => Succeeded(data)
      case Failed => if s == n - 1 then Exhausted else Cancelled
  }

  method WithRetry(cfg: RetryConfig, attempts: seq<Attempt>, cancels: seq<bool>)
    returns (r: RetryResult, calls: nat, slept: seq<int>)
    ensures r == RetryOutcome(cfg.maxAttempts, attempts, cancels)
    ensures calls == if cfg.maxAttempts <= 0 then 0 else LastAttempt(cfg.maxAttempts, attempts, cancels, 0) + 1
    ensures |slept| == if calls == 0 then 0 else calls - 1
    ensures forall k :: 0 <= k < |slept| ==> slept[k] == Delay(cfg, k)
    ensures cfg == DEFAULT_CONFIG ==> |slept| <= 2
    ensures cfg == DEFAULT_CONFIG && |slept| > 0 ==> slept[0] == 200_000_000
    ensures cfg == DEFAULT_CONFIG && |slept| > 1 ==> slept[1] == 400_000_000
  {
    DefaultDelays();
    calls, slept := 0, [];
    var attempt := 0;
    while attempt < cfg.maxAttempts
      invariant 0 <= attempt && attempt == calls == |slept|
      invariant if cfg.maxAttempts > 0 then attempt < cfg.maxAttempts else attempt == 0
      invariant cfg.maxAttempts > 0 ==>
        LastAttempt(cfg.maxAttempts, attempts, cancels, 0) == LastAttempt(cfg.maxAttempts, attempts, cancels, attempt)
      invariant forall k :: 0 <= k < |slept| ==> slept[k] == Delay(cfg, k)
      decreases cfg.maxAttempts - attempt
    {
      calls := calls + 1;
      var outcome := AttemptAt(attempts, attempt);
      if outcome.Got? {
        return Succeeded(outcome.data), calls, slept;
      }
      if attempt < cfg.maxAttempts - 1 {
        var delay := Wrap64(cfg.baseDelay * ShiftOne(attempt));
        if delay > cfg.maxDelay {
          delay := cfg.maxDelay;
        }
        if CancelledAt(cancels, attempt) {
          return Cancelled, calls, slept;
        }
        slept := slept + [delay];
      } else {
        return Exhausted, calls, slept;
      }
      attempt := attempt + 1;
    }
    r := Exhausted;
  }

  // ---------- how often, and for how long ----------

  /** The bytes come from the first attempt that brings any, if it is among the first `n` and no delay before it
      is cancelled. */
  lemma SucceedsIff(n: int, attempts: seq<Attempt>, cancels: seq<bool>, data: Bytes)
    ensures RetryOutcome(n, attempts, cancels) == Succeeded(data) <==>
            exists k: nat :: k < n && k < |attempts| && attempts[k] == Got(data) &&
              forall j: nat :: j < k ==> attempts[j] == Failed && !(j < |cancels| && cancels[j])
  {
    if RetryOutcome(n, attempts, cancels) == Succeeded(data) {
      var s := LastAttempt(n, attempts, cancels, 0);
      forall j: nat | j < s ensures attempts[j] == Failed && !(j < |cancels| && cancels[j]) {
        assert AttemptAt(attempts, j).Failed? && !CancelledAt(cancels, j);
      }
    }
    if k: nat :| k < n && k < |attempts| && attempts[k] == Got(data) &&
                 forall j: nat :: j < k ==> attempts[j] == Failed && !(j < |cancels| && cancels[j]) {
      forall j: nat | j < k ensures AttemptAt(attempts, j).Failed? && !CancelledAt(cancels, j) {
        assert attempts[j] == Failed;
      }
      LastAttemptIs(n, attempts, cancels, 0, k);
    }
  }

  /** It ends by cancellation exactly if a delay is cancelled, not after the last attempt, before any attempt brings
      bytes. */
  lemma CancelledIff(n: int, attempts: seq<Attempt>, cancels: seq<bool>)
    ensures RetryOutcome(n, attempts, cancels) == Cancelled <==>
            exists k: nat :: k < n - 1 && k < |cancels| && cancels[k] &&
              forall j: nat :: j <= k && j < |attempts| ==> attempts[j] == Failed
  {
    if RetryOutcome(n, attempts, cancels) == Cancelled {
      var s := LastAttempt(n, attempts, cancels, 0);
      forall j: nat | j <= s && j < |attempts| ensures attempts[j] == Failed {
        assert AttemptAt(attempts, j).Failed?;
      }
    }
    if k: nat :| k < n - 1 && k < |cancels| && cancels[k] &&
                 forall j: nat :: j <= k && j < |attempts| ==> attempts[j] == Failed {
      EndsBy(n, attempts, cancels, 0, k);
    }
  }

  lemma {:induction false} EndsBy(n: nat, attempts: seq<Attempt>, cancels: seq<bool>, i: nat, k: nat)
    requires i <= k < n - 1 && CancelledAt(cancels, k)
    requires forall j: nat :: j <= k && j < |attempts| ==> attempts[j] == Failed
    ensures LastAttempt(n, attempts, cancels, i) <= k
    decreases k - i
  {
    if i < k && !CancelledAt(cancels, i) {
      EndsBy(n, attempts, cancels, i + 1, k);
    }
  }

  lemma {:induction false} LastAttemptIs(n: nat, attempts: seq<Attempt>, cancels: seq<bool>, i: nat, k: nat)
    requires i <= k < n && AttemptAt(attempts, k).Got?
    requires forall j: nat :: i <= j < k ==> AttemptAt(attempts, j).Failed? && !CancelledAt(cancels, j)
    ensures LastAttempt(n, attempts, cancels, i) == k
    decreases k - i
  {
    if i < k {
      LastAttemptIs(n, attempts, cancels, i + 1, k);
    }
  }

  /** Without cancellation the function runs up to its first success, or as often as allowed. */
  lemma CallsUntilSuccess(n: nat, attempts: seq<Attempt>, cancels: seq<bool>, first: nat)
    requires n > 0 && forall k :: !CancelledAt(cancels, k)
    requires forall k :: 0 <= k < first ==> AttemptAt(attempts, k).Failed?
    requires first < n ==> AttemptAt(attempts, first).Got?
    ensures LastAttempt(n, attempts, cancels, 0) + 1 == if first < n then first + 1 else n
    ensures RetryOutcome(n, attempts, cancels).Succeeded? <==> first < n
  {
  }

  lemma {:induction false} Pow2Monotone(j: nat, k: nat)
    requires j <= k
    ensures Pow2(j) <= Pow2(k)
    decreases k - j
  {
    if j < k {
      Pow2Monotone(j, k - 1);
    }
  }

  lemma Pow2Of63()
    ensures Pow2(63) == MAX_INT64 + 1
  {
    assert Pow2(8) == 256;
    assert Pow2(16) == 0x1_0000;
    assert Pow2(24) == 0x100_0000;
    assert Pow2(32) == 0x1_0000_0000;
    assert Pow2(40) == 0x100_0000_0000;
    assert Pow2(48) == 0x1_0000_0000_0000;
    assert Pow2(56) == 0x100_0000_0000_0000;
  }

  lemma MulMonotone(a: nat, x: int, y: int)
    requires x <= y
    ensures a * x <= a * y
  {
  }

  function Min(a: int, b: int): int {
    if a <= b then a else b
  }

  lemma ProductFits(base: nat, k: nat)
    requires base * Pow2(k) <= MAX_INT64
    ensures Wrap64(base * ShiftOne(k)) == base * Pow2(k)
  {
    if base > 0 {
      MulMonotone(Pow2(k), 1, base);
      Pow2Of63();
      if k >= 63 {
        Pow2Monotone(63, k);
        assert false;
      }
      Pow2Monotone(k, 62);
    }
  }

  /** The delay is the capped power of two exactly while the product fits 64 bits, or where the
      wrapped product happens to reach the cap. */
  lemma DelayFormulaIff(cfg: RetryConfig, k: nat)
    requires 0 <= cfg.baseDelay <= MAX_INT64 && 0 <= cfg.maxDelay <= MAX_INT64
    ensures Delay(cfg, k) == Min(cfg.baseDelay * Pow2(k), cfg.maxDelay) <==>
            cfg.baseDelay * Pow2(k) <= MAX_INT64 || Wrap64(cfg.baseDelay * ShiftOne(k)) >= cfg.maxDelay
  {
    if cfg.baseDelay * Pow2(k) <= MAX_INT64 {
      ProductFits(cfg.baseDelay, k);
    }
  }

  /** A base delay of 2^62 ns doubled once wraps round: no waiting at all where the cap is due. */
  lemma BackoffWraps()
    ensures var cfg := RetryConfig(3, 0x4000_0000_0000_0000, 5 * SECOND);
            Delay(cfg, 1) < 0 < cfg.maxDelay == Min(cfg.baseDelay * Pow2(1), cfg.maxDelay)
  {
    assert Pow2(1) == 2 && ShiftOne(1) == 2;
  }

  lemma DelaysGrow(cfg: RetryConfig, j: nat, k: nat)
    requires 0 <= cfg.baseDelay && 0 <= cfg.maxDelay && j <= k && cfg.baseDelay * Pow2(k) <= MAX_INT64
    ensures 0 <= Delay(cfg, j) <= Delay(cfg, k) == Min(cfg.baseDelay * Pow2(k), cfg.maxDelay)
  {
    Pow2Monotone(j, k);
    MulMonotone(cfg.baseDelay, Pow2(j), Pow2(k));
    ProductFits(cfg.baseDelay, j);
    ProductFits(cfg.baseDelay, k);
  }

  /** The delays before attempts 1 to `m`, together. */
  function TotalDelay(cfg: RetryConfig, m: nat): int {
    if m == 0 then 0 else TotalDelay(cfg, m - 1) + Delay(cfg, m - 1)
  }

  lemma Distribute(a: int, p: int, m: int, c: int)
    ensures a * (2 * p - 1) == a * (p - 1) + a * p
    ensures m * c == (m - 1) * c + c
  {
  }

  /** Together the first `m` delays stay below both the uncapped doubling and `m` caps. */
  lemma {:induction false} TotalDelayBound(cfg: RetryConfig, m: nat)
    requires 0 <= cfg.baseDelay && 0 <= cfg.maxDelay && (m > 0 ==> cfg.baseDelay * Pow2(m - 1) <= MAX_INT64)
    ensures 0 <= TotalDelay(cfg, m) <= Min(cfg.baseDelay * (Pow2(m) - 1), m * cfg.maxDelay)
  {
    if m > 0 {
      DelaysGrow(cfg, m - 1, m - 1);
      if m > 1 {
        Pow2Monotone(m - 2, m - 1);
        MulMonotone(cfg.baseDelay, Pow2(m - 2), Pow2(m - 1));
      }
      TotalDelayBound(cfg, m - 1);
      Distribute(cfg.baseDelay, Pow2(m - 1), m, cfg.maxDelay);
    }
  }

  /** By default there are three attempts, with 200 ms and then 400 ms between them. */
  lemma DefaultDelays()
    ensures DEFAULT_CONFIG.maxAttempts == 3
    ensures Delay(DEFAULT_CONFIG, 0) == 200_000_000 && Delay(DEFAULT_CONFIG, 1) == 400_000_000
  {
    assert Pow2(1) == 2;
    assert ShiftOne(0) == 1 && ShiftOne(1) == 2;
  }

  /** With the default configuration an operation waits 600 ms at most. */
  lemma DefaultTotalDelay(m: nat)
    requires m < DEFAULT_CONFIG.maxAttempts
    ensures 0 <= TotalDelay(DEFAULT_CONFIG, m) <= TotalDelay(DEFAULT_CONFIG, 2) == 600 * MILLISECOND
  {
    assert Pow2(1) == 2;
    assert ShiftOne(0) == 1 && ShiftOne(1) == 2;
    assert Delay(DEFAULT_CONFIG, 0) == 200 * MILLISECOND && Delay(DEFAULT_CONFIG, 1) == 400 * MILLISECOND;
    assert TotalDelay(DEFAULT_CONFIG, 1) == 200 * MILLISECOND;
  }
}
