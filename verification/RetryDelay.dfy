/** `calculate_retry_delay` of src/utils/req_manager.rs, with its fixed-width integers. */
module RetryDelay {
  const U64_MAX: nat := 0xFFFF_FFFF_FFFF_FFFF
  const I64_MAX: nat := 0x7FFF_FFFF_FFFF_FFFF
  const TWO_64: nat := 0x1_0000_0000_0000_0000

  function Min(a: nat, b: nat): nat { if a < b then a else b }

  function Pow2(n: nat): (r: nat)
    ensures r > 0
  {
    if n == 0 then 1 else 2 * Pow2(n - 1)
  }

  function SaturatingMul(a: nat, b: nat): nat { Min(a * b, U64_MAX) }

  function SaturatingPow2(n: nat): nat { Min(Pow2(n), U64_MAX) }

  function SaturatingSub(a: nat, b: nat): nat { if a < b then 0 else a - b }

  /** The capped exponential delay, as the source computes it in saturating `u64` arithmetic. */
  function CappedDelay(baseDelay: nat, maxDelay: nat, attempt: nat): nat {
    Min(SaturatingMul(baseDelay, SaturatingPow2(SaturatingSub(attempt, 1))), maxDelay)
  }

  /** Saturation is invisible: the result is the capped delay over unbounded integers. */
  lemma CappedDelayIsExact(baseDelay: nat, maxDelay: nat, attempt: nat)
    requires baseDelay <= U64_MAX && maxDelay <= U64_MAX && attempt >= 1
    ensures CappedDelay(baseDelay, maxDelay, attempt) == Min(baseDelay * Pow2(attempt - 1), maxDelay)
  {
    var p := Pow2(attempt - 1);
    if p > U64_MAX {
      if baseDelay > 0 {
        MulAtLeast(baseDelay, p);
        MulAtLeast(baseDelay, U64_MAX);
      }
    }
  }

  lemma MulAtLeast(a: nat, b: nat)
    requires a > 0
    ensures a * b >= b
  {
    assert a * b == (a - 1) * b + b;
  }

  lemma {:induction false} CappedDelayGrows(baseDelay: nat, maxDelay: nat, attempt: nat)
    requires baseDelay <= U64_MAX && maxDelay <= U64_MAX && attempt >= 1
    ensures Min(baseDelay, maxDelay) <= CappedDelay(baseDelay, maxDelay, attempt) <= maxDelay
  {
    CappedDelayIsExact(baseDelay, maxDelay, attempt);
    MulAtLeast(Pow2(attempt - 1), baseDelay);
  }

  // ---- Jitter ----

  /** A value in the two's-complement range, wrapped as `as i64` and unchecked `i64` addition wrap. */
  function WrapI64(x: int): int {
    var m := x % TWO_64;
    if m > I64_MAX then m - TWO_64 else m
  }

  datatype Delay = DivisionByZero | Millis(ms: nat)

  /** Jitter from the clock's nanoseconds; the remainder by a zero range is a panic. */
  function JitteredDelay(delayMs: nat, nanos: nat): Delay {
    var range := delayMs / 4;
    if range == 0 then DivisionByZero else
    Shifted(delayMs, WrapI64(nanos % range) - WrapI64(range) / 2)
  }

  function Shifted(delayMs: nat, jitter: int): Delay {
    var delay := WrapI64(WrapI64(delayMs) + jitter);
    Millis(if delay < 0 then 0 else delay)
  }

  lemma WrapI64Small(x: nat)
    requires x <= I64_MAX
    ensures WrapI64(x) == x
  {
  }

  /** At most an eighth of the delay either way. */
  ghost predicate WithinAnEighth(delayMs: nat, d: Delay) {
    d.Millis? && delayMs - delayMs / 8 <= d.ms <= delayMs + delayMs / 8
  }

  function LargestJitter(delayMs: nat): int { delayMs / 4 - 1 - delayMs / 4 / 2 }

  lemma JitterIsBounded(delayMs: nat, nanos: nat)
    requires 4 <= delayMs && delayMs + LargestJitter(delayMs) <= I64_MAX
    ensures WithinAnEighth(delayMs, JitteredDelay(delayMs, nanos))
    ensures JitteredDelay(delayMs, nanos).ms == delayMs + nanos % (delayMs / 4) - delayMs / 4 / 2 > 0
  {
    var range := delayMs / 4;
    var drawn := nanos % range;
    assert 0 <= drawn < range;
    WrapI64Small(range);
    WrapI64Small(drawn);
    ShiftedIsBounded(delayMs, drawn);
  }

  lemma ShiftedIsBounded(delayMs: nat, drawn: nat)
    requires 4 <= delayMs && delayMs + LargestJitter(delayMs) <= I64_MAX && drawn < delayMs / 4
    ensures var d := Shifted(delayMs, drawn - delayMs / 4 / 2);
      WithinAnEighth(delayMs, d) && d.ms == delayMs + drawn - delayMs / 4 / 2 > 0
  {
    WrapI64Small(delayMs);
    WrapI64Small(delayMs + drawn - delayMs / 4 / 2);
  }

  /** What the signed arithmetic makes of any delay: right as far as it reaches, then no wait at all, then a wrapped one. */
  lemma ShiftedIs(delayMs: nat, drawn: nat)
    requires 4 <= delayMs <= U64_MAX && drawn < delayMs / 4
    ensures var exact := delayMs + drawn - delayMs / 4 / 2;
      Shifted(delayMs, drawn - delayMs / 4 / 2) ==
      Millis(if exact <= I64_MAX then exact else if exact < TWO_64 then 0 else exact - TWO_64)
  {
    var exact := delayMs + drawn - delayMs / 4 / 2;
    assert 0 < exact < 2 * TWO_64;
    if delayMs <= I64_MAX { WrapI64Small(delayMs); } else { assert WrapI64(delayMs) == delayMs - TWO_64; }
    WrapPeriod(exact - TWO_64);
    WrapPositive(exact);
  }

  lemma WrapPeriod(x: int)
    ensures WrapI64(x) == WrapI64(x + TWO_64)
  {
  }

  lemma WrapPositive(x: nat)
    requires x < TWO_64 + I64_MAX
    ensures WrapI64(x) == if x <= I64_MAX then x else x - TWO_64
  {
    if x > I64_MAX && x < TWO_64 { WrapPeriod(x - TWO_64); }
  }

  lemma ModSmall(a: nat, n: nat)
    requires a < n
    ensures a % n == a
  {
  }

  lemma UnboundedJitter(delayMs: nat)
    requires 4 <= delayMs <= U64_MAX && delayMs + LargestJitter(delayMs) > I64_MAX
    ensures !WithinAnEighth(delayMs, JitteredDelay(delayMs, delayMs / 4 - 1))
  {
    var range := delayMs / 4;
    ModSmall(range - 1, range);
    WrapI64Small(range);
    WrapI64Small(range - 1);
    UnboundedShift(delayMs);
  }

  lemma UnboundedShift(delayMs: nat)
    requires 4 <= delayMs <= U64_MAX && delayMs + LargestJitter(delayMs) > I64_MAX
    ensures !WithinAnEighth(delayMs, Shifted(delayMs, LargestJitter(delayMs)))
  {
    var jitter := LargestJitter(delayMs);
    assert 0 <= jitter <= delayMs / 8;
    if delayMs <= I64_MAX {
      WrapI64Small(delayMs);
      assert WrapI64(delayMs + jitter) == delayMs + jitter - TWO_64 < 0;
    } else {
      assert WrapI64(delayMs) == delayMs - TWO_64;
      assert WrapI64(delayMs - TWO_64 + jitter) == delayMs - TWO_64 + jitter;
    }
  }

  /**
    Whatever the clock reads, the jittered delay exists and stays within an eighth of the capped delay (so the
    clamp at zero never acts) exactly when the capped delay is at least 4 ms and leaves `i64` room for the
    largest jitter. Below 4 ms the jitter range is zero and the remainder panics.
   */
  lemma JitterSafeIff(delayMs: nat)
    requires delayMs <= U64_MAX
    ensures (forall nanos: nat :: nanos <= U64_MAX ==> WithinAnEighth(delayMs, JitteredDelay(delayMs, nanos)))
       <==> 4 <= delayMs && delayMs + LargestJitter(delayMs) <= I64_MAX
    ensures forall nanos: nat :: JitteredDelay(delayMs, nanos).DivisionByZero? <==> delayMs < 4
  {
    if 4 <= delayMs {
      if delayMs + LargestJitter(delayMs) <= I64_MAX {
        forall nanos: nat ensures WithinAnEighth(delayMs, JitteredDelay(delayMs, nanos)) {
          JitterIsBounded(delayMs, nanos);
        }
      } else {
        UnboundedJitter(delayMs);
        assert delayMs / 4 - 1 <= U64_MAX;
      }
    } else {
      assert !WithinAnEighth(delayMs, JitteredDelay(delayMs, 0));
    }
  }

  function RetryDelayAt(baseDelay: nat, maxDelay: nat, attempt: nat, nanos: nat): Delay {
    JitteredDelay(CappedDelay(baseDelay, maxDelay, attempt), nanos)
  }

  /** No attempt's delay panics exactly when both configured delays are at least 4 ms. */
  lemma RetryDelayPanicsIff(baseDelay: nat, maxDelay: nat, nanos: nat)
    requires baseDelay <= U64_MAX && maxDelay <= U64_MAX
    ensures (forall attempt: nat :: attempt >= 1 ==> RetryDelayAt(baseDelay, maxDelay, attempt, nanos).Millis?)
       <==> 4 <= baseDelay && 4 <= maxDelay
    ensures RetryDelayAt(baseDelay, maxDelay, 1, nanos).Millis? <==> 4 <= baseDelay && 4 <= maxDelay
  {
    CappedDelayIsExact(baseDelay, maxDelay, 1);
    if 4 <= baseDelay && 4 <= maxDelay {
      forall attempt: nat | attempt >= 1 ensures RetryDelayAt(baseDelay, maxDelay, attempt, nanos).Millis? {
        CappedDelayGrows(baseDelay, maxDelay, attempt);
      }
    } else {
      assert Pow2(0) == 1;
      assert !RetryDelayAt(baseDelay, maxDelay, 1, nanos).Millis?;
    }
  }

  // ---- How long a retry waits ----

  /** The delays a caller is promised: the base, doubled from one retry to the next, and never more than the maximum. */
  ghost function Backoff(baseDelay: nat, maxDelay: nat, attempt: nat): nat
    requires attempt >= 1
  {
    var c := if attempt == 1 then baseDelay else 2 * Backoff(baseDelay, maxDelay, attempt - 1);
    if c <= maxDelay then c else maxDelay
  }

  lemma {:induction false} BackoffIsCapped(baseDelay: nat, maxDelay: nat, attempt: nat)
    requires attempt >= 1
    ensures Backoff(baseDelay, maxDelay, attempt) == Min(baseDelay * Pow2(attempt - 1), maxDelay)
  {
    if attempt > 1 {
      BackoffIsCapped(baseDelay, maxDelay, attempt - 1);
      TwiceProduct(baseDelay, Pow2(attempt - 2));
    } else {
      assert Pow2(0) == 1;
    }
  }

  lemma TwiceProduct(a: nat, p: nat)
    ensures a * (2 * p) == 2 * (a * p)
  {
  }

  /** The saturating arithmetic yields exactly those delays. */
  lemma DelayFollowsBackoff(baseDelay: nat, maxDelay: nat, attempt: nat, nanos: nat)
    requires baseDelay <= U64_MAX && maxDelay <= U64_MAX && attempt >= 1
    ensures RetryDelayAt(baseDelay, maxDelay, attempt, nanos) == JitteredDelay(Backoff(baseDelay, maxDelay, attempt), nanos)
    ensures Backoff(baseDelay, maxDelay, attempt) <= maxDelay
  {
    CappedDelayIsExact(baseDelay, maxDelay, attempt);
    BackoffIsCapped(baseDelay, maxDelay, attempt);
  }

  /** Room for the largest jitter in the signed arithmetic. */
  ghost predicate HasRoom(delayMs: nat) { delayMs + LargestJitter(delayMs) <= I64_MAX }

  ghost predicate SafeAt(baseDelay: nat, maxDelay: nat, attempt: nat, nanos: nat)
    requires attempt >= 1
  {
    WithinAnEighth(Backoff(baseDelay, maxDelay, attempt), RetryDelayAt(baseDelay, maxDelay, attempt, nanos))
  }

  /**
    Whatever the clock reads, the k-th retry waits within an eighth of the k-th promised delay, exactly when that is at
    least 4 ms and leaves room for the jitter.
   */
  lemma RetryDelayIsBackoff(baseDelay: nat, maxDelay: nat, attempt: nat)
    requires baseDelay <= U64_MAX && maxDelay <= U64_MAX && attempt >= 1
    ensures (forall nanos: nat :: nanos <= U64_MAX ==> SafeAt(baseDelay, maxDelay, attempt, nanos))
      <==> 4 <= Backoff(baseDelay, maxDelay, attempt) && HasRoom(Backoff(baseDelay, maxDelay, attempt))
  {
    var c := Backoff(baseDelay, maxDelay, attempt);
    JitterSafeIff(c);
    forall nanos: nat ensures SafeAt(baseDelay, maxDelay, attempt, nanos) <==> WithinAnEighth(c, JitteredDelay(c, nanos)) {
      DelayFollowsBackoff(baseDelay, maxDelay, attempt, nanos);
    }
    if forall nanos: nat :: nanos <= U64_MAX ==> SafeAt(baseDelay, maxDelay, attempt, nanos) {
      forall nanos: nat | nanos <= U64_MAX ensures WithinAnEighth(c, JitteredDelay(c, nanos)) {
        assert SafeAt(baseDelay, maxDelay, attempt, nanos);
      }
    }
  }
}
