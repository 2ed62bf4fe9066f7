/** `execute_with_retry`, `get`/`post` and `update_metrics` of src/utils/req_manager.rs. */
module RequestRetry {
  import opened Wrappers
  import opened RetryDelay

  const U32_MAX: nat := 0xFFFF_FFFF

  type Response = string
  type RequestError = string
  type Attempt = Result<Response, RequestError>

  datatype RetryConfig = RetryConfig(maxRetries: nat, initialDelay: nat, maxDelay: nat) {
    ghost predicate Valid() { maxRetries <= U32_MAX && initialDelay <= U64_MAX && maxDelay <= U64_MAX }

    /** `max_retries + 1` in `u32`. */
    function MaxAttempts(): nat { (maxRetries + 1) % (U32_MAX + 1) }

    /** Panics are ruled out by the configuration alone. */
    predicate Safe() { maxRetries < U32_MAX && (maxRetries > 0 ==> 4 <= initialDelay && 4 <= maxDelay) }

    /** The wait before a retry is the promised delay up to an eighth, unless that is near the end of the signed range. */
    ghost predicate SleepsAbout(attempt: nat, ms: nat)
      requires attempt >= 1
    {
      var c := Backoff(initialDelay, maxDelay, attempt);
      HasRoom(c) ==> 4 <= c && WithinAnEighth(c, Millis(ms))
    }
  }

  datatype Execution = Returned(result: Attempt) | Panicked

  class RequestMetrics {
    var total: nat
    var successful: nat
    var failed: nat
    var retries: nat
    var retrySuccesses: nat

    constructor ()
      ensures total == 0 && successful == 0 && failed == 0 && retries == 0 && retrySuccesses == 0
    {
      total, successful, failed, retries, retrySuccesses := 0, 0, 0, 0, 0;
    }
  }

  /** Index of the first success among the first `n` attempts, or `n`. */
  function FirstSuccess(attempts: nat -> Attempt, n: nat): (k: nat)
    ensures k <= n && (forall i: nat :: i < k ==> attempts(i).Err?) && (k < n ==> attempts(k).Ok?)
  {
    if n == 0 then 0 else
    var k := FirstSuccess(attempts, n - 1);
    if k < n - 1 || attempts(n - 1).Ok? then k else n
  }

  /** The first success, or else the last error. */
  function Outcome(attempts: nat -> Attempt, n: nat): Attempt
    requires n > 0
  {
    var k := FirstSuccess(attempts, n); if k < n then attempts(k) else attempts(n - 1)
  }

  function CallsMade(attempts: nat -> Attempt, n: nat): nat {
    var k := FirstSuccess(attempts, n); if k < n then k + 1 else n
  }

  ghost predicate AllFailed(attempts: nat -> Attempt, n: nat) { forall i: nat :: i < n ==> attempts(i).Err? }

  lemma OneMoreFailed(attempts: nat -> Attempt, n: nat)
    requires AllFailed(attempts, n) && attempts(n).Err?
    ensures AllFailed(attempts, n + 1)
  {
  }

  lemma OutcomeIsSuccess(attempts: nat -> Attempt, n: nat, k: nat)
    requires k < n && attempts(k).Ok? && AllFailed(attempts, k)
    ensures Outcome(attempts, n) == attempts(k) && CallsMade(attempts, n) == k + 1
  {
    assert FirstSuccess(attempts, n) == k;
  }

  lemma OutcomeIsFailure(attempts: nat -> Attempt, n: nat)
    requires n > 0 && AllFailed(attempts, n)
    ensures Outcome(attempts, n) == attempts(n - 1) && CallsMade(attempts, n) == n
  {
    assert FirstSuccess(attempts, n) == n;
  }

  /** The k-th sleep is about the k-th promised delay. */
  ghost predicate SleepsFollow(config: RetryConfig, sleeps: seq<nat>) {
    forall k :: 0 <= k < |sleeps| ==> config.SleepsAbout(k + 1, sleeps[k])
  }

  lemma SleepOnce(config: RetryConfig, sleeps: seq<nat>, ms: nat)
    requires SleepsFollow(config, sleeps) && config.SleepsAbout(|sleeps| + 1, ms)
    ensures SleepsFollow(config, sleeps + [ms])
  {
  }

  /**
    For every sequence of answers: a call panics exactly when the retry count is `u32::MAX` (the attempt bound
    wraps to zero and the unwrap of the missing error fails) or a first retry is due and its delay would be under
    4 ms. Otherwise it makes between 1 and `max_retries + 1` requests and returns the first success or the last
    error, having counted each further request as a retry and slept before it: within an eighth of the promised delay,
    which doubles from retry to retry up to the maximum.
   */
  method ExecuteWithRetry(config: RetryConfig, attempts: nat -> Attempt, clock: nat -> nat, metrics: RequestMetrics)
    returns (e: Execution, calls: nat, sleeps: seq<nat>)
    requires config.Valid()
    modifies metrics`retries, metrics`retrySuccesses
    ensures e.Panicked? <==>
      config.maxRetries == U32_MAX || (config.maxRetries > 0 && attempts(0).Err? && (config.initialDelay < 4 || config.maxDelay < 4))
    ensures e.Returned? ==>
      && e.result == Outcome(attempts, config.maxRetries + 1)
      && calls == CallsMade(attempts, config.maxRetries + 1)
      && metrics.retries == old(metrics.retries) + calls - 1
      && metrics.retrySuccesses == old(metrics.retrySuccesses) + (if e.result.Ok? && calls > 1 then 1 else 0)
    ensures calls <= config.maxRetries + 1 && (config.maxRetries < U32_MAX ==> calls >= 1)
    ensures e.Returned? ==> |sleeps| == calls - 1
    ensures SleepsFollow(config, sleeps)
  {
    var attempt := 0;
    var maxAttempts := config.MaxAttempts();
    var lastError: Option<RequestError> := None;
    calls, sleeps := 0, [];
    while attempt < maxAttempts
      invariant 0 <= attempt <= maxAttempts && calls == attempt
      invariant AllFailed(attempts, attempt) && (attempt > 0 ==> attempts(0).Err?)
      invariant lastError.Some? <==> attempt > 0
      invariant attempt > 0 ==> attempts(attempt - 1) == Err(lastError.value)
      invariant attempt > 0 && maxAttempts > 1 ==> 4 <= config.initialDelay && 4 <= config.maxDelay
      invariant metrics.retries == old(metrics.retries) + |sleeps|
      invariant metrics.retrySuccesses == old(metrics.retrySuccesses)
      invariant |sleeps| == if attempt == maxAttempts && attempt > 0 then attempt - 1 else attempt
      invariant SleepsFollow(config, sleeps)
    {
      var answer := attempts(attempt);
      calls := calls + 1;
      if answer.Ok? {
        if attempt > 0 { metrics.retrySuccesses := metrics.retrySuccesses + 1; }
        OutcomeIsSuccess(attempts, maxAttempts, attempt);
        return Returned(answer), calls, sleeps;
      }
      lastError := Some(answer.error);
      OneMoreFailed(attempts, attempt);
      attempt := attempt + 1;
      if attempt < maxAttempts {
        metrics.retries := metrics.retries + 1;
        var slept := Sleep(config, attempt, clock(attempt), sleeps);
        if slept.None? { return Panicked, calls, sleeps; }
        sleeps := slept.value;
      }
    }
    assert config.maxRetries < U32_MAX ==> maxAttempts == config.maxRetries + 1;
    if lastError.None? { return Panicked, calls, sleeps; }
    OutcomeIsFailure(attempts, maxAttempts);
    return Returned(Err(lastError.value)), calls, sleeps;
  }

  method BackOff(config: RetryConfig, attempt: nat, nanos: nat) returns (delay: Delay)
    requires config.Valid() && attempt >= 1
    ensures delay.DivisionByZero? ==> config.initialDelay < 4 || config.maxDelay < 4
    ensures attempt == 1 && delay.Millis? ==> 4 <= config.initialDelay && 4 <= config.maxDelay
    ensures delay.Millis? ==> config.SleepsAbout(attempt, delay.ms)
  {
    RetryDelayPanicsIff(config.initialDelay, config.maxDelay, nanos);
    DelayFollowsBackoff(config.initialDelay, config.maxDelay, attempt, nanos);
    var c := Backoff(config.initialDelay, config.maxDelay, attempt);
    JitterSafeIff(c);
    if 4 <= c && HasRoom(c) { JitterIsBounded(c, nanos); }
    delay := RetryDelayAt(config.initialDelay, config.maxDelay, attempt, nanos);
  }

  /** One more sleep, unless its delay cannot be computed. */
  method Sleep(config: RetryConfig, attempt: nat, nanos: nat, sleeps: seq<nat>) returns (slept: Option<seq<nat>>)
    requires config.Valid() && attempt >= 1 && |sleeps| == attempt - 1 && SleepsFollow(config, sleeps)
    ensures slept.None? ==> config.initialDelay < 4 || config.maxDelay < 4
    ensures attempt == 1 && slept.Some? ==> 4 <= config.initialDelay && 4 <= config.maxDelay
    ensures slept.Some? ==> |slept.value| == attempt && SleepsFollow(config, slept.value)
  {
    var delay := BackOff(config, attempt, nanos);
    if delay.DivisionByZero? { return None; }
    SleepOnce(config, sleeps, delay.ms);
    slept := Some(sleeps + [delay.ms]);
  }

  /** `get` and `post`: one counted call. A panic leaves it counted as made, but neither as successful nor as failed. */
  method Request(config: RetryConfig, attempts: nat -> Attempt, clock: nat -> nat, metrics: RequestMetrics) returns (e: Execution)
    requires config.Valid()
    modifies metrics
    ensures e.Panicked? <==>
      config.maxRetries == U32_MAX || (config.maxRetries > 0 && attempts(0).Err? && (config.initialDelay < 4 || config.maxDelay < 4))
    ensures e.Returned? ==> e.result == Outcome(attempts, config.maxRetries + 1)
    ensures metrics.total == old(metrics.total) + 1
    ensures metrics.successful == old(metrics.successful) + (if e.Returned? && e.result.Ok? then 1 else 0)
    ensures metrics.failed == old(metrics.failed) + (if e.Returned? && e.result.Err? then 1 else 0)
    ensures e.Returned? ==>
      var calls := CallsMade(attempts, config.maxRetries + 1);
      && metrics.retries == old(metrics.retries) + calls - 1
      && metrics.retrySuccesses == old(metrics.retrySuccesses) + (if e.result.Ok? && calls > 1 then 1 else 0)
  {
    metrics.total := metrics.total + 1;
    var calls, sleeps;
    e, calls, sleeps := ExecuteWithRetry(config, attempts, clock, metrics);
    if e.Panicked? { return; }
    UpdateMetrics(e.result, metrics);
  }

  method UpdateMetrics(result: Attempt, metrics: RequestMetrics)
    modifies metrics`successful, metrics`failed
    ensures metrics.successful == old(metrics.successful) + (if result.Ok? then 1 else 0)
    ensures metrics.failed == old(metrics.failed) + (if result.Err? then 1 else 0)
  {
    if result.Ok? { metrics.successful := metrics.successful + 1; } else { metrics.failed := metrics.failed + 1; }
  }

  /** What the outcome means, without the loop. */
  lemma OutcomeSpec(attempts: nat -> Attempt, n: nat)
    requires n > 0
    ensures Outcome(attempts, n).Ok? <==> exists i: nat :: i < n && attempts(i).Ok?
    ensures 1 <= CallsMade(attempts, n) <= n
    ensures Outcome(attempts, n) == attempts(CallsMade(attempts, n) - 1)
    ensures forall i: nat :: i < CallsMade(attempts, n) - 1 ==> attempts(i).Err?
    ensures CallsMade(attempts, n) < n ==> Outcome(attempts, n).Ok?
  {
    var k := FirstSuccess(attempts, n);
    if k < n { assert attempts(k).Ok?; }
  }
}
