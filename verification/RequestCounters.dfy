/**
  The request counters of src/utils/req_manager.rs under any interleaving of `get`/`post` calls. A call can end without
  being counted: its future may be dropped, or a retry delay under 4 ms or a wrapped attempt bound may make it panic.
 */
module RequestCounters {
  import opened Wrappers
  import opened Counting
  import opened RequestRetry

  /**
    `Returning` is a call whose request loop has ended but whose result is not yet counted. The source has no await
    point there, so a future cannot be dropped in that phase; the model allows it all the same. A lost call had returned
    an answer or none.
   */
  datatype Phase = Running | Returning(ok: bool) | Done(ok: bool) | Lost(answer: Option<bool>)

  /** `attempt` is the loop's counter of failed attempts so far. */
  datatype Call = Call(attempt: nat, phase: Phase)

  datatype State = State(calls: seq<Call>, total: nat, successful: nat, failed: nat, retries: nat, retrySuccesses: nat)

  const Init := State([], 0, 0, 0, 0, 0)

  datatype Action = Start | Succeed(i: nat) | Fail(i: nat) | Count(i: nat) | Abandon(i: nat) | Panic(i: nat)

  predicate Enabled(config: RetryConfig, s: State, a: Action) {
    match a
    case Start => true
    case Succeed(i) => i < |s.calls| && s.calls[i].phase.Running?
    case Fail(i) => i < |s.calls| && s.calls[i].phase.Running?
    case Count(i) => i < |s.calls| && s.calls[i].phase.Returning?
    case Abandon(i) => i < |s.calls| && (s.calls[i].phase.Running? || s.calls[i].phase.Returning?)
    case Panic(i) => i < |s.calls| && s.calls[i].phase.Running? && !config.Safe()
  }

  function Next(config: RetryConfig, s: State, a: Action): State
    requires Enabled(config, s, a)
  {
    match a
    case Start => s.(calls := s.calls + [Call(0, Running)], total := s.total + 1)
    case Succeed(i) =>
      var c := s.calls[i];
      s.(calls := s.calls[i := c.(phase := Returning(true))],
         retrySuccesses := if c.attempt > 0 then s.retrySuccesses + 1 else s.retrySuccesses)
    case Fail(i) =>
      var c := s.calls[i];
      if c.attempt < config.maxRetries then
        s.(calls := s.calls[i := c.(attempt := c.attempt + 1)], retries := s.retries + 1)
      else s.(calls := s.calls[i := c.(phase := Returning(false))])
    case Count(i) =>
      var c := s.calls[i];
      if c.phase.ok then s.(calls := s.calls[i := c.(phase := Done(true))], successful := s.successful + 1)
      else s.(calls := s.calls[i := c.(phase := Done(false))], failed := s.failed + 1)
    case Abandon(i) =>
      var c := s.calls[i];
      s.(calls := s.calls[i := c.(phase := Lost(if c.phase.Returning? then Some(c.phase.ok) else None))])
    case Panic(i) => s.(calls := s.calls[i := s.calls[i].(phase := Lost(None))])
  }

  function Attempts(c: Call): nat { c.attempt }
  function Succeeded(c: Call): nat { if c.phase == Done(true) then 1 else 0 }
  function Failed(c: Call): nat { if c.phase == Done(false) then 1 else 0 }
  function IsLost(c: Call): nat { if c.phase.Lost? then 1 else 0 }
  function LostSuccess(c: Call): nat { if c.phase == Lost(Some(true)) then 1 else 0 }
  function Counted(c: Call): nat { Succeeded(c) + Failed(c) }
  function MaybeSucceeded(c: Call): nat { Succeeded(c) + LostSuccess(c) }

  function RetrySucceeded(c: Call): nat {
    if (c.phase == Returning(true) || c.phase == Done(true) || c.phase == Lost(Some(true))) && c.attempt > 0 then 1 else 0
  }

  ghost predicate Invariant(config: RetryConfig, s: State) {
    && s.total == |s.calls|
    && s.successful == Sum(s.calls, Succeeded)
    && s.failed == Sum(s.calls, Failed)
    && s.retries == Sum(s.calls, Attempts)
    && s.retrySuccesses == Sum(s.calls, RetrySucceeded)
    && forall i :: 0 <= i < |s.calls| ==> s.calls[i].attempt <= config.maxRetries
  }

  lemma StepKeepsInvariant(config: RetryConfig, s: State, a: Action)
    requires Invariant(config, s) && Enabled(config, s, a)
    ensures Invariant(config, Next(config, s, a))
  {
    if a.Start? {
      StartCounts(s);
    } else {
      StepCounts(config, s, a);
    }
  }

  lemma StartCounts(s: State)
    ensures var calls := s.calls + [Call(0, Running)];
      && Sum(calls, Succeeded) == Sum(s.calls, Succeeded) && Sum(calls, Failed) == Sum(s.calls, Failed)
      && Sum(calls, Attempts) == Sum(s.calls, Attempts) && Sum(calls, RetrySucceeded) == Sum(s.calls, RetrySucceeded)
  {
    var c := Call(0, Running);
    SumAppend(s.calls, c, Succeeded);
    SumAppend(s.calls, c, Failed);
    SumAppend(s.calls, c, Attempts);
    SumAppend(s.calls, c, RetrySucceeded);
  }

  lemma StepCounts(config: RetryConfig, s: State, a: Action)
    requires Enabled(config, s, a) && !a.Start?
    ensures var s' := Next(config, s, a); var b, c := s.calls[a.i], Next(config, s, a).calls[a.i];
      && Sum(s'.calls, Succeeded) + Succeeded(b) == Sum(s.calls, Succeeded) + Succeeded(c)
      && Sum(s'.calls, Failed) + Failed(b) == Sum(s.calls, Failed) + Failed(c)
      && Sum(s'.calls, Attempts) + Attempts(b) == Sum(s.calls, Attempts) + Attempts(c)
      && Sum(s'.calls, RetrySucceeded) + RetrySucceeded(b) == Sum(s.calls, RetrySucceeded) + RetrySucceeded(c)
  {
    var c := Next(config, s, a).calls[a.i];
    assert Next(config, s, a).calls == s.calls[a.i := c];
    SumUpdate(s.calls, a.i, c, Succeeded);
    SumUpdate(s.calls, a.i, c, Failed);
    SumUpdate(s.calls, a.i, c, Attempts);
    SumUpdate(s.calls, a.i, c, RetrySucceeded);
  }

  ghost predicate Legal(config: RetryConfig, s: State, actions: seq<Action>)
    decreases |actions|
  {
    |actions| > 0 ==> Enabled(config, s, actions[0]) && Legal(config, Next(config, s, actions[0]), actions[1..])
  }

  ghost function Run(config: RetryConfig, s: State, actions: seq<Action>): State
    requires Legal(config, s, actions)
    decreases |actions|
  {
    if |actions| == 0 then s else Run(config, Next(config, s, actions[0]), actions[1..])
  }

  lemma {:induction false} RunKeepsInvariant(config: RetryConfig, s: State, actions: seq<Action>)
    requires Invariant(config, s) && Legal(config, s, actions)
    ensures Invariant(config, Run(config, s, actions))
    decreases |actions|
  {
    if |actions| > 0 {
      StepKeepsInvariant(config, s, actions[0]);
      RunKeepsInvariant(config, Next(config, s, actions[0]), actions[1..]);
    }
  }

  ghost predicate NothingInFlight(s: State) {
    forall i :: 0 <= i < |s.calls| ==> s.calls[i].phase.Done? || s.calls[i].phase.Lost?
  }

  ghost predicate NoneLost(s: State) { forall i :: 0 <= i < |s.calls| ==> !s.calls[i].phase.Lost? }

  lemma LostIff(s: State)
    ensures Sum(s.calls, IsLost) == 0 <==> NoneLost(s)
  {
    if NoneLost(s) {
      SumZero(s.calls, IsLost);
    } else {
      var i :| 0 <= i < |s.calls| && s.calls[i].phase.Lost?;
      SumMember(s.calls, i, IsLost);
    }
  }

  /**
    In every state with no call in flight the counters account for each other up to the calls that were lost, and total
    is successful plus failed exactly when none was.
   */
  lemma QuiescentCounters(config: RetryConfig, actions: seq<Action>)
    requires Legal(config, Init, actions) && NothingInFlight(Run(config, Init, actions))
    ensures var s := Run(config, Init, actions);
      && s.total == s.successful + s.failed + Sum(s.calls, IsLost)
      && (s.total == s.successful + s.failed <==> NoneLost(s))
      && s.retries <= config.maxRetries * s.total
      && s.retrySuccesses <= s.successful + Sum(s.calls, LostSuccess)
      && s.retrySuccesses <= s.retries
  {
    RunKeepsInvariant(config, Init, actions);
    var s := Run(config, Init, actions);
    SumOnes(s.calls, Counted, IsLost);
    SumOfSum(s.calls, Succeeded, Failed, Counted);
    LostIff(s);
    SumBound(s.calls, Attempts, config.maxRetries);
    SumMonotone(s.calls, RetrySucceeded, MaybeSucceeded);
    SumOfSum(s.calls, Succeeded, LostSuccess, MaybeSucceeded);
    SumMonotone(s.calls, RetrySucceeded, Attempts);
  }

  ghost predicate DroppedAtAwait(config: RetryConfig, s: State, actions: seq<Action>)
    requires Legal(config, s, actions)
    decreases |actions|
  {
    |actions| > 0 ==>
      && (actions[0].Abandon? ==> s.calls[actions[0].i].phase.Running?)
      && DroppedAtAwait(config, Next(config, s, actions[0]), actions[1..])
  }

  lemma {:induction false} NoSuccessLost(config: RetryConfig, s: State, actions: seq<Action>)
    requires Legal(config, s, actions) && DroppedAtAwait(config, s, actions)
    requires forall i :: 0 <= i < |s.calls| ==> s.calls[i].phase != Lost(Some(true))
    ensures forall i :: 0 <= i < |Run(config, s, actions).calls| ==> Run(config, s, actions).calls[i].phase != Lost(Some(true))
    decreases |actions|
  {
    if |actions| > 0 { NoSuccessLost(config, Next(config, s, actions[0]), actions[1..]); }
  }

  /** Futures are only dropped where they await, and there no success is lost: retry successes are successes. */
  lemma RetrySuccessesAreSuccesses(config: RetryConfig, actions: seq<Action>)
    requires Legal(config, Init, actions) && NothingInFlight(Run(config, Init, actions))
    requires DroppedAtAwait(config, Init, actions)
    ensures Run(config, Init, actions).retrySuccesses <= Run(config, Init, actions).successful
  {
    QuiescentCounters(config, actions);
    NoSuccessLost(config, Init, actions);
    SumZero(Run(config, Init, actions).calls, LostSuccess);
  }

  /**
    Whatever else happens, a call can start, and one that has not ended can be dropped; it can panic exactly if its retry count
    is `u32::MAX` or it may retry with a delay under 4 ms.
   */
  lemma FaultsComeAnyTime(config: RetryConfig, s: State, i: nat)
    requires config.Valid()
    ensures Enabled(config, s, Start)
    ensures Enabled(config, s, Abandon(i)) <==> i < |s.calls| && !s.calls[i].phase.Done? && !s.calls[i].phase.Lost?
    ensures Enabled(config, s, Panic(i)) <==>
      && i < |s.calls| && s.calls[i].phase.Running?
      && (config.maxRetries == 0xFFFF_FFFF || (config.maxRetries > 0 && (config.initialDelay < 4 || config.maxDelay < 4)))
  {
  }

  // ---- The counters against the answers ----

  function Succeeds(a: Action): nat { if a.Succeed? then 1 else 0 }
  function Fails(a: Action): nat { if a.Fail? then 1 else 0 }
  function Starts(a: Action): nat { if a.Start? then 1 else 0 }

  function SawSuccess(c: Call): nat { if c.phase in {Returning(true), Done(true), Lost(Some(true))} then 1 else 0 }
  function SawLastFailure(c: Call): nat { if c.phase in {Returning(false), Done(false), Lost(Some(false))} then 1 else 0 }
  function LostFailure(c: Call): nat { if c.phase == Lost(Some(false)) then 1 else 0 }

  lemma StepAnswers(config: RetryConfig, s: State, a: Action)
    requires Enabled(config, s, a)
    ensures var s' := Next(config, s, a);
      && Sum(s'.calls, SawSuccess) == Sum(s.calls, SawSuccess) + Succeeds(a)
      && s'.retries + Sum(s'.calls, SawLastFailure) == s.retries + Sum(s.calls, SawLastFailure) + Fails(a)
      && s'.total == s.total + Starts(a)
  {
    if a.Start? {
      SumAppend(s.calls, Call(0, Running), SawSuccess);
      SumAppend(s.calls, Call(0, Running), SawLastFailure);
    } else {
      var c := Next(config, s, a).calls[a.i];
      assert Next(config, s, a).calls == s.calls[a.i := c];
      SumUpdate(s.calls, a.i, c, SawSuccess);
      SumUpdate(s.calls, a.i, c, SawLastFailure);
    }
  }

  lemma {:induction false} RunAnswers(config: RetryConfig, s: State, actions: seq<Action>)
    requires Legal(config, s, actions)
    ensures var s' := Run(config, s, actions);
      && Sum(s'.calls, SawSuccess) == Sum(s.calls, SawSuccess) + Sum(actions, Succeeds)
      && s'.retries + Sum(s'.calls, SawLastFailure) == s.retries + Sum(s.calls, SawLastFailure) + Sum(actions, Fails)
      && s'.total == s.total + Sum(actions, Starts)
    decreases |actions|
  {
    if |actions| > 0 {
      StepAnswers(config, s, actions[0]);
      RunAnswers(config, Next(config, s, actions[0]), actions[1..]);
    }
  }

  /**
    With no call in flight, every call that was made is in the total, every answer that was a success is in the successes or
    was lost with its call, and every one that was a failure is a retry, a failed call, or was lost.
   */
  lemma EveryAnswerIsCounted(config: RetryConfig, actions: seq<Action>)
    requires Legal(config, Init, actions) && NothingInFlight(Run(config, Init, actions))
    ensures var s := Run(config, Init, actions);
      && s.total == Sum(actions, Starts)
      && s.successful + Sum(s.calls, LostSuccess) == Sum(actions, Succeeds)
      && s.retries + s.failed + Sum(s.calls, LostFailure) == Sum(actions, Fails)
  {
    RunKeepsInvariant(config, Init, actions);
    RunAnswers(config, Init, actions);
    var s := Run(config, Init, actions);
    SumOfSum(s.calls, Succeeded, LostSuccess, SawSuccess);
    SumOfSum(s.calls, Failed, LostFailure, SawLastFailure);
  }

  /** Steps a call can still take. */
  ghost function StepsLeft(config: RetryConfig, c: Call): nat {
    match c.phase
    case Running => (if c.attempt <= config.maxRetries then config.maxRetries - c.attempt else 0) + 2
    case Returning(_) => 1
    case _ => 0
  }

  /** Every answer, failure, count, drop and panic brings its call nearer to its end: no call makes more than `max_retries + 1` requests. */
  lemma CallsEnd(config: RetryConfig, s: State, a: Action)
    requires Enabled(config, s, a) && !a.Start?
    ensures StepsLeft(config, Next(config, s, a).calls[a.i]) < StepsLeft(config, s.calls[a.i]) <= config.maxRetries + 2
    ensures forall j :: 0 <= j < |s.calls| && j != a.i ==> Next(config, s, a).calls[j] == s.calls[j]
  {
  }
}
