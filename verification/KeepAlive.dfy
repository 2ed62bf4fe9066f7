/** The adaptive loop of `start_keepalive_task` in src/utils/req_manager.rs. */
module KeepAlive {
  import opened Counting

  datatype Answer = Answered | TimedOut | Failed

  /** Failures at the end of the history with nothing else in between. */
  function TrailingFailures(history: seq<Answer>): (n: nat)
    ensures n <= |history|
    decreases |history|
  {
    if |history| == 0 || history[|history| - 1] != Failed then 0
    else 1 + TrailingFailures(history[..|history| - 1])
  }

  /** Seconds until the next request, as a function of the whole history. */
  function IntervalAfter(history: seq<Answer>): (secs: nat)
    ensures 2 <= secs <= 10
    decreases |history|
  {
    if |history| == 0 then 3 else
    var before := IntervalAfter(history[..|history| - 1]);
    match history[|history| - 1]
    case Answered => if before < 10 then before + 1 else before
    case TimedOut => before
    case Failed => if TrailingFailures(history) > 2 then 2 else before
  }

  lemma Snoc(answers: seq<Answer>, n: nat)
    requires n < |answers|
    ensures answers[..n + 1][..|answers[..n + 1]| - 1] == answers[..n]
  {
  }

  /**
    The loop stops at the eleventh failure in a row (a timeout is no failure) and no earlier, and its interval
    stays between 2 and 10 seconds.
   */
  method KeepAliveLoop(answers: seq<Answer>) returns (ticks: nat, stopped: bool, currentIntervalSecs: nat)
    ensures ticks <= |answers| && (!stopped ==> ticks == |answers|)
    ensures stopped <==> TrailingFailures(answers[..ticks]) == 11
    ensures forall n :: 0 <= n < ticks ==> TrailingFailures(answers[..n]) <= 10
    ensures currentIntervalSecs == IntervalAfter(answers[..ticks])
  {
    var consecutiveFailures := 0;
    ticks, stopped, currentIntervalSecs := 0, false, 3;
    while ticks < |answers|
      invariant ticks <= |answers| && !stopped
      invariant consecutiveFailures == TrailingFailures(answers[..ticks])
      invariant forall n :: 0 <= n <= ticks ==> TrailingFailures(answers[..n]) <= 10
      invariant currentIntervalSecs == IntervalAfter(answers[..ticks])
    {
      var result := answers[ticks];
      Snoc(answers, ticks);
      ticks := ticks + 1;
      match result
      case Answered =>
        consecutiveFailures := 0;
        if currentIntervalSecs < 10 { currentIntervalSecs := currentIntervalSecs + 1; }
      case TimedOut =>
        consecutiveFailures := 0;
      case Failed =>
        consecutiveFailures := consecutiveFailures + 1;
        if consecutiveFailures > 2 && currentIntervalSecs > 2 { currentIntervalSecs := 2; }
        if consecutiveFailures > 10 {
          stopped := true;
          break;
        }
    }
  }

  /** Trailing failures, counted by looking at the history's end. */
  lemma {:induction false} TrailingFailuresIff(history: seq<Answer>, n: nat)
    requires n <= |history|
    ensures TrailingFailures(history) >= n <==> forall i :: |history| - n <= i < |history| ==> history[i] == Failed
    decreases n
  {
    if n > 0 {
      var last := |history| - 1;
      TrailingFailuresIff(history[..last], n - 1);
      assert (forall i :: |history| - n <= i < |history| ==> history[i] == Failed)
        <==> history[last] == Failed && forall i :: |history| - n <= i < last ==> history[..last][i] == Failed;
    }
  }

  predicate IsAnswer(a: Answer) { a.Answered? }

  /** No failure of these is the third or a later one in a row. */
  ghost predicate Settled(history: seq<Answer>, more: seq<Answer>) {
    forall n :: 0 < n <= |more| ==> TrailingFailures(history + more[..n]) <= 2
  }

  /**
    The adaptation: the loop starts at 3 s, a third failure in a row drops it to 2 s, and from either point on every answer
    adds a second, up to 10, while timeouts and fewer than three failures in a row change nothing.
   */
  lemma {:induction false} IntervalRecovers(history: seq<Answer>, more: seq<Answer>)
    requires history == [] || TrailingFailures(history) > 2
    requires Settled(history, more)
    ensures var secs := (if history == [] then 3 else 2) + Count(more, IsAnswer);
      IntervalAfter(history + more) == if secs < 10 then secs else 10
    decreases |more|
  {
    if |more| == 0 {
      assert history + more == history;
      CountNone(IsAnswer);
    } else {
      var n := |more| - 1;
      var h := history + more;
      assert h[..|h| - 1] == history + more[..n] && more[..n + 1] == more;
      forall m | 0 < m <= n ensures TrailingFailures(history + more[..n][..m]) <= 2 { assert more[..n][..m] == more[..m]; }
      IntervalRecovers(history, more[..n]);
      CountLast(more, IsAnswer);
    }
  }
}
