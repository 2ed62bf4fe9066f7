/** `QueueStats::record_operation` of src/livekit/operations.rs: counters and an integer running mean. */
module QueueStats {
  import opened Arithmetic
  import opened Counting

  datatype Kind = SendAudio | SendMessage | SendDataMessage | ClearAudio | IsConnected | HasAudioSource | Reconnect | Shutdown

  datatype Entry = Entry(kind: Kind, success: bool, latencyMs: nat)

  datatype Stats = Stats(total: nat, successful: nat, failed: nat, audio: nat, message: nat, averageLatencyMs: nat, maxLatencyMs: nat)

  const Zero := Stats(0, 0, 0, 0, 0, 0, 0)

  function Max(a: nat, b: nat): nat { if a < b then b else a }

  /** The mean after the n-th operation, from the mean a before it and its latency l. */
  function NextMean(a: nat, l: nat, n: nat): nat
    requires n > 0
  {
    if n == 1 then l else Div(a * (n - 1) + l, n)
  }

  function Record(s: Stats, e: Entry): Stats {
    var n := s.total + 1;
    Stats(n,
      if e.success then s.successful + 1 else s.successful,
      if e.success then s.failed else s.failed + 1,
      if e.kind.SendAudio? || e.kind.ClearAudio? then s.audio + 1 else s.audio,
      if e.kind.SendMessage? || e.kind.SendDataMessage? then s.message + 1 else s.message,
      NextMean(s.averageLatencyMs, e.latencyMs, n),
      Max(s.maxLatencyMs, e.latencyMs))
  }

  class QueueStats {
    var totalOperations: nat
    var successfulOperations: nat
    var failedOperations: nat
    var audioOperations: nat
    var messageOperations: nat
    var averageLatencyMs: nat
    var maxLatencyMs: nat

    constructor ()
      ensures Value() == Zero
    {
      totalOperations, successfulOperations, failedOperations := 0, 0, 0;
      audioOperations, messageOperations, averageLatencyMs, maxLatencyMs := 0, 0, 0, 0;
    }

    function Value(): Stats
      reads this
    {
      Stats(totalOperations, successfulOperations, failedOperations, audioOperations, messageOperations, averageLatencyMs, maxLatencyMs)
    }

    method RecordOperation(kind: Kind, success: bool, latencyMs: nat)
      modifies this
      ensures Value() == Record(old(Value()), Entry(kind, success, latencyMs))
    {
      totalOperations := totalOperations + 1;
      if success { successfulOperations := successfulOperations + 1; } else { failedOperations := failedOperations + 1; }
      match kind {
        case SendAudio => audioOperations := audioOperations + 1;
        case ClearAudio => audioOperations := audioOperations + 1;
        case SendMessage => messageOperations := messageOperations + 1;
        case SendDataMessage => messageOperations := messageOperations + 1;
        case _ =>
      }
      if latencyMs > maxLatencyMs { maxLatencyMs := latencyMs; }
      averageLatencyMs := MovingAverage(latencyMs);
    }

    method MovingAverage(latencyMs: nat) returns (r: nat)
      requires totalOperations > 0
      ensures r == NextMean(averageLatencyMs, latencyMs, totalOperations)
    {
      if totalOperations == 1 {
        r := latencyMs;
      } else {
        r := Div(averageLatencyMs * (totalOperations - 1) + latencyMs, totalOperations);
      }
    }
  }

  function StatsAfter(entries: seq<Entry>): Stats {
    if |entries| == 0 then Zero else Record(StatsAfter(entries[..|entries| - 1]), entries[|entries| - 1])
  }

  function LatencySum(entries: seq<Entry>): nat {
    if |entries| == 0 then 0 else LatencySum(entries[..|entries| - 1]) + entries[|entries| - 1].latencyMs
  }

  /** n(n-1)/2, the sum 0 + 1 + ... + (n-1). */
  function Triangle(n: nat): (t: nat)
    ensures 2 * t == n * (n - 1)
  {
    if n == 0 then 0 else Triangle(n - 1) + (n - 1)
  }

  lemma DriftStep(a: nat, l: nat, n: nat, sum: nat)
    requires n > 0 && (n - 1) * a <= sum <= (n - 1) * a + Triangle(n - 1)
    ensures n * NextMean(a, l, n) <= sum + l <= n * NextMean(a, l, n) + Triangle(n)
  {
    if n > 1 {
      var x := (n - 1) * a + l;
      assert x == a * (n - 1) + l;
      assert Triangle(n) == Triangle(n - 1) + (n - 1);
    }
  }

  /**
    The running mean never overshoots, and all the truncation of n divisions together loses at most n(n-1)/2 of
    the latency sum S: n*a <= S <= n*a + n(n-1)/2.
   */
  lemma {:induction false} MeanDrift(entries: seq<Entry>)
    ensures
      var n, a, sum := |entries|, StatsAfter(entries).averageLatencyMs, LatencySum(entries);
      StatsAfter(entries).total == n && n * a <= sum <= n * a + Triangle(n)
  {
    if |entries| > 0 {
      var n := |entries|;
      MeanDrift(entries[..n - 1]);
      DriftStep(StatsAfter(entries[..n - 1]).averageLatencyMs, entries[n - 1].latencyMs, n, LatencySum(entries[..n - 1]));
    }
  }

  /** The product the code forms is never more than the latency sum, so 64 bits hold it whenever they hold the sum. */
  lemma IntermediateFits(entries: seq<Entry>, e: Entry)
    ensures var s := StatsAfter(entries); s.averageLatencyMs * s.total + e.latencyMs <= LatencySum(entries + [e])
  {
    MeanDrift(entries);
    assert (entries + [e])[..|entries|] == entries;
    var s := StatsAfter(entries);
    assert s.averageLatencyMs * s.total == s.total * s.averageLatencyMs;
  }

  lemma SplitLast(k: nat, n: nat)
    requires n > 0
    ensures k * n == k * (n - 1) + k
  {
  }

  lemma NextMeanBounds(a: nat, l: nat, n: nat, lo: nat, hi: nat)
    requires n > 1 && lo <= a <= hi && lo <= l <= hi
    ensures lo <= NextMean(a, l, n) <= hi
  {
    MulMonotone(lo, a, n - 1);
    MulMonotone(a, hi, n - 1);
    SplitLast(lo, n);
    SplitLast(hi, n);
    var x := a * (n - 1) + l;
    AtLeast(Div(x, n), lo, n, x);
    AtMost(Div(x, n), hi, n, x);
  }

  /** The mean lies between the bounds of the recorded latencies. */
  lemma {:induction false} MeanWithinRange(entries: seq<Entry>, lo: nat, hi: nat)
    requires |entries| > 0 && forall i :: 0 <= i < |entries| ==> lo <= entries[i].latencyMs <= hi
    ensures lo <= StatsAfter(entries).averageLatencyMs <= hi
  {
    var n := |entries|;
    MeanDrift(entries[..n - 1]);
    if n > 1 {
      MeanWithinRange(entries[..n - 1], lo, hi);
      NextMeanBounds(StatsAfter(entries[..n - 1]).averageLatencyMs, entries[n - 1].latencyMs, n, lo, hi);
    }
  }

  predicate Succeeded(e: Entry) { e.success }
  predicate OfAudio(e: Entry) { e.kind.SendAudio? || e.kind.ClearAudio? }
  predicate OfMessage(e: Entry) { e.kind.SendMessage? || e.kind.SendDataMessage? }

  /** Every counter is the number of its operations: those that succeeded or not, sent or cleared audio, sent messages. */
  lemma {:induction false} CountersCount(entries: seq<Entry>)
    ensures var s := StatsAfter(entries);
      && s.total == |entries| && s.successful == Count(entries, Succeeded) && s.failed == |entries| - Count(entries, Succeeded)
      && s.audio == Count(entries, OfAudio) && s.message == Count(entries, OfMessage)
  {
    if |entries| == 0 {
      CountNone(Succeeded);
      CountNone(OfAudio);
      CountNone(OfMessage);
    } else {
      CountersCount(entries[..|entries| - 1]);
      CountLast(entries, Succeeded);
      CountLast(entries, OfAudio);
      CountLast(entries, OfMessage);
    }
  }

  /** The counters partition the operations, and the recorded maximum is the maximum. */
  lemma {:induction false} CountersAddUp(entries: seq<Entry>)
    ensures var s := StatsAfter(entries);
      && s.total == |entries| && s.successful + s.failed == s.total && s.audio + s.message <= s.total
      && (forall i :: 0 <= i < |entries| ==> entries[i].latencyMs <= s.maxLatencyMs)
      && (|entries| > 0 ==> exists i :: 0 <= i < |entries| && entries[i].latencyMs == s.maxLatencyMs)
  {
    if |entries| > 0 {
      var n := |entries| - 1;
      CountersAddUp(entries[..n]);
      var s := StatsAfter(entries);
      if entries[n].latencyMs == s.maxLatencyMs {
      } else {
        var i :| 0 <= i < n && entries[..n][i].latencyMs == StatsAfter(entries[..n]).maxLatencyMs;
        assert entries[i].latencyMs == s.maxLatencyMs;
      }
      forall i | 0 <= i < |entries| ensures entries[i].latencyMs <= s.maxLatencyMs {
        if i < n { assert entries[i] == entries[..n][i]; }
      }
    }
  }
}
