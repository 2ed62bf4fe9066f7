/**
  `acquire` and `ClientGuard::drop` of src/utils/req_manager.rs, atomic operation by atomic operation: permit,
  count up, raise the peak; count down, release the permit.
 */
module RequestConcurrency {
  import opened Counting

  const USIZE_MAX: nat := 0xFFFF_FFFF_FFFF_FFFF
  const TWO_64: nat := USIZE_MAX + 1

  datatype Task =
    | Waiting
    | HasPermit
    | Counted(seen: nat)
    | Live
    | Uncounted
    | Gone

  /** `highest` is the largest value the active count ever had since the last reset. */
  datatype State = State(permits: nat, active: nat, peak: nat, highest: nat, tasks: seq<Task>)

  datatype Action =
    | Arrive
    | GetPermit(i: nat)
    | FetchAdd(i: nat)
    | FetchMax(i: nat)
    | FetchSub(i: nat)
    | Release(i: nat)
    | GiveUp(i: nat)

  function Init(max: nat): State { State(max, 0, 0, 0, []) }

  predicate Enabled(s: State, a: Action) {
    match a
    case Arrive => true
    case GetPermit(i) => i < |s.tasks| && s.tasks[i].Waiting? && s.permits > 0
    case FetchAdd(i) => i < |s.tasks| && s.tasks[i].HasPermit?
    case FetchMax(i) => i < |s.tasks| && s.tasks[i].Counted?
    case FetchSub(i) => i < |s.tasks| && s.tasks[i].Live?
    case Release(i) => i < |s.tasks| && s.tasks[i].Uncounted?
    case GiveUp(i) => i < |s.tasks| && s.tasks[i].Waiting?
  }

  function Max(a: nat, b: nat): nat { if a < b then b else a }

  /** `fetch_add(1)` and `fetch_sub(1)` wrap around. */
  function WrappingAdd(n: nat): nat { if n == USIZE_MAX then 0 else n + 1 }
  function WrappingSub(n: nat): nat { if n == 0 then USIZE_MAX else n - 1 }

  function Next(s: State, a: Action): State
    requires Enabled(s, a)
  {
    match a
    case Arrive => s.(tasks := s.tasks + [Waiting])
    case GetPermit(i) => s.(permits := s.permits - 1, tasks := s.tasks[i := HasPermit])
    case FetchAdd(i) =>
      var active := WrappingAdd(s.active);
      s.(active := active, highest := Max(s.highest, active), tasks := s.tasks[i := Counted(active)])
    case FetchMax(i) => s.(peak := Max(s.peak, s.tasks[i].seen), tasks := s.tasks[i := Live])
    case FetchSub(i) =>
      s.(active := WrappingSub(s.active), tasks := s.tasks[i := Uncounted])
    case Release(i) => s.(permits := s.permits + 1, tasks := s.tasks[i := Gone])
    case GiveUp(i) => s.(tasks := s.tasks[i := Gone])
  }

  /** `reset_metrics`. */
  function Reset(s: State): State { s.(active := 0, peak := 0, highest := 0) }

  function HoldsPermit(t: Task): nat { if t.Waiting? || t.Gone? then 0 else 1 }
  function IsActive(t: Task): nat { if t.Counted? || t.Live? then 1 else 0 }

  function Held(s: State): nat { Sum(s.tasks, HoldsPermit) }

  ghost predicate PeakPending(s: State) {
    exists i :: 0 <= i < |s.tasks| && s.tasks[i] == Counted(s.highest)
  }

  ghost predicate Invariant(max: nat, s: State) {
    && max <= USIZE_MAX
    && s.permits + Held(s) == max
    && s.active == Sum(s.tasks, IsActive)
    && s.active <= s.highest <= max
    && s.peak <= s.highest
    && (forall i :: 0 <= i < |s.tasks| && s.tasks[i].Counted? ==> s.tasks[i].seen <= s.highest)
    && (s.peak == s.highest || PeakPending(s))
  }

  lemma ActiveAtMostHeld(s: State)
    ensures Sum(s.tasks, IsActive) <= Held(s)
  {
    SumMonotone(s.tasks, IsActive, HoldsPermit);
  }

  lemma StepCounts(s: State, a: Action)
    requires Enabled(s, a) && !a.Arrive?
    ensures var t := Next(s, a).tasks[a.i];
      && Held(Next(s, a)) + HoldsPermit(s.tasks[a.i]) == Held(s) + HoldsPermit(t)
      && Sum(Next(s, a).tasks, IsActive) + IsActive(s.tasks[a.i]) == Sum(s.tasks, IsActive) + IsActive(t)
  {
    var t := Next(s, a).tasks[a.i];
    assert Next(s, a).tasks == s.tasks[a.i := t];
    SumUpdate(s.tasks, a.i, t, HoldsPermit);
    SumUpdate(s.tasks, a.i, t, IsActive);
  }

  lemma PeakStaysPending(s: State, a: Action)
    requires Enabled(s, a) && !a.FetchAdd? && !a.FetchMax? && PeakPending(s)
    ensures PeakPending(Next(s, a))
  {
    var i :| 0 <= i < |s.tasks| && s.tasks[i] == Counted(s.highest);
    assert Next(s, a).tasks[i] == Counted(s.highest);
  }

  lemma StepKeepsInvariant(max: nat, s: State, a: Action)
    requires Invariant(max, s) && Enabled(s, a)
    ensures Invariant(max, Next(s, a))
  {
    var s' := Next(s, a);
    if a.Arrive? {
      SumAppend(s.tasks, Waiting, HoldsPermit);
      SumAppend(s.tasks, Waiting, IsActive);
    } else {
      StepCounts(s, a);
      SumMember(s.tasks, a.i, IsActive);
    }
    ActiveAtMostHeld(s');
    match a
    case FetchAdd(i) =>
      assert s'.tasks[i] == Counted(s.active + 1);
      if s.highest >= s.active + 1 && s.peak != s.highest {
        var j :| 0 <= j < |s.tasks| && s.tasks[j] == Counted(s.highest);
        assert s'.tasks[j] == Counted(s'.highest);
      }
    case FetchMax(i) =>
      if s'.peak != s'.highest {
        var j :| 0 <= j < |s.tasks| && s.tasks[j] == Counted(s.highest);
        assert s'.tasks[j] == Counted(s'.highest);
      }
    case _ =>
      if s.peak != s.highest { PeakStaysPending(s, a); }
  }

  /** Steps a task can still take. */
  ghost function StepsLeft(t: Task): nat {
    match t
    case Waiting => 5
    case HasPermit => 4
    case Counted(_) => 3
    case Live => 2
    case Uncounted => 1
    case Gone => 0
  }

  /** Each task takes each step at most once and in order, and moves no other. */
  lemma TasksEnd(s: State, a: Action)
    requires Enabled(s, a) && !a.Arrive?
    ensures StepsLeft(Next(s, a).tasks[a.i]) < StepsLeft(s.tasks[a.i])
    ensures |Next(s, a).tasks| == |s.tasks| && forall j :: 0 <= j < |s.tasks| && j != a.i ==> Next(s, a).tasks[j] == s.tasks[j]
  {
  }

  ghost predicate Legal(s: State, actions: seq<Action>)
    decreases |actions|
  {
    |actions| > 0 ==> Enabled(s, actions[0]) && Legal(Next(s, actions[0]), actions[1..])
  }

  ghost function Run(s: State, actions: seq<Action>): State
    requires Legal(s, actions)
    decreases |actions|
  {
    if |actions| == 0 then s else Run(Next(s, actions[0]), actions[1..])
  }

  lemma {:induction false} RunKeepsInvariant(max: nat, s: State, actions: seq<Action>)
    requires Invariant(max, s) && Legal(s, actions)
    ensures Invariant(max, Run(s, actions))
    decreases |actions|
  {
    if |actions| > 0 {
      StepKeepsInvariant(max, s, actions[0]);
      RunKeepsInvariant(max, Next(s, actions[0]), actions[1..]);
    }
  }

  /** The largest active count in any state of a run. */
  ghost function HighestActive(s: State, actions: seq<Action>): nat
    requires Legal(s, actions)
    decreases |actions|
  {
    if |actions| == 0 then s.active else Max(s.active, HighestActive(Next(s, actions[0]), actions[1..]))
  }

  lemma {:induction false} HighestIsTracked(max: nat, s: State, actions: seq<Action>)
    requires Invariant(max, s) && Legal(s, actions)
    ensures Run(s, actions).highest == Max(s.highest, HighestActive(s, actions))
    decreases |actions|
  {
    if |actions| > 0 {
      var a := actions[0];
      StepKeepsInvariant(max, s, a);
      if a.FetchSub? { SumMember(s.tasks, a.i, IsActive); }
      HighestIsTracked(max, Next(s, a), actions[1..]);
    }
  }

  ghost predicate NobodyBetweenAddAndMax(s: State) {
    forall i :: 0 <= i < |s.tasks| ==> !s.tasks[i].Counted?
  }

  /**
    In every interleaving, the active count is at most the permits held and those at most the limit, the peak
    never exceeds the limit, and whenever no task is between its two updates the peak is exactly the highest
    active count there has been.
   */
  lemma ConcurrencyIsBounded(max: nat, actions: seq<Action>)
    requires max <= USIZE_MAX && Legal(Init(max), actions)
    ensures var s := Run(Init(max), actions);
      && s.active <= Held(s) <= max && s.permits == max - Held(s)
      && s.peak <= HighestActive(Init(max), actions) <= max
      && (NobodyBetweenAddAndMax(s) ==> s.peak == HighestActive(Init(max), actions))
  {
    RunKeepsInvariant(max, Init(max), actions);
    ActiveAtMostHeld(Run(Init(max), actions));
    HighestIsTracked(max, Init(max), actions);
  }

  // ---- Resetting the counters ----

  ghost predicate NoGuardCounted(s: State) {
    forall i :: 0 <= i < |s.tasks| ==> !s.tasks[i].Counted? && !s.tasks[i].Live?
  }

  /** Resetting keeps the invariant exactly when no guard is counted. */
  lemma ResetSafeIff(max: nat, s: State)
    requires Invariant(max, s)
    ensures Invariant(max, Reset(s)) <==> NoGuardCounted(s)
  {
    assert Reset(s).tasks == s.tasks;
    if NoGuardCounted(s) {
      forall i | 0 <= i < |s.tasks| ensures IsActive(s.tasks[i]) == 0 { }
      SumZero(s.tasks, IsActive);
    } else {
      var i :| 0 <= i < |s.tasks| && (s.tasks[i].Counted? || s.tasks[i].Live?);
      SumMember(s.tasks, i, IsActive);
    }
  }

  /** The guards that are counted in truth. */
  function CountedGuards(s: State): nat { Sum(s.tasks, IsActive) }

  /** The active count is k short of the counted guards, modulo 2^64. */
  ghost predicate ShortBy(k: nat, s: State) { s.active == (CountedGuards(s) - k) % TWO_64 }

  lemma RemainderIs(x: int, q: int, r: nat)
    requires x == q * TWO_64 + r && r < TWO_64
    ensures x % TWO_64 == r
  {
  }

  /** Both are arithmetic modulo 2^64. */
  lemma WrappingIsModular(x: int)
    ensures WrappingAdd(x % TWO_64) == (x + 1) % TWO_64
    ensures WrappingSub(x % TWO_64) == (x - 1) % TWO_64
  {
    var q, r := x / TWO_64, x % TWO_64;
    if r == USIZE_MAX { RemainderIs(x + 1, q + 1, 0); } else { RemainderIs(x + 1, q, r + 1); }
    if r == 0 { RemainderIs(x - 1, q - 1, USIZE_MAX); } else { RemainderIs(x - 1, q, r - 1); }
  }

  lemma StepStaysShort(k: nat, s: State, a: Action)
    requires ShortBy(k, s) && Enabled(s, a)
    ensures ShortBy(k, Next(s, a))
  {
    var n: int := CountedGuards(s) - k;
    if a.Arrive? {
      SumAppend(s.tasks, Waiting, IsActive);
    } else {
      StepCounts(s, a);
      WrappingIsModular(n);
    }
  }

  /**
    After a reset with k counted guards, in every later state of every run the active count is the number of counted
    guards minus k, modulo 2^64: below k guards it has wrapped around.
   */
  lemma {:induction false} ActiveAfterReset(s: State, k: nat, actions: seq<Action>)
    requires Legal(s, actions) && ShortBy(k, s)
    ensures ShortBy(k, Run(s, actions))
    decreases |actions|
  {
    if |actions| > 0 {
      StepStaysShort(k, s, actions[0]);
      ActiveAfterReset(Next(s, actions[0]), k, actions[1..]);
    }
  }

  /** So a reset is harmless for the active count exactly when no guard was counted, and else wraps it when the others are gone. */
  lemma ResetShortensActive(max: nat, s: State, actions: seq<Action>)
    requires Invariant(max, s) && Legal(Reset(s), actions)
    ensures var k, t := CountedGuards(s), Run(Reset(s), actions);
      && t.active == (CountedGuards(t) - k) % TWO_64
      && (t.active == CountedGuards(t) <==> k == 0)
      && (CountedGuards(t) < k ==> t.active + k == TWO_64 + CountedGuards(t))
  {
    var k, t := CountedGuards(s), Run(Reset(s), actions);
    assert Reset(s).tasks == s.tasks;
    ActiveAtMostHeld(s);
    ActiveAfterReset(Reset(s), k, actions);
    HeldAfter(max, Reset(s), actions);
    ActiveAtMostHeld(t);
    var n: int := CountedGuards(t) - k;
    assert n + TWO_64 > 0 && n < TWO_64;
    if n >= 0 { RemainderIs(n, 0, n); } else { RemainderIs(n, -1, n + TWO_64); }
  }

  /** The permits are not touched by a reset. */
  lemma {:induction false} HeldAfter(max: nat, s: State, actions: seq<Action>)
    requires s.permits + Held(s) == max && Legal(s, actions)
    ensures Run(s, actions).permits + Held(Run(s, actions)) == max
    decreases |actions|
  {
    if |actions| > 0 {
      if actions[0].Arrive? { SumAppend(s.tasks, Waiting, HoldsPermit); } else { StepCounts(s, actions[0]); }
      HeldAfter(max, Next(s, actions[0]), actions[1..]);
    }
  }

  /** Dropping the one guard that a reset forgot wraps the active count around. */
  lemma ResetThenDropWraps(s: State, i: nat)
    requires i < |s.tasks| && s.tasks[i].Live?
    ensures Next(Reset(s), FetchSub(i)).active == USIZE_MAX
  {
  }
}
