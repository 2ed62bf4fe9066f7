/**
  The worker pool of src/utils/noise_filter.rs: worker threads register a task sender in a bounded pool, calls
  check one out, send a task, await the answer and give the sender back when their guard is dropped.
 */
module NoisePool {
  import opened Wrappers

  type WorkerId = nat
  type CallId = nat

  /** A worker's task channel holds one task besides the one in process; a dead worker's channel is closed. */
  datatype Worker = Unregistered | Alive(queued: seq<CallId>, working: Option<CallId>) | Dead

  /** A call holds its guard from checkout until the release; every later state has dropped it. */
  datatype Call = Waiting | Holding(w: WorkerId) | Awaiting(w: WorkerId) | Releasing(w: WorkerId) | Done

  /** `answered` and `broken` are the calls whose one-shot channel got a result or lost its sender. */
  datatype State = State(
    workers: seq<Worker>, pool: seq<WorkerId>, calls: map<CallId, Call>, answered: set<CallId>, broken: set<CallId>)

  datatype Event =
    | Register(id: WorkerId)
    | Die(id: WorkerId)
    | Take(id: WorkerId)
    | Complete(id: WorkerId)
    | Arrive(c: CallId)
    | Checkout(c: CallId)
    | SendTask(c: CallId)
    | SendFails(c: CallId)
    | Receive(c: CallId)
    | ReceiveFails(c: CallId)
    | Abandon(c: CallId)
    | Release(c: CallId)

  const TASK_CAPACITY := 1

  function Init(size: nat): State { State(seq(size, _ => Unregistered), [], map[], {}, {}) }

  predicate Guards(call: Call) { call.Holding? || call.Awaiting? || call.Releasing? }

  predicate Holds(s: State, c: CallId, w: WorkerId) { c in s.calls && Guards(s.calls[c]) && s.calls[c].w == w }

  predicate Registered(s: State, w: WorkerId) { w < |s.workers| && !s.workers[w].Unregistered? }

  predicate IsAlive(s: State, w: WorkerId) { w < |s.workers| && s.workers[w].Alive? }

  predicate Enabled(s: State, e: Event) {
    match e
    case Register(w) => w < |s.workers| && s.workers[w].Unregistered? && |s.pool| < |s.workers|
    case Die(w) => IsAlive(s, w)
    case Take(w) => IsAlive(s, w) && |s.workers[w].queued| > 0 && s.workers[w].working.None?
    case Complete(w) => IsAlive(s, w) && s.workers[w].working.Some?
    case Arrive(c) => c !in s.calls
    case Checkout(c) => c in s.calls && s.calls[c].Waiting? && |s.pool| > 0
    case SendTask(c) =>
      && c in s.calls && s.calls[c].Holding?
      && IsAlive(s, s.calls[c].w) && |s.workers[s.calls[c].w].queued| < TASK_CAPACITY
    case SendFails(c) => c in s.calls && s.calls[c].Holding? && s.calls[c].w < |s.workers| && s.workers[s.calls[c].w].Dead?
    case Receive(c) => c in s.calls && s.calls[c].Awaiting? && c in s.answered
    case ReceiveFails(c) => c in s.calls && s.calls[c].Awaiting? && c in s.broken
    case Abandon(c) => c in s.calls && (s.calls[c].Waiting? || s.calls[c].Holding? || s.calls[c].Awaiting?)
    case Release(c) => c in s.calls && s.calls[c].Releasing?
  }

  function Tasks(worker: Worker): set<CallId> {
    if worker.Alive? then
      (set c | c in worker.queued) + (if worker.working.Some? then {worker.working.value} else {})
    else {}
  }

  /** `try_send`: a full pool loses the sender. */
  function TrySend(pool: seq<WorkerId>, w: WorkerId, capacity: nat): seq<WorkerId> {
    if |pool| < capacity then pool + [w] else pool
  }

  function Next(s: State, e: Event): State
    requires Enabled(s, e)
  {
    match e
    case Register(w) => s.(workers := s.workers[w := Alive([], None)], pool := s.pool + [w])
    case Die(w) => s.(workers := s.workers[w := Dead], broken := s.broken + Tasks(s.workers[w]))
    case Take(w) =>
      var q := s.workers[w].queued;
      s.(workers := s.workers[w := Alive(q[1..], Some(q[0]))])
    case Complete(w) =>
      s.(workers := s.workers[w := Alive(s.workers[w].queued, None)], answered := s.answered + {s.workers[w].working.value})
    case Arrive(c) => s.(calls := s.calls[c := Waiting])
    case Checkout(c) => s.(calls := s.calls[c := Holding(s.pool[0])], pool := s.pool[1..])
    case SendTask(c) =>
      var w := s.calls[c].w;
      var worker := s.workers[w];
      s.(workers := s.workers[w := Alive(worker.queued + [c], worker.working)], calls := s.calls[c := Awaiting(w)])
    case SendFails(c) => s.(calls := s.calls[c := Releasing(s.calls[c].w)])
    case Receive(c) => s.(calls := s.calls[c := Releasing(s.calls[c].w)])
    case ReceiveFails(c) => s.(calls := s.calls[c := Releasing(s.calls[c].w)])
    case Abandon(c) => s.(calls := s.calls[c := if s.calls[c].Waiting? then Done else Releasing(s.calls[c].w)])
    case Release(c) => s.(calls := s.calls[c := Done], pool := TrySend(s.pool, s.calls[c].w, |s.workers|))
  }

  ghost predicate Legal(s: State, events: seq<Event>)
    decreases |events|
  {
    |events| > 0 ==> Enabled(s, events[0]) && Legal(Next(s, events[0]), events[1..])
  }

  ghost function Run(s: State, events: seq<Event>): State
    requires Legal(s, events)
    decreases |events|
  {
    if |events| == 0 then s else Run(Next(s, events[0]), events[1..])
  }

  // ---- Ownership: each registered sender is in exactly one place ----

  ghost predicate Distinct(pool: seq<WorkerId>) { forall i, j :: 0 <= i < j < |pool| ==> pool[i] != pool[j] }

  ghost predicate Held(s: State, w: WorkerId) { exists c :: Holds(s, c, w) }

  ghost predicate Ownership(s: State) {
    && Distinct(s.pool)
    && (forall w :: w in s.pool ==> Registered(s, w) && !Held(s, w))
    && (forall c, w :: Holds(s, c, w) ==> Registered(s, w))
    && (forall c, d, w :: Holds(s, c, w) && Holds(s, d, w) ==> c == d)
    && (forall w :: Registered(s, w) ==> w in s.pool || Held(s, w))
  }

  /** The workers whose sender a live guard holds. */
  ghost function HeldWorkers(s: State): set<WorkerId> { set w | 0 <= w < |s.workers| && Held(s, w) }

  ghost function UnregisteredWorkers(s: State): set<WorkerId> { set w | 0 <= w < |s.workers| && s.workers[w].Unregistered? }

  ghost function Guarding(s: State): set<CallId> { set c | c in s.calls && Guards(s.calls[c]) }

  ghost function Below(n: nat): (r: set<nat>)
    ensures |r| == n && forall w :: w in r <==> 0 <= w < n
  {
    if n == 0 then {} else Below(n - 1) + {n - 1}
  }

  ghost function Elements(pool: seq<WorkerId>): set<WorkerId> { set w | w in pool }

  lemma {:induction false} DistinctSize(pool: seq<WorkerId>)
    requires Distinct(pool)
    ensures |Elements(pool)| == |pool|
  {
    if |pool| > 0 {
      var n := |pool| - 1;
      DistinctSize(pool[..n]);
      assert pool == pool[..n] + [pool[n]];
      assert pool[n] !in pool[..n];
      assert Elements(pool) == Elements(pool[..n]) + {pool[n]};
    }
  }

  /** An injective map between finite sets: guards and the senders they hold are equally many. */
  lemma {:induction false} InjectiveSize(s: State, some: set<CallId>, held: set<WorkerId>)
    requires forall c :: c in some ==> c in s.calls && Guards(s.calls[c]) && s.calls[c].w in held
    requires forall w :: w in held ==> exists c :: c in some && Holds(s, c, w)
    requires forall c, d, w :: Holds(s, c, w) && Holds(s, d, w) ==> c == d
    ensures |some| == |held|
    decreases |some|
  {
    if some == {} {
      assert forall w :: w in held ==> exists c :: c in some && Holds(s, c, w);
      assert held == {};
    } else {
      var c :| c in some;
      var w := s.calls[c].w;
      assert Holds(s, c, w);
      forall d | d in some - {c} ensures s.calls[d].w in held - {w} { assert Holds(s, d, s.calls[d].w); }
      forall v | v in held - {w} ensures exists d :: d in some - {c} && Holds(s, d, v) {
        var d :| d in some && Holds(s, d, v);
        assert d in some - {c};
      }
      InjectiveSize(s, some - {c}, held - {w});
    }
  }

  lemma GuardsEqualHeld(s: State)
    requires Ownership(s)
    ensures |Guarding(s)| == |HeldWorkers(s)|
  {
    var held := HeldWorkers(s);
    forall c | c in Guarding(s) ensures s.calls[c].w in held { assert Holds(s, c, s.calls[c].w); }
    forall w | w in held ensures exists c :: c in Guarding(s) && Holds(s, c, w) {
      var c :| Holds(s, c, w);
      assert c in Guarding(s);
    }
    InjectiveSize(s, Guarding(s), held);
  }

  lemma PlacesPartition(s: State)
    requires Ownership(s)
    ensures Elements(s.pool) !! HeldWorkers(s) !! UnregisteredWorkers(s)
    ensures Elements(s.pool) + HeldWorkers(s) + UnregisteredWorkers(s) == Below(|s.workers|)
  {
    forall w | w in HeldWorkers(s) ensures w !in UnregisteredWorkers(s) {
      var c :| Holds(s, c, w);
      assert Registered(s, w);
    }
    forall w | w in Below(|s.workers|) ensures w in Elements(s.pool) + HeldWorkers(s) + UnregisteredWorkers(s) {
      if !s.workers[w].Unregistered? { assert Registered(s, w); }
    }
  }

  /** Senders in the pool, in live guards and not yet registered always total the pool size. */
  lemma SendersAreConserved(s: State)
    requires Ownership(s)
    ensures |s.pool| + |Guarding(s)| + |UnregisteredWorkers(s)| == |s.workers|
  {
    DistinctSize(s.pool);
    GuardsEqualHeld(s);
    PlacesPartition(s);
  }

  /** So giving a sender back never finds the pool full, and neither does a worker that registers. */
  lemma PoolNeverFull(s: State)
    requires Ownership(s)
    ensures Guarding(s) != {} ==> |s.pool| < |s.workers|
    ensures UnregisteredWorkers(s) != {} ==> |s.pool| < |s.workers|
    ensures forall c, w :: Holds(s, c, w) ==> TrySend(s.pool, w, |s.workers|) == s.pool + [w]
  {
    SendersAreConserved(s);
    forall c, w | Holds(s, c, w) ensures TrySend(s.pool, w, |s.workers|) == s.pool + [w] {
      assert c in Guarding(s);
    }
  }

  /** Steps that leave the pool and the guards alone, and unregister nobody, leave the ownership alone. */
  lemma OwnershipFrame(s: State, t: State)
    requires Ownership(s) && t.pool == s.pool && |t.workers| == |s.workers|
    requires forall w :: Registered(s, w) <==> Registered(t, w)
    requires forall c, w :: Holds(s, c, w) <==> Holds(t, c, w)
    ensures Ownership(t)
  {
    forall w ensures Held(s, w) <==> Held(t, w) {
      if c :| Holds(s, c, w) { assert Holds(t, c, w); }
      if c :| Holds(t, c, w) { assert Holds(s, c, w); }
    }
  }

  lemma OwnershipOfRegister(s: State, w: WorkerId)
    requires Ownership(s) && Enabled(s, Register(w))
    ensures Ownership(Next(s, Register(w)))
  {
    var t := Next(s, Register(w));
    assert forall c, v :: Holds(s, c, v) <==> Holds(t, c, v);
    forall v ensures Held(s, v) <==> Held(t, v) {
      if c :| Holds(s, c, v) { assert Holds(t, c, v); }
      if c :| Holds(t, c, v) { assert Holds(s, c, v); }
    }
    assert w !in s.pool;
    assert forall v :: v in t.pool <==> v in s.pool || v == w;
  }

  lemma TailOfDistinct(pool: seq<WorkerId>)
    requires Distinct(pool) && |pool| > 0
    ensures forall v :: v in pool[1..] <==> v in pool && v != pool[0]
  {
    forall v | v in pool && v != pool[0] ensures v in pool[1..] {
      var i :| 0 <= i < |pool| && pool[i] == v;
      assert pool[1..][i - 1] == v;
    }
  }

  lemma OwnershipOfCheckout(s: State, c: CallId)
    requires Ownership(s) && Enabled(s, Checkout(c))
    ensures Ownership(Next(s, Checkout(c)))
  {
    var t, w := Next(s, Checkout(c)), s.pool[0];
    assert s.pool == [w] + t.pool && w in s.pool;
    assert forall v :: v in t.pool <==> v in s.pool && v != w by { TailOfDistinct(s.pool); }
    assert forall v :: Registered(t, v) <==> Registered(s, v);
    assert Holds(t, c, w);
    assert forall d, v :: Holds(t, d, v) <==> Holds(s, d, v) || (d == c && v == w);
    forall v ensures Held(t, v) <==> Held(s, v) || v == w {
      if d :| Holds(s, d, v) { assert Holds(t, d, v); }
      if d :| Holds(t, d, v) { assert Holds(s, d, v) || v == w; }
    }
  }

  lemma OwnershipOfRelease(s: State, c: CallId)
    requires Ownership(s) && Enabled(s, Release(c))
    ensures Ownership(Next(s, Release(c)))
  {
    var t, w := Next(s, Release(c)), s.calls[c].w;
    PoolNeverFull(s);
    assert Holds(s, c, w);
    assert t.pool == s.pool + [w];
    assert forall d, v :: Holds(t, d, v) <==> Holds(s, d, v) && d != c;
    forall v ensures Held(t, v) <==> Held(s, v) && v != w {
      if d :| Holds(s, d, v) && v != w { assert Holds(t, d, v); }
      if d :| Holds(t, d, v) { assert Holds(s, d, v); }
    }
    assert forall v :: v in t.pool <==> v in s.pool || v == w;
  }

  lemma StepKeepsOwnership(s: State, e: Event)
    requires Ownership(s) && Enabled(s, e)
    ensures Ownership(Next(s, e))
  {
    match e
    case Register(w) => OwnershipOfRegister(s, w);
    case Checkout(c) => OwnershipOfCheckout(s, c);
    case Release(c) => OwnershipOfRelease(s, c);
    case _ => OwnershipFrame(s, Next(s, e));
  }

  // ---- Tasks: an answer is never lost, and belongs to the call that asked ----

  predicate TidyWorker(worker: Worker) {
    worker.Alive? ==>
      |worker.queued| <= TASK_CAPACITY && (worker.working.Some? ==> worker.working.value !in worker.queued)
  }

  /** The call's task has been sent to w. */
  predicate SentTo(call: Call, w: WorkerId) { call == Awaiting(w) || call == Releasing(w) || call.Done? }

  predicate At(s: State, c: CallId, w: WorkerId) { w < |s.workers| && c in Tasks(s.workers[w]) }

  predicate Resolved(s: State, c: CallId) { c in s.answered || c in s.broken }

  /** Every task is with one worker or resolved in one way, and a call that awaits has such a task. */
  ghost predicate Tracking(s: State) {
    && (forall w :: 0 <= w < |s.workers| ==> TidyWorker(s.workers[w]))
    && s.answered !! s.broken
    && (forall c, w :: At(s, c, w) ==> c in s.calls && SentTo(s.calls[c], w) && !Resolved(s, c))
    && (forall c, v, w :: At(s, c, v) && At(s, c, w) ==> v == w)
    && (forall c :: c in s.calls && s.calls[c].Awaiting? ==> Resolved(s, c) || At(s, c, s.calls[c].w))
    && (forall c :: Resolved(s, c) ==> c in s.calls && !s.calls[c].Waiting? && !s.calls[c].Holding?)
  }

  /** Steps of a call other than a send move no task. */
  lemma TrackingOfCallStep(s: State, t: State, c: CallId)
    requires Tracking(s) && t.workers == s.workers && t.answered == s.answered && t.broken == s.broken
    requires c in t.calls && s.calls.Keys <= t.calls.Keys
    requires forall d :: d in t.calls && d != c ==> d in s.calls && t.calls[d] == s.calls[d]
    requires
      if c in s.calls then
        s.calls[c] != t.calls[c] && !s.calls[c].Done? && !t.calls[c].Awaiting?
        && (t.calls[c].Holding? ==> s.calls[c].Waiting?)
        && !t.calls[c].Waiting?
        && (s.calls[c].Awaiting? ==> t.calls[c] == Releasing(s.calls[c].w))
        && (s.calls[c].Releasing? ==> t.calls[c].Done?)
      else t.calls[c].Waiting?
    ensures Tracking(t)
  {
    assert forall d, w :: At(t, d, w) <==> At(s, d, w);
    assert forall d :: Resolved(t, d) <==> Resolved(s, d);
  }

  lemma TrackingOfSend(s: State, c: CallId)
    requires Tracking(s) && Enabled(s, SendTask(c))
    ensures Tracking(Next(s, SendTask(c)))
  {
    var t, w := Next(s, SendTask(c)), s.calls[c].w;
    assert !At(s, c, w);
    assert Tasks(t.workers[w]) == Tasks(s.workers[w]) + {c};
    assert forall d, v :: At(t, d, v) <==> At(s, d, v) || (d == c && v == w);
    assert forall d :: Resolved(t, d) <==> Resolved(s, d);
  }

  lemma TrackingOfTake(s: State, w: WorkerId)
    requires Tracking(s) && Enabled(s, Take(w))
    ensures Tracking(Next(s, Take(w)))
  {
    var t, q := Next(s, Take(w)), s.workers[w].queued;
    assert q == [q[0]];
    assert Tasks(t.workers[w]) == Tasks(s.workers[w]);
    assert forall d, v :: At(t, d, v) <==> At(s, d, v);
    assert forall d :: Resolved(t, d) <==> Resolved(s, d);
  }

  lemma TrackingOfComplete(s: State, w: WorkerId)
    requires Tracking(s) && Enabled(s, Complete(w))
    ensures Tracking(Next(s, Complete(w)))
  {
    var t, c := Next(s, Complete(w)), s.workers[w].working.value;
    assert TidyWorker(s.workers[w]) && At(s, c, w);
    assert Tasks(t.workers[w]) == Tasks(s.workers[w]) - {c};
    assert forall d, v :: At(t, d, v) <==> At(s, d, v) && d != c;
    assert forall d :: Resolved(t, d) <==> Resolved(s, d) || d == c;
  }

  lemma TrackingOfDie(s: State, w: WorkerId)
    requires Tracking(s) && Enabled(s, Die(w))
    ensures Tracking(Next(s, Die(w)))
  {
    var t := Next(s, Die(w));
    assert forall d :: d in Tasks(s.workers[w]) ==> At(s, d, w);
    assert forall d, v :: At(t, d, v) <==> At(s, d, v) && v != w;
    assert forall d :: Resolved(t, d) <==> Resolved(s, d) || At(s, d, w);
  }

  lemma TrackingOfRegister(s: State, w: WorkerId)
    requires Tracking(s) && Enabled(s, Register(w))
    ensures Tracking(Next(s, Register(w)))
  {
    var t := Next(s, Register(w));
    assert forall d, v :: At(t, d, v) <==> At(s, d, v);
    assert forall d :: Resolved(t, d) <==> Resolved(s, d);
  }

  lemma StepKeepsTracking(s: State, e: Event)
    requires Tracking(s) && Enabled(s, e)
    ensures Tracking(Next(s, e))
  {
    match e
    case Register(w) => TrackingOfRegister(s, w);
    case Die(w) => TrackingOfDie(s, w);
    case Take(w) => TrackingOfTake(s, w);
    case Complete(w) => TrackingOfComplete(s, w);
    case SendTask(c) => TrackingOfSend(s, c);
    case _ => TrackingOfCallStep(s, Next(s, e), e.c);
  }

  // ---- Whole runs ----

  lemma InitInvariant(size: nat)
    ensures Ownership(Init(size)) && Tracking(Init(size))
  {
    var s := Init(size);
    assert forall w :: 0 <= w < size ==> s.workers[w].Unregistered?;
  }

  lemma {:induction false} RunKeepsInvariant(s: State, events: seq<Event>)
    requires Ownership(s) && Tracking(s) && Legal(s, events)
    ensures Ownership(Run(s, events)) && Tracking(Run(s, events)) && |Run(s, events).workers| == |s.workers|
    decreases |events|
  {
    if |events| > 0 {
      StepKeepsOwnership(s, events[0]);
      StepKeepsTracking(s, events[0]);
      RunKeepsInvariant(Next(s, events[0]), events[1..]);
    }
  }

  /**
    In every run, abandoned calls and dying workers included: the senders add up to the pool size, no two calls hold
    one worker, and a guard that is dropped finds room in the pool.
   */
  lemma PoolIsSafe(size: nat, events: seq<Event>)
    requires Legal(Init(size), events)
    ensures var s := Run(Init(size), events);
      && |s.workers| == size
      && |s.pool| + |Guarding(s)| + |UnregisteredWorkers(s)| == size
      && (forall c, d, w :: Holds(s, c, w) && Holds(s, d, w) ==> c == d)
      && (forall c, w :: Holds(s, c, w) ==> w !in s.pool && |s.pool| < size)
      && (forall i, j :: 0 <= i < j < |s.pool| ==> s.pool[i] != s.pool[j])
  {
    InitInvariant(size);
    RunKeepsInvariant(Init(size), events);
    var s := Run(Init(size), events);
    SendersAreConserved(s);
    PoolNeverFull(s);
    forall c, w | Holds(s, c, w) ensures w !in s.pool && |s.pool| < size {
      assert c in Guarding(s) && Held(s, w);
    }
  }

  /** Once every call is over and every worker has registered, the whole pool is back. */
  lemma PoolRefills(size: nat, events: seq<Event>)
    requires Legal(Init(size), events)
    requires var s := Run(Init(size), events); Guarding(s) == {} && UnregisteredWorkers(s) == {}
    ensures |Run(Init(size), events).pool| == size
  {
    PoolIsSafe(size, events);
  }

  /**
    A call that awaits its answer is answered, or told of the worker's death, or its task is still with the live worker
    whose guard it holds; nobody else's answer can reach it, since the task carries its own one-shot channel.
   */
  lemma AwaitingIsServed(size: nat, events: seq<Event>, c: CallId)
    requires Legal(Init(size), events)
    requires var s := Run(Init(size), events); c in s.calls && s.calls[c].Awaiting?
    ensures var s := Run(Init(size), events);
      || Enabled(s, Receive(c))
      || Enabled(s, ReceiveFails(c))
      || (IsAlive(s, s.calls[c].w) && c in Tasks(s.workers[s.calls[c].w]) && Enabled(s, Complete(s.calls[c].w)))
      || (IsAlive(s, s.calls[c].w) && s.workers[s.calls[c].w].queued == [c] && Enabled(s, Take(s.calls[c].w)))
  {
    InitInvariant(size);
    RunKeepsInvariant(Init(size), events);
    var s := Run(Init(size), events);
    if !Resolved(s, c) {
      var worker := s.workers[s.calls[c].w];
      assert At(s, c, s.calls[c].w) && TidyWorker(worker);
      if worker.working.None? { assert c in worker.queued; }
    }
  }

  /** Nothing revives a worker: once dead it stays dead, and its sender keeps circulating. */
  lemma {:induction false} DeadSenderKeepsCirculating(s: State, events: seq<Event>, w: WorkerId)
    requires Ownership(s) && Tracking(s) && Legal(s, events)
    requires w < |s.workers| && s.workers[w].Dead?
    ensures var t := Run(s, events);
      w < |t.workers| && t.workers[w].Dead? && (w in t.pool || Held(t, w)) && (forall c :: Holds(t, c, w) ==> !Enabled(t, SendTask(c)))
    decreases |events|
  {
    if |events| == 0 {
      assert Registered(s, w);
    } else {
      StepKeepsOwnership(s, events[0]);
      StepKeepsTracking(s, events[0]);
      DeadSenderKeepsCirculating(Next(s, events[0]), events[1..], w);
    }
  }

  /** Whatever else happens: a live worker can die, a call can arrive, and one that has not finished can be abandoned. */
  lemma FaultsComeAnyTime(s: State, w: WorkerId, c: CallId)
    ensures Enabled(s, Die(w)) <==> w < |s.workers| && s.workers[w].Alive?
    ensures Enabled(s, Arrive(c)) <==> c !in s.calls
    ensures Enabled(s, Abandon(c)) <==> c in s.calls && !s.calls[c].Releasing? && !s.calls[c].Done?
    ensures c in s.calls && s.calls[c].Releasing? ==> Enabled(s, Release(c))
  {
  }

  lemma {:induction false} RunOf(s: State, e: Event, rest: seq<Event>)
    requires Enabled(s, e) && Legal(Next(s, e), rest)
    ensures Legal(s, [e] + rest) && Run(s, [e] + rest) == Run(Next(s, e), rest)
  {
    assert ([e] + rest)[1..] == rest;
  }

  lemma FinishTask(s: State, w: WorkerId) returns (events: seq<Event>)
    requires IsAlive(s, w) && s.workers[w].working.Some?
    ensures Legal(s, events) && |events| == 1 && (forall i :: 0 <= i < |events| ==> events[i] == Take(w) || events[i] == Complete(w))
    ensures s.workers[w].working.value in Run(s, events).answered
    ensures Run(s, events) == Next(s, Complete(w))
  {
    RunOf(s, Complete(w), []);
    events := [Complete(w)] + [];
  }

  lemma TakeAndFinish(s: State, w: WorkerId) returns (events: seq<Event>)
    requires IsAlive(s, w) && s.workers[w].working.None? && |s.workers[w].queued| > 0
    ensures Legal(s, events) && |events| == 2 && (forall i :: 0 <= i < |events| ==> events[i] == Take(w) || events[i] == Complete(w))
    ensures s.workers[w].queued[0] in Run(s, events).answered
  {
    var t := Next(s, Take(w));
    var more := FinishTask(t, w);
    RunOf(s, Take(w), more);
    events := [Take(w)] + more;
  }

  /** The worker alone can bring a waiting call its answer, in at most three of its own steps, as long as it lives. */
  lemma AnswerIsNear(size: nat, events: seq<Event>, c: CallId) returns (more: seq<Event>)
    requires Legal(Init(size), events)
    requires var s := Run(Init(size), events); c in s.calls && s.calls[c].Awaiting? && c !in s.broken && IsAlive(s, s.calls[c].w)
    ensures var s := Run(Init(size), events);
      && Legal(s, more) && |more| <= 3
      && (forall i :: 0 <= i < |more| ==> more[i] == Take(s.calls[c].w) || more[i] == Complete(s.calls[c].w))
      && c in Run(s, more).answered
  {
    InitInvariant(size);
    RunKeepsInvariant(Init(size), events);
    var s := Run(Init(size), events);
    var w := s.calls[c].w;
    if c in s.answered {
      more := [];
    } else {
      assert At(s, c, w) && TidyWorker(s.workers[w]);
      if s.workers[w].working == Some(c) {
        more := FinishTask(s, w);
      } else if s.workers[w].working.None? {
        more := TakeAndFinish(s, w);
      } else {
        var t := Next(s, Complete(w));
        var later := TakeAndFinish(t, w);
        RunOf(s, Complete(w), later);
        more := [Complete(w)] + later;
      }
    }
  }
}
