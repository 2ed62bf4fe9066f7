/** `CacheStore` and `CacheMetrics` of src/core/cache/store.rs: one facade over a backend, with counters. */
module CacheStore {
  import opened Wrappers
  import opened Counting
  import opened FilesystemCache
  import opened MemoryCache

  datatype Counters = Counters(hits: nat, misses: nat, sets: nat, deletes: nat)

  const Zero := Counters(0, 0, 0, 0)

  /** What one call adds to the counters; a call the backend fails adds nothing. */
  function Record(c: Counters, op: Op, reply: Reply): Counters {
    match (op, reply)
    case (Set(_, _, _), Done) => c.(sets := c.sets + 1)
    case (Delete(_), Done) => c.(deletes := c.deletes + 1)
    case (Get(_), Found(Ok(Some(_)))) => c.(hits := c.hits + 1)
    case (Get(_), Found(Ok(None))) => c.(misses := c.misses + 1)
    case _ => c
  }

  class CacheMetrics {
    var hits: nat
    var misses: nat
    var sets: nat
    var deletes: nat

    constructor ()
      ensures Stats() == Zero
    {
      hits, misses, sets, deletes := 0, 0, 0, 0;
    }

    function Stats(): Counters
      reads this
    {
      Counters(hits, misses, sets, deletes)
    }

    method RecordHit()
      modifies this
      ensures Stats() == old(Stats()).(hits := old(hits) + 1)
    {
      hits := hits + 1;
    }

    method RecordMiss()
      modifies this
      ensures Stats() == old(Stats()).(misses := old(misses) + 1)
    {
      misses := misses + 1;
    }

    method RecordSet()
      modifies this
      ensures Stats() == old(Stats()).(sets := old(sets) + 1)
    {
      sets := sets + 1;
    }

    method RecordDelete()
      modifies this
      ensures Stats() == old(Stats()).(deletes := old(deletes) + 1)
    {
      deletes := deletes + 1;
    }
  }

  /** Either backend; each keeps its own contents. */
  datatype Backend = OnDisk(f: FilesystemCacheBackend) | InMemory(m: MemoryCacheBackend)

  datatype Contents = Files(files: Files) | Entries(entries: Entries)

  /** How a store is set up: with the filesystem backend's codec, the default time to live and the key hasher. */
  datatype Config = Config(codec: Codec, defaultTtl: Option<Duration>, hash: Key -> Key, useHashing: bool) {
    function CacheKey(key: Key): Key { if useHashing then hash(key) else key }

    /** The operation as the backend sees it. */
    function Derived(op: Op): Op {
      match op
      case Set(k, v, ttl) => Op.Set(CacheKey(k), v, ttl)
      case Get(k) => Op.Get(CacheKey(k))
      case Exists(k) => Op.Exists(CacheKey(k))
      case Delete(k) => Op.Delete(CacheKey(k))
      case Clear => Clear
    }
  }

  /** What a call does to the contents and answers; the clock is in nanoseconds, of which files know the seconds. */
  function Step(config: Config, c: Contents, op: Op, nowNanos: nat): (Contents, Reply) {
    match c
    case Files(files) =>
      var (files', r) := FsStep(config.codec, config.defaultTtl, files, Timed(config.Derived(op), nowNanos / NANOS));
      (Files(files'), r)
    case Entries(m) =>
      var (m', r) := MemStep(config.defaultTtl, m, config.Derived(op), nowNanos);
      (Entries(m'), r)
  }

  class CacheStore {
    const backend: Backend
    const metrics: CacheMetrics
    const hash: Key -> Key
    const useHashing: bool

    constructor (backend: Backend, hash: Key -> Key, useHashing: bool)
      ensures fresh(metrics) && metrics.Stats() == Zero
      ensures this.backend == backend && this.hash == hash && this.useHashing == useHashing
    {
      this.backend := backend;
      this.hash := hash;
      this.useHashing := useHashing;
      metrics := new CacheMetrics();
    }

    /** The object that holds the backend's contents. */
    ghost function Holder(): object {
      match backend
      case OnDisk(f) => f.disk
      case InMemory(m) => m
    }

    ghost function Contents(): Contents
      reads Holder()
    {
      match backend
      case OnDisk(f) => Files(f.disk.files)
      case InMemory(m) => Entries(m.cache)
    }

    /** Only the filesystem backend has a codec. */
    function Setup(): Config {
      match backend
      case OnDisk(f) => Config(f.codec, f.defaultTtl, hash, useHashing)
      case InMemory(m) => Config(Codec(_ => [], _ => None), m.defaultTtl, hash, useHashing)
    }

    method SetIn(key: Key, value: Bytes, ttl: Option<Duration>, nowNanos: nat)
      modifies Holder()
      ensures (Contents(), Done) == Step(Setup(), old(Contents()), Op.Set(key, value, ttl), nowNanos)
    {
      var cacheKey := Setup().CacheKey(key);
      match backend
      case OnDisk(f) => f.Set(cacheKey, value, ttl, nowNanos / NANOS);
      case InMemory(m) => m.Set(cacheKey, value, ttl, nowNanos);
    }

    method Put(key: Key, value: Bytes, nowNanos: nat)
      modifies Holder(), metrics
      ensures (Contents(), Done) == Step(Setup(), old(Contents()), Op.Set(key, value, None), nowNanos)
      ensures metrics.Stats() == Record(old(metrics.Stats()), Op.Set(key, value, None), Done)
    {
      SetIn(key, value, None, nowNanos);
      metrics.RecordSet();
    }

    method PutWithTtl(key: Key, value: Bytes, ttl: Duration, nowNanos: nat)
      modifies Holder(), metrics
      ensures (Contents(), Done) == Step(Setup(), old(Contents()), Op.Set(key, value, Some(ttl)), nowNanos)
      ensures metrics.Stats() == Record(old(metrics.Stats()), Op.Set(key, value, Some(ttl)), Done)
    {
      SetIn(key, value, Some(ttl), nowNanos);
      metrics.RecordSet();
    }

    method Get(key: Key, nowNanos: nat) returns (r: Result<Option<Bytes>, CacheError>)
      modifies Holder(), metrics
      ensures (Contents(), Found(r)) == Step(Setup(), old(Contents()), Op.Get(key), nowNanos)
      ensures metrics.Stats() == Record(old(metrics.Stats()), Op.Get(key), Found(r))
    {
      var cacheKey := Setup().CacheKey(key);
      match backend {
        case OnDisk(f) => r := f.Get(cacheKey, nowNanos / NANOS);
        case InMemory(m) =>
          var found := m.Get(cacheKey, nowNanos);
          r := Ok(found);
      }
      if r.Err? { return; }
      if r.value.Some? { metrics.RecordHit(); } else { metrics.RecordMiss(); }
    }

    method Exists(key: Key, nowNanos: nat) returns (r: Result<bool, CacheError>)
      modifies Holder()
      ensures (Contents(), Present(r)) == Step(Setup(), old(Contents()), Op.Exists(key), nowNanos)
    {
      var cacheKey := Setup().CacheKey(key);
      match backend {
        case OnDisk(f) => r := f.Exists(cacheKey, nowNanos / NANOS);
        case InMemory(m) =>
          var found := m.Exists(cacheKey, nowNanos);
          r := Ok(found);
      }
    }

    method Delete(key: Key, nowNanos: nat)
      modifies Holder(), metrics
      ensures (Contents(), Done) == Step(Setup(), old(Contents()), Op.Delete(key), nowNanos)
      ensures metrics.Stats() == Record(old(metrics.Stats()), Op.Delete(key), Done)
    {
      var cacheKey := Setup().CacheKey(key);
      match backend {
        case OnDisk(f) => f.Delete(cacheKey);
        case InMemory(m) => m.Delete(cacheKey);
      }
      metrics.RecordDelete();
    }

    method Clear(nowNanos: nat)
      modifies Holder()
      ensures (Contents(), Done) == Step(Setup(), old(Contents()), Op.Clear, nowNanos)
    {
      match backend
      case OnDisk(f) => f.Clear();
      case InMemory(m) => m.Clear();
    }
  }

  // ---- How long what was put is found, in either backend ----

  /** In memory the library may evict entries before a call. */
  datatype Call = Call(op: Op, nowNanos: nat, victims: set<Key>)

  function Evict(c: Contents, victims: set<Key>): Contents {
    match c case Files(_) => c case Entries(m) => Entries(m - victims)
  }

  function Replies(config: Config, c: Contents, calls: seq<Call>): seq<Reply>
    decreases |calls|
  {
    if |calls| == 0 then [] else
    var (c', reply) := Step(config, Evict(c, calls[0].victims), calls[0].op, calls[0].nowNanos);
    [reply] + Replies(config, c', calls[1..])
  }

  ghost predicate Ordered(calls: seq<Call>) { forall i, j :: 0 <= i < j < |calls| ==> calls[i].nowNanos <= calls[j].nowNanos }

  /** The call leaves the value of the key alone; its own key, if it writes one, does not share the key's hash. */
  ghost predicate Spares(config: Config, call: Call, k: Key) {
    !Touches(call.op, k) && (config.useHashing && (call.op.Set? || call.op.Delete?) ==> config.hash(call.op.key) != config.hash(k))
  }

  ghost predicate Evicts(config: Config, c: Contents, call: Call, k: Key) { c.Entries? && config.CacheKey(k) in call.victims }

  /** The entry of the key as one set left it, if it is not gone for good. */
  ghost predicate Held(config: Config, c: Contents, k: Key, v: Bytes, ttl: Option<Duration>, at: nat, evicted: bool, now: nat) {
    match c
    case Files(files) => KeyAgrees(config.codec, files, map[k := PlainEntry(v, Deadline(ttl, at / NANOS))], now / NANOS, k)
    case Entries(m) => EntryHeld(m, k, CacheEntry(v, MemDeadline(ttl, at)), evicted, now)
  }

  lemma StepHolds(config: Config, c: Contents, k: Key, v: Bytes, ttl: Option<Duration>, at: nat, evicted: bool, now: nat, call: Call)
    requires config.codec.Faithful() && Held(config, c, config.CacheKey(k), v, ttl, at, evicted, now)
    requires now <= call.nowNanos && Spares(config, call, k)
    ensures var c' := Step(config, Evict(c, call.victims), call.op, call.nowNanos).0;
      c'.Files? == c.Files? && Held(config, c', config.CacheKey(k), v, ttl, at, evicted || Evicts(config, c, call, k), call.nowNanos)
    ensures Asks(call.op, k) ==>
      var r := Step(config, Evict(c, call.victims), call.op, call.nowNanos).1;
      && (r == Answer(call.op, Some(v)) || r == Answer(call.op, None))
      && (r == Answer(call.op, Some(v)) ==> InTime(c, ttl, at, call.nowNanos))
      && (!evicted && !Evicts(config, c, call, k) && InTime(c, ttl, at, call.nowNanos) ==> r == Answer(call.op, Some(v)))
  {
    var key, op := config.CacheKey(k), config.Derived(call.op);
    match c
    case Files(files) =>
      var e := PlainEntry(v, Deadline(ttl, at / NANOS));
      StepAgreesOnKey(config.codec, config.defaultTtl, files, map[key := e], now / NANOS, Timed(op, call.nowNanos / NANOS), key);
    case Entries(m) =>
      StepHoldsEntry(config.defaultTtl, m, key, CacheEntry(v, MemDeadline(ttl, at)), evicted, now, call.victims, op, call.nowNanos);
  }

  /** The time to live is not over; files count whole seconds. */
  ghost predicate InTime(c: Contents, ttl: Option<Duration>, at: nat, now: nat) {
    ttl.Some? ==> if c.Files? then now / NANOS <= at / NANOS + ttl.value / NANOS else now <= at + ttl.value
  }

  lemma {:induction false} HeldAnswer(config: Config, c: Contents, k: Key, v: Bytes, ttl: Option<Duration>, at: nat,
      evicted: bool, now: nat, between: seq<Call>, ask: Call)
    requires config.codec.Faithful() && Held(config, c, config.CacheKey(k), v, ttl, at, evicted, now) && Asks(ask.op, k)
    requires Ordered(between + [ask]) && now <= (between + [ask])[0].nowNanos
    requires forall i :: 0 <= i < |between| ==> Spares(config, between[i], k)
    ensures |Replies(config, c, between + [ask])| == |between| + 1
    ensures
      var last := Replies(config, c, between + [ask])[|between|];
      && (last == Answer(ask.op, Some(v)) || last == Answer(ask.op, None))
      && (last == Answer(ask.op, Some(v)) ==> InTime(c, ttl, at, ask.nowNanos))
      && (!evicted && (forall i :: 0 <= i <= |between| ==> !Evicts(config, c, (between + [ask])[i], k)) && InTime(c, ttl, at, ask.nowNanos)
          ==> last == Answer(ask.op, Some(v)))
    decreases |between|
  {
    var calls := between + [ask];
    StepHolds(config, c, k, v, ttl, at, evicted, now, calls[0]);
    if |between| > 0 {
      assert calls[1..] == between[1..] + [ask];
      var c' := Step(config, Evict(c, calls[0].victims), calls[0].op, calls[0].nowNanos).0;
      HeldAnswer(config, c', k, v, ttl, at, evicted || Evicts(config, c, calls[0], k), calls[0].nowNanos, between[1..], ask);
      if forall i :: 0 <= i <= |between| ==> !Evicts(config, c, calls[i], k) {
        assert !Evicts(config, c, calls[0], k);
        forall i | 0 <= i <= |between| - 1 ensures !Evicts(config, c', (between[1..] + [ask])[i], k) {
          assert calls[i + 1] == calls[1..][i];
        }
      }
    }
  }

  /**
    Whatever the backend: what a put stores is found, until another call writes or removes it, exactly as long as its own
    time to live lasts; without one, as long as the default lasts; without either, for ever. In memory it may also be
    missed, if it was evicted. Nothing but the stored bytes is ever found.
   */
  lemma PutIsFoundUntil(config: Config, c: Contents, k: Key, v: Bytes, ttl: Option<Duration>, at: nat, between: seq<Call>, ask: Call)
    requires config.codec.Faithful() && Asks(ask.op, k) && Ordered([Call(Set(k, v, ttl), at, {})] + between + [ask])
    requires forall i :: 0 <= i < |between| ==> Spares(config, between[i], k)
    ensures |Replies(config, c, [Call(Set(k, v, ttl), at, {})] + between + [ask])| == |between| + 2
    ensures
      var last := Replies(config, c, [Call(Set(k, v, ttl), at, {})] + between + [ask])[|between| + 1];
      var kept := forall i :: 0 <= i <= |between| ==> !Evicts(config, c, (between + [ask])[i], k);
      var hit := last == Answer(ask.op, Some(v));
      && (hit || last == Answer(ask.op, None))
      && (forall d :: ttl == Some(d) || (ttl.None? && config.defaultTtl == Some(d)) ==>
           var inTime := if c.Files? then ask.nowNanos / NANOS <= at / NANOS + d / NANOS else ask.nowNanos <= at + d;
           (hit ==> inTime) && (kept && inTime ==> hit))
      && (ttl.None? && config.defaultTtl.None? && kept ==> hit)
  {
    var first := Call(Op.Set(k, v, ttl), at, {});
    var calls := [first] + between + [ask];
    assert calls[0] == first && calls[1..] == between + [ask];
    var effective := EffectiveTtl(ttl, config.defaultTtl);
    HeldAnswer(config, Step(config, Evict(c, {}), first.op, at).0, k, v, effective, at, false, at, between, ask);
  }

  /** And it is stored under the hash of its key, or under the key itself if the store does not hash. */
  lemma PutIsStoredUnder(config: Config, c: Contents, k: Key, v: Bytes, ttl: Option<Duration>, now: nat)
    ensures
      var key := if config.useHashing then config.hash(k) else k;
      match Step(config, c, Op.Set(k, v, ttl), now).0
      case Files(files) => Path(key, Data) in files && files[Path(key, Data)] == v
      case Entries(m) => key in m && m[key].data == v
  {
  }

  // ---- Counters over whole runs, whatever the backend replied ----

  type LogEntry = (Op, Reply)

  function CountersAfter(log: seq<LogEntry>): Counters {
    if |log| == 0 then Zero else var n := |log| - 1; Record(CountersAfter(log[..n]), log[n].0, log[n].1)
  }

  predicate CompletedGet(e: LogEntry) { e.0.Get? && e.1.Found? && e.1.value.Ok? }
  predicate Hit(e: LogEntry) { CompletedGet(e) && e.1.value.value.Some? }
  predicate Miss(e: LogEntry) { CompletedGet(e) && e.1.value.value.None? }
  predicate CompletedSet(e: LogEntry) { e.0.Set? && e.1.Done? }
  predicate CompletedDelete(e: LogEntry) { e.0.Delete? && e.1.Done? }

  /** Each counter is the number of its calls, and hits and misses partition the completed gets. */
  lemma {:induction false} HitsAndMissesCountGets(log: seq<LogEntry>)
    ensures
      var c := CountersAfter(log);
      && c.hits == Count(log, Hit) && c.misses == Count(log, Miss) && c.hits + c.misses == Count(log, CompletedGet)
      && c.sets == Count(log, CompletedSet) && c.deletes == Count(log, CompletedDelete)
  {
    if |log| == 0 {
      CountNone(Hit);
      CountNone(Miss);
      CountNone(CompletedGet);
      CountNone(CompletedSet);
      CountNone(CompletedDelete);
    } else {
      HitsAndMissesCountGets(log[..|log| - 1]);
      CountLast(log, Hit);
      CountLast(log, Miss);
      CountLast(log, CompletedGet);
      CountLast(log, CompletedSet);
      CountLast(log, CompletedDelete);
    }
  }
}
