/**
  The in-memory backend of src/core/cache/store.rs. Its cache library may drop any entry at any time, so
  evictions are chosen by the environment.
 */
module MemoryCache {
  import opened Wrappers
  import opened FilesystemCache

  const NANOS: nat := 1_000_000_000

  /** `expiresAt` and every clock reading of this backend are in nanoseconds. */
  datatype CacheEntry = CacheEntry(data: Bytes, expiresAt: Option<nat>)
  type Entries = map<Key, CacheEntry>

  function MemDeadline(ttl: Option<Duration>, nowNanos: nat): Option<nat> {
    match ttl case Some(d) => Some(nowNanos + d) case None => None
  }

  function MemGet(cache: Entries, key: Key, nowNanos: nat): (Entries, Option<Bytes>) {
    if key !in cache then (cache, None)
    else if Expired(cache[key].expiresAt, nowNanos) then (cache - {key}, None)
    else (cache, Some(cache[key].data))
  }

  class MemoryCacheBackend {
    var cache: Entries
    const defaultTtl: Option<Duration>

    constructor (defaultTtl: Option<Duration>)
      ensures cache == map[] && this.defaultTtl == defaultTtl
    {
      this.defaultTtl := defaultTtl;
      cache := map[];
    }

    method Set(key: Key, value: Bytes, ttl: Option<Duration>, nowNanos: nat)
      modifies this
      ensures cache == old(cache)[key := CacheEntry(value, MemDeadline(if ttl.Some? then ttl else defaultTtl, nowNanos))]
    {
      var expiresAt := MemDeadline(EffectiveTtl(ttl, defaultTtl), nowNanos);
      cache := cache[key := CacheEntry(value, expiresAt)];
    }

    method Get(key: Key, nowNanos: nat) returns (r: Option<Bytes>)
      modifies this
      ensures (cache, r) == MemGet(old(cache), key, nowNanos)
    {
      if key in cache {
        var entry := cache[key];
        if entry.expiresAt.Some? && nowNanos > entry.expiresAt.value {
          cache := cache - {key};
          return None;
        }
        return Some(entry.data);
      } else {
        return None;
      }
    }

    method Exists(key: Key, nowNanos: nat) returns (r: bool)
      modifies this
      ensures cache == MemGet(old(cache), key, nowNanos).0 && r == MemGet(old(cache), key, nowNanos).1.Some?
    {
      var entry := Get(key, nowNanos);
      r := entry.Some?;
    }

    method Delete(key: Key)
      modifies this
      ensures cache == old(cache) - {key}
    {
      cache := cache - {key};
    }

    method Clear()
      modifies this
      ensures cache == map[]
    {
      cache := map[];
    }

    /** Capacity pressure: the library drops whatever it likes. */
    method Evict(victims: set<Key>)
      modifies this
      ensures cache == old(cache) - victims
    {
      cache := cache - victims;
    }
  }

  // ---- Runs, with an arbitrary eviction before every operation ----

  function MemStep(defaultTtl: Option<Duration>, cache: Entries, op: Op, nowNanos: nat): (Entries, Reply) {
    match op
    case Set(k, v, ttl) => (cache[k := CacheEntry(v, MemDeadline(EffectiveTtl(ttl, defaultTtl), nowNanos))], Done)
    case Get(k) => var (cache', r) := MemGet(cache, k, nowNanos); (cache', Found(Ok(r)))
    case Exists(k) => var (cache', r) := MemGet(cache, k, nowNanos); (cache', Present(Ok(r.Some?)))
    case Delete(k) => (cache - {k}, Done)
    case Clear => (map[], Done)
  }

  /** The clock of a timed operation has whole seconds. */
  function MemReplies(defaultTtl: Option<Duration>, cache: Entries, ops: seq<Timed>, evictions: seq<set<Key>>): (r: seq<Reply>)
    requires |evictions| == |ops|
    ensures |r| == |ops|
    decreases |ops|
  {
    if |ops| == 0 then [] else
    var (cache', reply) := MemStep(defaultTtl, cache - evictions[0], ops[0].op, ops[0].now * NANOS);
    [reply] + MemReplies(defaultTtl, cache', ops[1..], evictions[1..])
  }

  ghost predicate WholeSeconds(ttl: Option<Duration>) { ttl.Some? ==> ttl.value % NANOS == 0 }

  ghost predicate WholeSecondTtls(defaultTtl: Option<Duration>, ops: seq<Timed>) {
    WholeSeconds(defaultTtl) && forall i :: 0 <= i < |ops| && ops[i].op.Set? ==> WholeSeconds(ops[i].op.ttl)
  }

  /** The reply a caller would get had the entry been evicted. */
  ghost predicate SameOrMiss(memory: Reply, reference: Reply) {
    || memory == reference
    || (memory == Found(Ok(None)) && reference.Found?)
    || (memory == Present(Ok(false)) && reference.Present?)
  }

  /** Everything still in memory is what the plain map holds, with its deadline in nanoseconds. */
  ghost predicate Within(cache: Entries, m: PlainCache) {
    forall k :: k in cache ==>
      && k in m && cache[k].data == m[k].bytes
      && cache[k].expiresAt == (if m[k].deadline.Some? then Some(m[k].deadline.value * NANOS) else None)
  }

  lemma DeadlineInNanos(ttl: Option<Duration>, now: nat)
    requires WholeSeconds(ttl)
    ensures MemDeadline(ttl, now * NANOS)
         == (match Deadline(ttl, now) case Some(d) => Some(d * NANOS) case None => None)
  {
    if ttl.Some? { assert ttl.value == (ttl.value / NANOS) * NANOS; }
  }

  lemma StepWithin(defaultTtl: Option<Duration>, cache: Entries, m: PlainCache, t: Timed)
    requires Within(cache, m) && WholeSeconds(defaultTtl) && (t.op.Set? ==> WholeSeconds(t.op.ttl))
    ensures Within(MemStep(defaultTtl, cache, t.op, t.now * NANOS).0, PlainStep(defaultTtl, m, t).0)
    ensures SameOrMiss(MemStep(defaultTtl, cache, t.op, t.now * NANOS).1, PlainStep(defaultTtl, m, t).1)
  {
    if t.op.Set? { DeadlineInNanos(EffectiveTtl(t.op.ttl, defaultTtl), t.now); }
  }

  lemma {:induction false} MemoryWithinPlain(defaultTtl: Option<Duration>, cache: Entries, m: PlainCache,
      ops: seq<Timed>, evictions: seq<set<Key>>)
    requires |evictions| == |ops| && Within(cache, m) && WholeSecondTtls(defaultTtl, ops)
    ensures |PlainReplies(defaultTtl, m, ops)| == |ops|
    ensures forall i :: 0 <= i < |ops| ==>
      SameOrMiss(MemReplies(defaultTtl, cache, ops, evictions)[i], PlainReplies(defaultTtl, m, ops)[i])
    decreases |ops|
  {
    if |ops| > 0 {
      var kept := cache - evictions[0];
      StepWithin(defaultTtl, kept, m, ops[0]);
      MemoryWithinPlain(defaultTtl, MemStep(defaultTtl, kept, ops[0].op, ops[0].now * NANOS).0, PlainStep(defaultTtl, m, ops[0]).0, ops[1..], evictions[1..]);
    }
  }

  /**
    On whole-second clocks and TTLs, and whatever is evicted when, every answer of the memory backend is the
    filesystem backend's answer or a miss.
   */
  lemma MemoryMatchesFilesystemOrMisses(codec: Codec, defaultTtl: Option<Duration>, ops: seq<Timed>, evictions: seq<set<Key>>)
    requires codec.Faithful() && NondecreasingTimes(ops)
    requires |evictions| == |ops| && WholeSecondTtls(defaultTtl, ops)
    ensures |FsReplies(codec, defaultTtl, map[], ops)| == |ops|
    ensures forall i :: 0 <= i < |ops| ==>
      SameOrMiss(MemReplies(defaultTtl, map[], ops, evictions)[i], FsReplies(codec, defaultTtl, map[], ops)[i])
  {
    FilesystemRefinesPlain(codec, defaultTtl, ops);
    MemoryWithinPlain(defaultTtl, map[], map[], ops, evictions);
  }

  ghost predicate NoEvictions(evictions: seq<set<Key>>) { forall i :: 0 <= i < |evictions| ==> evictions[i] == {} }

  /** With nothing evicted, expired entries apart, memory and plain map hold the same. */
  ghost predicate Covers(cache: Entries, m: PlainCache, now: nat) {
    Within(cache, m) && forall k :: k in m && !Expired(m[k].deadline, now) ==> k in cache
  }

  lemma StepCovers(defaultTtl: Option<Duration>, cache: Entries, m: PlainCache, now: nat, t: Timed)
    requires Covers(cache, m, now) && now <= t.now && WholeSeconds(defaultTtl) && (t.op.Set? ==> WholeSeconds(t.op.ttl))
    ensures Covers(MemStep(defaultTtl, cache, t.op, t.now * NANOS).0, PlainStep(defaultTtl, m, t).0, t.now)
    ensures MemStep(defaultTtl, cache, t.op, t.now * NANOS).1 == PlainStep(defaultTtl, m, t).1
  {
    StepWithin(defaultTtl, cache, m, t);
  }

  lemma {:induction false} MemoryCoversPlain(defaultTtl: Option<Duration>, cache: Entries, m: PlainCache, now: nat,
      ops: seq<Timed>, evictions: seq<set<Key>>)
    requires |evictions| == |ops| && NoEvictions(evictions) && WholeSecondTtls(defaultTtl, ops)
    requires Covers(cache, m, now) && NondecreasingTimes(ops) && (|ops| > 0 ==> now <= ops[0].now)
    ensures MemReplies(defaultTtl, cache, ops, evictions) == PlainReplies(defaultTtl, m, ops)
    decreases |ops|
  {
    if |ops| > 0 {
      assert evictions[0] == {} && cache - evictions[0] == cache;
      StepCovers(defaultTtl, cache, m, now, ops[0]);
      var cache', m' := MemStep(defaultTtl, cache, ops[0].op, ops[0].now * NANOS).0, PlainStep(defaultTtl, m, ops[0]).0;
      MemoryCoversPlain(defaultTtl, cache', m', ops[0].now, ops[1..], evictions[1..]);
    }
  }

  /** Eviction is the only difference: without it the two backends answer alike. */
  lemma MemoryEqualsFilesystemWithoutEviction(codec: Codec, defaultTtl: Option<Duration>, ops: seq<Timed>, evictions: seq<set<Key>>)
    requires codec.Faithful() && NondecreasingTimes(ops)
    requires |evictions| == |ops| && NoEvictions(evictions) && WholeSecondTtls(defaultTtl, ops)
    ensures MemReplies(defaultTtl, map[], ops, evictions) == FsReplies(codec, defaultTtl, map[], ops)
  {
    FilesystemRefinesPlain(codec, defaultTtl, ops);
    MemoryCoversPlain(defaultTtl, map[], map[], 0, ops, evictions);
  }

  // ---- How long what was set is found ----

  /** The entry is there, or it was evicted or has expired. */
  ghost predicate EntryHeld(cache: Entries, k: Key, e: CacheEntry, evicted: bool, nowNanos: nat) {
    if k in cache then cache[k] == e else evicted || Expired(e.expiresAt, nowNanos)
  }

  /** One operation, after an eviction, that does not touch the key. */
  lemma StepHoldsEntry(defaultTtl: Option<Duration>, cache: Entries, k: Key, e: CacheEntry, evicted: bool, now: nat,
      victims: set<Key>, op: Op, nowNanos: nat)
    requires EntryHeld(cache, k, e, evicted, now) && now <= nowNanos && !Touches(op, k)
    ensures EntryHeld(MemStep(defaultTtl, cache - victims, op, nowNanos).0, k, e, evicted || k in victims, nowNanos)
    ensures Asks(op, k) ==>
      var r := MemStep(defaultTtl, cache - victims, op, nowNanos).1;
      && (r == Answer(op, Some(e.data)) || r == Answer(op, None))
      && (r == Answer(op, Some(e.data)) ==> !Expired(e.expiresAt, nowNanos))
      && (!evicted && k !in victims && !Expired(e.expiresAt, nowNanos) ==> r == Answer(op, Some(e.data)))
  {
  }

  /** A question removes at most the entry it asks for, and only if its answer is a miss. */
  lemma MemQuestionsOnlyRemove(cache: Entries, key: Key, nowNanos: nat)
    ensures var (cache', r) := MemGet(cache, key, nowNanos);
      && (forall k :: k in cache' ==> k in cache && cache'[k] == cache[k])
      && (forall k :: k in cache && k != key ==> k in cache')
      && (r == None ==> key !in cache')
      && (r.Some? ==> cache' == cache && key in cache && r.value == cache[key].data)
  {
  }
}
