/**
  The filesystem backend of src/core/cache/store.rs: two files per key, lazily expired, against a plain map.
  Paths are named by key and extension (the 128-bit hash is taken to be free of collisions) and the metadata
  codec (serde) is a parameter.
 */
module FilesystemCache {
  import opened Wrappers

  type Key = string
  type Bytes = seq<bv8>
  /** In nanoseconds. */
  type Duration = nat

  datatype Extension = Data | Meta | Tmp
  datatype Path = Path(key: Key, extension: Extension)
  type Files = map<Path, Bytes>

  datatype EntryMeta = EntryMeta(expiresAt: Option<nat>, createdAt: nat, size: nat)

  datatype Codec = Codec(encode: EntryMeta -> Bytes, decode: Bytes -> Option<EntryMeta>) {
    /** What was serialised deserialises to the same record. */
    ghost predicate Faithful() { forall m :: decode(encode(m)) == Some(m) }
  }

  datatype CacheError = Io | Serialization

  function AsSecs(d: Duration): nat { d / 1_000_000_000 }

  function EffectiveTtl(ttl: Option<Duration>, defaultTtl: Option<Duration>): Option<Duration> {
    if ttl.Some? then ttl else defaultTtl
  }

  function Deadline(ttl: Option<Duration>, now: nat): Option<nat> {
    match ttl case Some(d) => Some(now + AsSecs(d)) case None => None
  }

  predicate Expired(deadline: Option<nat>, now: nat) { deadline.Some? && now > deadline.value }

  // ---- Net effect of each operation on the directory ----

  function FsSet(codec: Codec, files: Files, key: Key, value: Bytes, ttl: Option<Duration>, now: nat): Files {
    (files - {Path(key, Tmp)})
      [Path(key, Data) := value]
      [Path(key, Meta) := codec.encode(EntryMeta(Deadline(ttl, now), now, |value|))]
  }

  function FsDelete(files: Files, key: Key): Files { files - {Path(key, Data), Path(key, Meta)} }

  function FsGet(codec: Codec, files: Files, key: Key, now: nat): (Files, Result<Option<Bytes>, CacheError>) {
    if Path(key, Meta) !in files then (files, Ok(None)) else
    match codec.decode(files[Path(key, Meta)])
    case None => (files, Err(Serialization))
    case Some(meta) =>
      if Expired(meta.expiresAt, now) then (FsDelete(files, key), Ok(None))
      else if Path(key, Data) in files then (files, Ok(Some(files[Path(key, Data)])))
      else (files - {Path(key, Meta)}, Ok(None))
  }

  function FsExists(codec: Codec, files: Files, key: Key, now: nat): Result<bool, CacheError> {
    if Path(key, Meta) !in files then Ok(false) else
    match codec.decode(files[Path(key, Meta)])
    case None => Err(Serialization)
    case Some(meta) => Ok(!Expired(meta.expiresAt, now) && Path(key, Data) in files)
  }

  // ---- The backend, file operation by file operation ----

  class Disk {
    var files: Files

    constructor ()
      ensures files == map[]
    {
      files := map[];
    }

    method Create(p: Path)
      modifies this
      ensures files == old(files)[p := []]
    {
      files := files[p := []];
    }

    method WriteAll(p: Path, bytes: Bytes)
      requires p in files
      modifies this
      ensures files == old(files)[p := old(files)[p] + bytes]
    {
      files := files[p := files[p] + bytes];
    }

    method Rename(from: Path, to: Path)
      requires from in files && from != to
      modifies this
      ensures files == (old(files) - {from})[to := old(files)[from]]
    {
      files := (files - {from})[to := files[from]];
    }

    method Read(p: Path) returns (r: Option<Bytes>)
      ensures r == if p in files then Some(files[p]) else None
    {
      r := if p in files then Some(files[p]) else None;
    }

    method RemoveFile(p: Path)
      modifies this
      ensures files == old(files) - {p}
    {
      files := files - {p};
    }

    method RemoveDirAll()
      modifies this
      ensures files == map[]
    {
      files := map[];
    }
  }

  class FilesystemCacheBackend {
    const disk: Disk
    const defaultTtl: Option<Duration>
    const codec: Codec

    constructor (disk: Disk, defaultTtl: Option<Duration>, codec: Codec)
      ensures this.disk == disk && this.defaultTtl == defaultTtl && this.codec == codec
    {
      this.disk := disk;
      this.defaultTtl := defaultTtl;
      this.codec := codec;
    }

    method Set(key: Key, value: Bytes, ttl: Option<Duration>, now: nat)
      modifies disk
      ensures disk.files == FsSet(codec, old(disk.files), key, value, if ttl.Some? then ttl else defaultTtl, now)
    {
      var temp, file, metaPath := Path(key, Tmp), Path(key, Data), Path(key, Meta);
      Install(temp, file, value);
      var meta := EntryMeta(Deadline(EffectiveTtl(ttl, defaultTtl), now), now, |value|);
      Install(temp, metaPath, codec.encode(meta));
    }

    /** Write to a temporary file and rename it into place. */
    method Install(temp: Path, target: Path, bytes: Bytes)
      requires temp != target
      modifies disk
      ensures disk.files == (old(disk.files) - {temp})[target := bytes]
    {
      disk.Create(temp);
      disk.WriteAll(temp, bytes);
      assert [] + bytes == bytes;
      disk.Rename(temp, target);
    }

    method Get(key: Key, now: nat) returns (r: Result<Option<Bytes>, CacheError>)
      modifies disk
      ensures (disk.files, r) == FsGet(codec, old(disk.files), key, now)
    {
      var metaData := disk.Read(Path(key, Meta));
      if metaData.None? { return Ok(None); }
      var meta := codec.decode(metaData.value);
      if meta.None? { return Err(Serialization); }
      if Expired(meta.value.expiresAt, now) {
        disk.RemoveFile(Path(key, Data));
        disk.RemoveFile(Path(key, Meta));
        assert disk.files == FsDelete(old(disk.files), key);
        return Ok(None);
      }
      var data := disk.Read(Path(key, Data));
      if data.Some? { return Ok(data); }
      disk.RemoveFile(Path(key, Meta));
      return Ok(None);
    }

    method Exists(key: Key, now: nat) returns (r: Result<bool, CacheError>)
      ensures r == FsExists(codec, disk.files, key, now)
    {
      var metaData := disk.Read(Path(key, Meta));
      if metaData.None? { return Ok(false); }
      var meta := codec.decode(metaData.value);
      if meta.None? { return Err(Serialization); }
      if Expired(meta.value.expiresAt, now) { return Ok(false); }
      var data := disk.Read(Path(key, Data));
      return Ok(data.Some?);
    }

    method Delete(key: Key)
      modifies disk
      ensures disk.files == FsDelete(old(disk.files), key)
    {
      disk.RemoveFile(Path(key, Data));
      disk.RemoveFile(Path(key, Meta));
    }

    method Clear()
      modifies disk
      ensures disk.files == map[]
    {
      disk.RemoveDirAll();
    }
  }

  // ---- Runs of operations ----

  datatype Op = Set(key: Key, value: Bytes, ttl: Option<Duration>) | Get(key: Key) | Exists(key: Key) | Delete(key: Key) | Clear
  datatype Timed = Timed(op: Op, now: nat)
  datatype Reply = Done | Found(value: Result<Option<Bytes>, CacheError>) | Present(flag: Result<bool, CacheError>)

  ghost predicate NondecreasingTimes(ops: seq<Timed>) {
    forall i, j :: 0 <= i < j < |ops| ==> ops[i].now <= ops[j].now
  }

  function FsStep(codec: Codec, defaultTtl: Option<Duration>, files: Files, t: Timed): (Files, Reply) {
    match t.op
    case Set(k, v, ttl) => (FsSet(codec, files, k, v, EffectiveTtl(ttl, defaultTtl), t.now), Done)
    case Get(k) => var (files', r) := FsGet(codec, files, k, t.now); (files', Found(r))
    case Exists(k) => (files, Present(FsExists(codec, files, k, t.now)))
    case Delete(k) => (FsDelete(files, k), Done)
    case Clear => (map[], Done)
  }

  function FsReplies(codec: Codec, defaultTtl: Option<Duration>, files: Files, ops: seq<Timed>): seq<Reply>
    decreases |ops|
  {
    if |ops| == 0 then [] else
    var (files', reply) := FsStep(codec, defaultTtl, files, ops[0]);
    [reply] + FsReplies(codec, defaultTtl, files', ops[1..])
  }

  /** The cache a caller thinks of: a map from keys to bytes with a deadline, from which nothing is ever swept. */
  datatype PlainEntry = PlainEntry(bytes: Bytes, deadline: Option<nat>)
  type PlainCache = map<Key, PlainEntry>

  function PlainLookup(m: PlainCache, key: Key, now: nat): Option<Bytes> {
    if key in m && !Expired(m[key].deadline, now) then Some(m[key].bytes) else None
  }

  function PlainStep(defaultTtl: Option<Duration>, m: PlainCache, t: Timed): (PlainCache, Reply) {
    match t.op
    case Set(k, v, ttl) => (m[k := PlainEntry(v, Deadline(EffectiveTtl(ttl, defaultTtl), t.now))], Done)
    case Get(k) => (m, Found(Ok(PlainLookup(m, k, t.now))))
    case Exists(k) => (m, Present(Ok(PlainLookup(m, k, t.now).Some?)))
    case Delete(k) => (m - {k}, Done)
    case Clear => (map[], Done)
  }

  function PlainReplies(defaultTtl: Option<Duration>, m: PlainCache, ops: seq<Timed>): seq<Reply>
    decreases |ops|
  {
    if |ops| == 0 then [] else
    var (m', reply) := PlainStep(defaultTtl, m, ops[0]);
    [reply] + PlainReplies(defaultTtl, m', ops[1..])
  }

  // ---- Refinement ----

  /** The two files of one key stand for its plain entry; an entry without files has already expired. */
  ghost predicate KeyAgrees(codec: Codec, files: Files, m: PlainCache, now: nat, k: Key) {
    if Path(k, Meta) in files then
      && Path(k, Data) in files && k in m
      && files[Path(k, Data)] == m[k].bytes
      && codec.decode(files[Path(k, Meta)]).Some?
      && codec.decode(files[Path(k, Meta)]).value.expiresAt == m[k].deadline
    else
      Path(k, Data) !in files && (k in m ==> Expired(m[k].deadline, now))
  }

  ghost predicate Agrees(codec: Codec, files: Files, m: PlainCache, now: nat) {
    forall k :: KeyAgrees(codec, files, m, now, k)
  }

  /** One operation, seen from one key: other keys do not matter to it. */
  lemma StepAgreesOnKey(codec: Codec, defaultTtl: Option<Duration>, files: Files, m: PlainCache, now: nat, t: Timed, k: Key)
    requires codec.Faithful() && KeyAgrees(codec, files, m, now, k) && now <= t.now
    ensures KeyAgrees(codec, FsStep(codec, defaultTtl, files, t).0, PlainStep(defaultTtl, m, t).0, t.now, k)
    ensures (t.op.Get? || t.op.Exists?) && t.op.key == k ==> FsStep(codec, defaultTtl, files, t).1 == PlainStep(defaultTtl, m, t).1
  {
  }

  lemma StepAgrees(codec: Codec, defaultTtl: Option<Duration>, files: Files, m: PlainCache, now: nat, t: Timed)
    requires codec.Faithful() && Agrees(codec, files, m, now) && now <= t.now
    ensures FsStep(codec, defaultTtl, files, t).1 == PlainStep(defaultTtl, m, t).1
    ensures Agrees(codec, FsStep(codec, defaultTtl, files, t).0, PlainStep(defaultTtl, m, t).0, t.now)
  {
    var files', m' := FsStep(codec, defaultTtl, files, t).0, PlainStep(defaultTtl, m, t).0;
    assert t.op.Get? || t.op.Exists? ==> KeyAgrees(codec, files, m, now, t.op.key);
    if t.op.Get? || t.op.Exists? { StepAgreesOnKey(codec, defaultTtl, files, m, now, t, t.op.key); }
    forall k ensures KeyAgrees(codec, files', m', t.now, k) {
      assert KeyAgrees(codec, files, m, now, k);
      StepAgreesOnKey(codec, defaultTtl, files, m, now, t, k);
    }
  }

  lemma {:induction false} RunAgrees(codec: Codec, defaultTtl: Option<Duration>, files: Files, m: PlainCache, now: nat, ops: seq<Timed>)
    requires codec.Faithful() && Agrees(codec, files, m, now)
    requires NondecreasingTimes(ops) && (|ops| > 0 ==> now <= ops[0].now)
    ensures FsReplies(codec, defaultTtl, files, ops) == PlainReplies(defaultTtl, m, ops)
    decreases |ops|
  {
    if |ops| > 0 {
      StepAgrees(codec, defaultTtl, files, m, now, ops[0]);
      var files', m' := FsStep(codec, defaultTtl, files, ops[0]).0, PlainStep(defaultTtl, m, ops[0]).0;
      RunAgrees(codec, defaultTtl, files', m', ops[0].now, ops[1..]);
    }
  }

  /** On a clock that never goes back, the two-file cache answers every sequence of operations as the plain map does. */
  lemma FilesystemRefinesPlain(codec: Codec, defaultTtl: Option<Duration>, ops: seq<Timed>)
    requires codec.Faithful() && NondecreasingTimes(ops)
    ensures FsReplies(codec, defaultTtl, map[], ops) == PlainReplies(defaultTtl, map[], ops)
  {
    RunAgrees(codec, defaultTtl, map[], map[], 0, ops);
  }

  // ---- How long what was set is found ----

  /** The operations that write or remove the value of a key. */
  ghost predicate Touches(op: Op, k: Key) { op.Clear? || ((op.Set? || op.Delete?) && op.key == k) }

  ghost predicate Asks(op: Op, k: Key) { (op.Get? || op.Exists?) && op.key == k }

  /** What a question is answered if this is what the cache has. */
  ghost function Answer(op: Op, found: Option<Bytes>): Reply {
    if op.Get? then Found(Ok(found)) else Present(Ok(found.Some?))
  }

  lemma {:induction false} UntouchedAnswer(codec: Codec, defaultTtl: Option<Duration>, files: Files, k: Key,
      e: PlainEntry, now: nat, between: seq<Timed>, ask: Timed)
    requires codec.Faithful() && KeyAgrees(codec, files, map[k := e], now, k) && Asks(ask.op, k)
    requires NondecreasingTimes(between + [ask]) && now <= (between + [ask])[0].now
    requires forall i :: 0 <= i < |between| ==> !Touches(between[i].op, k)
    ensures |FsReplies(codec, defaultTtl, files, between + [ask])| == |between| + 1
    ensures FsReplies(codec, defaultTtl, files, between + [ask])[|between|] == Answer(ask.op, PlainLookup(map[k := e], k, ask.now))
    decreases |between|
  {
    var ops := between + [ask];
    var m := map[k := e];
    StepAgreesOnKey(codec, defaultTtl, files, m, now, ops[0], k);
    if |between| > 0 {
      assert ops[1..] == between[1..] + [ask];
      var files', m' := FsStep(codec, defaultTtl, files, ops[0]).0, PlainStep(defaultTtl, m, ops[0]).0;
      assert k in m' && m'[k] == e;
      UntouchedAnswer(codec, defaultTtl, files', k, e, ops[0].now, between[1..], ask);
    }
  }

  /**
    What a set stores is found, until another operation writes or removes it, exactly as long as its own time to live
    lasts; without one, as long as the default lasts; without either, for ever. The clock has whole seconds.
   */
  lemma SetIsFoundUntil(codec: Codec, defaultTtl: Option<Duration>, files: Files, k: Key, v: Bytes,
      ttl: Option<Duration>, at: nat, between: seq<Timed>, ask: Timed)
    requires codec.Faithful() && Asks(ask.op, k) && NondecreasingTimes([Timed(Set(k, v, ttl), at)] + between + [ask])
    requires forall i :: 0 <= i < |between| ==> !Touches(between[i].op, k)
    ensures |FsReplies(codec, defaultTtl, files, [Timed(Set(k, v, ttl), at)] + between + [ask])| == |between| + 2
    ensures
      var last := FsReplies(codec, defaultTtl, files, [Timed(Set(k, v, ttl), at)] + between + [ask])[|between| + 1];
      && (last == Answer(ask.op, Some(v)) || last == Answer(ask.op, None))
      && (forall d :: ttl == Some(d) || (ttl.None? && defaultTtl == Some(d)) ==>
           (last == Answer(ask.op, Some(v)) <==> ask.now <= at + d / 1_000_000_000))
      && (ttl.None? && defaultTtl.None? ==> last == Answer(ask.op, Some(v)))
  {
    var first := Timed(Set(k, v, ttl), at);
    var ops := [first] + between + [ask];
    assert ops[0] == first && ops[1..] == between + [ask];
    var e := PlainEntry(v, Deadline(EffectiveTtl(ttl, defaultTtl), at));
    UntouchedAnswer(codec, defaultTtl, FsStep(codec, defaultTtl, files, first).0, k, e, at, between, ask);
  }

  /** A question leaves the files of other keys alone; a miss leaves no readable metadata behind, and a hit everything as it was. */
  lemma QuestionsOnlyRemove(codec: Codec, files: Files, key: Key, now: nat)
    ensures var (files', r) := FsGet(codec, files, key, now);
      && (forall p: Path :: p in files' ==> p in files && files'[p] == files[p])
      && (forall p: Path :: p in files && p !in files' ==> p.key == key && (p.extension.Data? || p.extension.Meta?))
      && (r == Ok(None) ==> Path(key, Meta) !in files')
      && (r != Ok(None) ==> files' == files)
      && (r == Ok(None) && Path(key, Meta) in files ==> Path(key, Data) !in files')
  {
  }
}
