/**
  `FilesystemCacheBackend::set` split into its file operations (src/core/cache/store.rs), with a crash allowed
  between any two and with readers, deletions and other writers in between.
 */
module CacheCrash {
  import opened Wrappers
  import opened FilesystemCache

  type WriterId = nat

  /** Where a writer stands; the counts are the bytes already in the temporary file. */
  datatype Phase =
    | Started
    | WritingData(written: nat)
    | DataInstalled
    | WritingMeta(written: nat)

  datatype Writer = Writer(key: Key, value: Bytes, meta: EntryMeta, phase: Phase)

  /** `sets` remembers every (key, value) a `set` was ever begun with. */
  datatype State = State(files: Files, writers: map<WriterId, Writer>, sets: set<(Key, Bytes)>)

  datatype Action =
    | Begin(id: WriterId, key: Key, value: Bytes, meta: EntryMeta)
    | CreateTmp(id: WriterId)
    | WriteTmp(id: WriterId, upTo: nat)
    | RenameTmp(id: WriterId)
    | Crash(id: WriterId)
    | Remove(path: Path)

  const Init := State(map[], map[], {})

  function Payload(codec: Codec, w: Writer): Bytes {
    if w.phase.WritingData? then w.value else codec.encode(w.meta)
  }

  ghost predicate Enabled(codec: Codec, exclusive: bool, s: State, a: Action) {
    match a
    case Begin(id, key, value, meta) =>
      && id !in s.writers
      && (exclusive ==> forall j :: j in s.writers ==> s.writers[j].key != key)
    case CreateTmp(id) => id in s.writers && (s.writers[id].phase.Started? || s.writers[id].phase.DataInstalled?)
    case WriteTmp(id, upTo) =>
      && id in s.writers && (s.writers[id].phase.WritingData? || s.writers[id].phase.WritingMeta?)
      && s.writers[id].phase.written <= upTo <= |Payload(codec, s.writers[id])|
    case RenameTmp(id) =>
      && id in s.writers && (s.writers[id].phase.WritingData? || s.writers[id].phase.WritingMeta?)
      && s.writers[id].phase.written == |Payload(codec, s.writers[id])|
    case Crash(id) => id in s.writers
    case Remove(path) => true
  }

  function TmpOf(w: Writer): Path { Path(w.key, Tmp) }

  function TargetOf(w: Writer): Path { Path(w.key, if w.phase.WritingData? then Data else Meta) }

  /** Bytes written at a writer's own offset, as the kernel does: what the file held before stays around it. */
  function Overwrite(file: Bytes, offset: nat, bytes: Bytes): Bytes {
    var padded := if |file| < offset then file + seq(offset - |file|, i => 0) else file;
    padded[..offset] + bytes + (if offset + |bytes| < |padded| then padded[offset + |bytes|..] else [])
  }

  function Next(codec: Codec, s: State, a: Action): State
    requires a.CreateTmp? || a.WriteTmp? || a.RenameTmp? ==> a.id in s.writers
    requires a.WriteTmp? ==>
      && (s.writers[a.id].phase.WritingData? || s.writers[a.id].phase.WritingMeta?)
      && s.writers[a.id].phase.written <= a.upTo <= |Payload(codec, s.writers[a.id])|
  {
    match a
    case Begin(id, key, value, meta) =>
      State(s.files, s.writers[id := Writer(key, value, meta, Started)], s.sets + {(key, value)})
    case CreateTmp(id) =>
      var w := s.writers[id];
      var phase := if w.phase.Started? then WritingData(0) else WritingMeta(0);
      s.(files := s.files[TmpOf(w) := []], writers := s.writers[id := w.(phase := phase)])
    case WriteTmp(id, upTo) =>
      var w := s.writers[id];
      var chunk := Payload(codec, w)[w.phase.written..upTo];
      var phase := if w.phase.WritingData? then WritingData(upTo) else WritingMeta(upTo);
      // A temporary file that was removed underneath the writer no longer has a name.
      var files := if TmpOf(w) in s.files
        then s.files[TmpOf(w) := Overwrite(s.files[TmpOf(w)], w.phase.written, chunk)] else s.files;
      s.(files := files, writers := s.writers[id := w.(phase := phase)])
    case RenameTmp(id) =>
      var w := s.writers[id];
      if TmpOf(w) !in s.files then s.(writers := s.writers - {id})
      else
        var files := (s.files - {TmpOf(w)})[TargetOf(w) := s.files[TmpOf(w)]];
        if w.phase.WritingData? then s.(files := files, writers := s.writers[id := w.(phase := DataInstalled)])
        else s.(files := files, writers := s.writers - {id})
    case Crash(id) => s.(writers := s.writers - {id})
    case Remove(path) => s.(files := s.files - {path})
  }

  ghost predicate Legal(codec: Codec, exclusive: bool, s: State, actions: seq<Action>)
    decreases |actions|
  {
    |actions| > 0 ==>
      Enabled(codec, exclusive, s, actions[0]) && Legal(codec, exclusive, Next(codec, s, actions[0]), actions[1..])
  }

  ghost function Run(codec: Codec, exclusive: bool, s: State, actions: seq<Action>): State
    requires Legal(codec, exclusive, s, actions)
    decreases |actions|
  {
    if |actions| == 0 then s else Run(codec, exclusive, Next(codec, s, actions[0]), actions[1..])
  }

  /** Byte by byte: the new bytes where they were written, else the old ones, and zeros in a gap between. */
  lemma OverwriteBytes(file: Bytes, offset: nat, bytes: Bytes)
    requires bytes != []
    ensures var r := Overwrite(file, offset, bytes);
      && |r| == (if offset + |bytes| < |file| then |file| else offset + |bytes|)
      && forall i :: 0 <= i < |r| ==>
           r[i] == if offset <= i < offset + |bytes| then bytes[i - offset] else if i < |file| then file[i] else 0
  {
  }

  /** File operations that a writer has still to do. */
  ghost function ToDo(s: State, id: WriterId): nat {
    if id !in s.writers then 0 else
    match s.writers[id].phase
    case Started => 4
    case WritingData(_) => 3
    case DataInstalled => 2
    case WritingMeta(_) => 1
  }

  /** Every creation and every rename is done once: it brings the set nearer to its end, a write does not set it back. */
  lemma SetsMakeProgress(codec: Codec, exclusive: bool, s: State, a: Action)
    requires Enabled(codec, exclusive, s, a)
    ensures forall id :: id in s.writers ==> ToDo(Next(codec, s, a), id) <= ToDo(s, id)
    ensures a.CreateTmp? || a.RenameTmp? || a.Crash? ==> ToDo(Next(codec, s, a), a.id) < ToDo(s, a.id)
    ensures a.WriteTmp? ==> ToDo(Next(codec, s, a), a.id) == ToDo(s, a.id)
  {
  }

  // ---- One writer per key ----

  ghost predicate TmpHolds(codec: Codec, s: State, w: Writer) {
    w.phase.WritingData? || w.phase.WritingMeta? ==>
      && w.phase.written <= |Payload(codec, w)|
      && (TmpOf(w) in s.files ==> s.files[TmpOf(w)] == Payload(codec, w)[..w.phase.written])
  }

  ghost predicate Invariant(codec: Codec, s: State) {
    && (forall k :: Path(k, Data) in s.files ==> (k, s.files[Path(k, Data)]) in s.sets)
    && (forall k :: Path(k, Meta) in s.files ==> codec.decode(s.files[Path(k, Meta)]).Some?)
    && (forall i, j :: i in s.writers && j in s.writers && s.writers[i].key == s.writers[j].key ==> i == j)
    && (forall i :: i in s.writers ==> (s.writers[i].key, s.writers[i].value) in s.sets)
    && (forall i :: i in s.writers ==> TmpHolds(codec, s, s.writers[i]))
  }

  lemma OverwriteAppends(file: Bytes, bytes: Bytes)
    ensures Overwrite(file, |file|, bytes) == file + bytes
  {
  }

  lemma StepOfWrite(codec: Codec, s: State, id: WriterId, upTo: nat)
    requires codec.Faithful() && Invariant(codec, s) && Enabled(codec, true, s, WriteTmp(id, upTo))
    ensures Invariant(codec, Next(codec, s, WriteTmp(id, upTo)))
  {
    var w := s.writers[id];
    if TmpOf(w) in s.files {
      var p := Payload(codec, w);
      OverwriteAppends(s.files[TmpOf(w)], p[w.phase.written..upTo]);
      assert p[..w.phase.written] + p[w.phase.written..upTo] == p[..upTo];
    }
  }

  lemma StepOfRename(codec: Codec, s: State, id: WriterId)
    requires codec.Faithful() && Invariant(codec, s) && Enabled(codec, true, s, RenameTmp(id))
    ensures Invariant(codec, Next(codec, s, RenameTmp(id)))
  {
    var w := s.writers[id];
    assert TmpHolds(codec, s, w);
    if TmpOf(w) in s.files { assert s.files[TmpOf(w)] == Payload(codec, w); }
  }

  lemma StepOfCreate(codec: Codec, s: State, id: WriterId)
    requires Invariant(codec, s) && Enabled(codec, true, s, CreateTmp(id))
    ensures Invariant(codec, Next(codec, s, CreateTmp(id)))
  {
  }

  lemma StepKeepsInvariant(codec: Codec, s: State, a: Action)
    requires codec.Faithful() && Invariant(codec, s) && Enabled(codec, true, s, a)
    ensures Invariant(codec, Next(codec, s, a))
    ensures s.sets <= Next(codec, s, a).sets
  {
    match a
    case WriteTmp(id, upTo) => StepOfWrite(codec, s, id, upTo);
    case RenameTmp(id) => StepOfRename(codec, s, id);
    case CreateTmp(id) => StepOfCreate(codec, s, id);
    case _ =>
  }

  lemma {:induction false} RunKeepsInvariant(codec: Codec, s: State, actions: seq<Action>)
    requires codec.Faithful() && Invariant(codec, s) && Legal(codec, true, s, actions)
    ensures Invariant(codec, Run(codec, true, s, actions))
    ensures s.sets <= Run(codec, true, s, actions).sets
    decreases |actions|
  {
    if |actions| > 0 {
      StepKeepsInvariant(codec, s, actions[0]);
      RunKeepsInvariant(codec, Next(codec, s, actions[0]), actions[1..]);
    }
  }

  /** A `get` whose metadata read and data read may see different directories. */
  function SplitGet(codec: Codec, atMeta: Files, atData: Files, key: Key, now: nat): Result<Option<Bytes>, CacheError> {
    if Path(key, Meta) !in atMeta then Ok(None) else
    match codec.decode(atMeta[Path(key, Meta)])
    case None => Err(Serialization)
    case Some(meta) =>
      if Expired(meta.expiresAt, now) then Ok(None)
      else Ok(if Path(key, Data) in atData then Some(atData[Path(key, Data)]) else None)
  }

  lemma SplitGetAtOneMoment(codec: Codec, files: Files, key: Key, now: nat)
    ensures SplitGet(codec, files, files, key, now) == FsGet(codec, files, key, now).1
  {
  }

  /**
    Crash safety: after any run of whole, interrupted and abandoned `set`s, removals and crashes with one writer
    per key, a `get` (even one that other steps interrupt) never fails and never sees a torn value: it finds
    nothing, or the complete bytes of some `set` on that key.
   */
  lemma GetIsNeverTorn(codec: Codec, before: seq<Action>, between: seq<Action>, key: Key, now: nat)
    requires codec.Faithful() && Legal(codec, true, Init, before)
    requires Legal(codec, true, Run(codec, true, Init, before), between)
    ensures
      var s := Run(codec, true, Init, before);
      var s' := Run(codec, true, s, between);
      var r := SplitGet(codec, s.files, s'.files, key, now);
      r.Ok? && (r.value.Some? ==> (key, r.value.value) in s'.sets)
  {
    RunKeepsInvariant(codec, Init, before);
    RunKeepsInvariant(codec, Run(codec, true, Init, before), between);
  }

  // ---- The steps of an undisturbed `set` have the effect the sequential model gives it ----

  lemma RunCons(codec: Codec, exclusive: bool, s: State, a: Action, rest: seq<Action>)
    requires Enabled(codec, exclusive, s, a) && Legal(codec, exclusive, Next(codec, s, a), rest)
    ensures Legal(codec, exclusive, s, [a] + rest)
    ensures Run(codec, exclusive, s, [a] + rest) == Run(codec, exclusive, Next(codec, s, a), rest)
  {
    assert ([a] + rest)[1..] == rest;
  }

  /** Create, write and rename, of the data or of the metadata. */
  function InstallActions(id: WriterId, length: nat): seq<Action> {
    [CreateTmp(id)] + ([WriteTmp(id, length)] + ([RenameTmp(id)] + []))
  }

  lemma InstallRuns(codec: Codec, exclusive: bool, s: State, id: WriterId)
    requires id in s.writers && (s.writers[id].phase.Started? || s.writers[id].phase.DataInstalled?)
    ensures
      var w := s.writers[id];
      var payload := if w.phase.Started? then w.value else codec.encode(w.meta);
      var target := Path(w.key, if w.phase.Started? then Data else Meta);
      var actions := InstallActions(id, |payload|);
      && Legal(codec, exclusive, s, actions)
      && Run(codec, exclusive, s, actions) ==
         State((s.files - {Path(w.key, Tmp)})[target := payload],
               if w.phase.Started? then s.writers[id := w.(phase := DataInstalled)] else s.writers - {id},
               s.sets)
  {
    var w := s.writers[id];
    var payload := if w.phase.Started? then w.value else codec.encode(w.meta);
    var s1 := Next(codec, s, CreateTmp(id));
    var s2 := Next(codec, s1, WriteTmp(id, |payload|));
    OverwriteAppends([], payload);
    assert payload[0..|payload|] == payload && [] + payload == payload;
    assert s2.files[Path(w.key, Tmp)] == payload;
    var s3 := Next(codec, s2, RenameTmp(id));
    assert s3.files == (s.files - {Path(w.key, Tmp)})[Path(w.key, if w.phase.Started? then Data else Meta) := payload];
    RunCons(codec, exclusive, s2, RenameTmp(id), []);
    RunCons(codec, exclusive, s1, WriteTmp(id, |payload|), [RenameTmp(id)] + []);
    RunCons(codec, exclusive, s, CreateTmp(id), [WriteTmp(id, |payload|)] + ([RenameTmp(id)] + []));
    assert s3.writers == if w.phase.Started? then s.writers[id := w.(phase := DataInstalled)] else s.writers - {id};
  }

  lemma {:induction false} RunSplits(codec: Codec, exclusive: bool, s: State, xs: seq<Action>, ys: seq<Action>)
    requires Legal(codec, exclusive, s, xs) && Legal(codec, exclusive, Run(codec, exclusive, s, xs), ys)
    ensures Legal(codec, exclusive, s, xs + ys)
    ensures Run(codec, exclusive, s, xs + ys) == Run(codec, exclusive, Run(codec, exclusive, s, xs), ys)
    decreases |xs|
  {
    if |xs| == 0 {
      assert xs + ys == ys;
    } else {
      assert (xs + ys)[1..] == xs[1..] + ys;
      RunSplits(codec, exclusive, Next(codec, s, xs[0]), xs[1..], ys);
    }
  }

  function SetActions(codec: Codec, id: WriterId, key: Key, value: Bytes, meta: EntryMeta): seq<Action> {
    [Begin(id, key, value, meta)] + (InstallActions(id, |value|) + InstallActions(id, |codec.encode(meta)|))
  }

  /** Both installations of a writer that has just begun. */
  lemma BothInstalls(codec: Codec, exclusive: bool, s: State, id: WriterId)
    requires id in s.writers && s.writers[id].phase.Started?
    ensures
      var w := s.writers[id];
      var actions := InstallActions(id, |w.value|) + InstallActions(id, |codec.encode(w.meta)|);
      && Legal(codec, exclusive, s, actions)
      && Run(codec, exclusive, s, actions) ==
         State((s.files - {Path(w.key, Tmp)})[Path(w.key, Data) := w.value][Path(w.key, Meta) := codec.encode(w.meta)],
               s.writers - {id}, s.sets)
  {
    var w := s.writers[id];
    var data, metadata := InstallActions(id, |w.value|), InstallActions(id, |codec.encode(w.meta)|);
    InstallRuns(codec, exclusive, s, id);
    var s2 := Run(codec, exclusive, s, data);
    InstallRuns(codec, exclusive, s2, id);
    RunSplits(codec, exclusive, s, data, metadata);
    assert s2.writers - {id} == s.writers - {id};
    assert s2.files - {Path(w.key, Tmp)} == s2.files;
  }

  lemma UndisturbedSet(codec: Codec, exclusive: bool, s: State, id: WriterId, key: Key, value: Bytes, ttl: Option<Duration>, now: nat)
    requires id !in s.writers && forall j :: j in s.writers ==> s.writers[j].key != key
    ensures
      var actions := SetActions(codec, id, key, value, EntryMeta(Deadline(ttl, now), now, |value|));
      && Legal(codec, exclusive, s, actions)
      && Run(codec, exclusive, s, actions) == State(FsSet(codec, s.files, key, value, ttl, now), s.writers, s.sets + {(key, value)})
  {
    var meta := EntryMeta(Deadline(ttl, now), now, |value|);
    var begin := Begin(id, key, value, meta);
    var s1 := Next(codec, s, begin);
    BothInstalls(codec, exclusive, s1, id);
    RunCons(codec, exclusive, s, begin, InstallActions(id, |value|) + InstallActions(id, |codec.encode(meta)|));
    assert s1.writers - {id} == s.writers;
  }

  /** The window: new data under old metadata is served, whole, until the old deadline. */
  lemma NewDataUnderOldMetadata(codec: Codec, s: State, id: WriterId, key: Key, value: Bytes, meta: EntryMeta, now: nat)
    requires id !in s.writers && forall j :: j in s.writers ==> s.writers[j].key != key
    requires Path(key, Meta) in s.files && codec.decode(s.files[Path(key, Meta)]).Some?
    ensures
      var actions := [Begin(id, key, value, meta)] + InstallActions(id, |value|);
      && Legal(codec, true, s, actions)
      && FsGet(codec, Run(codec, true, s, actions).files, key, now).1
         == Ok(if Expired(codec.decode(s.files[Path(key, Meta)]).value.expiresAt, now) then None else Some(value))
  {
    InstallRuns(codec, true, Next(codec, s, Begin(id, key, value, meta)), id);
    RunCons(codec, true, s, Begin(id, key, value, meta), InstallActions(id, |value|));
  }

  // ---- Two writers on one key ----

  /**
    Both temporary names of a key are the same file, so the guarantee needs one writer per key: a second writer
    empties the file the first is about to install, and a reader with valid metadata then sees neither value.
   */
  lemma TwoWritersTear(codec: Codec, key: Key, v1: Bytes, v2: Bytes, meta: EntryMeta)
    requires codec.Faithful() && v1 != [] && v2 != [] && meta.expiresAt.None?
    ensures exists actions ::
      && Legal(codec, false, Init, actions)
      && var s := Run(codec, false, Init, actions);
         FsGet(codec, s.files, key, 0).1 == Ok(Some([])) && (key, []) !in s.sets
  {
    var first := [Begin(0, key, v1, meta)] + (InstallActions(0, |v1|) + InstallActions(0, |codec.encode(meta)|));
    FirstWriter(codec, key, v1, meta);
    var s0 := Run(codec, false, Init, first);
    var second := SecondWriters(codec, s0, key, v1, v2, meta);
    RunSplits(codec, false, Init, first, second);
    var s := Run(codec, false, Init, first + second);
    assert s.files[Path(key, Meta)] == codec.encode(meta);
  }

  lemma SecondWriters(codec: Codec, s0: State, key: Key, v1: Bytes, v2: Bytes, meta: EntryMeta) returns (actions: seq<Action>)
    requires s0.writers == map[] && Path(key, Meta) in s0.files
    ensures Legal(codec, false, s0, actions)
    ensures var s := Run(codec, false, s0, actions);
      && Path(key, Data) in s.files && s.files[Path(key, Data)] == []
      && Path(key, Meta) in s.files && s.files[Path(key, Meta)] == s0.files[Path(key, Meta)]
      && s.sets == s0.sets + {(key, v1), (key, v2)}
  {
    var a, b, c := Begin(1, key, v1, meta), CreateTmp(1), WriteTmp(1, |v1|);
    var s1 := Next(codec, s0, a);
    var s2 := Next(codec, s1, b);
    var s3 := Next(codec, s2, c);
    var rest := SecondWriterEmpties(codec, s3, key, v1, v2, meta);
    RunCons(codec, false, s2, c, rest);
    RunCons(codec, false, s1, b, [c] + rest);
    RunCons(codec, false, s0, a, [b] + ([c] + rest));
    actions := [a] + ([b] + ([c] + rest));
  }

  /** The second writer empties the temporary file that the first then installs. */
  lemma SecondWriterEmpties(codec: Codec, s: State, key: Key, v1: Bytes, v2: Bytes, meta: EntryMeta) returns (actions: seq<Action>)
    requires s.writers == map[1 := Writer(key, v1, meta, WritingData(|v1|))] && Path(key, Meta) in s.files
    ensures Legal(codec, false, s, actions)
    ensures var t := Run(codec, false, s, actions);
      && Path(key, Data) in t.files && t.files[Path(key, Data)] == []
      && Path(key, Meta) in t.files && t.files[Path(key, Meta)] == s.files[Path(key, Meta)]
      && t.sets == s.sets + {(key, v2)}
  {
    var d, e, f := Begin(2, key, v2, meta), CreateTmp(2), RenameTmp(1);
    var s1 := Next(codec, s, d);
    var s2 := Next(codec, s1, e);
    RunCons(codec, false, s2, f, []);
    RunCons(codec, false, s1, e, [f] + []);
    RunCons(codec, false, s, d, [e] + ([f] + []));
    actions := [d] + ([e] + ([f] + []));
    assert s2.files[Path(key, Tmp)] == [];
    assert Run(codec, false, s, actions) == Next(codec, s2, f);
  }

  lemma FirstWriter(codec: Codec, key: Key, v: Bytes, meta: EntryMeta)
    ensures
      var actions := [Begin(0, key, v, meta)] + (InstallActions(0, |v|) + InstallActions(0, |codec.encode(meta)|));
      && Legal(codec, false, Init, actions)
      && Run(codec, false, Init, actions)
         == State(map[Path(key, Data) := v, Path(key, Meta) := codec.encode(meta)], map[], {(key, v)})
  {
    var s1 := Next(codec, Init, Begin(0, key, v, meta));
    BothInstalls(codec, false, s1, 0);
    RunCons(codec, false, Init, Begin(0, key, v, meta), InstallActions(0, |v|) + InstallActions(0, |codec.encode(meta)|));
    assert s1.writers - {0} == map[];
  }
}
