# Sayna core: a Dafny model

Sayna is a real-time voice server written in Rust. This project models the parts of it that hold state or keep a
promise across calls, and proves those promises for all inputs, all runs and all interleavings:

- **Provider credentials** (`Json`, `JsonTokens`, `JsonSyntax`, `CanonicalJson`, `ProviderAuth`): a JSON value printer and
  reader, proved against the grammar of RFC 8259; the printer that sorts object keys; and the text from which a credential's
  cache fingerprint is computed.
- **The cache** (`FilesystemCache`, `CacheCrash`, `MemoryCache`, `CacheStore`): two files per key with lazy expiry, `set`
  taken apart into its file operations with crashes in between, an evicting in-memory backend, and the counters.
- **Room ownership** (`RoomMetadata`, `RoomHandler`, `RoomOwnership`): the tenant id in a room's metadata, the
  create-if-missing call with its retry, and any number of such calls interleaved on a shared server.
- **The request manager** (`RetryDelay`, `RequestRetry`, `RequestCounters`, `RequestConcurrency`, `KeepAlive`): saturating
  backoff with jitter in fixed-width integers, the retry loop, shared counters, the semaphore, the keep-alive loop.
- **SIP hooks** (`SipHooks`, `SipHooksState`): two merges over hash maps, the cache file, runtime updates and restarts.
- **The LiveKit operation queue** (`AudioQueue`, `QueueStats`): generation stamps, cancellation and an integer mean.
- **Audio** (`Pcm`, `Floats`, `Base64`, `LoadingClip`, `FrameModel`, `NoiseFilter`, `NoisePaths`, `NoiseWorker`, `NoisePool`): decoding of
  loading clips, the noise filter's chunker, and the worker pool that calls check senders out of.

Code that changes state in the source is a class or a method with loops here, proved against a function of its inputs or
its old state; the theorems are about those functions. Protocols are step machines, and their theorems are about every
legal sequence of steps. `dafny verify dfyconfig.toml` checks the whole project.

## What the proofs found

Where the source's comments and its code differ, the model follows the code.

- The fingerprint text of Azure credentials is unambiguous exactly when neither key nor region contains `|`.
- Both temporary names of a cache key are one file. With one writer per key no reader ever sees a torn value; two writers
  on one key can install an empty one. Between the two renames of a `set`, the new data is served until the old deadline.
- The comments promise that a room cannot change tenant. Over any run, a tenant keeps its room throughout exactly when no
  update reaches the room while it is another tenant's (`TenantKeepsRoomIff`), and no call lets that happen if only calls of
  its own tenant write between its read and its update; `SplitUpdatesOverwrite` is a run in which both tenants succeed.
- Canonicalising credentials is idempotent, and claiming a room keeps its other fields, exactly when the numbers in them
  read back as they print. A float such as 9.007525113376826 does not, with the JSON library's default rounding.
- A request whose future is dropped, or that panics, is counted in the total but neither as successful nor as failed.
- The jitter comment says 25 % either way; the code draws from an eighth either way. A capped delay under 4 ms divides by
  zero, a retry count of `u32::MAX` makes the unwrap fail, and resetting the metrics while a request is active makes the
  active count wrap. The keep-alive comment says ten failures; the loop stops at the eleventh.
- The third loop of `merge_hooks` changes nothing. A restart reproduces the live hooks exactly when the auth ids taken from
  the list have no surrounding white space.
- With two producers of audio a stale operation can follow a current one in the queue; with one producer it cannot.
- The largest loading-clip payload that is accepted is 1924095 bytes, one less than the constant, and the size guard after
  decoding can never act. A clip may last just under 10001 ms.
- The skip counter for silent audio has no effect on what is returned. The comment of `process_audio_chunk` says that audio
  is returned unchanged if processing fails; the code returns an error. "Original volume" is 98 % of the original peak.
- A dead noise worker's sender keeps circulating in the pool, and each call that draws it fails.
- A retry delay near the end of `i64` is not waited out: the sum wraps and the wait becomes zero or short (`ShiftedIs`).

## Assumptions

- SHA-256 and xxh3 do not collide: the text that is hashed, and the key, stand for their hashes.
- serde_json is built without `preserve_order`, so a map is a B-tree map, and without `float_roundtrip`, so a printed float
  need not read back as itself: the reading of number literals is a parameter, of which only this is assumed, that a
  printed number is a literal it accepts. Nesting is limited to 127 levels. Strings are sequences of Unicode scalar values.
- The metadata codec of the cache reads back what it wrote. The in-memory cache library may drop any entry at any time.
- Hosts are ASCII, where `to_lowercase` and `eq_ignore_ascii_case` agree.
- The WAV reader yields as many samples as the header declares, or an error.
- Float operations are exact and then rounded by a parameter: any monotone, symmetric rounding that keeps the integers and
  the scaled samples and errs by at most 2^-24 of a normal result, as `f32` does where it does not overflow. The square root
  and the filter's time constant are parameters. The noise model is any function of all the frames it was given.

## Model

| member | source | states |
|---|---|---|
| JsonSyntax.ReadEmit | src/core/providers/auth.rs:287-330 | reading printed text gives the value with its numbers read once more, whatever text follows, within the nesting limit |
| Json.RenumFixedIff | src/core/providers/auth.rs:280-285 | reading the numbers once more changes nothing iff every number is a fixed point of the reader |
| JsonTokens.NumberIff | src/core/providers/auth.rs:280-285 | a text is taken for a number literal iff it has the form of section 6 of RFC 8259 |
| JsonSyntax.FromStrIff | src/core/providers/auth.rs:280-285 | the reader accepts a text, as a value, iff the text is white space around a syntax tree of the grammar, at most 127 levels deep, whose value it is: both ways, for every text |
| JsonSyntax.PrintedIsShortest | src/core/providers/auth.rs:298-300 | of all spellings of a character the printed one is a shortest, and codes are in lower case |
| JsonSyntax.QuoteInverse | src/core/providers/auth.rs:298-300 | string escapes (section 7 of RFC 8259) are self-delimiting: reading stops at the quotation mark that was printed |
| JsonSyntax.FromStrAgain | src/livekit/metadata.rs:174-201 | whatever was read prints to text that reads back, as the same value iff its numbers are fixed points of the reader |
| CanonicalJson.SortedListUnique | src/core/providers/auth.rs:313-314 | two lists sorted by key with the same elements are the same list, so the sort order of members is determined |
| CanonicalJson.SameMeaningSameCanon | src/core/providers/auth.rs:293-330 | values that differ only in the order of entries, at any depth, have one canonical form |
| CanonicalJson.CanonKeepsMeaning | src/core/providers/auth.rs:293-330 | the canonical form means the same, with objects read as finite maps |
| CanonicalJson.ReadCanonicalText | src/core/providers/auth.rs:287-330 | canonical text followed by anything reads back as the canonical form and that rest |
| CanonicalJson.CanonicalTextIffSameMeaning | src/core/providers/auth.rs:287-330 | two values print to the same canonical text if and only if they are equal with objects as finite maps |
| Text.LessIff | src/core/providers/auth.rs:313-314 | one key is below another iff it is a proper prefix of it or has the smaller character at the first difference |
| CanonicalJson.CanonicalObjectText | src/core/providers/auth.rs:311-328 | the text of an object lists each member once, its value canonical, with ascending keys: prefix first, else the smaller character at the first difference |
| ProviderAuth.WriteCanonicalJson | src/core/providers/auth.rs:293-330 | the recursive printer appends exactly the canonical text to the shared string |
| ProviderAuth.WriteArray | src/core/providers/auth.rs:301-310 | the array arm appends the canonical text of the array |
| ProviderAuth.WriteObject | src/core/providers/auth.rs:311-328 | the object arm, which sorts first and prints members afterwards, appends the canonical text of the object |
| ProviderAuth.CanonicalJsonString | src/core/providers/auth.rs:287-291 | returns the canonical text |
| ProviderAuth.SortCommutesWithCanon | src/core/providers/auth.rs:311-328 | sorting and then printing members canonically is the same as sorting the canonical members |
| ProviderAuth.CanonicalizeIdempotentIff | src/core/providers/auth.rs:280-285 | canonicalising credentials twice is canonicalising once iff every number in them is a fixed point of the reader |
| ProviderAuth.CanonicalizeDrifts | src/core/providers/auth.rs:280-285 | with a reader that rounds a certain float as the library does by default, canonicalising it again changes it again |
| ProviderAuth.CanonicalizeIffSameCredentials | src/core/providers/auth.rs:280-285 | two credential strings canonicalise alike iff they are the same text or JSON of the same meaning; the fallback for malformed JSON collides with nothing |
| ProviderAuth.MaterialDeterminesVariant | src/core/providers/auth.rs:132-143 | equal fingerprint text implies the same kind of credentials |
| ProviderAuth.MaterialIffSameAuth | src/core/providers/auth.rs:132-143 | equal fingerprint text iff the same credentials, for regions without the separator |
| ProviderAuth.AzureMaterialUniqueIff | src/core/providers/auth.rs:132-143 | an Azure pair shares its text with no other pair exactly when neither key nor region holds the separator |
| FilesystemCache.FilesystemCacheBackend.Set | src/core/cache/store.rs:264-305 | create, write and rename, twice, leave exactly the new data and metadata files |
| FilesystemCache.FilesystemCacheBackend.Get | src/core/cache/store.rs:307-341 | the answer, and the removal of expired or orphaned files |
| FilesystemCache.FilesystemCacheBackend.Exists | src/core/cache/store.rs:343-366 | the answer of `exists`, which removes nothing |
| FilesystemCache.FilesystemCacheBackend.Delete | src/core/cache/store.rs:368-376 | both files are gone and nothing else |
| FilesystemCache.FilesystemCacheBackend.Clear | src/core/cache/store.rs:378-383 | no file is left |
| FilesystemCache.StepAgrees | src/core/cache/store.rs:262-388 | one operation answers as on a plain map and keeps the two files of every key in agreement with it |
| FilesystemCache.FilesystemRefinesPlain | src/core/cache/store.rs:262-388 | every sequence of operations on a clock that never goes back is answered as by a plain map from key to bytes and deadline |
| FilesystemCache.SetIsFoundUntil | src/core/cache/store.rs:264-366 | what a set stores is found, until written or removed, exactly as long as its own time to live lasts, else the default, else for ever; stated over the replies |
| FilesystemCache.QuestionsOnlyRemove | src/core/cache/store.rs:307-341 | a get touches no other key, leaves everything after a hit, and neither file that metadata announced after a miss |
| CacheCrash.StepKeepsInvariant | src/core/cache/store.rs:264-305 | every create, partial write, rename, crash or removal keeps data files whole and metadata readable |
| CacheCrash.GetIsNeverTorn | src/core/cache/store.rs:264-341 | after any run with crashes anywhere and one writer per key, a `get`, itself interruptible, finds nothing or the complete bytes of some `set` on that key |
| CacheCrash.UndisturbedSet | src/core/cache/store.rs:264-305 | the steps of a `set` nobody disturbs have the effect that the sequential model gives it |
| CacheCrash.SetsMakeProgress | src/core/cache/store.rs:273-302 | each creation and each rename of a set happens once and brings it nearer to its end, whoever else is at work |
| CacheCrash.OverwriteBytes | src/core/cache/store.rs:273-277 | what a write at an offset leaves in a file, byte by byte |
| CacheCrash.NewDataUnderOldMetadata | src/core/cache/store.rs:273-302 | between the renames, new data is served whole until the old deadline |
| CacheCrash.TwoWritersTear | src/core/cache/store.rs:273-302 | with two writers on one key there is a run after which a `get` returns bytes no one ever set |
| MemoryCache.MemoryCacheBackend.Set | src/core/cache/store.rs:164-174 | the entry is stored with its deadline |
| MemoryCache.MemoryCacheBackend.Get | src/core/cache/store.rs:176-188 | the answer, and the removal of an expired entry |
| MemoryCache.MemoryCacheBackend.Exists | src/core/cache/store.rs:190-202 | true exactly when `get` would find a value, with the same removal |
| MemoryCache.MemoryMatchesFilesystemOrMisses | src/core/cache/store.rs:162-218 | whatever is evicted when, on whole seconds every answer is the filesystem backend's or a miss |
| MemoryCache.MemoryEqualsFilesystemWithoutEviction | src/core/cache/store.rs:162-218 | without eviction the two backends answer alike |
| MemoryCache.MemQuestionsOnlyRemove | src/core/cache/store.rs:176-188 | a get removes at most the entry it asks for, and only when it misses |
| CacheStore.CacheStore.Put | src/core/cache/store.rs:506-519 | stores under the derived key in either backend and counts a set |
| CacheStore.CacheStore.PutWithTtl | src/core/cache/store.rs:522-541 | the same with an explicit time to live |
| CacheStore.CacheStore.Get | src/core/cache/store.rs:544-558 | either backend's answer and effect; a hit or a miss is counted, and nothing on an error |
| CacheStore.CacheStore.Exists | src/core/cache/store.rs:561-564 | either backend's answer and effect, and nothing is counted |
| CacheStore.CacheStore.Delete | src/core/cache/store.rs:567-575 | deletes from either backend and counts a delete |
| CacheStore.PutIsFoundUntil | src/core/cache/store.rs:506-564 | in either backend, to the nanosecond in memory and to the second on disk: what a put stores is found, until written or removed, exactly as long as its own time to live lasts, else the default, else for ever; in memory it may be missed only if evicted |
| CacheStore.PutIsStoredUnder | src/core/cache/store.rs:497-503 | the backend holds it under the hash of its key, or under the key itself without hashing |
| CacheStore.HitsAndMissesCountGets | src/core/cache/store.rs:506-575 | over any run and any replies each counter is the number of its completed calls, and hits plus misses the number of completed gets |
| RoomMetadata.MergeAuthIdSpec | src/livekit/metadata.rs:174-201 | a merge succeeds iff the text is blank or a JSON object and names no other tenant, stores the id, and keeps each other field iff its numbers are fixed points of the reader; a conflict names both ids |
| RoomMetadata.MergeAuthIdIdempotentIff | src/livekit/metadata.rs:174-201 | merging the same id again changes nothing iff the numbers the first merge wrote are fixed points of the reader |
| RoomMetadata.ParseSerialized | src/livekit/metadata.rs:81-98 | metadata serialised here parses back to the same map with its numbers read once more |
| RoomMetadata.HelpersRead | src/livekit/metadata.rs:81-134 | the helpers read blank text as an empty object, an object as itself, and refuse anything else, each kind with its error; the tenant is the string under auth_id |
| RoomMetadata.FieldDrifts | src/livekit/metadata.rs:174-201 | with a reader that rounds a certain float as the library does by default, claiming a room changes its other field |
| RoomHandler.EnsureRoomAuthId | src/livekit/room_handler.rs:799-847 | the method computes the effect that the lemmas below are about, lost requests and responses included |
| RoomHandler.EnsureEffectSpec | src/livekit/room_handler.rs:799-847 | an undivided call writes a room at most to claim it, returns Ok only if the room then carries the id, conflicts iff another tenant owns it, refuses text that is neither blank nor an object, and then writes nothing; else, delivered, it claims the room |
| RoomHandler.EnsureRoomWithAuthId | src/livekit/room_handler.rs:883-921 | try, create, retry, with other processes creating rooms around the creation |
| RoomHandler.EnsureWithEffectSpec | src/livekit/room_handler.rs:883-921 | the retry keeps all of it, whoever wins the race to create the room |
| RoomHandler.RetryOutcome | src/livekit/room_handler.rs:903-920 | for a missing room the outcome is decided by what the retry finds |
| RoomHandler.EnsureRoomExists | src/livekit/room_handler.rs:952-992 | the room is there on success, and no metadata changes |
| RoomHandler.SurvivingFields | src/livekit/room_handler.rs:799-847 | metadata that names a tenant stays to the letter; another field survives iff nothing was written or its numbers are fixed points |
| RoomOwnership.StepInvariant | src/livekit/room_handler.rs:799-921 | every interleaved step keeps pending updates current, and rooms as they must stay, when only calls of the same tenant write between a call's read and update |
| RoomOwnership.OkMeansOwned | src/livekit/room_handler.rs:820-846 | a call ends well only in a state where the room carries its id |
| RoomOwnership.ConflictWithoutWriting | src/livekit/room_handler.rs:829-836 | a call that reads another tenant's id ends with a conflict and writes nothing |
| RoomOwnership.UnreadableIsRefused | src/livekit/room_handler.rs:838-843 | a call that reads metadata which is neither blank nor an object ends with an error and writes nothing |
| RoomOwnership.OwnershipNeverChanges | src/livekit/room_handler.rs:799-921 | in every run in which nobody else writes between a call's read and its update, metadata that names a tenant, or cannot be read, stays to the letter while the room exists; other metadata may be claimed once, and keeps each field iff its numbers are fixed points |
| RoomOwnership.OtherTenantsNeverSucceed | src/livekit/room_handler.rs:799-921 | in such runs no call of another tenant on the room ever succeeds |
| RoomOwnership.TenantChangesIff | src/livekit/room_handler.rs:806-846 | in any state of any run, one step changes the tenant of a room that stays iff it is an update that reaches the room as another tenant's |
| RoomOwnership.TenantKeepsRoomIff | src/livekit/room_handler.rs:799-921 | over any run at all a tenant keeps its room throughout iff no step is such an update |
| RoomOwnership.SplitUpdatesOverwrite | src/livekit/room_handler.rs:806-846 | with split updates there is a run in which two tenants both succeed on one room |
| RetryDelay.CappedDelayIsExact | src/utils/req_manager.rs:201-210 | the saturating delay is min(base * 2^(attempt-1), max) over unbounded integers |
| RetryDelay.JitterIsBounded | src/utils/req_manager.rs:212-222 | the jittered delay is within an eighth of the cap either way, and positive before the clamp |
| RetryDelay.JitterSafeIff | src/utils/req_manager.rs:212-222 | that holds for all clock readings iff the cap is at least 4 ms and leaves `i64` room; below 4 ms it divides by zero |
| RetryDelay.RetryDelayPanicsIff | src/utils/req_manager.rs:201-223 | no attempt divides by zero iff both configured delays are at least 4 ms |
| RetryDelay.RetryDelayIsBackoff | src/utils/req_manager.rs:201-223 | whatever the clock reads, the k-th retry waits within an eighth of the promised delay, which starts at the base and doubles up to the maximum, iff that is at least 4 ms and leaves `i64` room |
| RetryDelay.ShiftedIs | src/utils/req_manager.rs:212-222 | what the signed arithmetic makes of every delay: exact as far as it reaches, then zero, then wrapped |
| RequestRetry.ExecuteWithRetry | src/utils/req_manager.rs:156-198 | for every sequence of answers: the first success or the last error, between 1 and max_retries + 1 requests, the retries counted, each after a sleep within an eighth of the promised delay, and exactly when it panics |
| RequestRetry.BackOff | src/utils/req_manager.rs:201-223 | a delay, within an eighth of the promised one, or a division by zero |
| RequestRetry.Request | src/utils/req_manager.rs:114-153 | one call counts one request, and one outcome and its retries unless it panics, and panics exactly when the loop does |
| RequestRetry.UpdateMetrics | src/utils/req_manager.rs:226-241 | exactly one of the two outcome counters goes up |
| RequestRetry.OutcomeSpec | src/utils/req_manager.rs:156-198 | what first-success-or-last-error means, without the loop |
| RequestCounters.QuiescentCounters | src/utils/req_manager.rs:114-241 | in every interleaving, dropped futures and panics included, with no call in flight: total = successful + failed + lost, total = successful + failed iff no call was lost, retries <= max_retries * total, and retry successes <= retries and <= successful + lost successes |
| RequestCounters.RetrySuccessesAreSuccesses | src/utils/req_manager.rs:114-198 | futures dropped where the source awaits lose no success: retry successes <= successful |
| RequestCounters.EveryAnswerIsCounted | src/utils/req_manager.rs:114-241 | with no call in flight, successes are the successful answers and retries plus failures the failed ones, up to those whose call was lost; total is the calls made |
| RequestCounters.CallsEnd | src/utils/req_manager.rs:165-198 | every answer brings its call nearer to its end, and no call gets more than max_retries + 1 |
| RequestConcurrency.StepKeepsInvariant | src/utils/req_manager.rs:434-454 | every atomic step keeps permits, active count and peak in agreement |
| RequestConcurrency.ConcurrencyIsBounded | src/utils/req_manager.rs:434-454 | in every interleaving active <= held permits <= max, peak <= max, and the peak is the highest active count whenever no task is between its two updates |
| RequestConcurrency.HighestIsTracked | src/utils/req_manager.rs:440-444 | the tracked maximum is the highest active count of any state of the run |
| RequestConcurrency.TasksEnd | src/utils/req_manager.rs:434-454 | each task takes each of its steps at most once and moves no other |
| RequestConcurrency.ResetSafeIff | src/utils/req_manager.rs:761-769 | resetting the metrics keeps the invariant iff no guard is counted |
| RequestConcurrency.ResetShortensActive | src/utils/req_manager.rs:761-769 | after a reset with k counted guards, in every later state the active count is the counted guards minus k modulo 2^64; right iff k is 0 |
| RequestConcurrency.ResetThenDropWraps | src/utils/req_manager.rs:244-251 | in particular the drop of one forgotten guard leaves the largest count |
| KeepAlive.KeepAliveLoop | src/utils/req_manager.rs:681-735 | the loop stops exactly at the eleventh failure in a row, and its interval is the stated function of the whole history |
| KeepAlive.TrailingFailuresIff | src/utils/req_manager.rs:709-728 | the failure count is at least n iff the last n answers all failed |
| KeepAlive.IntervalRecovers | src/utils/req_manager.rs:679-720 | the interval starts at 3 s, a third failure in a row makes it 2 s, and from either point every answer adds one, up to 10, while timeouts and single failures change nothing |
| SipHooks.ValidateNoDuplicateHosts | src/utils/sip_hooks.rs:97-111 | a list is rejected iff two hosts agree up to case, and the error names such a host |
| SipHooks.NormalizeHostIff | src/utils/sip_hooks.rs:68-84 | two hosts are one iff they agree up to case and surrounding white space |
| SipHooks.HooksCache.WriteHooksCache | src/utils/sip_hooks.rs:170-200 | the file gets the normalised list iff its hosts are distinct, and is untouched otherwise |
| SipHooks.HooksCache.ReadHooksCache | src/utils/sip_hooks.rs:121-156 | what each kind of file content is read as |
| SipHooks.WriteThenRead | src/utils/sip_hooks.rs:121-200 | what was written is read back as the normalised list, in order |
| SipHooks.MergeHooksWithSecrets | src/utils/sip_hooks.rs:273-314 | the loops list exactly the merged map, in an order nobody can rely on |
| SipHooks.MergedMapSpec | src/utils/sip_hooks.rs:273-314 | field by field: configured hosts keep the url, secret and auth id of their last configured hook; others take their first cached entry, without a secret; there are no more |
| SipHooks.NormalizedMerge | src/utils/sip_hooks.rs:273-314 | how each merged entry comes back after its list went through the file |
| SipHooks.RestartReproducesLiveIff | src/utils/sip_hooks.rs:121-314 | a restart reproduces the live merge iff the auth ids taken from the list are trimmed |
| SipHooks.RestartOfNewHooks | src/utils/sip_hooks.rs:68-78 | hooks built by `CachedSipHook::new` always survive a restart |
| SipHooks.MergeHooks | src/utils/sip_hooks.rs:218-266 | a last-wins union biased to the cached list; the third loop adds nothing |
| SipHooks.MergeHooksSpec | src/utils/sip_hooks.rs:218-266 | host by host: the last cached hook as it is, or else url and auth id of the last existing one; no host twice, none from elsewhere |
| SipHooksState.SipHooksState.constructor | src/state/sip_hooks_state.rs:18-49 | the state lists the merge of configuration and cache file, or of the configuration alone if the file cannot be read |
| SipHooksState.SipHooksState.UpdateHooks | src/state/sip_hooks_state.rs:74-82 | the state lists the merge of configuration and new list, and returns it |
| SipHooksState.SipHooksState.GetHookForDomain | src/state/sip_hooks_state.rs:57-61 | the first listed hook whose host matches up to case |
| SipHooksState.SipHooksState.GetSigningSecret | src/state/sip_hooks_state.rs:64-66 | the hook's own secret, or else the global one |
| SipHooksState.LookupIgnoresOrder | src/state/sip_hooks_state.rs:57-61 | a domain finds the same hook whatever order the hash map listed them in |
| SipHooksState.HostsAreNormalised | src/state/sip_hooks_state.rs:18-82 | hosts in the state are unique and normalised, one per host of the merged map |
| SipHooksState.RunsAgree | src/state/sip_hooks_state.rs:18-82 | over all runs with one configuration answers depend only on the last list, and configured hosts never change |
| SipHooksState.SecretsInRuns | src/state/sip_hooks_state.rs:18-82 | at every moment of every run a configured domain with a secret is signed with that secret, and any other domain with a hook with the global one |
| SipHooksState.StartWithoutList | src/state/sip_hooks_state.rs:18-49 | a start without a readable cache file answers exactly the configured domains |
| SipHooksState.CachedHooksHaveNoSecret | src/state/sip_hooks_state.rs:18-82 | hosts outside the configuration take their first cached entry and have no secret |
| SipHooksState.RestartAnswersAlikeIff | src/state/sip_hooks_state.rs:18-82 | an update and a restart from its file answer every domain alike iff the taken auth ids are trimmed |
| AudioQueue.OperationQueue.CancelAudio | src/livekit/operations.rs:140-142 | takes the cancel step and returns the new generation |
| AudioQueue.OperationQueue.QueueAudio | src/livekit/operations.rs:166-178 | takes the stamp step and then the send step; on a closed channel only the stamp step, and an error |
| AudioQueue.RunInvariant | src/livekit/operations.rs:140-178 | in every interleaving stamps are the number of cancels at their step and the channel holds what was sent and not received |
| AudioQueue.StaleIffCancelledSinceStamp | src/livekit/client/operation_worker.rs:146-155 | an audio operation fails the worker's test iff some cancel came between its stamp and the test |
| AudioQueue.QueueIsFifo | src/livekit/operations.rs:155-161 | the channel is first in, first out, loses nothing and keeps its capacity |
| AudioQueue.StepsAreCounted | src/livekit/operations.rs:155-178 | what was stamped is sent or waits to be, what was sent is received or in the channel, what was received is tested or in hand |
| AudioQueue.NothingIsRepeated | src/livekit/operations.rs:166-178 | no audio operation is sent or received twice |
| AudioQueue.NobodyIsStuck | src/livekit/operations.rs:140-178 | a cancel is never held up, and while a producer cannot send the worker can go on |
| AudioQueue.OneProducerSorts | src/livekit/operations.rs:166-178 | with one producer the queue's history is sorted by generation |
| AudioQueue.CurrentSuffix | src/livekit/operations.rs:166-178 | with one producer everything behind a current operation is current |
| AudioQueue.TwoProducersInterleave | src/livekit/operations.rs:166-178 | with two producers a stale operation can wait behind a current one |
| QueueStats.QueueStats.RecordOperation | src/livekit/operations.rs:208-243 | the seven fields after one recorded operation |
| QueueStats.MeanDrift | src/livekit/operations.rs:235-242 | after n operations with latency sum S, n*a <= S <= n*a + n(n-1)/2 |
| QueueStats.MeanWithinRange | src/livekit/operations.rs:235-242 | the mean lies between any bounds of the latencies |
| QueueStats.IntermediateFits | src/livekit/operations.rs:239-242 | the product the mean is computed from never exceeds the latency sum, so it cannot overflow before that does |
| QueueStats.CountersAddUp | src/livekit/operations.rs:214-233 | success plus failure is total, audio plus message at most total, and the maximum is the maximum |
| QueueStats.CountersCount | src/livekit/operations.rs:208-233 | each counter is the number of its operations: all, those that succeeded, failed, sent or cleared audio, or sent messages |
| Pcm.DecodeEncode | src/livekit/loading_clip.rs:297-300 | little-endian decoding inverts encoding |
| Pcm.EncodeDecode | src/livekit/loading_clip.rs:297-300 | and encoding inverts decoding, on whole samples |
| Base64.DecodeEncode | src/livekit/loading_clip.rs:150-153 | decoding inverts encoding (section 4 of RFC 4648, padding required) |
| Base64.EncodeDecode | src/livekit/loading_clip.rs:150-153 | every accepted text is the one encoding of its bytes |
| Base64.DecodedLength | src/livekit/loading_clip.rs:139-153 | n groups of four characters are worth 3n bytes, or one or two less |
| LoadingClip.DecodeLoadingClip | src/livekit/loading_clip.rs:132-231 | the decoded and validated audio with the clamped volume applied, and the same errors |
| LoadingClip.ApplyVolume | src/livekit/loading_clip.rs:114-119 | every sample of the buffer is scaled in place, with the products rounded |
| LoadingClip.VolumeNeverAmplifies | src/livekit/loading_clip.rs:114-119 | for every rounding to nearest, scaling never enlarges a sample or flips its sign, so the clamp does nothing |
| LoadingClip.VolumeApplied | src/livekit/loading_clip.rs:114-119 | no volume, one or more, and a NaN leave the samples as they are; zero or less silences them; else each is scaled up to half a step and a rounding |
| LoadingClip.WavMagic | src/livekit/loading_clip.rs:167-176 | without a hint a payload is WAV iff it starts with RIFF, any four bytes and WAVE |
| LoadingClip.FormatHint | src/livekit/loading_clip.rs:166-176 | a hint decides whatever the bytes are: wav and pcm in any case and with white space around, and nothing else |
| LoadingClip.DecodeWavIff | src/livekit/loading_clip.rs:235-275 | a WAV file is accepted iff it is readable 16-bit PCM in whole frames of at most 960000 declared samples, and then as it describes itself |
| LoadingClip.DecodeRawPcmIff | src/livekit/loading_clip.rs:279-303 | raw PCM needs a rate and whole frames; without a channel count it is mono |
| LoadingClip.RequestMatters | src/livekit/loading_clip.rs:180-187 | rate and channels of the request do not matter to WAV; raw PCM without a rate is refused |
| LoadingClip.ValidateIff | src/livekit/loading_clip.rs:186-216 | a decoded clip passes iff channels, rate and duration are in range, and else the first that is not is the reason |
| LoadingClip.PayloadGuardIsUnreachable | src/livekit/loading_clip.rs:155-164 | the size guard after decoding never fires |
| LoadingClip.LargestPayload | src/livekit/loading_clip.rs:139-148 | a payload passes the size estimate iff it has at most 1924095 bytes |
| LoadingClip.AcceptedClips | src/livekit/loading_clip.rs:132-303 | every accepted clip has 1 or 2 channels, a rate in 8000..48000, whole frames, 2000 to 480047 of them, at most 960094 samples, and 960000 for WAV |
| LoadingClip.RawPcmRoundTrip | src/livekit/loading_clip.rs:132-303 | samples sent as Base64 of raw PCM are accepted iff in range, and come back unchanged; no clip in range is too large |
| FrameModel.Enhance | src/utils/noise_filter.rs:250-285 | the hop loop and its tail compute the model's answers put together, or stop at its first failure |
| FrameModel.EnhanceTail | src/utils/noise_filter.rs:272-285 | the samples after the last whole frame are padded and cut, or copied |
| FrameModel.FramesCoverOnce | src/utils/noise_filter.rs:250-285 | frames hold each sample once and in order, then padding zeros, or leave less than half a hop |
| FrameModel.OutputAligned | src/utils/noise_filter.rs:250-285 | each output sample is the model's answer at the same offset to the frame of that input sample, given all frames before |
| FrameModel.EchoModelChangesNothing | src/utils/noise_filter.rs:250-285 | a model that repeats its frames leaves every sample as it was |
| NoiseFilter.SilentIffZero | src/utils/noise_filter.rs:187-207 | the silence test holds exactly for all-zero samples |
| NoiseFilter.SilentBytesAreZero | src/utils/noise_filter.rs:197-207 | so the zero bytes returned after many silent chunks are the input |
| NoiseFilter.QuantiseNearlyInverts | src/utils/noise_filter.rs:314-323 | for every rounding to nearest, converting to float and back is exact up to zero and at most one step low above it |
| NoiseFilter.QuantiseAccuracy | src/utils/noise_filter.rs:314-323 | conversion scales to the range of samples up to half a step and a rounding, and clips at full scale |
| NoiseFilter.LightPeak | src/utils/noise_filter.rs:385-395 | light processing returns a peak of 98 % of the input's, whatever the filter did: exactly in exact arithmetic, up to five roundings in floats |
| NoiseFilter.LightNeverClamps | src/utils/noise_filter.rs:400-406 | so every sample stays inside full scale and the clamp does nothing |
| NoiseFilter.ConstantDecays | src/utils/noise_filter.rs:367-383 | in exact arithmetic the high-pass filter damps a constant offset geometrically |
| NoiseFilter.JumpDecays | src/utils/noise_filter.rs:367-383 | in exact arithmetic the filter passes silence, lets a jump through at its coefficient and then lets it die out geometrically |
| NoiseFilter.NeverLouder | src/utils/noise_filter.rs:293-304 | the output peaks at most 1.2 times above the input, up to two roundings, and at 0.95 times, up to five, if the model was louder than that |
| Floats.RestoredNear | src/utils/noise_filter.rs:298-303 | the source's factor (a / b) * margin takes a peak b to margin * a up to five roundings of 2^-24 |
| NoiseFilter.LengthIsKept | src/utils/noise_filter.rs:169-412 | for every byte string, rate, hop and model, every answer has the length of the input |
| NoiseFilter.FailsOnlyWithModel | src/utils/noise_filter.rs:169-326 | an error is the model's own, on a chunk that reaches it |
| NoiseFilter.NotFiniteReturnsInput | src/utils/noise_filter.rs:306-309 | if the model answers anything that is not finite, the chunk comes back as it was, for every rounding |
| NoisePaths.ChunkPaths | src/utils/noise_filter.rs:169-412 | in exact arithmetic, from samples alone, without roots and quotients: which chunks come back as they are, which are filtered and which go to the model |
| NoisePaths.AlphaIs | src/utils/noise_filter.rs:361-365 | the coefficient is rc * rate / (rc * rate + 1) |
| NoisePaths.MemoryGrows | src/utils/noise_filter.rs:250-285 | the model is fed exactly the frames of the chunks that need it, in order, up to its first failure in a chunk |
| NoisePaths.SkipsAreTrailing | src/utils/noise_filter.rs:197-207 | the skip counter counts the silent chunks at the end; malformed ones leave it alone |
| NoiseFilter.EchoModelNearlyReturnsInput | src/utils/noise_filter.rs:250-325 | for every rounding to nearest, with a model that repeats its frames the full path returns each sample or one step below it |
| NoiseWorker.Worker.ProcessAudioChunk | src/utils/noise_filter.rs:169-326 | the answer and the model's memory do not depend on the skip counter, which counts silent chunks in a row |
| NoiseWorker.Analyse | src/utils/noise_filter.rs:213-224 | one pass computes the rounded sum of squares and the peak |
| NoiseWorker.ApplyLightProcessing | src/utils/noise_filter.rs:343-412 | the duration test, the filter loop, the scaling in place and the conversion to bytes |
| NoiseWorker.Filter | src/utils/noise_filter.rs:367-383 | the filter loop computes the recurrence |
| NoiseWorker.ScaleInPlace | src/utils/noise_filter.rs:389-395 | every sample of the buffer is multiplied in place |
| NoiseWorker.Finish | src/utils/noise_filter.rs:293-325 | the louder-than test, the scaling, the fallback for samples that are not finite, and the conversion to bytes |
| NoisePool.StepKeepsOwnership | src/utils/noise_filter.rs:68-152 | every step keeps each registered sender in exactly one place |
| NoisePool.SendersAreConserved | src/utils/noise_filter.rs:68-152 | senders in the pool, in guards and not yet registered total the pool size |
| NoisePool.PoolIsSafe | src/utils/noise_filter.rs:68-152 | in every run, abandoned calls and dying workers included, no two calls hold one worker and a dropped guard finds room in the pool |
| NoisePool.PoolRefills | src/utils/noise_filter.rs:112-152 | once every call is over the whole pool is back |
| NoisePool.StepKeepsTracking | src/utils/noise_filter.rs:99-105 | every step keeps each task with one worker or answered once |
| NoisePool.AwaitingIsServed | src/utils/noise_filter.rs:436-456 | a waiting call is answered, told of the worker's death, or its task is with a live worker that can take the next step |
| NoisePool.AnswerIsNear | src/utils/noise_filter.rs:99-105 | as long as its worker lives, a waiting call is at most three of that worker's own steps from its answer |
| NoisePool.FaultsComeAnyTime | src/utils/noise_filter.rs:68-152 | in every state a live worker can die, a call can arrive and an unfinished one can be dropped |
| NoisePool.DeadSenderKeepsCirculating | src/utils/noise_filter.rs:112-152 | a dead worker's sender stays in circulation and no call can send through it |

## Left out

- CacheStore.CacheStore.Put: a backend call that fails (an error of the file system) is left out; the lemma about the counters allows it.
- CacheStore.CacheStore.PutWithTtl: the same.
- CacheStore.CacheStore.Get: of a failing backend call only unreadable metadata is modelled.
- CacheStore.CacheStore.Exists: the same.
- CacheStore.CacheStore.Delete: a failing backend call is left out.
- MemoryCache.MemoryMatchesFilesystemOrMisses: needs whole-second clocks and times to live, because the filesystem backend truncates both to seconds.
- AudioQueue.StaleIffCancelledSinceStamp: runs are shorter than 2^64 steps, so that the generation does not wrap.
- AudioQueue.OperationQueue.QueueAudio: the wait for room in a full channel is part of the interleaved model, not of the method.
- SipHooks.HooksCache.ReadHooksCache: the JSON text of the file, with its default auth id, is abstracted to missing, blank, unreadable or a list.
- NoisePaths.ChunkPaths: for exact arithmetic and a true square root; in floats the thresholds move by the roundings, which `NoiseWorker` models.
- NoiseFilter.JumpDecays: the same as for `ConstantDecays`.
- NoiseFilter.ConstantDecays: only for exact arithmetic, because rounding leaves a residue of the offset; the coefficient is any number.
- NoiseFilter.LightPeak: a filtered peak above 2^64 is left out of the float bound, because the quotient then loses precision; so is overflow.
- NoiseFilter.NeverLouder: the same for the model's peak.
- NoiseWorker.Finish: overflow of a float product, and the sign of an infinity, are left out.
- NoiseWorker.Worker.ProcessAudioChunk: the square root in the energy measure is a parameter.
- Provider resolution (`resolve_provider_auth`, `apply_to_stt_config`, `apply_to_tts_config`): a decision table that would only add easy members.
- Errors of the file system other than a missing file, power loss that reorders writes, and overflow of `u64` clocks and counters.
- `remove_hooks_by_hosts`, `read_and_merge_hooks` and `delete_hooks_cache`: one pass over a list, or a call of what is modelled.
- `OperationQueue::pending_count`: it subtracts the maximum capacity from the remaining capacity, the reverse of what its comment describes.
- The metrics' memory orderings: every atomic operation is one step.
- The fairness of the semaphore, of the pool's mutex and of the channels: any waiting task may be next.
- `warmup` and `aggressive_warmup`, logging, and timing diagnostics.
- The noise model itself, the WAV container, resampling and mixing: library code, or easy remainders.
- All traffic with LiveKit, HTTP, WebSocket and provider services, token signing, configuration loading and validation, routes and handlers.
