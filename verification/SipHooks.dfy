/** SIP hook lists, their merges and their cache file (src/utils/sip_hooks.rs). Hosts are ASCII. */
module SipHooks {
  import opened Wrappers
  import opened Text

  datatype SipHookConfig = SipHookConfig(host: string, url: string, secret: Option<string>, authId: string)

  datatype CachedSipHook = CachedSipHook(host: string, url: string, authId: string)

  function NormalizeHost(host: string): string { ToLower(Trim(host)) }

  lemma NormalizeHostIdempotent(host: string)
    ensures NormalizeHost(NormalizeHost(host)) == NormalizeHost(host)
    ensures ToLower(NormalizeHost(host)) == NormalizeHost(host)
  {
    TrimFixpoint(host);
    LowerIdempotent(Trim(host));
    LowerKeepsTrimmed(Trim(host));
    TrimFixpoint(NormalizeHost(host));
  }

  /** A host is recognised whatever white space surrounds it and in either case, and by nothing less. */
  lemma NormalizeHostIff(before: string, host: string, after: string, other: string)
    requires Blanks(before) && Blanks(after) && Trimmed(host) && Trimmed(other)
    ensures NormalizeHost(before + host + after) == NormalizeHost(other) <==> EqIgnoreAsciiCase(host, other)
  {
    TrimSurrounded(before, host, after);
    TrimFixpoint(other);
  }

  /** `CachedSipHook::new`. */
  function NewHook(host: string, url: string, authId: string): CachedSipHook {
    CachedSipHook(NormalizeHost(host), url, Trim(authId))
  }

  function Renew(h: CachedSipHook): CachedSipHook { NewHook(h.host, h.url, h.authId) }

  function Normalized(hooks: seq<CachedSipHook>): (r: seq<CachedSipHook>)
    ensures |r| == |hooks|
    ensures forall i :: 0 <= i < |hooks| ==> r[i] == Renew(hooks[i])
  {
    seq(|hooks|, i requires 0 <= i < |hooks| => Renew(hooks[i]))
  }

  lemma NormalizedIdempotent(hooks: seq<CachedSipHook>)
    ensures Normalized(Normalized(hooks)) == Normalized(hooks)
  {
    forall i | 0 <= i < |hooks| ensures Renew(Renew(hooks[i])) == Renew(hooks[i]) {
      NormalizeHostIdempotent(hooks[i].host);
      TrimFixpoint(hooks[i].authId);
    }
  }

  // ---- The cache file ----

  datatype HooksError = Json | Validation(host: string)

  /** What the file holds: nothing, only white space, something unreadable, or a list. */
  datatype Content = Missing | Blank | Garbage | Hooks(list: seq<CachedSipHook>)

  ghost predicate DistinctHosts(hooks: seq<CachedSipHook>) {
    forall i, j :: 0 <= i < j < |hooks| ==> ToLower(hooks[i].host) != ToLower(hooks[j].host)
  }

  /** Rejects a list exactly when two hosts agree up to case, naming one that repeats. */
  method ValidateNoDuplicateHosts(hooks: seq<CachedSipHook>) returns (r: Result<(), HooksError>)
    ensures r.Ok? <==> DistinctHosts(hooks)
    ensures r.Err? ==> r.error.Validation?
    ensures r.Err? ==> exists i, j :: 0 <= i < j < |hooks| && ToLower(hooks[i].host) == ToLower(hooks[j].host) == r.error.host
  {
    var seenHosts: set<string> := {};
    for n := 0 to |hooks|
      invariant forall h :: h in seenHosts <==> exists i :: 0 <= i < n && ToLower(hooks[i].host) == h
      invariant DistinctHosts(hooks[..n])
    {
      var hostLower := ToLower(hooks[n].host);
      if hostLower in seenHosts {
        var i :| 0 <= i < n && ToLower(hooks[i].host) == hostLower;
        return Err(Validation(hostLower));
      }
      seenHosts := seenHosts + {hostLower};
    }
    assert hooks[..|hooks|] == hooks;
    r := Ok(());
  }

  class HooksCache {
    var content: Content

    constructor ()
      ensures content == Missing
    {
      content := Missing;
    }

    method WriteHooksCache(hooks: seq<CachedSipHook>) returns (r: Result<(), HooksError>)
      modifies this
      ensures r.Ok? <==> DistinctHosts(Normalized(hooks))
      ensures content == if r.Ok? then Hooks(Normalized(hooks)) else old(content)
    {
      var normalizedHooks := Normalized(hooks);
      r := ValidateNoDuplicateHosts(normalizedHooks);
      if r.Err? { return; }
      content := Hooks(normalizedHooks);
    }

    method ReadHooksCache() returns (r: Result<seq<CachedSipHook>, HooksError>)
      ensures r == ReadContent(content)
    {
      match content
      case Missing => r := Ok([]);
      case Blank => r := Ok([]);
      case Garbage => r := Err(Json);
      case Hooks(list) =>
        var hooks := list;
        for n := 0 to |list|
          invariant |hooks| == |list|
          invariant forall i :: 0 <= i < |list| ==> hooks[i] == if i < n then Renew(list[i]) else list[i]
        {
          hooks := hooks[n := Renew(hooks[n])];
        }
        assert hooks == Normalized(list);
        r := Ok(hooks);
    }
  }

  function ReadContent(content: Content): Result<seq<CachedSipHook>, HooksError> {
    match content
    case Garbage => Err(Json)
    case Hooks(list) => Ok(Normalized(list))
    case _ => Ok([])
  }

  /** What was written is read back as the normalised list, in order. */
  lemma WriteThenRead(hooks: seq<CachedSipHook>)
    ensures ReadContent(Hooks(Normalized(hooks))) == Ok(Normalized(hooks))
  {
    NormalizedIdempotent(hooks);
  }

  // ---- merge_hooks_with_secrets ----

  type HookMap = map<string, SipHookConfig>

  function FromConfig(h: SipHookConfig): SipHookConfig { h.(host := NormalizeHost(h.host)) }

  function FromCached(h: CachedSipHook): SipHookConfig { SipHookConfig(NormalizeHost(h.host), h.url, None, h.authId) }

  /** The last configured hook of a host wins. */
  function ConfigMap(config: seq<SipHookConfig>): HookMap {
    if |config| == 0 then map[] else
    var last := FromConfig(config[|config| - 1]);
    ConfigMap(config[..|config| - 1])[last.host := last]
  }

  function AddCachedHook(m: HookMap, h: CachedSipHook): HookMap {
    if NormalizeHost(h.host) in m then m else m[NormalizeHost(h.host) := FromCached(h)]
  }

  /** Cached hooks only fill gaps; the first of a host wins. */
  function AddCached(m: HookMap, cached: seq<CachedSipHook>): HookMap {
    if |cached| == 0 then m else AddCachedHook(AddCached(m, cached[..|cached| - 1]), cached[|cached| - 1])
  }

  function MergedMap(config: seq<SipHookConfig>, cached: seq<CachedSipHook>): HookMap {
    AddCached(ConfigMap(config), cached)
  }

  /** A list of a map's values, in whatever order the hash map produced them. */
  ghost predicate Lists(hooks: seq<SipHookConfig>, m: HookMap) {
    && (forall i :: 0 <= i < |hooks| ==> hooks[i].host in m && m[hooks[i].host] == hooks[i])
    && (forall i, j :: 0 <= i < j < |hooks| ==> hooks[i].host != hooks[j].host)
    && (forall h :: h in m ==> exists i :: 0 <= i < |hooks| && hooks[i].host == h)
  }

  ghost predicate KeyedByHost(m: HookMap) {
    forall h :: h in m ==> m[h].host == h && NormalizeHost(h) == h
  }

  lemma {:induction false} ConfigMapKeyed(config: seq<SipHookConfig>)
    ensures KeyedByHost(ConfigMap(config))
  {
    if |config| > 0 {
      ConfigMapKeyed(config[..|config| - 1]);
      NormalizeHostIdempotent(config[|config| - 1].host);
    }
  }

  lemma {:induction false} AddCachedKeyed(m: HookMap, cached: seq<CachedSipHook>)
    requires KeyedByHost(m)
    ensures KeyedByHost(AddCached(m, cached))
  {
    if |cached| > 0 {
      AddCachedKeyed(m, cached[..|cached| - 1]);
      NormalizeHostIdempotent(cached[|cached| - 1].host);
    }
  }

  lemma MergedMapKeyed(config: seq<SipHookConfig>, cached: seq<CachedSipHook>)
    ensures KeyedByHost(MergedMap(config, cached))
  {
    ConfigMapKeyed(config);
    AddCachedKeyed(ConfigMap(config), cached);
  }

  method MergeHooksWithSecrets(config: seq<SipHookConfig>, cached: seq<CachedSipHook>) returns (hooks: seq<SipHookConfig>)
    ensures Lists(hooks, MergedMap(config, cached))
  {
    var merged: HookMap := map[];
    for n := 0 to |config|
      invariant merged == ConfigMap(config[..n])
    {
      var host := NormalizeHost(config[n].host);
      merged := merged[host := SipHookConfig(host, config[n].url, config[n].secret, config[n].authId)];
      assert config[..n + 1][..n] == config[..n];
    }
    assert config[..|config|] == config;
    for n := 0 to |cached|
      invariant merged == AddCached(ConfigMap(config), cached[..n])
    {
      assert cached[..n + 1][..n] == cached[..n];
      var host := NormalizeHost(cached[n].host);
      // Ignore cached values for hosts defined in the configuration.
      if host in merged { continue; }
      merged := merged[host := SipHookConfig(host, cached[n].url, None, cached[n].authId)];
    }
    assert cached[..|cached|] == cached;
    MergedMapKeyed(config, cached);
    hooks := IntoValues(merged);
  }

  ghost predicate Enumerates<K(!new), V>(keys: seq<K>, m: map<K, V>) {
    && (forall i, j :: 0 <= i < j < |keys| ==> keys[i] != keys[j])
    && (forall k :: k in keys <==> k in m)
  }

  /** The keys of a hash map, in an order the caller cannot rely on. */
  method KeysInAnyOrder<K(!new), V>(m: map<K, V>) returns (keys: seq<K>)
    ensures Enumerates(keys, m)
  {
    keys := [];
    var remaining := m.Keys;
    while remaining != {}
      invariant remaining <= m.Keys
      invariant forall i, j :: 0 <= i < j < |keys| ==> keys[i] != keys[j]
      invariant forall k :: k in keys <==> k in m && k !in remaining
      decreases |remaining|
    {
      var k :| k in remaining;
      keys := keys + [k];
      remaining := remaining - {k};
    }
  }

  method IntoValues(m: HookMap) returns (hooks: seq<SipHookConfig>)
    requires KeyedByHost(m)
    ensures Lists(hooks, m)
  {
    var keys := KeysInAnyOrder(m);
    assert forall i :: 0 <= i < |keys| ==> keys[i] in keys;
    hooks := seq(|keys|, i requires 0 <= i < |keys| => m[keys[i]]);
    forall h | h in m ensures exists i :: 0 <= i < |hooks| && hooks[i].host == h {
      var i :| 0 <= i < |keys| && keys[i] == h;
      assert hooks[i].host == h;
    }
  }

  // ---- What the merged map holds, host by host ----

  ghost predicate LastWithHost(config: seq<SipHookConfig>, i: nat, host: string) {
    && i < |config| && NormalizeHost(config[i].host) == host
    && forall j :: i < j < |config| ==> NormalizeHost(config[j].host) != host
  }

  ghost predicate FirstWithHost(cached: seq<CachedSipHook>, i: nat, host: string) {
    && i < |cached| && NormalizeHost(cached[i].host) == host
    && forall j :: 0 <= j < i ==> NormalizeHost(cached[j].host) != host
  }

  lemma LastWithHostOfPrefix(config: seq<SipHookConfig>, n: nat, host: string)
    requires |config| == n + 1 && NormalizeHost(config[n].host) != host
    ensures forall i: nat :: LastWithHost(config, i, host) <==> LastWithHost(config[..n], i, host)
  {
    forall i: nat ensures LastWithHost(config, i, host) <==> LastWithHost(config[..n], i, host) {
      if LastWithHost(config[..n], i, host) {
        forall j | i < j < |config| ensures NormalizeHost(config[j].host) != host {
          if j < n { assert config[..n][j] == config[j]; }
        }
      }
      if LastWithHost(config, i, host) {
        forall j | i < j < n ensures NormalizeHost(config[..n][j].host) != host { assert config[..n][j] == config[j]; }
      }
    }
  }

  lemma {:induction false} ConfigMapGet(config: seq<SipHookConfig>, host: string)
    ensures host in ConfigMap(config) <==> exists i: nat :: LastWithHost(config, i, host)
    ensures forall i: nat :: LastWithHost(config, i, host) ==> ConfigMap(config)[host] == FromConfig(config[i])
  {
    if |config| > 0 {
      var n := |config| - 1;
      if NormalizeHost(config[n].host) == host {
        assert LastWithHost(config, n, host);
      } else {
        ConfigMapGet(config[..n], host);
        LastWithHostOfPrefix(config, n, host);
      }
    }
  }

  lemma {:induction false} AddCachedKeeps(m: HookMap, cached: seq<CachedSipHook>, host: string)
    requires host in m
    ensures host in AddCached(m, cached) && AddCached(m, cached)[host] == m[host]
  {
    if |cached| > 0 { AddCachedKeeps(m, cached[..|cached| - 1], host); }
  }

  /** The index of the first cached entry of a host. */
  function FirstIndex(cached: seq<CachedSipHook>, host: string): (r: Option<nat>)
    ensures r.Some? ==> FirstWithHost(cached, r.value, host)
    ensures r.None? ==> forall i :: 0 <= i < |cached| ==> NormalizeHost(cached[i].host) != host
  {
    if |cached| == 0 then None else
    var n := |cached| - 1;
    var before := FirstIndex(cached[..n], host);
    assert forall i :: 0 <= i < n ==> cached[..n][i] == cached[i];
    if before.Some? then before
    else if NormalizeHost(cached[n].host) == host then Some(n)
    else None
  }

  lemma {:induction false} AddCachedFills(m: HookMap, cached: seq<CachedSipHook>, host: string)
    requires host !in m
    ensures host in AddCached(m, cached) <==> FirstIndex(cached, host).Some?
    ensures host in AddCached(m, cached) ==> AddCached(m, cached)[host] == FromCached(cached[FirstIndex(cached, host).value])
  {
    if |cached| > 0 { AddCachedFills(m, cached[..|cached| - 1], host); }
  }

  lemma AddCachedGet(m: HookMap, cached: seq<CachedSipHook>, host: string)
    ensures host in m ==> host in AddCached(m, cached) && AddCached(m, cached)[host] == m[host]
    ensures host !in m ==> (host in AddCached(m, cached) <==> exists i: nat :: FirstWithHost(cached, i, host))
    ensures host !in m ==> forall i: nat :: FirstWithHost(cached, i, host) ==> AddCached(m, cached)[host] == FromCached(cached[i])
  {
    if host in m {
      AddCachedKeeps(m, cached, host);
    } else {
      AddCachedFills(m, cached, host);
      var f := FirstIndex(cached, host);
      if f.Some? {
        assert FirstWithHost(cached, f.value, host);
        forall i: nat | FirstWithHost(cached, i, host) ensures i == f.value { }
      }
    }
  }

  /** The configured hook under its normalised host: nothing else about it changes. */
  ghost predicate KeepsConfigured(found: SipHookConfig, h: SipHookConfig) {
    found.host == NormalizeHost(h.host) && found.url == h.url && found.secret == h.secret && found.authId == h.authId
  }

  /** The cached hook under its normalised host; there is no secret in the cache. */
  ghost predicate KeepsCached(found: SipHookConfig, h: CachedSipHook) {
    found.host == NormalizeHost(h.host) && found.url == h.url && found.secret.None? && found.authId == h.authId
  }

  /**
    Configured hosts keep the url, secret and auth id of their last configured hook, whatever the cache says;
    every other host takes its first cached entry, without a secret; there are no other hosts.
   */
  lemma MergedMapSpec(config: seq<SipHookConfig>, cached: seq<CachedSipHook>, host: string)
    ensures forall i: nat :: LastWithHost(config, i, host) ==>
      host in MergedMap(config, cached) && KeepsConfigured(MergedMap(config, cached)[host], config[i])
    ensures (forall i: nat :: !LastWithHost(config, i, host)) ==>
      && (host in MergedMap(config, cached) <==> exists j: nat :: FirstWithHost(cached, j, host))
      && (forall j: nat :: FirstWithHost(cached, j, host) ==> KeepsCached(MergedMap(config, cached)[host], cached[j]))
  {
    ConfigMapGet(config, host);
    AddCachedGet(ConfigMap(config), cached, host);
  }

  // ---- A restart from the cache file ----

  /** How a merged entry comes back after its list went through the file. */
  function Restarted(config: seq<SipHookConfig>, h: SipHookConfig): SipHookConfig {
    if h.host in ConfigMap(config) then h else h.(authId := Trim(h.authId))
  }

  lemma {:induction false} NormalizedMerge(config: seq<SipHookConfig>, cached: seq<CachedSipHook>)
    ensures
      var live, restarted := MergedMap(config, cached), MergedMap(config, Normalized(cached));
      restarted.Keys == live.Keys && forall h :: h in live ==> restarted[h] == Restarted(config, live[h])
  {
    MergedMapKeyed(config, cached);
    if |cached| > 0 {
      var n := |cached| - 1;
      NormalizedMerge(config, cached[..n]);
      MergedMapKeyed(config, cached[..n]);
      NormalizeHostIdempotent(cached[n].host);
      assert Normalized(cached)[..n] == Normalized(cached[..n]);
      assert Normalized(cached)[n] == Renew(cached[n]);
      AddCachedGet(ConfigMap(config), cached[..n], NormalizeHost(cached[n].host));
    }
  }

  /**
    A restart from the written list reproduces the live merge exactly when the hooks it took from the cache have
    auth ids without surrounding white space; hooks built by `CachedSipHook::new` always do.
   */
  lemma RestartReproducesLiveIff(config: seq<SipHookConfig>, cached: seq<CachedSipHook>)
    ensures
      var live := MergedMap(config, cached);
      MergedMap(config, Normalized(cached)) == live
      <==> forall h :: h in live && h !in ConfigMap(config) ==> Trimmed(live[h].authId)
  {
    NormalizedMerge(config, cached);
    MergedMapKeyed(config, cached);
    var live, restarted := MergedMap(config, cached), MergedMap(config, Normalized(cached));
    forall h | h in live ensures Trim(live[h].authId) == live[h].authId <==> Trimmed(live[h].authId) {
      TrimFixpoint(live[h].authId);
    }
    if restarted == live {
      forall h | h in live && h !in ConfigMap(config) ensures Trimmed(live[h].authId) {
        assert restarted[h] == live[h];
      }
    } else if forall h :: h in live && h !in ConfigMap(config) ==> Trimmed(live[h].authId) {
      forall h | h in live ensures restarted[h] == live[h] { }
      assert false;
    }
  }

  lemma RestartOfNewHooks(config: seq<SipHookConfig>, cached: seq<CachedSipHook>)
    ensures MergedMap(config, Normalized(Normalized(cached))) == MergedMap(config, Normalized(cached))
  {
    NormalizedIdempotent(cached);
  }

  // ---- merge_hooks ----

  type CachedMap = map<string, CachedSipHook>

  /** Hash-map collection by lower-cased host: the last hook of a host wins. */
  function CollectByHost(hooks: seq<CachedSipHook>): CachedMap {
    if |hooks| == 0 then map[] else
    var last := hooks[|hooks| - 1];
    CollectByHost(hooks[..|hooks| - 1])[ToLower(last.host) := last]
  }

  function Lowered(h: CachedSipHook): CachedSipHook { h.(host := ToLower(h.host)) }

  function LoweredAll(hooks: seq<CachedSipHook>): (r: seq<CachedSipHook>)
    ensures |r| == |hooks| && forall i :: 0 <= i < |hooks| ==> r[i] == Lowered(hooks[i])
  {
    seq(|hooks|, i requires 0 <= i < |hooks| => Lowered(hooks[i]))
  }

  ghost predicate ListsCached(hooks: seq<CachedSipHook>, m: CachedMap) {
    && (forall i :: 0 <= i < |hooks| ==> ToLower(hooks[i].host) in m && m[ToLower(hooks[i].host)] == hooks[i])
    && DistinctHosts(hooks)
    && (forall h :: h in m ==> exists i :: 0 <= i < |hooks| && ToLower(hooks[i].host) == h)
  }

  lemma {:induction false} CollectByHostKeyed(hooks: seq<CachedSipHook>)
    ensures forall h :: h in CollectByHost(hooks) ==> ToLower(CollectByHost(hooks)[h].host) == h
  {
    if |hooks| > 0 { CollectByHostKeyed(hooks[..|hooks| - 1]); }
  }

  lemma CollectSnoc(hooks: seq<CachedSipHook>, n: nat)
    requires n < |hooks|
    ensures CollectByHost(hooks[..n + 1]) == CollectByHost(hooks[..n])[ToLower(hooks[n].host) := hooks[n]]
  {
    assert hooks[..n + 1][..n] == hooks[..n];
  }

  /**
    The union of the two lists read as maps, biased to the cached one: the third loop re-inserts entries that the
    second has already put there.
   */
  method MergeHooks(existing: seq<CachedSipHook>, cached: seq<CachedSipHook>) returns (hooks: seq<CachedSipHook>)
    ensures ListsCached(hooks, CollectByHost(LoweredAll(existing)) + CollectByHost(cached))
  {
    var existingMap, cachedMap := CollectByHost(existing), CollectByHost(cached);
    var resultMap: CachedMap := map[];
    var lowered := LoweredAll(existing);
    for n := 0 to |existing|
      invariant resultMap == CollectByHost(lowered[..n])
    {
      var host := ToLower(existing[n].host);
      resultMap := resultMap[host := CachedSipHook(host, existing[n].url, existing[n].authId)];
      LowerIdempotent(existing[n].host);
      CollectSnoc(lowered, n);
    }
    assert lowered[..|existing|] == lowered;
    for n := 0 to |cached|
      invariant resultMap == CollectByHost(lowered) + CollectByHost(cached[..n])
    {
      var host := ToLower(cached[n].host);
      resultMap := resultMap[host := cached[n]];
      CollectSnoc(cached, n);
    }
    assert cached[..|cached|] == cached;
    var hosts := KeysInAnyOrder(cachedMap);
    for n := 0 to |hosts|
      invariant resultMap == CollectByHost(lowered) + cachedMap
    {
      assert hosts[n] in hosts;
      if hosts[n] !in existingMap {
        resultMap := resultMap[hosts[n] := cachedMap[hosts[n]]];
      }
    }
    CollectByHostKeyed(lowered);
    CollectByHostKeyed(cached);
    hooks := CachedValues(resultMap);
  }

  method CachedValues(m: CachedMap) returns (hooks: seq<CachedSipHook>)
    requires forall h :: h in m ==> ToLower(m[h].host) == h
    ensures ListsCached(hooks, m)
  {
    var keys := KeysInAnyOrder(m);
    assert forall i :: 0 <= i < |keys| ==> keys[i] in keys;
    hooks := seq(|keys|, i requires 0 <= i < |keys| => m[keys[i]]);
    forall h | h in m ensures exists i :: 0 <= i < |hooks| && ToLower(hooks[i].host) == h {
      var i :| 0 <= i < |keys| && keys[i] == h;
      assert ToLower(hooks[i].host) == h;
    }
  }

  /** The last hook of a host, in either case. */
  ghost predicate LastOf(hooks: seq<CachedSipHook>, i: nat, host: string) {
    i < |hooks| && ToLower(hooks[i].host) == host && forall j :: i < j < |hooks| ==> ToLower(hooks[j].host) != host
  }

  lemma LastOfPrefix(hooks: seq<CachedSipHook>, n: nat, host: string)
    requires |hooks| == n + 1 && ToLower(hooks[n].host) != host
    ensures forall i: nat :: LastOf(hooks, i, host) <==> LastOf(hooks[..n], i, host)
  {
    forall i: nat ensures LastOf(hooks, i, host) <==> LastOf(hooks[..n], i, host) {
      if LastOf(hooks[..n], i, host) {
        forall j | i < j < |hooks| ensures ToLower(hooks[j].host) != host { if j < n { assert hooks[..n][j] == hooks[j]; } }
      }
      if LastOf(hooks, i, host) {
        forall j | i < j < n ensures ToLower(hooks[..n][j].host) != host { assert hooks[..n][j] == hooks[j]; }
      }
    }
  }

  lemma {:induction false} CollectGet(hooks: seq<CachedSipHook>, host: string)
    ensures host in CollectByHost(hooks) <==> exists i: nat :: LastOf(hooks, i, host)
    ensures forall i: nat :: LastOf(hooks, i, host) ==> CollectByHost(hooks)[host] == hooks[i]
  {
    if |hooks| > 0 {
      var n := |hooks| - 1;
      if ToLower(hooks[n].host) == host {
        assert LastOf(hooks, n, host);
      } else {
        CollectGet(hooks[..n], host);
        LastOfPrefix(hooks, n, host);
      }
    }
  }

  lemma LastOfLowered(hooks: seq<CachedSipHook>, host: string)
    ensures forall i: nat :: LastOf(LoweredAll(hooks), i, host) <==> LastOf(hooks, i, host)
  {
    forall i | 0 <= i < |hooks| ensures ToLower(LoweredAll(hooks)[i].host) == ToLower(hooks[i].host) { LowerIdempotent(hooks[i].host); }
  }

  /**
    Of the merged list, host by host: the last cached hook of the host as it is, or else the url and auth id of the last
    existing one under the lower-cased host; no host twice, and none that is in neither list.
   */
  lemma MergeHooksSpec(existing: seq<CachedSipHook>, cached: seq<CachedSipHook>, hooks: seq<CachedSipHook>, host: string)
    requires ListsCached(hooks, CollectByHost(LoweredAll(existing)) + CollectByHost(cached))
    ensures DistinctHosts(hooks)
    ensures forall i: nat :: LastOf(cached, i, host) ==> cached[i] in hooks
    ensures (forall i: nat :: !LastOf(cached, i, host)) ==>
      forall i: nat :: LastOf(existing, i, host) ==> CachedSipHook(host, existing[i].url, existing[i].authId) in hooks
    ensures (exists k :: 0 <= k < |hooks| && ToLower(hooks[k].host) == host)
      <==> (exists i: nat :: LastOf(cached, i, host)) || exists i: nat :: LastOf(existing, i, host)
  {
    CollectGet(cached, host);
    CollectGet(LoweredAll(existing), host);
    LastOfLowered(existing, host);
    var m := CollectByHost(LoweredAll(existing)) + CollectByHost(cached);
    if host in m {
      var k :| 0 <= k < |hooks| && ToLower(hooks[k].host) == host;
      assert hooks[k] == m[host] && hooks[k] in hooks;
    }
  }
}
