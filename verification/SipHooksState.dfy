/** The runtime SIP hook state of src/state/sip_hooks_state.rs. */
module SipHooksState {
  import opened Wrappers
  import opened Text
  import opened SipHooks

  datatype SipConfig = SipConfig(hooks: seq<SipHookConfig>, hookSecret: Option<string>, roomPrefix: string)

  /** The list a start from the cache file works with; no path and an unreadable file both mean none. */
  function StartList(cache: Option<Content>): seq<CachedSipHook> {
    if cache.None? then [] else
    match ReadContent(cache.value)
    case Ok(list) => list
    case Err(_) => []
  }

  /** The answer a domain lookup gives, read off the merged map. */
  function Lookup(m: HookMap, domain: string): Option<SipHookConfig> {
    if ToLower(domain) in m then Some(m[ToLower(domain)]) else None
  }

  /** A hook's own secret, or else the global one. */
  function SigningSecret(hook: SipHookConfig, globalSecret: Option<string>): Option<string> {
    if hook.secret.Some? then hook.secret else globalSecret
  }

  class SipHooksState {
    var hooks: seq<SipHookConfig>
    const globalSecret: Option<string>
    const roomPrefix: string

    constructor (config: SipConfig, cachePath: HooksCache?)
      ensures Lists(hooks, MergedMap(config.hooks, StartList(if cachePath == null then None else Some(cachePath.content))))
      ensures globalSecret == config.hookSecret && roomPrefix == config.roomPrefix
    {
      var cachedHooks: seq<CachedSipHook> := [];
      if cachePath != null {
        var r := cachePath.ReadHooksCache();
        if r.Ok? { cachedHooks := r.value; }
      }
      var merged := MergeHooksWithSecrets(config.hooks, cachedHooks);
      hooks, globalSecret, roomPrefix := merged, config.hookSecret, config.roomPrefix;
    }

    method UpdateHooks(newHooks: seq<CachedSipHook>, originalConfigHooks: seq<SipHookConfig>) returns (merged: seq<SipHookConfig>)
      modifies this`hooks
      ensures Lists(hooks, MergedMap(originalConfigHooks, newHooks)) && merged == hooks
    {
      merged := MergeHooksWithSecrets(originalConfigHooks, newHooks);
      hooks := merged;
    }

    /** The first listed hook whose host matches up to case. */
    method GetHookForDomain(domain: string) returns (r: Option<SipHookConfig>)
      ensures r == FindHook(hooks, domain)
    {
      for n := 0 to |hooks|
        invariant FindHook(hooks, domain) == FindHook(hooks[n..], domain)
      {
        if EqIgnoreAsciiCase(hooks[n].host, domain) { return Some(hooks[n]); }
        assert hooks[n..][1..] == hooks[n + 1..];
      }
      r := None;
    }

    method GetSigningSecret(hook: SipHookConfig) returns (secret: Option<string>)
      ensures secret == SigningSecret(hook, globalSecret)
    {
      secret := if hook.secret.Some? then hook.secret else globalSecret;
    }
  }

  function FindHook(hooks: seq<SipHookConfig>, domain: string): Option<SipHookConfig> {
    if |hooks| == 0 then None
    else if EqIgnoreAsciiCase(hooks[0].host, domain) then Some(hooks[0])
    else FindHook(hooks[1..], domain)
  }

  lemma {:induction false} FindHookSpec(hooks: seq<SipHookConfig>, domain: string)
    ensures FindHook(hooks, domain).None? ==> forall i :: 0 <= i < |hooks| ==> ToLower(hooks[i].host) != ToLower(domain)
    ensures FindHook(hooks, domain).Some? ==>
      exists i :: 0 <= i < |hooks| && hooks[i] == FindHook(hooks, domain).value && ToLower(hooks[i].host) == ToLower(domain)
  {
    if |hooks| > 0 && !EqIgnoreAsciiCase(hooks[0].host, domain) {
      FindHookSpec(hooks[1..], domain);
      if FindHook(hooks, domain).Some? {
        var i :| 0 <= i < |hooks[1..]| && hooks[1..][i] == FindHook(hooks, domain).value;
        assert hooks[i + 1] == FindHook(hooks, domain).value;
      } else {
        forall i | 0 <= i < |hooks| ensures ToLower(hooks[i].host) != ToLower(domain) {
          if i > 0 { assert hooks[i] == hooks[1..][i - 1]; }
        }
      }
    }
  }

  /** Whatever order the hash map listed its hooks in, a domain finds the same one. */
  lemma LookupIgnoresOrder(config: seq<SipHookConfig>, cached: seq<CachedSipHook>, hooks: seq<SipHookConfig>, domain: string)
    requires Lists(hooks, MergedMap(config, cached))
    ensures FindHook(hooks, domain) == Lookup(MergedMap(config, cached), domain)
  {
    var m := MergedMap(config, cached);
    MergedMapKeyed(config, cached);
    FindHookSpec(hooks, domain);
    forall i | 0 <= i < |hooks| ensures ToLower(hooks[i].host) == hooks[i].host {
      NormalizeHostIdempotent(hooks[i].host);
    }
  }

  /** Hosts in the state are unique and normalised. */
  lemma HostsAreNormalised(config: seq<SipHookConfig>, cached: seq<CachedSipHook>, hooks: seq<SipHookConfig>)
    requires Lists(hooks, MergedMap(config, cached))
    ensures forall i :: 0 <= i < |hooks| ==> NormalizeHost(hooks[i].host) == hooks[i].host
    ensures forall i, j :: 0 <= i < j < |hooks| ==> !EqIgnoreAsciiCase(hooks[i].host, hooks[j].host)
    ensures |hooks| == |MergedMap(config, cached)|
  {
    var m := MergedMap(config, cached);
    MergedMapKeyed(config, cached);
    forall i | 0 <= i < |hooks| ensures ToLower(hooks[i].host) == hooks[i].host {
      NormalizeHostIdempotent(hooks[i].host);
    }
    ListsHasMapSize(hooks, m);
  }

  lemma {:induction false} ListsHasMapSize(hooks: seq<SipHookConfig>, m: HookMap)
    requires Lists(hooks, m)
    ensures |hooks| == |m|
    decreases |hooks|
  {
    if |hooks| == 0 {
      assert m == map[];
    } else {
      var n := |hooks| - 1;
      var rest := m - {hooks[n].host};
      assert Lists(hooks[..n], rest) by { ListsWithoutLast(hooks, m); }
      ListsHasMapSize(hooks[..n], rest);
      assert |m| == |rest| + 1 by { SizeWithout(m, hooks[n].host); }
    }
  }

  lemma SizeWithout(m: HookMap, h: string)
    requires h in m
    ensures |m| == |m - {h}| + 1
  {
    assert m.Keys == (m - {h}).Keys + {h};
  }

  lemma ListsWithoutLast(hooks: seq<SipHookConfig>, m: HookMap)
    requires Lists(hooks, m) && |hooks| > 0
    ensures Lists(hooks[..|hooks| - 1], m - {hooks[|hooks| - 1].host})
  {
    var n := |hooks| - 1;
    var rest := m - {hooks[n].host};
    forall h | h in rest ensures exists i :: 0 <= i < n && hooks[..n][i].host == h {
      var i :| 0 <= i < |hooks| && hooks[i].host == h;
      assert hooks[..n][i].host == h;
    }
  }

  // ---- Runs ----

  /** With one configuration, the server starts from its cache file or is given a new list. */
  datatype Event = Restart(cache: Option<Content>) | Update(list: seq<CachedSipHook>)

  function ListOf(e: Event): seq<CachedSipHook> {
    match e
    case Restart(cache) => StartList(cache)
    case Update(list) => list
  }

  /** The hook list after each event of a run; every event lists its map in an order of its own. */
  ghost predicate IsRun(config: seq<SipHookConfig>, events: seq<Event>, states: seq<seq<SipHookConfig>>) {
    && |states| == |events| > 0 && events[0].Restart?
    && forall i :: 0 <= i < |events| ==> Lists(states[i], MergedMap(config, ListOf(events[i])))
  }

  /**
    Over all runs with one configuration, at every moment of each: the answer for a domain depends only on the last
    hook list, and a configured host keeps the url, secret and auth id of its configuration throughout.
   */
  lemma RunsAgree(config: seq<SipHookConfig>, run1: seq<Event>, run2: seq<Event>,
                  states1: seq<seq<SipHookConfig>>, states2: seq<seq<SipHookConfig>>, i: nat, j: nat, domain: string)
    requires IsRun(config, run1, states1) && IsRun(config, run2, states2) && i < |run1| && j < |run2|
    ensures ListOf(run1[i]) == ListOf(run2[j]) ==> FindHook(states1[i], domain) == FindHook(states2[j], domain)
    ensures forall k: nat :: LastWithHost(config, k, ToLower(domain)) ==>
      && FindHook(states1[i], domain) == FindHook(states2[j], domain)
      && FindHook(states1[i], domain).Some? && KeepsConfigured(FindHook(states1[i], domain).value, config[k])
  {
    var list1, list2 := ListOf(run1[i]), ListOf(run2[j]);
    LookupIgnoresOrder(config, list1, states1[i], domain);
    LookupIgnoresOrder(config, list2, states2[j], domain);
    MergedMapSpec(config, list1, ToLower(domain));
    MergedMapSpec(config, list2, ToLower(domain));
  }

  /**
    In every run, at every moment: calls to a configured domain are signed with the secret its last configured hook has, and
    else, as calls to any other domain with a hook, with the global one.
   */
  lemma SecretsInRuns(config: seq<SipHookConfig>, events: seq<Event>, states: seq<seq<SipHookConfig>>, i: nat,
      domain: string, globalSecret: Option<string>)
    requires IsRun(config, events, states) && i < |events|
    ensures var hook := FindHook(states[i], domain);
      && (forall k: nat :: LastWithHost(config, k, ToLower(domain)) ==>
           hook.Some? && (config[k].secret.Some? ==> SigningSecret(hook.value, globalSecret) == config[k].secret))
      && ((hook.Some? && forall k: nat :: LastWithHost(config, k, ToLower(domain)) ==> config[k].secret.None?)
          ==> SigningSecret(hook.value, globalSecret) == globalSecret)
  {
    var list := ListOf(events[i]);
    LookupIgnoresOrder(config, list, states[i], domain);
    MergedMapSpec(config, list, ToLower(domain));
    if forall k: nat :: !LastWithHost(config, k, ToLower(domain)) { CachedHooksHaveNoSecret(config, list, states[i], domain); }
  }

  /** A start without a readable list answers from the configuration alone. */
  lemma StartWithoutList(config: seq<SipHookConfig>, cache: Option<Content>, hooks: seq<SipHookConfig>, domain: string)
    requires cache.None? || !cache.value.Hooks?
    requires Lists(hooks, MergedMap(config, StartList(cache)))
    ensures FindHook(hooks, domain).Some? <==> exists k: nat :: LastWithHost(config, k, ToLower(domain))
  {
    LookupIgnoresOrder(config, StartList(cache), hooks, domain);
    MergedMapSpec(config, StartList(cache), ToLower(domain));
  }

  /** Hosts outside the configuration never come with a secret of their own. */
  lemma CachedHooksHaveNoSecret(config: seq<SipHookConfig>, cached: seq<CachedSipHook>, hooks: seq<SipHookConfig>, domain: string)
    requires Lists(hooks, MergedMap(config, cached))
    requires forall i: nat :: !LastWithHost(config, i, ToLower(domain))
    ensures FindHook(hooks, domain).Some? <==> exists j: nat :: FirstWithHost(cached, j, ToLower(domain))
    ensures forall j: nat :: FirstWithHost(cached, j, ToLower(domain)) ==>
      FindHook(hooks, domain).Some? && KeepsCached(FindHook(hooks, domain).value, cached[j])
    ensures FindHook(hooks, domain).Some? ==> FindHook(hooks, domain).value.secret.None?
  {
    LookupIgnoresOrder(config, cached, hooks, domain);
    MergedMapSpec(config, cached, ToLower(domain));
  }

  /** A successful write followed by an update, and a restart from that file, answer every domain alike exactly when the taken auth ids are trimmed. */
  lemma RestartAnswersAlikeIff(config: seq<SipHookConfig>, list: seq<CachedSipHook>)
    ensures
      (forall domain :: Lookup(MergedMap(config, StartList(Some(Hooks(Normalized(list))))), domain) == Lookup(MergedMap(config, list), domain))
      <==> forall h :: h in MergedMap(config, list) && h !in ConfigMap(config) ==> Trimmed(MergedMap(config, list)[h].authId)
  {
    WriteThenRead(list);
    RestartReproducesLiveIff(config, list);
    var live, restarted := MergedMap(config, list), MergedMap(config, Normalized(list));
    NormalizedMerge(config, list);
    if live != restarted {
      var h :| h in live && live[h] != restarted[h];
      MergedMapKeyed(config, list);
      NormalizeHostIdempotent(h);
      assert Lookup(live, h) != Lookup(restarted, h);
    }
  }
}
