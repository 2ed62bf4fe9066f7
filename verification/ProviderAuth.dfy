/** Canonical printing and credential fingerprints (src/core/providers/auth.rs). */
module ProviderAuth {
  import opened Wrappers
  import opened Json
  import opened JsonSyntax
  import opened CanonicalJson

  // ---- The printer, as the source writes it: pushing onto a shared string ----

  class Output {
    var text: string

    constructor ()
      ensures text == ""
    {
      text := "";
    }

    method PushStr(s: string)
      modifies this
      ensures text == old(text) + s
    {
      text := text + s;
    }
  }

  lemma {:induction false} EmitItemsSnoc(items: seq<Value>, v: Value)
    ensures EmitItems(items + [v]) == if |items| == 0 then Emit(v) else EmitItems(items) + "," + Emit(v)
  {
    if |items| > 0 {
      assert (items + [v])[1..] == items[1..] + [v];
      EmitItemsSnoc(items[1..], v);
    }
  }

  lemma {:induction false} EmitMembersSnoc(entries: seq<Entry>, e: Entry)
    ensures EmitMembers(entries + [e]) == if |entries| == 0 then EmitMember(e) else EmitMembers(entries) + "," + EmitMember(e)
  {
    if |entries| > 0 {
      assert (entries + [e])[1..] == entries[1..] + [e];
      EmitMembersSnoc(entries[1..], e);
    }
  }

  lemma {:induction false} InsertCommutesWithCanon(e: Entry, sorted: seq<Entry>)
    ensures InsertByKey(CanonEntry(e), CanonEntries(sorted)) == CanonEntries(InsertByKey(e, sorted))
  {
    if |sorted| > 0 {
      assert CanonEntry(sorted[0]).0 == sorted[0].0 && CanonEntry(e).0 == e.0;
      InsertCommutesWithCanon(e, sorted[1..]);
      assert ([e] + sorted)[1..] == sorted;
      assert InsertByKey(e, sorted) == [sorted[0]] + InsertByKey(e, sorted[1..])
        ==> InsertByKey(e, sorted)[1..] == InsertByKey(e, sorted[1..]);
    } else {
      assert CanonEntries(sorted) == [] && [e][1..] == [];
    }
  }

  /** Sorting first and canonicalising the members afterwards, as the printer does, gives the canonical form. */
  lemma {:induction false} SortCommutesWithCanon(entries: seq<Entry>)
    ensures SortByKey(CanonEntries(entries)) == CanonEntries(SortByKey(entries))
  {
    if |entries| > 0 {
      SortCommutesWithCanon(entries[1..]);
      InsertCommutesWithCanon(entries[0], SortByKey(entries[1..]));
      assert CanonEntries(entries)[1..] == CanonEntries(entries[1..]);
    }
  }

  lemma SortedEntryIsEntry(entries: seq<Entry>, i: nat) returns (j: nat)
    requires i < |SortByKey(entries)|
    ensures j < |entries| && entries[j] == SortByKey(entries)[i]
  {
    SortByKeyPermutes(entries);
    SameMultisetSameElements(SortByKey(entries), entries);
    assert SortByKey(entries)[i] in entries;
    j :| 0 <= j < |entries| && entries[j] == SortByKey(entries)[i];
  }

  /** `write_canonical_json` appends the canonical text of the value and nothing else. */
  method WriteCanonicalJson(value: Value, output: Output)
    modifies output
    ensures output.text == old(output.text) + CanonicalText(value)
    decreases value, 2
  {
    match value
    case Null => output.PushStr("null");
    case Bool(b) => output.PushStr(if b then "true" else "false");
    case Number(token) => output.PushStr(token);
    case String(s) => output.PushStr(Quote(s));
    case Array(items) => WriteArray(value, output);
    case Object(entries) => WriteObject(value, output);
  }

  method WriteArray(value: Value, output: Output)
    requires value.Array?
    modifies output
    ensures output.text == old(output.text) + CanonicalText(value)
    decreases value, 0
  {
    var items := value.items;
    ghost var before := output.text + "[";
    ghost var c := CanonItems(items);
    output.PushStr("[");
    var index := 0;
    while index < |items|
      invariant 0 <= index <= |items|
      invariant output.text == before + EmitItems(c[..index])
    {
      if index > 0 { output.PushStr(","); }
      WriteCanonicalJson(items[index], output);
      ItemWritten(before, c, index);
      index := index + 1;
    }
    assert c[..|items|] == c;
    output.PushStr("]");
    assert output.text == old(output.text) + ("[" + EmitItems(c) + "]");
  }

  lemma Regrouped(a: string, b: string, c: string, d: string)
    ensures a + (b + c + d) == a + b + c + d
  {
  }

  lemma ItemWritten(before: string, c: seq<Value>, index: nat)
    requires index < |c|
    ensures index == 0 ==> before + EmitItems(c[..index + 1]) == before + EmitItems(c[..index]) + Emit(c[index])
    ensures index > 0 ==> before + EmitItems(c[..index + 1]) == before + EmitItems(c[..index]) + "," + Emit(c[index])
  {
    EmitItemsSnoc(c[..index], c[index]);
    assert c[..index + 1] == c[..index] + [c[index]];
    if index == 0 {
      assert before + EmitItems(c[..0]) == before;
    } else {
      Regrouped(before, EmitItems(c[..index]), ",", Emit(c[index]));
    }
  }

  method WriteObject(value: Value, output: Output)
    requires value.Object?
    modifies output
    ensures output.text == old(output.text) + CanonicalText(value)
    decreases value, 1
  {
    var entries := SortByKey(value.entries);
    output.PushStr("{");
    WriteMembers(value, entries, output);
    output.PushStr("}");
    ObjectText(value);
    assert output.text == old(output.text) + ("{" + EmitMembers(CanonEntries(entries)) + "}");
  }

  method WriteMembers(value: Value, entries: seq<Entry>, output: Output)
    requires value.Object? && entries == SortByKey(value.entries)
    modifies output
    ensures output.text == old(output.text) + EmitMembers(CanonEntries(entries))
    decreases value, 0
  {
    ghost var c := CanonEntries(entries);
    var index := 0;
    while index < |entries|
      invariant 0 <= index <= |entries|
      invariant output.text == old(output.text) + EmitMembers(c[..index])
    {
      if index > 0 { output.PushStr(","); }
      ghost var j := SortedEntryIsEntry(value.entries, index);
      WriteMember(entries[index], output);
      MemberWritten(old(output.text), c, index);
      index := index + 1;
    }
    assert c[..|entries|] == c;
  }

  lemma ObjectText(value: Value)
    requires value.Object?
    ensures CanonicalText(value) == "{" + EmitMembers(CanonEntries(SortByKey(value.entries))) + "}"
  {
    SortCommutesWithCanon(value.entries);
  }

  lemma MemberWritten(before: string, c: seq<Entry>, index: nat)
    requires index < |c|
    ensures index == 0 ==> before + EmitMembers(c[..index + 1]) == before + EmitMembers(c[..index]) + EmitMember(c[index])
    ensures index > 0 ==> before + EmitMembers(c[..index + 1]) == before + EmitMembers(c[..index]) + "," + EmitMember(c[index])
  {
    EmitMembersSnoc(c[..index], c[index]);
    assert c[..index + 1] == c[..index] + [c[index]];
    if index == 0 {
      assert before + EmitMembers(c[..0]) == before;
    } else {
      Regrouped(before, EmitMembers(c[..index]), ",", EmitMember(c[index]));
    }
  }

  method WriteMember(e: Entry, output: Output)
    modifies output
    ensures output.text == old(output.text) + EmitMember(CanonEntry(e))
    decreases e, 0
  {
    output.PushStr(Quote(e.0));
    output.PushStr(":");
    WriteCanonicalJson(e.1, output);
    assert EmitMember(CanonEntry(e)) == Quote(e.0) + ":" + CanonicalText(e.1);
  }

  method CanonicalJsonString(value: Value) returns (text: string)
    ensures text == CanonicalText(value)
  {
    var output := new Output();
    WriteCanonicalJson(value, output);
    text := output.text;
  }

  // ---- Google credentials ----

  function CanonicalizeGoogleCredentials(num: NumberReader, credentials: string): string {
    match FromStr(num, credentials)
    case Some(value) => CanonicalText(value)
    case None => credentials
  }

  /** Canonical text of a value that was read is JSON again, for the value with its numbers read once more. */
  lemma CanonicalizeReadsAgain(num: NumberReader, credentials: string)
    requires PrintsReadable(num)
    ensures var c := CanonicalizeGoogleCredentials(num, credentials);
      match FromStr(num, credentials)
      case Some(v) => Readable(num, v) && c == Emit(v) && FromStr(num, c) == Some(Renum(num, v))
      case None => c == credentials
  {
    var r := FromStr(num, credentials);
    if r.Some? {
      FromStrAgain(num, credentials);
      CanonOfReadable(num, r.value);
    }
  }

  /** Canonicalising twice is canonicalising once exactly when every number in the credentials is a fixed point of the reader. */
  lemma CanonicalizeIdempotentIff(num: NumberReader, credentials: string)
    requires PrintsReadable(num)
    ensures var c := CanonicalizeGoogleCredentials(num, credentials);
      CanonicalizeGoogleCredentials(num, c) == c
      <==> (FromStr(num, credentials).Some? ==> Fixed(num, FromStr(num, credentials).value))
  {
    CanonicalizeReadsAgain(num, credentials);
    var r := FromStr(num, credentials);
    if r.Some? {
      var v, w := r.value, Renum(num, r.value);
      RenumReadable(num, v);
      CanonOfReadable(num, w);
      RenumFixedIff(num, v);
      assert CanonicalizeGoogleCredentials(num, Emit(v)) == Emit(w);
      if Emit(v) == Emit(w) { EmitInjective(num, v, w); }
    }
  }

  /** A float that drifts: with a reader that rounds so, canonicalising these credentials again changes them again. */
  lemma CanonicalizeDrifts(num: NumberReader, written: string, read: string, again: string)
    requires Drifting(num, written, read, again)
    ensures var once := CanonicalizeGoogleCredentials(num, written);
      once == read && CanonicalizeGoogleCredentials(num, once) == again != once
  {
    DriftingLiterals(num, written, read, again);
    FromStrNumber(num, written, read);
    FromStrNumber(num, read, again);
  }

  /** Same credentials: the same text, or two JSON texts for values equal with objects read as maps. */
  ghost predicate SameGoogleCredentials(num: NumberReader, a: string, b: string) {
    match (FromStr(num, a), FromStr(num, b))
    case (Some(va), Some(vb)) => MeaningOf(va) == MeaningOf(vb)
    case (None, None) => a == b
    case _ => false
  }

  /**
    Two credential strings canonicalise alike exactly when they are the same credentials; in particular the
    raw-text fallback for malformed JSON never collides with the canonical text of a JSON value.
   */
  lemma CanonicalizeIffSameCredentials(num: NumberReader, a: string, b: string)
    requires PrintsReadable(num)
    ensures CanonicalizeGoogleCredentials(num, a) == CanonicalizeGoogleCredentials(num, b)
       <==> SameGoogleCredentials(num, a, b)
  {
    CanonicalizeReadsAgain(num, a);
    CanonicalizeReadsAgain(num, b);
    var ra, rb := FromStr(num, a), FromStr(num, b);
    if ra.Some? && rb.Some? {
      ReadableIsWellFormed(num, ra.value);
      ReadableIsWellFormed(num, rb.value);
      CanonicalTextIffSameMeaning(ra.value, rb.value);
    }
  }

  // ---- Fingerprint material ----

  datatype ResolvedProviderAuth =
    | ApiKey(apiKey: string)
    | Google(credentials: string)
    | AzureSpeech(azureKey: string, region: string)

  /** The text `cache_fingerprint` hashes. */
  function Material(num: NumberReader, auth: ResolvedProviderAuth): string {
    match auth
    case ApiKey(k) => "api_key|" + k
    case Google(c) => "google|" + CanonicalizeGoogleCredentials(num, c)
    case AzureSpeech(k, r) => "azure|" + k + "|" + r
  }

  ghost predicate SameAuth(num: NumberReader, a: ResolvedProviderAuth, b: ResolvedProviderAuth) {
    match (a, b)
    case (Google(ca), Google(cb)) => SameGoogleCredentials(num, ca, cb)
    case _ => a == b
  }

  lemma CancelPrefix(p: string, a: string, b: string)
    requires p + a == p + b
    ensures a == b
  {
    assert a == (p + a)[|p|..] && b == (p + b)[|p|..];
  }

  lemma AfterLastPipe(k: string, r: string)
    requires '|' !in r
    ensures (k + "|" + r)[|k|] == '|'
    ensures forall j :: |k| < j < |k + "|" + r| ==> (k + "|" + r)[j] != '|'
  {
    forall j | |k| < j < |k + "|" + r| ensures (k + "|" + r)[j] != '|' {
      assert (k + "|" + r)[j] == r[j - |k| - 1];
    }
  }

  lemma SplitAtLastPipe(k1: string, r1: string, k2: string, r2: string)
    requires k1 + "|" + r1 == k2 + "|" + r2
    requires '|' !in r1 && '|' !in r2
    ensures k1 == k2 && r1 == r2
  {
    var m := k1 + "|" + r1;
    AfterLastPipe(k1, r1);
    AfterLastPipe(k2, r2);
    assert |k1| == |k2|;
    assert k1 == m[..|k1|] && k2 == m[..|k2|];
    assert r1 == m[|k1| + 1..] && r2 == m[|k2| + 1..];
  }

  lemma AzureMaterialTail(num: NumberReader, k1: string, r1: string, k2: string, r2: string)
    ensures Material(num, AzureSpeech(k1, r1)) == Material(num, AzureSpeech(k2, r2)) <==> k1 + "|" + r1 == k2 + "|" + r2
  {
    assert "azure|" + k1 + "|" + r1 == "azure|" + (k1 + "|" + r1);
    assert "azure|" + k2 + "|" + r2 == "azure|" + (k2 + "|" + r2);
    if Material(num, AzureSpeech(k1, r1)) == Material(num, AzureSpeech(k2, r2)) { CancelPrefix("azure|", k1 + "|" + r1, k2 + "|" + r2); }
  }

  /** The material determines the variant. */
  lemma MaterialDeterminesVariant(num: NumberReader, a: ResolvedProviderAuth, b: ResolvedProviderAuth)
    requires Material(num, a) == Material(num, b)
    ensures a.ApiKey? == b.ApiKey? && a.Google? == b.Google? && a.AzureSpeech? == b.AzureSpeech?
  {
    assert Material(num, a)[1] == if a.ApiKey? then 'p' else if a.Google? then 'o' else 'z';
    assert Material(num, b)[1] == if b.ApiKey? then 'p' else if b.Google? then 'o' else 'z';
  }

  /** Equal material means equal credentials, as long as no Azure region contains the separator. */
  lemma MaterialIffSameAuth(num: NumberReader, a: ResolvedProviderAuth, b: ResolvedProviderAuth)
    requires PrintsReadable(num)
    requires a.AzureSpeech? ==> '|' !in a.region
    requires b.AzureSpeech? ==> '|' !in b.region
    ensures Material(num, a) == Material(num, b) <==> SameAuth(num, a, b)
  {
    if Material(num, a) == Material(num, b) { MaterialDeterminesVariant(num, a, b); }
    match (a, b)
    case (ApiKey(ka), ApiKey(kb)) =>
      if Material(num, a) == Material(num, b) { CancelPrefix("api_key|", ka, kb); }
    case (Google(ca), Google(cb)) =>
      CanonicalizeIffSameCredentials(num, ca, cb);
      if Material(num, a) == Material(num, b) {
        CancelPrefix("google|", CanonicalizeGoogleCredentials(num, ca), CanonicalizeGoogleCredentials(num, cb));
      }
    case (AzureSpeech(ka, ra), AzureSpeech(kb, rb)) =>
      if Material(num, a) == Material(num, b) {
        AzureMaterialTail(num, ka, ra, kb, rb);
        SplitAtLastPipe(ka, ra, kb, rb);
      }
    case _ =>
  }

  lemma SplitAtOnlyPipe(k: string, r: string, key: string, region: string)
    requires k + "|" + r == key + "|" + region && '|' !in key && '|' !in region
    ensures k == key && r == region
  {
    var whole := key + "|" + region;
    assert whole[|k|] == '|';
    assert |k| == |key|;
    assert k == whole[..|k|] && key == whole[..|key|];
    assert r == whole[|k| + 1..] && region == whole[|key| + 1..];
  }

  /** Without a restriction on regions, exactly the separator-free pairs have material of their own. */
  lemma AzureMaterialUniqueIff(num: NumberReader, key: string, region: string)
    ensures (forall k, r :: Material(num, AzureSpeech(k, r)) == Material(num, AzureSpeech(key, region)) ==> k == key && r == region)
       <==> '|' !in key && '|' !in region
  {
    if '|' !in key && '|' !in region {
      forall k, r | Material(num, AzureSpeech(k, r)) == Material(num, AzureSpeech(key, region))
        ensures k == key && r == region
      {
        AzureMaterialTail(num, k, r, key, region);
        SplitAtOnlyPipe(k, r, key, region);
      }
    } else if '|' in key {
      var i :| 0 <= i < |key| && key[i] == '|';
      AzureMaterialShifts(num, key, region, key[..i], key[i + 1..] + "|" + region);
    } else {
      var i :| 0 <= i < |region| && region[i] == '|';
      AzureMaterialShifts(num, key, region, key + "|" + region[..i], region[i + 1..]);
    }
  }

  lemma AzureMaterialShifts(num: NumberReader, key: string, region: string, k: string, r: string)
    requires k + "|" + r == key + "|" + region && k != key
    ensures exists k', r' :: Material(num, AzureSpeech(k', r')) == Material(num, AzureSpeech(key, region)) && !(k' == key && r' == region)
  {
    AzureMaterialTail(num, k, r, key, region);
    assert Material(num, AzureSpeech(k, r)) == Material(num, AzureSpeech(key, region));
  }
}
