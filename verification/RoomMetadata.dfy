/** Room metadata helpers (src/livekit/metadata.rs): the tenant id kept in a room's JSON metadata. */
module RoomMetadata {
  import opened Wrappers
  import opened Text
  import opened Json
  import opened JsonSyntax
  import opened CanonicalJson

  const AUTH_ID_KEY := "auth_id"

  datatype MetadataError = InvalidJson | NotAnObject | AuthIdConflict(existing: string, attempted: string)

  function ParseMetadata(num: NumberReader, raw: string): Result<seq<Entry>, MetadataError> {
    var trimmed := Trim(raw);
    if trimmed == "" then Ok([]) else
    match FromStr(num, trimmed)
    case None => Err(InvalidJson)
    case Some(Object(entries)) => Ok(entries)
    case Some(_) => Err(NotAnObject)
  }

  function AuthIdIn(entries: seq<Entry>): Option<string> {
    match MapGet(entries, AUTH_ID_KEY)
    case Some(String(s)) => Some(s)
    case _ => None
  }

  function GetAuthId(num: NumberReader, raw: string): Option<string> {
    match ParseMetadata(num, raw)
    case Ok(entries) => AuthIdIn(entries)
    case Err(_) => None
  }

  function MergeAuthId(num: NumberReader, raw: string, authId: string): Result<string, MetadataError> {
    var entries :- ParseMetadata(num, raw);
    match AuthIdIn(entries)
    case Some(existing) =>
      if existing == authId then Ok(Emit(Object(entries))) else Err(AuthIdConflict(existing, authId))
    case None => Ok(Emit(Object(MapInsert(entries, AUTH_ID_KEY, String(authId)))))
  }

  // ---- What the metadata says, in terms of its text alone ----

  /** Text that is neither blank nor a JSON object. */
  ghost predicate Unreadable(num: NumberReader, raw: string) {
    var t := Trim(raw);
    t != "" && (FromStr(num, t).None? || !FromStr(num, t).value.Object?)
  }

  /** The value the metadata holds under a key, if it is an object. */
  ghost function MetadataField(num: NumberReader, raw: string, key: string): Option<Value> {
    match FromStr(num, Trim(raw))
    case Some(Object(entries)) => MapGet(entries, key)
    case _ => None
  }

  /** The tenant that the metadata names. */
  ghost function TenantOf(num: NumberReader, raw: string): Option<string> {
    match MetadataField(num, raw, "auth_id")
    case Some(String(s)) => Some(s)
    case _ => None
  }

  /** The helpers read the metadata as that: blank text is an empty object, and anything else is an error. */
  lemma HelpersRead(num: NumberReader, raw: string)
    ensures ParseMetadata(num, raw).Ok? <==> !Unreadable(num, raw)
    ensures GetAuthId(num, raw) == TenantOf(num, raw)
    ensures ParseMetadata(num, raw).Ok? ==> forall k :: MapGet(ParseMetadata(num, raw).value, k) == MetadataField(num, raw, k)
    ensures ParseMetadata(num, raw) == Err(NotAnObject) <==> Unreadable(num, raw) && FromStr(num, Trim(raw)).Some?
    ensures ParseMetadata(num, raw) == Err(InvalidJson) <==> Unreadable(num, raw) && FromStr(num, Trim(raw)).None?
  {
    if Trim(raw) == "" { assert FromStr(num, "").None?; }
  }

  lemma ParsedMetadataIsReadable(num: NumberReader, raw: string)
    requires PrintsReadable(num)
    ensures ParseMetadata(num, raw).Ok? ==> ReadableEntries(num, MAX_DEPTH - 1, ParseMetadata(num, raw).value)
  {
    if FromStr(num, Trim(raw)).Some? { FromStrAgain(num, Trim(raw)); }
  }

  /** Metadata that was serialised here reads back to the same map, with its numbers read once more. */
  lemma ParseSerialized(num: NumberReader, entries: seq<Entry>)
    requires ReadableEntries(num, MAX_DEPTH - 1, entries)
    ensures ParseMetadata(num, Emit(Object(entries))) == Ok(RenumEntries(num, entries))
  {
    var text := Emit(Object(entries));
    assert text[0] == '{' && text[|text| - 1] == '}';
    TrimFixpoint(text);
    FromStrInverse(num, Object(entries));
  }

  ghost function RenumField(num: NumberReader, field: Option<Value>): Option<Value> {
    match field case Some(v) => Some(Renum(num, v)) case None => None
  }

  ghost predicate FixedField(num: NumberReader, field: Option<Value>) { field.Some? ==> Fixed(num, field.value) }

  lemma {:induction false} RenumGet(num: NumberReader, entries: seq<Entry>, key: string)
    ensures MapGet(RenumEntries(num, entries), key) == RenumField(num, MapGet(entries, key))
  {
    if |entries| > 0 {
      var r := RenumEntries(num, entries);
      assert r[0] == RenumEntry(num, entries[0]) && r[1..] == RenumEntries(num, entries[1..]);
      RenumGet(num, entries[1..], key);
    }
  }

  lemma {:induction false} GetIsMember(entries: seq<Entry>, key: string)
    requires MapGet(entries, key).Some?
    ensures exists i :: 0 <= i < |entries| && entries[i].1 == MapGet(entries, key).value
  {
    if entries[0].0 != key {
      GetIsMember(entries[1..], key);
      var i :| 0 <= i < |entries[1..]| && entries[1..][i].1 == MapGet(entries, key).value;
      assert entries[i + 1].1 == MapGet(entries, key).value;
    }
  }

  /** A field comes through being printed and read exactly when its numbers are fixed points of the reader. */
  lemma FieldSurvivesIff(num: NumberReader, raw: string, key: string)
    requires PrintsReadable(num)
    ensures var field := MetadataField(num, raw, key); RenumField(num, field) == field <==> FixedField(num, field)
  {
    var field := MetadataField(num, raw, key);
    if field.Some? {
      HelpersRead(num, raw);
      ParsedMetadataIsReadable(num, raw);
      var entries := ParseMetadata(num, raw).value;
      GetIsMember(entries, key);
      RenumFixedIff(num, field.value);
    }
  }

  /** The map a successful merge serialises. */
  function Merged(entries: seq<Entry>, authId: string): seq<Entry> {
    if AuthIdIn(entries).Some? then entries else MapInsert(entries, AUTH_ID_KEY, String(authId))
  }

  lemma MergedIsReadable(num: NumberReader, entries: seq<Entry>, authId: string)
    requires ReadableEntries(num, MAX_DEPTH - 1, entries)
    ensures ReadableEntries(num, MAX_DEPTH - 1, Merged(entries, authId))
  {
    if AuthIdIn(entries).None? { MapInsertReadable(num, MAX_DEPTH - 1, entries, AUTH_ID_KEY, String(authId)); }
  }

  lemma MergedGet(entries: seq<Entry>, authId: string, k: string)
    requires SortedKeys(entries) && (AuthIdIn(entries).None? || AuthIdIn(entries) == Some(authId))
    ensures MapGet(Merged(entries, authId), k) == if k == AUTH_ID_KEY then Some(String(authId)) else MapGet(entries, k)
  {
    if AuthIdIn(entries).None? { MapInsertGet(entries, AUTH_ID_KEY, String(authId), k); }
  }

  /** What the text of a successful merge holds, field by field. */
  lemma MergedFields(num: NumberReader, raw: string, authId: string)
    requires PrintsReadable(num) && MergeAuthId(num, raw, authId).Ok?
    ensures ParseMetadata(num, MergeAuthId(num, raw, authId).value) == Ok(RenumEntries(num, Merged(ParseMetadata(num, raw).value, authId)))
    ensures TenantOf(num, MergeAuthId(num, raw, authId).value) == Some(authId)
    ensures forall k :: k != AUTH_ID_KEY ==>
      MetadataField(num, MergeAuthId(num, raw, authId).value, k) == RenumField(num, MetadataField(num, raw, k))
  {
    ParsedMetadataIsReadable(num, raw);
    var entries := ParseMetadata(num, raw).value;
    var merged := Merged(entries, authId);
    MergedIsReadable(num, entries, authId);
    ParseSerialized(num, merged);
    HelpersRead(num, raw);
    HelpersRead(num, MergeAuthId(num, raw, authId).value);
    forall k ensures MapGet(RenumEntries(num, merged), k) ==
      if k == AUTH_ID_KEY then Some(String(authId)) else RenumField(num, MapGet(entries, k))
    {
      RenumGet(num, merged, k);
      MergedGet(entries, authId, k);
    }
  }

  /**
    A merge succeeds exactly when the metadata is readable and names no other tenant, and then stores the id; every other
    field is kept, exactly so if and only if its numbers are fixed points of the reader. A conflict names the two ids.
   */
  lemma MergeAuthIdSpec(num: NumberReader, raw: string, authId: string)
    requires PrintsReadable(num)
    ensures
      var r := MergeAuthId(num, raw, authId);
      && (r.Ok? <==> !Unreadable(num, raw) && (TenantOf(num, raw).None? || TenantOf(num, raw) == Some(authId)))
      && (r.Ok? ==>
        && !Unreadable(num, r.value)
        && TenantOf(num, r.value) == Some(authId)
        && (forall k :: k != AUTH_ID_KEY ==> MetadataField(num, r.value, k) == RenumField(num, MetadataField(num, raw, k)))
        && (forall k :: k != AUTH_ID_KEY ==>
             (MetadataField(num, r.value, k) == MetadataField(num, raw, k) <==> FixedField(num, MetadataField(num, raw, k)))))
      && (forall e, a :: r == Err(AuthIdConflict(e, a)) <==> TenantOf(num, raw) == Some(e) && e != authId && a == authId)
      && (r.Err? && !r.error.AuthIdConflict? <==> Unreadable(num, raw))
  {
    HelpersRead(num, raw);
    if MergeAuthId(num, raw, authId).Ok? {
      MergedFields(num, raw, authId);
      HelpersRead(num, MergeAuthId(num, raw, authId).value);
      forall k { FieldSurvivesIff(num, raw, k); }
    }
  }

  /** Merging the same id again changes nothing exactly when every number that the first merge wrote is a fixed point of the reader. */
  lemma MergeAuthIdIdempotentIff(num: NumberReader, raw: string, authId: string)
    requires PrintsReadable(num) && MergeAuthId(num, raw, authId).Ok?
    ensures var once := MergeAuthId(num, raw, authId);
      MergeAuthId(num, once.value, authId) == once <==> Fixed(num, Object(Merged(ParseMetadata(num, raw).value, authId)))
  {
    ParsedMetadataIsReadable(num, raw);
    var entries := ParseMetadata(num, raw).value;
    var merged := Merged(entries, authId);
    MergedIsReadable(num, entries, authId);
    MergedFields(num, raw, authId);
    var v, w := Object(merged), Object(RenumEntries(num, merged));
    assert MergeAuthId(num, Emit(v), authId) == Ok(Emit(w));
    assert Renum(num, v) == w;
    RenumReadable(num, v);
    RenumFixedIff(num, v);
    if Emit(v) == Emit(w) { EmitInjective(num, v, w); }
  }

  /** Metadata with one field, a number. */
  function NumberField(t: string): string { Emit(Object([("x", Number(t))])) }

  lemma NumberFieldRead(num: NumberReader, written: string, read: string)
    requires SmallDecimal(written) && num(written) == Some(read)
    ensures ParseMetadata(num, NumberField(written)) == Ok([("x", Number(read))])
  {
    SmallDecimalIsNumber(written);
    var entries := [("x", Number(written))];
    ParseSerialized(num, entries);
    assert RenumEntry(num, ("x", Number(written))) == ("x", Number(read));
    assert RenumEntries(num, entries) == [("x", Number(read))];
  }

  /** Claiming the room changes the field x. */
  ghost predicate ClaimChangesX(num: NumberReader, raw: string, authId: string) {
    var r := MergeAuthId(num, raw, authId);
    r.Ok? && MetadataField(num, r.value, "x") != MetadataField(num, raw, "x")
  }

  /** Claiming a room reads and prints its other fields once more. */
  lemma NumberFieldChanges(num: NumberReader, authId: string, written: string, read: string, again: string)
    requires PrintsReadable(num) && SmallDecimal(written)
    requires num(written) == Some(read) && num(read) == Some(again) && read != again
    ensures ClaimChangesX(num, NumberField(written), authId)
  {
    var raw := NumberField(written);
    NumberFieldRead(num, written, read);
    var field := MetadataField(num, raw, "x");
    assert field == Some(Number(read));
    assert MapGet([("x", Number(read))], AUTH_ID_KEY) == MapGet([], AUTH_ID_KEY) == None;
    MergeAuthIdSpec(num, raw, authId);
    assert !FixedField(num, field);
  }

  /** A float that drifts: with a reader that rounds so, claiming a room changes its other field. */
  lemma FieldDrifts(num: NumberReader, authId: string, written: string, read: string, again: string)
    requires PrintsReadable(num) && Drifting(num, written, read, again)
    ensures ClaimChangesX(num, NumberField(written), authId)
  {
    DriftingLiterals(num, written, read, again);
    NumberFieldChanges(num, authId, written, read, again);
  }
}
