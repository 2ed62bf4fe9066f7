/**
  The part of serde_json the server relies on: JSON values, the compact printer and the reader
  (RFC 8259; a `Map` is a `BTreeMap`, nesting is limited to 127 levels, number literals are read by a
  parameter because their rounding belongs to the library).
 */
module Json {
  import opened Wrappers
  import opened Text

  type Entry = (string, Value)

  datatype Value =
    | Null
    | Bool(b: bool)
    | Number(token: string)
    | String(s: string)
    | Array(items: seq<Value>)
    | Object(entries: seq<Entry>)

  /** Deepest nesting `from_str` accepts before it reports that the recursion limit is exceeded. */
  const MAX_DEPTH: nat := 127

  /** Maps a number literal to the literal serde prints for the number it read, or rejects it. */
  type NumberReader = string -> Option<string>

  // ---- Number literals (section 6 of RFC 8259) ----

  predicate IsDigit(c: char) { '0' <= c <= '9' }

  predicate IsNumberChar(c: char) { IsDigit(c) || c in "+-.eE" }

  predicate AllDigits(s: string) { forall i :: 0 <= i < |s| ==> IsDigit(s[i]) }

  /** Length of the longest prefix made of digits. */
  function DigitRun(s: string): (n: nat)
    ensures n <= |s|
  {
    if |s| > 0 && IsDigit(s[0]) then 1 + DigitRun(s[1..]) else 0
  }

  predicate IsExponent(s: string) {
    || s == ""
    || (s[0] in "eE" && var t := if |s| > 1 && s[1] in "+-" then s[2..] else s[1..]; |t| > 0 && AllDigits(t))
  }

  predicate IsFractionAndExponent(s: string) {
    if s != "" && s[0] == '.' then
      var n := DigitRun(s[1..]);
      n > 0 && IsExponent(s[1 + n..])
    else IsExponent(s)
  }

  predicate IsUnsignedNumber(s: string) {
    var n := DigitRun(s);
    n > 0 && (s[0] == '0' ==> n == 1) && IsFractionAndExponent(s[n..])
  }

  predicate IsNumber(s: string) {
    (forall i :: 0 <= i < |s| ==> IsNumberChar(s[i])) && s != ""
    && (if s[0] == '-' then IsUnsignedNumber(s[1..]) else IsUnsignedNumber(s))
  }

  ghost predicate ReadsAgain(num: NumberReader, t: string) {
    IsNumber(t) && num(t).Some? ==> IsNumber(num(t).value) && num(num(t).value).Some?
  }

  /** A printed number is a literal that can be read. It need not read back as the same number. */
  ghost predicate PrintsReadable(num: NumberReader) { forall t :: ReadsAgain(num, t) }

  function TokenRun(s: string): (n: nat)
    ensures n <= |s|
  {
    if |s| > 0 && IsNumberChar(s[0]) then 1 + TokenRun(s[1..]) else 0
  }

  // ---- Well-formed values ----

  ghost predicate HasUniqueKeys(entries: seq<Entry>) {
    forall i, j :: 0 <= i < j < |entries| ==> entries[i].0 != entries[j].0
  }

  ghost predicate SortedKeys(entries: seq<Entry>) {
    forall i, j :: 0 <= i < j < |entries| ==> Less(entries[i].0, entries[j].0)
  }

  /** Objects are finite maps and numbers are literals; entries may be in any order. */
  ghost predicate WellFormed(v: Value) {
    match v
    case Number(t) => IsNumber(t)
    case Array(items) => forall i :: 0 <= i < |items| ==> WellFormed(items[i])
    case Object(entries) => HasUniqueKeys(entries) && forall i :: 0 <= i < |entries| ==> WellFormed(entries[i].1)
    case _ => true
  }

  /** What `from_str` returns: every map in key order and every number a literal that can be read again. */
  ghost predicate Readable(num: NumberReader, v: Value) {
    match v
    case Number(t) => IsNumber(t) && num(t).Some?
    case Array(items) => forall i :: 0 <= i < |items| ==> Readable(num, items[i])
    case Object(entries) => SortedKeys(entries) && forall i :: 0 <= i < |entries| ==> Readable(num, entries[i].1)
    case _ => true
  }

  /** Every number reads back as it is printed. */
  ghost predicate Fixed(num: NumberReader, v: Value) {
    match v
    case Number(t) => num(t) == Some(t)
    case Array(items) => forall i :: 0 <= i < |items| ==> Fixed(num, items[i])
    case Object(entries) => forall i :: 0 <= i < |entries| ==> Fixed(num, entries[i].1)
    case _ => true
  }

  ghost predicate Fits(v: Value, depth: nat) {
    match v
    case Array(items) => depth > 0 && forall i :: 0 <= i < |items| ==> Fits(items[i], depth - 1)
    case Object(entries) => depth > 0 && forall i :: 0 <= i < |entries| ==> Fits(entries[i].1, depth - 1)
    case _ => true
  }

  // ---- Printer ----

  function HexDigit(n: nat): char
    requires n < 16
  {
    if n < 10 then ('0' as int + n) as char else ('a' as int + n - 10) as char
  }

  function EscapeChar(c: char): string {
    match c
    case '"' => "\\\""
    case '\\' => "\\\\"
    case '\n' => "\\n"
    case '\r' => "\\r"
    case '\t' => "\\t"
    case _ =>
      var n := c as int;
      if n == 8 then "\\b"
      else if n == 12 then "\\f"
      else if n < 0x20 then "\\u00" + [HexDigit(n / 16), HexDigit(n % 16)]
      else [c]
  }

  function Escape(s: string): string {
    if |s| == 0 then "" else EscapeChar(s[0]) + Escape(s[1..])
  }

  function Quote(s: string): string { "\"" + Escape(s) + "\"" }

  /** `serde_json::to_string`: compact, map entries in iteration order. */
  function Emit(v: Value): string
    decreases v, 0
  {
    match v
    case Null => "null"
    case Bool(b) => if b then "true" else "false"
    case Number(t) => t
    case String(s) => Quote(s)
    case Array(items) => "[" + EmitItems(items) + "]"
    case Object(entries) => "{" + EmitMembers(entries) + "}"
  }

  function EmitItems(items: seq<Value>): string
    decreases items, 1
  {
    if |items| == 0 then ""
    else if |items| == 1 then Emit(items[0])
    else Emit(items[0]) + "," + EmitItems(items[1..])
  }

  function EmitMember(e: Entry): string
    decreases e, 0
  {
    Quote(e.0) + ":" + Emit(e.1)
  }

  function EmitMembers(entries: seq<Entry>): string
    decreases entries, 1
  {
    if |entries| == 0 then ""
    else if |entries| == 1 then EmitMember(entries[0])
    else EmitMember(entries[0]) + "," + EmitMembers(entries[1..])
  }

  // ---- Reader ----

  predicate IsSpace(c: char) { c in " \n\t\r" }

  function SkipSpace(s: string): (r: string)
    ensures |r| <= |s|
    ensures |r| > 0 ==> !IsSpace(r[0])
  {
    if |s| > 0 && IsSpace(s[0]) then SkipSpace(s[1..]) else s
  }

  function HexValue(c: char): (r: Option<nat>)
    ensures r.Some? ==> r.value < 16
  {
    if '0' <= c <= '9' then Some(c as int - '0' as int)
    else if 'a' <= c <= 'f' then Some(c as int - 'a' as int + 10)
    else if 'A' <= c <= 'F' then Some(c as int - 'A' as int + 10)
    else None
  }

  function Hex4(s: string): (r: Option<nat>)
    ensures r.Some? ==> |s| >= 4 && r.value < 0x10000
  {
    if |s| < 4 then None else
    var a :- HexValue(s[0]);
    var b :- HexValue(s[1]);
    var c :- HexValue(s[2]);
    var d :- HexValue(s[3]);
    Some(0x1000 * a + 0x100 * b + 0x10 * c + d)
  }

  /** The text after `\u`: one scalar value, or a surrogate pair spelled as two escapes. */
  function ReadUnicodeEscape(s: string): (r: Option<(char, string)>)
    ensures r.Some? ==> |r.value.1| < |s|
  {
    var h :- Hex4(s);
    if 0xDC00 <= h <= 0xDFFF then None
    else if 0xD800 <= h <= 0xDBFF then
      if |s| < 6 || s[4] != '\\' || s[5] != 'u' then None else
      var l :- Hex4(s[6..]);
      if l < 0xDC00 || l > 0xDFFF then None
      else Some(((0x10000 + (h - 0xD800) * 0x400 + (l - 0xDC00)) as char, s[10..]))
    else Some((h as char, s[4..]))
  }

  function ReadEscape(s: string): (r: Option<(char, string)>)
    ensures r.Some? ==> |r.value.1| < |s|
  {
    if |s| == 0 then None else
    match s[0]
    case '"' => Some(('"', s[1..]))
    case '\\' => Some(('\\', s[1..]))
    case '/' => Some(('/', s[1..]))
    case 'b' => Some((8 as char, s[1..]))
    case 'f' => Some((12 as char, s[1..]))
    case 'n' => Some(('\n', s[1..]))
    case 'r' => Some(('\r', s[1..]))
    case 't' => Some(('\t', s[1..]))
    case 'u' => ReadUnicodeEscape(s[1..])
    case _ => None
  }

  /** The rest of a string literal, after its opening quotation mark. */
  function ReadString(s: string): (r: Option<(string, string)>)
    ensures r.Some? ==> |r.value.1| < |s|
    decreases |s|
  {
    if |s| == 0 then None
    else if s[0] == '"' then Some(("", s[1..]))
    else if s[0] == '\\' then
      var (c, rest) :- ReadEscape(s[1..]);
      var (tail, rest') :- ReadString(rest);
      Some(([c] + tail, rest'))
    else if (s[0] as int) < 0x20 then None
    else
      var (tail, rest) :- ReadString(s[1..]);
      Some(([s[0]] + tail, rest))
  }

  function ReadNumber(num: NumberReader, s: string): (r: Option<(Value, string)>)
    ensures r.Some? ==> |r.value.1| < |s|
  {
    var n := TokenRun(s);
    if !IsNumber(s[..n]) then None else
    var t :- num(s[..n]);
    Some((Number(t), s[n..]))
  }

  /** `BTreeMap::insert`. */
  function MapInsert(entries: seq<Entry>, key: string, value: Value): seq<Entry> {
    if |entries| == 0 then [(key, value)]
    else if entries[0].0 == key then [(key, value)] + entries[1..]
    else if Less(key, entries[0].0) then [(key, value)] + entries
    else [entries[0]] + MapInsert(entries[1..], key, value)
  }

  function InsertAll(read: seq<Entry>, entries: seq<Entry>): seq<Entry>
    decreases |entries|
  {
    if |entries| == 0 then read else InsertAll(MapInsert(read, entries[0].0, entries[0].1), entries[1..])
  }

  function ReadLiteral(literal: string, v: Value, s: string): (r: Option<(Value, string)>)
    requires literal != ""
    ensures r.Some? ==> |r.value.1| < |s|
  {
    if literal <= s then Some((v, s[|literal|..])) else None
  }

  function ReadValue(num: NumberReader, depth: nat, text: string): (r: Option<(Value, string)>)
    ensures r.Some? ==> |r.value.1| < |text|
    decreases |text|, 4
  {
    var s := SkipSpace(text);
    if |s| == 0 then None else
    match s[0]
    case 'n' => ReadLiteral("null", Null, s)
    case 't' => ReadLiteral("true", Bool(true), s)
    case 'f' => ReadLiteral("false", Bool(false), s)
    case '"' =>
      var (t, rest) :- ReadString(s[1..]);
      Some((String(t), rest))
    case '[' => ReadArray(num, depth, s[1..])
    case '{' => ReadObject(num, depth, s[1..])
    case _ => ReadNumber(num, s)
  }

  /** An array after its opening bracket. */
  function ReadArray(num: NumberReader, depth: nat, text: string): (r: Option<(Value, string)>)
    ensures r.Some? ==> |r.value.1| < |text|
    decreases |text|, 6
  {
    if depth == 0 then None else
    var s := SkipSpace(text);
    if |s| > 0 && s[0] == ']' then Some((Array([]), s[1..])) else
    var (items, rest) :- ReadItems(num, depth - 1, [], s);
    Some((Array(items), rest))
  }

  /** An object after its opening brace. */
  function ReadObject(num: NumberReader, depth: nat, text: string): (r: Option<(Value, string)>)
    ensures r.Some? ==> |r.value.1| < |text|
    decreases |text|, 7
  {
    if depth == 0 then None else
    var s := SkipSpace(text);
    if |s| > 0 && s[0] == '}' then Some((Object([]), s[1..])) else
    var (entries, rest) :- ReadMembers(num, depth - 1, [], s);
    Some((Object(entries), rest))
  }

  /** Array elements up to and including the closing bracket. */
  function ReadItems(num: NumberReader, depth: nat, read: seq<Value>, text: string): (r: Option<(seq<Value>, string)>)
    ensures r.Some? ==> |r.value.1| < |text|
    decreases |text|, 5
  {
    var (v, rest) :- ReadValue(num, depth, text);
    var s := SkipSpace(rest);
    if |s| == 0 then None
    else if s[0] == ']' then Some((read + [v], s[1..]))
    else if s[0] == ',' then ReadItems(num, depth, read + [v], s[1..])
    else None
  }

  function ReadMember(num: NumberReader, depth: nat, text: string): (r: Option<(Entry, string)>)
    ensures r.Some? ==> |r.value.1| < |text|
    decreases |text|, 5
  {
    var s := SkipSpace(text);
    if |s| == 0 || s[0] != '"' then None else
    var (key, rest) :- ReadString(s[1..]);
    var t := SkipSpace(rest);
    if |t| == 0 || t[0] != ':' then None else
    var (value, rest') :- ReadValue(num, depth, t[1..]);
    Some(((key, value), rest'))
  }

  /** Object members up to and including the closing brace; a repeated key keeps its last value. */
  function ReadMembers(num: NumberReader, depth: nat, read: seq<Entry>, text: string): (r: Option<(seq<Entry>, string)>)
    ensures r.Some? ==> |r.value.1| < |text|
    decreases |text|, 6
  {
    var (e, rest) :- ReadMember(num, depth, text);
    var s := SkipSpace(rest);
    var read' := MapInsert(read, e.0, e.1);
    if |s| == 0 then None
    else if s[0] == '}' then Some((read', s[1..]))
    else if s[0] == ',' then ReadMembers(num, depth, read', s[1..])
    else None
  }

  /** `serde_json::from_str::<Value>`. */
  function FromStr(num: NumberReader, text: string): Option<Value> {
    var (v, rest) :- ReadValue(num, MAX_DEPTH, text);
    if SkipSpace(rest) == "" then Some(v) else None
  }

  // ---- What printing and reading again does to numbers ----

  function Renum(num: NumberReader, v: Value): Value
    decreases v, 0
  {
    match v
    case Number(t) => if num(t).Some? then Number(num(t).value) else v
    case Array(items) => Array(RenumItems(num, items))
    case Object(entries) => Object(RenumEntries(num, entries))
    case _ => v
  }

  function RenumItems(num: NumberReader, items: seq<Value>): (r: seq<Value>)
    ensures |r| == |items|
    ensures forall i :: 0 <= i < |items| ==> r[i] == Renum(num, items[i])
    decreases items, 1
  {
    if |items| == 0 then [] else [Renum(num, items[0])] + RenumItems(num, items[1..])
  }

  function RenumEntry(num: NumberReader, e: Entry): Entry
    decreases e, 0
  {
    (e.0, Renum(num, e.1))
  }

  function RenumEntries(num: NumberReader, entries: seq<Entry>): (r: seq<Entry>)
    ensures |r| == |entries|
    ensures forall i :: 0 <= i < |entries| ==> r[i] == RenumEntry(num, entries[i])
    decreases entries, 1
  {
    if |entries| == 0 then [] else [RenumEntry(num, entries[0])] + RenumEntries(num, entries[1..])
  }

  lemma RenumSorted(num: NumberReader, entries: seq<Entry>)
    requires SortedKeys(entries)
    ensures SortedKeys(RenumEntries(num, entries))
  {
    forall i, j | 0 <= i < j < |entries| ensures Less(RenumEntries(num, entries)[i].0, RenumEntries(num, entries)[j].0) {
      assert RenumEntry(num, entries[i]).0 == entries[i].0 && RenumEntry(num, entries[j]).0 == entries[j].0;
    }
  }

  /** Reading again changes nothing exactly when every number is a fixed point of the reader. */
  lemma {:induction false} RenumFixedIff(num: NumberReader, v: Value)
    requires Readable(num, v)
    ensures Renum(num, v) == v <==> Fixed(num, v)
  {
    match v
    case Array(items) =>
      forall i | 0 <= i < |items| ensures RenumItems(num, items)[i] == items[i] <==> Fixed(num, items[i]) {
        RenumFixedIff(num, items[i]);
      }
      SameItemsIff(RenumItems(num, items), items);
    case Object(entries) =>
      forall i | 0 <= i < |entries| ensures RenumEntries(num, entries)[i] == entries[i] <==> Fixed(num, entries[i].1) {
        RenumFixedIff(num, entries[i].1);
        assert RenumEntry(num, entries[i]) == (entries[i].0, Renum(num, entries[i].1));
      }
      SameItemsIff(RenumEntries(num, entries), entries);
    case _ =>
  }

  lemma SameItemsIff<T>(xs: seq<T>, ys: seq<T>)
    requires |xs| == |ys|
    ensures xs == ys <==> forall i :: 0 <= i < |ys| ==> xs[i] == ys[i]
  {
  }

  /** What was read again can be read again. */
  lemma {:induction false} RenumReadable(num: NumberReader, v: Value)
    requires PrintsReadable(num) && Readable(num, v)
    ensures Readable(num, Renum(num, v))
  {
    match v
    case Array(items) =>
      forall i | 0 <= i < |items| ensures Readable(num, RenumItems(num, items)[i]) { RenumReadable(num, items[i]); }
    case Object(entries) =>
      RenumSorted(num, entries);
      forall i | 0 <= i < |entries| ensures Readable(num, RenumEntries(num, entries)[i].1) {
        RenumReadable(num, entries[i].1);
        assert RenumEntries(num, entries)[i] == RenumEntry(num, entries[i]);
      }
    case Number(t) => assert ReadsAgain(num, t);
    case _ =>
  }

  // ---- Maps ----

  lemma MapInsertLast(entries: seq<Entry>, key: string, value: Value)
    requires forall i :: 0 <= i < |entries| ==> Less(entries[i].0, key)
    ensures MapInsert(entries, key, value) == entries + [(key, value)]
  {
    if |entries| > 0 {
      LessAsymmetric(entries[0].0, key);
      MapInsertLast(entries[1..], key, value);
      assert entries + [(key, value)] == [entries[0]] + (entries[1..] + [(key, value)]);
    }
  }

  lemma InsertAllRenum(num: NumberReader, entries: seq<Entry>)
    requires SortedKeys(entries)
    ensures InsertAll([], RenumEntries(num, entries)) == RenumEntries(num, entries)
  {
    var r := RenumEntries(num, entries);
    RenumSorted(num, entries);
    assert [] + r == r;
    InsertAllSorted([], r);
  }

  /** Inserting entries that are already in key order appends them. */
  lemma {:induction false} InsertAllSorted(read: seq<Entry>, entries: seq<Entry>)
    requires SortedKeys(read + entries)
    ensures InsertAll(read, entries) == read + entries
    decreases |entries|
  {
    if |entries| > 0 {
      var e := entries[0];
      forall i | 0 <= i < |read| ensures Less(read[i].0, e.0) {
        assert (read + entries)[i] == read[i] && (read + entries)[|read|] == e;
      }
      MapInsertLast(read, e.0, e.1);
      assert (e.0, e.1) == e && read + [e] + entries[1..] == read + entries;
      InsertAllSorted(read + [e], entries[1..]);
    }
  }

  function MapGet(entries: seq<Entry>, key: string): Option<Value> {
    if |entries| == 0 then None
    else if entries[0].0 == key then Some(entries[0].1)
    else MapGet(entries[1..], key)
  }

  lemma {:induction false} MapInsertGet(entries: seq<Entry>, key: string, value: Value, k: string)
    requires SortedKeys(entries)
    ensures MapGet(MapInsert(entries, key, value), k) == if k == key then Some(value) else MapGet(entries, k)
  {
    if |entries| > 0 {
      var m := MapInsert(entries, key, value);
      if entries[0].0 == key {
        assert m[1..] == entries[1..];
      } else if Less(key, entries[0].0) {
        assert m[1..] == entries;
      } else {
        assert m[1..] == MapInsert(entries[1..], key, value);
        MapInsertGet(entries[1..], key, value, k);
      }
    }
  }

  lemma {:induction false} MapInsertMembers(entries: seq<Entry>, key: string, value: Value)
    ensures forall e :: e in MapInsert(entries, key, value) ==> e == (key, value) || e in entries
  {
    if |entries| > 0 { MapInsertMembers(entries[1..], key, value); }
  }

  lemma {:induction false} MapInsertSorted(entries: seq<Entry>, key: string, value: Value)
    requires SortedKeys(entries)
    ensures SortedKeys(MapInsert(entries, key, value))
  {
    if |entries| > 0 {
      var first := entries[0];
      LessConnected(key, first.0);
      if first.0 != key && !Less(key, first.0) {
        MapInsertSorted(entries[1..], key, value);
        MapInsertMembers(entries[1..], key, value);
        var m := MapInsert(entries[1..], key, value);
        forall j | 0 <= j < |m| ensures Less(first.0, m[j].0) {
          assert m[j] in m;
        }
      } else if Less(key, first.0) {
        forall j | 0 <= j < |entries| ensures Less(key, entries[j].0) {
          if j > 0 { LessTransitive(key, first.0, entries[j].0); }
        }
      }
    }
  }

  lemma {:induction false} MapInsertReadable(num: NumberReader, depth: nat, entries: seq<Entry>, key: string, value: Value)
    requires ReadableEntries(num, depth, entries) && Readable(num, value) && Fits(value, depth)
    ensures ReadableEntries(num, depth, MapInsert(entries, key, value))
  {
    MapInsertSorted(entries, key, value);
    MapInsertMembers(entries, key, value);
    var m := MapInsert(entries, key, value);
    forall j | 0 <= j < |m| ensures Readable(num, m[j].1) && Fits(m[j].1, depth) {
      assert m[j] in m;
    }
  }

  ghost predicate ReadableItems(num: NumberReader, depth: nat, items: seq<Value>) {
    forall i :: 0 <= i < |items| ==> Readable(num, items[i]) && Fits(items[i], depth)
  }

  ghost predicate ReadableEntries(num: NumberReader, depth: nat, entries: seq<Entry>) {
    SortedKeys(entries) && forall i :: 0 <= i < |entries| ==> Readable(num, entries[i].1) && Fits(entries[i].1, depth)
  }
}
