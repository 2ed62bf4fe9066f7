/**
  JSON texts as RFC 8259 defines them, by syntax trees that keep every blank and every spelling, and the proof that the
  reader of `Json` accepts exactly the texts of such trees.
 */
module JsonSyntax {
  import opened Wrappers
  import opened Text
  import opened Json
  import opened JsonTokens

  // ---- Syntax trees ----

  datatype Syntax =
    | Word(text: string)
    | Numeral(text: string)
    | Quoted(chars: seq<Spelling>)
    | Brackets(blank: string, items: seq<Item>)
    | Braces(blank: string, members: seq<Member>)

  /** A value with the white space around it. */
  datatype Item = Item(before: string, value: Syntax, after: string)

  datatype Member = Member(before: string, key: seq<Spelling>, colon: string, item: Item)

  ghost function TextOf(s: Syntax): string
    decreases s, 0
  {
    match s
    case Word(t) => t
    case Numeral(t) => t
    case Quoted(chars) => "\"" + CharsText(chars) + "\""
    case Brackets(blank, items) => "[" + (if |items| == 0 then blank else ItemsText(items)) + "]"
    case Braces(blank, members) => "{" + (if |members| == 0 then blank else MembersText(members)) + "}"
  }

  ghost function ItemText(i: Item): string
    decreases i, 0
  {
    i.before + TextOf(i.value) + i.after
  }

  ghost function ItemsText(items: seq<Item>): string
    decreases items, 1
  {
    if |items| == 0 then ""
    else if |items| == 1 then ItemText(items[0])
    else ItemText(items[0]) + "," + ItemsText(items[1..])
  }

  ghost function MemberText(m: Member): string
    decreases m, 0
  {
    m.before + "\"" + CharsText(m.key) + "\"" + m.colon + ":" + ItemText(m.item)
  }

  ghost function MembersText(members: seq<Member>): string
    decreases members, 1
  {
    if |members| == 0 then ""
    else if |members| == 1 then MemberText(members[0])
    else MemberText(members[0]) + "," + MembersText(members[1..])
  }

  /** The tree stands for a text that is JSON, with at most so many levels and numbers that can be read. */
  ghost predicate Valid(num: NumberReader, depth: nat, s: Syntax)
    decreases s, 0
  {
    match s
    case Word(t) => t == "null" || t == "true" || t == "false"
    case Numeral(t) => IsNumber(t) && num(t).Some?
    case Quoted(chars) => AllSpelled(chars)
    case Brackets(blank, items) => depth > 0 && White(blank) && forall i :: 0 <= i < |items| ==> ValidItem(num, depth - 1, items[i])
    case Braces(blank, members) => depth > 0 && White(blank) && forall i :: 0 <= i < |members| ==> ValidMember(num, depth - 1, members[i])
  }

  ghost predicate ValidItem(num: NumberReader, depth: nat, i: Item)
    decreases i, 0
  {
    White(i.before) && White(i.after) && Valid(num, depth, i.value)
  }

  ghost predicate ValidMember(num: NumberReader, depth: nat, m: Member)
    decreases m, 0
  {
    White(m.before) && AllSpelled(m.key) && White(m.colon) && ValidItem(num, depth, m.item)
  }

  /** What the text means to the library: of members with one key the last counts. */
  ghost function ValueOf(num: NumberReader, depth: nat, s: Syntax): Value
    requires Valid(num, depth, s)
    decreases s, 0
  {
    match s
    case Word(t) => if t == "null" then Null else Bool(t == "true")
    case Numeral(t) => Number(num(t).value)
    case Quoted(chars) => String(CharsValue(chars))
    case Brackets(_, items) => Array(ItemValues(num, depth - 1, items))
    case Braces(_, members) => Object(InsertAll([], MemberEntries(num, depth - 1, members)))
  }

  ghost function ItemValues(num: NumberReader, depth: nat, items: seq<Item>): (r: seq<Value>)
    requires forall i :: 0 <= i < |items| ==> ValidItem(num, depth, items[i])
    ensures |r| == |items|
    decreases items, 1
  {
    if |items| == 0 then [] else [ValueOfItem(num, depth, items[0])] + ItemValues(num, depth, items[1..])
  }

  ghost function ValueOfItem(num: NumberReader, depth: nat, i: Item): Value
    requires ValidItem(num, depth, i)
    decreases i, 0
  {
    ValueOf(num, depth, i.value)
  }

  ghost function MemberEntry(num: NumberReader, depth: nat, m: Member): Entry
    requires ValidMember(num, depth, m)
    decreases m, 0
  {
    (CharsValue(m.key), ValueOfItem(num, depth, m.item))
  }

  ghost function MemberEntries(num: NumberReader, depth: nat, members: seq<Member>): (r: seq<Entry>)
    requires forall i :: 0 <= i < |members| ==> ValidMember(num, depth, members[i])
    ensures |r| == |members|
    decreases members, 1
  {
    if |members| == 0 then [] else [MemberEntry(num, depth, members[0])] + MemberEntries(num, depth, members[1..])
  }

  // ---- Every text of a tree is read ----

  /** Text that cannot be mistaken for the continuation of a number. */
  ghost predicate EndsNumber(rest: string) { |rest| > 0 ==> !IsNumberChar(rest[0]) }

  lemma SkipNone(s: string)
    requires |s| > 0 && !IsSpace(s[0])
    ensures SkipSpace(s) == s
  {
  }

  /** White space before a value, an element or a member does not matter. */
  lemma SkipsWhite(num: NumberReader, depth: nat, white: string, text: string)
    requires White(white)
    ensures ReadValue(num, depth, white + text) == ReadValue(num, depth, text)
  {
    WhiteIsSkipped(white, text);
  }

  lemma ItemsSkip(num: NumberReader, depth: nat, read: seq<Value>, text: string)
    ensures ReadItems(num, depth, read, SkipSpace(text)) == ReadItems(num, depth, read, text)
  {
    if SkipSpace(text) != "" { SkipNone(SkipSpace(text)); }
    assert ReadValue(num, depth, SkipSpace(text)) == ReadValue(num, depth, text);
  }

  lemma MembersSkip(num: NumberReader, depth: nat, read: seq<Entry>, text: string)
    ensures ReadMembers(num, depth, read, SkipSpace(text)) == ReadMembers(num, depth, read, text)
  {
    if SkipSpace(text) != "" { SkipNone(SkipSpace(text)); }
    assert ReadMember(num, depth, SkipSpace(text)) == ReadMember(num, depth, text);
  }

  /** The first character of a text tells the reader which kind of value follows. */
  lemma TextHead(num: NumberReader, depth: nat, s: Syntax)
    requires Valid(num, depth, s)
    ensures |TextOf(s)| > 0
    ensures !IsSpace(TextOf(s)[0]) && TextOf(s)[0] != ']' && TextOf(s)[0] != '}'
    ensures s.Numeral? ==> TextOf(s)[0] == '-' || IsDigit(TextOf(s)[0])
  {
  }

  lemma WordReads(num: NumberReader, depth: nat, t: string, rest: string)
    requires t == "null" || t == "true" || t == "false"
    ensures ReadValue(num, depth, t + rest) == Some((if t == "null" then Null else Bool(t == "true"), rest))
  {
    SkipNone(t + rest);
    assert t <= t + rest && (t + rest)[|t|..] == rest;
  }

  lemma BracketText(open: string, inner: string, close: string, rest: string)
    ensures (open + inner + close) + rest == open + (inner + (close + rest))
  {
  }

  lemma QuoteUnfold(num: NumberReader, depth: nat, text: string)
    ensures ReadValue(num, depth, "\"" + text) == match ReadString(text) case None => None case Some(p) => Some((String(p.0), p.1))
  {
    SkipNone("\"" + text);
    assert ("\"" + text)[1..] == text;
  }

  lemma QuotedReads(num: NumberReader, depth: nat, chars: seq<Spelling>, rest: string)
    requires AllSpelled(chars)
    ensures ReadValue(num, depth, "\"" + CharsText(chars) + "\"" + rest) == Some((String(CharsValue(chars)), rest))
  {
    BracketText("\"", CharsText(chars), "\"", rest);
    QuoteUnfold(num, depth, CharsText(chars) + ("\"" + rest));
    CharsRead(chars, rest);
  }

  lemma {:induction false} TokenRuns(t: string, rest: string)
    requires forall i :: 0 <= i < |t| ==> IsNumberChar(t[i])
    requires EndsNumber(rest)
    ensures TokenRun(t + rest) == |t|
  {
    if |t| == 0 {
      assert t + rest == rest;
    } else {
      assert (t + rest)[1..] == t[1..] + rest;
      TokenRuns(t[1..], rest);
    }
  }

  lemma NumberUnfold(num: NumberReader, depth: nat, text: string)
    requires |text| > 0 && (text[0] == '-' || IsDigit(text[0]))
    ensures ReadValue(num, depth, text) == ReadNumber(num, text)
  {
    SkipNone(text);
  }

  lemma NumeralReads(num: NumberReader, depth: nat, t: string, rest: string)
    requires IsNumber(t) && num(t).Some? && EndsNumber(rest)
    ensures ReadValue(num, depth, t + rest) == Some((Number(num(t).value), rest))
  {
    assert (t + rest)[0] == t[0];
    NumberUnfold(num, depth, t + rest);
    TokenRuns(t, rest);
    assert (t + rest)[..|t|] == t && (t + rest)[|t|..] == rest;
  }

  lemma BracketUnfold(num: NumberReader, depth: nat, text: string)
    ensures ReadValue(num, depth, "[" + text) == ReadArray(num, depth, text)
    ensures ReadValue(num, depth, "{" + text) == ReadObject(num, depth, text)
  {
    SkipNone("[" + text);
    SkipNone("{" + text);
    assert ("[" + text)[1..] == text && ("{" + text)[1..] == text;
  }

  lemma Regroup(a: string, b: string, c: string, d: string)
    ensures (a + b + c) + d == a + (b + (c + d))
  {
  }

  /** A text is read as its tree's value, whatever text follows. */
  lemma {:induction false} TextReads(num: NumberReader, depth: nat, s: Syntax, rest: string)
    requires Valid(num, depth, s) && (s.Numeral? ==> EndsNumber(rest))
    ensures ReadValue(num, depth, TextOf(s) + rest) == Some((ValueOf(num, depth, s), rest))
    decreases s, 0
  {
    match s
    case Word(t) => WordReads(num, depth, t, rest);
    case Numeral(t) => NumeralReads(num, depth, t, rest);
    case Quoted(chars) => QuotedReads(num, depth, chars, rest);
    case Brackets(blank, items) => BracketsRead(num, depth, blank, items, rest);
    case Braces(blank, members) => BracesRead(num, depth, blank, members, rest);
  }

  /** What may follow a value: white space, and then a comma or the closing bracket. */
  ghost predicate Delimits(rest: string) { |rest| > 0 && rest[0] in ",]}" }

  lemma DelimiterEnds(white: string, rest: string)
    requires White(white) && Delimits(rest)
    ensures EndsNumber(white + rest) && SkipSpace(white + rest) == rest
  {
    WhiteIsSkipped(white, rest);
    SkipNone(rest);
    if |white| > 0 { assert (white + rest)[0] == white[0]; } else { assert white + rest == rest; }
  }

  lemma {:induction false} ItemReads(num: NumberReader, depth: nat, i: Item, rest: string)
    requires ValidItem(num, depth, i) && Delimits(rest)
    ensures ReadValue(num, depth, ItemText(i) + rest) == Some((ValueOfItem(num, depth, i), i.after + rest))
    ensures SkipSpace(i.after + rest) == rest
    decreases i, 0
  {
    DelimiterEnds(i.after, rest);
    TextReads(num, depth, i.value, i.after + rest);
    SkipsWhite(num, depth, i.before, TextOf(i.value) + (i.after + rest));
    Regroup(i.before, TextOf(i.value), i.after, rest);
  }

  lemma ItemsLast(num: NumberReader, depth: nat, read: seq<Value>, text: string, v: Value, after: string, rest: string)
    requires ReadValue(num, depth, text) == Some((v, after)) && SkipSpace(after) == "]" + rest
    ensures ReadItems(num, depth, read, text) == Some((read + [v], rest))
  {
    assert ("]" + rest)[1..] == rest;
  }

  lemma ItemsMore(num: NumberReader, depth: nat, read: seq<Value>, text: string, v: Value, after: string, more: string)
    requires ReadValue(num, depth, text) == Some((v, after)) && SkipSpace(after) == "," + more
    ensures ReadItems(num, depth, read, text) == ReadItems(num, depth, read + [v], more)
  {
    assert ("," + more)[1..] == more;
  }

  lemma {:induction false} FirstItemReads(num: NumberReader, depth: nat, read: seq<Value>, i: Item, more: string)
    requires ValidItem(num, depth, i)
    ensures ReadItems(num, depth, read, ItemText(i) + ("," + more)) == ReadItems(num, depth, read + [ValueOfItem(num, depth, i)], more)
    decreases i, 1
  {
    ItemReads(num, depth, i, "," + more);
    ItemsMore(num, depth, read, ItemText(i) + ("," + more), ValueOfItem(num, depth, i), i.after + ("," + more), more);
  }

  lemma {:induction false} LastItemReads(num: NumberReader, depth: nat, read: seq<Value>, i: Item, rest: string)
    requires ValidItem(num, depth, i)
    ensures ReadItems(num, depth, read, ItemText(i) + ("]" + rest)) == Some((read + [ValueOfItem(num, depth, i)], rest))
    decreases i, 1
  {
    ItemReads(num, depth, i, "]" + rest);
    ItemsLast(num, depth, read, ItemText(i) + ("]" + rest), ValueOfItem(num, depth, i), i.after + ("]" + rest), rest);
  }

  lemma CommaText(first: string, others: string, rest: string)
    ensures (first + "," + others) + rest == first + ("," + (others + rest))
  {
  }

  lemma ItemsSplit(items: seq<Item>, rest: string)
    requires |items| > 0
    ensures |items| == 1 ==> ItemsText(items) + rest == ItemText(items[0]) + rest
    ensures |items| > 1 ==> ItemsText(items) + rest == ItemText(items[0]) + ("," + (ItemsText(items[1..]) + rest))
  {
    if |items| > 1 { CommaText(ItemText(items[0]), ItemsText(items[1..]), rest); }
  }

  lemma {:induction false} ItemsRead(num: NumberReader, depth: nat, read: seq<Value>, items: seq<Item>, rest: string)
    requires |items| > 0 && forall i :: 0 <= i < |items| ==> ValidItem(num, depth, items[i])
    ensures ReadItems(num, depth, read, ItemsText(items) + ("]" + rest)) == Some((read + ItemValues(num, depth, items), rest))
    decreases items, 1
  {
    ItemsSplit(items, "]" + rest);
    if |items| == 1 {
      LastItemReads(num, depth, read, items[0], rest);
      assert ItemValues(num, depth, items) == [ValueOfItem(num, depth, items[0])];
    } else {
      FirstItemReads(num, depth, read, items[0], ItemsText(items[1..]) + ("]" + rest));
      var first := ValueOfItem(num, depth, items[0]);
      ItemsRead(num, depth, read + [first], items[1..], rest);
      assert read + [first] + ItemValues(num, depth, items[1..]) == read + ItemValues(num, depth, items);
    }
  }

  lemma HeadOf(before: string, value: string, rest: string)
    requires White(before) && |value| > 0 && !IsSpace(value[0])
    ensures var s := SkipSpace(before + (value + rest)); |s| > 0 && s[0] == value[0]
  {
    WhiteIsSkipped(before, value + rest);
    SkipNone(value + rest);
  }

  lemma ItemParts(i: Item, rest: string)
    ensures ItemText(i) + rest == i.before + (TextOf(i.value) + (i.after + rest))
  {
    Regroup(i.before, TextOf(i.value), i.after, rest);
  }

  /** The first character after the white space in front of an item. */
  lemma ItemsHead(num: NumberReader, depth: nat, items: seq<Item>, rest: string)
    requires |items| > 0 && ValidItem(num, depth, items[0])
    ensures var s := SkipSpace(ItemsText(items) + rest); |s| > 0 && s[0] != ']'
  {
    var i := items[0];
    var more := if |items| == 1 then rest else "," + (ItemsText(items[1..]) + rest);
    TextHead(num, depth, i.value);
    ItemsSplit(items, rest);
    ItemParts(i, more);
    HeadOf(i.before, TextOf(i.value), i.after + more);
  }

  lemma EmptyBrackets(num: NumberReader, depth: nat, blank: string, rest: string)
    requires White(blank) && depth > 0
    ensures ReadArray(num, depth, blank + ("]" + rest)) == Some((Array([]), rest))
    ensures ReadObject(num, depth, blank + ("}" + rest)) == Some((Object([]), rest))
  {
    DelimiterEnds(blank, "]" + rest);
    DelimiterEnds(blank, "}" + rest);
    assert ("]" + rest)[1..] == rest && ("}" + rest)[1..] == rest;
  }

  lemma ArrayUnfold(num: NumberReader, depth: nat, text: string, items: seq<Value>, rest: string)
    requires depth > 0 && ReadItems(num, depth - 1, [], text) == Some((items, rest))
    requires |SkipSpace(text)| > 0 && SkipSpace(text)[0] != ']'
    ensures ReadArray(num, depth, text) == Some((Array(items), rest))
  {
    ItemsSkip(num, depth - 1, [], text);
  }

  lemma {:induction false} ArrayReads(num: NumberReader, depth: nat, items: seq<Item>, rest: string)
    requires depth > 0 && |items| > 0 && forall i :: 0 <= i < |items| ==> ValidItem(num, depth - 1, items[i])
    ensures ReadArray(num, depth, ItemsText(items) + ("]" + rest)) == Some((Array(ItemValues(num, depth - 1, items)), rest))
    decreases items, 2
  {
    ItemsHead(num, depth - 1, items, "]" + rest);
    ItemsRead(num, depth - 1, [], items, rest);
    assert [] + ItemValues(num, depth - 1, items) == ItemValues(num, depth - 1, items);
    ArrayUnfold(num, depth, ItemsText(items) + ("]" + rest), ItemValues(num, depth - 1, items), rest);
  }

  lemma {:induction false} BracketsRead(num: NumberReader, depth: nat, blank: string, items: seq<Item>, rest: string)
    requires Valid(num, depth, Brackets(blank, items))
    ensures ReadValue(num, depth, TextOf(Brackets(blank, items)) + rest) == Some((ValueOf(num, depth, Brackets(blank, items)), rest))
    decreases items, 3
  {
    var inner := if |items| == 0 then blank else ItemsText(items);
    BracketUnfold(num, depth, inner + ("]" + rest));
    BracketText("[", inner, "]", rest);
    if |items| == 0 { EmptyBrackets(num, depth, blank, rest); } else { ArrayReads(num, depth, items, rest); }
  }

  lemma MemberUnfold(num: NumberReader, depth: nat, text: string, t: string, key: string, colon: string,
      tail: string, v: Value, rest: string)
    requires SkipSpace(text) == "\"" + t && ReadString(t) == Some((key, colon)) && SkipSpace(colon) == ":" + tail
    requires ReadValue(num, depth, tail) == Some((v, rest))
    ensures ReadMember(num, depth, text) == Some(((key, v), rest))
  {
    assert ("\"" + t)[1..] == t && (":" + tail)[1..] == tail;
  }

  lemma MemberParts(before: string, key: string, colon: string, item: string, rest: string)
    ensures (before + "\"" + key + "\"" + colon + ":" + item) + rest == before + ("\"" + (key + ("\"" + (colon + (":" + (item + rest))))))
  {
  }

  lemma {:induction false} MemberReads(num: NumberReader, depth: nat, m: Member, rest: string)
    requires ValidMember(num, depth, m) && Delimits(rest)
    ensures ReadMember(num, depth, MemberText(m) + rest) == Some((MemberEntry(num, depth, m), m.item.after + rest))
    ensures SkipSpace(m.item.after + rest) == rest
    decreases m, 0
  {
    var tail := ItemText(m.item) + rest;
    var colon := m.colon + (":" + tail);
    var t := CharsText(m.key) + ("\"" + colon);
    ItemReads(num, depth, m.item, rest);
    WhiteIsSkipped(m.colon, ":" + tail);
    SkipNone(":" + tail);
    CharsRead(m.key, colon);
    WhiteIsSkipped(m.before, "\"" + t);
    SkipNone("\"" + t);
    MemberParts(m.before, CharsText(m.key), m.colon, ItemText(m.item), rest);
    MemberUnfold(num, depth, MemberText(m) + rest, t, CharsValue(m.key), colon, tail, ValueOfItem(num, depth, m.item), m.item.after + rest);
  }

  lemma MembersLast(num: NumberReader, depth: nat, read: seq<Entry>, text: string, e: Entry, after: string, rest: string)
    requires ReadMember(num, depth, text) == Some((e, after)) && SkipSpace(after) == "}" + rest
    ensures ReadMembers(num, depth, read, text) == Some((MapInsert(read, e.0, e.1), rest))
  {
    assert ("}" + rest)[1..] == rest;
  }

  lemma MembersMore(num: NumberReader, depth: nat, read: seq<Entry>, text: string, e: Entry, after: string, more: string)
    requires ReadMember(num, depth, text) == Some((e, after)) && SkipSpace(after) == "," + more
    ensures ReadMembers(num, depth, read, text) == ReadMembers(num, depth, MapInsert(read, e.0, e.1), more)
  {
    assert ("," + more)[1..] == more;
  }

  lemma {:induction false} FirstMemberReads(num: NumberReader, depth: nat, read: seq<Entry>, m: Member, more: string)
    requires ValidMember(num, depth, m)
    ensures var e := MemberEntry(num, depth, m);
      ReadMembers(num, depth, read, MemberText(m) + ("," + more)) == ReadMembers(num, depth, MapInsert(read, e.0, e.1), more)
    decreases m, 1
  {
    MemberReads(num, depth, m, "," + more);
    MembersMore(num, depth, read, MemberText(m) + ("," + more), MemberEntry(num, depth, m), m.item.after + ("," + more), more);
  }

  lemma {:induction false} LastMemberReads(num: NumberReader, depth: nat, read: seq<Entry>, m: Member, rest: string)
    requires ValidMember(num, depth, m)
    ensures var e := MemberEntry(num, depth, m);
      ReadMembers(num, depth, read, MemberText(m) + ("}" + rest)) == Some((MapInsert(read, e.0, e.1), rest))
    decreases m, 1
  {
    MemberReads(num, depth, m, "}" + rest);
    MembersLast(num, depth, read, MemberText(m) + ("}" + rest), MemberEntry(num, depth, m), m.item.after + ("}" + rest), rest);
  }

  lemma MembersSplit(members: seq<Member>, rest: string)
    requires |members| > 0
    ensures |members| == 1 ==> MembersText(members) + rest == MemberText(members[0]) + rest
    ensures |members| > 1 ==> MembersText(members) + rest == MemberText(members[0]) + ("," + (MembersText(members[1..]) + rest))
  {
    if |members| > 1 { CommaText(MemberText(members[0]), MembersText(members[1..]), rest); }
  }

  lemma EntriesUnfold(num: NumberReader, depth: nat, read: seq<Entry>, members: seq<Member>)
    requires |members| > 0 && forall i :: 0 <= i < |members| ==> ValidMember(num, depth, members[i])
    ensures var e := MemberEntry(num, depth, members[0]);
      InsertAll(read, MemberEntries(num, depth, members)) == InsertAll(MapInsert(read, e.0, e.1), MemberEntries(num, depth, members[1..]))
  {
    assert MemberEntries(num, depth, members)[1..] == MemberEntries(num, depth, members[1..]);
  }

  lemma {:induction false} MembersRead(num: NumberReader, depth: nat, read: seq<Entry>, members: seq<Member>, rest: string)
    requires |members| > 0 && forall i :: 0 <= i < |members| ==> ValidMember(num, depth, members[i])
    ensures ReadMembers(num, depth, read, MembersText(members) + ("}" + rest))
         == Some((InsertAll(read, MemberEntries(num, depth, members)), rest))
    decreases members, 1
  {
    MembersSplit(members, "}" + rest);
    EntriesUnfold(num, depth, read, members);
    if |members| == 1 {
      LastMemberReads(num, depth, read, members[0], rest);
    } else {
      var e := MemberEntry(num, depth, members[0]);
      FirstMemberReads(num, depth, read, members[0], MembersText(members[1..]) + ("}" + rest));
      MembersRead(num, depth, MapInsert(read, e.0, e.1), members[1..], rest);
    }
  }

  lemma MembersHead(members: seq<Member>, rest: string)
    requires |members| > 0 && White(members[0].before)
    ensures var s := SkipSpace(MembersText(members) + rest); |s| > 0 && s[0] == '"'
  {
    var m := members[0];
    var more := if |members| == 1 then rest else "," + (MembersText(members[1..]) + rest);
    MembersSplit(members, rest);
    MemberParts(m.before, CharsText(m.key), m.colon, ItemText(m.item), more);
    HeadOf(m.before, "\"", CharsText(m.key) + ("\"" + (m.colon + (":" + (ItemText(m.item) + more)))));
  }

  lemma ObjectUnfold(num: NumberReader, depth: nat, text: string, entries: seq<Entry>, rest: string)
    requires depth > 0 && ReadMembers(num, depth - 1, [], text) == Some((entries, rest))
    requires |SkipSpace(text)| > 0 && SkipSpace(text)[0] == '"'
    ensures ReadObject(num, depth, text) == Some((Object(entries), rest))
  {
    MembersSkip(num, depth - 1, [], text);
  }

  lemma FirstIsWhite(num: NumberReader, depth: nat, m: Member)
    requires ValidMember(num, depth, m)
    ensures White(m.before)
  {
  }

  lemma {:induction false} ObjectReads(num: NumberReader, depth: nat, members: seq<Member>, rest: string)
    requires depth > 0 && |members| > 0 && forall i :: 0 <= i < |members| ==> ValidMember(num, depth - 1, members[i])
    ensures ReadObject(num, depth, MembersText(members) + ("}" + rest))
         == Some((Object(InsertAll([], MemberEntries(num, depth - 1, members))), rest))
    decreases members, 2
  {
    FirstIsWhite(num, depth - 1, members[0]);
    MembersHead(members, "}" + rest);
    MembersRead(num, depth - 1, [], members, rest);
    ObjectUnfold(num, depth, MembersText(members) + ("}" + rest), InsertAll([], MemberEntries(num, depth - 1, members)), rest);
  }

  lemma {:induction false} BracesRead(num: NumberReader, depth: nat, blank: string, members: seq<Member>, rest: string)
    requires Valid(num, depth, Braces(blank, members))
    ensures ReadValue(num, depth, TextOf(Braces(blank, members)) + rest) == Some((ValueOf(num, depth, Braces(blank, members)), rest))
    decreases members, 3
  {
    var inner := if |members| == 0 then blank else MembersText(members);
    BracketUnfold(num, depth, inner + ("}" + rest));
    BracketText("{", inner, "}", rest);
    if |members| == 0 { EmptyBrackets(num, depth, blank, rest); } else { ObjectReads(num, depth, members, rest); }
  }

  // ---- And whatever is read is the text of a tree ----

  lemma LiteralIsWord(num: NumberReader, depth: nat, word: string, text: string)
    requires word == "null" || word == "true" || word == "false"
    requires word <= text
    ensures text == TextOf(Word(word)) + text[|word|..]
    ensures Valid(num, depth, Word(word)) && ValueOf(num, depth, Word(word)) == if word == "null" then Null else Bool(word == "true")
  {
  }

  lemma QuotedText(chars: seq<Spelling>, rest: string)
    ensures TextOf(Quoted(chars)) + rest == "\"" + (CharsText(chars) + ("\"" + rest))
  {
    BracketText("\"", CharsText(chars), "\"", rest);
  }

  lemma ReadStringIsQuoted(num: NumberReader, depth: nat, text: string) returns (s: Syntax)
    requires |text| > 0 && text[0] == '"' && ReadString(text[1..]).Some?
    ensures Valid(num, depth, s) && ValueOf(num, depth, s) == String(ReadString(text[1..]).value.0)
    ensures text == TextOf(s) + ReadString(text[1..]).value.1
  {
    var chars := ReadIsChars(text[1..]);
    s := Quoted(chars);
    QuotedText(chars, ReadString(text[1..]).value.1);
    SplitAt(text, 1);
    assert text[..1] == "\"";
  }

  lemma ReadNumberIsNumeral(num: NumberReader, depth: nat, text: string) returns (s: Syntax)
    requires ReadNumber(num, text).Some?
    ensures Valid(num, depth, s) && ValueOf(num, depth, s) == ReadNumber(num, text).value.0
    ensures text == TextOf(s) + ReadNumber(num, text).value.1
  {
    var n := TokenRun(text);
    s := Numeral(text[..n]);
    SplitAt(text, n);
  }

  lemma ReadScalarIsText(num: NumberReader, depth: nat, text: string) returns (s: Syntax)
    requires ReadValue(num, depth, text).Some? && |text| > 0 && !IsSpace(text[0]) && text[0] != '[' && text[0] != '{'
    ensures Valid(num, depth, s) && ValueOf(num, depth, s) == ReadValue(num, depth, text).value.0
    ensures text == TextOf(s) + ReadValue(num, depth, text).value.1
  {
    SkipNone(text);
    if text[0] == '"' {
      s := ReadStringIsQuoted(num, depth, text);
    } else if text[0] == 'n' {
      s := Word("null");
      LiteralIsWord(num, depth, "null", text);
    } else if text[0] == 't' {
      s := Word("true");
      LiteralIsWord(num, depth, "true", text);
    } else if text[0] == 'f' {
      s := Word("false");
      LiteralIsWord(num, depth, "false", text);
    } else {
      s := ReadNumberIsNumeral(num, depth, text);
    }
  }

  lemma BracketCases(num: NumberReader, depth: nat, t: string)
    requires |t| > 0 && (t[0] == '[' || t[0] == '{')
    ensures t == (if t[0] == '[' then "[" else "{") + t[1..]
    ensures ReadValue(num, depth, t) == if t[0] == '[' then ReadArray(num, depth, t[1..]) else ReadObject(num, depth, t[1..])
  {
    SplitAt(t, 1);
    assert t[..1] == [t[0]];
    BracketUnfold(num, depth, t[1..]);
  }

  lemma {:induction false} ReadIsText(num: NumberReader, depth: nat, text: string) returns (white: string, s: Syntax)
    requires ReadValue(num, depth, text).Some?
    ensures White(white) && Valid(num, depth, s) && ValueOf(num, depth, s) == ReadValue(num, depth, text).value.0
    ensures text == white + (TextOf(s) + ReadValue(num, depth, text).value.1)
    decreases |text|, 5
  {
    white := SkippedIsWhite(text);
    var t := SkipSpace(text);
    SkipsWhite(num, depth, white, t);
    if t[0] == '[' {
      BracketCases(num, depth, t);
      s := ReadArrayIsText(num, depth, t[1..]);
    } else if t[0] == '{' {
      BracketCases(num, depth, t);
      s := ReadObjectIsText(num, depth, t[1..]);
    } else {
      s := ReadScalarIsText(num, depth, t);
    }
  }

  lemma EmptyIsText(num: NumberReader, depth: nat, text: string, rest: string) returns (blank: string)
    requires depth > 0
    ensures White(blank) && text == blank + SkipSpace(text)
    ensures Valid(num, depth, Brackets(blank, [])) && ValueOf(num, depth, Brackets(blank, [])) == Array([])
    ensures Valid(num, depth, Braces(blank, [])) && ValueOf(num, depth, Braces(blank, [])) == Object([])
    ensures SkipSpace(text) == "]" + rest ==> "[" + text == TextOf(Brackets(blank, [])) + rest
    ensures SkipSpace(text) == "}" + rest ==> "{" + text == TextOf(Braces(blank, [])) + rest
  {
    blank := SkippedIsWhite(text);
    BracketText("[", blank, "]", rest);
    BracketText("{", blank, "}", rest);
  }

  lemma ReadArrayCases(num: NumberReader, depth: nat, text: string)
    requires ReadArray(num, depth, text).Some?
    ensures depth > 0
    ensures var t, (v, rest) := SkipSpace(text), ReadArray(num, depth, text).value;
      if |t| > 0 && t[0] == ']' then v == Array([]) && t == "]" + rest
      else ReadItems(num, depth - 1, [], text).Some? && (v, rest) == (Array(ReadItems(num, depth - 1, [], text).value.0), ReadItems(num, depth - 1, [], text).value.1)
  {
    var t := SkipSpace(text);
    if |t| > 0 && t[0] == ']' { SplitAt(t, 1); assert t[..1] == "]"; } else { ItemsSkip(num, depth - 1, [], text); }
  }

  lemma ArrayText(num: NumberReader, depth: nat, items: seq<Item>, rest: string)
    requires depth > 0 && |items| > 0 && forall i :: 0 <= i < |items| ==> ValidItem(num, depth - 1, items[i])
    ensures var s := Brackets("", items); Valid(num, depth, s) && ValueOf(num, depth, s) == Array([] + ItemValues(num, depth - 1, items))
    ensures TextOf(Brackets("", items)) + rest == "[" + (ItemsText(items) + ("]" + rest))
  {
    BracketText("[", ItemsText(items), "]", rest);
    assert [] + ItemValues(num, depth - 1, items) == ItemValues(num, depth - 1, items);
  }

  lemma {:induction false} ReadArrayIsText(num: NumberReader, depth: nat, text: string) returns (s: Syntax)
    requires ReadArray(num, depth, text).Some?
    ensures Valid(num, depth, s) && ValueOf(num, depth, s) == ReadArray(num, depth, text).value.0
    ensures "[" + text == TextOf(s) + ReadArray(num, depth, text).value.1
    decreases |text|, 8
  {
    ReadArrayCases(num, depth, text);
    var t, rest := SkipSpace(text), ReadArray(num, depth, text).value.1;
    if |t| > 0 && t[0] == ']' {
      var blank := EmptyIsText(num, depth, text, rest);
      s := Brackets(blank, []);
    } else {
      var items := ReadItemsIsText(num, depth - 1, [], text);
      s := Brackets("", items);
      ArrayText(num, depth, items, rest);
    }
  }

  /** One element, with the white space around it. */
  lemma {:induction false} ReadItemIsText(num: NumberReader, depth: nat, text: string) returns (i: Item)
    requires ReadValue(num, depth, text).Some?
    ensures ValidItem(num, depth, i) && ValueOfItem(num, depth, i) == ReadValue(num, depth, text).value.0
    ensures text == ItemText(i) + SkipSpace(ReadValue(num, depth, text).value.1)
    decreases |text|, 6
  {
    var before, s := ReadIsText(num, depth, text);
    var after := ReadValue(num, depth, text).value.1;
    var white := SkippedIsWhite(after);
    i := Item(before, s, white);
    ItemParts(i, SkipSpace(after));
  }

  lemma ConsItem(num: NumberReader, depth: nat, read: seq<Value>, i: Item, others: seq<Item>, rest: string)
    requires ValidItem(num, depth, i) && forall k :: 0 <= k < |others| ==> ValidItem(num, depth, others[k])
    ensures forall k :: 0 <= k < |[i] + others| ==> ValidItem(num, depth, ([i] + others)[k])
    ensures read + [ValueOfItem(num, depth, i)] + ItemValues(num, depth, others) == read + ItemValues(num, depth, [i] + others)
    ensures ItemsText([i] + others) + rest == ItemText(i) + if |others| == 0 then rest else "," + (ItemsText(others) + rest)
  {
    var items := [i] + others;
    assert items[1..] == others && items[0] == i;
    forall k | 0 <= k < |items| ensures ValidItem(num, depth, items[k]) { if k > 0 { assert items[k] == others[k - 1]; } }
    ItemsSplit(items, rest);
  }

  lemma ReadItemsCases(num: NumberReader, depth: nat, read: seq<Value>, text: string)
    requires ReadItems(num, depth, read, text).Some?
    ensures ReadValue(num, depth, text).Some?
    ensures var (v, after) := ReadValue(num, depth, text).value;
      var t, (items, rest) := SkipSpace(after), ReadItems(num, depth, read, text).value;
      && |t| > 0
      && if t[0] == ']' then items == read + [v] && t == "]" + rest
         else t == "," + t[1..] && ReadItems(num, depth, read + [v], t[1..]) == Some((items, rest))
  {
    var t := SkipSpace(ReadValue(num, depth, text).value.1);
    SplitAt(t, 1);
    assert t[..1] == [t[0]];
  }

  lemma {:induction false} ReadItemsIsText(num: NumberReader, depth: nat, read: seq<Value>, text: string) returns (items: seq<Item>)
    requires ReadItems(num, depth, read, text).Some?
    ensures |items| > 0 && forall i :: 0 <= i < |items| ==> ValidItem(num, depth, items[i])
    ensures ReadItems(num, depth, read, text).value.0 == read + ItemValues(num, depth, items)
    ensures text == ItemsText(items) + ("]" + ReadItems(num, depth, read, text).value.1)
    decreases |text|, 7
  {
    ReadItemsCases(num, depth, read, text);
    var (v, after) := ReadValue(num, depth, text).value;
    var i := ReadItemIsText(num, depth, text);
    var t, rest := SkipSpace(after), ReadItems(num, depth, read, text).value.1;
    var others: seq<Item> := [];
    if t[0] != ']' { others := ReadItemsIsText(num, depth, read + [v], t[1..]); }
    items := [i] + others;
    ConsItem(num, depth, read, i, others, "]" + rest);
    assert read + [v] + [] == read + [v];
  }

  lemma ReadObjectCases(num: NumberReader, depth: nat, text: string)
    requires ReadObject(num, depth, text).Some?
    ensures depth > 0
    ensures var t, (v, rest) := SkipSpace(text), ReadObject(num, depth, text).value;
      if |t| > 0 && t[0] == '}' then v == Object([]) && t == "}" + rest
      else ReadMembers(num, depth - 1, [], text).Some? && (v, rest) == (Object(ReadMembers(num, depth - 1, [], text).value.0), ReadMembers(num, depth - 1, [], text).value.1)
  {
    var t := SkipSpace(text);
    if |t| > 0 && t[0] == '}' { SplitAt(t, 1); assert t[..1] == "}"; } else { MembersSkip(num, depth - 1, [], text); }
  }

  lemma ObjectText(num: NumberReader, depth: nat, members: seq<Member>, rest: string)
    requires depth > 0 && |members| > 0 && forall i :: 0 <= i < |members| ==> ValidMember(num, depth - 1, members[i])
    ensures var s := Braces("", members); Valid(num, depth, s) && ValueOf(num, depth, s) == Object(InsertAll([], MemberEntries(num, depth - 1, members)))
    ensures TextOf(Braces("", members)) + rest == "{" + (MembersText(members) + ("}" + rest))
  {
    BracketText("{", MembersText(members), "}", rest);
  }

  lemma {:induction false} ReadObjectIsText(num: NumberReader, depth: nat, text: string) returns (s: Syntax)
    requires ReadObject(num, depth, text).Some?
    ensures Valid(num, depth, s) && ValueOf(num, depth, s) == ReadObject(num, depth, text).value.0
    ensures "{" + text == TextOf(s) + ReadObject(num, depth, text).value.1
    decreases |text|, 8
  {
    ReadObjectCases(num, depth, text);
    var t, rest := SkipSpace(text), ReadObject(num, depth, text).value.1;
    if |t| > 0 && t[0] == '}' {
      var blank := EmptyIsText(num, depth, text, rest);
      s := Braces(blank, []);
    } else {
      var members := ReadMembersIsText(num, depth - 1, [], text);
      s := Braces("", members);
      ObjectText(num, depth, members, rest);
    }
  }

  lemma ReadMemberCases(num: NumberReader, depth: nat, text: string) returns (key: string, colon: string, value: string)
    requires ReadMember(num, depth, text).Some?
    ensures SkipSpace(text) == "\"" + key && ReadString(key).Some? && ReadString(key).value.1 == colon
    ensures SkipSpace(colon) == ":" + value && ReadValue(num, depth, value).Some?
    ensures ReadMember(num, depth, text)
         == Some(((ReadString(key).value.0, ReadValue(num, depth, value).value.0), ReadValue(num, depth, value).value.1))
    ensures |value| < |text|
  {
    var s := SkipSpace(text);
    key := s[1..];
    colon := ReadString(key).value.1;
    var t := SkipSpace(colon);
    value := t[1..];
    SplitAt(s, 1);
    SplitAt(t, 1);
    assert s[..1] == "\"" && t[..1] == ":";
  }

  /** One member, with the white space around it. */
  lemma {:induction false} ReadMemberIsText(num: NumberReader, depth: nat, text: string) returns (m: Member)
    requires ReadMember(num, depth, text).Some?
    ensures ValidMember(num, depth, m) && MemberEntry(num, depth, m) == ReadMember(num, depth, text).value.0
    ensures text == MemberText(m) + SkipSpace(ReadMember(num, depth, text).value.1)
    decreases |text|, 6
  {
    var key, colon, value := ReadMemberCases(num, depth, text);
    var before := SkippedIsWhite(text);
    var chars := ReadIsChars(key);
    var between := SkippedIsWhite(colon);
    var i := ReadItemIsText(num, depth, value);
    m := Member(before, chars, between, i);
    MemberParts(before, CharsText(chars), between, ItemText(i), SkipSpace(ReadMember(num, depth, text).value.1));
  }

  lemma ConsMember(num: NumberReader, depth: nat, read: seq<Entry>, m: Member, others: seq<Member>, rest: string)
    requires ValidMember(num, depth, m) && forall k :: 0 <= k < |others| ==> ValidMember(num, depth, others[k])
    ensures forall k :: 0 <= k < |[m] + others| ==> ValidMember(num, depth, ([m] + others)[k])
    ensures var e := MemberEntry(num, depth, m);
      InsertAll(read, MemberEntries(num, depth, [m] + others)) == InsertAll(MapInsert(read, e.0, e.1), MemberEntries(num, depth, others))
    ensures MembersText([m] + others) + rest == MemberText(m) + if |others| == 0 then rest else "," + (MembersText(others) + rest)
  {
    var members := [m] + others;
    assert members[1..] == others && members[0] == m;
    forall k | 0 <= k < |members| ensures ValidMember(num, depth, members[k]) { if k > 0 { assert members[k] == others[k - 1]; } }
    EntriesUnfold(num, depth, read, members);
    MembersSplit(members, rest);
  }

  lemma ReadMembersCases(num: NumberReader, depth: nat, read: seq<Entry>, text: string)
    requires ReadMembers(num, depth, read, text).Some?
    ensures ReadMember(num, depth, text).Some?
    ensures var (e, after) := ReadMember(num, depth, text).value;
      var t, (entries, rest) := SkipSpace(after), ReadMembers(num, depth, read, text).value;
      && |t| > 0
      && if t[0] == '}' then entries == MapInsert(read, e.0, e.1) && t == "}" + rest
         else t == "," + t[1..] && ReadMembers(num, depth, MapInsert(read, e.0, e.1), t[1..]) == Some((entries, rest))
  {
    var t := SkipSpace(ReadMember(num, depth, text).value.1);
    SplitAt(t, 1);
    assert t[..1] == [t[0]];
  }

  lemma {:induction false} ReadMembersIsText(num: NumberReader, depth: nat, read: seq<Entry>, text: string) returns (members: seq<Member>)
    requires ReadMembers(num, depth, read, text).Some?
    ensures |members| > 0 && forall i :: 0 <= i < |members| ==> ValidMember(num, depth, members[i])
    ensures ReadMembers(num, depth, read, text).value.0 == InsertAll(read, MemberEntries(num, depth, members))
    ensures text == MembersText(members) + ("}" + ReadMembers(num, depth, read, text).value.1)
    decreases |text|, 7
  {
    ReadMembersCases(num, depth, read, text);
    var (e, after) := ReadMember(num, depth, text).value;
    var m := ReadMemberIsText(num, depth, text);
    var t, rest := SkipSpace(after), ReadMembers(num, depth, read, text).value.1;
    var others: seq<Member> := [];
    if t[0] != '}' { others := ReadMembersIsText(num, depth, MapInsert(read, e.0, e.1), t[1..]); }
    members := [m] + others;
    ConsMember(num, depth, read, m, others, "}" + rest);
  }

  // ---- The reader is exactly the grammar ----

  ghost predicate IsTextOf(num: NumberReader, text: string, v: Value, i: Item) {
    ValidItem(num, MAX_DEPTH, i) && ItemText(i) == text && ValueOfItem(num, MAX_DEPTH, i) == v
  }

  lemma WhiteEnds(white: string)
    requires White(white)
    ensures EndsNumber(white) && SkipSpace(white) == ""
  {
    WhiteIsSkipped(white, "");
    assert white + "" == white;
  }

  lemma FromStrUnfold(num: NumberReader, text: string, v: Value, rest: string)
    requires ReadValue(num, MAX_DEPTH, text) == Some((v, rest)) && SkipSpace(rest) == ""
    ensures FromStr(num, text) == Some(v)
  {
  }

  lemma ItemIsRead(num: NumberReader, i: Item)
    requires ValidItem(num, MAX_DEPTH, i)
    ensures FromStr(num, ItemText(i)) == Some(ValueOfItem(num, MAX_DEPTH, i))
  {
    WhiteEnds(i.after);
    TextReads(num, MAX_DEPTH, i.value, i.after);
    SkipsWhite(num, MAX_DEPTH, i.before, TextOf(i.value) + i.after);
    Assoc(i.before, TextOf(i.value), i.after);
    FromStrUnfold(num, ItemText(i), ValueOfItem(num, MAX_DEPTH, i), i.after);
  }

  /** `from_str` accepts a text, as a value, exactly if it is the text of a valid tree of that value with white space around it. */
  lemma FromStrIff(num: NumberReader, text: string, v: Value)
    ensures FromStr(num, text) == Some(v) <==> exists i :: IsTextOf(num, text, v, i)
  {
    if FromStr(num, text) == Some(v) {
      var i := ReadItemIsText(num, MAX_DEPTH, text);
      assert ItemText(i) + "" == ItemText(i);
      assert IsTextOf(num, text, v, i);
    }
    forall i | IsTextOf(num, text, v, i) ensures FromStr(num, text) == Some(v) { ItemIsRead(num, i); }
  }

  // ---- What the printer prints ----

  /** The spelling the printer chooses: a short escape if there is one, else the code in lower case, and only where it must. */
  ghost function Chosen(c: char): Spelling {
    var n := c as int;
    if c == '"' || c == '\\' then Short(c)
    else if n == 0x08 then Short('b') else if n == 0x09 then Short('t') else if n == 0x0A then Short('n')
    else if n == 0x0C then Short('f') else if n == 0x0D then Short('r')
    else if n < 0x20 then Unit("00" + [HexDigit(n / 16), HexDigit(n % 16)], n)
    else Plain(c)
  }

  lemma HexDigitIs(n: nat)
    requires n < 16
    ensures IsHexDigit(HexDigit(n), n)
  {
    HexValueIff(HexDigit(n), n);
  }

  lemma CodeIsHex(n: nat)
    requires n < 0x20
    ensures IsHex("00" + [HexDigit(n / 16), HexDigit(n % 16)], n)
  {
    HexDigitIs(0);
    HexDigitIs(n / 16);
    HexDigitIs(n % 16);
    DigitsOf(0, 0, n / 16, n % 16);
  }

  lemma ChosenIsSpelling(c: char)
    ensures Spelled(Chosen(c)) == Some(c)
  {
    if Chosen(c).Unit? { CodeIsHex(c as int); }
  }

  lemma ChosenIsEscape(c: char)
    ensures SpellingText(Chosen(c)) == EscapeChar(c)
  {
    if Chosen(c).Unit? {
      var n := c as int;
      assert "\\u" + ("00" + [HexDigit(n / 16), HexDigit(n % 16)]) == "\\u00" + [HexDigit(n / 16), HexDigit(n % 16)];
    }
  }

  lemma ChosenIsPrinted(c: char)
    ensures Spelled(Chosen(c)) == Some(c) && SpellingText(Chosen(c)) == EscapeChar(c)
  {
    ChosenIsSpelling(c);
    ChosenIsEscape(c);
  }

  /** The printed length: one, two with a short escape, and six with a code, which is in lower case. */
  lemma PrintedLength(c: char)
    ensures |EscapeChar(c)| == 1 ==> c as int >= 0x20 && c != '"' && c != '\\'
    ensures |EscapeChar(c)| == 1 || |EscapeChar(c)| == 2 || |EscapeChar(c)| == 6
    ensures |EscapeChar(c)| == 6 ==> c as int < 0x20 && forall k :: 0 <= k < 6 ==> !('A' <= EscapeChar(c)[k] <= 'Z')
    ensures |EscapeChar(c)| > 1 ==> c as int < 0x20 || c == '"' || c == '\\'
  {
  }

  /** No spelling of a character is shorter than the printed one, and codes are printed in lower case. */
  lemma PrintedIsShortest(sp: Spelling)
    requires Spelled(sp).Some?
    ensures |EscapeChar(Spelled(sp).value)| <= |SpellingText(sp)|
    ensures |EscapeChar(Spelled(sp).value)| > 2 ==> forall k :: 0 <= k < 6 ==> !('A' <= EscapeChar(Spelled(sp).value)[k] <= 'Z')
  {
    PrintedLength(Spelled(sp).value);
  }

  ghost function ChosenAll(s: string): (r: seq<Spelling>)
    ensures |r| == |s| && AllSpelled(r) && CharsValue(r) == s
  {
    if |s| == 0 then [] else
    ChosenIsPrinted(s[0]);
    MoreChars(Chosen(s[0]), ChosenAll(s[1..]), "");
    [Chosen(s[0])] + ChosenAll(s[1..])
  }

  lemma {:induction false} ChosenText(s: string)
    ensures CharsText(ChosenAll(s)) == Escape(s)
  {
    if |s| > 0 {
      ChosenIsPrinted(s[0]);
      ChosenText(s[1..]);
      assert ChosenAll(s)[1..] == ChosenAll(s[1..]);
    }
  }

  /** String escapes are self-delimiting: the reader stops at the quotation mark the printer wrote. */
  lemma QuoteInverse(s: string, rest: string)
    ensures ReadString(Escape(s) + "\"" + rest) == Some((s, rest))
  {
    ChosenText(s);
    CharsRead(ChosenAll(s), rest);
    Assoc(Escape(s), "\"", rest);
  }

  /** The tree of what is printed: no white space anywhere. */
  ghost function Compact(v: Value): Syntax
    decreases v, 0
  {
    match v
    case Null => Word("null")
    case Bool(b) => Word(if b then "true" else "false")
    case Number(t) => Numeral(t)
    case String(s) => Quoted(ChosenAll(s))
    case Array(items) => Brackets("", CompactItems(items))
    case Object(entries) => Braces("", CompactMembers(entries))
  }

  ghost function CompactItems(items: seq<Value>): (r: seq<Item>)
    ensures |r| == |items|
    ensures forall i :: 0 <= i < |items| ==> r[i] == Item("", Compact(items[i]), "")
    decreases items, 1
  {
    if |items| == 0 then [] else [Item("", Compact(items[0]), "")] + CompactItems(items[1..])
  }

  ghost function CompactMember(e: Entry): Member
    decreases e, 0
  {
    Member("", ChosenAll(e.0), "", Item("", Compact(e.1), ""))
  }

  ghost function CompactMembers(entries: seq<Entry>): (r: seq<Member>)
    ensures |r| == |entries|
    ensures forall i :: 0 <= i < |entries| ==> r[i] == CompactMember(entries[i])
    decreases entries, 1
  {
    if |entries| == 0 then [] else [CompactMember(entries[0])] + CompactMembers(entries[1..])
  }

  lemma {:induction false} CompactText(v: Value)
    ensures TextOf(Compact(v)) == Emit(v)
    decreases v, 0
  {
    match v
    case String(s) => ChosenText(s);
    case Array(items) => CompactItemsText(items);
    case Object(entries) => CompactMembersText(entries);
    case _ =>
  }

  lemma {:induction false} CompactItemsText(items: seq<Value>)
    ensures ItemsText(CompactItems(items)) == EmitItems(items)
    decreases items, 1
  {
    if |items| > 0 {
      CompactText(items[0]);
      CompactItemsText(items[1..]);
      assert CompactItems(items)[1..] == CompactItems(items[1..]);
      NoWhite(TextOf(Compact(items[0])));
    }
  }

  lemma NoWhite(text: string)
    ensures "" + text + "" == text
  {
  }

  lemma {:induction false} CompactMemberText(e: Entry)
    ensures MemberText(CompactMember(e)) == EmitMember(e)
    decreases e, 0
  {
    ChosenText(e.0);
    CompactText(e.1);
    NoWhite(Emit(e.1));
    MemberTextOf(CharsText(ChosenAll(e.0)), Emit(e.1));
  }

  lemma MemberTextOf(key: string, value: string)
    ensures "" + "\"" + key + "\"" + "" + ":" + value == ("\"" + key + "\"") + ":" + value
  {
  }

  lemma {:induction false} CompactMembersText(entries: seq<Entry>)
    ensures MembersText(CompactMembers(entries)) == EmitMembers(entries)
    decreases entries, 1
  {
    if |entries| > 0 {
      CompactMemberText(entries[0]);
      CompactMembersText(entries[1..]);
      assert CompactMembers(entries)[1..] == CompactMembers(entries[1..]);
    }
  }

  lemma {:induction false} CompactIsValid(num: NumberReader, depth: nat, v: Value)
    requires Readable(num, v) && Fits(v, depth)
    ensures Valid(num, depth, Compact(v)) && ValueOf(num, depth, Compact(v)) == Renum(num, v)
    decreases v, 0
  {
    match v
    case Array(items) => CompactItemsValid(num, depth - 1, items);
    case Object(entries) =>
      CompactMembersValid(num, depth - 1, entries);
      InsertAllRenum(num, entries);
    case _ =>
  }

  lemma {:induction false} CompactItemsValid(num: NumberReader, depth: nat, items: seq<Value>)
    requires forall i :: 0 <= i < |items| ==> Readable(num, items[i]) && Fits(items[i], depth)
    ensures forall i :: 0 <= i < |items| ==> ValidItem(num, depth, CompactItems(items)[i])
    ensures ItemValues(num, depth, CompactItems(items)) == RenumItems(num, items)
    decreases items, 1
  {
    if |items| > 0 {
      CompactIsValid(num, depth, items[0]);
      CompactItemsValid(num, depth, items[1..]);
      ConsItem(num, depth, [], Item("", Compact(items[0]), ""), CompactItems(items[1..]), "");
      assert CompactItems(items)[1..] == CompactItems(items[1..]);
    }
  }

  lemma {:induction false} CompactMemberValid(num: NumberReader, depth: nat, e: Entry)
    requires Readable(num, e.1) && Fits(e.1, depth)
    ensures ValidMember(num, depth, CompactMember(e)) && MemberEntry(num, depth, CompactMember(e)) == RenumEntry(num, e)
    decreases e, 0
  {
    CompactIsValid(num, depth, e.1);
  }

  lemma {:induction false} CompactMembersValid(num: NumberReader, depth: nat, entries: seq<Entry>)
    requires forall i :: 0 <= i < |entries| ==> Readable(num, entries[i].1) && Fits(entries[i].1, depth)
    ensures forall i :: 0 <= i < |entries| ==> ValidMember(num, depth, CompactMembers(entries)[i])
    ensures MemberEntries(num, depth, CompactMembers(entries)) == RenumEntries(num, entries)
    decreases entries, 1
  {
    if |entries| > 0 {
      CompactMemberValid(num, depth, entries[0]);
      CompactMembersValid(num, depth, entries[1..]);
      ConsMember(num, depth, [], CompactMember(entries[0]), CompactMembers(entries[1..]), "");
      assert CompactMembers(entries)[1..] == CompactMembers(entries[1..]);
    }
  }

  /** Reading inverts printing up to the reader's own effect on numbers, whatever text follows. */
  lemma ReadEmit(num: NumberReader, depth: nat, v: Value, rest: string)
    requires Readable(num, v) && Fits(v, depth)
    requires v.Number? ==> EndsNumber(rest)
    ensures ReadValue(num, depth, Emit(v) + rest) == Some((Renum(num, v), rest))
  {
    CompactText(v);
    CompactIsValid(num, depth, v);
    TextReads(num, depth, Compact(v), rest);
  }

  /** Every value that is read can be printed and read again, and is within the nesting limit. */
  lemma {:induction false} ValueIsReadable(num: NumberReader, depth: nat, s: Syntax)
    requires PrintsReadable(num) && Valid(num, depth, s)
    ensures Readable(num, ValueOf(num, depth, s)) && Fits(ValueOf(num, depth, s), depth)
    decreases s, 0
  {
    match s
    case Numeral(t) => assert ReadsAgain(num, t);
    case Brackets(_, items) => ItemsReadable(num, depth - 1, items);
    case Braces(_, members) => MembersReadable(num, depth - 1, [], members);
    case _ =>
  }

  lemma {:induction false} ItemsReadable(num: NumberReader, depth: nat, items: seq<Item>)
    requires PrintsReadable(num) && forall i :: 0 <= i < |items| ==> ValidItem(num, depth, items[i])
    ensures ReadableItems(num, depth, ItemValues(num, depth, items))
    decreases items, 1
  {
    if |items| > 0 {
      assert ValidItem(num, depth, items[0]);
      ValueIsReadable(num, depth, items[0].value);
      ItemsReadable(num, depth, items[1..]);
    }
  }

  lemma {:induction false} MemberReadable(num: NumberReader, depth: nat, m: Member)
    requires PrintsReadable(num) && ValidMember(num, depth, m)
    ensures var e := MemberEntry(num, depth, m); Readable(num, e.1) && Fits(e.1, depth)
    decreases m, 0
  {
    ValueIsReadable(num, depth, m.item.value);
  }

  lemma {:induction false} MembersReadable(num: NumberReader, depth: nat, read: seq<Entry>, members: seq<Member>)
    requires PrintsReadable(num) && ReadableEntries(num, depth, read)
    requires forall i :: 0 <= i < |members| ==> ValidMember(num, depth, members[i])
    ensures ReadableEntries(num, depth, InsertAll(read, MemberEntries(num, depth, members)))
    decreases members, 1
  {
    if |members| > 0 {
      var e := MemberEntry(num, depth, members[0]);
      MemberReadable(num, depth, members[0]);
      MapInsertReadable(num, depth, read, e.0, e.1);
      MembersReadable(num, depth, MapInsert(read, e.0, e.1), members[1..]);
      EntriesUnfold(num, depth, read, members);
    }
  }

  // ---- The library's two entry points ----

  /** `from_str(to_string(v))` is v with its numbers read once more. */
  lemma FromStrInverse(num: NumberReader, v: Value)
    requires Readable(num, v) && Fits(v, MAX_DEPTH)
    ensures FromStr(num, Emit(v)) == Some(Renum(num, v))
  {
    ReadEmit(num, MAX_DEPTH, v, "");
    assert Emit(v) + "" == Emit(v);
  }

  /** A value that was read prints to text that reads back, as the same value exactly when its numbers are fixed points. */
  lemma FromStrAgain(num: NumberReader, text: string)
    requires PrintsReadable(num) && FromStr(num, text).Some?
    ensures var v := FromStr(num, text).value;
      && Readable(num, v) && Fits(v, MAX_DEPTH)
      && FromStr(num, Emit(v)) == Some(Renum(num, v))
      && (FromStr(num, Emit(v)) == FromStr(num, text) <==> Fixed(num, v))
  {
    var v := FromStr(num, text).value;
    FromStrIff(num, text, v);
    var i :| IsTextOf(num, text, v, i);
    ValueIsReadable(num, MAX_DEPTH, i.value);
    FromStrInverse(num, v);
    RenumFixedIff(num, v);
  }

  // ---- Single literals ----

  lemma {:induction false} DigitRunAll(s: string)
    requires AllDigits(s)
    ensures DigitRun(s) == |s|
  {
    if |s| > 0 { DigitRunAll(s[1..]); }
  }

  /** One digit, a point and digits: a number literal. */
  predicate SmallDecimal(t: string) { |t| > 2 && IsDigit(t[0]) && t[1] == '.' && AllDigits(t[2..]) }

  lemma SmallDecimalIsNumber(t: string)
    requires SmallDecimal(t)
    ensures IsNumber(t)
  {
    forall i | 0 <= i < |t| ensures IsNumberChar(t[i]) {
      if i >= 2 { assert t[2..][i - 2] == t[i]; }
    }
    assert DigitRun(t) == 1;
    assert t[1..][1..] == t[2..];
    DigitRunAll(t[2..]);
    assert t[1..][1 + |t[2..]|..] == "";
  }

  /** A literal whose value, with the library's default rounding, is printed one unit lower each time it is read. */
  ghost predicate Drifting(num: NumberReader, written: string, read: string, again: string) {
    && written == "9.007525113376826" && read == "9.007525113376825" && again == "9.007525113376824"
    && num(written) == Some(read) && num(read) == Some(again)
  }

  lemma DriftingLiterals(num: NumberReader, written: string, read: string, again: string)
    requires Drifting(num, written, read, again)
    ensures SmallDecimal(written) && SmallDecimal(read) && read != again
    ensures num(written) == Some(read) && num(read) == Some(again)
  {
    assert read[16] != again[16];
  }

  lemma FromStrNumber(num: NumberReader, t: string, u: string)
    requires SmallDecimal(t) && num(t) == Some(u)
    ensures FromStr(num, t) == Some(Number(u))
  {
    SmallDecimalIsNumber(t);
    NumeralReads(num, MAX_DEPTH, t, "");
    assert t + "" == t;
  }
}
