/**
  The tokens of JSON texts as RFC 8259 defines them: characters of strings in every spelling, number literals, white space.
  The reader of `Json` takes exactly these for the characters, numbers and blanks they stand for.
 */
module JsonTokens {
  import opened Wrappers
  import opened Text
  import opened Json

  lemma Assoc(a: string, b: string, c: string)
    ensures (a + b) + c == a + (b + c)
  {
  }

  lemma SplitAt(s: string, n: nat)
    requires n <= |s|
    ensures s == s[..n] + s[n..]
  {
  }

  // ---- Strings (section 7) ----

  const LOWER_HEX := "0123456789abcdef"
  const UPPER_HEX := "0123456789ABCDEF"

  ghost predicate IsHexDigit(c: char, d: int) { 0 <= d < 16 && (c == LOWER_HEX[d] || c == UPPER_HEX[d]) }

  /** Four hexadecimal digits, in either case. */
  ghost predicate IsHex(digits: string, n: int) {
    && |digits| == 4 && 0 <= n < 0x10000
    && IsHexDigit(digits[0], n / 0x1000) && IsHexDigit(digits[1], n / 0x100 % 0x10)
    && IsHexDigit(digits[2], n / 0x10 % 0x10) && IsHexDigit(digits[3], n % 0x10)
  }

  /** A character as itself, after a backslash, or by its code: one unit of UTF-16 or two. */
  datatype Spelling =
    | Plain(c: char)
    | Short(e: char)
    | Unit(digits: string, unit: int)
    | Surrogates(digits: string, high: int, others: string, low: int)

  ghost function ShortEscape(e: char): Option<int> {
    if e == '"' then Some(0x22) else if e == '\\' then Some(0x5C) else if e == '/' then Some(0x2F)
    else if e == 'b' then Some(0x08) else if e == 'f' then Some(0x0C) else if e == 'n' then Some(0x0A)
    else if e == 'r' then Some(0x0D) else if e == 't' then Some(0x09) else None
  }

  /** The character that is spelled, if this is a spelling at all. */
  ghost function Spelled(sp: Spelling): (r: Option<char>) {
    match sp
    case Plain(c) => if c as int >= 0x20 && c != '"' && c != '\\' then Some(c) else None
    case Short(e) => if ShortEscape(e).Some? then Some(ShortEscape(e).value as char) else None
    case Unit(digits, n) => if IsHex(digits, n) && !(0xD800 <= n < 0xE000) then Some(n as char) else None
    case Surrogates(digits, h, others, l) =>
      if IsHex(digits, h) && IsHex(others, l) && 0xD800 <= h < 0xDC00 <= l < 0xE000
      then Some((0x10000 + (h - 0xD800) * 0x400 + (l - 0xDC00)) as char) else None
  }

  ghost function SpellingText(sp: Spelling): string {
    match sp
    case Plain(c) => [c]
    case Short(e) => ['\\', e]
    case Unit(digits, n) => "\\u" + digits
    case Surrogates(digits, h, others, l) => "\\u" + digits + "\\u" + others
  }

  lemma HexValueIff(c: char, d: int)
    ensures HexValue(c) == Some(d) <==> IsHexDigit(c, d)
  {
    var n := c as int;
    assert forall k :: 0 <= k < 10 ==> LOWER_HEX[k] as int == 48 + k && UPPER_HEX[k] as int == 48 + k;
    assert forall k :: 10 <= k < 16 ==> LOWER_HEX[k] as int == 87 + k && UPPER_HEX[k] as int == 55 + k;
  }

  lemma By16(q: nat, r: nat)
    requires r < 0x10
    ensures (0x10 * q + r) / 0x10 == q && (0x10 * q + r) % 0x10 == r
  {
  }

  lemma By256(q: nat, r: nat)
    requires r < 0x100
    ensures (0x100 * q + r) / 0x100 == q
  {
  }

  lemma By4096(q: nat, r: nat)
    requires r < 0x1000
    ensures (0x1000 * q + r) / 0x1000 == q
  {
  }

  /** A number of four digits and its digits. */
  lemma DigitsOf(a: nat, b: nat, c: nat, d: nat)
    requires a < 16 && b < 16 && c < 16 && d < 16
    ensures var n := 0x1000 * a + 0x100 * b + 0x10 * c + d;
      n < 0x10000 && n / 0x1000 == a && n / 0x100 % 0x10 == b && n / 0x10 % 0x10 == c && n % 0x10 == d
  {
    var n := 0x1000 * a + 0x100 * b + 0x10 * c + d;
    By4096(a, 0x100 * b + 0x10 * c + d);
    By256(0x10 * a + b, 0x10 * c + d);
    By16(0x100 * a + 0x10 * b + c, d);
    assert n == 0x100 * (0x10 * a + b) + (0x10 * c + d);
    assert n == 0x10 * (0x100 * a + 0x10 * b + c) + d;
    By16(a, b);
    By16(0x10 * a + b, c);
  }

  lemma FromDigits(n: nat)
    requires n < 0x10000
    ensures n == 0x1000 * (n / 0x1000) + 0x100 * (n / 0x100 % 0x10) + 0x10 * (n / 0x10 % 0x10) + n % 0x10
  {
    var q, d := n / 0x10, n % 0x10;
    var p, c := q / 0x10, q % 0x10;
    var a, b := p / 0x10, p % 0x10;
    assert n == 0x1000 * a + 0x100 * b + 0x10 * c + d;
    DigitsOf(a, b, c, d);
  }

  lemma HexOf(digits: string, a: nat, b: nat, c: nat, d: nat)
    requires |digits| == 4
    requires HexValue(digits[0]) == Some(a) && HexValue(digits[1]) == Some(b)
    requires HexValue(digits[2]) == Some(c) && HexValue(digits[3]) == Some(d)
    ensures IsHex(digits, 0x1000 * a + 0x100 * b + 0x10 * c + d)
  {
    HexValueIff(digits[0], a);
    HexValueIff(digits[1], b);
    HexValueIff(digits[2], c);
    HexValueIff(digits[3], d);
    DigitsOf(a, b, c, d);
  }

  lemma Hex4Is(s: string)
    ensures Hex4(s).Some? ==> |s| >= 4 && IsHex(s[..4], Hex4(s).value)
  {
    if Hex4(s).Some? {
      assert s[..4][0] == s[0] && s[..4][1] == s[1] && s[..4][2] == s[2] && s[..4][3] == s[3];
      HexOf(s[..4], HexValue(s[0]).value, HexValue(s[1]).value, HexValue(s[2]).value, HexValue(s[3]).value);
    }
  }

  lemma Hex4Reads(digits: string, n: int, rest: string)
    requires IsHex(digits, n)
    ensures Hex4(digits + rest) == Some(n) && (digits + rest)[4..] == rest
  {
    HexValueIff(digits[0], n / 0x1000);
    HexValueIff(digits[1], n / 0x100 % 0x10);
    HexValueIff(digits[2], n / 0x10 % 0x10);
    HexValueIff(digits[3], n % 0x10);
    FromDigits(n);
  }

  lemma PairText(s: string)
    requires |s| >= 10 && s[4] == '\\' && s[5] == 'u'
    ensures ['\\', 'u'] + s == "\\u" + s[..4] + "\\u" + s[6..][..4] + s[10..]
  {
    assert s == s[..4] + ['\\', 'u'] + s[6..][..4] + s[10..];
  }

  lemma PairIs(s: string, h: nat, l: nat)
    requires |s| >= 10 && s[4] == '\\' && s[5] == 'u' && IsHex(s[..4], h) && IsHex(s[6..][..4], l)
    requires 0xD800 <= h < 0xDC00 <= l < 0xE000
    ensures var sp := Surrogates(s[..4], h, s[6..][..4], l);
      && Spelled(sp) == Some((0x10000 + (h - 0xD800) * 0x400 + (l - 0xDC00)) as char)
      && ['\\', 'u'] + s == SpellingText(sp) + s[10..]
  {
    PairText(s);
  }

  lemma SingleIs(s: string, h: nat)
    requires |s| >= 4 && IsHex(s[..4], h) && !(0xD800 <= h < 0xE000)
    ensures Spelled(Unit(s[..4], h)) == Some(h as char) && ['\\', 'u'] + s == SpellingText(Unit(s[..4], h)) + s[4..]
  {
    assert s == s[..4] + s[4..];
  }

  lemma UnicodeEscapeCases(s: string)
    requires ReadUnicodeEscape(s).Some?
    ensures Hex4(s).Some? && !(0xDC00 <= Hex4(s).value < 0xE000)
    ensures Hex4(s).value < 0xD800 || Hex4(s).value >= 0xE000 ==> ReadUnicodeEscape(s) == Some((Hex4(s).value as char, s[4..]))
    ensures 0xD800 <= Hex4(s).value < 0xDC00 ==>
      && |s| >= 10 && s[4] == '\\' && s[5] == 'u' && Hex4(s[6..]).Some? && 0xDC00 <= Hex4(s[6..]).value < 0xE000
      && ReadUnicodeEscape(s) == Some(((0x10000 + (Hex4(s).value - 0xD800) * 0x400 + (Hex4(s[6..]).value - 0xDC00)) as char, s[10..]))
  {
  }

  lemma UnitIs(s: string) returns (sp: Spelling)
    requires ReadUnicodeEscape(s).Some?
    ensures Spelled(sp) == Some(ReadUnicodeEscape(s).value.0)
    ensures ['\\', 'u'] + s == SpellingText(sp) + ReadUnicodeEscape(s).value.1
  {
    UnicodeEscapeCases(s);
    Hex4Is(s);
    var h := Hex4(s).value;
    if 0xD800 <= h < 0xDC00 {
      Hex4Is(s[6..]);
      PairIs(s, h, Hex4(s[6..]).value);
      sp := Surrogates(s[..4], h, s[6..][..4], Hex4(s[6..]).value);
    } else {
      SingleIs(s, h);
      sp := Unit(s[..4], h);
    }
  }

  lemma SingleReads(digits: string, n: int, rest: string)
    requires IsHex(digits, n) && !(0xD800 <= n < 0xE000)
    ensures ReadUnicodeEscape(digits + rest) == Some((n as char, rest))
  {
    Hex4Reads(digits, n, rest);
  }

  lemma PairSlices(digits: string, others: string, rest: string)
    requires |digits| == 4 && |others| == 4
    ensures var s := digits + ("\\u" + (others + rest));
      |s| >= 10 && s[4] == '\\' && s[5] == 'u' && s[6..] == others + rest && s[10..] == rest
  {
  }

  lemma PairUnfold(s: string, high: nat, low: nat)
    requires |s| >= 10 && s[4] == '\\' && s[5] == 'u' && Hex4(s) == Some(high) && Hex4(s[6..]) == Some(low)
    requires 0xD800 <= high < 0xDC00 <= low < 0xE000
    ensures ReadUnicodeEscape(s) == Some(((0x10000 + (high - 0xD800) * 0x400 + (low - 0xDC00)) as char, s[10..]))
  {
  }

  lemma PairReads(digits: string, high: int, others: string, low: int, rest: string)
    requires IsHex(digits, high) && IsHex(others, low) && 0xD800 <= high < 0xDC00 <= low < 0xE000
    ensures ReadUnicodeEscape(digits + ("\\u" + (others + rest)))
         == Some(((0x10000 + (high - 0xD800) * 0x400 + (low - 0xDC00)) as char, rest))
  {
    PairSlices(digits, others, rest);
    Hex4Reads(digits, high, "\\u" + (others + rest));
    Hex4Reads(others, low, rest);
    PairUnfold(digits + ("\\u" + (others + rest)), high, low);
  }

  lemma EscapeU(t: string)
    ensures ReadEscape(['u'] + t) == ReadUnicodeEscape(t)
  {
    assert (['u'] + t)[1..] == t;
  }

  lemma ShortReads(e: char, rest: string)
    requires ShortEscape(e).Some?
    ensures ReadEscape([e] + rest) == Some((ShortEscape(e).value as char, rest))
  {
    assert ([e] + rest)[1..] == rest;
  }

  lemma AfterBackslash(t: string, rest: string)
    requires |t| > 0 && t[0] == '\\' && ReadEscape(t[1..] + rest).Some?
    ensures var e := ReadEscape(t[1..] + rest).value;
      ReadString(t + rest) == match ReadString(e.1) case None => None case Some(p) => Some(([e.0] + p.0, p.1))
  {
    assert (t + rest)[1..] == t[1..] + rest;
  }

  lemma ShortEscapeReads(e: char, rest: string)
    requires ShortEscape(e).Some?
    ensures ReadEscape(['\\', e][1..] + rest) == Some((ShortEscape(e).value as char, rest))
  {
    ShortReads(e, rest);
    assert ['\\', e][1..] == [e];
  }

  lemma UnitText(digits: string, rest: string)
    ensures ("\\u" + digits)[1..] + rest == ['u'] + (digits + rest)
  {
  }

  lemma UnitReads(digits: string, n: int, rest: string)
    requires IsHex(digits, n) && !(0xD800 <= n < 0xE000)
    ensures ReadEscape(("\\u" + digits)[1..] + rest) == Some((n as char, rest))
  {
    SingleReads(digits, n, rest);
    EscapeU(digits + rest);
    UnitText(digits, rest);
  }

  lemma SurrogatesText(digits: string, others: string, rest: string)
    ensures ("\\u" + digits + "\\u" + others)[1..] + rest == ['u'] + (digits + ("\\u" + (others + rest)))
  {
  }

  lemma SurrogatesRead(digits: string, high: int, others: string, low: int, rest: string)
    requires IsHex(digits, high) && IsHex(others, low) && 0xD800 <= high < 0xDC00 <= low < 0xE000
    ensures ReadEscape(("\\u" + digits + "\\u" + others)[1..] + rest)
         == Some(((0x10000 + (high - 0xD800) * 0x400 + (low - 0xDC00)) as char, rest))
  {
    PairReads(digits, high, others, low, rest);
    EscapeU(digits + ("\\u" + (others + rest)));
    SurrogatesText(digits, others, rest);
  }

  lemma EscapeReads(sp: Spelling, rest: string)
    requires Spelled(sp).Some? && !sp.Plain?
    ensures ReadEscape(SpellingText(sp)[1..] + rest) == Some((Spelled(sp).value, rest))
  {
    match sp
    case Short(e) => ShortEscapeReads(e, rest);
    case Unit(digits, n) => UnitReads(digits, n, rest);
    case Surrogates(digits, h, others, l) => SurrogatesRead(digits, h, others, l, rest);
    case _ =>
  }

  /** The reader takes any spelling for its character. */
  lemma SpellingReads(sp: Spelling, rest: string)
    requires Spelled(sp).Some?
    ensures |SpellingText(sp)| > 0 && SpellingText(sp)[0] != '"'
    ensures ReadString(SpellingText(sp) + rest)
         == match ReadString(rest) case None => None case Some(p) => Some(([Spelled(sp).value] + p.0, p.1))
  {
    if sp.Plain? {
      assert ([sp.c] + rest)[1..] == rest;
    } else {
      EscapeReads(sp, rest);
      AfterBackslash(SpellingText(sp), rest);
    }
  }

  lemma ShortIs(s: string)
    requires ReadEscape(s).Some? && s[0] != 'u'
    ensures Spelled(Short(s[0])) == Some(ReadEscape(s).value.0) && s == [s[0]] + ReadEscape(s).value.1
  {
    assert s == [s[0]] + s[1..];
  }

  lemma CodeText(t: string)
    ensures ['\\'] + (['u'] + t) == ['\\', 'u'] + t
  {
  }

  lemma CodeIs(t: string) returns (sp: Spelling)
    requires ReadUnicodeEscape(t).Some?
    ensures Spelled(sp) == Some(ReadUnicodeEscape(t).value.0)
    ensures ['\\'] + (['u'] + t) == SpellingText(sp) + ReadUnicodeEscape(t).value.1
  {
    sp := UnitIs(t);
    CodeText(t);
  }

  lemma EscapeIs(s: string) returns (sp: Spelling)
    requires ReadEscape(s).Some?
    ensures Spelled(sp) == Some(ReadEscape(s).value.0)
    ensures ['\\'] + s == SpellingText(sp) + ReadEscape(s).value.1
  {
    if s[0] == 'u' {
      assert s == ['u'] + s[1..];
      EscapeU(s[1..]);
      sp := CodeIs(s[1..]);
    } else {
      ShortIs(s);
      sp := Short(s[0]);
    }
  }

  /** And whatever the reader takes for a character is a spelling of it. */
  lemma ReadIsSpelling(s: string) returns (sp: Spelling, rest: string)
    requires ReadString(s).Some? && s[0] != '"'
    ensures Spelled(sp).Some? && s == SpellingText(sp) + rest && |rest| < |s|
    ensures ReadString(rest).Some?
    ensures ReadString(s).value == ([Spelled(sp).value] + ReadString(rest).value.0, ReadString(rest).value.1)
  {
    if s[0] == '\\' {
      sp := EscapeIs(s[1..]);
      rest := ReadEscape(s[1..]).value.1;
      assert s == ['\\'] + s[1..];
    } else {
      sp, rest := Plain(s[0]), s[1..];
      assert s == [s[0]] + s[1..];
    }
  }

  ghost predicate AllSpelled(chars: seq<Spelling>) { forall i :: 0 <= i < |chars| ==> Spelled(chars[i]).Some? }

  ghost function CharsText(chars: seq<Spelling>): string {
    if |chars| == 0 then "" else SpellingText(chars[0]) + CharsText(chars[1..])
  }

  ghost function CharsValue(chars: seq<Spelling>): (r: string)
    requires AllSpelled(chars)
    ensures |r| == |chars| && forall i :: 0 <= i < |chars| ==> r[i] == Spelled(chars[i]).value
  {
    seq(|chars|, i requires 0 <= i < |chars| => Spelled(chars[i]).value)
  }

  lemma MoreValue(sp: Spelling, more: seq<Spelling>)
    requires Spelled(sp).Some? && AllSpelled(more)
    ensures AllSpelled([sp] + more) && CharsValue([sp] + more) == [Spelled(sp).value] + CharsValue(more)
  {
  }

  lemma MoreChars(sp: Spelling, more: seq<Spelling>, rest: string)
    requires Spelled(sp).Some? && AllSpelled(more)
    ensures AllSpelled([sp] + more) && CharsValue([sp] + more) == [Spelled(sp).value] + CharsValue(more)
    ensures CharsText([sp] + more) + rest == SpellingText(sp) + (CharsText(more) + rest)
  {
    var chars := [sp] + more;
    assert chars[1..] == more && chars[0] == sp;
    Assoc(SpellingText(sp), CharsText(more), rest);
    MoreValue(sp, more);
  }

  lemma {:induction false} CharsRead(chars: seq<Spelling>, rest: string)
    requires AllSpelled(chars)
    ensures ReadString(CharsText(chars) + ("\"" + rest)) == Some((CharsValue(chars), rest))
  {
    if |chars| == 0 {
      assert "" + ("\"" + rest) == "\"" + rest && ("\"" + rest)[1..] == rest;
    } else {
      CharsRead(chars[1..], rest);
      assert chars == [chars[0]] + chars[1..];
      MoreChars(chars[0], chars[1..], "\"" + rest);
      SpellingReads(chars[0], CharsText(chars[1..]) + ("\"" + rest));
    }
  }

  lemma {:induction false} ReadIsChars(s: string) returns (chars: seq<Spelling>)
    requires ReadString(s).Some?
    ensures AllSpelled(chars) && CharsValue(chars) == ReadString(s).value.0
    ensures s == CharsText(chars) + ("\"" + ReadString(s).value.1)
    decreases |s|
  {
    if s[0] == '"' {
      chars := [];
      assert s == "\"" + s[1..];
    } else {
      var sp, rest := ReadIsSpelling(s);
      var more := ReadIsChars(rest);
      chars := [sp] + more;
      MoreChars(sp, more, "\"" + ReadString(s).value.1);
    }
  }

  // ---- Numbers (section 6) ----

  /** Sign, whole part, fraction and exponent of a literal; the exponent with its letter and sign. */
  datatype Literal = Literal(minus: bool, whole: string, fraction: Option<string>, exponent: Option<(char, string, string)>)

  ghost predicate Digits(s: string) { |s| > 0 && forall i :: 0 <= i < |s| ==> s[i] in "0123456789" }

  ghost predicate ValidLiteral(l: Literal) {
    && Digits(l.whole) && (l.whole[0] == '0' ==> |l.whole| == 1)
    && (l.fraction.Some? ==> Digits(l.fraction.value))
    && (l.exponent.Some? ==>
         (l.exponent.value.0 == 'e' || l.exponent.value.0 == 'E')
         && (l.exponent.value.1 == "" || l.exponent.value.1 == "+" || l.exponent.value.1 == "-") && Digits(l.exponent.value.2))
  }

  ghost function FractionText(l: Literal): string { if l.fraction.Some? then "." + l.fraction.value else "" }

  ghost function ExponentText(l: Literal): string {
    if l.exponent.Some? then [l.exponent.value.0] + l.exponent.value.1 + l.exponent.value.2 else ""
  }

  ghost function LiteralText(l: Literal): string {
    (if l.minus then "-" else "") + (l.whole + (FractionText(l) + ExponentText(l)))
  }

  lemma DigitIff(c: char)
    ensures IsDigit(c) <==> c in "0123456789"
  {
    if IsDigit(c) { assert "0123456789"[c as int - '0' as int] == c; }
  }

  lemma DigitsIff(s: string)
    ensures Digits(s) <==> |s| > 0 && AllDigits(s)
  {
    forall i | 0 <= i < |s| ensures IsDigit(s[i]) <==> s[i] in "0123456789" { DigitIff(s[i]); }
  }

  lemma {:induction false} DigitRunOf(digits: string, rest: string)
    requires AllDigits(digits) && (|rest| > 0 ==> !IsDigit(rest[0]))
    ensures DigitRun(digits + rest) == |digits|
  {
    if |digits| == 0 {
      assert digits + rest == rest;
    } else {
      assert (digits + rest)[1..] == digits[1..] + rest;
      DigitRunOf(digits[1..], rest);
    }
  }

  lemma {:induction false} DigitRunIs(s: string)
    ensures AllDigits(s[..DigitRun(s)])
    ensures |s[DigitRun(s)..]| > 0 ==> !IsDigit(s[DigitRun(s)..][0])
  {
    if |s| > 0 && IsDigit(s[0]) {
      DigitRunIs(s[1..]);
      var n := DigitRun(s);
      assert s[..n] == [s[0]] + s[1..][..n - 1] && s[n..] == s[1..][n - 1..];
    }
  }

  ghost predicate ValidExponent(e: char, sign: string, digits: string) {
    (e == 'e' || e == 'E') && (sign == "" || sign == "+" || sign == "-") && Digits(digits)
  }

  lemma ExponentReads(e: char, sign: string, digits: string)
    requires ValidExponent(e, sign, digits)
    ensures IsExponent([e] + sign + digits)
  {
    var s := [e] + sign + digits;
    DigitsIff(digits);
    if sign == "" { assert s[1..] == digits; } else { assert s[2..] == digits; }
  }

  lemma SignedText(s: string)
    requires |s| > 1
    ensures s == [s[0]] + [s[1]] + s[2..]
  {
  }

  lemma UnsignedText(s: string)
    requires |s| > 0
    ensures s == [s[0]] + "" + s[1..]
  {
  }

  lemma ExponentIs(s: string) returns (e: Option<(char, string, string)>)
    requires IsExponent(s)
    ensures e.Some? ==> ValidExponent(e.value.0, e.value.1, e.value.2) && s == [e.value.0] + e.value.1 + e.value.2
    ensures e.None? ==> s == ""
  {
    if s == "" {
      e := None;
    } else if |s| > 1 && (s[1] == '+' || s[1] == '-') {
      DigitsIff(s[2..]);
      e := Some((s[0], [s[1]], s[2..]));
      SignedText(s);
    } else {
      DigitsIff(s[1..]);
      e := Some((s[0], "", s[1..]));
      UnsignedText(s);
    }
  }

  lemma PointReads(digits: string, x: string)
    requires Digits(digits) && IsExponent(x) && (|x| > 0 ==> !IsDigit(x[0]))
    ensures IsFractionAndExponent("." + digits + x)
  {
    var s := "." + digits + x;
    DigitsIff(digits);
    assert s[1..] == digits + x;
    DigitRunOf(digits, x);
    assert s[1 + |digits|..] == x;
  }

  lemma ExponentOf(l: Literal)
    requires ValidLiteral(l)
    ensures IsExponent(ExponentText(l)) && (|ExponentText(l)| > 0 ==> ExponentText(l)[0] == 'e' || ExponentText(l)[0] == 'E')
  {
    if l.exponent.Some? { ExponentReads(l.exponent.value.0, l.exponent.value.1, l.exponent.value.2); }
  }

  lemma FractionReads(l: Literal)
    requires ValidLiteral(l)
    ensures var rest := FractionText(l) + ExponentText(l);
      IsFractionAndExponent(rest) && (|rest| > 0 ==> !IsDigit(rest[0]))
  {
    ExponentOf(l);
    if l.fraction.Some? {
      PointReads(l.fraction.value, ExponentText(l));
    } else {
      assert "" + ExponentText(l) == ExponentText(l);
    }
  }

  lemma UnsignedReads(l: Literal)
    requires ValidLiteral(l)
    ensures IsUnsignedNumber(l.whole + (FractionText(l) + ExponentText(l)))
  {
    var rest := FractionText(l) + ExponentText(l);
    FractionReads(l);
    DigitsIff(l.whole);
    DigitRunOf(l.whole, rest);
    assert (l.whole + rest)[|l.whole|..] == rest;
  }

  lemma NumberChars(s: string)
    requires AllDigits(s)
    ensures forall i :: 0 <= i < |s| ==> IsNumberChar(s[i])
  {
  }

  lemma LiteralChars(l: Literal)
    requires ValidLiteral(l)
    ensures forall i :: 0 <= i < |LiteralText(l)| ==> IsNumberChar(LiteralText(l)[i])
  {
    DigitsIff(l.whole);
    if l.fraction.Some? { DigitsIff(l.fraction.value); }
    if l.exponent.Some? { DigitsIff(l.exponent.value.2); }
    assert forall i :: 0 <= i < |FractionText(l)| ==> IsNumberChar(FractionText(l)[i]);
    assert forall i :: 0 <= i < |ExponentText(l)| ==> IsNumberChar(ExponentText(l)[i]);
  }

  lemma PointText(t: string, m: nat)
    requires 1 + m <= |t| && t[0] == '.'
    ensures t == "." + t[1..][..m] + t[1 + m..]
  {
  }

  lemma NoPrefix(t: string)
    ensures "" + t == t
  {
  }

  lemma PointIs(t: string) returns (fraction: Option<string>, x: string)
    requires IsFractionAndExponent(t)
    ensures IsExponent(x) && t == (if fraction.Some? then "." + fraction.value else "") + x
    ensures fraction.Some? ==> Digits(fraction.value)
  {
    if t != "" && t[0] == '.' {
      var m := DigitRun(t[1..]);
      DigitRunIs(t[1..]);
      DigitsIff(t[1..][..m]);
      fraction, x := Some(t[1..][..m]), t[1 + m..];
      PointText(t, m);
    } else {
      fraction, x := None, t;
      NoPrefix(t);
    }
  }

  lemma RestIs(t: string, minus: bool, whole: string) returns (l: Literal)
    requires IsFractionAndExponent(t)
    ensures l.minus == minus && l.whole == whole && FractionText(l) + ExponentText(l) == t
    ensures ValidLiteral(l) <==> Digits(whole) && (whole[0] == '0' ==> |whole| == 1)
  {
    var fraction, x := PointIs(t);
    var e := ExponentIs(x);
    l := Literal(minus, whole, fraction, e);
  }

  lemma UnsignedCases(s: string)
    requires IsUnsignedNumber(s)
    ensures var n := DigitRun(s); n > 0 && Digits(s[..n]) && (s[..n][0] == '0' ==> n == 1) && IsFractionAndExponent(s[n..])
  {
    DigitRunIs(s);
    DigitsIff(s[..DigitRun(s)]);
  }

  lemma UnsignedIs(s: string, minus: bool) returns (l: Literal)
    requires IsUnsignedNumber(s)
    ensures ValidLiteral(l) && LiteralText(l) == (if minus then "-" else "") + s
  {
    UnsignedCases(s);
    var n := DigitRun(s);
    l := RestIs(s[n..], minus, s[..n]);
    SplitAt(s, n);
  }

  lemma NumberIsLiteral(t: string) returns (l: Literal)
    requires IsNumber(t)
    ensures ValidLiteral(l) && LiteralText(l) == t
  {
    if t[0] == '-' {
      l := UnsignedIs(t[1..], true);
      SplitAt(t, 1);
      assert t[..1] == "-";
    } else {
      l := UnsignedIs(t, false);
      NoPrefix(t);
    }
  }

  /** A number literal is an optional sign, digits without a needless zero, an optional fraction and an optional exponent. */
  lemma NumberIff(t: string)
    ensures IsNumber(t) <==> exists l :: ValidLiteral(l) && LiteralText(l) == t
  {
    if IsNumber(t) {
      var l := NumberIsLiteral(t);
    }
    forall l | ValidLiteral(l) && LiteralText(l) == t ensures IsNumber(t) { LiteralIsNumber(l); }
  }

  lemma LiteralIsNumber(l: Literal)
    requires ValidLiteral(l)
    ensures IsNumber(LiteralText(l))
  {
    var t, unsigned := LiteralText(l), l.whole + (FractionText(l) + ExponentText(l));
    UnsignedReads(l);
    LiteralChars(l);
    DigitIff(unsigned[0]);
    if l.minus { assert t[1..] == unsigned; } else { assert t == unsigned; }
  }

  // ---- White space (section 2) ----

  ghost predicate White(s: string) { forall i :: 0 <= i < |s| ==> s[i] as int in {0x20, 0x09, 0x0A, 0x0D} }

  lemma {:induction false} WhiteIsSkipped(white: string, s: string)
    requires White(white)
    ensures SkipSpace(white + s) == SkipSpace(s)
  {
    if |white| == 0 {
      assert white + s == s;
    } else {
      assert (white + s)[1..] == white[1..] + s;
      WhiteIsSkipped(white[1..], s);
    }
  }

  lemma ConsWhite(c: char, more: string, rest: string)
    requires IsSpace(c) && White(more)
    ensures White([c] + more) && ([c] + more) + rest == [c] + (more + rest)
  {
  }

  lemma {:induction false} SkippedIsWhite(s: string) returns (white: string)
    ensures White(white) && s == white + SkipSpace(s)
  {
    if |s| > 0 && IsSpace(s[0]) {
      var more := SkippedIsWhite(s[1..]);
      white := [s[0]] + more;
      ConsWhite(s[0], more, SkipSpace(s));
      SplitAt(s, 1);
      assert s[..1] == [s[0]];
    } else {
      white := "";
      NoPrefix(s);
    }
  }
}
