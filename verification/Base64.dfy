/** The standard Base64 encoding with required padding, section 4 of RFC 4648, over bytes. */
module Base64 {
  import opened Wrappers
  import opened Pcm

  const PAD: Byte := 61

  type Sextet = v: int | 0 <= v < 64

  function Symbol(v: Sextet): Byte {
    if v < 26 then v + 65 else if v < 52 then v + 71 else if v < 62 then v - 4 else if v == 62 then 43 else 47
  }

  function Value(c: Byte): Option<Sextet> {
    if 65 <= c <= 90 then Some(c - 65)
    else if 97 <= c <= 122 then Some(c - 71)
    else if 48 <= c <= 57 then Some(c + 4)
    else if c == 43 then Some(62)
    else if c == 47 then Some(63)
    else None
  }

  /** An engine's alphabet; every lemma below holds for any valid one. */
  datatype Alphabet = Alphabet(symbol: Sextet -> Byte, value: Byte -> Option<Sextet>) {
    ghost predicate Valid() {
      && (forall v: Sextet :: value(symbol(v)) == Some(v) && symbol(v) != PAD)
      && (forall c: Byte :: value(c).Some? ==> symbol(value(c).value) == c)
    }
  }

  const STANDARD := Alphabet(Symbol, Value)

  lemma SymbolValue(v: Sextet, c: Byte)
    ensures Value(Symbol(v)) == Some(v) && Symbol(v) != PAD
    ensures Value(c).Some? ==> Symbol(Value(c).value) == c
  {
  }

  lemma StandardIsValid()
    ensures STANDARD.Valid()
  {
    forall v: Sextet ensures STANDARD.value(STANDARD.symbol(v)) == Some(v) && STANDARD.symbol(v) != PAD { SymbolValue(v, 0); }
    forall c: Byte | STANDARD.value(c).Some? ensures STANDARD.symbol(STANDARD.value(c).value) == c { SymbolValue(0, c); }
  }

  // ---- One group: three bytes are four sextets ----

  function S0(a: Byte): Sextet { a / 4 }
  function S1(a: Byte, b: Byte): Sextet { a % 4 * 16 + b / 16 }
  function S2(b: Byte, c: Byte): Sextet { b % 16 * 4 + c / 64 }
  function S3(c: Byte): Sextet { c % 64 }

  function B0(p: Sextet, q: Sextet): Byte { p * 4 + q / 16 }
  function B1(q: Sextet, r: Sextet): Byte { q % 16 * 16 + r / 4 }
  function B2(r: Sextet, s: Sextet): Byte { r % 4 * 64 + s }

  lemma By4(q: nat, r: nat)
    requires r < 4
    ensures (q * 4 + r) / 4 == q && (q * 4 + r) % 4 == r
  {
  }

  lemma By16(q: nat, r: nat)
    requires r < 16
    ensures (q * 16 + r) / 16 == q && (q * 16 + r) % 16 == r
  {
  }

  lemma By64(q: nat, r: nat)
    requires r < 64
    ensures (q * 64 + r) / 64 == q && (q * 64 + r) % 64 == r
  {
  }

  lemma FirstByte(a: Byte, b: Byte)
    ensures B0(S0(a), S1(a, b)) == a && S1(a, b) % 16 == b / 16
  {
    By16(a % 4, b / 16);
  }

  lemma SecondByte(a: Byte, b: Byte, c: Byte)
    ensures B1(S1(a, b), S2(b, c)) == b && S2(b, c) % 4 == c / 64
  {
    By16(a % 4, b / 16);
    By4(b % 16, c / 64);
  }

  lemma ThirdByte(b: Byte, c: Byte)
    ensures B2(S2(b, c), S3(c)) == c
  {
    By4(b % 16, c / 64);
  }

  lemma FirstSextets(p: Sextet, q: Sextet)
    ensures S0(B0(p, q)) == p && B0(p, q) % 4 == q / 16
  {
    By4(p, q / 16);
  }

  lemma MiddleSextets(q: Sextet, r: Sextet)
    ensures B1(q, r) / 16 == q % 16 && B1(q, r) % 16 == r / 4
  {
    By16(q % 16, r / 4);
  }

  lemma LastSextets(r: Sextet, s: Sextet)
    ensures S3(B2(r, s)) == s && B2(r, s) / 64 == r % 4
  {
    By64(r % 4, s);
  }

  lemma Sextets(p: Sextet, q: Sextet, r: Sextet, s: Sextet)
    ensures S0(B0(p, q)) == p && S1(B0(p, q), B1(q, r)) == q && S2(B1(q, r), B2(r, s)) == r && S3(B2(r, s)) == s
  {
    FirstSextets(p, q);
    MiddleSextets(q, r);
    LastSextets(r, s);
  }

  lemma SextetsOfOne(p: Sextet, q: Sextet)
    requires q % 16 == 0
    ensures S0(B0(p, q)) == p && S1(B0(p, q), 0) == q
  {
    FirstSextets(p, q);
  }

  function EncodeThree(al: Alphabet, a: Byte, b: Byte, c: Byte): seq<Byte> { [al.symbol(S0(a)), al.symbol(S1(a, b)),
      al.symbol(S2(b, c)), al.symbol(S3(c))] }

  function EncodeTwo(al: Alphabet, a: Byte, b: Byte): seq<Byte> { [al.symbol(S0(a)), al.symbol(S1(a, b)), al.symbol(S2(b, 0)), PAD] }

  function EncodeOne(al: Alphabet, a: Byte): seq<Byte> { [al.symbol(S0(a)), al.symbol(S1(a, 0)), PAD, PAD] }

  function DecodeFull(al: Alphabet, g: seq<Byte>): Option<seq<Byte>>
    requires |g| == 4
  {
    var p, q, r, s := al.value(g[0]), al.value(g[1]), al.value(g[2]), al.value(g[3]);
    if p.None? || q.None? || r.None? || s.None? then None
    else Some([B0(p.value, q.value), B1(q.value, r.value), B2(r.value, s.value)])
  }

  /** The last group may be padded; the bits that padding leaves unused must be zero. */
  function DecodeLast(al: Alphabet, g: seq<Byte>): Option<seq<Byte>>
    requires |g| == 4
  {
    var p, q, r := al.value(g[0]), al.value(g[1]), al.value(g[2]);
    if p.None? || q.None? then None
    else if g[2] == PAD && g[3] == PAD then
      if q.value % 16 != 0 then None else Some([B0(p.value, q.value)])
    else if r.Some? && g[3] == PAD then
      if r.value % 4 != 0 then None else Some([B0(p.value, q.value), B1(q.value, r.value)])
    else DecodeFull(al, g)
  }

  // ---- Whole texts ----

  function Encode(al: Alphabet, bytes: seq<Byte>): seq<Byte>
    decreases |bytes|
  {
    if |bytes| == 0 then []
    else if |bytes| == 1 then EncodeOne(al, bytes[0])
    else if |bytes| == 2 then EncodeTwo(al, bytes[0], bytes[1])
    else EncodeThree(al, bytes[0], bytes[1], bytes[2]) + Encode(al, bytes[3..])
  }

  function Decode(al: Alphabet, text: seq<Byte>): Option<seq<Byte>>
    decreases |text|
  {
    if |text| == 0 then Some([])
    else if |text| < 4 then None
    else if |text| == 4 then DecodeLast(al, text)
    else
      var first, rest := DecodeFull(al, text[..4]), Decode(al, text[4..]);
      if first.None? || rest.None? then None else Some(first.value + rest.value)
  }

  lemma ThreeRoundTrip(al: Alphabet, a: Byte, b: Byte, c: Byte)
    requires al.Valid()
    ensures DecodeFull(al, EncodeThree(al, a, b, c)) == Some([a, b, c]) == DecodeLast(al, EncodeThree(al, a, b, c))
  {
    FirstByte(a, b);
    SecondByte(a, b, c);
    ThirdByte(b, c);
  }

  lemma ThreeDecode(al: Alphabet, a: Byte, b: Byte, c: Byte)
    requires al.Valid()
    ensures Decode(al, Encode(al, [a, b, c])) == Some([a, b, c])
  {
    ThreeRoundTrip(al, a, b, c);
    assert [a, b, c][3..] == [];
    assert EncodeThree(al, a, b, c) + [] == EncodeThree(al, a, b, c);
  }

  lemma TwoDecode(al: Alphabet, a: Byte, b: Byte)
    requires al.Valid()
    ensures Decode(al, Encode(al, [a, b])) == Some([a, b])
  {
    FirstByte(a, b);
    SecondByte(a, b, 0);
  }

  lemma OneDecode(al: Alphabet, a: Byte)
    requires al.Valid()
    ensures Decode(al, Encode(al, [a])) == Some([a])
  {
    FirstByte(a, 0);
  }

  lemma ThirdsStep(n: nat)
    requires n >= 3
    ensures (n + 2) / 3 == (n - 1) / 3 + 1
  {
  }

  lemma {:induction false} EncodedLength(al: Alphabet, bytes: seq<Byte>)
    ensures |Encode(al, bytes)| == (|bytes| + 2) / 3 * 4
    decreases |bytes|
  {
    if |bytes| >= 3 {
      EncodedLength(al, bytes[3..]);
      EncodeMoreLength(al, bytes);
      ThirdsStep(|bytes|);
    }
  }

  lemma EncodeMoreLength(al: Alphabet, bytes: seq<Byte>)
    requires |bytes| >= 3
    ensures |Encode(al, bytes)| == 4 + |Encode(al, bytes[3..])|
  {
  }

  lemma DecodeStep(al: Alphabet, group: seq<Byte>, rest: seq<Byte>)
    requires |group| == 4 && |rest| > 0 && DecodeFull(al, group).Some? && Decode(al, rest).Some?
    ensures Decode(al, group + rest) == Some(DecodeFull(al, group).value + Decode(al, rest).value)
  {
    assert (group + rest)[..4] == group && (group + rest)[4..] == rest;
  }

  lemma DecodeThree(al: Alphabet, bytes: seq<Byte>)
    requires al.Valid() && |bytes| == 3
    ensures Decode(al, Encode(al, bytes)) == Some(bytes)
  {
    ThreeDecode(al, bytes[0], bytes[1], bytes[2]);
    assert bytes == [bytes[0], bytes[1], bytes[2]];
  }

  lemma DecodeTwo(al: Alphabet, bytes: seq<Byte>)
    requires al.Valid() && |bytes| == 2
    ensures Decode(al, Encode(al, bytes)) == Some(bytes)
  {
    TwoDecode(al, bytes[0], bytes[1]);
    assert bytes == [bytes[0], bytes[1]];
  }

  lemma DecodeOne(al: Alphabet, bytes: seq<Byte>)
    requires al.Valid() && |bytes| == 1
    ensures Decode(al, Encode(al, bytes)) == Some(bytes)
  {
    OneDecode(al, bytes[0]);
    assert bytes == [bytes[0]];
  }

  lemma DecodeMore(al: Alphabet, bytes: seq<Byte>)
    requires al.Valid() && |bytes| > 3 && Decode(al, Encode(al, bytes[3..])) == Some(bytes[3..])
    ensures Decode(al, Encode(al, bytes)) == Some(bytes)
  {
    ThreeRoundTrip(al, bytes[0], bytes[1], bytes[2]);
    EncodedLength(al, bytes[3..]);
    DecodeStep(al, EncodeThree(al, bytes[0], bytes[1], bytes[2]), Encode(al, bytes[3..]));
    assert bytes == [bytes[0], bytes[1], bytes[2]] + bytes[3..];
  }

  /** Decoding inverts encoding. */
  lemma {:induction false} DecodeEncode(al: Alphabet, bytes: seq<Byte>)
    requires al.Valid()
    ensures Decode(al, Encode(al, bytes)) == Some(bytes)
    decreases |bytes|
  {
    if |bytes| == 1 {
      DecodeOne(al, bytes);
    } else if |bytes| == 2 {
      DecodeTwo(al, bytes);
    } else if |bytes| == 3 {
      DecodeThree(al, bytes);
    } else if |bytes| > 3 {
      DecodeEncode(al, bytes[3..]);
      DecodeMore(al, bytes);
    }
  }

  lemma FullGroup(al: Alphabet, g: seq<Byte>)
    requires al.Valid() && |g| == 4 && DecodeFull(al, g).Some?
    ensures var b := DecodeFull(al, g).value; |b| == 3 && EncodeThree(al, b[0], b[1], b[2]) == g
  {
    var p, q, r, s := al.value(g[0]).value, al.value(g[1]).value, al.value(g[2]).value, al.value(g[3]).value;
    Sextets(p, q, r, s);
  }

  lemma PaddedTwo(al: Alphabet, g: seq<Byte>)
    requires al.Valid() && |g| == 4 && al.value(g[0]).Some? && al.value(g[1]).Some? && al.value(g[2]).Some? && g[3] == PAD && al.value(g[2]).value % 4 == 0
    ensures EncodeTwo(al, B0(al.value(g[0]).value, al.value(g[1]).value), B1(al.value(g[1]).value, al.value(g[2]).value)) == g
  {
    var p, q, r := al.value(g[0]).value, al.value(g[1]).value, al.value(g[2]).value;
    Sextets(p, q, r, 0);
  }

  lemma PaddedOne(al: Alphabet, g: seq<Byte>)
    requires al.Valid() && |g| == 4 && al.value(g[0]).Some? && al.value(g[1]).Some? && g[2] == PAD && g[3] == PAD && al.value(g[1]).value % 16 == 0
    ensures EncodeOne(al, B0(al.value(g[0]).value, al.value(g[1]).value)) == g
  {
    var p, q := al.value(g[0]).value, al.value(g[1]).value;
    SextetsOfOne(p, q);
  }

  lemma LastGroup(al: Alphabet, g: seq<Byte>)
    requires al.Valid() && |g| == 4 && DecodeLast(al, g).Some?
    ensures Encode(al, DecodeLast(al, g).value) == g && 1 <= |DecodeLast(al, g).value| <= 3
  {
    if g[2] == PAD && g[3] == PAD {
      PaddedOne(al, g);
    } else if al.value(g[2]).Some? && g[3] == PAD {
      PaddedTwo(al, g);
    } else {
      FullGroup(al, g);
      var b := DecodeFull(al, g).value;
      assert EncodeThree(al, b[0], b[1], b[2]) + [] == g;
    }
  }

  /** And encoding inverts decoding: every accepted text is the one encoding of its bytes. */
  lemma {:induction false} EncodeDecode(al: Alphabet, text: seq<Byte>)
    requires al.Valid() && Decode(al, text).Some?
    ensures Encode(al, Decode(al, text).value) == text
    decreases |text|
  {
    if |text| == 4 {
      LastGroup(al, text);
    } else if |text| > 4 {
      FullGroup(al, text[..4]);
      EncodeDecode(al, text[4..]);
      var first, rest := DecodeFull(al, text[..4]).value, Decode(al, text[4..]).value;
      assert (first + rest)[3..] == rest;
      assert text == text[..4] + text[4..];
    }
  }

  lemma GroupArithmetic(n: nat, m: nat)
    requires m == (n + 2) / 3 * 4
    ensures m % 4 == 0 && m / 4 * 3 - 2 <= n <= m / 4 * 3
  {
    var q := (n + 2) / 3;
    assert m == 4 * q && m / 4 == q;
  }

  /** Valid texts come in groups of four, each worth three bytes except perhaps the last. */
  lemma DecodedLength(al: Alphabet, text: seq<Byte>)
    requires al.Valid() && Decode(al, text).Some?
    ensures |text| % 4 == 0
    ensures |text| / 4 * 3 - 2 <= |Decode(al, text).value| <= |text| / 4 * 3
  {
    EncodeDecode(al, text);
    EncodedLength(al, Decode(al, text).value);
    GroupArithmetic(|Decode(al, text).value|, |text|);
  }
}
