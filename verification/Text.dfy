/** Rust string operations used by several components: ordering, trimming and ASCII case folding. */
module Text {

  /** Rust's `str` order: by UTF-8 bytes, which is the lexicographic order of the code points. */
  predicate Less(a: string, b: string) {
    if |b| == 0 then false
    else if |a| == 0 then true
    else if a[0] != b[0] then a[0] < b[0]
    else Less(a[1..], b[1..])
  }

  lemma {:induction false} LessIrreflexive(a: string)
    ensures !Less(a, a)
  {
    if |a| > 0 { LessIrreflexive(a[1..]); }
  }

  lemma {:induction false} LessTransitive(a: string, b: string, c: string)
    requires Less(a, b) && Less(b, c)
    ensures Less(a, c)
  {
    if |a| > 0 && a[0] == b[0] && b[0] == c[0] {
      LessTransitive(a[1..], b[1..], c[1..]);
    }
  }

  lemma {:induction false} LessConnected(a: string, b: string)
    ensures Less(a, b) || a == b || Less(b, a)
  {
    if |a| > 0 && |b| > 0 && a[0] == b[0] {
      LessConnected(a[1..], b[1..]);
      assert a == [a[0]] + a[1..] && b == [b[0]] + b[1..];
    }
  }

  lemma LessAsymmetric(a: string, b: string)
    requires Less(a, b)
    ensures !Less(b, a) && a != b
  {
    LessIrreflexive(a);
    if Less(b, a) { LessTransitive(a, b, a); }
  }

  /** The strings agree below i; there a ends and b goes on, or a has the smaller character. */
  ghost predicate SmallerAt(a: string, b: string, i: nat) {
    i <= |a| && i < |b| && a[..i] == b[..i] && (i < |a| ==> a[i] < b[i])
  }

  ghost predicate Precedes(a: string, b: string) { exists i: nat :: SmallerAt(a, b, i) }

  lemma SmallerAtLater(a: string, b: string, i: nat)
    requires SmallerAt(a, b, i)
    ensures i > 0 ==> |a| > 0 && a[0] == b[0]
  {
    if i > 0 { assert a[..i][0] == a[0] && b[..i][0] == b[0]; }
  }

  /** The order is the dictionary's: a proper prefix comes first, and else the first difference decides. */
  lemma {:induction false} LessIff(a: string, b: string)
    ensures Less(a, b) <==> Precedes(a, b)
  {
    if |b| > 0 && (|a| == 0 || a[0] != b[0]) {
      if i: nat :| SmallerAt(a, b, i) { SmallerAtLater(a, b, i); }
      assert SmallerAt(a, b, 0) <==> Less(a, b);
    } else if |b| > 0 {
      LessIff(a[1..], b[1..]);
      if i: nat :| SmallerAt(a[1..], b[1..], i) {
        assert a[..i + 1] == [a[0]] + a[1..][..i] && b[..i + 1] == [b[0]] + b[1..][..i];
        assert SmallerAt(a, b, i + 1);
      }
      if i: nat :| SmallerAt(a, b, i) {
        assert a[1..][..i - 1] == a[..i][1..] && b[1..][..i - 1] == b[..i][1..];
        assert SmallerAt(a[1..], b[1..], i - 1);
      }
    }
  }

  /** The Unicode White_Space property, which is what `str::trim` strips. */
  predicate IsUnicodeSpace(c: char) {
    var n := c as int;
    || 0x09 <= n <= 0x0D || n == 0x20 || n == 0x85 || n == 0xA0 || n == 0x1680
    || 0x2000 <= n <= 0x200A || n == 0x2028 || n == 0x2029 || n == 0x202F || n == 0x205F || n == 0x3000
  }

  /** The 25 characters of Unicode that have the property. */
  lemma SpaceIs(c: char)
    ensures IsUnicodeSpace(c) <==> c as int in {
      0x09, 0x0A, 0x0B, 0x0C, 0x0D, 0x20, 0x85, 0xA0, 0x1680, 0x2000, 0x2001, 0x2002, 0x2003, 0x2004, 0x2005, 0x2006, 0x2007,
      0x2008, 0x2009, 0x200A, 0x2028, 0x2029, 0x202F, 0x205F, 0x3000}
  {
  }

  function TrimStart(s: string): string {
    if |s| > 0 && IsUnicodeSpace(s[0]) then TrimStart(s[1..]) else s
  }

  function TrimEnd(s: string): string {
    if |s| > 0 && IsUnicodeSpace(s[|s| - 1]) then TrimEnd(s[..|s| - 1]) else s
  }

  function Trim(s: string): string {
    TrimEnd(TrimStart(s))
  }

  ghost predicate Trimmed(s: string) {
    |s| > 0 ==> !IsUnicodeSpace(s[0]) && !IsUnicodeSpace(s[|s| - 1])
  }

  lemma {:induction false} TrimEndShape(s: string)
    ensures TrimEnd(s) <= s
    ensures |TrimEnd(s)| > 0 ==> !IsUnicodeSpace(TrimEnd(s)[|TrimEnd(s)| - 1])
  {
    if |s| > 0 && IsUnicodeSpace(s[|s| - 1]) { TrimEndShape(s[..|s| - 1]); }
  }

  lemma {:induction false} TrimStartShape(s: string)
    ensures |TrimStart(s)| > 0 ==> !IsUnicodeSpace(TrimStart(s)[0])
  {
    if |s| > 0 && IsUnicodeSpace(s[0]) { TrimStartShape(s[1..]); }
  }

  /** Trimming yields a trimmed string and leaves exactly the trimmed strings alone. */
  lemma TrimFixpoint(s: string)
    ensures Trimmed(Trim(s))
    ensures Trim(s) == s <==> Trimmed(s)
    ensures Trim(Trim(s)) == Trim(s)
  {
    TrimStartShape(s);
    TrimEndShape(TrimStart(s));
    var t := Trim(s);
    assert t <= TrimStart(s);
    assert |t| > 0 ==> t[0] == TrimStart(s)[0];
  }

  ghost predicate Blanks(s: string) { forall i :: 0 <= i < |s| ==> IsUnicodeSpace(s[i]) }

  /** White space around a trimmed string is what trimming removes. */
  lemma TrimSurrounded(before: string, s: string, after: string)
    requires Trimmed(s) && Blanks(before) && Blanks(after)
    ensures Trim(before + s + after) == s
  {
    TrimStartOf(before, s + after);
    assert before + s + after == before + (s + after);
    if s == "" {
      assert s + after == after;
      TrimStartOf(after, "");
      assert after + "" == after;
    } else {
      TrimEndOf(s, after);
      TrimFixpoint(s);
    }
  }

  lemma {:induction false} TrimStartOf(before: string, s: string)
    requires Blanks(before)
    ensures TrimStart(before + s) == TrimStart(s)
  {
    if |before| == 0 {
      assert before + s == s;
    } else {
      assert (before + s)[1..] == before[1..] + s;
      TrimStartOf(before[1..], s);
    }
  }

  lemma {:induction false} TrimEndOf(s: string, after: string)
    requires Blanks(after)
    ensures TrimEnd(s + after) == TrimEnd(s)
  {
    if |after| == 0 {
      assert s + after == s;
    } else {
      var n := |after| - 1;
      assert (s + after)[..|s + after| - 1] == s + after[..n];
      TrimEndOf(s, after[..n]);
    }
  }

  function LowerChar(c: char): char {
    if 'A' <= c <= 'Z' then (c as int + 32) as char else c
  }

  /** ASCII lower-casing; on ASCII hosts this is both `to_lowercase` and the fold of `eq_ignore_ascii_case`. */
  function ToLower(s: string): (r: string)
    ensures |r| == |s|
    ensures forall i :: 0 <= i < |s| ==> r[i] == LowerChar(s[i])
  {
    seq(|s|, i requires 0 <= i < |s| => LowerChar(s[i]))
  }

  predicate EqIgnoreAsciiCase(a: string, b: string) {
    ToLower(a) == ToLower(b)
  }

  const UPPER := "ABCDEFGHIJKLMNOPQRSTUVWXYZ"
  const LOWER := "abcdefghijklmnopqrstuvwxyz"

  /** The capital letters become the small letters, and everything else stays. */
  lemma LowerCharIs(c: char)
    ensures forall k :: 0 <= k < 26 && c == UPPER[k] ==> LowerChar(c) == LOWER[k]
    ensures c !in UPPER ==> LowerChar(c) == c
  {
    assert forall k :: 0 <= k < 26 ==> UPPER[k] as int == 65 + k && LOWER[k] as int == 97 + k;
    if 'A' <= c <= 'Z' { assert UPPER[c as int - 65] == c; }
  }

  lemma LowerIdempotent(s: string)
    ensures ToLower(ToLower(s)) == ToLower(s)
  {
  }

  lemma LowerKeepsTrimmed(s: string)
    requires Trimmed(s)
    ensures Trimmed(ToLower(s))
  {
  }
}
