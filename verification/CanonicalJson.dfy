/** The canonical JSON printer of src/core/providers/auth.rs: objects with their keys sorted. */
module CanonicalJson {
  import opened Wrappers
  import opened Text
  import opened Json
  import opened JsonSyntax

  // ---- What a value means: objects are finite maps ----

  datatype Meaning = Scalar(v: Value) | List(items: seq<Meaning>) | Dictionary(members: map<string, Meaning>)

  function MeaningOf(v: Value): Meaning
    decreases v, 0
  {
    match v
    case Array(items) => List(MeaningOfItems(items))
    case Object(entries) => Dictionary(MeaningOfEntries(entries))
    case _ => Scalar(v)
  }

  function MeaningOfItems(items: seq<Value>): (r: seq<Meaning>)
    ensures |r| == |items|
    ensures forall i :: 0 <= i < |items| ==> r[i] == MeaningOf(items[i])
    decreases items, 1
  {
    if |items| == 0 then [] else [MeaningOf(items[0])] + MeaningOfItems(items[1..])
  }

  function MeaningOfEntries(entries: seq<Entry>): map<string, Meaning>
    decreases entries, 1
  {
    if |entries| == 0 then map[]
    else MeaningOfEntries(entries[1..])[entries[0].0 := MeaningOfEntry(entries[0])]
  }

  function MeaningOfEntry(e: Entry): Meaning
    decreases e, 0
  {
    MeaningOf(e.1)
  }

  lemma {:induction false} MeaningOfEntriesGet(entries: seq<Entry>)
    requires HasUniqueKeys(entries)
    ensures forall k :: k in MeaningOfEntries(entries) <==> exists i :: 0 <= i < |entries| && entries[i].0 == k
    ensures forall i :: 0 <= i < |entries| ==> MeaningOfEntries(entries)[entries[i].0] == MeaningOf(entries[i].1)
  {
    if |entries| > 0 {
      var tail := entries[1..];
      MeaningOfEntriesGet(tail);
      var m := MeaningOfEntries(entries);
      assert MeaningOfEntry(entries[0]) == MeaningOf(entries[0].1);
      forall k ensures k in m <==> exists i :: 0 <= i < |entries| && entries[i].0 == k {
        if k in m && k != entries[0].0 {
          var i :| 0 <= i < |tail| && tail[i].0 == k;
          assert entries[i + 1].0 == k;
        }
        if i :| 0 <= i < |entries| && entries[i].0 == k {
          if i > 0 { assert tail[i - 1].0 == k; }
        }
      }
      forall i | 0 <= i < |entries| ensures m[entries[i].0] == MeaningOf(entries[i].1) {
        if i > 0 {
          assert entries[0].0 != entries[i].0 && tail[i - 1] == entries[i];
          assert MeaningOfEntries(tail)[tail[i - 1].0] == MeaningOf(tail[i - 1].1);
        }
      }
    }
  }

  // ---- Sorting ----

  function InsertByKey(e: Entry, sorted: seq<Entry>): seq<Entry> {
    if |sorted| == 0 || !Less(sorted[0].0, e.0) then [e] + sorted
    else [sorted[0]] + InsertByKey(e, sorted[1..])
  }

  function SortByKey(entries: seq<Entry>): seq<Entry> {
    if |entries| == 0 then [] else InsertByKey(entries[0], SortByKey(entries[1..]))
  }

  lemma {:induction false} InsertByKeyPermutes(e: Entry, sorted: seq<Entry>)
    ensures multiset(InsertByKey(e, sorted)) == multiset{e} + multiset(sorted)
  {
    if |sorted| > 0 && Less(sorted[0].0, e.0) {
      InsertByKeyPermutes(e, sorted[1..]);
      assert sorted == [sorted[0]] + sorted[1..];
    }
  }

  lemma {:induction false} SortByKeyPermutes(entries: seq<Entry>)
    ensures multiset(SortByKey(entries)) == multiset(entries)
  {
    if |entries| > 0 {
      SortByKeyPermutes(entries[1..]);
      InsertByKeyPermutes(entries[0], SortByKey(entries[1..]));
      assert entries == [entries[0]] + entries[1..];
    }
  }

  lemma SameMultisetSameElements(xs: seq<Entry>, ys: seq<Entry>)
    requires multiset(xs) == multiset(ys)
    ensures |xs| == |ys|
    ensures forall e :: e in xs <==> e in ys
  {
    assert |xs| == |multiset(xs)| == |multiset(ys)| == |ys|;
    forall e ensures e in xs <==> e in ys {
      assert e in xs <==> e in multiset(xs);
      assert e in ys <==> e in multiset(ys);
    }
  }

  lemma {:induction false} InsertByKeySorted(e: Entry, sorted: seq<Entry>)
    requires SortedKeys(sorted)
    requires forall i :: 0 <= i < |sorted| ==> sorted[i].0 != e.0
    ensures SortedKeys(InsertByKey(e, sorted))
  {
    if |sorted| > 0 {
      var first := sorted[0];
      LessConnected(first.0, e.0);
      if Less(first.0, e.0) {
        var tail := InsertByKey(e, sorted[1..]);
        InsertByKeySorted(e, sorted[1..]);
        InsertByKeyPermutes(e, sorted[1..]);
        SameMultisetSameElements(tail, [e] + sorted[1..]);
        forall j | 0 <= j < |tail| ensures Less(first.0, tail[j].0) {
          assert tail[j] in [e] + sorted[1..];
        }
      } else {
        forall j | 0 <= j < |sorted| ensures Less(e.0, sorted[j].0) {
          if j > 0 { LessTransitive(e.0, first.0, sorted[j].0); }
        }
      }
    }
  }

  lemma {:induction false} SortByKeySorted(entries: seq<Entry>)
    requires HasUniqueKeys(entries)
    ensures SortedKeys(SortByKey(entries))
  {
    if |entries| > 0 {
      var tail := SortByKey(entries[1..]);
      SortByKeySorted(entries[1..]);
      SortByKeyPermutes(entries[1..]);
      SameMultisetSameElements(tail, entries[1..]);
      forall i | 0 <= i < |tail| ensures tail[i].0 != entries[0].0 {
        assert tail[i] in entries[1..];
      }
      InsertByKeySorted(entries[0], tail);
    }
  }

  /** Two key-sorted lists with the same entries are the same list, so an unstable sort is determined. */
  lemma {:induction false} SortedListUnique(xs: seq<Entry>, ys: seq<Entry>)
    requires SortedKeys(xs) && SortedKeys(ys)
    requires forall e :: e in xs <==> e in ys
    ensures xs == ys
  {
    var all := xs + ys;
    if |all| > 0 {
      var first := all[0];
      assert first in xs || first in ys;
      assert xs[0] in ys;
      assert ys[0] in xs;
      var i :| 0 <= i < |ys| && ys[i] == xs[0];
      var j :| 0 <= j < |xs| && xs[j] == ys[0];
      if i > 0 && j > 0 { LessAsymmetric(ys[0].0, xs[0].0); }
      assert xs[0] == ys[0];
      TailSameElements(xs, ys);
      SortedListUnique(xs[1..], ys[1..]);
      assert xs == [xs[0]] + xs[1..] && ys == [ys[0]] + ys[1..];
    }
  }

  lemma TailSameElements(xs: seq<Entry>, ys: seq<Entry>)
    requires SortedKeys(xs) && SortedKeys(ys) && |xs| > 0 && |ys| > 0 && xs[0] == ys[0]
    requires forall e :: e in xs <==> e in ys
    ensures forall e :: e in xs[1..] <==> e in ys[1..]
  {
    LessIrreflexive(xs[0].0);
    forall e ensures e in xs[1..] <==> e in ys[1..] {
      if e in xs[1..] {
        var i :| 0 < i < |xs| && xs[i] == e;
        assert e in ys && e != ys[0];
      }
      if e in ys[1..] {
        var i :| 0 < i < |ys| && ys[i] == e;
        assert e in xs && e != xs[0];
      }
    }
  }

  // ---- Canonical form ----

  /** The value with every object's entries in key order. */
  function Canon(v: Value): Value
    decreases v, 0
  {
    match v
    case Array(items) => Array(CanonItems(items))
    case Object(entries) => Object(SortByKey(CanonEntries(entries)))
    case _ => v
  }

  function CanonItems(items: seq<Value>): (r: seq<Value>)
    ensures |r| == |items|
    ensures forall i :: 0 <= i < |items| ==> r[i] == Canon(items[i])
    decreases items, 1
  {
    if |items| == 0 then [] else [Canon(items[0])] + CanonItems(items[1..])
  }

  function CanonEntries(entries: seq<Entry>): (r: seq<Entry>)
    ensures |r| == |entries|
    ensures forall i :: 0 <= i < |entries| ==> r[i] == CanonEntry(entries[i])
    decreases entries, 1
  {
    if |entries| == 0 then [] else [CanonEntry(entries[0])] + CanonEntries(entries[1..])
  }

  function CanonEntry(e: Entry): Entry
    decreases e, 0
  {
    (e.0, Canon(e.1))
  }

  /** `canonical_json_string`. */
  function CanonicalText(v: Value): string { Emit(Canon(v)) }

  /** The reader that keeps every literal as it is written: printing loses nothing to it. */
  const AS_WRITTEN: NumberReader := t => Some(t)

  lemma {:induction false} FixedAsWritten(v: Value)
    ensures Fixed(AS_WRITTEN, v)
  {
    match v
    case Array(items) => forall i | 0 <= i < |items| ensures Fixed(AS_WRITTEN, items[i]) { FixedAsWritten(items[i]); }
    case Object(entries) =>
      forall i | 0 <= i < |entries| ensures Fixed(AS_WRITTEN, entries[i].1) { FixedAsWritten(entries[i].1); }
    case _ =>
  }

  lemma SortedCanonEntries(entries: seq<Entry>)
    requires HasUniqueKeys(entries)
    ensures var c := SortByKey(CanonEntries(entries)); SortedKeys(c) && |c| == |entries|
    ensures forall i :: 0 <= i < |entries| ==> CanonEntry(entries[i]) in SortByKey(CanonEntries(entries))
    ensures forall e :: e in SortByKey(CanonEntries(entries)) ==> e in CanonEntries(entries)
  {
    var c := CanonEntries(entries);
    SortByKeySorted(c);
    SortByKeyPermutes(c);
    SameMultisetSameElements(SortByKey(c), c);
    forall i | 0 <= i < |entries| ensures CanonEntry(entries[i]) in SortByKey(c) {
      assert c[i] in c;
    }
  }

  lemma {:induction false} CanonWellFormed(v: Value)
    requires WellFormed(v)
    ensures Readable(AS_WRITTEN, Canon(v))
  {
    match v
    case Array(items) =>
      forall i | 0 <= i < |items| ensures Readable(AS_WRITTEN, CanonItems(items)[i]) { CanonWellFormed(items[i]); }
    case Object(entries) =>
      SortedCanonEntries(entries);
      var c := SortByKey(CanonEntries(entries));
      forall j | 0 <= j < |c| ensures Readable(AS_WRITTEN, c[j].1) {
        assert c[j] in c;
        var i :| 0 <= i < |entries| && c[j] == CanonEntries(entries)[i];
        CanonWellFormed(entries[i].1);
      }
    case _ =>
  }

  /** A value the reader returned is already canonical. */
  lemma {:induction false} CanonOfReadable(num: NumberReader, v: Value)
    requires Readable(num, v)
    ensures Canon(v) == v
  {
    match v
    case Array(items) =>
      forall i | 0 <= i < |items| ensures CanonItems(items)[i] == items[i] { CanonOfReadable(num, items[i]); }
      assert CanonItems(items) == items;
    case Object(entries) =>
      forall i | 0 <= i < |entries| ensures CanonEntries(entries)[i] == entries[i] { CanonOfReadable(num, entries[i].1); }
      assert CanonEntries(entries) == entries;
      SortByKeyOfSorted(entries);
    case _ =>
  }

  lemma {:induction false} SortByKeyOfSorted(entries: seq<Entry>)
    requires SortedKeys(entries)
    ensures SortByKey(entries) == entries
  {
    if |entries| > 0 {
      SortByKeyOfSorted(entries[1..]);
      if |entries| > 1 { LessAsymmetric(entries[0].0, entries[1].0); }
    }
  }

  /**
    The text of an object lists each member once, its value canonical, and the members with ascending keys: of two keys the
    first is a proper prefix of the second or has the smaller character at their first difference.
   */
  lemma CanonicalObjectText(entries: seq<Entry>) returns (members: seq<Entry>)
    requires HasUniqueKeys(entries)
    ensures CanonicalText(Object(entries)) == "{" + EmitMembers(members) + "}"
    ensures multiset(members) == multiset(CanonEntries(entries))
    ensures forall i, j :: 0 <= i < j < |members| ==> Precedes(members[i].0, members[j].0)
  {
    members := SortByKey(CanonEntries(entries));
    SortedCanonEntries(entries);
    SortByKeyPermutes(CanonEntries(entries));
    forall i, j | 0 <= i < j < |members| ensures Precedes(members[i].0, members[j].0) {
      LessIff(members[i].0, members[j].0);
    }
  }

  // ---- Same meaning, same canonical form, same text ----

  /** Values that differ only in entry order, at any depth, have the same canonical form. */
  lemma {:induction false} SameMeaningSameCanon(a: Value, b: Value)
    requires WellFormed(a) && WellFormed(b) && MeaningOf(a) == MeaningOf(b)
    ensures Canon(a) == Canon(b)
    decreases a
  {
    match a
    case Array(items) =>
      assert b.Array?;
      assert |items| == |MeaningOfItems(items)| == |MeaningOfItems(b.items)| == |b.items|;
      forall i | 0 <= i < |items| ensures CanonItems(items)[i] == CanonItems(b.items)[i] {
        assert MeaningOfItems(items)[i] == MeaningOfItems(b.items)[i];
        SameMeaningSameCanon(items[i], b.items[i]);
      }
      assert CanonItems(items) == CanonItems(b.items);
    case Object(entries) =>
      assert b.Object?;
      MeaningOfEntriesGet(entries);
      MeaningOfEntriesGet(b.entries);
      forall i, j | 0 <= i < |entries| && 0 <= j < |b.entries| && entries[i].0 == b.entries[j].0
        ensures Canon(entries[i].1) == Canon(b.entries[j].1)
      {
        SameMeaningSameCanon(entries[i].1, b.entries[j].1);
      }
      SameEntriesSameSorted(entries, b.entries);
    case _ =>
  }

  lemma SameEntriesSameSorted(xs: seq<Entry>, ys: seq<Entry>)
    requires HasUniqueKeys(xs) && HasUniqueKeys(ys)
    requires MeaningOfEntries(xs) == MeaningOfEntries(ys)
    requires forall i, j :: 0 <= i < |xs| && 0 <= j < |ys| && xs[i].0 == ys[j].0 ==> Canon(xs[i].1) == Canon(ys[j].1)
    ensures SortByKey(CanonEntries(xs)) == SortByKey(CanonEntries(ys))
  {
    SortedCanonEntries(xs);
    SortedCanonEntries(ys);
    var cx, cy := SortByKey(CanonEntries(xs)), SortByKey(CanonEntries(ys));
    forall e ensures e in cx <==> e in cy {
      if e in cx { CanonEntryMoves(xs, ys, e); }
      if e in cy { CanonEntryMoves(ys, xs, e); }
    }
    SortedListUnique(cx, cy);
  }

  lemma CanonEntryMoves(xs: seq<Entry>, ys: seq<Entry>, e: Entry)
    requires HasUniqueKeys(xs) && HasUniqueKeys(ys)
    requires MeaningOfEntries(xs) == MeaningOfEntries(ys)
    requires forall i, j :: 0 <= i < |xs| && 0 <= j < |ys| && xs[i].0 == ys[j].0 ==> Canon(xs[i].1) == Canon(ys[j].1)
    requires e in CanonEntries(xs)
    ensures e in SortByKey(CanonEntries(ys))
  {
    SortedCanonEntries(ys);
    MeaningOfEntriesGet(xs);
    MeaningOfEntriesGet(ys);
    var i :| 0 <= i < |xs| && CanonEntries(xs)[i] == e;
    assert xs[i].0 in MeaningOfEntries(ys);
    var j :| 0 <= j < |ys| && ys[j].0 == xs[i].0;
    assert e == CanonEntry(ys[j]);
  }

  /** Sorting the entries does not change what a value means. */
  lemma {:induction false} CanonKeepsMeaning(v: Value)
    requires WellFormed(v)
    ensures MeaningOf(Canon(v)) == MeaningOf(v)
  {
    match v
    case Array(items) =>
      forall i | 0 <= i < |items| ensures MeaningOf(CanonItems(items)[i]) == MeaningOf(items[i]) {
        CanonKeepsMeaning(items[i]);
      }
      assert MeaningOfItems(CanonItems(items)) == MeaningOfItems(items);
    case Object(entries) =>
      forall i | 0 <= i < |entries| ensures MeaningOf(Canon(entries[i].1)) == MeaningOf(entries[i].1) {
        CanonKeepsMeaning(entries[i].1);
      }
      CanonKeepsMeaningOfEntries(entries);
    case _ =>
  }

  lemma SameMembers(xs: seq<Entry>, ys: seq<Entry>)
    requires HasUniqueKeys(xs) && HasUniqueKeys(ys)
    requires forall i :: 0 <= i < |xs| ==> HasMember(ys, xs[i].0, MeaningOf(xs[i].1))
    ensures forall k :: k in MeaningOfEntries(xs) ==>
              k in MeaningOfEntries(ys) && MeaningOfEntries(ys)[k] == MeaningOfEntries(xs)[k]
  {
    MeaningOfEntriesGet(xs);
    MeaningOfEntriesGet(ys);
    forall k | k in MeaningOfEntries(xs)
      ensures k in MeaningOfEntries(ys) && MeaningOfEntries(ys)[k] == MeaningOfEntries(xs)[k]
    {
      var i :| 0 <= i < |xs| && xs[i].0 == k;
      var j :| 0 <= j < |ys| && ys[j].0 == k && MeaningOf(ys[j].1) == MeaningOf(xs[i].1);
    }
  }

  ghost predicate HasMember(entries: seq<Entry>, key: string, m: Meaning) {
    exists j :: 0 <= j < |entries| && entries[j].0 == key && MeaningOf(entries[j].1) == m
  }

  lemma EntryIsInCanon(entries: seq<Entry>, i: nat)
    requires HasUniqueKeys(entries) && i < |entries| && MeaningOf(Canon(entries[i].1)) == MeaningOf(entries[i].1)
    ensures HasMember(SortByKey(CanonEntries(entries)), entries[i].0, MeaningOf(entries[i].1))
  {
    var c := SortByKey(CanonEntries(entries));
    SortedCanonEntries(entries);
    assert CanonEntry(entries[i]) in c;
    var j :| 0 <= j < |c| && c[j] == CanonEntry(entries[i]);
  }

  lemma CanonIsInEntries(entries: seq<Entry>, j: nat)
    requires HasUniqueKeys(entries) && j < |SortByKey(CanonEntries(entries))|
    requires forall i :: 0 <= i < |entries| ==> MeaningOf(Canon(entries[i].1)) == MeaningOf(entries[i].1)
    ensures var e := SortByKey(CanonEntries(entries))[j]; HasMember(entries, e.0, MeaningOf(e.1))
  {
    var c := SortByKey(CanonEntries(entries));
    SortedCanonEntries(entries);
    assert c[j] in CanonEntries(entries);
    var i :| 0 <= i < |entries| && CanonEntries(entries)[i] == c[j];
    assert c[j] == CanonEntry(entries[i]);
  }

  lemma CanonKeepsMeaningOfEntries(entries: seq<Entry>)
    requires HasUniqueKeys(entries)
    requires forall i :: 0 <= i < |entries| ==> MeaningOf(Canon(entries[i].1)) == MeaningOf(entries[i].1)
    ensures MeaningOfEntries(SortByKey(CanonEntries(entries))) == MeaningOfEntries(entries)
  {
    var c := SortByKey(CanonEntries(entries));
    SortedCanonEntries(entries);
    SortedHasUniqueKeys(c);
    forall i | 0 <= i < |entries| ensures HasMember(c, entries[i].0, MeaningOf(entries[i].1)) { EntryIsInCanon(entries, i); }
    forall j | 0 <= j < |c| ensures HasMember(entries, c[j].0, MeaningOf(c[j].1)) { CanonIsInEntries(entries, j); }
    SameMembers(entries, c);
    SameMembers(c, entries);
    SameMap(MeaningOfEntries(c), MeaningOfEntries(entries));
  }

  lemma SameMap(m: map<string, Meaning>, n: map<string, Meaning>)
    requires forall k :: k in m ==> k in n && n[k] == m[k]
    requires forall k :: k in n ==> k in m
    ensures m == n
  {
  }

  lemma SortedHasUniqueKeys(entries: seq<Entry>)
    requires SortedKeys(entries)
    ensures HasUniqueKeys(entries)
  {
    forall i, j | 0 <= i < j < |entries| ensures entries[i].0 != entries[j].0 {
      LessAsymmetric(entries[i].0, entries[j].0);
    }
  }

  function Depth(v: Value): nat
    decreases v, 0
  {
    match v
    case Array(items) => 1 + DepthOfItems(items)
    case Object(entries) => 1 + DepthOfEntries(entries)
    case _ => 0
  }

  function Max(a: nat, b: nat): nat { if a < b then b else a }

  function DepthOfItems(items: seq<Value>): (r: nat)
    ensures forall i :: 0 <= i < |items| ==> Depth(items[i]) <= r
    decreases items, 1
  {
    if |items| == 0 then 0 else Max(Depth(items[0]), DepthOfItems(items[1..]))
  }

  function DepthOfEntries(entries: seq<Entry>): (r: nat)
    ensures forall i :: 0 <= i < |entries| ==> DepthOfEntry(entries[i]) <= r
    decreases entries, 1
  {
    if |entries| == 0 then 0 else Max(DepthOfEntry(entries[0]), DepthOfEntries(entries[1..]))
  }

  function DepthOfEntry(e: Entry): nat
    decreases e, 0
  {
    Depth(e.1)
  }

  lemma {:induction false} FitsDepth(v: Value, depth: nat)
    requires Depth(v) <= depth
    ensures Fits(v, depth)
    decreases v
  {
    match v
    case Array(items) =>
      forall i | 0 <= i < |items| ensures Fits(items[i], depth - 1) { FitsDepth(items[i], depth - 1); }
    case Object(entries) =>
      forall i | 0 <= i < |entries| ensures Fits(entries[i].1, depth - 1) {
        assert DepthOfEntry(entries[i]) <= depth - 1;
        FitsDepth(entries[i].1, depth - 1);
      }
    case _ =>
  }

  /** The canonical text, followed by anything that does not extend a number, reads back to the canonical form. */
  lemma ReadCanonicalText(v: Value, depth: nat, rest: string)
    requires WellFormed(v) && Depth(Canon(v)) <= depth
    requires v.Number? ==> EndsNumber(rest)
    ensures ReadValue(AS_WRITTEN, depth, CanonicalText(v) + rest) == Some((Canon(v), rest))
  {
    CanonWellFormed(v);
    FitsDepth(Canon(v), depth);
    ReadEmit(AS_WRITTEN, depth, Canon(v), rest);
    RenumFixedIff(AS_WRITTEN, Canon(v));
    FixedAsWritten(Canon(v));
  }

  /**
    The canonical text is canonical and injective: two values print alike exactly when they are equal with
    objects read as finite maps, whatever their nesting and whatever the order of their entries.
   */
  lemma CanonicalTextIffSameMeaning(a: Value, b: Value)
    requires WellFormed(a) && WellFormed(b)
    ensures CanonicalText(a) == CanonicalText(b) <==> MeaningOf(a) == MeaningOf(b)
  {
    if MeaningOf(a) == MeaningOf(b) { SameMeaningSameCanon(a, b); }
    if CanonicalText(a) == CanonicalText(b) {
      var d := Max(Depth(Canon(a)), Depth(Canon(b)));
      ReadCanonicalText(a, d, "");
      ReadCanonicalText(b, d, "");
      assert CanonicalText(a) + "" == CanonicalText(b) + "";
      CanonKeepsMeaning(a);
      CanonKeepsMeaning(b);
    }
  }

  lemma {:induction false} ReadableIsWellFormed(num: NumberReader, v: Value)
    requires Readable(num, v)
    ensures WellFormed(v)
  {
    match v
    case Array(items) =>
      forall i | 0 <= i < |items| ensures WellFormed(items[i]) { ReadableIsWellFormed(num, items[i]); }
    case Object(entries) =>
      SortedHasUniqueKeys(entries);
      forall i | 0 <= i < |entries| ensures WellFormed(entries[i].1) { ReadableIsWellFormed(num, entries[i].1); }
    case _ =>
  }

  /** Values that were read print alike only if they are the same. */
  lemma EmitInjective(num: NumberReader, v: Value, w: Value)
    requires Readable(num, v) && Readable(num, w) && Emit(v) == Emit(w)
    ensures v == w
  {
    CanonOfReadable(num, v);
    CanonOfReadable(num, w);
    ReadableIsWellFormed(num, v);
    ReadableIsWellFormed(num, w);
    CanonicalTextIffSameMeaning(v, w);
    SameMeaningSameCanon(v, w);
  }
}
