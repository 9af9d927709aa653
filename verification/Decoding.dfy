/** Which bytes decode, and to what: for all bytes, not only those the encoders write. */
module Decoding {
  import opened Bytes
  import opened Wrappers
  import opened Graph
  import opened PropertyValues
  import opened WalRecords
  import opened Format

  // ---- Values -----------------------------------------------------------------------------------------

  /** `b` says `v`: as the encoder writes it, but any byte other than 0 is true, and a map's entries come in any order. */
  ghost predicate Spells(v: PropertyValue, b: seq<byte>)
    decreases |b|, 0
  {
    match v
    case Null => b == [0]
    case Bool(x) => |b| == 2 && b[0] == 1 && (x <==> b[1] != 0)
    case Int(i) => |b| == 9 && b[0] == 2 && Little8(b, 1) == Unsigned(i)
    case Float(bits) => |b| == 9 && b[0] == 3 && Little8(b, 1) == bits
    case Str(s) => |b| == 5 + |s| && b[0] == 4 && Little4(b, 1) == |s| && b[5..] == s
    case DateTime(i) => |b| == 9 && b[0] == 5 && Little8(b, 1) == Unsigned(i)
    case Blob(x) => |b| == 5 + |x| && b[0] == 6 && Little4(b, 1) == |x| && b[5..] == x
    case List(items) => |b| >= 5 && b[0] == 7 && Little4(b, 1) == |items| && SpellsItems(items, b[5..])
    case Map(entries) =>
      |b| >= 5 && b[0] == 8 && exists raw: seq<Entry> :: Little4(b, 1) == |raw| && SpellsEntries(raw, b[5..]) && Latest(raw, entries)
  }

  ghost predicate SpellsItems(items: seq<PropertyValue>, b: seq<byte>)
    decreases |b|, 1 + |items|
  {
    if items == [] then b == []
    else exists n: nat :: n <= |b| && Spells(items[0], b[..n]) && SpellsItems(items[1..], b[n..])
  }

  ghost predicate SpellsEntries(raw: seq<Entry>, b: seq<byte>)
    decreases |b|, 1 + |raw|
  {
    if raw == [] then b == []
    else
      var k := 4 + |raw[0].key|;
      && |b| >= k && Little4(b, 0) == |raw[0].key| && b[4..k] == raw[0].key
      && exists n: nat :: k <= n <= |b| && Spells(raw[0].value, b[k..n]) && SpellsEntries(raw[1..], b[n..])
  }

  /** `e` is the last of its key in `raw`. */
  ghost predicate LastOf(raw: seq<Entry>, e: Entry) {
    exists i :: 0 <= i < |raw| && raw[i] == e && forall j :: i < j < |raw| ==> raw[j].key != e.key
  }

  /** The entries of a map: the last of every key, by key. */
  ghost predicate Latest(raw: seq<Entry>, entries: seq<Entry>) {
    Ascending(entries) && forall e: Entry :: e in entries <==> LastOf(raw, e)
  }

  // ---- Maps -------------------------------------------------------------------------------------------

  function InsertAll(acc: seq<Entry>, raw: seq<Entry>): seq<Entry>
    decreases |raw|
  {
    if raw == [] then acc else InsertAll(Insert(acc, raw[0]), raw[1..])
  }

  lemma {:induction false} InsertSnoc(acc: seq<Entry>, raw: seq<Entry>, e: Entry)
    ensures InsertAll(acc, raw + [e]) == Insert(InsertAll(acc, raw), e)
    decreases |raw|
  {
    hide Insert;
    if raw == [] {
      assert (raw + [e])[1..] == [];
    } else {
      assert (raw + [e])[1..] == raw[1..] + [e];
      InsertSnoc(Insert(acc, raw[0]), raw[1..], e);
    }
  }

  lemma {:induction false} InsertHas(entries: seq<Entry>, e: Entry, x: Entry)
    requires Ascending(entries)
    ensures x in Insert(entries, e) <==> x == e || (x in entries && x.key != e.key)
  {
    if entries != [] {
      var head, tail := entries[0], entries[1..];
      assert entries == [head] + tail;
      forall i | 0 <= i < |tail| ensures LexLess(head.key, tail[i].key) { assert tail[i] == entries[i + 1]; }
      LexIrreflexive(e.key);
      if LexLess(e.key, head.key) {
        forall i | 0 <= i < |entries| ensures entries[i].key != e.key {
          if i > 0 { LexTransitive(e.key, head.key, entries[i].key); }
        }
      } else if e.key == head.key {
        assert forall i :: 0 <= i < |tail| ==> tail[i].key != e.key;
      } else {
        InsertHas(tail, e, x);
      }
    }
  }

  lemma {:induction false} InsertAscends(entries: seq<Entry>, e: Entry)
    requires Ascending(entries)
    ensures Ascending(Insert(entries, e))
    ensures forall k :: (forall x :: x in entries ==> LexLess(k, x.key)) && LexLess(k, e.key) ==> forall x :: x in Insert(entries, e) ==> LexLess(k, x.key)
  {
    forall x ensures x in Insert(entries, e) ==> x == e || x in entries { InsertHas(entries, e, x); }
    if entries != [] {
      var head, tail := entries[0], entries[1..];
      if LexLess(e.key, head.key) {
        forall i | 0 <= i < |entries| ensures LexLess(e.key, entries[i].key) {
          if i > 0 { LexTransitive(e.key, head.key, entries[i].key); }
        }
      } else if e.key != head.key {
        InsertAscends(tail, e);
        LexTotal(e.key, head.key);
        var rest := Insert(tail, e);
        assert forall x :: x in tail ==> LexLess(head.key, x.key);
        assert Insert(entries, e) == [head] + rest;
        forall i | 0 <= i < |rest| ensures LexLess(head.key, rest[i].key) { assert rest[i] in rest; }
      }
    }
  }

  lemma LastSnoc(raw: seq<Entry>, e: Entry, x: Entry)
    ensures LastOf(raw + [e], x) <==> x == e || (LastOf(raw, x) && x.key != e.key)
  {
    var more := raw + [e];
    if x == e { assert more[|raw|] == e; }
    if LastOf(raw, x) && x.key != e.key {
      var i :| 0 <= i < |raw| && raw[i] == x && forall j :: i < j < |raw| ==> raw[j].key != x.key;
      assert more[i] == x;
    }
    if LastOf(more, x) && x != e {
      var i :| 0 <= i < |more| && more[i] == x && forall j :: i < j < |more| ==> more[j].key != x.key;
      assert raw[i] == x && more[|raw|].key != x.key;
      forall j | i < j < |raw| ensures raw[j].key != x.key { assert more[j] == raw[j]; }
    }
  }

  lemma {:induction false} InsertedLatest(raw: seq<Entry>)
    ensures Latest(raw, InsertAll([], raw))
  {
    hide Insert;
    if raw != [] {
      var n := |raw| - 1;
      var front, e := raw[..n], raw[n];
      assert raw == front + [e];
      InsertedLatest(front);
      InsertSnoc([], front, e);
      InsertAscends(InsertAll([], front), e);
      forall x: Entry ensures x in InsertAll([], raw) <==> LastOf(raw, x) {
        InsertHas(InsertAll([], front), e, x);
        LastSnoc(front, e, x);
      }
    }
  }

  /** Ascending lists with the same entries are the same. */
  lemma {:induction false} AscendingUnique(a: seq<Entry>, b: seq<Entry>)
    requires Ascending(a) && Ascending(b) && forall x :: x in a <==> x in b
    ensures a == b
  {
    if a == [] {
      FirstIn(b);
    } else {
      assert a[0] in b;
      assert b[0] in a;
      FirstSame(a, b);
      assert a == [a[0]] + a[1..] && b == [b[0]] + b[1..];
      forall x ensures x in a[1..] <==> x in b[1..] {
        NotAgain(a, x);
        NotAgain(b, x);
      }
      AscendingUnique(a[1..], b[1..]);
    }
  }

  lemma FirstIn(b: seq<Entry>)
    ensures b == [] || b[0] in b
  {
  }

  lemma FirstSame(a: seq<Entry>, b: seq<Entry>)
    requires Ascending(a) && Ascending(b) && a != [] && b != [] && a[0] in b && b[0] in a
    ensures a[0] == b[0]
  {
    var i :| 0 <= i < |a| && a[i] == b[0];
    var j :| 0 <= j < |b| && b[j] == a[0];
    if i > 0 && j > 0 {
      LexTransitive(a[0].key, b[0].key, a[0].key);
      LexIrreflexive(a[0].key);
    }
  }

  lemma NotAgain(a: seq<Entry>, x: Entry)
    requires Ascending(a) && a != []
    ensures x in a[1..] <==> x in a && x != a[0]
  {
    LexIrreflexive(a[0].key);
    assert a == [a[0]] + a[1..];
    forall i | 0 <= i < |a[1..]| ensures a[1..][i] != a[0] { assert a[1..][i] == a[i + 1]; }
  }

  // ---- What the decoder reads ---------------------------------------------------------------------------

  lemma Front(b: seq<byte>, k: nat, i: nat, j: nat)
    requires i <= j <= k <= |b|
    ensures b[..k][i..j] == b[i..j] && b[i..][..k - i] == b[i..k] == b[..k][i..]
  {
  }

  /** A scalar decodes exactly if it is spelled out at the front. */
  lemma ScalarIff(b: seq<byte>, v: PropertyValue, k: nat)
    requires b != [] && b[0] != 7 && b[0] != 8
    ensures DecodeScalar(b) == Good(v, k) <==> k <= |b| && Spells(v, b[..k]) && Scalar(v)
  {
    hide Little4, Little8, U32Of, U64Of;
    if |b| >= 5 {
      Reads4(b, 1);
      if 5 <= k <= |b| { Front(b, k, 1, 5); Reads4(b[..k], 1); Front(b, k, 5, k); }
    }
    if |b| >= 9 {
      Reads8(b, 1);
      if 9 <= k <= |b| { Front(b, k, 1, 9); Reads8(b[..k], 1); }
    }
    if 1 <= k <= |b| { assert b[..k][0] == b[0]; }
    if 2 <= k <= |b| { assert b[..k][1] == b[1]; }
  }

  lemma ItemsCons(v: PropertyValue, items: seq<PropertyValue>, b: seq<byte>, n: nat)
    requires n <= |b| && Spells(v, b[..n]) && SpellsItems(items, b[n..])
    ensures SpellsItems([v] + items, b)
  {
    hide Spells;
    assert ([v] + items)[1..] == items;
  }

  lemma EntriesCons(e: Entry, raw: seq<Entry>, b: seq<byte>, n: nat)
    requires 4 + |e.key| <= n <= |b| && Little4(b, 0) == |e.key| && b[4..4 + |e.key|] == e.key
    requires Spells(e.value, b[4 + |e.key|..n]) && SpellsEntries(raw, b[n..])
    ensures SpellsEntries([e] + raw, b)
  {
    hide Spells, Little4;
    assert ([e] + raw)[1..] == raw;
  }

  lemma SpellsList(items: seq<PropertyValue>, b: seq<byte>, k: nat)
    requires 5 <= k <= |b| && b[0] == 7 && U32Of(b[1..5]) == |items|
    ensures Spells(List(items), b[..k]) <==> SpellsItems(items, b[5..][..k - 5])
  {
    hide SpellsItems, U32Of, Little4;
    Front(b, k, 1, 5);
    Front(b, k, 5, k);
    Reads4(b[..k], 1);
  }

  lemma SpellsMap(raw: seq<Entry>, entries: seq<Entry>, b: seq<byte>, k: nat)
    requires 5 <= k <= |b| && b[0] == 8 && U32Of(b[1..5]) == |raw|
    requires SpellsEntries(raw, b[5..][..k - 5]) && Latest(raw, entries)
    ensures Spells(Map(entries), b[..k])
  {
    hide SpellsEntries, U32Of, Little4, Latest;
    Front(b, k, 1, 5);
    Front(b, k, 5, k);
    Reads4(b[..k], 1);
  }

  /** What decodes is spelled out in the bytes it took. */
  lemma {:induction false} DecodedSpells(b: seq<byte>)
    requires DecodeValue(b).Good?
    ensures Spells(DecodeValue(b).value, b[..DecodeValue(b).consumed])
    decreases |b|, 0
  {
    hide Spells, SpellsItems, SpellsEntries, Latest, DecodeScalar, DecodeItems, DecodeEntries;
    var r := DecodeValue(b);
    if b[0] != 7 && b[0] != 8 {
      ScalarIff(b, r.value, r.consumed);
    } else if b[0] == 7 {
      DecodedItems(b[5..], U32Of(b[1..5]));
      SpellsList(r.value.items, b, r.consumed);
    } else {
      var raw := DecodedEntries(b[5..], U32Of(b[1..5]), []);
      InsertedLatest(raw);
      SpellsMap(raw, r.value.entries, b, r.consumed);
    }
  }

  lemma {:induction false} DecodedItems(b: seq<byte>, count: nat)
    requires DecodeItems(b, count).Good?
    ensures var r := DecodeItems(b, count); |r.value| == count && SpellsItems(r.value, b[..r.consumed])
    decreases |b|, 1 + count
  {
    hide Spells, DecodeValue;
    if count > 0 {
      var head := DecodeValue(b);
      var h := head.consumed;
      DecodedSpells(b);
      DecodedItems(b[h..], count - 1);
      var tail := DecodeItems(b[h..], count - 1);
      var k := h + tail.consumed;
      Front(b, k, 0, h);
      Front(b, k, h, k);
      ItemsCons(head.value, tail.value, b[..k], h);
    }
  }

  lemma EntryAt(b: seq<byte>)
    requires DecodeEntry(b).Good?
    ensures var r := DecodeEntry(b);
            var k := 4 + |r.value.key|;
            && k <= r.consumed && Little4(b, 0) == |r.value.key| && b[4..k] == r.value.key
            && DecodeValue(b[k..]) == Good(r.value.value, r.consumed - k)
  {
    hide DecodeValue, U32Of, Little4;
    Reads4(b, 0);
  }

  lemma {:induction false} DecodedEntries(b: seq<byte>, count: nat, acc: seq<Entry>) returns (raw: seq<Entry>)
    requires DecodeEntries(b, count, acc).Good?
    ensures var r := DecodeEntries(b, count, acc); |raw| == count && SpellsEntries(raw, b[..r.consumed]) && r.value == InsertAll(acc, raw)
    decreases |b|, 1 + count
  {
    hide Spells, DecodeValue, DecodeEntry, Insert, Little4;
    if count == 0 {
      raw := [];
    } else {
      var e := DecodeEntry(b);
      var k, n := 4 + |e.value.key|, e.consumed;
      EntryAt(b);
      DecodedSpells(b[k..]);
      raw := DecodedEntries(b[n..], count - 1, Insert(acc, e.value));
      var all := DecodeEntries(b, count, acc).consumed;
      Front(b, all, n, all);
      Front(b, all, 4, k);
      KeyStays(b, all);
      assert b[..all][k..n] == b[k..][..n - k];
      EntriesCons(e.value, raw, b[..all], n);
      raw := [e.value] + raw;
    }
  }

  lemma KeyStays(b: seq<byte>, k: nat)
    requires 4 <= k <= |b|
    ensures Little4(b[..k], 0) == Little4(b, 0)
  {
  }

  lemma Tagged(v: PropertyValue, b: seq<byte>, k: nat)
    requires k <= |b| && Spells(v, b[..k])
    ensures k >= 1 && (if v.List? then b[0] == 7 && k >= 5 else if v.Map? then b[0] == 8 && k >= 5 else b[0] < 7)
    ensures v.List? ==> U32Of(b[1..5]) == |v.items|
  {
    hide SpellsItems, SpellsEntries, Latest, Little4, Little8, U32Of;
    assert b[..k][0] == b[0];
    if k >= 5 {
      Front(b, k, 1, 5);
      Reads4(b[..k], 1);
    }
  }

  lemma RawOf(entries: seq<Entry>, b: seq<byte>, k: nat) returns (raw: seq<Entry>)
    requires k <= |b| && Spells(Map(entries), b[..k])
    ensures 5 <= k && U32Of(b[1..5]) == |raw| && SpellsEntries(raw, b[5..][..k - 5]) && Latest(raw, entries)
  {
    hide SpellsEntries, Latest, Little4, U32Of;
    raw :| Little4(b[..k], 1) == |raw| && SpellsEntries(raw, b[..k][5..]) && Latest(raw, entries);
    Front(b, k, 1, 5);
    Front(b, k, 5, k);
    Reads4(b[..k], 1);
  }

  lemma LatestUnique(raw: seq<Entry>, a: seq<Entry>, b: seq<Entry>)
    requires Latest(raw, a) && Latest(raw, b)
    ensures a == b
  {
    hide Ascending;
    AscendingUnique(a, b);
  }

  /** What is spelled out at the front decodes, whatever follows. */
  lemma {:induction false} SpelledDecodes(v: PropertyValue, b: seq<byte>, k: nat)
    requires k <= |b| && Spells(v, b[..k])
    ensures DecodeValue(b) == Good(v, k)
    decreases k, 0
  {
    hide Spells, SpellsItems, SpellsEntries, Latest, DecodeScalar, DecodeItems, DecodeEntries, U32Of;
    Tagged(v, b, k);
    if v.List? {
      SpellsList(v.items, b, k);
      SpelledItems(v.items, b[5..], k - 5);
    } else if v.Map? {
      var raw := RawOf(v.entries, b, k);
      SpelledEntries(raw, b[5..], k - 5, []);
      InsertedLatest(raw);
      LatestUnique(raw, v.entries, InsertAll([], raw));
    } else {
      ScalarIff(b, v, k);
    }
  }

  lemma {:induction false} SpelledItems(items: seq<PropertyValue>, b: seq<byte>, k: nat)
    requires k <= |b| && SpellsItems(items, b[..k])
    ensures DecodeItems(b, |items|) == Good(items, k)
    decreases k, 1 + |items|
  {
    hide Spells, DecodeValue;
    if items != [] {
      var n: nat :| n <= k && Spells(items[0], b[..k][..n]) && SpellsItems(items[1..], b[..k][n..]);
      Front(b, k, n, k);
      assert b[..k][..n] == b[..n];
      SpelledDecodes(items[0], b, n);
      SpelledItems(items[1..], b[n..], k - n);
      assert items == [items[0]] + items[1..];
    }
  }

  lemma KeyDecodes(key: Utf8, b: seq<byte>)
    requires 4 + |key| <= |b| && Little4(b, 0) == |key| && b[4..4 + |key|] == key
    ensures DecodeKey(b) == Good(key, 4 + |key|)
  {
    hide U32Of, Little4, ValidUtf8;
    Reads4(b, 0);
  }

  lemma EntryDecodes(e: Entry, b: seq<byte>, n: nat)
    requires 4 + |e.key| <= n <= |b| && Little4(b, 0) == |e.key| && b[4..4 + |e.key|] == e.key
    requires DecodeValue(b[4 + |e.key|..]) == Good(e.value, n - (4 + |e.key|))
    ensures DecodeEntry(b) == Good(e, n)
  {
    hide DecodeValue, DecodeKey, Little4;
    KeyDecodes(e.key, b);
  }

  lemma FirstEntry(raw: seq<Entry>, b: seq<byte>, k: nat) returns (n: nat)
    requires k <= |b| && raw != [] && SpellsEntries(raw, b[..k])
    ensures var at := 4 + |raw[0].key|;
            && at <= n <= k && Little4(b, 0) == |raw[0].key| && b[4..at] == raw[0].key
            && Spells(raw[0].value, b[at..][..n - at]) && SpellsEntries(raw[1..], b[n..][..k - n])
  {
    hide Spells, Little4;
    var at := 4 + |raw[0].key|;
    n :| at <= n <= k && Spells(raw[0].value, b[..k][at..n]) && SpellsEntries(raw[1..], b[..k][n..]);
    Front(b, k, n, k);
    Front(b, k, 4, at);
    KeyStays(b, k);
    assert b[..k][at..n] == b[at..][..n - at];
  }

  lemma {:induction false} SpelledEntries(raw: seq<Entry>, b: seq<byte>, k: nat, acc: seq<Entry>)
    requires k <= |b| && SpellsEntries(raw, b[..k])
    ensures DecodeEntries(b, |raw|, acc) == Good(InsertAll(acc, raw), k)
    decreases k, 1 + |raw|
  {
    hide Spells, DecodeValue, DecodeEntry, Insert, Little4;
    if raw != [] {
      var n := FirstEntry(raw, b, k);
      var at := 4 + |raw[0].key|;
      SpelledDecodes(raw[0].value, b[at..], n - at);
      EntryDecodes(raw[0], b, n);
      SpelledEntries(raw[1..], b[n..], k - n, Insert(acc, raw[0]));
    }
  }

  /** For all bytes: the decoder returns `v` and takes `k` bytes exactly when those bytes spell `v`. */
  lemma ValueDecodesIff(b: seq<byte>, v: PropertyValue, k: nat)
    ensures DecodeValue(b) == Good(v, k) <==> k <= |b| && Spells(v, b[..k])
  {
    hide Spells, DecodeValue;
    if DecodeValue(b) == Good(v, k) { DecodedSpells(b); }
    if k <= |b| && Spells(v, b[..k]) { SpelledDecodes(v, b, k); }
  }

  // ---- Log records ----------------------------------------------------------------------------------------

  /** `b` says `r`: as the encoder writes it; behind a manifest, a label name and a value further bytes are passed over. */
  ghost predicate Says(b: seq<byte>, r: WalRecord) {
    match r
    case ManifestSwitch(_, segments, _, _) => |b| >= 29 + 16 * |segments| && RecordLaidOut(r, b[..29 + 16 * |segments|])
    case CreateLabel(name, _) => |b| >= 9 + |name| && RecordLaidOut(r, b[..9 + |name|])
    case SetNodeProperty(n, key, v) => |b| >= 9 && b[0] == 11 && Little4(b, 1) == n && Named(b, 5, key) && Begins(b[9 + |key|..], v)
    case SetEdgeProperty(s, rel, d, key, v) =>
      |b| >= 17 && b[0] == 12 && Triple(b, 1, EdgeKey(s, rel, d)) && Named(b, 13, key) && Begins(b[17 + |key|..], v)
    case _ => RecordLaidOut(r, b)
  }

  ghost predicate Begins(b: seq<byte>, v: PropertyValue) { exists k: nat :: k <= |b| && Spells(v, b[..k]) }

  lemma BeginsIff(b: seq<byte>, v: PropertyValue)
    ensures Begins(b, v) <==> ValueOf(b) == Ok(v)
  {
    hide Spells, DecodeValue;
    if Begins(b, v) {
      var k: nat :| k <= |b| && Spells(v, b[..k]);
      ValueDecodesIff(b, v, k);
    }
    if ValueOf(b) == Ok(v) { ValueDecodesIff(b, v, DecodeValue(b).consumed); }
  }

  lemma Payload4(b: seq<byte>, at: nat)
    requires at + 5 <= |b|
    ensures W4(b[1..], at) == Little4(b, at + 1)
  {
    hide U32Of, Little4;
    Reads4(b, at + 1);
    assert b[1..][at..at + 4] == b[at + 1..at + 5];
  }

  lemma Payload8(b: seq<byte>, at: nat)
    requires at + 9 <= |b|
    ensures W8(b[1..], at) == Little8(b, at + 1)
  {
    hide U64Of, Little8;
    Reads8(b, at + 1);
    assert b[1..][at..at + 8] == b[at + 1..at + 9];
  }

  lemma SaysTag(b: seq<byte>, r: WalRecord)
    requires Says(b, r)
    ensures b != [] && b[0] == RecordType(r)
  {
    hide Little4, Little8, Begins, ValueLaidOut;
  }

  lemma DecodedTag(b: seq<byte>)
    requires b != [] && DecodeFixed(b[0], b[1..]).Ok?
    ensures b[0] == RecordType(DecodeFixed(b[0], b[1..]).value)
  {
    hide U64Of, U32Of;
  }

  lemma FixedIff(b: seq<byte>, r: WalRecord)
    requires b != [] && b[0] != 9 && !(11 <= b[0] <= 15)
    ensures DecodeFixed(b[0], b[1..]) == Ok(r) <==> Says(b, r)
  {
    hide W4, W8, U64Of, Little4, Little8, Spells, Says, DecodeFixed;
    if DecodeFixed(b[0], b[1..]).Ok? { DecodedTag(b); }
    if Says(b, r) { SaysTag(b, r); }
    if b[0] == RecordType(r) {
      if b[0] <= 4 { PageIff(b, r); } else if b[0] <= 8 { GraphIff(b, r); } else { OtherIff(b, r); }
    }
  }

  lemma PageIff(b: seq<byte>, r: WalRecord)
    requires b != [] && b[0] == RecordType(r) && b[0] <= 4
    ensures DecodeFixed(b[0], b[1..]) == Ok(r) <==> Says(b, r)
  {
    hide W4, W8, U64Of, Little4, Little8, Spells;
    if |b| >= 9 { Payload8(b, 0); Reads8(b, 1); assert |b| == 9 ==> b[1..9] == b[1..]; }
    if |b| == 8201 { assert b[1..][8..] == b[9..]; }
    match r
    case BeginTx(_) =>
    case CommitTx(_) =>
    case PageWrite(_, _) =>
    case PageFree(_) =>
  }

  lemma GraphIff(b: seq<byte>, r: WalRecord)
    requires b != [] && b[0] == RecordType(r) && 5 <= b[0] <= 8
    ensures DecodeFixed(b[0], b[1..]) == Ok(r) <==> Says(b, r)
  {
    hide W4, W8, U64Of, Little4, Little8, Spells;
    if |b| >= 5 { Payload4(b, 0); }
    if |b| >= 9 { Payload4(b, 4); Payload8(b, 0); }
    if |b| >= 13 { Payload4(b, 8); }
    if |b| >= 17 { Payload4(b, 12); }
    match r
    case CreateNode(_, _, _) =>
    case CreateEdge(_, _, _) =>
    case TombstoneNode(_) =>
    case TombstoneEdge(_, _, _) =>
  }

  lemma OtherIff(b: seq<byte>, r: WalRecord)
    requires b != [] && b[0] == RecordType(r) && (b[0] == 10 || b[0] >= 16)
    ensures DecodeFixed(b[0], b[1..]) == Ok(r) <==> Says(b, r)
  {
    hide W4, W8, U64Of, Little4, Little8, Spells;
    if |b| >= 9 { Payload4(b, 0); Payload4(b, 4); Payload8(b, 0); }
    if |b| >= 33 { Payload8(b, 8); Payload8(b, 16); Payload8(b, 24); }
    match r
    case Checkpoint(_, _, _, _) =>
    case AddNodeLabel(_, _) =>
    case RemoveNodeLabel(_, _) =>
  }

  lemma Within(p: seq<byte>, b: seq<byte>, at: nat, n: nat, i: nat, j: nat)
    requires n <= |p| && at + n <= |b| && p[..n] == b[at..at + n] && i <= j <= n
    ensures p[i..j] == b[at + i..at + j]
  {
    forall k | 0 <= k < j - i ensures p[i..j][k] == b[at + i..at + j][k] { assert p[..n][i + k] == b[at..at + n][i + k]; }
  }

  lemma {:induction false} PointersIff(p: seq<byte>, b: seq<byte>, at: nat, count: nat, segments: seq<SegmentPointer>)
    requires |p| >= 16 * count && at + 16 * count <= |b| && p[..16 * count] == b[at..at + 16 * count]
    ensures Pointers(p, count) == segments <==> |segments| == count && PointersLaidOut(b, at, segments)
    decreases count
  {
    hide Little8, U64Of;
    if count > 0 && |segments| == count {
      Within(p, b, at, 16 * count, 0, 8);
      Within(p, b, at, 16 * count, 8, 16);
      Reads8(b, at);
      Reads8(b, at + 8);
      Within(p, b, at, 16 * count, 16, 16 * count);
      assert p[16..][..16 * (count - 1)] == p[16..16 * count];
      PointersIff(p[16..], b, at + 16, count - 1, segments[1..]);
      PointersHead(b, at, segments);
      assert segments == [segments[0]] + segments[1..];
    }
  }

  lemma PointersHead(b: seq<byte>, at: nat, segments: seq<SegmentPointer>)
    requires segments != [] && at + 16 * |segments| <= |b|
    ensures PointersLaidOut(b, at, segments) <==>
              Little8(b, at) == segments[0].id && Little8(b, at + 8) == segments[0].metaPageId && PointersLaidOut(b, at + 16, segments[1..])
  {
    hide Little8;
    if PointersLaidOut(b, at + 16, segments[1..]) && Little8(b, at) == segments[0].id && Little8(b, at + 8) == segments[0].metaPageId {
      forall i | 0 <= i < |segments|
        ensures Little8(b, at + 16 * i) == segments[i].id && Little8(b, at + 16 * i + 8) == segments[i].metaPageId
      {
        if i > 0 { assert segments[1..][i - 1] == segments[i] && at + 16 + 16 * (i - 1) == at + 16 * i; }
      }
    }
    if PointersLaidOut(b, at, segments) {
      forall i | 0 <= i < |segments[1..]|
        ensures Little8(b, at + 16 + 16 * i) == segments[1..][i].id && Little8(b, at + 16 + 16 * i + 8) == segments[1..][i].metaPageId
      {
        assert segments[1..][i] == segments[i + 1] && at + 16 + 16 * i == at + 16 * (i + 1);
      }
    }
  }

  lemma ManifestIff(b: seq<byte>, r: WalRecord)
    requires b != [] && b[0] == 9 && r.ManifestSwitch?
    ensures DecodeManifest(b[1..]) == Ok(r) <==> Says(b, r)
  {
    hide W4, W8, U32Of, U64Of, Little4, Little8, Pointers, PointersLaidOut;
    var p, n := b[1..], |r.segments|;
    var end := 12 + 16 * n;
    if |b| >= 29 {
      Payload8(b, 0);
      Payload4(b, 8);
      if |p| >= end + 16 {
        Payload8(b, end);
        Payload8(b, end + 8);
        ManifestFront(b, end + 17);
        assert p[12..][..16 * n] == b[13..13 + 16 * n];
        PointersIff(p[12..], b, 13, n, r.segments);
        PointersFront(b, end + 17, 13, r.segments);
      }
    }
  }

  lemma ManifestFront(b: seq<byte>, k: nat)
    requires 29 <= k <= |b|
    ensures b[..k][0] == b[0] && Little8(b[..k], 1) == Little8(b, 1) && Little4(b[..k], 9) == Little4(b, 9)
    ensures Little8(b[..k], k - 16) == Little8(b, k - 16) && Little8(b[..k], k - 8) == Little8(b, k - 8)
  {
  }

  lemma PointersFront(b: seq<byte>, k: nat, at: nat, segments: seq<SegmentPointer>)
    requires at + 16 * |segments| <= k <= |b|
    ensures PointersLaidOut(b[..k], at, segments) <==> PointersLaidOut(b, at, segments)
  {
    hide Little8;
    forall i | 0 <= i < |segments|
      ensures Little8(b[..k], at + 16 * i) == Little8(b, at + 16 * i) && Little8(b[..k], at + 16 * i + 8) == Little8(b, at + 16 * i + 8)
    {
      WordFront(b, k, at + 16 * i);
      WordFront(b, k, at + 16 * i + 8);
    }
  }

  lemma WordFront(b: seq<byte>, k: nat, at: nat)
    requires at + 8 <= k <= |b|
    ensures Little8(b[..k], at) == Little8(b, at)
  {
  }

  lemma NameIff(b: seq<byte>, at: nat, key: Utf8)
    requires b != []
    ensures NameAt(b[1..], at).Ok? && NameAt(b[1..], at).value.0 == key <==> Named(b, at + 1, key)
    ensures NameAt(b[1..], at).Ok? ==> |b| >= at + 5 + |NameAt(b[1..], at).value.0| && NameAt(b[1..], at).value.1 == b[at + 5 + |NameAt(b[1..], at).value.0|..]
  {
    hide W4, Little4, ValidUtf8;
    if |b| >= at + 5 {
      Payload4(b, at);
      var k := W4(b[1..], at);
      if |b| >= at + 5 + k { assert b[1..][at + 4..at + 4 + k] == b[at + 5..at + 5 + k] && b[1..][at + 4 + k..] == b[at + 5 + k..]; }
    }
  }

  lemma NamedIff(b: seq<byte>, r: WalRecord)
    requires b != [] && 11 <= b[0] <= 15 && b[0] == RecordType(r)
    ensures DecodeNamed(b[0], b[1..]) == Ok(r) <==> Says(b, r)
  {
    hide W4, Little4, Little8, NameAt, Begins, Named, ValueOf;
    if |b| >= 5 { Payload4(b, 0); }
    if |b| >= 13 { Payload4(b, 4); Payload4(b, 8); }
    match r
    case SetNodeProperty(_, key, v) => NameIff(b, 4, key); KeyPlace(b, 5, key); if Named(b, 5, key) { BeginsIff(b[9 + |key|..], v); }
    case SetEdgeProperty(_, _, _, key, v) => NameIff(b, 12, key); KeyPlace(b, 13, key); if Named(b, 13, key) { BeginsIff(b[17 + |key|..], v); }
    case RemoveNodeProperty(_, key) => NameIff(b, 4, key); KeyPlace(b, 5, key);
    case RemoveEdgeProperty(_, _, _, key) => NameIff(b, 12, key); KeyPlace(b, 13, key);
    case CreateLabel(name, _) => NameIff(b, 4, name); KeyPlace(b, 5, name); LabelFront(b, name);
  }

  lemma KeyPlace(b: seq<byte>, at: nat, key: seq<byte>)
    ensures Named(b, at, key) ==> |b| >= at + 4 + |key|
  {
  }

  lemma LabelFront(b: seq<byte>, name: seq<byte>)
    ensures Named(b, 5, name) ==> b[..9 + |name|][0] == b[0] && Little4(b[..9 + |name|], 1) == Little4(b, 1) && Named(b[..9 + |name|], 5, name)
    ensures |b| >= 9 + |name| && Named(b[..9 + |name|], 5, name) ==> Named(b, 5, name) && Little4(b[..9 + |name|], 1) == Little4(b, 1)
  {
    if |b| >= 9 + |name| { assert b[..9 + |name|][9..] == b[9..9 + |name|]; }
  }

  /** For all bytes: the body decodes to `r` exactly when it says `r`. */
  lemma RecordDecodesIff(b: seq<byte>, r: WalRecord)
    ensures DecodeBody(b) == Ok(r) <==> Says(b, r)
  {
    hide Says, DecodeFixed, DecodeManifest, DecodeNamed;
    if Says(b, r) { SaysTag(b, r); }
    if b != [] {
      if b[0] == 9 {
        ManifestTag(b[1..]);
        if r.ManifestSwitch? { ManifestIff(b, r); }
      } else if 11 <= b[0] <= 15 {
        NamedTag(b[0], b[1..]);
        if b[0] == RecordType(r) { NamedIff(b, r); }
      } else {
        FixedIff(b, r);
      }
    }
  }

  lemma ManifestTag(p: seq<byte>)
    ensures DecodeManifest(p).Ok? ==> DecodeManifest(p).value.ManifestSwitch?
  {
  }

  lemma NamedTag(ty: byte, p: seq<byte>)
    requires 11 <= ty <= 15
    ensures DecodeNamed(ty, p).Ok? ==> RecordType(DecodeNamed(ty, p).value) == ty
  {
    hide NameAt, ValueOf;
  }
}
