/** Property values and their byte codec. A `BTreeMap` is its entries in ascending key order. */
module PropertyValues {
  import opened Bytes

  datatype PropertyValue =
    | Null
    | Bool(b: bool)
    | Int(i: i64)
    | Float(bits: u64)
    | Str(s: Utf8)
    | DateTime(micros: i64)
    | Blob(bytes: seq<byte>)
    | List(items: seq<PropertyValue>)
    | Map(entries: seq<Entry>)

  datatype Entry = Entry(key: Utf8, value: PropertyValue)

  datatype DecodeError = Empty | InvalidLength | InvalidUtf8 | UnknownType(ty: byte)

  datatype Decoded<+T> = Good(value: T, consumed: nat) | Bad(error: DecodeError)

  predicate Ascending(entries: seq<Entry>) {
    forall i, j :: 0 <= i < j < |entries| ==> LexLess(entries[i].key, entries[j].key)
  }

  /** What the Rust type and the `u32::try_from(..).expect` calls demand of a value. */
  predicate Encodable(v: PropertyValue)
    decreases v, 1
  {
    match v
    case Str(s) => |s| <= U32_MAX
    case Blob(b) => |b| <= U32_MAX
    case List(items) => |items| <= U32_MAX && EncodableItems(items)
    case Map(entries) => |entries| <= U32_MAX && Ascending(entries) && EncodableEntries(entries)
    case _ => true
  }

  predicate EncodableItems(items: seq<PropertyValue>)
    decreases items, 0
  {
    items == [] || (Encodable(items[0]) && EncodableItems(items[1..]))
  }

  predicate EncodableEntries(entries: seq<Entry>)
    decreases entries, 0
  {
    entries == []
    || (|entries[0].key| <= U32_MAX && Encodable(entries[0].value) && EncodableEntries(entries[1..]))
  }

  predicate Scalar(v: PropertyValue) { !v.List? && !v.Map? }

  // ---- Encoding -------------------------------------------------------------

  function EncodeScalar(v: PropertyValue): (b: seq<byte>)
    requires Scalar(v) && Encodable(v)
    ensures |b| >= 1 && b[0] <= 6
  {
    match v
    case Null => [0]
    case Bool(b) => [1, if b then 1 else 0]
    case Int(i) => [2] + I64Bytes(i)
    case Float(bits) => [3] + U64Bytes(bits)
    case Str(s) => [4] + U32Bytes(|s|) + s
    case DateTime(i) => [5] + I64Bytes(i)
    case Blob(b) => [6] + U32Bytes(|b|) + b
  }

  function Encode(v: PropertyValue): (b: seq<byte>)
    requires Encodable(v)
    ensures |b| >= 1
    decreases v, 1
  {
    match v
    case List(items) => [7] + U32Bytes(|items|) + EncodeItems(items)
    case Map(entries) => [8] + U32Bytes(|entries|) + EncodeEntries(entries)
    case _ => EncodeScalar(v)
  }

  function EncodeItems(items: seq<PropertyValue>): seq<byte>
    requires EncodableItems(items)
    decreases items, 0
  {
    if items == [] then [] else Encode(items[0]) + EncodeItems(items[1..])
  }

  function EncodeEntries(entries: seq<Entry>): seq<byte>
    requires EncodableEntries(entries)
    decreases entries, 0
  {
    if entries == [] then []
    else KeyBytes(entries[0].key) + Encode(entries[0].value) + EncodeEntries(entries[1..])
  }

  function KeyBytes(key: seq<byte>): (b: seq<byte>)
    requires |key| <= U32_MAX
    ensures |b| == 4 + |key|
  {
    U32Bytes(|key|) + key
  }

  // ---- Decoding -------------------------------------------------------------

  function DecodeScalar(b: seq<byte>): (r: Decoded<PropertyValue>)
    requires b != [] && b[0] != 7 && b[0] != 8
    ensures r.Good? ==> 1 <= r.consumed <= |b|
  {
    if b[0] == 0 then Good(Null, 1)
    else if b[0] == 1 then
      if |b| < 2 then Bad(InvalidLength) else Good(Bool(b[1] != 0), 2)
    else if b[0] == 2 then
      if |b| < 9 then Bad(InvalidLength) else Good(Int(I64Of(b[1..9])), 9)
    else if b[0] == 3 then
      if |b| < 9 then Bad(InvalidLength) else Good(Float(U64Of(b[1..9])), 9)
    else if b[0] == 5 then
      if |b| < 9 then Bad(InvalidLength) else Good(DateTime(I64Of(b[1..9])), 9)
    else if b[0] > 8 then Bad(UnknownType(b[0]))
    else if |b| < 5 then Bad(InvalidLength)
    else
      var n := U32Of(b[1..5]);
      if |b| < 5 + n then Bad(InvalidLength)
      else if b[0] == 6 then Good(Blob(b[5..5 + n]), 5 + n)
      else if ValidUtf8(b[5..5 + n]) then Good(Str(b[5..5 + n]), 5 + n)
      else Bad(InvalidUtf8)
  }

  function DecodeValue(b: seq<byte>): (r: Decoded<PropertyValue>)
    ensures r.Good? ==> 1 <= r.consumed <= |b|
    decreases |b|, 0
  {
    if b == [] then Bad(Empty)
    else if b[0] != 7 && b[0] != 8 then DecodeScalar(b)
    else if |b| < 5 then Bad(InvalidLength)
    else if b[0] == 7 then AsList(DecodeItems(b[5..], U32Of(b[1..5])))
    else AsMap(DecodeEntries(b[5..], U32Of(b[1..5]), []))
  }

  function AsList(r: Decoded<seq<PropertyValue>>): Decoded<PropertyValue> {
    if r.Bad? then Bad(r.error) else Good(List(r.value), 5 + r.consumed)
  }

  function AsMap(r: Decoded<seq<Entry>>): Decoded<PropertyValue> {
    if r.Bad? then Bad(r.error) else Good(Map(r.value), 5 + r.consumed)
  }

  function DecodeItems(b: seq<byte>, count: nat): (r: Decoded<seq<PropertyValue>>)
    ensures r.Good? ==> r.consumed <= |b|
    decreases |b|, 1 + count
  {
    if count == 0 then Good([], 0)
    else
      var head := DecodeValue(b);
      if head.Bad? then Bad(head.error)
      else ConsItem(head, DecodeItems(b[head.consumed..], count - 1))
  }

  function ConsItem(head: Decoded<PropertyValue>, tail: Decoded<seq<PropertyValue>>): Decoded<seq<PropertyValue>>
    requires head.Good?
  {
    if tail.Bad? then tail else Good([head.value] + tail.value, head.consumed + tail.consumed)
  }

  /** `BTreeMap::insert` on an ascending entry list. */
  function Insert(entries: seq<Entry>, e: Entry): seq<Entry> {
    if entries == [] then [e]
    else if LexLess(e.key, entries[0].key) then [e] + entries
    else if e.key == entries[0].key then [e] + entries[1..]
    else [entries[0]] + Insert(entries[1..], e)
  }

  /** The length-prefixed key at the front of `b`. */
  function DecodeKey(b: seq<byte>): (r: Decoded<Utf8>)
    ensures r.Good? ==> 4 <= r.consumed <= |b|
  {
    if |b| < 4 then Bad(InvalidLength)
    else
      var k := U32Of(b[0..4]);
      if |b| < 4 + k then Bad(InvalidLength)
      else if !ValidUtf8(b[4..4 + k]) then Bad(InvalidUtf8)
      else Good(b[4..4 + k], 4 + k)
  }

  function DecodeEntry(b: seq<byte>): (r: Decoded<Entry>)
    ensures r.Good? ==> 1 <= r.consumed <= |b|
    decreases |b|, 1
  {
    var k := DecodeKey(b);
    if k.Bad? then Bad(k.error)
    else
      var v := DecodeValue(b[k.consumed..]);
      if v.Bad? then Bad(v.error) else Good(Entry(k.value, v.value), k.consumed + v.consumed)
  }

  function DecodeEntries(b: seq<byte>, count: nat, acc: seq<Entry>): (r: Decoded<seq<Entry>>)
    ensures r.Good? ==> r.consumed <= |b|
    decreases |b|, 2 + count
  {
    if count == 0 then Good(acc, 0)
    else
      var e := DecodeEntry(b);
      if e.Bad? then Bad(e.error)
      else Skip(e.consumed, DecodeEntries(b[e.consumed..], count - 1, Insert(acc, e.value)))
  }

  function Skip<T>(used: nat, tail: Decoded<T>): Decoded<T> {
    if tail.Bad? then tail else Good(tail.value, used + tail.consumed)
  }

  // ---- Round trip -----------------------------------------------------------

  lemma {:induction false} InsertLast(entries: seq<Entry>, e: Entry)
    requires Ascending(entries + [e])
    ensures Insert(entries, e) == entries + [e]
  {
    if entries != [] {
      var whole := entries + [e];
      assert LexLess(whole[0].key, whole[|entries|].key);
      LexIrreflexive(e.key);
      if LexLess(e.key, entries[0].key) { LexTransitive(e.key, entries[0].key, e.key); }
      assert entries[1..] + [e] == whole[1..];
      InsertLast(entries[1..], e);
    }
  }

  lemma CountedRoundTrip(tag: byte, n: u32, rest: seq<byte>)
    ensures var b := [tag] + U32Bytes(n) + rest;
            b[0] == tag && U32Of(b[1..5]) == n && b[5..] == rest
  {
    var b := [tag] + U32Bytes(n) + rest;
    assert b[1..5] == U32Bytes(n);
    U32RoundTrip(n);
  }

  lemma WordRoundTrip(tag: byte, w: seq<byte>, rest: seq<byte>)
    requires |w| == 8
    ensures var b := [tag] + w + rest; b[0] == tag && |b| >= 9 && b[1..9] == w
  {
  }

  lemma ScalarRoundTrip(v: PropertyValue, rest: seq<byte>)
    requires Scalar(v) && Encodable(v)
    ensures DecodeScalar(EncodeScalar(v) + rest) == Good(v, |EncodeScalar(v)|)
  {
    match v
    case Null =>
    case Bool(_) =>
    case Int(i) => WordRoundTrip(2, I64Bytes(i), rest); I64RoundTrip(i);
    case Float(bits) => WordRoundTrip(3, U64Bytes(bits), rest); U64RoundTrip(bits);
    case DateTime(i) => WordRoundTrip(5, I64Bytes(i), rest); I64RoundTrip(i);
    case Str(s) => StringRoundTrip(4, s, rest);
    case Blob(s) => StringRoundTrip(6, s, rest);
  }

  lemma StringRoundTrip(tag: byte, s: seq<byte>, rest: seq<byte>)
    requires |s| <= U32_MAX
    ensures var b := [tag] + U32Bytes(|s|) + s + rest;
            b[0] == tag && U32Of(b[1..5]) == |s| && b[5..5 + |s|] == s
  {
    CountedRoundTrip(tag, |s|, s + rest);
    assert [tag] + U32Bytes(|s|) + s + rest == [tag] + U32Bytes(|s|) + (s + rest);
  }

  /** Decoding inverts encoding whatever bytes follow, and consumes exactly the encoding. */
  lemma {:induction false} ValueRoundTrip(v: PropertyValue, rest: seq<byte>)
    requires Encodable(v)
    ensures DecodeValue(Encode(v) + rest) == Good(v, |Encode(v)|)
    decreases v, 1
  {
    match v
    case List(items) => ItemsRoundTrip(items, rest); ListRoundTrip(v, rest);
    case Map(entries) => EntriesRoundTrip([], entries, rest); MapRoundTrip(v, rest);
    case _ => ScalarRoundTrip(v, rest);
  }

  lemma ListRoundTrip(v: PropertyValue, rest: seq<byte>)
    requires v.List? && Encodable(v)
    requires DecodeItems(EncodeItems(v.items) + rest, |v.items|) == Good(v.items, |EncodeItems(v.items)|)
    ensures DecodeValue(Encode(v) + rest) == Good(v, |Encode(v)|)
  {
    var body := EncodeItems(v.items);
    CountedRoundTrip(7, |v.items|, body + rest);
    Reassociate([7] + U32Bytes(|v.items|), body, rest);
  }

  lemma MapRoundTrip(v: PropertyValue, rest: seq<byte>)
    requires v.Map? && Encodable(v)
    requires DecodeEntries(EncodeEntries(v.entries) + rest, |v.entries|, [])
          == Good(InsertAll([], v.entries), |EncodeEntries(v.entries)|)
    ensures DecodeValue(Encode(v) + rest) == Good(v, |Encode(v)|)
  {
    var body := EncodeEntries(v.entries);
    CountedRoundTrip(8, |v.entries|, body + rest);
    Reassociate([8] + U32Bytes(|v.entries|), body, rest);
    assert [] + v.entries == v.entries;
    InsertAscending([], v.entries);
  }

  lemma {:induction false} ItemsRoundTrip(items: seq<PropertyValue>, rest: seq<byte>)
    requires EncodableItems(items)
    ensures DecodeItems(EncodeItems(items) + rest, |items|) == Good(items, |EncodeItems(items)|)
    decreases items, 0
  {
    hide Encode, DecodeValue;
    if items != [] {
      var head, tail := Encode(items[0]), EncodeItems(items[1..]);
      var b := EncodeItems(items) + rest;
      assert b == head + (tail + rest);
      ValueRoundTrip(items[0], tail + rest);
      assert b[|head|..] == tail + rest;
      ItemsRoundTrip(items[1..], rest);
      assert items == [items[0]] + items[1..];
    }
  }

  lemma KeyRoundTrip(key: Utf8, rest: seq<byte>)
    requires |key| <= U32_MAX
    ensures DecodeKey(KeyBytes(key) + rest) == Good(key, 4 + |key|)
  {
    var b := KeyBytes(key) + rest;
    assert b[0..4] == U32Bytes(|key|);
    assert b[4..4 + |key|] == key;
    U32RoundTrip(|key|);
  }

  lemma {:induction false} EntriesRoundTrip(acc: seq<Entry>, entries: seq<Entry>, rest: seq<byte>)
    requires EncodableEntries(entries)
    ensures DecodeEntries(EncodeEntries(entries) + rest, |entries|, acc)
         == Good(InsertAll(acc, entries), |EncodeEntries(entries)|)
    decreases entries, 0
  {
    hide Encode, DecodeEntry, Insert, KeyBytes;
    if entries != [] {
      var e, more := entries[0], entries[1..];
      var tail := EncodeEntries(more) + rest;
      EntriesRoundTrip(Insert(acc, e), more, rest);
      ValueRoundTrip(e.value, tail);
      EntryRoundTrip(e, tail);
      Reassociate(KeyBytes(e.key) + Encode(e.value), EncodeEntries(more), rest);
    }
  }

  function InsertAll(acc: seq<Entry>, entries: seq<Entry>): seq<Entry>
    decreases |entries|
  {
    if entries == [] then acc else InsertAll(Insert(acc, entries[0]), entries[1..])
  }

  lemma {:induction false} InsertAscending(done: seq<Entry>, entries: seq<Entry>)
    requires Ascending(done + entries)
    ensures InsertAll(done, entries) == done + entries
    decreases |entries|
  {
    if entries == [] {
      assert done + entries == done;
    } else {
      assert done + [entries[0]] == (done + entries)[..|done| + 1];
      InsertLast(done, entries[0]);
      assert done + [entries[0]] + entries[1..] == done + entries;
      InsertAscending(done + [entries[0]], entries[1..]);
    }
  }

  lemma EntryRoundTrip(e: Entry, tail: seq<byte>)
    requires |e.key| <= U32_MAX && Encodable(e.value)
    requires DecodeValue(Encode(e.value) + tail) == Good(e.value, |Encode(e.value)|)
    ensures var b := KeyBytes(e.key) + Encode(e.value) + tail;
            var n := 4 + |e.key| + |Encode(e.value)|;
            DecodeEntry(b) == Good(e, n) && b[n..] == tail
  {
    var v := Encode(e.value);
    Reassociate(KeyBytes(e.key), v, tail);
    KeyRoundTrip(e.key, v + tail);
    assert (KeyBytes(e.key) + v + tail)[4 + |e.key|..] == v + tail;
  }

  lemma Reassociate(a: seq<byte>, b: seq<byte>, c: seq<byte>)
    ensures a + b + c == a + (b + c)
  {
  }

  /** No encoding is a proper prefix of another. */
  lemma PrefixFree(v: PropertyValue, w: PropertyValue)
    requires Encodable(v) && Encodable(w) && Encode(v) <= Encode(w)
    ensures v == w
  {
    var rest := Encode(w)[|Encode(v)|..];
    assert Encode(v) + rest == Encode(w);
    assert Encode(w) + [] == Encode(w);
    ValueRoundTrip(v, rest);
    ValueRoundTrip(w, []);
  }

  // ---- The loops of the source ------------------------------------------------

  /** `PropertyValue::encode`; its list and map cases fill one buffer item by item. */
  method EncodeInto(v: PropertyValue) returns (out: seq<byte>)
    requires Encodable(v)
    ensures out == Encode(v)
    decreases v, 1
  {
    match v
    case List(items) => out := EncodeList(v, items);
    case Map(entries) => out := EncodeMap(v, entries);
    case _ => out := EncodeScalar(v);
  }

  method EncodeList(v: PropertyValue, items: seq<PropertyValue>) returns (out: seq<byte>)
    requires v == List(items) && Encodable(v)
    ensures out == Encode(v)
    decreases v, 0
  {
    out := [7] + U32Bytes(|items|);
    assert items[0..] == items;
    for i := 0 to |items|
      invariant EncodableItems(items[i..]) && Encode(v) == out + EncodeItems(items[i..])
    {
      var item := EncodeInto(items[i]);
      assert items[i..][1..] == items[i + 1..];
      Reassociate(out, item, EncodeItems(items[i + 1..]));
      out := out + item;
    }
  }

  method EncodeMap(v: PropertyValue, entries: seq<Entry>) returns (out: seq<byte>)
    requires v == Map(entries) && Encodable(v)
    ensures out == Encode(v)
    decreases v, 0
  {
    out := [8] + U32Bytes(|entries|);
    assert entries[0..] == entries;
    for i := 0 to |entries|
      invariant EncodableEntries(entries[i..]) && Encode(v) == out + EncodeEntries(entries[i..])
    {
      var item := EncodeInto(entries[i].value);
      assert entries[i..][1..] == entries[i + 1..];
      Reassociate(out, KeyBytes(entries[i].key) + item, EncodeEntries(entries[i + 1..]));
      out := out + (KeyBytes(entries[i].key) + item);
    }
  }

  /** `PropertyValue::decode_recursive`; its list and map cases loop over a running position. */
  method DecodeRecursive(bytes: seq<byte>) returns (r: Decoded<PropertyValue>)
    ensures r == DecodeValue(bytes)
    decreases |bytes|, 1
  {
    if |bytes| < 5 || (bytes[0] != 7 && bytes[0] != 8) {
      r := DecodeValue(bytes);
    } else if bytes[0] == 7 {
      var items := DecodeItemsLoop(bytes[5..], U32Of(bytes[1..5]));
      r := AsList(items);
    } else {
      var entries := DecodeEntriesLoop(bytes[5..], U32Of(bytes[1..5]));
      r := AsMap(entries);
    }
  }

  method DecodeItemsLoop(bytes: seq<byte>, count: nat) returns (r: Decoded<seq<PropertyValue>>)
    ensures r == DecodeItems(bytes, count)
    decreases |bytes|, 3
  {
    var pos: nat, left := 0, count;
    var items: seq<PropertyValue> := [];
    ghost var all := DecodeItems(bytes, count);
    ItemsStart(bytes, count);
    while left > 0
      invariant ItemsSoFar(all, bytes, pos, left, items)
    {
      var item := DecodeRecursive(bytes[pos..]);
      ItemsUnfold(all, bytes, pos, left, items, item);
      if item.Bad? { return Bad(item.error); }
      items, pos, left := items + [item.value], pos + item.consumed, left - 1;
    }
    ItemsDone(all, bytes, pos, items);
    r := Good(items, pos);
  }

  method DecodeEntriesLoop(bytes: seq<byte>, count: nat) returns (r: Decoded<seq<Entry>>)
    ensures r == DecodeEntries(bytes, count, [])
    decreases |bytes|, 3
  {
    hide DecodeEntry, DecodeValue, DecodeItems, Insert;
    var pos: nat, left := 0, count;
    var entries: seq<Entry> := [];
    ghost var all := DecodeEntries(bytes, count, []);
    EntriesStart(bytes, count);
    while left > 0
      invariant EntriesSoFar(all, bytes, pos, left, entries)
    {
      var e := DecodeOneEntry(bytes[pos..]);
      EntriesUnfold(all, bytes, pos, left, entries, e);
      if e.Bad? { return Bad(e.error); }
      entries, pos, left := Insert(entries, e.value), pos + e.consumed, left - 1;
    }
    r := Good(entries, pos);
  }

  method DecodeOneEntry(bytes: seq<byte>) returns (r: Decoded<Entry>)
    ensures r == DecodeEntry(bytes)
    decreases |bytes|, 2
  {
    var key := DecodeKey(bytes);
    if key.Bad? { return Bad(key.error); }
    var val := DecodeRecursive(bytes[key.consumed..]);
    if val.Bad? { return Bad(val.error); }
    r := Good(Entry(key.value, val.value), key.consumed + val.consumed);
  }

  /** Once `items` have been read up to `pos`, decoding `left` more items gives `all`. */
  ghost predicate ItemsSoFar(all: Decoded<seq<PropertyValue>>, bytes: seq<byte>, pos: nat, left: nat,
                             items: seq<PropertyValue>) {
    pos <= |bytes| && all == After(items, pos, DecodeItems(bytes[pos..], left))
  }

  ghost predicate EntriesSoFar(all: Decoded<seq<Entry>>, bytes: seq<byte>, pos: nat, left: nat, entries: seq<Entry>) {
    pos <= |bytes| && all == Skip(pos, DecodeEntries(bytes[pos..], left, entries))
  }

  ghost function After(items: seq<PropertyValue>, used: nat, tail: Decoded<seq<PropertyValue>>): Decoded<seq<PropertyValue>> {
    if tail.Bad? then tail else Good(items + tail.value, used + tail.consumed)
  }

  lemma ItemsStart(bytes: seq<byte>, count: nat)
    ensures ItemsSoFar(DecodeItems(bytes, count), bytes, 0, count, [])
  {
    var all := DecodeItems(bytes, count);
    assert bytes[0..] == bytes;
    if all.Good? { assert [] + all.value == all.value; }
  }

  lemma EntriesStart(bytes: seq<byte>, count: nat)
    ensures EntriesSoFar(DecodeEntries(bytes, count, []), bytes, 0, count, [])
  {
    assert bytes[0..] == bytes;
  }

  lemma ItemsDone(all: Decoded<seq<PropertyValue>>, bytes: seq<byte>, pos: nat, items: seq<PropertyValue>)
    requires ItemsSoFar(all, bytes, pos, 0, items)
    ensures all == Good(items, pos)
  {
    assert items + [] == items;
  }

  lemma ItemsUnfold(all: Decoded<seq<PropertyValue>>, bytes: seq<byte>, pos: nat, left: nat,
                    items: seq<PropertyValue>, item: Decoded<PropertyValue>)
    requires ItemsSoFar(all, bytes, pos, left, items) && left > 0 && item == DecodeValue(bytes[pos..])
    ensures if item.Bad? then all == Bad(item.error)
            else ItemsSoFar(all, bytes, pos + item.consumed, left - 1, items + [item.value])
  {
    if item.Good? {
      assert bytes[pos..][item.consumed..] == bytes[pos + item.consumed..];
      var tail := DecodeItems(bytes[pos + item.consumed..], left - 1);
      if tail.Good? {
        assert items + ([item.value] + tail.value) == items + [item.value] + tail.value;
      }
    }
  }

  lemma EntriesUnfold(all: Decoded<seq<Entry>>, bytes: seq<byte>, pos: nat, left: nat, acc: seq<Entry>, e: Decoded<Entry>)
    requires EntriesSoFar(all, bytes, pos, left, acc) && left > 0 && e == DecodeEntry(bytes[pos..])
    ensures if e.Bad? then all == Bad(e.error)
            else EntriesSoFar(all, bytes, pos + e.consumed, left - 1, Insert(acc, e.value))
  {
    if e.Good? { assert bytes[pos..][e.consumed..] == bytes[pos + e.consumed..]; }
  }
}
