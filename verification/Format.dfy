/**
 * The formats on disk, byte by byte: where each field lies and which way round its bytes are, in literal positions and
 * with a reading of numbers of its own.
 */
module Format {
  import opened Bytes
  import opened PropertyValues
  import opened WalRecords
  import opened WalLog
  import opened Pagers
  import opened Graph
  import opened Csr
  import BlobStores
  import CsrPages
  import IdMaps
  import IdMapPages
  import Overlay
  import Vacuum
  import opened Labels
  import opened Wrappers

  // ---- Numbers ------------------------------------------------------------------------------------------

  /** Least significant byte first. */
  function Little2(b: seq<byte>, at: nat): nat
    requires at + 2 <= |b|
  {
    var low: nat, high: nat := b[at], b[at + 1];
    low + 0x100 * high
  }

  function Little4(b: seq<byte>, at: nat): nat
    requires at + 4 <= |b|
  {
    Little2(b, at) + 0x1_0000 * Little2(b, at + 2)
  }

  function Little8(b: seq<byte>, at: nat): nat
    requires at + 8 <= |b|
  {
    Little4(b, at) + 0x1_0000_0000 * Little4(b, at + 4)
  }

  /** Most significant byte first. */
  function Big4(b: seq<byte>, at: nat): nat
    requires at + 4 <= |b|
  {
    var p: nat, q: nat, r: nat, s: nat := b[at], b[at + 1], b[at + 2], b[at + 3];
    0x100_0000 * p + 0x1_0000 * q + 0x100 * r + s
  }

  lemma Bytes2(x: nat)
    requires x < 0x1_0000
    ensures LE(x, 2) == [x % 256, x / 256]
  {
    assert LE(x / 256, 1) == [x / 256 % 256] + LE(x / 256 / 256, 0);
  }

  lemma Halves(x: nat, n: nat)
    ensures LE(x, n + 2) == LE(x % 0x1_0000, 2) + LE(x / 0x1_0000, n)
  {
    var low, mid := x % 0x1_0000, x / 256;
    assert LE(x, n + 2) == [x % 256] + LE(mid, n + 1);
    assert LE(mid, n + 1) == [mid % 256] + LE(mid / 256, n);
    assert mid / 256 == x / 0x1_0000;
    Bytes2(low);
    assert low % 256 == x % 256 && low / 256 == mid % 256;
  }

  lemma Word2(b: seq<byte>, at: nat, x: u16)
    requires at + 2 <= |b| && b[at..at + 2] == U16Bytes(x)
    ensures Little2(b, at) == x
  {
    Bytes2(x);
    assert b[at] == b[at..at + 2][0] && b[at + 1] == b[at..at + 2][1];
  }

  lemma Word4(b: seq<byte>, at: nat, x: u32)
    requires at + 4 <= |b| && b[at..at + 4] == U32Bytes(x)
    ensures Little4(b, at) == x
  {
    hide LE, Little2;
    var low, high := x % 0x1_0000, x / 0x1_0000;
    Halves(x, 2);
    assert b[at..at + 2] == b[at..at + 4][..2] == LE(low, 2);
    assert b[at + 2..at + 4] == b[at..at + 4][2..] == LE(high, 2);
    Word2(b, at, low);
    Word2(b, at + 2, high);
  }

  lemma Word8(b: seq<byte>, at: nat, x: u64)
    requires at + 8 <= |b| && b[at..at + 8] == U64Bytes(x)
    ensures Little8(b, at) == x
  {
    hide LE, Little4;
    var low, high := x % 0x1_0000_0000, x / 0x1_0000_0000;
    Quarters(x);
    assert b[at..at + 4] == b[at..at + 8][..4] == U32Bytes(low);
    assert b[at + 4..at + 8] == b[at..at + 8][4..] == U32Bytes(high);
    Word4(b, at, low);
    Word4(b, at + 4, high);
  }

  lemma Quarters(x: u64)
    ensures LE(x, 8) == LE(x % 0x1_0000_0000, 4) + LE(x / 0x1_0000_0000, 4)
  {
    hide LE;
    var a, b := x / 0x1_0000, x / 0x1_0000_0000;
    var low := x % 0x1_0000_0000;
    Halves(x, 6);
    Halves(a, 4);
    Halves(low, 2);
    assert a / 0x1_0000 == b && low % 0x1_0000 == x % 0x1_0000 && low / 0x1_0000 == a % 0x1_0000;
  }

  lemma BigWord(b: seq<byte>, at: nat, x: u32)
    requires at + 4 <= |b| && b[at..at + 4] == U32BytesBE(x)
    ensures Big4(b, at) == x
  {
    hide LE;
    var l := LE(x, 4);
    assert b[at..at + 4] == [l[3], l[2], l[1], l[0]];
    assert b[at] == b[at..at + 4][0] && b[at + 1] == b[at..at + 4][1] && b[at + 2] == b[at..at + 4][2] && b[at + 3] == b[at..at + 4][3];
    Word4(l, 0, x);
    assert l[0..4] == l;
  }

  lemma {:induction false} JoinedLE(a: seq<byte>, b: seq<byte>)
    ensures FromLE(a + b) == FromLE(a) + Pow256(|a|) * FromLE(b)
  {
    if a == [] {
      assert a + b == b;
    } else {
      assert (a + b)[1..] == a[1..] + b;
      JoinedLE(a[1..], b);
      assert 256 * (Pow256(|a| - 1) * FromLE(b)) == Pow256(|a|) * FromLE(b);
    }
  }

  lemma Reads2(b: seq<byte>, at: nat)
    requires at + 2 <= |b|
    ensures FromLE(b[at..at + 2]) == Little2(b, at)
  {
    var w := b[at..at + 2];
    var tail := w[1..];
    assert tail[1..] == [] && FromLE([]) == 0;
    assert FromLE(tail) == tail[0] + 256 * FromLE(tail[1..]) == w[1];
    assert FromLE(w) == w[0] + 256 * FromLE(tail);
  }

  lemma Reads4(b: seq<byte>, at: nat)
    requires at + 4 <= |b|
    ensures U32Of(b[at..at + 4]) == Little4(b, at)
  {
    hide FromLE, Little2;
    assert b[at..at + 4] == b[at..at + 2] + b[at + 2..at + 4];
    JoinedLE(b[at..at + 2], b[at + 2..at + 4]);
    Reads2(b, at);
    Reads2(b, at + 2);
    WidthBounds();
  }

  lemma Reads8(b: seq<byte>, at: nat)
    requires at + 8 <= |b|
    ensures U64Of(b[at..at + 8]) == Little8(b, at)
  {
    hide FromLE, Little4;
    assert b[at..at + 8] == b[at..at + 4] + b[at + 4..at + 8];
    JoinedLE(b[at..at + 4], b[at + 4..at + 8]);
    Reads4(b, at);
    Reads4(b, at + 4);
    WidthBounds();
  }

  /** A signed word is stored modulo 2^64. */
  function Unsigned(i: i64): nat { if i < 0 then i + 0x1_0000_0000_0000_0000 else i }

  // ---- Property values --------------------------------------------------------------------------------------

  /** The first byte tells the kind; numbers and lengths follow it, then the contents. */
  ghost predicate ValueLaidOut(v: PropertyValue, b: seq<byte>) {
    match v
    case Null => b == [0]
    case Bool(x) => b == [1, if x then 1 else 0]
    case Int(i) => |b| == 9 && b[0] == 2 && Little8(b, 1) == Unsigned(i)
    case Float(bits) => |b| == 9 && b[0] == 3 && Little8(b, 1) == bits
    case Str(s) => |b| == 5 + |s| && b[0] == 4 && Little4(b, 1) == |s| && b[5..] == s
    case DateTime(i) => |b| == 9 && b[0] == 5 && Little8(b, 1) == Unsigned(i)
    case Blob(x) => |b| == 5 + |x| && b[0] == 6 && Little4(b, 1) == |x| && b[5..] == x
    case List(items) => |b| >= 5 && b[0] == 7 && Little4(b, 1) == |items| && ItemsLaidOut(items, b[5..])
    case Map(entries) => |b| >= 5 && b[0] == 8 && Little4(b, 1) == |entries| && EntriesLaidOut(entries, b[5..])
  }

  ghost predicate ItemsLaidOut(items: seq<PropertyValue>, b: seq<byte>) {
    if items == [] then b == []
    else exists n: nat :: n <= |b| && ValueLaidOut(items[0], b[..n]) && ItemsLaidOut(items[1..], b[n..])
  }

  /** Each entry is its key, after the length of the key, and its value. */
  ghost predicate EntriesLaidOut(entries: seq<Entry>, b: seq<byte>) {
    if entries == [] then b == []
    else
      && |b| >= 4 + |entries[0].key| && Little4(b, 0) == |entries[0].key| && b[4..4 + |entries[0].key|] == entries[0].key
      && exists n: nat :: 4 + |entries[0].key| <= n <= |b|
           && ValueLaidOut(entries[0].value, b[4 + |entries[0].key|..n]) && EntriesLaidOut(entries[1..], b[n..])
  }

  lemma {:induction false} ValueFormat(v: PropertyValue)
    requires Encodable(v)
    ensures ValueLaidOut(v, Encode(v))
    decreases v, 1
  {
    hide U32Bytes, U64Bytes;
    var b := Encode(v);
    match v
    case Int(i) => assert b[1..9] == U64Bytes(Unsigned(i)); Word8(b, 1, Unsigned(i));
    case Float(bits) => assert b[1..9] == U64Bytes(bits); Word8(b, 1, bits);
    case Str(s) => assert b[1..5] == U32Bytes(|s|); Word4(b, 1, |s|);
    case DateTime(i) => assert b[1..9] == U64Bytes(Unsigned(i)); Word8(b, 1, Unsigned(i));
    case Blob(x) => assert b[1..5] == U32Bytes(|x|); Word4(b, 1, |x|);
    case List(items) =>
      assert b[1..5] == U32Bytes(|items|) && b[5..] == EncodeItems(items);
      Word4(b, 1, |items|);
      ItemsFormat(items);
    case Map(entries) =>
      assert b[1..5] == U32Bytes(|entries|) && b[5..] == EncodeEntries(entries);
      Word4(b, 1, |entries|);
      EntriesFormat(entries);
    case _ =>
  }

  lemma {:induction false} ItemsFormat(items: seq<PropertyValue>)
    requires EncodableItems(items)
    ensures ItemsLaidOut(items, EncodeItems(items))
    decreases items, 0
  {
    if items != [] {
      ValueFormat(items[0]);
      ItemsFormat(items[1..]);
      var b, n := EncodeItems(items), |Encode(items[0])|;
      assert b[..n] == Encode(items[0]) && b[n..] == EncodeItems(items[1..]);
    }
  }

  lemma {:induction false} EntriesFormat(entries: seq<Entry>)
    requires EncodableEntries(entries)
    ensures EntriesLaidOut(entries, EncodeEntries(entries))
    decreases entries, 0
  {
    if entries != [] {
      hide U32Bytes;
      var key, value := entries[0].key, entries[0].value;
      ValueFormat(value);
      EntriesFormat(entries[1..]);
      var b, k := EncodeEntries(entries), 4 + |key|;
      var n := k + |Encode(value)|;
      assert b == KeyBytes(key) + Encode(value) + EncodeEntries(entries[1..]);
      assert b[0..4] == U32Bytes(|key|) && b[4..k] == key && b[k..n] == Encode(value) && b[n..] == EncodeEntries(entries[1..]);
      Word4(b, 0, |key|);
    }
  }

  // ---- Log records ------------------------------------------------------------------------------------------

  /** Three 32-bit numbers from `at` on. */
  predicate Triple(b: seq<byte>, at: nat, e: EdgeKey) {
    at + 12 <= |b| && Little4(b, at) == e.src && Little4(b, at + 4) == e.rel && Little4(b, at + 8) == e.dst
  }

  /** A name from `at` on, after its length. */
  predicate Named(b: seq<byte>, at: nat, name: seq<byte>) {
    at + 4 + |name| <= |b| && Little4(b, at) == |name| && b[at + 4..at + 4 + |name|] == name
  }

  predicate PointersLaidOut(b: seq<byte>, at: nat, segments: seq<SegmentPointer>) {
    && at + 16 * |segments| <= |b|
    && forall i :: 0 <= i < |segments| ==>
         Little8(b, at + 16 * i) == segments[i].id && Little8(b, at + 16 * i + 8) == segments[i].metaPageId
  }

  /** The body of a record: its type, then its fields. */
  ghost predicate RecordLaidOut(r: WalRecord, b: seq<byte>) {
    match r
    case BeginTx(txid) => |b| == 9 && b[0] == 1 && Little8(b, 1) == txid
    case CommitTx(txid) => |b| == 9 && b[0] == 2 && Little8(b, 1) == txid
    case PageWrite(id, page) => |b| == 8201 && b[0] == 3 && Little8(b, 1) == id && b[9..] == page
    case PageFree(id) => |b| == 9 && b[0] == 4 && Little8(b, 1) == id
    case CreateNode(ext, lid, iid) => |b| == 17 && b[0] == 5 && Little8(b, 1) == ext && Little4(b, 9) == lid && Little4(b, 13) == iid
    case CreateEdge(s, rel, d) => |b| == 13 && b[0] == 6 && Triple(b, 1, EdgeKey(s, rel, d))
    case TombstoneNode(n) => |b| == 5 && b[0] == 7 && Little4(b, 1) == n
    case TombstoneEdge(s, rel, d) => |b| == 13 && b[0] == 8 && Triple(b, 1, EdgeKey(s, rel, d))
    case ManifestSwitch(epoch, segments, p, s) =>
      var end := 13 + 16 * |segments|;
      && |b| == end + 16 && b[0] == 9 && Little8(b, 1) == epoch && Little4(b, 9) == |segments| && PointersLaidOut(b, 13, segments)
      && Little8(b, end) == p && Little8(b, end + 8) == s
    case Checkpoint(upTo, epoch, p, s) =>
      && |b| == 33 && b[0] == 10 && Little8(b, 1) == upTo && Little8(b, 9) == epoch && Little8(b, 17) == p && Little8(b, 25) == s
    case SetNodeProperty(n, key, v) =>
      |b| >= 9 + |key| && b[0] == 11 && Little4(b, 1) == n && Named(b, 5, key) && ValueLaidOut(v, b[9 + |key|..])
    case SetEdgeProperty(s, rel, d, key, v) =>
      |b| >= 17 + |key| && b[0] == 12 && Triple(b, 1, EdgeKey(s, rel, d)) && Named(b, 13, key) && ValueLaidOut(v, b[17 + |key|..])
    case RemoveNodeProperty(n, key) => |b| == 9 + |key| && b[0] == 13 && Little4(b, 1) == n && Named(b, 5, key)
    case RemoveEdgeProperty(s, rel, d, key) => |b| == 17 + |key| && b[0] == 14 && Triple(b, 1, EdgeKey(s, rel, d)) && Named(b, 13, key)
    case CreateLabel(name, lid) => |b| == 9 + |name| && b[0] == 15 && Little4(b, 1) == lid && Named(b, 5, name)
    case AddNodeLabel(n, lid) => |b| == 9 && b[0] == 16 && Little4(b, 1) == n && Little4(b, 5) == lid
    case RemoveNodeLabel(n, lid) => |b| == 9 && b[0] == 17 && Little4(b, 1) == n && Little4(b, 5) == lid
  }

  lemma Slice(b: seq<byte>, at: nat, n: nat, i: nat, j: nat)
    requires at + n <= |b| && i <= j <= n
    ensures b[at..at + n][i..j] == b[at + i..at + j]
  {
    var x, y := b[at..at + n][i..j], b[at + i..at + j];
    assert |x| == |y| && forall k :: 0 <= k < |x| ==> x[k] == y[k];
  }

  lemma TripleAt(b: seq<byte>, at: nat, s: u32, rel: u32, d: u32)
    requires at + 12 <= |b| && b[at..at + 12] == Words3(s, rel, d)
    ensures Triple(b, at, EdgeKey(s, rel, d))
  {
    hide U32Bytes, Little4;
    var w := b[at..at + 12];
    assert w[0..4] == U32Bytes(s) && w[4..8] == U32Bytes(rel) && w[8..12] == U32Bytes(d);
    Slice(b, at, 12, 0, 4);
    Slice(b, at, 12, 4, 8);
    Slice(b, at, 12, 8, 12);
    Word4(b, at, s);
    Word4(b, at + 4, rel);
    Word4(b, at + 8, d);
  }

  lemma NamedAt(b: seq<byte>, at: nat, name: seq<byte>)
    requires |name| <= U32_MAX && at + 4 + |name| <= |b| && b[at..at + 4 + |name|] == KeyBytes(name)
    ensures Named(b, at, name)
  {
    hide U32Bytes, Little4;
    var w := b[at..at + 4 + |name|];
    assert b[at..at + 4] == w[0..4] && b[at + 4..at + 4 + |name|] == w[4..];
    Word4(b, at, |name|);
  }

  lemma PairAt(b: seq<byte>, at: nat, x: u32, y: u32)
    requires at + 8 <= |b| && b[at..at + 8] == Words2(x, y)
    ensures Little4(b, at) == x && Little4(b, at + 4) == y
  {
    hide U32Bytes, Little4;
    var w := b[at..at + 8];
    assert w[0..4] == U32Bytes(x) && w[4..8] == U32Bytes(y);
    Slice(b, at, 8, 0, 4);
    Slice(b, at, 8, 4, 8);
    Word4(b, at, x);
    Word4(b, at + 4, y);
  }

  lemma TwoWords(b: seq<byte>, at: nat, x: u64, y: u64)
    requires at + 16 <= |b| && b[at..at + 16] == U64Bytes(x) + U64Bytes(y)
    ensures Little8(b, at) == x && Little8(b, at + 8) == y
  {
    hide U64Bytes, Little8;
    var w := b[at..at + 16];
    assert w[0..8] == U64Bytes(x) && w[8..16] == U64Bytes(y);
    Slice(b, at, 16, 0, 8);
    Slice(b, at, 16, 8, 16);
    Word8(b, at, x);
    Word8(b, at + 8, y);
  }

  lemma {:induction false} PointersAt(b: seq<byte>, at: nat, segments: seq<SegmentPointer>)
    requires at + 16 * |segments| <= |b| && b[at..at + 16 * |segments|] == PointerBytes(segments)
    ensures PointersLaidOut(b, at, segments)
    decreases |segments|
  {
    hide U64Bytes, Little8;
    if segments != [] {
      var w, rest := b[at..at + 16 * |segments|], segments[1..];
      assert b[at..at + 16] == w[..16] == U64Bytes(segments[0].id) + U64Bytes(segments[0].metaPageId);
      TwoWords(b, at, segments[0].id, segments[0].metaPageId);
      assert b[at + 16..at + 16 + 16 * |rest|] == w[16..] == PointerBytes(rest);
      PointersAt(b, at + 16, rest);
      forall i | 0 <= i < |segments|
        ensures Little8(b, at + 16 * i) == segments[i].id && Little8(b, at + 16 * i + 8) == segments[i].metaPageId
      {
        if i > 0 { assert segments[i] == rest[i - 1] && at + 16 + 16 * (i - 1) == at + 16 * i; }
      }
    }
  }

  /** Every record is laid out so. */
  lemma RecordFormat(r: WalRecord)
    requires EncodableRecord(r)
    ensures RecordLaidOut(r, EncodeBody(r))
  {
    hide EncodeBody, RecordLaidOut, Little4, Little8, Named, Triple;
    if r.CreateEdge? || r.TombstoneEdge? || r.CreateNode? || r.TombstoneNode? || r.AddNodeLabel? || r.RemoveNodeLabel? {
      GraphFormat(r);
    } else if r.SetNodeProperty? || r.SetEdgeProperty? || r.RemoveNodeProperty? || r.RemoveEdgeProperty? || r.CreateLabel? {
      NamedFormat(r);
    } else if r.ManifestSwitch? || r.Checkpoint? {
      ManifestFormat(r);
    } else {
      PageFormat(r);
    }
  }

  lemma GraphFormat(r: WalRecord)
    requires r.CreateEdge? || r.TombstoneEdge? || r.CreateNode? || r.TombstoneNode? || r.AddNodeLabel? || r.RemoveNodeLabel?
    ensures RecordLaidOut(r, EncodeBody(r))
  {
    hide U32Bytes, U64Bytes, Words2, Words3, Little4, Little8, Triple;
    var b := EncodeBody(r);
    match r
    case CreateEdge(s, rel, d) => assert b[1..13] == Words3(s, rel, d); TripleAt(b, 1, s, rel, d);
    case TombstoneEdge(s, rel, d) => assert b[1..13] == Words3(s, rel, d); TripleAt(b, 1, s, rel, d);
    case CreateNode(ext, lid, iid) =>
      assert b[1..9] == U64Bytes(ext) && b[9..17] == Words2(lid, iid);
      Word8(b, 1, ext);
      PairAt(b, 9, lid, iid);
    case TombstoneNode(n) => assert b[1..5] == U32Bytes(n); Word4(b, 1, n);
    case AddNodeLabel(n, lid) => assert b[1..9] == Words2(n, lid); PairAt(b, 1, n, lid);
    case RemoveNodeLabel(n, lid) => assert b[1..9] == Words2(n, lid); PairAt(b, 1, n, lid);
  }

  lemma NamedFormat(r: WalRecord)
    requires EncodableRecord(r)
    requires r.SetNodeProperty? || r.SetEdgeProperty? || r.RemoveNodeProperty? || r.RemoveEdgeProperty? || r.CreateLabel?
    ensures RecordLaidOut(r, EncodeBody(r))
  {
    hide EncodeBody, RecordLaidOut;
    match r
    case SetNodeProperty(n, key, v) => SetNodeFormat(n, key, v);
    case SetEdgeProperty(s, rel, d, key, v) => SetEdgeFormat(s, rel, d, key, v);
    case RemoveNodeProperty(n, key) => NodeKeyFormat(r, 13, n, key);
    case RemoveEdgeProperty(s, rel, d, key) => EdgeKeyFormat(s, rel, d, key);
    case CreateLabel(name, lid) => NodeKeyFormat(r, 15, lid, name);
  }

  lemma SetNodeFormat(n: u32, key: Utf8, v: PropertyValue)
    requires EncodableRecord(SetNodeProperty(n, key, v))
    ensures RecordLaidOut(SetNodeProperty(n, key, v), EncodeBody(SetNodeProperty(n, key, v)))
  {
    hide U32Bytes, KeyBytes, Little4, Named, Encode, ValueLaidOut;
    var b, k := EncodeBody(SetNodeProperty(n, key, v)), 9 + |key|;
    assert b == [11] + U32Bytes(n) + KeyBytes(key) + Encode(v);
    assert b[1..5] == U32Bytes(n) && b[5..k] == KeyBytes(key) && b[k..] == Encode(v);
    Word4(b, 1, n);
    NamedAt(b, 5, key);
    ValueFormat(v);
  }

  lemma SetEdgeFormat(s: u32, rel: u32, d: u32, key: Utf8, v: PropertyValue)
    requires EncodableRecord(SetEdgeProperty(s, rel, d, key, v))
    ensures RecordLaidOut(SetEdgeProperty(s, rel, d, key, v), EncodeBody(SetEdgeProperty(s, rel, d, key, v)))
  {
    hide Words3, KeyBytes, Triple, Little4, Named, Encode, ValueLaidOut;
    var b, k := EncodeBody(SetEdgeProperty(s, rel, d, key, v)), 17 + |key|;
    assert b == [12] + Words3(s, rel, d) + KeyBytes(key) + Encode(v);
    assert b[1..13] == Words3(s, rel, d) && b[13..k] == KeyBytes(key) && b[k..] == Encode(v);
    TripleAt(b, 1, s, rel, d);
    NamedAt(b, 13, key);
    ValueFormat(v);
  }

  lemma NodeKeyFormat(r: WalRecord, ty: byte, n: u32, key: Utf8)
    requires EncodableRecord(r) && |key| <= U32_MAX
    requires (ty == 13 && r == RemoveNodeProperty(n, key)) || (ty == 15 && r == CreateLabel(key, n))
    ensures RecordLaidOut(r, EncodeBody(r))
  {
    hide U32Bytes, KeyBytes, Little4, Named;
    var b := EncodeBody(r);
    assert b == [ty] + U32Bytes(n) + KeyBytes(key);
    assert b[1..5] == U32Bytes(n) && b[5..9 + |key|] == KeyBytes(key);
    Word4(b, 1, n);
    NamedAt(b, 5, key);
  }

  lemma EdgeKeyFormat(s: u32, rel: u32, d: u32, key: Utf8)
    requires |key| <= U32_MAX
    ensures RecordLaidOut(RemoveEdgeProperty(s, rel, d, key), EncodeBody(RemoveEdgeProperty(s, rel, d, key)))
  {
    hide Words3, KeyBytes, Triple, Little4, Named;
    var b := EncodeBody(RemoveEdgeProperty(s, rel, d, key));
    assert b == [14] + Words3(s, rel, d) + KeyBytes(key);
    assert b[1..13] == Words3(s, rel, d) && b[13..17 + |key|] == KeyBytes(key);
    TripleAt(b, 1, s, rel, d);
    NamedAt(b, 13, key);
  }

  lemma ManifestFormat(r: WalRecord)
    requires EncodableRecord(r) && (r.ManifestSwitch? || r.Checkpoint?)
    ensures RecordLaidOut(r, EncodeBody(r))
  {
    hide U32Bytes, U64Bytes, PointerBytes, Little4, Little8, PointersLaidOut;
    var b := EncodeBody(r);
    match r
    case ManifestSwitch(epoch, segments, p, s) =>
      var end := 13 + 16 * |segments|;
      assert b[1..9] == U64Bytes(epoch) && b[9..13] == U32Bytes(|segments|);
      assert b[13..end] == PointerBytes(segments) && b[end..end + 16] == U64Bytes(p) + U64Bytes(s);
      Word8(b, 1, epoch);
      Word4(b, 9, |segments|);
      PointersAt(b, 13, segments);
      TwoWords(b, end, p, s);
    case Checkpoint(upTo, epoch, p, s) =>
      assert b[1..17] == U64Bytes(upTo) + U64Bytes(epoch) && b[17..33] == U64Bytes(p) + U64Bytes(s);
      TwoWords(b, 1, upTo, epoch);
      TwoWords(b, 17, p, s);
  }

  lemma PageFormat(r: WalRecord)
    requires EncodableRecord(r) && (r.BeginTx? || r.CommitTx? || r.PageWrite? || r.PageFree?)
    ensures RecordLaidOut(r, EncodeBody(r))
  {
    hide U64Bytes, Little8;
    var b := EncodeBody(r);
    match r
    case BeginTx(txid) => assert b[1..9] == U64Bytes(txid); Word8(b, 1, txid);
    case CommitTx(txid) => assert b[1..9] == U64Bytes(txid); Word8(b, 1, txid);
    case PageWrite(id, page) => assert b[1..9] == U64Bytes(id) && b[9..] == page; Word8(b, 1, id);
    case PageFree(id) => assert b[1..9] == U64Bytes(id); Word8(b, 1, id);
  }

  /** A record in the log: length of the body, checksum of the body, body. */
  lemma FrameFormat(r: WalRecord)
    requires Appendable(r)
    ensures var b, body := Frame(r), EncodeBody(r);
            |b| == 8 + |body| && Little4(b, 0) == |body| && Little4(b, 4) == Crc32(body) && b[8..] == body
  {
    hide U32Bytes, Little4, EncodeBody;
    var b, body := Frame(r), EncodeBody(r);
    assert b[0..4] == U32Bytes(|body|) && b[4..8] == U32Bytes(Crc32(body));
    Word4(b, 0, |body|);
    Word4(b, 4, Crc32(body));
  }

  /**
   * What the reader makes of the unread bytes: the end if a record is cut short or its checksum is wrong, an error if
   * its length is over 1 MiB, and otherwise what the body decodes to.
   */
  lemma ReaderFormat(b: seq<byte>)
    ensures |b| < 4 ==> NextRecord(b) == Ok(End)
    ensures |b| >= 4 && Little4(b, 0) > 1048576 ==> NextRecord(b) == Err(WalRecordTooLarge(Little4(b, 0)))
    ensures |b| >= 4 && Little4(b, 0) <= 1048576 && |b| < 8 + Little4(b, 0) ==> NextRecord(b) == Ok(End)
    ensures |b| >= 8 && Little4(b, 0) <= 1048576 && |b| >= 8 + Little4(b, 0) ==>
              var len := Little4(b, 0);
              var body := b[8..8 + len];
              NextRecord(b) == if Crc32(body) != Little4(b, 4) then Ok(End)
                               else if DecodeBody(body).Ok? then Ok(Record(DecodeBody(body).value, 8 + len))
                               else Err(DecodeBody(body).error)
  {
    hide U32Of, Little4, DecodeBody;
    if |b| >= 4 { Reads4(b, 0); }
    if |b| >= 8 { Reads4(b, 4); }
  }

  // ---- Pages ---------------------------------------------------------------------------------------------------

  /** The meta page: "NERVUSDBv2" padded to sixteen bytes, the fields, and zeros. */
  lemma MetaFormat(m: Meta)
    ensures var b := EncodeMeta(m);
            && |b| == 8192 && b[0..16] == [78, 69, 82, 86, 85, 83, 68, 66, 118, 50, 0, 0, 0, 0, 0, 0]
            && Little4(b, 16) == m.versionMajor && Little4(b, 20) == m.versionMinor && Little8(b, 24) == m.pageSize
            && Little8(b, 32) == m.bitmapPageId && Little8(b, 40) == m.nextPageId && Little8(b, 48) == m.i2eStartPageId
            && Little8(b, 56) == m.i2eLen && Little8(b, 64) == m.nextInternalId && Little8(b, 72) == m.indexCatalogRoot
            && Little4(b, 80) == m.nextIndexId && Little8(b, 84) == m.storageFormatEpoch
            && forall i :: 92 <= i < 8192 ==> b[i] == 0
  {
    hide U32Bytes, U64Bytes, Little4, Little8, EncodeMeta;
    var b := EncodeMeta(m);
    MetaFields(m, b);
    Word4(b, 16, m.versionMajor); Word4(b, 20, m.versionMinor); Word8(b, 24, m.pageSize);
    Word8(b, 32, m.bitmapPageId); Word8(b, 40, m.nextPageId); Word8(b, 48, m.i2eStartPageId);
    Word8(b, 56, m.i2eLen); Word8(b, 64, m.nextInternalId); Word8(b, 72, m.indexCatalogRoot);
    Word4(b, 80, m.nextIndexId); Word8(b, 84, m.storageFormatEpoch);
    MetaTail(m);
  }

  /** Opening a file reads the meta page back, or says what is wrong with it: magic, page size, or format. */
  lemma MetaReads(page: Page)
    ensures page[0..16] != [78, 69, 82, 86, 85, 83, 68, 66, 118, 50, 0, 0, 0, 0, 0, 0] ==> DecodeMeta(page) == Err(InvalidMagic)
    ensures page[0..16] == [78, 69, 82, 86, 85, 83, 68, 66, 118, 50, 0, 0, 0, 0, 0, 0] ==>
              if Little8(page, 24) != 8192 then DecodeMeta(page) == Err(UnsupportedPageSize(Little8(page, 24)))
              else if Little8(page, 84) != 1 then DecodeMeta(page) == Err(StorageFormatMismatch(1, Little8(page, 84)))
              else
                && DecodeMeta(page).Ok?
                && var m := DecodeMeta(page).value;
                   && m.nextPageId == Little8(page, 40) && m.i2eStartPageId == Little8(page, 48) && m.i2eLen == Little8(page, 56)
                   && m.nextInternalId == (if Little8(page, 64) == 0 then Little8(page, 56) else Little8(page, 64))
  {
    hide U32Of, U64Of, Little8;
    Reads8(page, 24);
    Reads8(page, 84);
    Reads8(page, 40);
    Reads8(page, 48);
    Reads8(page, 56);
    Reads8(page, 64);
  }

  lemma MetaTail(m: Meta)
    ensures forall i :: 92 <= i < 8192 ==> EncodeMeta(m)[i] == 0
  {
    hide U32Bytes, U64Bytes;
  }

  /** Page `p` is allocated if bit `p` modulo 8 of byte `p` over 8 of the bitmap is set, counting from the lowest. */
  lemma BitmapFormat(data: seq<byte>, live: set<nat>, p: nat)
    requires Maps(data, live) && p < 65536
    ensures |data| == 8192 && (p in live <==> data[p / 8] / [1, 2, 4, 8, 16, 32, 64, 128][p % 8] % 2 == 1)
  {
    assert p in live <==> Bit(data, p);
    BitIs(data[p / 8], p % 8);
  }

  lemma BitIs(b: nat, k: nat)
    requires k < 8
    ensures BitOf(b, k) <==> b / [1, 2, 4, 8, 16, 32, 64, 128][k] % 2 == 1
  {
    BitShifts(b, k);
    assert Pow2(k) == [1, 2, 4, 8, 16, 32, 64, 128][k] by { Powers(); }
  }

  lemma Powers()
    ensures Pow2(0) == 1 && Pow2(1) == 2 && Pow2(2) == 4 && Pow2(3) == 8 && Pow2(4) == 16 && Pow2(5) == 32 && Pow2(6) == 64 && Pow2(7) == 128
  {
    assert Pow2(2) == 4 && Pow2(4) == 16 && Pow2(6) == 64;
  }

  lemma {:induction false} BitShifts(b: nat, k: nat)
    ensures Pow2(k) > 0 && (BitOf(b, k) <==> b / Pow2(k) % 2 == 1)
    decreases k
  {
    if k != 0 {
      BitShifts(b / 2, k - 1);
      DivTwice(b, Pow2(k - 1));
    }
  }

  lemma DivTwice(b: nat, p: nat)
    requires p > 0
    ensures b / 2 / p == b / (2 * p)
  {
    var q, r := b / 2 / p, b / 2 % p;
    assert b / 2 == q * p + r;
    assert b == 2 * (q * p + r) + b % 2;
    assert 2 * (q * p + r) == q * (2 * p) + 2 * r;
    var rest := 2 * r + b % 2;
    assert 0 <= rest < 2 * p && b == q * (2 * p) + rest;
    Quotient(b, 2 * p, q, rest);
  }

  lemma Quotient(b: nat, m: nat, q: nat, rest: nat)
    requires m > 0 && b == q * m + rest && rest < m
    ensures b / m == q
  {
    var d := b / m - q;
    assert d * m == rest - b % m;
    Small(d, m);
  }

  lemma Small(d: int, m: nat)
    ensures d >= 1 ==> d * m >= m
    ensures d <= -1 ==> d * m <= 0 - m
  {
    if d >= 1 { assert d * m == (d - 1) * m + m; }
    if d <= -1 { assert d * m == (d + 1) * m - m && (d + 1) * m <= 0; }
  }

  /** A blob page: next page, length, data, zeros. */
  lemma BlobFormat(next: u64, chunk: seq<byte>)
    requires |chunk| <= 8182
    ensures var b := BlobStores.BlobPage(next, chunk);
            && |b| == 8192 && Little8(b, 0) == next && Little2(b, 8) == |chunk| && b[10..10 + |chunk|] == chunk
            && forall i :: 10 + |chunk| <= i < 8192 ==> b[i] == 0
  {
    hide U16Bytes, U64Bytes, Little8;
    var b := BlobStores.BlobPage(next, chunk);
    assert b[0..8] == U64Bytes(next) && b[8..10] == U16Bytes(|chunk|);
    Word8(b, 0, next);
    Word2(b, 8, |chunk|);
  }

  /** Record `i` of the id map: on page `start + i / 512`, from byte `16 * (i % 512)` on, external id, label, flags. */
  lemma IdRecordFormat(page: Page, start: nat, i: nat, r: IdMaps.I2eRecord)
    ensures IdMapPages.PageOf(start, i) == start + i / 512
    ensures var k, b := i % 512, IdMapPages.PutRecord(page, IdMapPages.SlotOf(i), r);
            && Little8(b, 16 * k) == r.externalId && Little4(b, 16 * k + 8) == r.labelId && Little4(b, 16 * k + 12) == r.flags
            && forall j :: 0 <= j < 8192 && !(16 * k <= j < 16 * k + 16) ==> b[j] == page[j]
  {
    hide U32Bytes, U64Bytes, Little4, Little8;
    var k := i % 512;
    var b, at := IdMapPages.PutRecord(page, k, r), 16 * k;
    var w := IdMapPages.EncodeRecord(r);
    assert b[at..at + 16] == w;
    assert b[at..at + 8] == w[0..8] && b[at + 8..at + 12] == w[8..12] && b[at + 12..at + 16] == w[12..16];
    Word8(b, at, r.externalId);
    Word4(b, at + 8, r.labelId);
    Word4(b, at + 12, r.flags);
  }

  // ---- Segments ---------------------------------------------------------------------------------------------------

  /** The head of a segment's meta page: "NDBCSRv2", the fields, the lengths, and how many pages each part has. */
  lemma SegmentHeadFormat(m: CsrPages.SegmentMeta, b: Page)
    requires CsrPages.EncodeSegmentMeta(m).Ok? && b == CsrPages.EncodeSegmentMeta(m).value
    ensures b[0..8] == [78, 68, 66, 67, 83, 82, 118, 50] && Little8(b, 8) == m.id
    ensures Little4(b, 16) == m.minSrc && Little4(b, 20) == m.maxSrc && Little4(b, 24) == m.minDst && Little4(b, 28) == m.maxDst
    ensures Little8(b, 32) == m.offsetsLen && Little8(b, 40) == m.edgesLen && Little8(b, 48) == m.inOffsetsLen && Little8(b, 56) == m.inEdgesLen
    ensures Little4(b, 64) == |m.offsetsPages| && Little4(b, 68) == |m.edgesPages|
    ensures Little4(b, 72) == |m.inOffsetsPages| && Little4(b, 76) == |m.inEdgesPages|
  {
    hide U32Bytes, U64Bytes, Little4, Little8, CsrPages.Header, CsrPages.EncodeOffsets;
    assert b[..80] == CsrPages.Header(m);
    CsrPages.HeaderWide(m, b);
    CsrPages.HeaderCounts(m, b);
    Word8(b, 8, m.id);
    Word4(b, 16, m.minSrc); Word4(b, 20, m.maxSrc); Word4(b, 24, m.minDst); Word4(b, 28, m.maxDst);
    Word8(b, 32, m.offsetsLen); Word8(b, 40, m.edgesLen); Word8(b, 48, m.inOffsetsLen); Word8(b, 56, m.inEdgesLen);
    Word4(b, 64, |m.offsetsPages|); Word4(b, 68, |m.edgesPages|); Word4(b, 72, |m.inOffsetsPages|); Word4(b, 76, |m.inEdgesPages|);
  }

  /** Its tail: the page ids of offsets, edges, reverse offsets and reverse edges, in this order. */
  lemma SegmentTailFormat(m: CsrPages.SegmentMeta, b: Page, i: nat)
    requires CsrPages.EncodeSegmentMeta(m).Ok? && b == CsrPages.EncodeSegmentMeta(m).value
    requires i < |m.offsetsPages| + |m.edgesPages| + |m.inOffsetsPages| + |m.inEdgesPages|
    ensures 88 + 8 * i <= 8192 && Little8(b, 80 + 8 * i) == (m.offsetsPages + m.edgesPages + m.inOffsetsPages + m.inEdgesPages)[i]
  {
    hide U64Bytes, Little8, CsrPages.Header;
    var all := m.AllPages();
    assert b[80..] == CsrPages.EncodeOffsets(all) + Zeros(PAGE_SIZE - 80 - 8 * |all|);
    OffsetAt(all, Zeros(PAGE_SIZE - 80 - 8 * |all|), i);
    assert b[80 + 8 * i..80 + 8 * i + 8] == b[80..][8 * i..8 * i + 8];
    Word8(b, 80 + 8 * i, all[i]);
  }

  lemma OffsetAt(offsets: seq<u64>, pad: seq<byte>, i: nat)
    requires i < |offsets|
    ensures (CsrPages.EncodeOffsets(offsets) + pad)[8 * i..8 * i + 8] == U64Bytes(offsets[i])
  {
    hide U64Bytes;
    var words: seq<CsrPages.Word> := seq(|offsets|, k requires 0 <= k < |offsets| => U64Bytes(offsets[k]));
    CsrPages.FlattenAt(words, pad, i);
  }

  /** Offsets are 64-bit numbers; an edge is its type and its far end. */
  lemma IndexFormat(offsets: seq<u64>, edges: seq<EdgeRecord>, i: nat)
    ensures i < |offsets| ==> Little8(CsrPages.EncodeOffsets(offsets), 8 * i) == offsets[i]
    ensures i < |edges| ==> Little4(CsrPages.EncodeEdges(edges), 8 * i) == edges[i].rel
                            && Little4(CsrPages.EncodeEdges(edges), 8 * i + 4) == edges[i].dst
  {
    hide U32Bytes, U64Bytes, Little4, Little8;
    if i < |offsets| {
      var b := CsrPages.EncodeOffsets(offsets);
      assert b + [] == b;
      OffsetAt(offsets, [], i);
      Word8(b, 8 * i, offsets[i]);
    }
    if i < |edges| { EdgeAt(edges, i); }
  }

  lemma EdgeAt(edges: seq<EdgeRecord>, i: nat)
    requires i < |edges|
    ensures var b := CsrPages.EncodeEdges(edges); Little4(b, 8 * i) == edges[i].rel && Little4(b, 8 * i + 4) == edges[i].dst
  {
    hide U32Bytes, Little4;
    var b := CsrPages.EncodeEdges(edges);
    var words: seq<CsrPages.Word> := seq(|edges|, k requires 0 <= k < |edges| => CsrPages.EdgeWord(edges[k]));
    CsrPages.FlattenAt(words, [], i);
    assert b + [] == b;
    var w := b[8 * i..8 * i + 8];
    assert w == CsrPages.EdgeWord(edges[i]);
    assert b[8 * i..8 * i + 4] == w[0..4] && b[8 * i + 4..8 * i + 8] == w[4..8];
    Word4(b, 8 * i, edges[i].rel);
    Word4(b, 8 * i + 4, edges[i].dst);
  }

  /** The meta page vacuum expects: "NDBCSRv1", two page counts at 40 and 44, and as many page ids from 48 on; 0 is none. */
  lemma OldSegmentFormat(pages: seq<Page>, live: set<nat>, id: u64)
    requires ReadPage(pages, live, id).Ok?
    ensures var page, listed := ReadPage(pages, live, id).value, Vacuum.SegmentPages(pages, live, id);
            var n := Little4(page, 40) + Little4(page, 44);
            && (listed.Ok? <==> page[0..8] == [78, 68, 66, 67, 83, 82, 118, 49] && 48 + 8 * n <= 8192)
            && (listed.Ok? ==> forall p :: p in listed.value <==> p != 0 && exists i :: 0 <= i < n && Little8(page, 48 + 8 * i) == p)
  {
    hide U32Of, U64Of, Little4, Little8;
    var page := ReadPage(pages, live, id).value;
    Reads4(page, 40);
    Reads4(page, 44);
    forall i | 0 <= i && 48 + 8 * i + 8 <= 8192 ensures Little8(page, 48 + 8 * i) == Vacuum.ListedId(page, i) { Reads8(page, 48 + 8 * i); }
    var n := Little4(page, 40) + Little4(page, 44);
    var listed := Vacuum.SegmentPages(pages, live, id);
    if listed.Ok? {
      forall p | p in listed.value ensures p != 0 && exists i :: 0 <= i < n && Little8(page, 48 + 8 * i) == p {
        var i :| 0 <= i < n && Vacuum.ListedId(page, i) != 0 && Vacuum.ListedId(page, i) == p;
        assert Little8(page, 48 + 8 * i) == p;
      }
      forall i | 0 <= i < n && Little8(page, 48 + 8 * i) != 0 ensures Little8(page, 48 + 8 * i) in listed.value {
        assert Vacuum.ListedId(page, i) in listed.value;
      }
    }
  }

  // ---- Keys of the property store -----------------------------------------------------------------------------------

  /** A tag, the owner, the length of the name, all most significant byte first, and the name. */
  lemma StoreKeyFormat(o: Overlay.Owner, name: Overlay.Name)
    ensures var b := Overlay.StoreKey(o, name);
            match o
            case NodeOwner(n) => |b| == 9 + |name| && b[0] == 0 && Big4(b, 1) == n && Big4(b, 5) == |name| && b[9..] == name
            case EdgeOwner(e) =>
              && |b| == 17 + |name| && b[0] == 1 && Big4(b, 1) == e.src && Big4(b, 5) == e.rel && Big4(b, 9) == e.dst
              && Big4(b, 13) == |name| && b[17..] == name
  {
    hide U32BytesBE, Big4;
    var b := Overlay.StoreKey(o, name);
    match o
    case NodeOwner(n) =>
      assert b[1..5] == U32BytesBE(n) && b[5..9] == U32BytesBE(|name|);
      BigWord(b, 1, n);
      BigWord(b, 5, |name|);
    case EdgeOwner(e) =>
      assert b[1..5] == U32BytesBE(e.src) && b[5..9] == U32BytesBE(e.rel) && b[9..13] == U32BytesBE(e.dst) && b[13..17] == U32BytesBE(|name|);
      BigWord(b, 1, e.src);
      BigWord(b, 5, e.rel);
      BigWord(b, 9, e.dst);
      BigWord(b, 13, |name|);
  }

  // ---- Placeholder names ----------------------------------------------------------------------------------------------

  /** The number that decimal digits write. */
  function Decimal(d: seq<byte>): int {
    if d == [] then 0
    else
      var last: int := d[|d| - 1];
      10 * Decimal(d[..|d| - 1]) + (last - 48)
  }

  lemma {:induction false} DigitsWrite(n: nat)
    ensures var d := Digits(n); d != [] && Decimal(d) == n && (forall i :: 0 <= i < |d| ==> 48 <= d[i] <= 57) && (n > 0 ==> d[0] != 48)
    decreases n
  {
    hide Decimal;
    var d := Digits(n);
    if n < 10 {
      assert d == [] + [48 + n];
      NothingWritten();
      OneDigit([], 48 + n);
    } else {
      DigitsWrite(n / 10);
      OneDigit(Digits(n / 10), 48 + n % 10);
    }
  }

  lemma NothingWritten()
    ensures Decimal([]) == 0
  {
  }

  lemma OneDigit(front: seq<byte>, last: byte)
    ensures Decimal(front + [last]) == 10 * Decimal(front) + (last as int - 48)
  {
    var d := front + [last];
    assert d[..|d| - 1] == front && d[|d| - 1] == last;
  }

  /** "__placeholder_" and the id in decimal, without leading zeros. */
  lemma PlaceholderFormat(id: nat)
    ensures var b := Placeholder(id);
            && |b| >= 15 && b[..14] == [95, 95, 112, 108, 97, 99, 101, 104, 111, 108, 100, 101, 114, 95]
            && Decimal(b[14..]) == id && (forall i :: 14 <= i < |b| ==> 48 <= b[i] <= 57) && (id > 0 ==> b[14] != 48)
  {
    hide Digits, Decimal;
    DigitsWrite(id);
    assert Placeholder(id)[14..] == Digits(id);
  }
}
