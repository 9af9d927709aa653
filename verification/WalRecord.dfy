/** The redo-log records and their body codec. */
module WalRecords {
  import opened Bytes
  import opened Wrappers
  import opened PropertyValues

  datatype SegmentPointer = SegmentPointer(id: u64, metaPageId: u64)

  datatype WalRecord =
    | BeginTx(txid: u64)
    | CommitTx(txid: u64)
    | PageWrite(pageId: u64, page: seq<byte>)
    | PageFree(pageId: u64)
    | CreateLabel(name: Utf8, labelId: u32)
    | CreateNode(externalId: u64, labelId: u32, internalId: u32)
    | AddNodeLabel(node: u32, labelId: u32)
    | RemoveNodeLabel(node: u32, labelId: u32)
    | CreateEdge(src: u32, rel: u32, dst: u32)
    | TombstoneNode(node: u32)
    | TombstoneEdge(src: u32, rel: u32, dst: u32)
    | ManifestSwitch(epoch: u64, segments: seq<SegmentPointer>, propertiesRoot: u64, statsRoot: u64)
    | Checkpoint(upToTxid: u64, epoch: u64, propertiesRoot: u64, statsRoot: u64)
    | SetNodeProperty(node: u32, key: Utf8, value: PropertyValue)
    | SetEdgeProperty(src: u32, rel: u32, dst: u32, key: Utf8, value: PropertyValue)
    | RemoveNodeProperty(node: u32, key: Utf8)
    | RemoveEdgeProperty(src: u32, rel: u32, dst: u32, key: Utf8)

  /** A page image is a whole page, and every length fits its 32-bit field. */
  predicate EncodableRecord(r: WalRecord) {
    match r
    case PageWrite(_, page) => |page| == PAGE_SIZE
    case CreateLabel(name, _) => |name| <= U32_MAX
    case ManifestSwitch(_, segments, _, _) => |segments| <= U32_MAX
    case SetNodeProperty(_, key, value) => |key| <= U32_MAX && Encodable(value)
    case SetEdgeProperty(_, _, _, key, value) => |key| <= U32_MAX && Encodable(value)
    case RemoveNodeProperty(_, key) => |key| <= U32_MAX
    case RemoveEdgeProperty(_, _, _, key) => |key| <= U32_MAX
    case _ => true
  }

  // ---- Encoding -------------------------------------------------------------

  function RecordType(r: WalRecord): byte {
    match r
    case BeginTx(_) => 1
    case CommitTx(_) => 2
    case PageWrite(_, _) => 3
    case PageFree(_) => 4
    case CreateNode(_, _, _) => 5
    case CreateEdge(_, _, _) => 6
    case TombstoneNode(_) => 7
    case TombstoneEdge(_, _, _) => 8
    case ManifestSwitch(_, _, _, _) => 9
    case Checkpoint(_, _, _, _) => 10
    case SetNodeProperty(_, _, _) => 11
    case SetEdgeProperty(_, _, _, _, _) => 12
    case RemoveNodeProperty(_, _) => 13
    case RemoveEdgeProperty(_, _, _, _) => 14
    case CreateLabel(_, _) => 15
    case AddNodeLabel(_, _) => 16
    case RemoveNodeLabel(_, _) => 17
  }

  function Words2(a: u32, b: u32): (p: seq<byte>)
    ensures |p| == 8
  {
    U32Bytes(a) + U32Bytes(b)
  }

  function Words3(a: u32, b: u32, c: u32): (p: seq<byte>)
    ensures |p| == 12
  {
    U32Bytes(a) + U32Bytes(b) + U32Bytes(c)
  }

  function PointerBytes(segments: seq<SegmentPointer>): (p: seq<byte>)
    ensures |p| == 16 * |segments|
  {
    if segments == [] then []
    else U64Bytes(segments[0].id) + U64Bytes(segments[0].metaPageId) + PointerBytes(segments[1..])
  }

  function Payload(r: WalRecord): (p: seq<byte>)
    requires EncodableRecord(r)
  {
    match r
    case BeginTx(txid) => U64Bytes(txid)
    case CommitTx(txid) => U64Bytes(txid)
    case PageWrite(id, page) => U64Bytes(id) + page
    case PageFree(id) => U64Bytes(id)
    case CreateLabel(name, lid) => U32Bytes(lid) + KeyBytes(name)
    case CreateNode(ext, lid, iid) => U64Bytes(ext) + Words2(lid, iid)
    case AddNodeLabel(node, lid) => Words2(node, lid)
    case RemoveNodeLabel(node, lid) => Words2(node, lid)
    case CreateEdge(s, rel, d) => Words3(s, rel, d)
    case TombstoneNode(node) => U32Bytes(node)
    case TombstoneEdge(s, rel, d) => Words3(s, rel, d)
    case ManifestSwitch(epoch, segs, p, s) =>
      U64Bytes(epoch) + U32Bytes(|segs|) + PointerBytes(segs) + (U64Bytes(p) + U64Bytes(s))
    case Checkpoint(upTo, epoch, p, s) => U64Bytes(upTo) + U64Bytes(epoch) + (U64Bytes(p) + U64Bytes(s))
    case SetNodeProperty(node, key, value) => U32Bytes(node) + KeyBytes(key) + Encode(value)
    case SetEdgeProperty(s, rel, d, key, value) => Words3(s, rel, d) + KeyBytes(key) + Encode(value)
    case RemoveNodeProperty(node, key) => U32Bytes(node) + KeyBytes(key)
    case RemoveEdgeProperty(s, rel, d, key) => Words3(s, rel, d) + KeyBytes(key)
  }

  function EncodeBody(r: WalRecord): (b: seq<byte>)
    requires EncodableRecord(r)
    ensures b != []
  {
    [RecordType(r)] + Payload(r)
  }

  // ---- Decoding -------------------------------------------------------------

  function W4(p: seq<byte>, at: nat): u32
    requires at + 4 <= |p|
  {
    U32Of(p[at..at + 4])
  }

  function W8(p: seq<byte>, at: nat): u64
    requires at + 8 <= |p|
  {
    U64Of(p[at..at + 8])
  }

  const BadLength: Error := WalProtocol("invalid payload length")

  /** The length-prefixed name at `at`, with what follows it. */
  function NameAt(p: seq<byte>, at: nat): (r: Result<(Utf8, seq<byte>)>) {
    if |p| < at + 4 then Err(BadLength)
    else
      var k := W4(p, at);
      if |p| < at + 4 + k then Err(BadLength)
      else if !ValidUtf8(p[at + 4..at + 4 + k]) then Err(WalProtocol("invalid UTF-8"))
      else Ok((p[at + 4..at + 4 + k], p[at + 4 + k..]))
  }

  function ValueOf(p: seq<byte>): Result<PropertyValue> {
    var v := DecodeValue(p);
    if v.Bad? then Err(WalProtocol("property decode error")) else Ok(v.value)
  }

  function Pointers(p: seq<byte>, count: nat): (segs: seq<SegmentPointer>)
    requires |p| >= 16 * count
    ensures |segs| == count
  {
    if count == 0 then [] else [SegmentPointer(W8(p, 0), W8(p, 8))] + Pointers(p[16..], count - 1)
  }

  /** The source checks only 8 of the 16 root bytes; a slice panic there is an error here. */
  function DecodeManifest(p: seq<byte>): Result<WalRecord> {
    if |p| < 28 then Err(BadLength)
    else
      var n := W4(p, 8);
      var end := 12 + 16 * n;
      if |p| < end + 16 then Err(BadLength)
      else Ok(ManifestSwitch(W8(p, 0), Pointers(p[12..], n), W8(p, end), W8(p, end + 8)))
  }

  /** The records whose payload has one fixed length. */
  function DecodeFixed(ty: byte, p: seq<byte>): Result<WalRecord> {
    if ty in {1, 2, 4} then
      if |p| != 8 then Err(BadLength)
      else if ty == 1 then Ok(BeginTx(U64Of(p)))
      else if ty == 2 then Ok(CommitTx(U64Of(p)))
      else Ok(PageFree(U64Of(p)))
    else if ty == 3 then
      if |p| != 8 + PAGE_SIZE then Err(BadLength) else Ok(PageWrite(W8(p, 0), p[8..]))
    else if ty == 5 then
      if |p| != 16 then Err(BadLength) else Ok(CreateNode(W8(p, 0), W4(p, 8), W4(p, 12)))
    else if ty == 6 || ty == 8 then
      if |p| != 12 then Err(BadLength)
      else if ty == 6 then Ok(CreateEdge(W4(p, 0), W4(p, 4), W4(p, 8)))
      else Ok(TombstoneEdge(W4(p, 0), W4(p, 4), W4(p, 8)))
    else if ty == 7 then
      if |p| != 4 then Err(BadLength) else Ok(TombstoneNode(W4(p, 0)))
    else if ty == 10 then
      if |p| != 32 then Err(BadLength) else Ok(Checkpoint(W8(p, 0), W8(p, 8), W8(p, 16), W8(p, 24)))
    else if ty == 16 || ty == 17 then
      if |p| != 8 then Err(BadLength)
      else if ty == 16 then Ok(AddNodeLabel(W4(p, 0), W4(p, 4)))
      else Ok(RemoveNodeLabel(W4(p, 0), W4(p, 4)))
    else Err(WalProtocol("unknown record type"))
  }

  /** The records that carry a name or key. */
  function DecodeNamed(ty: byte, p: seq<byte>): Result<WalRecord>
    requires ty in {11, 12, 13, 14, 15}
  {
    var at := if ty == 12 || ty == 14 then 12 else 4;
    var named :- NameAt(p, at);
    var (key, rest) := named;
    if ty == 15 then Ok(CreateLabel(key, W4(p, 0)))
    else if ty == 11 then
      var v :- ValueOf(rest);
      Ok(SetNodeProperty(W4(p, 0), key, v))
    else if ty == 12 then
      var v :- ValueOf(rest);
      Ok(SetEdgeProperty(W4(p, 0), W4(p, 4), W4(p, 8), key, v))
    else if rest != [] then Err(BadLength)
    else if ty == 13 then Ok(RemoveNodeProperty(W4(p, 0), key))
    else Ok(RemoveEdgeProperty(W4(p, 0), W4(p, 4), W4(p, 8), key))
  }

  function DecodeBody(body: seq<byte>): Result<WalRecord> {
    if body == [] then Err(WalProtocol("empty record body"))
    else if body[0] == 9 then DecodeManifest(body[1..])
    else if body[0] in {11, 12, 13, 14, 15} then DecodeNamed(body[0], body[1..])
    else DecodeFixed(body[0], body[1..])
  }

  // ---- Round trip -----------------------------------------------------------

  lemma Word4(pre: seq<byte>, x: u32, post: seq<byte>)
    ensures var p := pre + U32Bytes(x) + post; W4(p, |pre|) == x
  {
    var p := pre + U32Bytes(x) + post;
    assert p[|pre|..|pre| + 4] == U32Bytes(x);
    U32RoundTrip(x);
  }

  lemma Word8(pre: seq<byte>, x: u64, post: seq<byte>)
    ensures var p := pre + U64Bytes(x) + post; W8(p, |pre|) == x
  {
    var p := pre + U64Bytes(x) + post;
    assert p[|pre|..|pre| + 8] == U64Bytes(x);
    U64RoundTrip(x);
  }

  lemma Words2At(pre: seq<byte>, a: u32, b: u32)
    ensures var p := pre + Words2(a, b); W4(p, |pre|) == a && W4(p, |pre| + 4) == b
  {
    Word4(pre, a, U32Bytes(b));
    Word4(pre + U32Bytes(a), b, []);
    assert pre + Words2(a, b) == pre + U32Bytes(a) + U32Bytes(b) == pre + U32Bytes(a) + U32Bytes(b) + [];
  }

  lemma Words3At(a: u32, b: u32, c: u32, post: seq<byte>)
    ensures var p := Words3(a, b, c) + post; W4(p, 0) == a && W4(p, 4) == b && W4(p, 8) == c
  {
    var p := Words3(a, b, c) + post;
    assert p == [] + U32Bytes(a) + (U32Bytes(b) + U32Bytes(c) + post);
    Word4([], a, U32Bytes(b) + U32Bytes(c) + post);
    assert p == U32Bytes(a) + U32Bytes(b) + (U32Bytes(c) + post);
    Word4(U32Bytes(a), b, U32Bytes(c) + post);
    Word4(U32Bytes(a) + U32Bytes(b), c, post);
  }

  lemma Words8At(pre: seq<byte>, a: u64, b: u64)
    ensures var p := pre + (U64Bytes(a) + U64Bytes(b)); W8(p, |pre|) == a && W8(p, |pre| + 8) == b
  {
    var p := pre + (U64Bytes(a) + U64Bytes(b));
    Word8(pre, a, U64Bytes(b));
    assert p == pre + U64Bytes(a) + U64Bytes(b) == pre + U64Bytes(a) + U64Bytes(b) + [];
    Word8(pre + U64Bytes(a), b, []);
  }

  lemma NameRoundTrip(pre: seq<byte>, key: Utf8, post: seq<byte>)
    requires |key| <= U32_MAX
    ensures NameAt(pre + KeyBytes(key) + post, |pre|) == Ok((key, post))
  {
    var p := pre + KeyBytes(key) + post;
    assert p == pre + U32Bytes(|key|) + (key + post);
    Word4(pre, |key|, key + post);
    assert p[|pre| + 4..|pre| + 4 + |key|] == key;
    assert p[|pre| + 4 + |key|..] == post;
  }

  lemma {:induction false} PointersRoundTrip(segs: seq<SegmentPointer>, post: seq<byte>)
    ensures Pointers(PointerBytes(segs) + post, |segs|) == segs
  {
    if segs != [] {
      PointerAt(segs[0], PointerBytes(segs[1..]) + post);
      Reassociate(U64Bytes(segs[0].id) + U64Bytes(segs[0].metaPageId), PointerBytes(segs[1..]), post);
      PointersRoundTrip(segs[1..], post);
      assert segs == [segs[0]] + segs[1..];
    }
  }

  lemma PointerAt(seg: SegmentPointer, more: seq<byte>)
    ensures var p := U64Bytes(seg.id) + U64Bytes(seg.metaPageId) + more;
            W8(p, 0) == seg.id && W8(p, 8) == seg.metaPageId && p[16..] == more
  {
    var id, page := seg.id, seg.metaPageId;
    assert U64Bytes(id) + U64Bytes(page) + more == [] + U64Bytes(id) + (U64Bytes(page) + more);
    Word8([], id, U64Bytes(page) + more);
    Word8(U64Bytes(id), page, more);
  }

  lemma ManifestRoundTrip(epoch: u64, segs: seq<SegmentPointer>, p: u64, s: u64)
    requires |segs| <= U32_MAX
    ensures DecodeManifest(Payload(ManifestSwitch(epoch, segs, p, s))) == Ok(ManifestSwitch(epoch, segs, p, s))
  {
    var head, ptrs, roots := U64Bytes(epoch) + U32Bytes(|segs|), PointerBytes(segs), U64Bytes(p) + U64Bytes(s);
    ManifestHeader(epoch, |segs|, ptrs + roots);
    Words8At(head + ptrs, p, s);
    PointersRoundTrip(segs, roots);
    var b := Payload(ManifestSwitch(epoch, segs, p, s));
    assert b == head + ptrs + roots == head + (ptrs + roots) by { Reassociate(head, ptrs, roots); }
    assert |head + ptrs| == 12 + 16 * |segs|;
    assert Pointers(b[12..], |segs|) == segs;
  }

  lemma ManifestHeader(epoch: u64, n: u32, more: seq<byte>)
    ensures var b := U64Bytes(epoch) + U32Bytes(n) + more;
            W8(b, 0) == epoch && W4(b, 8) == n && b[12..] == more
  {
    assert U64Bytes(epoch) + U32Bytes(n) + more == [] + U64Bytes(epoch) + (U32Bytes(n) + more);
    Word8([], epoch, U32Bytes(n) + more);
    Word4(U64Bytes(epoch), n, more);
  }

  lemma CheckpointRoundTrip(r: WalRecord)
    requires r.Checkpoint?
    ensures DecodeFixed(10, Payload(r)) == Ok(r)
  {
    var roots := U64Bytes(r.propertiesRoot) + U64Bytes(r.statsRoot);
    var b := Payload(r);
    Words8At(U64Bytes(r.upToTxid) + U64Bytes(r.epoch), r.propertiesRoot, r.statsRoot);
    Word8(U64Bytes(r.upToTxid), r.epoch, roots);
    assert b == [] + U64Bytes(r.upToTxid) + (U64Bytes(r.epoch) + roots);
    Word8([], r.upToTxid, U64Bytes(r.epoch) + roots);
  }

  lemma PageRoundTrip(r: WalRecord)
    requires EncodableRecord(r) && (r.BeginTx? || r.CommitTx? || r.PageFree? || r.PageWrite?)
    ensures DecodeFixed(RecordType(r), Payload(r)) == Ok(r)
  {
    match r
    case BeginTx(txid) => U64RoundTrip(txid);
    case CommitTx(txid) => U64RoundTrip(txid);
    case PageFree(id) => U64RoundTrip(id);
    case PageWrite(id, page) => Word8([], id, page); assert Payload(r)[8..] == page;
  }

  lemma NodeRoundTrip(r: WalRecord)
    requires EncodableRecord(r) && (r.CreateNode? || r.AddNodeLabel? || r.RemoveNodeLabel? || r.TombstoneNode?)
    ensures DecodeFixed(RecordType(r), Payload(r)) == Ok(r)
  {
    match r
    case CreateNode(ext, lid, iid) =>
      Word8([], ext, Words2(lid, iid));
      Words2At(U64Bytes(ext), lid, iid);
    case AddNodeLabel(node, lid) => Words2At([], node, lid); assert [] + Words2(node, lid) == Words2(node, lid);
    case RemoveNodeLabel(node, lid) => Words2At([], node, lid); assert [] + Words2(node, lid) == Words2(node, lid);
    case TombstoneNode(node) => Word4([], node, []); NoTail(Payload(r));
  }

  lemma EdgeRoundTrip(r: WalRecord)
    requires EncodableRecord(r) && (r.CreateEdge? || r.TombstoneEdge?)
    ensures DecodeFixed(RecordType(r), Payload(r)) == Ok(r)
  {
    match r
    case CreateEdge(s, rel, d) => Words3At(s, rel, d, []); NoTail(Payload(r));
    case TombstoneEdge(s, rel, d) => Words3At(s, rel, d, []); NoTail(Payload(r));
  }

  lemma FixedRoundTrip(r: WalRecord)
    requires EncodableRecord(r) && RecordType(r) !in {9, 10, 11, 12, 13, 14, 15}
    ensures DecodeFixed(RecordType(r), Payload(r)) == Ok(r)
  {
    hide DecodeFixed, Payload;
    if r.CreateEdge? || r.TombstoneEdge? {
      EdgeRoundTrip(r);
    } else if r.CreateNode? || r.AddNodeLabel? || r.RemoveNodeLabel? || r.TombstoneNode? {
      NodeRoundTrip(r);
    } else {
      PageRoundTrip(r);
    }
  }

  lemma NodeNamed(head: u32, key: Utf8, post: seq<byte>)
    requires |key| <= U32_MAX
    ensures var p := U32Bytes(head) + KeyBytes(key) + post;
            W4(p, 0) == head && NameAt(p, 4) == Ok((key, post))
  {
    NameRoundTrip(U32Bytes(head), key, post);
    assert U32Bytes(head) + KeyBytes(key) + post == [] + U32Bytes(head) + (KeyBytes(key) + post);
    Word4([], head, KeyBytes(key) + post);
  }

  lemma EdgeNamed(src: u32, rel: u32, dst: u32, key: Utf8, post: seq<byte>)
    requires |key| <= U32_MAX
    ensures var p := Words3(src, rel, dst) + KeyBytes(key) + post;
            && W4(p, 0) == src && W4(p, 4) == rel && W4(p, 8) == dst
            && NameAt(p, 12) == Ok((key, post))
  {
    NameRoundTrip(Words3(src, rel, dst), key, post);
    Reassociate(Words3(src, rel, dst), KeyBytes(key), post);
    Words3At(src, rel, dst, KeyBytes(key) + post);
  }

  lemma ValueOfEncode(v: PropertyValue)
    requires Encodable(v)
    ensures ValueOf(Encode(v)) == Ok(v)
  {
    assert Encode(v) + [] == Encode(v);
    ValueRoundTrip(v, []);
  }

  lemma NamedRoundTrip(r: WalRecord)
    requires EncodableRecord(r) && RecordType(r) in {11, 12, 13, 14, 15}
    ensures DecodeNamed(RecordType(r), Payload(r)) == Ok(r)
  {
    match r
    case CreateLabel(name, lid) => NodeNamed(lid, name, []); NoTail(Payload(r));
    case RemoveNodeProperty(node, key) => NodeNamed(node, key, []); NoTail(Payload(r));
    case RemoveEdgeProperty(s, rel, d, key) => EdgeNamed(s, rel, d, key, []); NoTail(Payload(r));
    case SetNodeProperty(node, key, value) => NodeNamed(node, key, Encode(value)); ValueOfEncode(value);
    case SetEdgeProperty(s, rel, d, key, value) => EdgeNamed(s, rel, d, key, Encode(value)); ValueOfEncode(value);
  }

  lemma NoTail(p: seq<byte>)
    ensures p + [] == p
  {
  }

  /** `decode_body` inverts `encode_body` on all 17 record kinds. */
  lemma BodyRoundTrip(r: WalRecord)
    requires EncodableRecord(r)
    ensures DecodeBody(EncodeBody(r)) == Ok(r)
  {
    assert EncodeBody(r)[1..] == Payload(r);
    if RecordType(r) == 9 { ManifestRoundTrip(r.epoch, r.segments, r.propertiesRoot, r.statsRoot); }
    else if RecordType(r) == 10 { CheckpointRoundTrip(r); }
    else if RecordType(r) in {11, 12, 13, 14, 15} { NamedRoundTrip(r); }
    else { FixedRoundTrip(r); }
  }
}
