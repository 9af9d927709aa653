/** CSR segments on pages: index blobs, the meta page, `persist` and `load`. */
module CsrPages {
  import opened Bytes
  import opened Wrappers
  import opened Pagers
  import opened BlobStores
  import opened Csr
  import opened Graph

  // ---- Words of eight bytes ---------------------------------------------------------------

  type Word = w: seq<byte> | |w| == 8 witness Zeros(8)

  function Flatten(words: seq<Word>): (b: seq<byte>)
    ensures |b| == 8 * |words|
  {
    if words == [] then [] else words[0] + Flatten(words[1..])
  }

  function WordAt(b: seq<byte>, i: nat): Word
    requires 8 * i + 8 <= |b|
  {
    b[8 * i..8 * i + 8]
  }

  lemma {:induction false} FlattenAt(words: seq<Word>, pad: seq<byte>, i: nat)
    requires i < |words|
    ensures WordAt(Flatten(words) + pad, i) == words[i]
  {
    var all, tail := Flatten(words) + pad, Flatten(words[1..]) + pad;
    assert all == words[0] + tail;
    if i != 0 {
      FlattenAt(words[1..], pad, i - 1);
      assert WordAt(all, i) == WordAt(tail, i - 1);
    }
  }

  function EdgeWord(r: EdgeRecord): Word { U32Bytes(r.rel) + U32Bytes(r.dst) }

  function EdgeOfWord(w: Word): EdgeRecord { EdgeRecord(U32Of(w[0..4]), U32Of(w[4..8])) }

  lemma EdgeWordRoundTrip(r: EdgeRecord)
    ensures EdgeOfWord(EdgeWord(r)) == r
  {
    hide U32Bytes, U32Of;
    assert EdgeWord(r)[0..4] == U32Bytes(r.rel) && EdgeWord(r)[4..8] == U32Bytes(r.dst);
    U32RoundTrip(r.rel);
    U32RoundTrip(r.dst);
  }

  function EncodeOffsets(offsets: seq<u64>): (b: seq<byte>)
    ensures |b| == 8 * |offsets|
  {
    Flatten(seq(|offsets|, i requires 0 <= i < |offsets| => U64Bytes(offsets[i])))
  }

  function DecodeOffsets(b: seq<byte>, len: nat): Result<seq<u64>> {
    if |b| < 8 * len then Err(WalProtocol("offset blob too small"))
    else Ok(seq(len, i requires 0 <= i < len => U64Of(WordAt(b, i))))
  }

  function EncodeEdges(edges: seq<EdgeRecord>): (b: seq<byte>)
    ensures |b| == 8 * |edges|
  {
    Flatten(seq(|edges|, i requires 0 <= i < |edges| => EdgeWord(edges[i])))
  }

  function DecodeEdges(b: seq<byte>, len: nat): Result<seq<EdgeRecord>> {
    if |b| < 8 * len then Err(WalProtocol("edge blob too small"))
    else Ok(seq(len, i requires 0 <= i < len => EdgeOfWord(WordAt(b, i))))
  }

  lemma OffsetsRoundTrip(offsets: seq<u64>, pad: seq<byte>)
    ensures DecodeOffsets(EncodeOffsets(offsets) + pad, |offsets|) == Ok(offsets)
  {
    hide Flatten, WordAt, U64Bytes, U64Of;
    var words: seq<Word> := seq(|offsets|, i requires 0 <= i < |offsets| => U64Bytes(offsets[i]));
    forall i | 0 <= i < |offsets| ensures U64Of(WordAt(EncodeOffsets(offsets) + pad, i)) == offsets[i] {
      FlattenAt(words, pad, i);
      U64RoundTrip(offsets[i]);
    }
    assert DecodeOffsets(EncodeOffsets(offsets) + pad, |offsets|).value == offsets;
  }

  lemma EdgesRoundTrip(edges: seq<EdgeRecord>, pad: seq<byte>)
    ensures DecodeEdges(EncodeEdges(edges) + pad, |edges|) == Ok(edges)
  {
    hide Flatten, WordAt, EdgeWord, EdgeOfWord;
    var words: seq<Word> := seq(|edges|, i requires 0 <= i < |edges| => EdgeWord(edges[i]));
    forall i | 0 <= i < |edges| ensures EdgeOfWord(WordAt(EncodeEdges(edges) + pad, i)) == edges[i] {
      FlattenAt(words, pad, i);
      EdgeWordRoundTrip(edges[i]);
    }
    assert DecodeEdges(EncodeEdges(edges) + pad, |edges|).value == edges;
  }

  // ---- Blobs on listed pages ----------------------------------------------------------------------

  /** `read_blob_pages`: the listed pages one after the other. */
  function ReadAll(pages: seq<Page>, live: set<nat>, ids: seq<u64>): Result<seq<byte>> {
    if ids == [] then Ok([])
    else
      var page :- ReadPage(pages, live, ids[0]);
      var rest :- ReadAll(pages, live, ids[1..]);
      Ok(page + rest)
  }

  function PageCount(n: nat): nat { (n + PAGE_SIZE - 1) / PAGE_SIZE }

  /** The listed pages hold the blob, padded to whole pages. */
  ghost predicate Holds(pages: seq<Page>, live: set<nat>, ids: seq<u64>, blob: seq<byte>) {
    var b := ReadAll(pages, live, ids);
    b.Ok? && blob <= b.value
  }

  lemma {:induction false} ReadAllSnoc(pages: seq<Page>, live: set<nat>, ids: seq<u64>, id: u64)
    requires ReadAll(pages, live, ids).Ok? && ReadPage(pages, live, id).Ok?
    ensures ReadAll(pages, live, ids + [id]) == Ok(ReadAll(pages, live, ids).value + ReadPage(pages, live, id).value)
  {
    hide ReadPage;
    if ids == [] {
      assert [] + [id] == [id];
      assert ReadAll(pages, live, [id][1..]) == Ok([]);
      var page := ReadPage(pages, live, id).value;
      assert page + [] == page && [] + page == page;
    } else {
      assert (ids + [id])[1..] == ids[1..] + [id];
      ReadAllSnoc(pages, live, ids[1..], id);
      Reassociated(ReadPage(pages, live, ids[0]).value, ReadAll(pages, live, ids[1..]).value, ReadPage(pages, live, id).value);
    }
  }

  lemma Reassociated(a: seq<byte>, b: seq<byte>, c: seq<byte>)
    ensures a + (b + c) == a + b + c
  {
  }

  lemma {:induction false} ReadAllUntouched(a: seq<Page>, la: set<nat>, b: seq<Page>, lb: set<nat>, ids: seq<u64>)
    requires Untouched(a, la, b, lb) && ReadAll(a, la, ids).Ok?
    ensures ReadAll(b, lb, ids) == ReadAll(a, la, ids)
  {
    if ids != [] { ReadAllUntouched(a, la, b, lb, ids[1..]); }
  }

  lemma ReadNothing(pages: seq<Page>, live: set<nat>)
    ensures ReadAll(pages, live, []) == Ok([])
  {
  }

  /** None of the pages was in use. */
  ghost predicate AllFresh(ids: seq<u64>, live: set<nat>) { forall i :: 0 <= i < |ids| ==> ids[i] !in live }

  /** One page more at the end of a blob. */
  method AppendPage(pager: Pager, page: Page, ghost ids: seq<u64>, ghost written: seq<byte>) returns (r: Result<nat>)
    requires pager.Valid() && ReadAll(pager.pages, pager.live, ids) == Ok(written)
    modifies pager, pager.bits
    ensures pager.Valid() && Untouched(old(pager.pages), old(pager.live), pager.pages, pager.live)
    ensures SameButNext(old(pager.meta), pager.meta)
    ensures r.Ok? <==> |old(pager.live)| < BITMAP_BITS
    ensures r.Ok? ==> |pager.live| == |old(pager.live)| + 1 && DataPage(r.value) && r.value !in old(pager.live)
    ensures r.Ok? ==> ReadAll(pager.pages, pager.live, ids + [r.value]) == Ok(written + page)
  {
    hide Maps, EncodeMeta, Untouched, ReadAll, ReadPage;
    ghost var pages, live := pager.pages, pager.live;
    r := PutFresh(pager, page);
    if r.Err? { return; }
    ReadAllUntouched(pages, live, pager.pages, pager.live, ids);
    ReadAllSnoc(pager.pages, pager.live, ids, r.value);
  }

  /** `write_blob_pages`. */
  method WriteBlobPages(pager: Pager, blob: seq<byte>) returns (r: Result<seq<u64>>)
    requires pager.Valid()
    modifies pager, pager.bits
    ensures pager.Valid() && Untouched(old(pager.pages), old(pager.live), pager.pages, pager.live)
    ensures SameButNext(old(pager.meta), pager.meta)
    ensures r.Ok? <==> |old(pager.live)| + PageCount(|blob|) <= BITMAP_BITS
    ensures r.Ok? ==> |r.value| == PageCount(|blob|) && |pager.live| == |old(pager.live)| + |r.value|
    ensures r.Ok? ==> Holds(pager.pages, pager.live, r.value, blob) && AllFresh(r.value, old(pager.live))
  {
    hide Maps, EncodeMeta, Untouched, ReadAll, ReadPage;
    var ids: seq<u64>, pos := [], 0;
    ghost var pages, live := pager.pages, pager.live;
    ghost var written: seq<byte> := [];
    UntouchedSelf(pages, live);
    ReadNothing(pages, live);
    LiveBound(pager);
    while pos < |blob|
      invariant pager.Valid() && Untouched(pages, live, pager.pages, pager.live) && SameButNext(old(pager.meta), pager.meta)
      invariant pos <= |blob| && pos == Min(|ids| * PAGE_SIZE, |blob|) && |pager.live| == |live| + |ids| <= BITMAP_BITS
      invariant ReadAll(pager.pages, pager.live, ids) == Ok(written) && AllFresh(ids, live)
      invariant |written| == |ids| * PAGE_SIZE < |blob| + PAGE_SIZE && written[..pos] == blob[..pos]
      decreases |blob| - pos
    {
      var n := Min(|blob| - pos, PAGE_SIZE);
      var page := blob[pos..pos + n] + Zeros(PAGE_SIZE - n);
      ghost var midPages, midLive := pager.pages, pager.live;
      var pid := AppendPage(pager, page, ids, written);
      UntouchedTrans(pages, live, midPages, midLive, pager.pages, pager.live);
      UntouchedLive(pages, live, midPages, midLive);
      if pid.Err? { return Err(pid.error); }
      BlobGrows(blob, written, pos, n, page);
      written := written + page;
      ids := ids + [pid.value];
      pos := pos + n;
      LiveBound(pager);
    }
    assert blob[..pos] == blob;
    r := Ok(ids);
  }

  lemma UntouchedLive(a: seq<Page>, la: set<nat>, b: seq<Page>, lb: set<nat>)
    requires Untouched(a, la, b, lb)
    ensures la <= lb
  {
  }

  lemma BlobGrows(blob: seq<byte>, written: seq<byte>, pos: nat, n: nat, page: Page)
    requires pos + n <= |blob| && n <= PAGE_SIZE && pos == |written| && written == blob[..pos]
    requires page[..n] == blob[pos..pos + n]
    ensures (written + page)[..pos + n] == blob[..pos + n]
  {
    assert blob[..pos + n] == blob[..pos] + blob[pos..pos + n];
    assert (written + page)[..pos + n] == written + page[..n];
  }

  /** `read_blob_pages`. */
  method ReadBlobPages(pager: Pager, ids: seq<u64>) returns (r: Result<seq<byte>>)
    requires pager.Valid()
    ensures r == ReadAll(pager.pages, pager.live, ids)
  {
    hide Maps, EncodeMeta, ReadPage;
    var out: seq<byte> := [];
    assert ids[0..] == ids;
    ghost var whole := ReadAll(pager.pages, pager.live, ids);
    assert whole.Ok? ==> [] + whole.value == whole.value;
    for i := 0 to |ids|
      invariant whole == Behind(out, ReadAll(pager.pages, pager.live, ids[i..]))
    {
      assert ids[i..][1..] == ids[i + 1..];
      var page := pager.Read(ids[i]);
      if page.Err? { return Err(page.error); }
      ghost var rest := ReadAll(pager.pages, pager.live, ids[i + 1..]);
      if rest.Ok? { Reassociated(out, page.value, rest.value); }
      out := out + page.value;
    }
    assert out + [] == out;
    r := Ok(out);
  }

  function Behind(front: seq<byte>, r: Result<seq<byte>>): Result<seq<byte>> {
    if r.Ok? then Ok(front + r.value) else r
  }

  // ---- The meta page ----------------------------------------------------------------------------

  /** "NDBCSRv2". */
  const META_MAGIC: seq<byte> := [78, 68, 66, 67, 83, 82, 118, 50]

  datatype SegmentMeta = SegmentMeta(
    id: u64,
    minSrc: u32,
    maxSrc: u32,
    minDst: u32,
    maxDst: u32,
    offsetsLen: u64,
    edgesLen: u64,
    inOffsetsLen: u64,
    inEdgesLen: u64,
    offsetsPages: seq<u64>,
    edgesPages: seq<u64>,
    inOffsetsPages: seq<u64>,
    inEdgesPages: seq<u64>)
  {
    function AllPages(): seq<u64> { offsetsPages + edgesPages + inOffsetsPages + inEdgesPages }
  }

  /** `encode_meta`. */
  function EncodeSegmentMeta(m: SegmentMeta): Result<Page> {
    var n := |m.AllPages()|;
    if 80 + 8 * n > PAGE_SIZE then Err(WalProtocol("csr meta page overflow"))
    else Ok(Header(m) + EncodeOffsets(m.AllPages()) + Zeros(PAGE_SIZE - 80 - 8 * n))
  }

  function Header(m: SegmentMeta): (h: seq<byte>)
    requires |m.AllPages()| < U32_MAX
    ensures |h| == 80
  {
    META_MAGIC + U64Bytes(m.id) + U32Bytes(m.minSrc) + U32Bytes(m.maxSrc) + U32Bytes(m.minDst) + U32Bytes(m.maxDst)
    + U64Bytes(m.offsetsLen) + U64Bytes(m.edgesLen) + U64Bytes(m.inOffsetsLen) + U64Bytes(m.inEdgesLen)
    + U32Bytes(|m.offsetsPages|) + U32Bytes(|m.edgesPages|) + U32Bytes(|m.inOffsetsPages|) + U32Bytes(|m.inEdgesPages|)
  }

  function IdsAt(page: Page, from: nat, n: nat): (ids: seq<u64>)
    requires 80 + 8 * (from + n) <= PAGE_SIZE
    ensures |ids| == n
  {
    seq<u64>(n, i requires 0 <= i < n => U64Of(WordAt(page[80..], from + i)))
  }

  /** The part of `decode_segment` that reads the meta page. */
  function DecodeSegmentMeta(page: Page): Result<SegmentMeta> {
    if page[0..8] != META_MAGIC then Err(WalProtocol("invalid csr meta magic"))
    else
      var a, b, c, d := U32Of(page[64..68]), U32Of(page[68..72]), U32Of(page[72..76]), U32Of(page[76..80]);
      if 80 + 8 * (a + b + c + d) > PAGE_SIZE then Err(WalProtocol("csr meta page overflow"))
      else Ok(SegmentMeta(
        U64Of(page[8..16]), U32Of(page[16..20]), U32Of(page[20..24]), U32Of(page[24..28]), U32Of(page[28..32]),
        U64Of(page[32..40]), U64Of(page[40..48]), U64Of(page[48..56]), U64Of(page[56..64]),
        IdsAt(page, 0, a), IdsAt(page, a, b), IdsAt(page, a + b, c), IdsAt(page, a + b + c, d)))
  }

  lemma InHeader(page: Page, i: nat, j: nat)
    requires i <= j <= 80
    ensures page[i..j] == page[..80][i..j]
  {
  }

  lemma HeaderWide(m: SegmentMeta, page: Page)
    requires |m.AllPages()| < U32_MAX && page[..80] == Header(m)
    ensures page[0..8] == META_MAGIC && page[8..16] == U64Bytes(m.id)
    ensures page[16..20] == U32Bytes(m.minSrc) && page[20..24] == U32Bytes(m.maxSrc)
    ensures page[24..28] == U32Bytes(m.minDst) && page[28..32] == U32Bytes(m.maxDst)
    ensures page[32..40] == U64Bytes(m.offsetsLen) && page[40..48] == U64Bytes(m.edgesLen)
    ensures page[48..56] == U64Bytes(m.inOffsetsLen) && page[56..64] == U64Bytes(m.inEdgesLen)
  {
    hide U32Bytes, U64Bytes;
    InHeader(page, 0, 8); InHeader(page, 8, 16); InHeader(page, 16, 20); InHeader(page, 20, 24); InHeader(page, 24, 28);
    InHeader(page, 28, 32); InHeader(page, 32, 40); InHeader(page, 40, 48); InHeader(page, 48, 56); InHeader(page, 56, 64);
  }

  lemma HeaderCounts(m: SegmentMeta, page: Page)
    requires |m.AllPages()| < U32_MAX && page[..80] == Header(m)
    ensures page[64..68] == U32Bytes(|m.offsetsPages|) && page[68..72] == U32Bytes(|m.edgesPages|)
    ensures page[72..76] == U32Bytes(|m.inOffsetsPages|) && page[76..80] == U32Bytes(|m.inEdgesPages|)
  {
    hide U32Bytes, U64Bytes;
    InHeader(page, 64, 68); InHeader(page, 68, 72); InHeader(page, 72, 76); InHeader(page, 76, 80);
  }

  lemma IdsOf(m: SegmentMeta, page: Page, from: nat, n: nat)
    requires EncodeSegmentMeta(m) == Ok(page) && from + n <= |m.AllPages()|
    ensures 80 + 8 * (from + n) <= PAGE_SIZE && IdsAt(page, from, n) == m.AllPages()[from..from + n]
  {
    hide Header, Flatten, WordAt, U64Bytes, U64Of;
    var all := m.AllPages();
    var words: seq<Word> := seq(|all|, i requires 0 <= i < |all| => U64Bytes(all[i]));
    var pad := Zeros(PAGE_SIZE - 80 - 8 * |all|);
    assert page[80..] == Flatten(words) + pad;
    forall k | from <= k < from + n ensures U64Of(WordAt(page[80..], k)) == all[k] {
      FlattenAt(words, pad, k);
      U64RoundTrip(all[k]);
    }
    forall i | 0 <= i < n ensures IdsAt(page, from, n)[i] == all[from..from + n][i] {
      assert IdsAt(page, from, n)[i] == U64Of(WordAt(page[80..], from + i));
    }
  }

  /** A meta page that was encoded decodes to the same meta. */
  lemma SegmentMetaRoundTrip(m: SegmentMeta)
    requires EncodeSegmentMeta(m).Ok?
    ensures DecodeSegmentMeta(EncodeSegmentMeta(m).value) == Ok(m)
  {
    hide Header, EncodeOffsets, U32Of, U64Of, U32Bytes, U64Bytes, IdsAt;
    var page, all := EncodeSegmentMeta(m).value, m.AllPages();
    var a, b, c, d := |m.offsetsPages|, |m.edgesPages|, |m.inOffsetsPages|, |m.inEdgesPages|;
    assert page[..80] == Header(m);
    HeaderWide(m, page);
    HeaderCounts(m, page);
    U64RoundTrip(m.id); U32RoundTrip(m.minSrc); U32RoundTrip(m.maxSrc); U32RoundTrip(m.minDst); U32RoundTrip(m.maxDst);
    U64RoundTrip(m.offsetsLen); U64RoundTrip(m.edgesLen); U64RoundTrip(m.inOffsetsLen); U64RoundTrip(m.inEdgesLen);
    U32RoundTrip(a); U32RoundTrip(b); U32RoundTrip(c); U32RoundTrip(d);
    IdsOf(m, page, 0, a); IdsOf(m, page, a, b); IdsOf(m, page, a + b, c); IdsOf(m, page, a + b + c, d);
    assert all[0..a] == m.offsetsPages && all[a..a + b] == m.edgesPages;
    assert all[a + b..a + b + c] == m.inOffsetsPages && all[a + b + c..a + b + c + d] == m.inEdgesPages;
  }

  // ---- Load and persist --------------------------------------------------------------------------

  /** `load`: what reopening gets from a meta page. */
  function LoadSegment(pages: seq<Page>, live: set<nat>, metaPageId: u64): Result<Segment> {
    var page :- ReadPage(pages, live, metaPageId);
    var m :- DecodeSegmentMeta(page);
    var b1 :- ReadAll(pages, live, m.offsetsPages);
    var b2 :- ReadAll(pages, live, m.edgesPages);
    var b3 :- ReadAll(pages, live, m.inOffsetsPages);
    var b4 :- ReadAll(pages, live, m.inEdgesPages);
    var offsets :- DecodeOffsets(b1, m.offsetsLen);
    var edges :- DecodeEdges(b2, m.edgesLen);
    var inOffsets :- DecodeOffsets(b3, m.inOffsetsLen);
    var inEdges :- DecodeEdges(b4, m.inEdgesLen);
    Ok(Segment(m.id, metaPageId, m.minSrc, m.maxSrc, m.minDst, m.maxDst, offsets, edges, inOffsets, inEdges))
  }

  /** The pages a segment is read from. */
  function Footprint(pages: seq<Page>, live: set<nat>, metaPageId: u64): set<nat> {
    var page := ReadPage(pages, live, metaPageId);
    if page.Err? then {metaPageId}
    else
      var m := DecodeSegmentMeta(page.value);
      if m.Err? then {metaPageId} else {metaPageId} + set i | 0 <= i < |m.value.AllPages()| :: m.value.AllPages()[i]
  }

  /** As `persist` lists them: just as many pages as the lengths need. */
  ghost predicate Snug(m: SegmentMeta) {
    && |m.offsetsPages| == PageCount(8 * m.offsetsLen) && |m.edgesPages| == PageCount(8 * m.edgesLen)
    && |m.inOffsetsPages| == PageCount(8 * m.inOffsetsLen) && |m.inEdgesPages| == PageCount(8 * m.inEdgesLen)
  }

  ghost predicate SnugAt(pages: seq<Page>, live: set<nat>, p: u64) {
    && ReadPage(pages, live, p).Ok? && DecodeSegmentMeta(ReadPage(pages, live, p).value).Ok?
    && Snug(DecodeSegmentMeta(ReadPage(pages, live, p).value).value)
  }

  lemma FreshFootprint(pages: seq<Page>, live: set<nat>, m: SegmentMeta, p: u64, before: set<nat>)
    requires EncodeSegmentMeta(m).Ok? && ReadPage(pages, live, p) == Ok(EncodeSegmentMeta(m).value)
    requires AllFresh(m.AllPages(), before) && p !in before
    ensures Footprint(pages, live, p) !! before && (Snug(m) ==> SnugAt(pages, live, p))
  {
    hide EncodeSegmentMeta, DecodeSegmentMeta, ReadPage;
    SegmentMetaRoundTrip(m);
  }

  method Load(pager: Pager, metaPageId: u64) returns (r: Result<Segment>)
    requires pager.Valid()
    ensures r == LoadSegment(pager.pages, pager.live, metaPageId)
  {
    hide Maps, EncodeMeta, ReadPage, DecodeSegmentMeta, ReadAll, DecodeOffsets, DecodeEdges;
    var page :- pager.Read(metaPageId);
    var m :- DecodeSegmentMeta(page);
    var b1 :- ReadBlobPages(pager, m.offsetsPages);
    var b2 :- ReadBlobPages(pager, m.edgesPages);
    var b3 :- ReadBlobPages(pager, m.inOffsetsPages);
    var b4 :- ReadBlobPages(pager, m.inEdgesPages);
    var offsets :- DecodeOffsets(b1, m.offsetsLen);
    var edges :- DecodeEdges(b2, m.edgesLen);
    var inOffsets :- DecodeOffsets(b3, m.inOffsetsLen);
    var inEdges :- DecodeEdges(b4, m.inEdgesLen);
    r := Ok(Segment(m.id, metaPageId, m.minSrc, m.maxSrc, m.minDst, m.maxDst, offsets, edges, inOffsets, inEdges));
  }

  /** A segment stays loadable, unchanged, whatever is written to pages that were free. */
  lemma LoadUntouched(a: seq<Page>, la: set<nat>, b: seq<Page>, lb: set<nat>, metaPageId: u64)
    requires Untouched(a, la, b, lb) && LoadSegment(a, la, metaPageId).Ok?
    ensures LoadSegment(b, lb, metaPageId) == LoadSegment(a, la, metaPageId)
  {
    hide DecodeSegmentMeta, ReadAll, DecodeOffsets, DecodeEdges;
    var m := DecodeSegmentMeta(ReadPage(a, la, metaPageId).value).value;
    ReadAllUntouched(a, la, b, lb, m.offsetsPages);
    ReadAllUntouched(a, la, b, lb, m.edgesPages);
    ReadAllUntouched(a, la, b, lb, m.inOffsetsPages);
    ReadAllUntouched(a, la, b, lb, m.inEdgesPages);
  }

  /** Lengths and offsets are 64-bit. */
  predicate Sized(seg: Segment) {
    && (forall i :: 0 <= i < |seg.offsets| ==> seg.offsets[i] < 0x1_0000_0000_0000_0000)
    && (forall i :: 0 <= i < |seg.inOffsets| ==> seg.inOffsets[i] < 0x1_0000_0000_0000_0000)
    && |seg.offsets| < 0x1_0000_0000_0000_0000 && |seg.inOffsets| < 0x1_0000_0000_0000_0000
    && |seg.edges| < 0x1_0000_0000_0000_0000 && |seg.inEdges| < 0x1_0000_0000_0000_0000
  }

  function DataPages(seg: Segment): nat {
    PageCount(8 * |seg.offsets|) + PageCount(8 * |seg.edges|) + PageCount(8 * |seg.inOffsets|) + PageCount(8 * |seg.inEdges|)
  }

  function MetaOf(seg: Segment, p1: seq<u64>, p2: seq<u64>, p3: seq<u64>, p4: seq<u64>): SegmentMeta
    requires Sized(seg)
  {
    SegmentMeta(seg.id, seg.minSrc, seg.maxSrc, seg.minDst, seg.maxDst,
                |seg.offsets|, |seg.edges|, |seg.inOffsets|, |seg.inEdges|, p1, p2, p3, p4)
  }

  /** What has been written decodes to the segment. */
  ghost predicate Written(pages: seq<Page>, live: set<nat>, seg: Segment, m: SegmentMeta)
    requires Sized(seg)
  {
    && Holds(pages, live, m.offsetsPages, EncodeOffsets(seg.offsets)) && Holds(pages, live, m.edgesPages, EncodeEdges(seg.edges))
    && Holds(pages, live, m.inOffsetsPages, EncodeOffsets(seg.inOffsets)) && Holds(pages, live, m.inEdgesPages, EncodeEdges(seg.inEdges))
  }

  lemma HeldOffsets(pages: seq<Page>, live: set<nat>, ids: seq<u64>, offsets: seq<u64>)
    requires Holds(pages, live, ids, EncodeOffsets(offsets))
    ensures ReadAll(pages, live, ids).Ok? && DecodeOffsets(ReadAll(pages, live, ids).value, |offsets|) == Ok(offsets)
  {
    hide ReadAll, EncodeOffsets, DecodeOffsets;
    var b, e := ReadAll(pages, live, ids).value, EncodeOffsets(offsets);
    assert b == e + b[|e|..];
    OffsetsRoundTrip(offsets, b[|e|..]);
  }

  lemma HeldEdges(pages: seq<Page>, live: set<nat>, ids: seq<u64>, edges: seq<EdgeRecord>)
    requires Holds(pages, live, ids, EncodeEdges(edges))
    ensures ReadAll(pages, live, ids).Ok? && DecodeEdges(ReadAll(pages, live, ids).value, |edges|) == Ok(edges)
  {
    hide ReadAll, EncodeEdges, DecodeEdges;
    var b, e := ReadAll(pages, live, ids).value, EncodeEdges(edges);
    assert b == e + b[|e|..];
    EdgesRoundTrip(edges, b[|e|..]);
  }

  lemma WrittenLoads(pages: seq<Page>, live: set<nat>, seg: Segment, m: SegmentMeta, metaPageId: u64)
    requires Sized(seg) && Written(pages, live, seg, m)
    requires m == MetaOf(seg, m.offsetsPages, m.edgesPages, m.inOffsetsPages, m.inEdgesPages)
    requires EncodeSegmentMeta(m).Ok? && ReadPage(pages, live, metaPageId) == Ok(EncodeSegmentMeta(m).value)
    ensures LoadSegment(pages, live, metaPageId) == Ok(seg.(metaPageId := metaPageId))
  {
    hide Holds, EncodeSegmentMeta, DecodeSegmentMeta, ReadAll, DecodeOffsets, DecodeEdges, ReadPage;
    SegmentMetaRoundTrip(m);
    HeldOffsets(pages, live, m.offsetsPages, seg.offsets);
    HeldEdges(pages, live, m.edgesPages, seg.edges);
    HeldOffsets(pages, live, m.inOffsetsPages, seg.inOffsets);
    HeldEdges(pages, live, m.inEdgesPages, seg.inEdges);
  }

  lemma HoldsUntouched(a: seq<Page>, la: set<nat>, b: seq<Page>, lb: set<nat>, ids: seq<u64>, blob: seq<byte>)
    requires Untouched(a, la, b, lb) && Holds(a, la, ids, blob)
    ensures Holds(b, lb, ids, blob)
  {
    ReadAllUntouched(a, la, b, lb, ids);
  }

  /** Two blobs, one after the other. */
  method WriteTwo(pager: Pager, x: seq<byte>, y: seq<byte>) returns (r: Result<(seq<u64>, seq<u64>)>)
    requires pager.Valid()
    modifies pager, pager.bits
    ensures pager.Valid() && Untouched(old(pager.pages), old(pager.live), pager.pages, pager.live)
    ensures SameButNext(old(pager.meta), pager.meta)
    ensures r.Ok? <==> |old(pager.live)| + PageCount(|x|) + PageCount(|y|) <= BITMAP_BITS
    ensures r.Ok? ==> |r.value.0| == PageCount(|x|) && |r.value.1| == PageCount(|y|)
    ensures r.Ok? ==> |pager.live| == |old(pager.live)| + PageCount(|x|) + PageCount(|y|)
    ensures r.Ok? ==> Holds(pager.pages, pager.live, r.value.0, x) && Holds(pager.pages, pager.live, r.value.1, y)
    ensures r.Ok? ==> AllFresh(r.value.0, old(pager.live)) && AllFresh(r.value.1, old(pager.live))
  {
    hide Maps, EncodeMeta, Untouched, Holds, PageCount;
    ghost var pages, live := pager.pages, pager.live;
    var p := WriteBlobPages(pager, x);
    if p.Err? { return Err(p.error); }
    ghost var midPages, midLive := pager.pages, pager.live;
    var q := WriteBlobPages(pager, y);
    UntouchedTrans(pages, live, midPages, midLive, pager.pages, pager.live);
    UntouchedLive(pages, live, midPages, midLive);
    if q.Err? { return Err(q.error); }
    HoldsUntouched(midPages, midLive, pager.pages, pager.live, p.value, x);
    r := Ok((p.value, q.value));
  }

  /**
   * `persist`, once the reverse index is built. It succeeds exactly when the page ids fit the meta
   * page and enough pages are free; `load` then returns the same segment, and no page in use changes.
   */
  method Persist(pager: Pager, seg: Segment) returns (r: Result<Segment>)
    requires pager.Valid() && Sized(seg)
    modifies pager, pager.bits
    ensures pager.Valid() && Untouched(old(pager.pages), old(pager.live), pager.pages, pager.live)
    ensures SameButNext(old(pager.meta), pager.meta)
    ensures r.Ok? <==> 80 + 8 * DataPages(seg) <= PAGE_SIZE && |old(pager.live)| + DataPages(seg) + 1 <= BITMAP_BITS
    ensures r.Ok? ==> r.value == seg.(metaPageId := r.value.metaPageId) && r.value.metaPageId !in old(pager.live)
    ensures r.Ok? ==> LoadSegment(pager.pages, pager.live, r.value.metaPageId) == r
    ensures r.Ok? ==> |pager.live| == |old(pager.live)| + DataPages(seg) + 1
    ensures r.Ok? ==> Footprint(pager.pages, pager.live, r.value.metaPageId) !! old(pager.live) && SnugAt(pager.pages, pager.live, r.value.metaPageId)
  {
    hide Maps, EncodeMeta, Untouched, Holds, PageCount, EncodeOffsets, EncodeEdges, LoadSegment, ReadPage, Footprint, SnugAt;
    ghost var pages, live := pager.pages, pager.live;
    var forward := WriteTwo(pager, EncodeOffsets(seg.offsets), EncodeEdges(seg.edges));
    if forward.Err? { return Err(forward.error); }
    var (p1, p2) := forward.value;
    ghost var aPages, aLive := pager.pages, pager.live;
    var reverse := WriteTwo(pager, EncodeOffsets(seg.inOffsets), EncodeEdges(seg.inEdges));
    UntouchedTrans(pages, live, aPages, aLive, pager.pages, pager.live);
    UntouchedLive(pages, live, aPages, aLive);
    if reverse.Err? { return Err(reverse.error); }
    var (p3, p4) := reverse.value;
    HoldsUntouched(aPages, aLive, pager.pages, pager.live, p1, EncodeOffsets(seg.offsets));
    HoldsUntouched(aPages, aLive, pager.pages, pager.live, p2, EncodeEdges(seg.edges));
    r := PersistMeta(pager, seg, MetaOf(seg, p1, p2, p3, p4), pages, live);
  }

  /** The last step: allocate the meta page, encode, write. */
  method PersistMeta(pager: Pager, seg: Segment, m: SegmentMeta, ghost pages: seq<Page>,
                     ghost live: set<nat>) returns (r: Result<Segment>)
    requires pager.Valid() && Sized(seg) && Written(pager.pages, pager.live, seg, m)
    requires m == MetaOf(seg, m.offsetsPages, m.edgesPages, m.inOffsetsPages, m.inEdgesPages)
    requires Untouched(pages, live, pager.pages, pager.live) && AllFresh(m.AllPages(), live) && Snug(m)
    modifies pager, pager.bits
    ensures pager.Valid() && Untouched(pages, live, pager.pages, pager.live) && SameButNext(old(pager.meta), pager.meta)
    ensures r.Ok? <==> 80 + 8 * |m.AllPages()| <= PAGE_SIZE && |old(pager.live)| + 1 <= BITMAP_BITS
    ensures r.Ok? ==> r.value == seg.(metaPageId := r.value.metaPageId) && r.value.metaPageId !in old(pager.live)
    ensures r.Ok? ==> LoadSegment(pager.pages, pager.live, r.value.metaPageId) == r
    ensures r.Ok? ==> |pager.live| == |old(pager.live)| + 1
    ensures r.Ok? ==> Footprint(pager.pages, pager.live, r.value.metaPageId) !! live && SnugAt(pager.pages, pager.live, r.value.metaPageId)
  {
    hide Maps, EncodeMeta, Footprint, SnugAt, Snug, Holds, EncodeOffsets, EncodeEdges, LoadSegment, Header;
    ghost var before, was := pager.pages, pager.live;
    var page := EncodeSegmentMeta(m);
    if page.Err? {
      var spare := pager.Allocate();
      UntouchedTrans(pages, live, before, was, pager.pages, pager.live);
      return Err(if spare.Err? then spare.error else page.error);
    }
    var pid := PutFresh(pager, page.value);
    UntouchedTrans(pages, live, before, was, pager.pages, pager.live);
    if pid.Err? { return Err(pid.error); }
    HoldsUntouched(before, was, pager.pages, pager.live, m.offsetsPages, EncodeOffsets(seg.offsets));
    HoldsUntouched(before, was, pager.pages, pager.live, m.edgesPages, EncodeEdges(seg.edges));
    HoldsUntouched(before, was, pager.pages, pager.live, m.inOffsetsPages, EncodeOffsets(seg.inOffsets));
    HoldsUntouched(before, was, pager.pages, pager.live, m.inEdgesPages, EncodeEdges(seg.inEdges));
    WrittenLoads(pager.pages, pager.live, seg, m, pid.value);
    FreshFootprint(pager.pages, pager.live, m, pid.value, live);
    r := Ok(seg.(metaPageId := pid.value));
  }

  /** The pages `persist` needs for the indexes of these edges, beside the meta page. */
  ghost function EdgePages(edges: multiset<EdgeKey>): nat {
    PageCount(8 * Width(edges, Outgoing)) + PageCount(8 * Width(edges, Incoming)) + 2 * PageCount(8 * |edges|)
  }

  /** They can be listed on one meta page, and with it there is room for them. */
  ghost predicate Persistable(edges: multiset<EdgeKey>, live: set<nat>) {
    80 + 8 * EdgePages(edges) <= PAGE_SIZE && |live| + EdgePages(edges) + 1 <= BITMAP_BITS
  }

  const ReverseOverflow: Error := StorageCorrupted("reverse index overflow")

  /** `persist` of a segment built from `edges`. */
  method PersistBuilt(pager: Pager, seg: Segment, ghost edges: multiset<EdgeKey>) returns (r: Result<Segment>)
    requires pager.Valid() && Stores(seg, edges) && forall dir :: Measures(seg.In(dir), dir, edges)
    modifies pager, pager.bits
    ensures pager.Valid() && Untouched(old(pager.pages), old(pager.live), pager.pages, pager.live)
    ensures SameButNext(old(pager.meta), pager.meta)
    ensures r.Ok? <==> Persistable(edges, old(pager.live))
    ensures r.Ok? ==> LoadSegment(pager.pages, pager.live, r.value.metaPageId) == r
    ensures r.Ok? ==> Stores(r.value, edges) && r.value == seg.(metaPageId := r.value.metaPageId)
    ensures r.Ok? ==> r.value.metaPageId !in old(pager.live) && |pager.live| == |old(pager.live)| + EdgePages(edges) + 1
    ensures r.Ok? ==> Footprint(pager.pages, pager.live, r.value.metaPageId) !! old(pager.live) && SnugAt(pager.pages, pager.live, r.value.metaPageId)
  {
    hide Footprint, SnugAt, Maps, EncodeMeta, Untouched, LoadSegment, Stores, Measures;
    BuiltPages(seg, edges);
    // The lengths of vectors are 64-bit; a longer one would not fit the meta page either.
    if |seg.edges| >= 0x1_0000_0000_0000_0000 {
      UntouchedSelf(pager.pages, pager.live);
      return Err(WalProtocol("csr meta page overflow"));
    }
    BuiltSized(seg, edges);
    r := Persist(pager, seg);
    if r.Ok? { StoresMoved(seg, r.value.metaPageId, edges); }
  }

  /**
   * Edges to pages and back: the loaded segment answers exactly the edges it was built from. It fails
   * exactly when the page ids do not fit the meta page, the pages run out, or an edge goes into the largest
   * node id; for the last the source does not return, and an error stands for that.
   */
  method PersistEdges(pager: Pager, id: u64, input: seq<EdgeKey>) returns (r: Result<Segment>)
    requires pager.Valid()
    modifies pager, pager.bits
    ensures pager.Valid() && Untouched(old(pager.pages), old(pager.live), pager.pages, pager.live)
    ensures SameButNext(old(pager.meta), pager.meta)
    ensures r.Ok? <==> !IntoLast(input) && Persistable(multiset(input), old(pager.live))
    ensures r.Ok? ==> LoadSegment(pager.pages, pager.live, r.value.metaPageId) == r
    ensures r.Ok? ==> Stores(r.value, multiset(input)) && r.value.id == id && r.value.metaPageId !in old(pager.live)
    ensures r.Ok? ==> |pager.live| == |old(pager.live)| + EdgePages(multiset(input)) + 1
    ensures r.Ok? ==> Footprint(pager.pages, pager.live, r.value.metaPageId) !! old(pager.live)
  {
    hide Footprint, SnugAt, Maps, EncodeMeta, Untouched, LoadSegment, Stores, Measures, Persistable, EdgePages;
    var built := BuildAndIndex(id, input);
    if built.None? {
      UntouchedSelf(pager.pages, pager.live);
      return Err(ReverseOverflow);
    }
    r := PersistBuilt(pager, built.value, multiset(input));
  }

  /** Where a segment is kept does not change what it answers. */
  lemma StoresMoved(seg: Segment, page: u64, edges: multiset<EdgeKey>)
    requires Stores(seg, edges)
    ensures Stores(seg.(metaPageId := page), edges)
  {
    hide Serves;
    assert forall dir :: seg.(metaPageId := page).In(dir) == seg.In(dir);
  }

  lemma BuiltPages(seg: Segment, edges: multiset<EdgeKey>)
    requires forall dir :: Measures(seg.In(dir), dir, edges)
    ensures |seg.edges| == |edges| && (|edges| >= 0x1_0000_0000_0000_0000 ==> 80 + 8 * EdgePages(edges) > PAGE_SIZE)
  {
    hide Width;
    assert Measures(seg.In(Outgoing), Outgoing, edges);
  }

  lemma BuiltSized(seg: Segment, edges: multiset<EdgeKey>)
    requires (forall dir :: Measures(seg.In(dir), dir, edges)) && |edges| < 0x1_0000_0000_0000_0000
    ensures Sized(seg) && DataPages(seg) == EdgePages(edges)
  {
    hide PageCount, Width;
    assert Measures(seg.In(Outgoing), Outgoing, edges) && Measures(seg.In(Incoming), Incoming, edges);
    assert seg.In(Outgoing).offsets == seg.offsets && seg.In(Incoming).offsets == seg.inOffsets;
    assert seg.In(Outgoing).records == seg.edges && seg.In(Incoming).records == seg.inEdges;
  }
}
