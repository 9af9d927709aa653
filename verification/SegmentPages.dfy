/** Durable segments on pages: the manifest's segments read back, and what the id map's pages may do to them. */
module SegmentPages {
  import opened Bytes
  import opened Wrappers
  import opened Csr
  import opened WalRecords
  import opened Pagers
  import opened BlobStores
  import opened CsrPages
  import opened IdMaps
  import opened IdMapPages

  /** Segments as they were persisted, by the page that holds their metadata. */
  type SegmentStore = map<u64, Segment>

  function PointersTo(segments: seq<Segment>): (p: seq<SegmentPointer>)
    ensures |p| == |segments|
    ensures forall i :: 0 <= i < |p| ==> p[i] == SegmentPointer(segments[i].id, segments[i].metaPageId)
  {
    seq(|segments|, i requires 0 <= i < |segments| => SegmentPointer(segments[i].id, segments[i].metaPageId))
  }

  ghost predicate Held(store: SegmentStore, segments: seq<Segment>) {
    forall i :: 0 <= i < |segments| ==>
      segments[i].metaPageId in store && store[segments[i].metaPageId] == segments[i]
  }

  // ---- The segment loop of `open` ----------------------------------------------------------

  function LoadListed(pages: seq<Page>, live: set<nat>, ptrs: seq<SegmentPointer>): Result<seq<Segment>> {
    if ptrs == [] then Ok([])
    else
      var seg :- LoadSegment(pages, live, ptrs[0].metaPageId);
      if seg.id != ptrs[0].id then Err(WalProtocol("csr segment id mismatch"))
      else
        var rest :- LoadListed(pages, live, ptrs[1..]);
        Ok([seg] + rest)
  }

  /** Each segment loads from its page as it was persisted. */
  ghost predicate AllLoad(pages: seq<Page>, live: set<nat>, segments: seq<Segment>) {
    forall i :: 0 <= i < |segments| ==> LoadSegment(pages, live, segments[i].metaPageId) == Ok(segments[i])
  }

  /** The manifest's pointers load the segments exactly when every one of them is still on its pages. */
  lemma {:induction false} ListedIff(pages: seq<Page>, live: set<nat>, segments: seq<Segment>)
    ensures LoadListed(pages, live, PointersTo(segments)) == Ok(segments) <==> AllLoad(pages, live, segments)
  {
    hide LoadSegment;
    if segments != [] {
      var seg := LoadSegment(pages, live, segments[0].metaPageId);
      assert PointersTo(segments)[1..] == PointersTo(segments[1..]);
      ListedIff(pages, live, segments[1..]);
      assert segments == [segments[0]] + segments[1..];
      var rest := LoadListed(pages, live, PointersTo(segments[1..]));
      if seg.Ok? && rest.Ok? && [seg.value] + rest.value == segments {
        assert ([seg.value] + rest.value)[1..] == rest.value;
      }
      if AllLoad(pages, live, segments[1..]) && seg == Ok(segments[0]) {
        forall i | 0 <= i < |segments| ensures LoadSegment(pages, live, segments[i].metaPageId) == Ok(segments[i]) {
          if i > 0 { assert segments[i] == segments[1..][i - 1]; }
        }
      }
    }
  }

  method LoadManifest(pager: Pager, ptrs: seq<SegmentPointer>) returns (r: Result<seq<Segment>>)
    requires pager.Valid()
    ensures r == LoadListed(pager.pages, pager.live, ptrs)
  {
    hide LoadSegment, Maps, EncodeMeta;
    var out: seq<Segment> := [];
    assert ptrs[0..] == ptrs;
    ghost var whole := LoadListed(pager.pages, pager.live, ptrs);
    assert whole.Ok? ==> [] + whole.value == whole.value;
    for i := 0 to |ptrs|
      invariant whole == Behind(out, LoadListed(pager.pages, pager.live, ptrs[i..]))
    {
      assert ptrs[i..][1..] == ptrs[i + 1..];
      var seg := CsrPages.Load(pager, ptrs[i].metaPageId);
      if seg.Err? { return Err(seg.error); }
      if seg.value.id != ptrs[i].id { return Err(WalProtocol("csr segment id mismatch")); }
      ghost var rest := LoadListed(pager.pages, pager.live, ptrs[i + 1..]);
      assert rest.Ok? ==> out + ([seg.value] + rest.value) == out + [seg.value] + rest.value;
      out := out + [seg.value];
    }
    assert out + [] == out;
    r := Ok(out);
  }

  function Behind(front: seq<Segment>, r: Result<seq<Segment>>): Result<seq<Segment>> {
    if r.Ok? then Ok(front + r.value) else r
  }

  // ---- Segments beside the id map ----------------------------------------------------------------

  /** Every durable segment loads from the page the engine keeps it under. */
  ghost predicate OnPages(pages: seq<Page>, live: set<nat>, store: SegmentStore) {
    forall p :: p in store ==> LoadSegment(pages, live, p) == Ok(store[p])
  }

  ghost function IdMapPagesOf(start: Option<u64>, len: nat): set<nat> {
    if start.Some? then IdPages(start.value, 0, len) else {}
  }

  /** Every durable segment loads, and none shares a page with the id map's first `len` records. */
  ghost predicate Intact(pages: seq<Page>, live: set<nat>, store: SegmentStore, start: Option<u64>, len: nat) {
    OnPages(pages, live, store) && forall p :: p in store ==> Footprint(pages, live, p) !! IdMapPagesOf(start, len)
  }

  /** Durable segments sit on allocated pages, so a page just allocated is none of theirs. */
  lemma FootprintLive(pages: seq<Page>, live: set<nat>, p: u64)
    requires LoadSegment(pages, live, p).Ok?
    ensures p in Footprint(pages, live, p) && Footprint(pages, live, p) <= live
  {
    hide DecodeSegmentMeta, ReadAll, DecodeOffsets, DecodeEdges;
    var m := DecodeSegmentMeta(ReadPage(pages, live, p).value).value;
    ListedLive(pages, live, m.offsetsPages);
    ListedLive(pages, live, m.edgesPages);
    ListedLive(pages, live, m.inOffsetsPages);
    ListedLive(pages, live, m.inEdgesPages);
  }

  lemma {:induction false} ListedLive(pages: seq<Page>, live: set<nat>, ids: seq<u64>)
    requires ReadAll(pages, live, ids).Ok?
    ensures forall i :: 0 <= i < |ids| ==> ids[i] in live
  {
    if ids != [] { ListedLive(pages, live, ids[1..]); }
  }

  /** The listed pages are untouched: what is read from them stays. */
  lemma {:induction false} ReadAllKept(a: seq<Page>, la: set<nat>, b: seq<Page>, lb: set<nat>, mine: set<nat>, ids: seq<u64>)
    requires Kept(a, b, mine) && la <= lb && ReadAll(a, la, ids).Ok? && forall i :: 0 <= i < |ids| ==> ids[i] !in mine
    ensures ReadAll(b, lb, ids) == ReadAll(a, la, ids)
  {
    if ids != [] {
      ReadAllKept(a, la, b, lb, mine, ids[1..]);
      assert ids[0] !in mine;
    }
  }

  lemma MetaKept(a: seq<Page>, la: set<nat>, b: seq<Page>, lb: set<nat>, mine: set<nat>, p: u64)
    requires Kept(a, b, mine) && la <= lb && ReadPage(a, la, p).Ok? && p !in mine
    ensures ReadPage(b, lb, p) == ReadPage(a, la, p) && Footprint(b, lb, p) == Footprint(a, la, p)
  {
    hide DecodeSegmentMeta;
  }

  lemma ListedInFootprint(pages: seq<Page>, live: set<nat>, p: u64, m: SegmentMeta, ids: seq<u64>, mine: set<nat>)
    requires ReadPage(pages, live, p).Ok? && DecodeSegmentMeta(ReadPage(pages, live, p).value) == Ok(m)
    requires Footprint(pages, live, p) !! mine
    requires ids == m.offsetsPages || ids == m.edgesPages || ids == m.inOffsetsPages || ids == m.inEdgesPages
    ensures forall i :: 0 <= i < |ids| ==> ids[i] !in mine
  {
    hide DecodeSegmentMeta, ReadPage;
    var all := m.AllPages();
    forall i | 0 <= i < |ids| ensures ids[i] in Footprint(pages, live, p) {
      var a, b, c := |m.offsetsPages|, |m.edgesPages|, |m.inOffsetsPages|;
      assert ids == m.offsetsPages ==> all[i] == ids[i];
      assert ids == m.edgesPages ==> all[a + i] == ids[i];
      assert ids == m.inOffsetsPages ==> all[a + b + i] == ids[i];
      assert ids == m.inEdgesPages ==> all[a + b + c + i] == ids[i];
    }
  }

  /** A segment depends on its footprint only. */
  lemma LoadKept(a: seq<Page>, la: set<nat>, b: seq<Page>, lb: set<nat>, mine: set<nat>, p: u64)
    requires Kept(a, b, mine) && la <= lb && LoadSegment(a, la, p).Ok? && Footprint(a, la, p) !! mine
    ensures LoadSegment(b, lb, p) == LoadSegment(a, la, p) && Footprint(b, lb, p) == Footprint(a, la, p)
  {
    hide DecodeSegmentMeta, ReadAll, DecodeOffsets, DecodeEdges, Footprint, ReadPage, Kept;
    FootprintLive(a, la, p);
    MetaKept(a, la, b, lb, mine, p);
    var m := DecodeSegmentMeta(ReadPage(a, la, p).value).value;
    ListedInFootprint(a, la, p, m, m.offsetsPages, mine);
    ListedInFootprint(a, la, p, m, m.edgesPages, mine);
    ListedInFootprint(a, la, p, m, m.inOffsetsPages, mine);
    ListedInFootprint(a, la, p, m, m.inEdgesPages, mine);
    ReadAllKept(a, la, b, lb, mine, m.offsetsPages);
    ReadAllKept(a, la, b, lb, mine, m.edgesPages);
    ReadAllKept(a, la, b, lb, mine, m.inOffsetsPages);
    ReadAllKept(a, la, b, lb, mine, m.inEdgesPages);
  }

  /** Writes to free pages leave every durable segment loadable, unchanged and apart from the id map. */
  lemma IntactUntouched(a: seq<Page>, la: set<nat>, b: seq<Page>, lb: set<nat>, store: SegmentStore, start: Option<u64>, len: nat)
    requires Intact(a, la, store, start, len) && Untouched(a, la, b, lb)
    ensures Intact(b, lb, store, start, len)
  {
    hide LoadSegment, Untouched, Footprint, IdMapPagesOf;
    forall p | p in store ensures LoadSegment(b, lb, p) == Ok(store[p]) && Footprint(b, lb, p) == Footprint(a, la, p) {
      LoadUntouched(a, la, b, lb, p);
      FootprintUntouched(a, la, b, lb, p);
    }
  }

  lemma FootprintUntouched(a: seq<Page>, la: set<nat>, b: seq<Page>, lb: set<nat>, p: u64)
    requires Untouched(a, la, b, lb) && LoadSegment(a, la, p).Ok?
    ensures Footprint(b, lb, p) == Footprint(a, la, p)
  {
    hide DecodeSegmentMeta, ReadAll, DecodeOffsets, DecodeEdges;
  }

  /** A segment persisted on free pages joins the others. */
  lemma IntactGains(pages: seq<Page>, live: set<nat>, store: SegmentStore, start: Option<u64>, len: nat, seg: Segment)
    requires Intact(pages, live, store, start, len) && LoadSegment(pages, live, seg.metaPageId) == Ok(seg)
    requires Footprint(pages, live, seg.metaPageId) !! IdMapPagesOf(start, len)
    ensures Intact(pages, live, store[seg.metaPageId := seg], start, len)
  {
    hide LoadSegment, Footprint, IdMapPagesOf;
  }

  /** The id map's new pages leave every segment alone. */
  ghost predicate Exclusive(pages: seq<Page>, live: set<nat>, store: SegmentStore, start: Option<u64>, lo: nat, hi: nat) {
    start.Some? ==> forall p :: p in store ==> Footprint(pages, live, p) !! IdPages(start.value, lo, hi)
  }

  /**
   * The id map takes its consecutive pages whether or not they are in use. After writing records `lo` to `hi` the
   * durable segments are intact exactly when none of them lay on one of those pages.
   */
  lemma IntactIff(a: seq<Page>, la: set<nat>, b: seq<Page>, lb: set<nat>, store: SegmentStore,
                  before: Option<u64>, start: Option<u64>, lo: nat, hi: nat)
    requires Intact(a, la, store, before, lo) && Grew(a, la, b, lb, start, lo, hi)
    requires if before.Some? then start == before else lo == 0
    ensures Intact(b, lb, store, start, hi) <==> Exclusive(a, la, store, start, lo, hi)
  {
    hide LoadSegment, Footprint, Kept;
    var mine := if start.Some? then IdPages(start.value, lo, hi) else {};
    assert IdMapPagesOf(start, hi) == IdMapPagesOf(before, lo) + mine by { MyPages(before, start, lo, hi); }
    forall p | p in store
      ensures p in Footprint(b, lb, p)
      ensures Footprint(a, la, p) !! mine ==> LoadSegment(b, lb, p) == Ok(store[p]) && Footprint(b, lb, p) == Footprint(a, la, p)
      ensures p !in mine ==> Footprint(b, lb, p) == Footprint(a, la, p)
    {
      assert LoadSegment(a, la, p).Ok?;
      OneSegment(a, la, b, lb, mine, p);
    }
  }

  lemma OneSegment(a: seq<Page>, la: set<nat>, b: seq<Page>, lb: set<nat>, mine: set<nat>, p: u64)
    requires Kept(a, b, mine) && la <= lb && LoadSegment(a, la, p).Ok?
    ensures p in Footprint(b, lb, p)
    ensures Footprint(a, la, p) !! mine ==> LoadSegment(b, lb, p) == LoadSegment(a, la, p) && Footprint(b, lb, p) == Footprint(a, la, p)
    ensures p !in mine ==> Footprint(b, lb, p) == Footprint(a, la, p)
  {
    hide DecodeSegmentMeta, ReadAll, DecodeOffsets, DecodeEdges;
    if Footprint(a, la, p) !! mine { LoadKept(a, la, b, lb, mine, p); }
    if p !in mine { MetaKept(a, la, b, lb, mine, p); }
  }

  lemma MyPages(before: Option<u64>, start: Option<u64>, lo: nat, hi: nat)
    requires lo <= hi && if before.Some? then start == before else lo == 0
    ensures IdMapPagesOf(start, hi) == IdMapPagesOf(before, lo) + if start.Some? then IdPages(start.value, lo, hi) else {}
  {
    if start.Some? {
      assert IdPages(start.value, 0, hi) == IdPages(start.value, 0, lo) + IdPages(start.value, lo, hi);
      if before.None? { assert IdPages(start.value, 0, lo) == {}; }
    }
  }

  // ---- What an id-map record does to a segment page --------------------------------------------------

  /** The first word of page `j` is word `1024 * j` of what is read. */
  lemma {:induction false} FirstWord(pages: seq<Page>, live: set<nat>, ids: seq<u64>, j: nat)
    requires ReadAll(pages, live, ids).Ok? && j < |ids|
    ensures |ReadAll(pages, live, ids).value| == PAGE_SIZE * |ids| && ReadPage(pages, live, ids[j]).Ok?
    ensures 8 * (1024 * j) + 8 <= PAGE_SIZE * |ids|
    ensures WordAt(ReadAll(pages, live, ids).value, 1024 * j) == ReadPage(pages, live, ids[j]).value[0..8]
  {
    hide ReadPage;
    var all := ReadAll(pages, live, ids).value;
    var page, rest := ReadPage(pages, live, ids[0]).value, ReadAll(pages, live, ids[1..]).value;
    assert all == page + rest;
    if |ids| > 1 { FirstWord(pages, live, ids[1..], if j == 0 then 0 else j - 1); }
    if j != 0 { assert all[8192 * j..8192 * j + 8] == rest[8192 * (j - 1)..8192 * (j - 1) + 8]; }
  }

  lemma {:induction false} FromLEInjective(a: seq<byte>, b: seq<byte>)
    requires |a| == |b| && FromLE(a) == FromLE(b)
    ensures a == b
  {
    if a != [] {
      assert FromLE(a) % 256 == a[0] && FromLE(b) % 256 == b[0];
      FromLEInjective(a[1..], b[1..]);
      assert a == [a[0]] + a[1..] && b == [b[0]] + b[1..];
    }
  }

  lemma EdgeWordInjective(a: Word, b: Word)
    requires EdgeOfWord(a) == EdgeOfWord(b)
    ensures a == b
  {
    FromLEInjective(a[0..4], b[0..4]);
    FromLEInjective(a[4..8], b[4..8]);
    assert a == a[0..4] + a[4..8] && b == b[0..4] + b[4..8];
  }

  /** Page `t` got another first word; everything else that was readable still is. */
  ghost predicate Rewritten(a: seq<Page>, la: set<nat>, b: seq<Page>, lb: set<nat>, t: nat) {
    && Kept(a, b, {t}) && la <= lb && t < |a| && t < |b| && b[t][0..8] != a[t][0..8]
  }

  /** Lists of the same length that differ in a word that counts decode differently. */
  lemma OffsetsDiffer(a: seq<byte>, b: seq<byte>, len: nat, i: nat)
    requires |a| >= 8 * len && |b| >= 8 * len && i < len && WordAt(a, i) != WordAt(b, i)
    ensures DecodeOffsets(a, len) != DecodeOffsets(b, len)
  {
    hide WordAt;
    if U64Of(WordAt(a, i)) == U64Of(WordAt(b, i)) { FromLEInjective(WordAt(a, i), WordAt(b, i)); }
    assert DecodeOffsets(a, len).value[i] == U64Of(WordAt(a, i)) && DecodeOffsets(b, len).value[i] == U64Of(WordAt(b, i));
  }

  lemma EdgesDiffer(a: seq<byte>, b: seq<byte>, len: nat, i: nat)
    requires |a| >= 8 * len && |b| >= 8 * len && i < len && WordAt(a, i) != WordAt(b, i)
    ensures DecodeEdges(a, len) != DecodeEdges(b, len)
  {
    hide WordAt, EdgeOfWord;
    if EdgeOfWord(WordAt(a, i)) == EdgeOfWord(WordAt(b, i)) { EdgeWordInjective(WordAt(a, i), WordAt(b, i)); }
    assert DecodeEdges(a, len).value[i] == EdgeOfWord(WordAt(a, i)) && DecodeEdges(b, len).value[i] == EdgeOfWord(WordAt(b, i));
  }

  lemma ListDiffers(a: seq<Page>, la: set<nat>, b: seq<Page>, lb: set<nat>, t: nat, ids: seq<u64>, j: nat, len: nat)
    requires Rewritten(a, la, b, lb, t) && j < |ids| && ids[j] == t && |ids| == PageCount(8 * len)
    requires ReadAll(a, la, ids).Ok? && ReadAll(b, lb, ids).Ok?
    ensures var x, y := ReadAll(a, la, ids).value, ReadAll(b, lb, ids).value;
            && |x| >= 8 * len && |y| >= 8 * len && 1024 * j < len && WordAt(x, 1024 * j) != WordAt(y, 1024 * j)
  {
    FirstWord(a, la, ids, j);
    FirstWord(b, lb, ids, j);
  }

  lemma OffsetsListDiffers(a: seq<Page>, la: set<nat>, b: seq<Page>, lb: set<nat>, t: nat, ids: seq<u64>, len: nat)
    requires Rewritten(a, la, b, lb, t) && t in ids && |ids| == PageCount(8 * len)
    requires ReadAll(a, la, ids).Ok? && ReadAll(b, lb, ids).Ok?
    ensures DecodeOffsets(ReadAll(a, la, ids).value, len) != DecodeOffsets(ReadAll(b, lb, ids).value, len)
  {
    hide ReadAll, DecodeOffsets, WordAt, Rewritten, PageCount;
    var j :| 0 <= j < |ids| && ids[j] == t;
    ListDiffers(a, la, b, lb, t, ids, j, len);
    OffsetsDiffer(ReadAll(a, la, ids).value, ReadAll(b, lb, ids).value, len, 1024 * j);
  }

  lemma EdgesListDiffers(a: seq<Page>, la: set<nat>, b: seq<Page>, lb: set<nat>, t: nat, ids: seq<u64>, len: nat)
    requires Rewritten(a, la, b, lb, t) && t in ids && |ids| == PageCount(8 * len)
    requires ReadAll(a, la, ids).Ok? && ReadAll(b, lb, ids).Ok?
    ensures DecodeEdges(ReadAll(a, la, ids).value, len) != DecodeEdges(ReadAll(b, lb, ids).value, len)
  {
    hide ReadAll, DecodeEdges, WordAt, Rewritten, PageCount;
    var j :| 0 <= j < |ids| && ids[j] == t;
    ListDiffers(a, la, b, lb, t, ids, j, len);
    EdgesDiffer(ReadAll(a, la, ids).value, ReadAll(b, lb, ids).value, len, 1024 * j);
  }

  /**
   * The first record on a page the id map enters replaces the page's first word by the external id. Unless
   * that is what the word said already, a persisted segment survives exactly when the page is none of its own.
   */
  lemma SegmentSurvivesIff(a: seq<Page>, la: set<nat>, b: seq<Page>, lb: set<nat>, t: nat, r: I2eRecord, p: u64)
    requires LoadSegment(a, la, p).Ok? && SnugAt(a, la, p)
    requires Kept(a, b, {t}) && la <= lb && t < |a| && t < |b| && b[t] == PutRecord(a[t], 0, r)
    requires U64Bytes(r.externalId) != a[t][0..8]
    ensures LoadSegment(b, lb, p) == LoadSegment(a, la, p) <==> t !in Footprint(a, la, p)
  {
    hide DecodeSegmentMeta, LoadSegment, Footprint, U64Bytes, SnugAt;
    assert b[t][0..8] == U64Bytes(r.externalId);
    if t !in Footprint(a, la, p) {
      LoadKept(a, la, b, lb, {t}, p);
    } else if t == p {
      MagicGone(a, la, b, lb, p);
    } else {
      ContentGone(a, la, b, lb, t, p);
    }
  }

  lemma MagicGone(a: seq<Page>, la: set<nat>, b: seq<Page>, lb: set<nat>, p: u64)
    requires Rewritten(a, la, b, lb, p) && LoadSegment(a, la, p).Ok?
    ensures LoadSegment(b, lb, p).Err?
  {
    hide ReadAll, DecodeOffsets, DecodeEdges, IdsAt;
    assert a[p][0..8] == META_MAGIC;
  }

  lemma ContentGone(a: seq<Page>, la: set<nat>, b: seq<Page>, lb: set<nat>, t: nat, p: u64)
    requires Rewritten(a, la, b, lb, t) && LoadSegment(a, la, p).Ok? && t != p && t in Footprint(a, la, p)
    requires SnugAt(a, la, p)
    ensures LoadSegment(b, lb, p) != LoadSegment(a, la, p)
  {
    hide DecodeSegmentMeta, ReadAll, DecodeOffsets, DecodeEdges, PageCount, Rewritten;
    assert ReadPage(b, lb, p) == ReadPage(a, la, p) by { SamePageRead(a, la, b, lb, t, p); }
    var m := DecodeSegmentMeta(ReadPage(a, la, p).value).value;
    assert t in m.offsetsPages || t in m.edgesPages || t in m.inOffsetsPages || t in m.inEdgesPages;
    if LoadSegment(b, lb, p).Ok? {
      if t in m.offsetsPages {
        OffsetsListDiffers(a, la, b, lb, t, m.offsetsPages, m.offsetsLen);
      } else if t in m.edgesPages {
        EdgesListDiffers(a, la, b, lb, t, m.edgesPages, m.edgesLen);
      } else if t in m.inOffsetsPages {
        OffsetsListDiffers(a, la, b, lb, t, m.inOffsetsPages, m.inOffsetsLen);
      } else {
        EdgesListDiffers(a, la, b, lb, t, m.inEdgesPages, m.inEdgesLen);
      }
    }
  }

  lemma SamePageRead(a: seq<Page>, la: set<nat>, b: seq<Page>, lb: set<nat>, t: nat, p: u64)
    requires Rewritten(a, la, b, lb, t) && ReadPage(a, la, p).Ok? && t != p
    ensures ReadPage(b, lb, p) == ReadPage(a, la, p)
  {
  }
}
