/** The page file: meta page, allocation bitmap, and the allocator over data pages. */
module Pagers {
  import opened Bytes
  import opened Wrappers

  const FIRST_DATA_PAGE_ID: nat := 2
  const BITMAP_BITS: nat := 65536

  type Page = p: seq<byte> | |p| == PAGE_SIZE witness Zeros(PAGE_SIZE)

  // ---- Meta page --------------------------------------------------------------------------

  const FILE_MAGIC: seq<byte> := [78, 69, 82, 86, 85, 83, 68, 66, 118, 50, 0, 0, 0, 0, 0, 0]
  const STORAGE_FORMAT_EPOCH: u64 := 1

  datatype Meta = Meta(
    versionMajor: u32,
    versionMinor: u32,
    pageSize: u64,
    bitmapPageId: u64,
    nextPageId: u64,
    i2eStartPageId: u64,
    i2eLen: u64,
    nextInternalId: u64,
    indexCatalogRoot: u64,
    nextIndexId: u32,
    storageFormatEpoch: u64)

  const NewMeta := Meta(2, 0, PAGE_SIZE, 1, FIRST_DATA_PAGE_ID, 0, 0, 0, 0, 0, STORAGE_FORMAT_EPOCH)

  function EncodeMeta(m: Meta): (page: Page) {
    FILE_MAGIC + U32Bytes(m.versionMajor) + U32Bytes(m.versionMinor) + U64Bytes(m.pageSize)
    + U64Bytes(m.bitmapPageId) + U64Bytes(m.nextPageId) + U64Bytes(m.i2eStartPageId) + U64Bytes(m.i2eLen)
    + U64Bytes(m.nextInternalId) + U64Bytes(m.indexCatalogRoot) + U32Bytes(m.nextIndexId)
    + U64Bytes(m.storageFormatEpoch) + Zeros(PAGE_SIZE - 92)
  }

  function DecodeMeta(page: Page): Result<Meta> {
    if page[0..16] != FILE_MAGIC then Err(InvalidMagic)
    else if U64Of(page[24..32]) != PAGE_SIZE then Err(UnsupportedPageSize(U64Of(page[24..32])))
    else if U64Of(page[84..92]) != STORAGE_FORMAT_EPOCH then
      Err(StorageFormatMismatch(STORAGE_FORMAT_EPOCH, U64Of(page[84..92])))
    else
      var len, next := U64Of(page[56..64]), U64Of(page[64..72]);
      Ok(Meta(U32Of(page[16..20]), U32Of(page[20..24]), U64Of(page[24..32]), U64Of(page[32..40]),
              U64Of(page[40..48]), U64Of(page[48..56]), len, if next == 0 && len > 0 then len else next,
              U64Of(page[72..80]), U32Of(page[80..84]), U64Of(page[84..92])))
  }

  /** The meta page decodes to itself exactly when its page size and epoch are this build's and the next id is not defaulted. */
  lemma MetaRoundTrip(m: Meta)
    ensures DecodeMeta(EncodeMeta(m)) == Ok(m) <==>
              m.pageSize == PAGE_SIZE && m.storageFormatEpoch == STORAGE_FORMAT_EPOCH
              && (m.nextInternalId != 0 || m.i2eLen == 0)
  {
    hide LE, U32Bytes, U64Bytes, U32Of, U64Of;
    var page := EncodeMeta(m);
    MetaFields(m, page);
    U32RoundTrip(m.versionMajor); U32RoundTrip(m.versionMinor); U32RoundTrip(m.nextIndexId);
    U64RoundTrip(m.pageSize); U64RoundTrip(m.bitmapPageId); U64RoundTrip(m.nextPageId);
    U64RoundTrip(m.i2eStartPageId); U64RoundTrip(m.i2eLen); U64RoundTrip(m.nextInternalId);
    U64RoundTrip(m.indexCatalogRoot); U64RoundTrip(m.storageFormatEpoch);
  }

  lemma MetaFields(m: Meta, page: Page)
    requires page == EncodeMeta(m)
    ensures page[0..16] == FILE_MAGIC && page[16..20] == U32Bytes(m.versionMajor) && page[20..24] == U32Bytes(m.versionMinor)
    ensures page[24..32] == U64Bytes(m.pageSize) && page[32..40] == U64Bytes(m.bitmapPageId)
    ensures page[40..48] == U64Bytes(m.nextPageId) && page[48..56] == U64Bytes(m.i2eStartPageId)
    ensures page[56..64] == U64Bytes(m.i2eLen) && page[64..72] == U64Bytes(m.nextInternalId)
    ensures page[72..80] == U64Bytes(m.indexCatalogRoot) && page[80..84] == U32Bytes(m.nextIndexId)
    ensures page[84..92] == U64Bytes(m.storageFormatEpoch)
  {
    hide U32Bytes, U64Bytes;
  }

  // ---- Bitmap bytes ---------------------------------------------------------------------------

  function Pow2(w: nat): nat { if w == 0 then 1 else 2 * Pow2(w - 1) }

  /** `b & (1 << k) != 0`. */
  predicate BitOf(b: nat, k: nat) { if k == 0 then b % 2 == 1 else BitOf(b / 2, k - 1) }

  /** `b | (1 << k)`, or `b & !(1 << k)` to clear. */
  function PutBit(b: nat, k: nat, on: bool): nat {
    if k == 0 then b - b % 2 + (if on then 1 else 0) else b % 2 + 2 * PutBit(b / 2, k - 1, on)
  }

  lemma Halves(low: nat, high: nat)
    requires low < 2
    ensures (low + 2 * high) % 2 == low && (low + 2 * high) / 2 == high
  {
  }

  lemma {:induction false} PutBitAt(b: nat, k: nat, on: bool, j: nat)
    ensures BitOf(PutBit(b, k, on), j) == if j == k then on else BitOf(b, j)
  {
    var half, bit := b / 2, if on then 1 else 0;
    assert b == b % 2 + 2 * half;
    if k == 0 {
      Halves(bit, half);
      assert PutBit(b, k, on) == bit + 2 * half;
    } else {
      Halves(b % 2, PutBit(half, k - 1, on));
      if j != 0 { PutBitAt(half, k - 1, on, j - 1); }
    }
  }

  lemma {:induction false} PutBitBound(b: nat, k: nat, on: bool, w: nat)
    requires b < Pow2(w) && k < w
    ensures PutBit(b, k, on) < Pow2(w)
  {
    var half, top := b / 2, Pow2(w - 1);
    assert b == 2 * half + b % 2 && half < top;
    if k != 0 { PutBitBound(half, k - 1, on, w - 1); }
  }

  function PutByteBit(b: byte, k: nat, on: bool): (r: byte)
    requires k < 8
  {
    assert Pow2(4) == 16 && Pow2(8) == 16 * Pow2(4);
    PutBitBound(b, k, on, 8);
    PutBit(b, k, on)
  }

  predicate Bit(data: seq<byte>, i: nat)
    requires |data| == PAGE_SIZE && i < BITMAP_BITS
  {
    BitOf(data[i / 8], i % 8)
  }

  function SetBit(data: seq<byte>, i: nat, on: bool): (r: seq<byte>)
    requires |data| == PAGE_SIZE && i < BITMAP_BITS
    ensures |r| == PAGE_SIZE && Bit(r, i) == on
    ensures forall j :: 0 <= j < BITMAP_BITS && j != i ==> Bit(r, j) == Bit(data, j)
  {
    forall j | 0 <= j < 8 ensures BitOf(PutBit(data[i / 8], i % 8, on), j) == if j == i % 8 then on else BitOf(data[i / 8], j) {
      PutBitAt(data[i / 8], i % 8, on, j);
    }
    data[i / 8 := PutByteBit(data[i / 8], i % 8, on)]
  }

  /** The bitmap bytes say exactly which pages are allocated. */
  ghost predicate Maps(data: seq<byte>, live: set<nat>) {
    && |data| == PAGE_SIZE && (forall p :: p in live ==> p < BITMAP_BITS)
    && forall p :: 0 <= p < BITMAP_BITS ==> (p in live <==> Bit(data, p))
  }

  lemma MapsSet(data: seq<byte>, live: set<nat>, p: nat, on: bool)
    requires Maps(data, live) && p < BITMAP_BITS
    ensures Maps(SetBit(data, p, on), if on then live + {p} else live - {p})
  {
    hide Bit, SetBit;
  }

  // ---- The set of allocated pages -----------------------------------------------------------------

  function Range(n: nat): (s: set<nat>)
    ensures |s| == n && forall p :: p in s <==> 0 <= p < n
  {
    if n == 0 then {} else Range(n - 1) + {n - 1}
  }

  /** A set of page ids misses some page exactly when it has fewer than all of them. */
  lemma RoomIff(live: set<nat>, n: nat)
    requires forall p :: p in live ==> p < n
    ensures |live| < n <==> exists p :: 0 <= p < n && p !in live
    ensures |live| <= n
  {
    var all := Range(n);
    assert live <= all;
    assert |all - live| == |all| - |live|;
    if p :| 0 <= p < n && p !in live {
      assert p in all - live;
    }
    if |live| < n {
      var p :| p in all - live;
    }
  }

  /** Data pages of the earlier file are the same in the later one, but for those excepted. */
  ghost predicate Kept(before: seq<Page>, after: seq<Page>, except: set<nat>) {
    && |before| <= |after|
    && forall p :: FIRST_DATA_PAGE_ID <= p < |before| && p !in except ==> after[p] == before[p]
  }

  /** Only the next page id may have moved. */
  predicate SameButNext(a: Meta, b: Meta) { b == a.(nextPageId := b.nextPageId) }

  predicate DataPage(p: nat) { FIRST_DATA_PAGE_ID <= p < BITMAP_BITS }

  /** The page that the next allocation takes. */
  ghost predicate LeastFree(live: set<nat>, p: nat) {
    DataPage(p) && p !in live && forall q :: FIRST_DATA_PAGE_ID <= q < p ==> q in live
  }

  class Pager {
    const bits: array<byte>
    var meta: Meta
    var pages: seq<Page>
    ghost var live: set<nat>

    /** Meta and bitmap pages are current; allocated pages lie below the next id and inside the file. */
    ghost predicate Valid()
      reads this, bits
    {
      && bits.Length == PAGE_SIZE && Maps(bits[..], live)
      && 0 in live && 1 in live && (forall p :: p in live ==> p < meta.nextPageId)
      && FIRST_DATA_PAGE_ID <= meta.nextPageId <= BITMAP_BITS && meta.nextPageId <= |pages|
      && pages[0] == EncodeMeta(meta) && pages[1] == bits[..]
      && meta.pageSize == PAGE_SIZE && meta.storageFormatEpoch == STORAGE_FORMAT_EPOCH
    }

    /** `open` on a new file. */
    constructor Create()
      ensures Valid() && live == {0, 1} && meta == NewMeta && fresh(bits)
    {
      bits := new byte[PAGE_SIZE](_ => 0);
      meta := NewMeta;
      pages := [Zeros(PAGE_SIZE), Zeros(PAGE_SIZE)];
      live := {};
      new;
      forall p | 0 <= p < BITMAP_BITS ensures !Bit(bits[..], p) { ZeroBits(p % 8); }
      SetAllocated(0, true);
      SetAllocated(1, true);
      Flush();
    }

    /** `open` on the pages of an existing file whose meta page decodes to `m`. */
    constructor Load(file: seq<Page>, m: Meta)
      requires |file| >= 2
      ensures fresh(bits) && bits.Length == PAGE_SIZE && bits[..] == file[1]
      ensures meta == m && pages == file && Maps(bits[..], live)
    {
      var data := file[1];
      bits := new byte[PAGE_SIZE](i requires 0 <= i < |data| => data[i]);
      meta, pages := m, file;
      live := set p: nat | p < BITMAP_BITS && Bit(data, p);
    }

    method SetAllocated(p: nat, on: bool)
      requires p < BITMAP_BITS && bits.Length == PAGE_SIZE && Maps(bits[..], live)
      modifies this`live, bits
      ensures Maps(bits[..], live) && live == if on then old(live) + {p} else old(live) - {p}
    {
      hide Maps, Bit, PutByteBit;
      MapsSet(bits[..], live, p, on);
      ghost var next := SetBit(bits[..], p, on);
      bits[p / 8] := PutByteBit(bits[p / 8], p % 8, on);
      assert bits[..] == next;
      live := if on then live + {p} else live - {p};
    }

    predicate IsAllocated(p: nat)
      requires p < BITMAP_BITS && bits.Length == PAGE_SIZE
      reads this, bits
    {
      BitOf(bits[p / 8], p % 8)
    }

    lemma LiveBit(p: nat)
      requires p < BITMAP_BITS && bits.Length == PAGE_SIZE && Maps(bits[..], live)
      ensures IsAllocated(p) <==> p in live
    {
      hide BitOf;
      assert IsAllocated(p) == Bit(bits[..], p);
    }

    /** `flush_meta_and_bitmap`. */
    method Flush()
      requires |pages| >= 2 && bits.Length == PAGE_SIZE
      modifies this`pages
      ensures |pages| == |old(pages)| && Kept(old(pages), pages, {})
      ensures pages[0] == EncodeMeta(meta) && pages[1] == bits[..]
    {
      pages := [EncodeMeta(meta), bits[..]] + pages[2..];
    }

    /** `set_i2e_start_page`, `set_i2e_len` and `set_next_internal_id`: a new meta page with other id-map fields. */
    method SetIdMapMeta(m: Meta)
      requires Valid()
      requires m == meta.(i2eStartPageId := m.i2eStartPageId, i2eLen := m.i2eLen, nextInternalId := m.nextInternalId)
      modifies this`meta, this`pages
      ensures Valid() && meta == m && Kept(old(pages), pages, {}) && |pages| == |old(pages)|
    {
      hide Maps, EncodeMeta, Kept;
      meta := m;
      Flush();
    }

    /** `find_free_in_range` from the first data page. */
    method FindFree(end: nat) returns (r: Option<nat>)
      requires Valid() && end <= BITMAP_BITS
      ensures r.Some? ==> FIRST_DATA_PAGE_ID <= r.value < end && r.value !in live
      ensures forall q :: FIRST_DATA_PAGE_ID <= q < (if r.Some? then r.value else end) ==> q in live
    {
      hide IsAllocated, Maps, EncodeMeta;
      var id := FIRST_DATA_PAGE_ID;
      while id < end
        invariant FIRST_DATA_PAGE_ID <= id
        invariant forall q :: FIRST_DATA_PAGE_ID <= q < id && q < end ==> q in live
      {
        LiveBit(id);
        if !IsAllocated(id) { return Some(id); }
        id := id + 1;
      }
      r := None;
    }

    /** `allocate_page`: the least free data page; fails exactly when every page is taken. */
    method Allocate() returns (r: Result<nat>)
      requires Valid()
      modifies this, bits
      ensures Valid() && Kept(old(pages), pages, {}) && SameButNext(old(meta), meta)
      ensures r.Ok? <==> |old(live)| < BITMAP_BITS
      ensures r.Ok? ==> DataPage(r.value) && r.value !in old(live) && live == old(live) + {r.value}
      ensures r.Ok? ==> LeastFree(old(live), r.value)
      ensures r.Err? ==> r.error == PageIdOutOfRange(BITMAP_BITS) && live == old(live) && pages == old(pages) && meta == old(meta)
    {
      hide Maps, EncodeMeta, Kept;
      RoomIff(live, BITMAP_BITS) by { MapsBound(bits[..], live); }
      var found := FindFree(meta.nextPageId);
      var candidate := if found.Some? then found.value else meta.nextPageId;
      if candidate >= BITMAP_BITS {
        KeptAll(pages);
        return Err(PageIdOutOfRange(candidate));
      }
      var _ := EnsureAllocated(candidate);
      r := Ok(candidate);
    }

    /** `ensure_allocated`: also takes a page that is already in use. */
    method EnsureAllocated(p: nat) returns (r: Result<()>)
      requires Valid()
      modifies this, bits
      ensures Valid() && Kept(old(pages), pages, {}) && SameButNext(old(meta), meta)
      ensures r.Ok? <==> DataPage(p)
      ensures r.Ok? ==> live == old(live) + {p}
      ensures r.Err? ==> r.error == PageIdOutOfRange(p) && live == old(live) && pages == old(pages) && meta == old(meta)
    {
      hide Maps, EncodeMeta, Kept, BitOf;
      if !DataPage(p) {
        KeptAll(pages);
        return Err(PageIdOutOfRange(p));
      }
      if p >= meta.nextPageId { meta := meta.(nextPageId := p + 1); }
      SetAllocated(p, true);
      ghost var before := pages;
      if |pages| < p + 1 { pages := pages + seq(p + 1 - |pages|, _ => Zeros(PAGE_SIZE)); }
      KeptLonger(before, pages);
      ghost var longer := pages;
      Flush();
      KeptTrans(before, longer, pages);
      r := Ok(());
    }

    /** `free_page`. */
    method Free(p: nat) returns (r: Result<()>)
      requires Valid()
      modifies this, bits
      ensures Valid() && Kept(old(pages), pages, {}) && meta == old(meta) && |pages| == |old(pages)|
      ensures r.Ok? <==> DataPage(p) && p in old(live)
      ensures r.Ok? ==> live == old(live) - {p}
      ensures r.Err? ==> live == old(live) && pages == old(pages)
      ensures r.Err? ==> r.error == if DataPage(p) then PageNotAllocated(p) else PageIdOutOfRange(p)
    {
      hide EncodeMeta, Kept, IsAllocated, Maps;
      if !DataPage(p) {
        KeptAll(pages);
        return Err(PageIdOutOfRange(p));
      }
      LiveBit(p);
      if !IsAllocated(p) {
        KeptAll(pages);
        return Err(PageNotAllocated(p));
      }
      SetAllocated(p, false);
      Flush();
      r := Ok(());
    }

    /** `read_page`. */
    method Read(p: nat) returns (r: Result<Page>)
      requires Valid()
      ensures r == ReadPage(pages, live, p)
    {
      hide EncodeMeta, IsAllocated, Maps;
      if !DataPage(p) { return Err(PageIdOutOfRange(p)); }
      LiveBit(p);
      if !IsAllocated(p) { return Err(PageNotAllocated(p)); }
      r := Ok(pages[p]);
    }

    /** `write_page`. */
    method Write(p: nat, page: Page) returns (r: Result<()>)
      requires Valid()
      modifies this`pages
      ensures Valid() && Kept(old(pages), pages, {p}) && |pages| == |old(pages)|
      ensures r.Ok? <==> DataPage(p) && p in live
      ensures r.Ok? ==> pages == old(pages)[p := page]
      ensures r.Err? ==> pages == old(pages)
      ensures r.Err? ==> r.error == if DataPage(p) then PageNotAllocated(p) else PageIdOutOfRange(p)
    {
      hide EncodeMeta, IsAllocated, Maps;
      if !DataPage(p) { return Err(PageIdOutOfRange(p)); }
      LiveBit(p);
      if !IsAllocated(p) { return Err(PageNotAllocated(p)); }
      pages := pages[p := page];
      r := Ok(());
    }
  }

  /** `open` on an existing file, given as its pages. */
  method OpenFile(file: seq<Page>) returns (r: Result<Pager>)
    ensures |file| < 2 ==> r == Err(WalProtocol("ndb file too small"))
    ensures |file| >= 2 && DecodeMeta(file[0]).Err? ==> r == Err(DecodeMeta(file[0]).error)
    ensures |file| >= 2 && DecodeMeta(file[0]).Ok? ==>
              && r.Ok? && fresh(r.value) && fresh(r.value.bits) && r.value.bits.Length == PAGE_SIZE
              && r.value.bits[..] == file[1] && r.value.meta == DecodeMeta(file[0]).value && r.value.pages == file
              && Maps(r.value.bits[..], r.value.live)
  {
    hide DecodeMeta, Maps;
    if |file| < 2 { return Err(WalProtocol("ndb file too small")); }
    var meta := DecodeMeta(file[0]);
    if meta.Err? { return Err(meta.error); }
    var pager := new Pager.Load(file, meta.value);
    r := Ok(pager);
  }

  /** Whatever was done to a pager, opening its file again gives the same pages, meta and allocation set. */
  method CloseAndOpen(p: Pager) returns (q: Pager)
    requires p.Valid() && (p.meta.nextInternalId != 0 || p.meta.i2eLen == 0)
    ensures fresh(q) && q.Valid() && q.live == p.live && q.meta == p.meta && q.pages == p.pages
  {
    hide EncodeMeta, DecodeMeta, Bit;
    MetaRoundTrip(p.meta);
    var reopened := OpenFile(p.pages);
    q := reopened.value;
    assert q.live == p.live;
  }

  /** A page as a reader of this file and allocation set gets it. */
  function ReadPage(pages: seq<Page>, live: set<nat>, p: nat): Result<Page> {
    if !DataPage(p) then Err(PageIdOutOfRange(p))
    else if p !in live || p >= |pages| then Err(PageNotAllocated(p))
    else Ok(pages[p])
  }

  lemma MapsBound(data: seq<byte>, live: set<nat>)
    requires Maps(data, live)
    ensures forall p :: p in live ==> p < BITMAP_BITS
  {
  }

  lemma KeptAll(pages: seq<Page>)
    ensures Kept(pages, pages, {})
  {
  }

  lemma KeptLonger(before: seq<Page>, after: seq<Page>)
    requires before <= after
    ensures Kept(before, after, {})
  {
  }

  lemma KeptTrans(a: seq<Page>, b: seq<Page>, c: seq<Page>)
    requires Kept(a, b, {}) && Kept(b, c, {})
    ensures Kept(a, c, {})
  {
  }

  lemma {:induction false} ZeroBits(k: nat)
    ensures !BitOf(0, k)
  {
    if k != 0 { ZeroBits(k - 1); }
  }
}
