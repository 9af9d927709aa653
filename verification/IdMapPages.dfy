/** The id map on its pages: sixteen-byte records on consecutive pages from the start page. */
module IdMapPages {
  import opened Bytes
  import opened Wrappers
  import opened Pagers
  import opened IdMaps
  import opened Sorting
  import opened WalRecords
  import opened BlobStores

  const I2E_RECORD_SIZE: nat := 16
  const I2E_RECORDS_PER_PAGE: nat := 512
  /** More records than the pages of a file can hold do not occur. */
  const MAX_NODES: nat := BITMAP_BITS * I2E_RECORDS_PER_PAGE

  // ---- Records ------------------------------------------------------------------------------

  function EncodeRecord(r: I2eRecord): (b: seq<byte>)
    ensures |b| == I2E_RECORD_SIZE
  {
    U64Bytes(r.externalId) + U32Bytes(r.labelId) + U32Bytes(r.flags)
  }

  function DecodeRecord(b: seq<byte>): I2eRecord
    requires |b| == I2E_RECORD_SIZE
  {
    I2eRecord(U64Of(b[0..8]), U32Of(b[8..12]), U32Of(b[12..16]))
  }

  lemma RecordRoundTrip(r: I2eRecord)
    ensures DecodeRecord(EncodeRecord(r)) == r
  {
    hide U64Bytes, U32Bytes, U64Of, U32Of;
    var b := EncodeRecord(r);
    assert b[0..8] == U64Bytes(r.externalId) && b[8..12] == U32Bytes(r.labelId) && b[12..16] == U32Bytes(r.flags);
    U64RoundTrip(r.externalId); U32RoundTrip(r.labelId); U32RoundTrip(r.flags);
  }

  /** The record in slot `k` of a page. */
  function RecordIn(page: Page, k: nat): I2eRecord
    requires k < I2E_RECORDS_PER_PAGE
  {
    DecodeRecord(page[16 * k..16 * k + 16])
  }

  function PutRecord(page: Page, k: nat, r: I2eRecord): (p: Page)
    requires k < I2E_RECORDS_PER_PAGE
  {
    page[..16 * k] + EncodeRecord(r) + page[16 * k + 16..]
  }

  lemma PutRecordIn(page: Page, k: nat, r: I2eRecord, j: nat)
    requires k < I2E_RECORDS_PER_PAGE && j < I2E_RECORDS_PER_PAGE
    ensures RecordIn(PutRecord(page, k, r), j) == if j == k then r else RecordIn(page, j)
  {
    hide EncodeRecord, DecodeRecord;
    var after := PutRecord(page, k, r);
    if j == k {
      assert after[16 * k..16 * k + 16] == EncodeRecord(r);
      RecordRoundTrip(r);
    } else {
      assert after[16 * j..16 * j + 16] == page[16 * j..16 * j + 16];
    }
  }

  // ---- Locations ---------------------------------------------------------------------------------

  /** `i2e_location`: page and slot. */
  function PageOf(start: nat, i: nat): nat { start + i / I2E_RECORDS_PER_PAGE }

  function SlotOf(i: nat): (k: nat)
    ensures k < I2E_RECORDS_PER_PAGE
  {
    i % I2E_RECORDS_PER_PAGE
  }

  /** The pages of records `lo` to `hi`. */
  ghost function IdPages(start: nat, lo: nat, hi: nat): set<nat> { set i | lo <= i < hi :: PageOf(start, i) }

  /** Every record from `lo` to `hi` has a page that the bitmap covers. */
  ghost predicate Addressable(start: nat, lo: nat, hi: nat) { forall i :: lo <= i < hi ==> DataPage(PageOf(start, i)) }

  /** There are pages for records `lo` to `hi`; without a start page, from the one an allocation would give. */
  ghost predicate RoomFor(start: Option<u64>, live: set<nat>, lo: nat, hi: nat) {
    if hi <= lo then true
    else if start.Some? then Addressable(start.value, lo, hi)
    else exists p :: LeastFree(live, p) && Addressable(p, lo, hi)
  }

  /** Records `lo` to `hi` were written: their pages are allocated and no other page changed. */
  ghost predicate Grew(pages: seq<Page>, live: set<nat>, pages': seq<Page>, live': set<nat>, start: Option<u64>, lo: nat, hi: nat) {
    && lo <= hi && (start.None? ==> lo == hi)
    && var mine := if start.Some? then IdPages(start.value, lo, hi) else {};
       Kept(pages, pages', mine) && live' == live + mine
  }

  /** Where record `n` goes: on its page from the start page, which is the first free one if there was none. */
  ghost predicate Placed(before: Option<u64>, live: set<nat>, start: u64, n: nat) {
    && DataPage(PageOf(start, n))
    && if before.Some? then start == before.value else LeastFree(live, start)
  }

  /** A start page that is new was the first free one. */
  ghost predicate StartedAt(before: Option<u64>, live: set<nat>, start: Option<u64>) {
    before.None? && start.Some? ==> LeastFree(live, start.value)
  }

  lemma StartsHere(before: Option<u64>, live: set<nat>, start: u64, n: nat)
    requires Placed(before, live, start, n)
    ensures StartedAt(before, live, Some(start))
  {
  }

  /** If page `t` existed, record `r` was put into its slot `k`. */
  ghost predicate PutAt(pages: seq<Page>, pages': seq<Page>, t: nat, k: nat, r: I2eRecord) {
    k < I2E_RECORDS_PER_PAGE && (t < |pages| ==> t < |pages'| && pages'[t] == PutRecord(pages[t], k, r))
  }

  ghost predicate SameRoom(start: Option<u64>, live: set<nat>, n: nat, start': Option<u64>, live': set<nat>, n': nat) {
    forall hi :: n' <= hi ==> (RoomFor(start, live, n, hi) <==> RoomFor(start', live', n', hi))
  }

  lemma SameRoomSelf(start: Option<u64>, live: set<nat>, n: nat)
    ensures SameRoom(start, live, n, start, live, n)
  {
  }

  lemma SameRoomOne(start: Option<u64>, live: set<nat>, next: u64, live': set<nat>, n: nat)
    requires Placed(start, live, next, n)
    ensures SameRoom(start, live, n, Some(next), live', n + 1)
  {
    hide RoomFor;
    forall hi | n + 1 <= hi ensures RoomFor(start, live, n, hi) <==> RoomFor(Some(next), live', n + 1, hi) {
      RoomStep(start, live, next, live', n, hi);
    }
  }

  lemma SameRoomTrans(s: Option<u64>, l: set<nat>, n: nat, s': Option<u64>, l': set<nat>, n': nat, t: Option<u64>, k: set<nat>, m: nat)
    requires SameRoom(s, l, n, s', l', n') && SameRoom(s', l', n', t, k, m) && n' <= m
    ensures SameRoom(s, l, n, t, k, m)
  {
    hide RoomFor;
  }

  lemma SameRoomAt(s: Option<u64>, l: set<nat>, n: nat, s': Option<u64>, l': set<nat>, n': nat, hi: nat)
    requires SameRoom(s, l, n, s', l', n') && n' <= hi
    ensures RoomFor(s, l, n, hi) <==> RoomFor(s', l', n', hi)
  {
    hide RoomFor;
  }

  lemma GrewNothing(pages: seq<Page>, live: set<nat>, pages': seq<Page>, start: Option<u64>, n: nat)
    requires Kept(pages, pages', {})
    ensures Grew(pages, live, pages', live, start, n, n)
  {
    assert start.Some? ==> IdPages(start.value, n, n) == {};
  }

  lemma GrewOne(pages: seq<Page>, live: set<nat>, pages': seq<Page>, live': set<nat>, start: u64, n: nat)
    requires Kept(pages, pages', {PageOf(start, n)}) && live' == live + {PageOf(start, n)}
    ensures Grew(pages, live, pages', live', Some(start), n, n + 1)
  {
    assert IdPages(start, n, n + 1) == {PageOf(start, n)};
  }

  lemma GrewTrans(a: seq<Page>, la: set<nat>, b: seq<Page>, lb: set<nat>, c: seq<Page>, lc: set<nat>,
                  before: Option<u64>, start: Option<u64>, lo: nat, mid: nat, hi: nat)
    requires Grew(a, la, b, lb, before, lo, mid) && Grew(b, lb, c, lc, start, mid, hi)
    requires before.Some? ==> start == before
    ensures Grew(a, la, c, lc, start, lo, hi)
  {
    if start.Some? {
      assert IdPages(start.value, lo, hi) == IdPages(start.value, lo, mid) + IdPages(start.value, mid, hi);
      if before.None? { assert IdPages(start.value, lo, mid) == {}; }
    }
  }

  lemma LeastFreeUnique(live: set<nat>, p: nat, q: nat)
    requires LeastFree(live, p) && LeastFree(live, q)
    ensures p == q
  {
  }

  /** One record more: room for the next and then for the others. */
  lemma RoomStep(start: Option<u64>, live: set<nat>, next: u64, live': set<nat>, n: nat, hi: nat)
    requires n < hi && (start.Some? ==> start.value == next) && (start.None? ==> LeastFree(live, next))
    requires DataPage(PageOf(next, n))
    ensures RoomFor(start, live, n, n + 1)
    ensures RoomFor(start, live, n, hi) <==> RoomFor(Some(next), live', n + 1, hi)
  {
    assert Addressable(next, n, hi) <==> Addressable(next, n + 1, hi);
    if start.None? {
      forall p | LeastFree(live, p) ensures p == next { LeastFreeUnique(live, p, next); }
    }
  }

  lemma RoomShrinks(start: Option<u64>, live: set<nat>, n: nat, mid: nat, hi: nat)
    requires n <= mid <= hi && RoomFor(start, live, n, hi)
    ensures RoomFor(start, live, n, mid)
  {
    if start.None? && n < mid { var p :| LeastFree(live, p) && Addressable(p, n, hi); assert Addressable(p, n, mid); }
  }

  function ReadRecord(pages: seq<Page>, live: set<nat>, start: nat, i: nat): Result<I2eRecord> {
    var page :- ReadPage(pages, live, PageOf(start, i));
    Ok(RecordIn(page, SlotOf(i)))
  }

  /** The first `n` records. */
  function ReadRecords(pages: seq<Page>, live: set<nat>, start: nat, n: nat): (r: Result<seq<I2eRecord>>)
    ensures r.Ok? ==> |r.value| == n <= MAX_NODES
  {
    if n == 0 then Ok([])
    else
      var front :- ReadRecords(pages, live, start, n - 1);
      var last :- ReadRecord(pages, live, start, n - 1);
      Ok(front + [last])
  }

  ghost predicate OnDisk(pages: seq<Page>, live: set<nat>, start: nat, records: seq<I2eRecord>) {
    forall i :: 0 <= i < |records| ==> ReadRecord(pages, live, start, i) == Ok(records[i])
  }

  lemma {:induction false} ReadsOnDisk(pages: seq<Page>, live: set<nat>, start: nat, n: nat)
    requires ReadRecords(pages, live, start, n).Ok?
    ensures OnDisk(pages, live, start, ReadRecords(pages, live, start, n).value)
  {
    hide ReadRecord;
    if n != 0 { ReadsOnDisk(pages, live, start, n - 1); }
  }

  lemma {:induction false} OnDiskReads(pages: seq<Page>, live: set<nat>, start: nat, records: seq<I2eRecord>, n: nat)
    requires OnDisk(pages, live, start, records) && n <= |records|
    ensures ReadRecords(pages, live, start, n) == Ok(records[..n])
  {
    hide ReadRecord;
    if n != 0 {
      OnDiskReads(pages, live, start, records, n - 1);
      assert records[..n] == records[..n - 1] + [records[n - 1]];
    }
  }

  /** Writing the next record keeps every earlier one. */
  lemma OnDiskSnoc(pages: seq<Page>, live: set<nat>, after: seq<Page>, live': set<nat>, start: nat,
                   records: seq<I2eRecord>, r: I2eRecord)
    requires OnDisk(pages, live, start, records) && live <= live' && Kept(pages, after, {PageOf(start, |records|)})
    requires var p := PageOf(start, |records|);
             && DataPage(p) && p in live' && p < |after|
             && (p in live && p < |pages| ==> after[p] == PutRecord(pages[p], SlotOf(|records|), r))
             && RecordIn(after[p], SlotOf(|records|)) == r
    ensures OnDisk(after, live', start, records + [r])
  {
    hide PutRecord, RecordIn;
    var p, n := PageOf(start, |records|), |records|;
    forall i | 0 <= i < n ensures ReadRecord(after, live', start, i) == Ok(records[i]) {
      assert ReadRecord(pages, live, start, i) == Ok(records[i]);
      if PageOf(start, i) == p {
        PutRecordIn(pages[p], SlotOf(n), r, SlotOf(i));
      }
    }
  }

  // ---- The id map ------------------------------------------------------------------------------------

  class IdMap {
    var e2i: map<u64, u32>
    var i2l: seq<seq<u32>>
    var i2e: seq<I2eRecord>
    var i2eStart: Option<u64>
    var i2eLen: nat

    function Contents(): Ids
      reads this
    {
      Ids(e2i, i2l, i2e)
    }

    /** The records are on their pages and the meta page knows where. */
    ghost predicate Valid(pager: Pager)
      reads this, pager
    {
      && i2eLen == |i2e| == |i2l| <= MAX_NODES && pager.meta.i2eLen == i2eLen
      && pager.meta.i2eStartPageId == (if i2eStart.Some? then i2eStart.value else 0)
      && (i2eStart.None? ==> i2e == []) && (i2eStart.Some? ==> i2eStart.value != 0 && OnDisk(pager.pages, pager.live, i2eStart.value, i2e))
      && Tidy()
    }

    /** Each node's labels are sorted and without duplicates. */
    ghost predicate Tidy()
      reads this
    {
      forall n :: 0 <= n < |i2l| ==> Ascending(i2l[n])
    }

    /** `load` from records already read. */
    constructor (records: seq<I2eRecord>, start: Option<u64>, len: nat)
      requires |records| <= U32_MAX
      ensures Contents() == Loaded(records) && i2eStart == start && i2eLen == len
    {
      e2i, i2l, i2e := Indexed(records), FirstLabels(records), records;
      i2eStart, i2eLen := start, len;
    }

    /** The page the next record goes to, once there is a start page. */
    function Target(): nat
      reads this
      requires i2eStart.Some?
    {
      PageOf(i2eStart.value, i2eLen)
    }

    /**
     * `apply_create_node` past its checks. Only sixteen bytes of one page change; that page is taken
     * as it is, whether or not something else was using it.
     */
    method WriteNext(pager: Pager, r: I2eRecord) returns (done: Result<()>)
      requires pager.Valid() && Valid(pager) && i2eStart.Some?
      modifies pager, pager.bits
      ensures pager.Valid() && Valid(pager) && pager.meta == old(pager.meta).(nextPageId := pager.meta.nextPageId)
      ensures done.Ok? <==> DataPage(Target())
      ensures done.Ok? ==> OnDisk(pager.pages, pager.live, i2eStart.value, i2e + [r])
      ensures done.Ok? ==> pager.live == old(pager.live) + {Target()} && Kept(old(pager.pages), pager.pages, {Target()})
      ensures done.Ok? ==> PutAt(old(pager.pages), pager.pages, Target(), SlotOf(i2eLen), r)
      ensures done.Err? ==> pager.live == old(pager.live) && pager.pages == old(pager.pages) && pager.meta == old(pager.meta)
    {
      hide Maps, EncodeMeta, PutRecord, RecordIn;
      var p, k := Target(), SlotOf(i2eLen);
      ghost var pages, live := pager.pages, pager.live;
      done := pager.EnsureAllocated(p);
      if done.Err? { return; }
      var page := pager.Read(p);
      var _ := pager.Write(p, PutRecord(page.value, k, r));
      PutRecordIn(page.value, k, r, k);
      OnDiskSnoc(pages, live, pager.pages, pager.live, i2eStart.value, i2e, r);
      assert forall i :: 0 <= i < |i2e| ==> (i2e + [r])[i] == i2e[i];
    }

    /** The first node takes a fresh start page. */
    method EnsureStart(pager: Pager) returns (done: Result<()>)
      requires pager.Valid() && Valid(pager)
      modifies this`i2eStart, pager, pager.bits
      ensures pager.Valid() && Valid(pager)
      ensures done.Ok? <==> old(i2eStart).Some? || |old(pager.live)| < BITMAP_BITS
      ensures done.Ok? ==> i2eStart.Some? && Kept(old(pager.pages), pager.pages, {})
      ensures old(i2eStart).Some? ==> i2eStart == old(i2eStart) && pager.pages == old(pager.pages) && pager.live == old(pager.live)
      ensures done.Ok? && old(i2eStart).None? ==>
                LeastFree(old(pager.live), i2eStart.value) && pager.live == old(pager.live) + {i2eStart.value}
      ensures done.Err? ==> i2eStart == old(i2eStart) && pager.live == old(pager.live) && pager.pages == old(pager.pages)
    {
      hide Maps, EncodeMeta, Kept;
      if i2eStart.Some? {
        KeptAll(pager.pages);
        return Ok(());
      }
      ghost var pages := pager.pages;
      var p := pager.Allocate();
      if p.Err? { return Err(p.error); }
      ghost var mid := pager.pages;
      pager.SetIdMapMeta(pager.meta.(i2eStartPageId := p.value));
      KeptTrans(pages, mid, pager.pages);
      i2eStart := Some(p.value);
      done := Ok(());
    }

    /** A page for the next record, and the record on it: fails exactly when there is no page, and then changes nothing. */
    method PutNext(pager: Pager, r: I2eRecord) returns (done: Result<()>)
      requires pager.Valid() && Valid(pager)
      modifies this`i2eStart, pager, pager.bits
      ensures pager.Valid() && Valid(pager)
      ensures done.Ok? <==> RoomFor(old(i2eStart), old(pager.live), i2eLen, i2eLen + 1)
      ensures done.Ok? ==> i2eStart.Some? && i2eLen < MAX_NODES && Placed(old(i2eStart), old(pager.live), i2eStart.value, i2eLen)
      ensures done.Ok? ==> OnDisk(pager.pages, pager.live, i2eStart.value, i2e + [r])
      ensures done.Ok? ==> Kept(old(pager.pages), pager.pages, {Target()}) && pager.live == old(pager.live) + {Target()}
      ensures done.Ok? ==> PutAt(old(pager.pages), pager.pages, Target(), SlotOf(i2eLen), r)
      ensures done.Err? ==> i2eStart == old(i2eStart) && Kept(old(pager.pages), pager.pages, {}) && pager.live == old(pager.live)
    {
      hide Maps, EncodeMeta, Kept, OnDisk, PutRecord, RoomFor, LeastFree, Tidy, PageOf, Pager.Valid, PutAt, SlotOf, DataPage;
      ghost var a, la := pager.pages, pager.live;
      KeptAll(a);
      RoomNext(i2eStart, la, i2eLen);
      var started := EnsureStart(pager);
      if started.Err? {
        FullHasNoFree(pager);
        return Err(started.error);
      }
      ghost var b, t := pager.pages, Target();
      StartPage(old(i2eStart), la, i2eStart.value, i2eLen);
      done := WriteNext(pager, r);
      if done.Err? { return; }
      PageBound(i2eStart.value, i2eLen);
      KeptThen(a, b, pager.pages, t);
      PutAtKept(a, b, pager.pages, t, SlotOf(i2eLen), r);
    }

    /** The page side of `apply_create_node`: it fails exactly when there is no page, and then changes nothing. */
    method Append(pager: Pager, r: I2eRecord, internal: u32) returns (done: Result<()>)
      requires pager.Valid() && Valid(pager)
      modifies this, pager, pager.bits
      ensures pager.Valid() && Valid(pager)
      ensures done.Ok? <==> RoomFor(old(i2eStart), old(pager.live), old(i2eLen), old(i2eLen) + 1)
      ensures done.Ok? ==> Contents() == Ids(old(e2i)[r.externalId := internal], old(i2l) + [[r.labelId]], old(i2e) + [r])
      ensures done.Ok? ==> i2eStart.Some? && i2eLen == old(i2eLen) + 1 && Placed(old(i2eStart), old(pager.live), i2eStart.value, old(i2eLen))
      ensures done.Ok? ==> PutAt(old(pager.pages), pager.pages, PageOf(i2eStart.value, old(i2eLen)), SlotOf(old(i2eLen)), r)
      ensures done.Err? ==> Contents() == old(Contents()) && i2eStart == old(i2eStart) && i2eLen == old(i2eLen)
      ensures old(i2eStart).Some? ==> i2eStart == old(i2eStart)
      ensures Grew(old(pager.pages), old(pager.live), pager.pages, pager.live, i2eStart, old(i2eLen), i2eLen)
    {
      hide Kept, OnDisk, Grew, RoomFor, LeastFree, Tidy, PageOf, Pager.Valid, PutAt, SlotOf, DataPage;
      ghost var a, la := pager.pages, pager.live;
      done := PutNext(pager, r);
      if done.Err? {
        GrewNothing(a, la, pager.pages, i2eStart, i2eLen);
        return;
      }
      ghost var b, t, k := pager.pages, Target(), SlotOf(i2eLen);
      Enter(pager, r, internal);
      KeptLast(a, b, pager.pages, t);
      PutAtLast(a, b, pager.pages, t, k, r);
      GrewOne(a, la, pager.pages, pager.live, i2eStart.value, i2eLen - 1);
    }

    /**
     * `apply_create_node`. It fails exactly when the checks fail or there is no page for the record,
     * and then changes nothing; otherwise memory and disk hold the new record.
     */
    method ApplyCreateNode(pager: Pager, ext: u64, lid: u32, internal: u32) returns (done: Result<()>)
      requires pager.Valid() && Valid(pager)
      modifies this, pager, pager.bits
      ensures pager.Valid() && Valid(pager)
      ensures done.Ok? <==>
                && Create(old(Contents()), ext, lid, internal).Ok?
                && RoomFor(old(i2eStart), old(pager.live), old(i2eLen), old(i2eLen) + 1)
      ensures done.Ok? ==> Contents() == Create(old(Contents()), ext, lid, internal).value
      ensures done.Ok? ==> i2eStart.Some? && Placed(old(i2eStart), old(pager.live), i2eStart.value, old(i2eLen))
      ensures done.Ok? ==>
                PutAt(old(pager.pages), pager.pages, PageOf(i2eStart.value, old(i2eLen)), SlotOf(old(i2eLen)), I2eRecord(ext, lid, 0))
      ensures done.Err? ==> Contents() == old(Contents()) && i2eStart == old(i2eStart)
      ensures old(i2eStart).Some? ==> i2eStart == old(i2eStart)
      ensures Grew(old(pager.pages), old(pager.live), pager.pages, pager.live, i2eStart, old(i2eLen), i2eLen)
      ensures Create(old(Contents()), ext, lid, internal).Err? ==> done == Err(Create(old(Contents()), ext, lid, internal).error)
    {
      hide Kept, OnDisk, PutRecord, Grew, RoomFor, Tidy, PageOf, Pager.Valid, PutAt, SlotOf, Placed;
      KeptAll(pager.pages);
      GrewNothing(pager.pages, pager.live, pager.pages, i2eStart, i2eLen);
      if internal != NextInternalId(i2eLen) { return Err(WalProtocol("non-dense internal id")); }
      if ext in e2i { return Err(WalProtocol("duplicate external id")); }
      done := Append(pager, I2eRecord(ext, lid, 0), internal);
    }

    /** The record is written: count it in the meta page and enter it in memory. */
    method Enter(pager: Pager, r: I2eRecord, internal: u32)
      requires pager.Valid() && Valid(pager) && i2eStart.Some? && i2eLen < MAX_NODES
      requires OnDisk(pager.pages, pager.live, i2eStart.value, i2e + [r]) && Tidy()
      modifies this`e2i, this`i2l, this`i2e, this`i2eLen, pager`meta, pager`pages
      ensures pager.Valid() && Valid(pager) && Kept(old(pager.pages), pager.pages, {}) && i2eLen == old(i2eLen) + 1
      ensures Contents() == Ids(old(e2i)[r.externalId := internal], old(i2l) + [[r.labelId]], old(i2e) + [r])
    {
      hide Maps, EncodeMeta, Kept, OnDisk;
      ghost var c := pager.pages;
      pager.SetIdMapMeta(pager.meta.(i2eLen := i2eLen + 1));
      ghost var d := pager.pages;
      pager.SetIdMapMeta(pager.meta.(nextInternalId := NextInternalId(i2eLen + 1)));
      KeptTrans(c, d, pager.pages);
      OnDiskKept(c, pager.pages, pager.live, i2eStart.value, i2e + [r]);
      e2i, i2l, i2e, i2eLen := e2i[r.externalId := internal], i2l + [[r.labelId]], i2e + [r], i2eLen + 1;
    }

    /** `apply_add_label`: memory only; the lists stay sorted and one membership changes at most. */
    method ApplyAddLabel(node: u32, lid: u32) returns (done: Result<()>)
      requires Tidy()
      modifies this`i2l
      ensures Tidy() && |i2l| == |old(i2l)| && (done.Ok? <==> node < |i2l|)
      ensures done.Ok? ==> forall n, l :: 0 <= n < |i2l| ==> (l in i2l[n] <==> l in old(i2l)[n] || (n == node && l == lid))
      ensures done.Err? ==> i2l == old(i2l)
      ensures AddLabel(old(Contents()), node, lid) == if done.Ok? then Ok(Contents()) else Err(done.error)
    {
      hide Sort, Ascending;
      if node >= |i2l| { return Err(WalProtocol("node not found")); }
      if lid !in i2l[node] {
        AddedLabels(i2l[node], lid);
        i2l := i2l[node := Sort(i2l[node] + [lid], LabelLe)];
      }
      done := Ok(());
    }

    /** `apply_remove_label`: memory only; every copy of the label goes and no other. */
    method ApplyRemoveLabel(node: u32, lid: u32) returns (done: Result<()>)
      requires Tidy()
      modifies this`i2l
      ensures Tidy() && |i2l| == |old(i2l)| && (done.Ok? <==> node < |i2l|)
      ensures done.Ok? ==> forall n, l :: 0 <= n < |i2l| ==> (l in i2l[n] <==> l in old(i2l)[n] && !(n == node && l == lid))
      ensures done.Err? ==> i2l == old(i2l)
      ensures RemoveLabel(old(Contents()), node, lid) == if done.Ok? then Ok(Contents()) else Err(done.error)
    {
      hide Without, Ascending;
      if node >= |i2l| { return Err(WalProtocol("node not found")); }
      RemovedLabels(i2l[node], lid);
      i2l := i2l[node := Without(i2l[node], lid)];
      done := Ok(());
    }

    /** The creations of a commit: they go through exactly when every record has a page. */
    method ApplyCreations(pager: Pager, created: seq<Created>) returns (done: Result<()>)
      requires pager.Valid() && Valid(pager) && Reserved(Contents(), created)
      modifies this, pager, pager.bits
      ensures pager.Valid() && Valid(pager) && old(i2eLen) <= i2eLen
      ensures Grew(old(pager.pages), old(pager.live), pager.pages, pager.live, i2eStart, old(i2eLen), i2eLen)
      ensures old(i2eStart).Some? ==> i2eStart == old(i2eStart)
      ensures StartedAt(old(i2eStart), old(pager.live), i2eStart)
      ensures done.Ok? <==> RoomFor(old(i2eStart), old(pager.live), old(i2eLen), old(i2eLen) + |created|)
      ensures done.Ok? ==> i2eLen == old(i2eLen) + |created| && ReplayOps(old(Contents()), CreateRecords(created)) == Ok(Contents())
      ensures done.Err? ==> Stuck(old(Contents()), created, Contents(), i2eStart, pager.live)
    {
      hide Stuck, OnDisk, Grew, RoomFor, Kept, Tidy, Pager.Valid, SameRoom, ReplayOps, Reserved, Placed, PutAt, PageOf, SlotOf, LeastFree;
      KeptAll(pager.pages);
      GrewNothing(pager.pages, pager.live, pager.pages, i2eStart, i2eLen);
      SameRoomSelf(i2eStart, pager.live, i2eLen);
      ghost var records, first := CreateRecords(created), Contents();
      NothingReplayed(first, records);
      assert created[0..] == created;
      for i := 0 to |created|
        invariant pager.Valid() && Valid(pager) && i2eLen == old(i2eLen) + i && Reserved(Contents(), created[i..])
        invariant Grew(old(pager.pages), old(pager.live), pager.pages, pager.live, i2eStart, old(i2eLen), i2eLen)
        invariant old(i2eStart).Some? ==> i2eStart == old(i2eStart)
        invariant StartedAt(old(i2eStart), old(pager.live), i2eStart) && (i > 0 ==> i2eStart.Some?)
        invariant i == 0 ==> i2eStart == old(i2eStart) && pager.live == old(pager.live)
        invariant SameRoom(old(i2eStart), old(pager.live), old(i2eLen), i2eStart, pager.live, i2eLen)
        invariant ReplayOps(first, records[..i]) == Ok(Contents())
      {
        ghost var now, start, pages, live, len := Contents(), i2eStart, pager.pages, pager.live, i2eLen;
        ReservedStep(now, created[i..]);
        assert created[i..][1..] == created[i + 1..];
        ReplaySnoc(first, records[..i], records[i]);
        assert records[..i + 1] == records[..i] + [records[i]];
        done := ApplyCreateNode(pager, created[i].externalId, created[i].labelId, created[i].internalId);
        GrewTrans(old(pager.pages), old(pager.live), pages, live, pager.pages, pager.live, start, i2eStart, old(i2eLen), len, i2eLen);
        if done.Err? {
          NoRoomBefore(old(i2eStart), old(pager.live), old(i2eLen), start, live, len, old(i2eLen) + |created|);
          StuckHere(first, created, i, now, start, live);
          assert pager.live == live by { GrewSame(pages, live, pager.pages, pager.live, i2eStart, len); }
          return;
        }
        StartsHere(start, live, i2eStart.value, len);
        SameRoomOne(start, live, i2eStart.value, pager.live, len);
        SameRoomTrans(old(i2eStart), old(pager.live), old(i2eLen), start, live, len, i2eStart, pager.live, i2eLen);
      }
      RoomForNone(i2eStart, pager.live, i2eLen);
      SameRoomAt(old(i2eStart), old(pager.live), old(i2eLen), i2eStart, pager.live, i2eLen, i2eLen);
      assert records[..|created|] == records;
      done := Ok(());
    }

    /** The label changes of a commit, up to the first that names a missing node. */
    method ApplyChanges(pager: Pager, changes: seq<WalRecord>) returns (done: Result<()>, ghost k: nat)
      requires Valid(pager) && ChangesOnly(changes)
      modifies this`i2l
      ensures Valid(pager) && k <= |changes| && |i2l| == |old(i2l)| && ReplayOps(old(Contents()), changes[..k]) == Ok(Contents())
      ensures done.Ok? <==> k == |changes|
      ensures done.Err? ==> changes[k].node >= |i2l|
      ensures done.Ok? ==> forall i :: 0 <= i < |changes| ==> changes[i].node < |i2l|
    {
      hide OnDisk, ReplayOps, Ascending, Sort, Without;
      ghost var first := Contents();
      k := 0;
      NothingReplayed(first, changes);
      for i := 0 to |changes|
        invariant Valid(pager) && k == i && |i2l| == |old(i2l)| && ReplayOps(first, changes[..i]) == Ok(Contents())
        invariant forall j :: 0 <= j < i ==> changes[j].node < |i2l|
      {
        ReplaySnoc(first, changes[..i], changes[i]);
        assert changes[..i + 1] == changes[..i] + [changes[i]];
        if changes[i].AddNodeLabel? {
          done := ApplyAddLabel(changes[i].node, changes[i].labelId);
        } else {
          done := ApplyRemoveLabel(changes[i].node, changes[i].labelId);
        }
        if done.Err? { return; }
        k := k + 1;
      }
      done := Ok(());
    }

    /**
     * One record of the log during replay. It succeeds exactly when the specified replay does and
     * there is a page for the record it may create.
     */
    method ReplayRecord(pager: Pager, op: WalRecord) returns (done: Result<()>)
      requires pager.Valid() && Valid(pager)
      modifies this, pager, pager.bits
      ensures pager.Valid() && Valid(pager) && old(i2eLen) <= i2eLen <= old(i2eLen) + 1
      ensures Grew(old(pager.pages), old(pager.live), pager.pages, pager.live, i2eStart, old(i2eLen), i2eLen)
      ensures old(i2eStart).Some? ==> i2eStart == old(i2eStart)
      ensures var next := ReplayOp(old(Contents()), op);
              && (next.Err? ==> done == Err(next.error))
              && (next.Ok? ==> (done.Ok? <==> RoomFor(old(i2eStart), old(pager.live), old(i2eLen), |next.value.i2e|)))
              && (done.Ok? ==> next == Ok(Contents()))
      ensures done.Ok? ==> SameRoom(old(i2eStart), old(pager.live), old(i2eLen), i2eStart, pager.live, i2eLen)
    {
      hide Kept, OnDisk, Sort, Without, Grew, RoomFor, Tidy, PageOf, Pager.Valid, PutAt, SlotOf, Placed, SameRoom;
      KeptAll(pager.pages);
      GrewNothing(pager.pages, pager.live, pager.pages, i2eStart, i2eLen);
      RoomForNone(i2eStart, pager.live, i2eLen);
      SameRoomSelf(i2eStart, pager.live, i2eLen);
      match op {
      case CreateNode(ext, lid, internal) =>
        if ext in e2i {
          return if e2i[ext] == internal then Ok(()) else Err(WalProtocol("external id remapped"));
        }
        done := ApplyCreateNode(pager, ext, lid, internal);
        if done.Ok? { SameRoomOne(old(i2eStart), old(pager.live), i2eStart.value, pager.live, old(i2eLen)); }
      case AddNodeLabel(node, lid) => done := ApplyAddLabel(node, lid);
      case RemoveNodeLabel(node, lid) => done := ApplyRemoveLabel(node, lid);
      case _ => done := Ok(());
      }
    }

    /**
     * The node and label part of `replay_graph_transactions`. It succeeds exactly when the specified replay
     * does and every record it creates has an addressable page; only those pages change.
     */
    method Replay(pager: Pager, ops: seq<WalRecord>) returns (done: Result<()>)
      requires pager.Valid() && Valid(pager)
      modifies this, pager, pager.bits
      ensures pager.Valid() && Valid(pager) && old(i2eLen) <= i2eLen <= old(i2eLen) + |ops|
      ensures Grew(old(pager.pages), old(pager.live), pager.pages, pager.live, i2eStart, old(i2eLen), i2eLen)
      ensures old(i2eStart).Some? ==> i2eStart == old(i2eStart)
      ensures var end := ReplayOps(old(Contents()), ops);
              && (done.Ok? <==> end.Ok? && RoomFor(old(i2eStart), old(pager.live), old(i2eLen), |end.value.i2e|))
              && (done.Ok? ==> end == Ok(Contents()))
    {
      hide OnDisk, ReplayOp, Grew, RoomFor, Kept, Tidy, Pager.Valid, SameRoom;
      assert ops[0..] == ops;
      KeptAll(pager.pages);
      GrewNothing(pager.pages, pager.live, pager.pages, i2eStart, i2eLen);
      SameRoomSelf(i2eStart, pager.live, i2eLen);
      ghost var end := ReplayOps(Contents(), ops);
      for k := 0 to |ops|
        invariant pager.Valid() && Valid(pager) && old(i2eLen) <= i2eLen <= old(i2eLen) + k
        invariant Grew(old(pager.pages), old(pager.live), pager.pages, pager.live, i2eStart, old(i2eLen), i2eLen)
        invariant old(i2eStart).Some? ==> i2eStart == old(i2eStart)
        invariant end == ReplayOps(Contents(), ops[k..])
        invariant SameRoom(old(i2eStart), old(pager.live), old(i2eLen), i2eStart, pager.live, i2eLen)
      {
        assert ops[k..][1..] == ops[k + 1..];
        ghost var now, start, pages, live, len := Contents(), i2eStart, pager.pages, pager.live, i2eLen;
        done := ReplayRecord(pager, ops[k]);
        GrewTrans(old(pager.pages), old(pager.live), pages, live, pager.pages, pager.live, start, i2eStart, old(i2eLen), len, i2eLen);
        if done.Err? {
          if end.Ok? {
            NoRoomNow(now, ops[k..], start, live, len);
            SameRoomAt(old(i2eStart), old(pager.live), old(i2eLen), start, live, len, |end.value.i2e|);
          }
          return;
        }
        SameRoomTrans(old(i2eStart), old(pager.live), old(i2eLen), start, live, len, i2eStart, pager.live, i2eLen);
      }
      SameRoomAt(old(i2eStart), old(pager.live), old(i2eLen), i2eStart, pager.live, i2eLen, i2eLen);
      RoomForNone(i2eStart, pager.live, i2eLen);
      done := Ok(());
    }
  }

  lemma NothingReplayed(ids: Ids, ops: seq<WalRecord>)
    ensures ReplayOps(ids, ops[..0]) == Ok(ids)
  {
  }

  /** Creations stopped for want of a page: those before are applied, and there is no page for the rest from here on. */
  ghost predicate Stuck(before: Ids, created: seq<Created>, now: Ids, start: Option<u64>, live: set<nat>) {
    var all := ReplayOps(before, CreateRecords(created));
    all.Ok? && before.i2e <= now.i2e <= all.value.i2e && !RoomFor(start, live, |now.i2e|, |all.value.i2e|)
  }

  lemma StuckHere(before: Ids, created: seq<Created>, i: nat, now: Ids, start: Option<u64>, live: set<nat>)
    requires i < |created| && Reserved(before, created) && |before.i2l| == |before.i2e| && |now.i2l| == |now.i2e| == |before.i2e| + i
    requires ReplayOps(before, CreateRecords(created)[..i]) == Ok(now) && !RoomFor(start, live, |now.i2e|, |now.i2e| + 1)
    ensures Stuck(before, created, now, start, live)
  {
    hide ReplayOps, Reserved, RoomFor;
    var records := CreateRecords(created);
    ReservedApply(before, created);
    CreatedReplay(before, created);
    assert records == records[..i] + records[i..];
    ReplayConcat(before, records[..i], records[i..]);
    ReplayGrows(before, records[..i]);
    ReplayGrows(now, records[i..]);
    var total := |before.i2e| + |created|;
    if RoomFor(start, live, |now.i2e|, total) { RoomShrinks(start, live, |now.i2e|, |now.i2e| + 1, total); }
  }

  lemma GrewSame(pages: seq<Page>, live: set<nat>, pages': seq<Page>, live': set<nat>, start: Option<u64>, n: nat)
    requires Grew(pages, live, pages', live', start, n, n)
    ensures live' == live
  {
    assert start.Some? ==> IdPages(start.value, n, n) == {};
  }

  lemma NoRoomBefore(s: Option<u64>, l: set<nat>, n: nat, s': Option<u64>, l': set<nat>, n': nat, hi: nat)
    requires SameRoom(s, l, n, s', l', n') && n' < hi && !RoomFor(s', l', n', n' + 1)
    ensures !RoomFor(s, l, n, hi)
  {
    hide RoomFor;
    if RoomFor(s', l', n', hi) { RoomShrinks(s', l', n', n' + 1, hi); }
  }

  lemma FullHasNoFree(pager: Pager)
    requires pager.Valid() && |pager.live| >= BITMAP_BITS
    ensures forall p :: !LeastFree(pager.live, p)
  {
    hide EncodeMeta;
    RoomIff(pager.live, BITMAP_BITS);
  }

  lemma RoomForNone(start: Option<u64>, live: set<nat>, n: nat)
    ensures RoomFor(start, live, n, n)
  {
  }

  /** The page for one record more. */
  lemma RoomNext(start: Option<u64>, live: set<nat>, n: nat)
    ensures start.Some? ==> (RoomFor(start, live, n, n + 1) <==> DataPage(PageOf(start.value, n)))
    ensures start.None? && n == 0 ==> (RoomFor(start, live, n, n + 1) <==> exists p :: LeastFree(live, p))
  {
    if start.None? && n == 0 {
      forall p | LeastFree(live, p) ensures Addressable(p, n, n + 1) { }
    }
  }

  lemma NoRoomNow(now: Ids, ops: seq<WalRecord>, start: Option<u64>, live: set<nat>, len: nat)
    requires ops != [] && ReplayOps(now, ops).Ok? && |now.i2l| == |now.i2e| == len
    requires ReplayOp(now, ops[0]).Ok? ==> !RoomFor(start, live, len, |ReplayOp(now, ops[0]).value.i2e|)
    ensures len <= |ReplayOps(now, ops).value.i2e| && !RoomFor(start, live, len, |ReplayOps(now, ops).value.i2e|)
  {
    hide RoomFor, ReplayOp;
    var next, end := ReplayOp(now, ops[0]).value, ReplayOps(now, ops).value;
    StepGrows(now, ops[0]);
    ReplayGrows(next, ops[1..]);
    if RoomFor(start, live, len, |end.i2e|) { RoomShrinks(start, live, len, |next.i2e|, |end.i2e|); }
  }

  lemma {:induction false} ReplayGrows(ids: Ids, ops: seq<WalRecord>)
    requires |ids.i2l| == |ids.i2e| && ReplayOps(ids, ops).Ok?
    ensures ids.i2e <= ReplayOps(ids, ops).value.i2e
    decreases |ops|
  {
    hide ReplayOp;
    if ops != [] {
      StepGrows(ids, ops[0]);
      ReplayGrows(ReplayOp(ids, ops[0]).value, ops[1..]);
    }
  }

  lemma PutAtKept(a: seq<Page>, b: seq<Page>, c: seq<Page>, t: nat, k: nat, r: I2eRecord)
    requires Kept(a, b, {}) && DataPage(t) && PutAt(b, c, t, k, r)
    ensures PutAt(a, c, t, k, r)
  {
    hide PutRecord;
  }

  lemma PutAtLast(a: seq<Page>, b: seq<Page>, c: seq<Page>, t: nat, k: nat, r: I2eRecord)
    requires PutAt(a, b, t, k, r) && Kept(b, c, {}) && DataPage(t)
    ensures PutAt(a, c, t, k, r)
  {
    hide PutRecord;
  }

  lemma PageBound(start: nat, n: nat)
    requires DataPage(PageOf(start, n))
    ensures n < MAX_NODES
  {
  }

  lemma StartPage(before: Option<u64>, live: set<nat>, start: nat, n: nat)
    requires if before.Some? then start == before.value else n == 0 && LeastFree(live, start)
    ensures before.None? ==> PageOf(start, n) == start && DataPage(PageOf(start, n))
    ensures DataPage(PageOf(start, n)) ==> Placed(before, live, start, n)
  {
  }

  lemma OnDiskKept(pages: seq<Page>, after: seq<Page>, live: set<nat>, start: nat, records: seq<I2eRecord>)
    requires OnDisk(pages, live, start, records) && Kept(pages, after, {})
    ensures OnDisk(after, live, start, records)
  {
    hide RecordIn;
    forall i | 0 <= i < |records| ensures ReadRecord(after, live, start, i) == Ok(records[i]) {
      assert ReadRecord(pages, live, start, i) == Ok(records[i]);
    }
  }

  lemma KeptThen(a: seq<Page>, b: seq<Page>, c: seq<Page>, t: nat)
    requires Kept(a, b, {}) && Kept(b, c, {t})
    ensures Kept(a, c, {t})
  {
  }

  lemma KeptLast(a: seq<Page>, b: seq<Page>, c: seq<Page>, t: nat)
    requires Kept(a, b, {t}) && Kept(b, c, {})
    ensures Kept(a, c, {t})
  {
  }

  function StartOf(meta: Meta): Option<u64> { if meta.i2eStartPageId == 0 then None else Some(meta.i2eStartPageId) }

  /** The records a page file holds for the id map. */
  function StoredRecords(pages: seq<Page>, live: set<nat>, meta: Meta): (r: Result<seq<I2eRecord>>)
    ensures r.Ok? ==> |r.value| <= MAX_NODES
  {
    if meta.i2eStartPageId == 0 then Ok([]) else ReadRecords(pages, live, meta.i2eStartPageId, meta.i2eLen)
  }

  /** `load`. */
  method Load(pager: Pager) returns (r: Result<IdMap>)
    requires pager.Valid()
    ensures var records := StoredRecords(pager.pages, pager.live, pager.meta);
            if records.Err? then r == Err(records.error) else r.Ok? && fresh(r.value) && r.value.Contents() == Loaded(records.value)
    ensures r.Ok? ==> r.value.i2eStart == StartOf(pager.meta) && r.value.i2eLen == pager.meta.i2eLen
  {
    hide Maps, EncodeMeta, RecordIn, ReadPage;
    var start, n := pager.meta.i2eStartPageId, pager.meta.i2eLen;
    if start == 0 {
      var none := new IdMap([], None, n);
      return Ok(none);
    }
    var records: seq<I2eRecord> := [];
    for i := 0 to n
      invariant ReadRecords(pager.pages, pager.live, start, i) == Ok(records)
    {
      var page := pager.Read(PageOf(start, i));
      if page.Err? {
        ErrorStays(pager.pages, pager.live, start, i, n);
        return Err(page.error);
      }
      records := records + [RecordIn(page.value, SlotOf(i))];
    }
    assert |records| <= MAX_NODES;
    var ids := new IdMap(records, Some(start), n);
    r := Ok(ids);
  }

  lemma {:induction false} ErrorStays(pages: seq<Page>, live: set<nat>, start: nat, i: nat, n: nat)
    requires i < n && ReadRecords(pages, live, start, i).Ok? && ReadRecord(pages, live, start, i).Err?
    ensures ReadRecords(pages, live, start, n) == Err(ReadRecord(pages, live, start, i).error)
    decreases n
  {
    hide ReadRecord;
    if i < n - 1 { ErrorStays(pages, live, start, i, n - 1); }
  }

  /** A page file as the id map leaves it: without a start page it counts no records. */
  predicate WellKept(meta: Meta) { meta.i2eStartPageId == 0 ==> meta.i2eLen == 0 }

  /** What `load` returns is in step with the pages it came from. */
  lemma LoadedValid(ids: IdMap, pager: Pager, records: seq<I2eRecord>)
    requires pager.Valid() && WellKept(pager.meta) && StoredRecords(pager.pages, pager.live, pager.meta) == Ok(records)
    requires ids.Contents() == Loaded(records) && ids.i2eStart == StartOf(pager.meta) && ids.i2eLen == pager.meta.i2eLen
    ensures ids.Valid(pager) && ids.i2eLen == |records|
  {
    hide Maps, EncodeMeta, OnDisk, ReadRecord, Indexed;
    if pager.meta.i2eStartPageId != 0 { ReadsOnDisk(pager.pages, pager.live, pager.meta.i2eStartPageId, pager.meta.i2eLen); }
  }

  /** The page file holds exactly these records for the id map. */
  ghost predicate DiskHolds(pages: seq<Page>, live: set<nat>, meta: Meta, records: seq<I2eRecord>) {
    && meta.i2eLen == |records| <= MAX_NODES && WellKept(meta)
    && (meta.i2eStartPageId != 0 ==> OnDisk(pages, live, meta.i2eStartPageId, records))
  }

  lemma HeldRecords(pages: seq<Page>, live: set<nat>, meta: Meta, records: seq<I2eRecord>)
    requires DiskHolds(pages, live, meta, records)
    ensures StoredRecords(pages, live, meta) == Ok(records)
  {
    hide OnDisk, ReadRecords;
    if meta.i2eStartPageId != 0 {
      OnDiskReads(pages, live, meta.i2eStartPageId, records, |records|);
      assert records[..|records|] == records;
    }
  }

  /** Loading what was applied gives back every record, its index but for external id 0, and first labels. */
  method Reload(ids: IdMap, pager: Pager) returns (r: Result<IdMap>)
    requires pager.Valid() && ids.Valid(pager)
    ensures r.Ok? && fresh(r.value) && r.value.Contents() == Loaded(ids.i2e) && r.value.Valid(pager) && r.value.i2eStart == ids.i2eStart
  {
    hide Maps, EncodeMeta, OnDisk, ReadRecords;
    r := Load(pager);
    if ids.i2eStart.Some? {
      OnDiskReads(pager.pages, pager.live, ids.i2eStart.value, ids.i2e, |ids.i2e|);
      assert ids.i2e[..|ids.i2e|] == ids.i2e;
    }
  }

  /**
   * Reopening after a crash at any point of applying `ops`: the records of the outcome that reached the
   * disk are loaded and the log is replayed over them. The outcome is reached again exactly when no
   * record met again has external id 0 and the records still to be written have pages.
   */
  method Recover(crashed: IdMap, pager: Pager, ops: seq<WalRecord>, ghost base: seq<I2eRecord>) returns (r: Result<IdMap>)
    requires pager.Valid() && crashed.Valid(pager)
    requires |base| <= |crashed.i2e| && ReplayOps(Loaded(base), ops).Ok?
    requires crashed.i2e <= ReplayOps(Loaded(base), ops).value.i2e && |ReplayOps(Loaded(base), ops).value.i2e| <= U32_MAX
    modifies pager, pager.bits
    ensures pager.Valid()
    ensures var final := ReplayOps(Loaded(base), ops).value.i2e;
            r.Ok? <==> !ZeroBetween(final, |base|, |crashed.i2e|)
                       && RoomFor(crashed.i2eStart, old(pager.live), |crashed.i2e|, |final|)
    ensures r.Ok? ==> r.value.Valid(pager) && Ok(r.value.Contents()) == ReplayOps(Loaded(base), ops)
  {
    hide Maps, EncodeMeta, OnDisk, ReplayOps, Loaded, ZeroBetween, RoomFor, Grew;
    ghost var final := ReplayOps(Loaded(base), ops).value;
    assert crashed.i2e == final.i2e[..|crashed.i2e|];
    RecoveryIdempotent(base, ops, |crashed.i2e|);
    r := Reload(crashed, pager);
    var done := r.value.Replay(pager, ops);
    if done.Err? { r := Err(done.error); }
  }

  // ---- Pages shared with a blob --------------------------------------------------------------------

  /**
   * The id map takes its next consecutive page as it finds it. A blob survives a creation exactly when
   * the record's page is none of the blob's, or still says the same with the record in it.
   */
  method CreateBesideBlob(ids: IdMap, pager: Pager, ext: u64, lid: u32, internal: u32,
                          ghost id: u64, ghost chain: seq<nat>, ghost data: seq<byte>) returns (done: Result<()>)
    requires pager.Valid() && ids.Valid(pager) && Chain(pager.pages, pager.live, id, chain, data)
    modifies ids, pager, pager.bits
    ensures pager.Valid() && ids.Valid(pager)
    ensures done.Err? ==> Chain(pager.pages, pager.live, id, chain, data)
    ensures done.Ok? ==>
              var n := old(ids.i2eLen);
              && ids.i2eStart.Some? && (PageOf(ids.i2eStart.value, n) in chain ==> PageOf(ids.i2eStart.value, n) < |old(pager.pages)|)
              && var t := PageOf(ids.i2eStart.value, n);
                 (Chain(pager.pages, pager.live, id, chain, data) <==>
                    t !in chain || SameLink(old(pager.pages)[t], PutRecord(old(pager.pages)[t], SlotOf(n), I2eRecord(ext, lid, 0))))
  {
    hide Maps, EncodeMeta, OnDisk, RoomFor, PageOf, SlotOf, Placed, PutRecord, Chain, SameLink;
    ghost var pages, live, n := pager.pages, pager.live, ids.i2eLen;
    done := ids.ApplyCreateNode(pager, ext, lid, internal);
    if done.Ok? {
      ghost var t := PageOf(ids.i2eStart.value, n);
      GrewOnePage(pages, live, pager.pages, pager.live, ids.i2eStart.value, n);
      ChainRewrittenIff(pages, live, pager.pages, pager.live, t, id, chain, data);
    } else {
      GrewNoPage(pages, live, pager.pages, pager.live, ids.i2eStart, n);
      ChainLive(pages, live, id, chain, data);
      ChainKept(pages, live, pager.pages, pager.live, id, chain, data);
    }
  }

  lemma GrewOnePage(pages: seq<Page>, live: set<nat>, pages': seq<Page>, live': set<nat>, start: u64, n: nat)
    requires Grew(pages, live, pages', live', Some(start), n, n + 1)
    ensures Kept(pages, pages', {PageOf(start, n)}) && live' == live + {PageOf(start, n)}
  {
    assert IdPages(start, n, n + 1) == {PageOf(start, n)};
  }

  lemma GrewNoPage(pages: seq<Page>, live: set<nat>, pages': seq<Page>, live': set<nat>, start: Option<u64>, n: nat)
    requires Grew(pages, live, pages', live', start, n, n)
    ensures Kept(pages, pages', {}) && live' == live
  {
    if start.Some? { assert IdPages(start.value, n, n) == {}; }
  }

  /** A blob page entered by the id map links to the external id from then on. */
  lemma FirstSlot(page: Page, r: I2eRecord)
    ensures NextOf(PutRecord(page, 0, r)) == r.externalId
    ensures LengthOf(PutRecord(page, 0, r)) == r.labelId % 0x1_0000
    ensures SameLink(page, PutRecord(page, 0, r)) ==> r.externalId == NextOf(page)
  {
    hide U64Bytes, U32Bytes, U64Of, U16Of;
    var after := PutRecord(page, 0, r);
    assert after[0..8] == U64Bytes(r.externalId);
    U64RoundTrip(r.externalId);
    assert after[8..12] == U32Bytes(r.labelId) && after[8..10] == U32Bytes(r.labelId)[..2];
    LowHalf(r.labelId);
  }

  lemma LowHalf(x: u32)
    ensures U16Of(U32Bytes(x)[..2]) == x % 0x1_0000
  {
    var b := U32Bytes(x);
    assert b == [x % 256] + LE(x / 256, 3);
    assert LE(x / 256, 3) == [x / 256 % 256] + LE(x / 256 / 256, 2);
    assert b[..2] == [x % 256, x / 256 % 256] && b[..2][1..] == [x / 256 % 256];
    assert FromLE(b[..2][1..]) == x / 256 % 256;
  }

  /** One node created with the next ids. */
  method CreateNext(ids: IdMap, pager: Pager, lid: u32)
    requires pager.Valid() && ids.Valid(pager) && ids.i2eLen < 1000 && (forall x :: x in ids.e2i ==> x <= ids.i2eLen)
    requires RoomFor(ids.i2eStart, pager.live, ids.i2eLen, ids.i2eLen + 1)
    modifies ids, pager, pager.bits
    ensures pager.Valid() && ids.Valid(pager) && ids.i2eLen == old(ids.i2eLen) + 1 && (forall x :: x in ids.e2i ==> x <= ids.i2eLen)
    ensures ids.i2eStart.Some? && Placed(old(ids.i2eStart), old(pager.live), ids.i2eStart.value, old(ids.i2eLen))
    ensures pager.live == old(pager.live) + {PageOf(ids.i2eStart.value, old(ids.i2eLen))}
  {
    hide Maps, EncodeMeta, OnDisk, RoomFor, PageOf, Placed, Ascending, Grew, PutAt;
    ghost var pages, live, n := pager.pages, pager.live, ids.i2eLen;
    var _ := ids.ApplyCreateNode(pager, ids.i2eLen + 1, lid, ids.i2eLen);
    GrewOnePage(pages, live, pager.pages, pager.live, ids.i2eStart.value, n);
  }

  /** An id map with one full page, on pages 0 to 2. */
  method FillFirstPage(lid: u32) returns (pager: Pager, ids: IdMap)
    ensures fresh(pager) && fresh(pager.bits) && fresh(ids) && pager.Valid() && ids.Valid(pager)
    ensures pager.live == {0, 1, 2} && ids.i2eStart == Some(2) && ids.i2eLen == 512
    ensures forall x :: x in ids.e2i ==> x <= 512
  {
    hide Maps, EncodeMeta, OnDisk, Ascending, RoomFor;
    pager := new Pager.Create();
    ids := new IdMap([], None, 0);
    RoomNext(None, pager.live, 0);
    assert LeastFree(pager.live, 2);
    CreateNext(ids, pager, lid);
    LeastFreeUnique({0, 1}, 2, ids.i2eStart.value);
    for i := 1 to 512
      invariant fresh(pager) && fresh(pager.bits) && fresh(ids) && pager.Valid() && ids.Valid(pager)
      invariant pager.live == {0, 1, 2} && ids.i2eStart == Some(2) && ids.i2eLen == i
      invariant forall x :: x in ids.e2i ==> x <= i
    {
      RoomNext(Some(2), pager.live, i);
      CreateNext(ids, pager, lid);
    }
  }

  lemma OnDiskUntouched(a: seq<Page>, la: set<nat>, b: seq<Page>, lb: set<nat>, start: nat, records: seq<I2eRecord>)
    requires OnDisk(a, la, start, records) && Untouched(a, la, b, lb)
    ensures OnDisk(b, lb, start, records)
  {
    hide RecordIn;
    forall i | 0 <= i < |records| ensures ReadRecord(b, lb, start, i) == Ok(records[i]) {
      assert ReadRecord(a, la, start, i) == Ok(records[i]);
    }
  }

  lemma OneChunk(data: seq<byte>)
    requires |data| <= MAX_DATA_PER_PAGE
    ensures ChunkCount(|data|) == 1
  {
  }

  lemma GrownOne(before: set<nat>, after: set<nat>, p: nat)
    requires Grown(before, after, [p])
    ensures after == before + {p}
  {
    assert Pages([p]) == {p} by { assert [p][0] == p; }
  }

  lemma LinkedOut(pages: seq<Page>, live: set<nat>, id: u64)
    requires DataPage(id) && id in live && id < |pages| && NextOf(pages[id]) == 513 && LengthOf(pages[id]) == 0 && 513 !in live
    ensures Blob(pages, live, id) == Finished(Err(PageNotAllocated(513)))
  {
    hide NextOf, LengthOf;
    assert Follow(pages, live, 513, live - {id}) == Finished(Err(PageNotAllocated(513)));
  }

  /** Fill one id-map page, write a blob, create one node more: the blob's link now leads to an unallocated page. */
  method SharedPageBreaksBlob(data: seq<byte>) returns (pager: Pager, id: u64)
    requires |data| <= MAX_DATA_PER_PAGE
    ensures pager.Valid() && Blob(pager.pages, pager.live, id) == Finished(Err(PageNotAllocated(513)))
  {
    hide Maps, EncodeMeta, OnDisk, Ascending, Chain, Grown, Blob, PutRecord, RoomFor, Untouched, ChunkCount, Grew, NextOf, LengthOf, SlotOf;
    var ids;
    pager, ids := FillFirstPage(0);
    ghost var pages, live := pager.pages, pager.live;
    var blob, chain := WriteDirect(pager, data);
    SetSize(live);
    OneChunk(data);
    id := blob.value;
    assert LeastFree(live, 3);
    LeastFreeUnique(live, 3, id);
    OnDiskUntouched(pages, live, pager.pages, pager.live, 2, ids.i2e);
    ChainLive(pager.pages, pager.live, id, chain, data);
    GrownOne(live, pager.live, id);
    RoomNext(Some(2), pager.live, 512);
    pages, live := pager.pages, pager.live;
    var _ := ids.ApplyCreateNode(pager, 513, 0, 512);
    GrewOnePage(pages, live, pager.pages, pager.live, 2, 512);
    FirstSlot(pages[3], I2eRecord(513, 0, 0));
    FirstInPage();
    LinkedOut(pager.pages, pager.live, id);
  }

  lemma SetSize(live: set<nat>)
    requires live == {0, 1, 2}
    ensures |live| == 3
  {
  }

  lemma FirstInPage()
    ensures PageOf(2, 512) == 3 && SlotOf(512) == 0
  {
  }
}
