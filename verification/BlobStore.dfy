/** Variable-length data as chains of pages: next page id, data length, data. */
module BlobStores {
  import opened Bytes
  import opened Wrappers
  import opened Pagers

  const HEADER_SIZE: nat := 10
  const MAX_DATA_PER_PAGE: nat := PAGE_SIZE - HEADER_SIZE

  // ---- One page ---------------------------------------------------------------------------

  function BlobPage(next: u64, chunk: seq<byte>): Page
    requires |chunk| <= MAX_DATA_PER_PAGE
  {
    U64Bytes(next) + U16Bytes(|chunk|) + chunk + Zeros(MAX_DATA_PER_PAGE - |chunk|)
  }

  function NextOf(page: Page): u64 { U64Of(page[0..8]) }

  function LengthOf(page: Page): u16 { U16Of(page[8..10]) }

  lemma BlobPageParts(next: u64, chunk: seq<byte>)
    requires |chunk| <= MAX_DATA_PER_PAGE
    ensures var page := BlobPage(next, chunk);
            NextOf(page) == next && LengthOf(page) == |chunk| && page[10..10 + |chunk|] == chunk
  {
    hide U64Bytes, U16Bytes, U64Of, U16Of;
    var page := BlobPage(next, chunk);
    assert page[0..8] == U64Bytes(next);
    assert page[8..10] == U16Bytes(|chunk|);
    U64RoundTrip(next);
    U16RoundTrip(|chunk|);
  }

  // ---- Chains ----------------------------------------------------------------------------------

  /** What following next pointers from `id` gives; a chain that comes back to a page is read for ever. */
  datatype Outcome = Finished(r: Result<seq<byte>>) | Endless

  function Follow(pages: seq<Page>, live: set<nat>, id: u64, unseen: set<nat>): (o: Outcome)
    decreases unseen
  {
    if id == 0 then Finished(Ok([]))
    else
      var page := ReadPage(pages, live, id);
      if page.Err? then Finished(Err(page.error))
      else if LengthOf(page.value) > MAX_DATA_PER_PAGE then Finished(Err(StorageCorrupted("invalid blob page data length")))
      else if id !in unseen then Endless
      else
        match Follow(pages, live, NextOf(page.value), unseen - {id})
        case Endless => Endless
        case Finished(rest) =>
          Finished(if rest.Ok? then Ok(page.value[10..10 + LengthOf(page.value)] + rest.value) else rest)
  }

  /** The blob at `id`. */
  function Blob(pages: seq<Page>, live: set<nat>, id: u64): Outcome { Follow(pages, live, id, live) }

  /** `ids` are the pages of a finished chain and `data` its bytes. */
  ghost predicate Chain(pages: seq<Page>, live: set<nat>, id: u64, ids: seq<nat>, data: seq<byte>)
    decreases |ids|
  {
    if ids == [] then id == 0 && data == []
    else
      && ids[0] == id && id != 0 && ids[0] !in ids[1..] && ReadPage(pages, live, id).Ok?
      && var page := ReadPage(pages, live, id).value;
         && LengthOf(page) <= MAX_DATA_PER_PAGE && LengthOf(page) <= |data|
         && page[10..10 + LengthOf(page)] == data[..LengthOf(page)]
         && Chain(pages, live, NextOf(page), ids[1..], data[LengthOf(page)..])
  }

  /** A finished chain reads as its data, whatever pages outside it were seen before. */
  lemma {:induction false} ChainReads(pages: seq<Page>, live: set<nat>, id: u64, ids: seq<nat>, data: seq<byte>,
                                      unseen: set<nat>)
    requires Chain(pages, live, id, ids, data) && forall i :: 0 <= i < |ids| ==> ids[i] in unseen
    ensures Follow(pages, live, id, unseen) == Finished(Ok(data))
    decreases |ids|
  {
    hide NextOf, LengthOf, ReadPage;
    if ids != [] {
      var page := ReadPage(pages, live, id).value;
      ChainReads(pages, live, NextOf(page), ids[1..], data[LengthOf(page)..], unseen - {id});
      assert data == data[..LengthOf(page)] + data[LengthOf(page)..];
    }
  }

  lemma ChainBlob(pages: seq<Page>, live: set<nat>, id: u64, ids: seq<nat>, data: seq<byte>)
    requires Chain(pages, live, id, ids, data)
    ensures Blob(pages, live, id) == Finished(Ok(data))
  {
    hide Chain, Follow;
    ChainLive(pages, live, id, ids, data);
    ChainReads(pages, live, id, ids, data, live);
  }

  lemma {:induction false} ChainLive(pages: seq<Page>, live: set<nat>, id: u64, ids: seq<nat>, data: seq<byte>)
    requires Chain(pages, live, id, ids, data)
    ensures forall i :: 0 <= i < |ids| ==> ids[i] in live && DataPage(ids[i]) && ids[i] < |pages|
    decreases |ids|
  {
    hide NextOf, LengthOf;
    if ids != [] {
      var page := ReadPage(pages, live, id).value;
      ChainLive(pages, live, NextOf(page), ids[1..], data[LengthOf(page)..]);
    }
  }

  /** The page can be read and its length is in range. */
  predicate Readable(pages: seq<Page>, live: set<nat>, id: u64) {
    ReadPage(pages, live, id).Ok? && LengthOf(ReadPage(pages, live, id).value) <= 8182
  }

  /** Going from page to page from `id`, all of them readable and different, one comes past `ids` to `last`. */
  ghost predicate Walk(pages: seq<Page>, live: set<nat>, id: u64, ids: seq<nat>, last: u64)
    decreases |ids|
  {
    if ids == [] then last == id
    else
      && ids[0] == id && id != 0 && ids[0] !in ids[1..] && Readable(pages, live, id)
      && Walk(pages, live, NextOf(ReadPage(pages, live, id).value), ids[1..], last)
  }

  /** How a walk that stops at `last` reads. */
  ghost predicate Ends(pages: seq<Page>, live: set<nat>, id: u64, ids: seq<nat>, last: u64, unseen: set<nat>, o: Outcome) {
    match o
    case Finished(Ok(data)) => last == 0 && Chain(pages, live, id, ids, data)
    case Finished(Err(e)) =>
      && last != 0 && !Readable(pages, live, last)
      && e == (if ReadPage(pages, live, last).Err? then ReadPage(pages, live, last).error else StorageCorrupted("invalid blob page data length"))
    case Endless => last != 0 && Readable(pages, live, last) && (last in ids || last !in unseen)
  }

  lemma {:induction false} FollowEnds(pages: seq<Page>, live: set<nat>, id: u64, unseen: set<nat>) returns (ids: seq<nat>, last: u64)
    ensures Walk(pages, live, id, ids, last) && Ends(pages, live, id, ids, last, unseen, Follow(pages, live, id, unseen))
    ensures forall i :: 0 <= i < |ids| ==> ids[i] in unseen
    decreases unseen
  {
    hide NextOf, LengthOf, ReadPage;
    ids, last := [], id;
    if id != 0 && Readable(pages, live, id) && id in unseen {
      var page := ReadPage(pages, live, id).value;
      ids, last := FollowEnds(pages, live, NextOf(page), unseen - {id});
      var rest := Follow(pages, live, NextOf(page), unseen - {id});
      if rest.Finished? && rest.r.Ok? { ChainGrows(pages, live, id, ids, rest.r.value); }
      ids := [id] + ids;
    }
  }

  lemma ChainGrows(pages: seq<Page>, live: set<nat>, id: u64, ids: seq<nat>, data: seq<byte>)
    requires id != 0 && Readable(pages, live, id) && id !in ids && Chain(pages, live, NextOf(ReadPage(pages, live, id).value), ids, data)
    ensures var page := ReadPage(pages, live, id).value; Chain(pages, live, id, [id] + ids, page[10..10 + LengthOf(page)] + data)
  {
    hide NextOf, LengthOf, ReadPage;
    var page := ReadPage(pages, live, id).value;
    var front := page[10..10 + LengthOf(page)];
    assert ([id] + ids)[1..] == ids && (front + data)[LengthOf(page)..] == data && (front + data)[..LengthOf(page)] == front;
  }

  /**
   * For all pages: a blob reads as its data when the walk ends at page 0, as an error when it comes to a page that is not
   * readable, and without end when it comes back to a page it has been to.
   */
  lemma BlobMeans(pages: seq<Page>, live: set<nat>, id: u64) returns (ids: seq<nat>, last: u64)
    ensures Walk(pages, live, id, ids, last) && Ends(pages, live, id, ids, last, {}, Blob(pages, live, id))
    ensures Blob(pages, live, id).Endless? ==> last in ids
  {
    hide Walk, Follow, Chain;
    ids, last := FollowEnds(pages, live, id, live);
  }

  /** A chain depends on its own pages only. */
  lemma {:induction false} ChainKept(pages: seq<Page>, live: set<nat>, pages': seq<Page>, live': set<nat>,
                                     id: u64, ids: seq<nat>, data: seq<byte>)
    requires Chain(pages, live, id, ids, data)
    requires forall i :: 0 <= i < |ids| ==> ids[i] in live' && ids[i] < |pages'| && (ids[i] < |pages| ==> pages'[ids[i]] == pages[ids[i]])
    ensures Chain(pages', live', id, ids, data)
    decreases |ids|
  {
    hide NextOf, LengthOf;
    if ids != [] {
      var page := ReadPage(pages, live, id).value;
      assert ReadPage(pages', live', id) == ReadPage(pages, live, id);
      ChainKept(pages, live, pages', live', NextOf(page), ids[1..], data[LengthOf(page)..]);
    }
  }

  /** The page still says the same: next page, length and data. */
  predicate SameLink(a: Page, b: Page) {
    && NextOf(a) == NextOf(b) && LengthOf(a) == LengthOf(b)
    && (LengthOf(a) <= MAX_DATA_PER_PAGE ==> a[10..10 + LengthOf(a)] == b[10..10 + LengthOf(a)])
  }

  lemma {:induction false} ChainData(pages: seq<Page>, live: set<nat>, id: u64, ids: seq<nat>, a: seq<byte>, b: seq<byte>)
    requires Chain(pages, live, id, ids, a) && Chain(pages, live, id, ids, b)
    ensures a == b
    decreases |ids|
  {
    hide NextOf, LengthOf;
    if ids != [] {
      var n := LengthOf(ReadPage(pages, live, id).value);
      ChainData(pages, live, NextOf(ReadPage(pages, live, id).value), ids[1..], a[n..], b[n..]);
      assert a == a[..n] + a[n..] && b == b[..n] + b[n..];
    }
  }

  lemma ChainStart(pages: seq<Page>, live: set<nat>, id: u64, ids: seq<nat>, data: seq<byte>)
    requires Chain(pages, live, id, ids, data)
    ensures id == if ids == [] then 0 else ids[0]
  {
  }

  /** Writes to page `t` alone: the chain survives exactly when `t` is none of its pages or still says the same. */
  lemma {:induction false} ChainRewrittenIff(pages: seq<Page>, live: set<nat>, pages': seq<Page>, live': set<nat>, t: nat,
                                             id: u64, ids: seq<nat>, data: seq<byte>)
    requires Chain(pages, live, id, ids, data) && Kept(pages, pages', {t}) && live <= live'
    ensures t in ids ==> t < |pages| && t < |pages'|
    ensures Chain(pages', live', id, ids, data) <==> t !in ids || SameLink(pages[t], pages'[t])
    decreases |ids|
  {
    hide NextOf, LengthOf;
    if ids != [] {
      var page := ReadPage(pages, live, id).value;
      var n := LengthOf(page);
      var rest := data[n..];
      ChainRewrittenIff(pages, live, pages', live', t, NextOf(page), ids[1..], rest);
      assert t in ids <==> t == id || t in ids[1..];
      if t == id { HeadRewritten(pages, live, pages', live', id, ids, data); }
    }
  }

  lemma HeadRewritten(pages: seq<Page>, live: set<nat>, pages': seq<Page>, live': set<nat>, id: u64, ids: seq<nat>, data: seq<byte>)
    requires ids != [] && Chain(pages, live, id, ids, data) && id < |pages'| && live <= live'
    requires var page := ReadPage(pages, live, id).value; Chain(pages', live', NextOf(page), ids[1..], data[LengthOf(page)..])
    ensures Chain(pages', live', id, ids, data) <==> SameLink(pages[id], pages'[id])
  {
    hide NextOf, LengthOf;
    var a, b := pages[id], pages'[id];
    assert ReadPage(pages', live', id) == Ok(b);
    if Chain(pages', live', id, ids, data) {
      ChainStart(pages', live', NextOf(a), ids[1..], data[LengthOf(a)..]);
      ChainStart(pages', live', NextOf(b), ids[1..], data[LengthOf(b)..]);
      ChainData(pages', live', NextOf(a), ids[1..], data[LengthOf(a)..], data[LengthOf(b)..]);
      assert |data| - LengthOf(a) == |data| - LengthOf(b);
    }
  }

  // ---- Writing --------------------------------------------------------------------------------

  function ChunkCount(n: nat): nat { if n == 0 then 1 else (n + MAX_DATA_PER_PAGE - 1) / MAX_DATA_PER_PAGE }

  /** Where chunk `k` begins and chunk `k - 1` ends. */
  function ChunkEnd(n: nat, k: nat): nat { Min(k * MAX_DATA_PER_PAGE, n) }

  lemma ChunkEnds(n: nat, k: nat)
    requires k <= ChunkCount(n)
    ensures ChunkEnd(n, 0) == 0 && ChunkCount(n) >= 1 && (n == 0 ==> ChunkCount(n) == 1)
    ensures k == ChunkCount(n) ==> ChunkEnd(n, k) == n
    ensures k > 0 && n > 0 ==>
              && ChunkEnd(n, k - 1) == (k - 1) * MAX_DATA_PER_PAGE <= ChunkEnd(n, k)
              && ChunkEnd(n, k) <= n && ChunkEnd(n, k) - ChunkEnd(n, k - 1) <= MAX_DATA_PER_PAGE
  {
  }

  function Pages(ids: seq<nat>): set<nat> { set i | 0 <= i < |ids| :: ids[i] }

  /** Every page allocated before still holds what it held. */
  ghost predicate Untouched(pages: seq<Page>, live: set<nat>, pages': seq<Page>, live': set<nat>) {
    && live <= live' && |pages| <= |pages'|
    && forall p :: p in live && DataPage(p) && p < |pages| ==> pages'[p] == pages[p]
  }

  lemma UntouchedTrans(a: seq<Page>, la: set<nat>, b: seq<Page>, lb: set<nat>, c: seq<Page>, lc: set<nat>)
    requires Untouched(a, la, b, lb) && Untouched(b, lb, c, lc)
    ensures Untouched(a, la, c, lc)
  {
  }

  /** Allocating a free page and writing it touches no page in use. */
  lemma OnePageUntouched(a: seq<Page>, la: set<nat>, b: seq<Page>, lb: set<nat>, pid: nat, page: Page)
    requires Kept(a, b, {}) && pid !in la && lb == la + {pid} && pid < |b|
    ensures Untouched(a, la, b[pid := page], lb)
  {
  }

  /** Another blob survives whatever touches no page in use. */
  lemma UntouchedChain(a: seq<Page>, la: set<nat>, b: seq<Page>, lb: set<nat>, id: u64, ids: seq<nat>, data: seq<byte>)
    requires Untouched(a, la, b, lb) && Chain(a, la, id, ids, data)
    ensures Chain(b, lb, id, ids, data) && Blob(b, lb, id) == Finished(Ok(data))
  {
    hide Chain, Follow;
    ChainLive(a, la, id, ids, data);
    ChainKept(a, la, b, lb, id, ids, data);
    ChainReads(b, lb, id, ids, data, lb);
  }

  lemma ChainCons(pages: seq<Page>, live: set<nat>, pid: nat, next: u64, ids: seq<nat>, chunk: seq<byte>, rest: seq<byte>)
    requires |chunk| <= MAX_DATA_PER_PAGE && Chain(pages, live, next, ids, rest) && pid !in ids
    requires DataPage(pid) && pid in live && pid < |pages| && pages[pid] == BlobPage(next, chunk)
    ensures Chain(pages, live, pid, [pid] + ids, chunk + rest)
  {
    hide NextOf, LengthOf, BlobPage;
    BlobPageParts(next, chunk);
    assert ([pid] + ids)[1..] == ids;
    assert (chunk + rest)[..|chunk|] == chunk && (chunk + rest)[|chunk|..] == rest;
  }

  lemma ZeroPage()
    ensures BlobPage(0, []) == Zeros(PAGE_SIZE)
  {
    assert U16Bytes(0) == [0, 0];
    var low := LE(0, 4);
    assert low == [0, 0, 0, 0];
    assert LE(0, 8) == [0, 0, 0, 0] + low;
  }

  /** Allocate a page and write it: no page in use is touched. */
  method PutFresh(pager: Pager, page: Page) returns (r: Result<nat>)
    requires pager.Valid()
    modifies pager, pager.bits
    ensures pager.Valid() && Untouched(old(pager.pages), old(pager.live), pager.pages, pager.live)
    ensures SameButNext(old(pager.meta), pager.meta)
    ensures r.Ok? <==> |old(pager.live)| < BITMAP_BITS
    ensures r.Ok? ==> r.value !in old(pager.live) && DataPage(r.value) && pager.live == old(pager.live) + {r.value}
    ensures r.Ok? ==> LeastFree(old(pager.live), r.value)
    ensures r.Ok? ==> |pager.live| == |old(pager.live)| + 1 && ReadPage(pager.pages, pager.live, r.value) == Ok(page)
    ensures r.Err? ==> pager.live == old(pager.live)
  {
    hide Maps, EncodeMeta;
    ghost var pages, live := pager.pages, pager.live;
    r := pager.Allocate();
    if r.Err? { return; }
    OnePageUntouched(pages, live, pager.pages, pager.live, r.value, page);
    var _ := pager.Write(r.value, page);
  }

  /** One link: a fresh page in front of the chain built so far. */
  method Link(pager: Pager, next: u64, chunk: seq<byte>, ghost ids: seq<nat>, ghost rest: seq<byte>) returns (r: Result<nat>)
    requires pager.Valid() && |chunk| <= MAX_DATA_PER_PAGE && Chain(pager.pages, pager.live, next, ids, rest)
    modifies pager, pager.bits
    ensures pager.Valid() && Untouched(old(pager.pages), old(pager.live), pager.pages, pager.live)
    ensures SameButNext(old(pager.meta), pager.meta)
    ensures r.Ok? <==> |old(pager.live)| < BITMAP_BITS
    ensures r.Ok? ==> r.value !in old(pager.live) && DataPage(r.value) && pager.live == old(pager.live) + {r.value}
    ensures r.Ok? ==> LeastFree(old(pager.live), r.value)
    ensures r.Ok? ==> Chain(pager.pages, pager.live, r.value, [r.value] + ids, chunk + rest)
    ensures r.Err? ==> pager.live == old(pager.live)
  {
    hide Chain, BlobPage, Maps, EncodeMeta, Untouched, LeastFree;
    ghost var pages, live := pager.pages, pager.live;
    ChainLive(pages, live, next, ids, rest);
    r := PutFresh(pager, BlobPage(next, chunk));
    if r.Err? { return; }
    UntouchedChain(pages, live, pager.pages, pager.live, next, ids, rest);
    ChainCons(pager.pages, pager.live, r.value, next, ids, chunk, rest);
  }

  /** From `was` on, only the chain at `id` was written. */
  ghost predicate Built(was: seq<Page>, wasLive: set<nat>, pages: seq<Page>, live: set<nat>, id: u64, ids: seq<nat>, data: seq<byte>) {
    && Chain(pages, live, id, ids, data) && Taken(wasLive, live, id, ids) && Untouched(was, wasLive, pages, live)
    && (ids != [] ==> id != 0)
  }

  lemma BuiltNothing(pages: seq<Page>, live: set<nat>)
    ensures Built(pages, live, pages, live, 0, [], [])
  {
    hide Chain, Untouched, Taken;
    UntouchedSelf(pages, live);
    EmptyChain(pages, live);
    TakenStart(live);
  }

  lemma BuiltMeans(was: seq<Page>, wasLive: set<nat>, pages: seq<Page>, live: set<nat>, id: u64, ids: seq<nat>, data: seq<byte>)
    requires Built(was, wasLive, pages, live, id, ids, data)
    ensures Chain(pages, live, id, ids, data) && Untouched(was, wasLive, pages, live) && (ids != [] ==> id != 0)
    ensures Blob(pages, live, id) == Finished(Ok(data))
    ensures Grown(wasLive, live, ids) && |live| == |wasLive| + |ids| && (|ids| == 1 ==> LeastFree(wasLive, id) && ids == [id])
  {
    hide Chain, Untouched, Taken, LeastFree, Grown, Blob;
    TakenMeans(wasLive, live, id, ids);
    ChainBlob(pages, live, id, ids, data);
  }

  /** One more link, on a page that was free all along. */
  method LinkFurther(pager: Pager, next: u64, chunk: seq<byte>, ghost was: seq<Page>, ghost wasLive: set<nat>, ghost ids: seq<nat>,
                     ghost rest: seq<byte>) returns (r: Result<nat>)
    requires pager.Valid() && |chunk| <= MAX_DATA_PER_PAGE && Built(was, wasLive, pager.pages, pager.live, next, ids, rest)
    modifies pager, pager.bits
    ensures pager.Valid() && SameButNext(old(pager.meta), pager.meta) && Untouched(was, wasLive, pager.pages, pager.live)
    ensures r.Ok? <==> |wasLive| + |ids| < BITMAP_BITS
    ensures r.Ok? ==> r.value < BITMAP_BITS && Built(was, wasLive, pager.pages, pager.live, r.value, [r.value] + ids, chunk + rest)
  {
    hide Chain, Untouched, Taken, Grown, LeastFree, Blob, Pager.Valid;
    ghost var pages, live := pager.pages, pager.live;
    BuiltMeans(was, wasLive, pages, live, next, ids, rest);
    r := Link(pager, next, chunk, ids, rest);
    UntouchedTrans(was, wasLive, pages, live, pager.pages, pager.live);
    if r.Ok? {
      LiveBound(pager);
      TakenStep(wasLive, live, next, ids, r.value);
    }
  }

  /**
   * `write_direct`: last chunk first. It succeeds exactly when enough pages are free, and then the
   * blob sits on pages that were free while every page in use keeps its bytes.
   */
  method WriteDirect(pager: Pager, data: seq<byte>) returns (r: Result<u64>, ghost ids: seq<nat>)
    requires pager.Valid()
    modifies pager, pager.bits
    ensures pager.Valid() && Untouched(old(pager.pages), old(pager.live), pager.pages, pager.live)
    ensures SameButNext(old(pager.meta), pager.meta)
    ensures r.Ok? <==> |old(pager.live)| + ChunkCount(|data|) <= BITMAP_BITS
    ensures r.Ok? ==> r.value != 0 && Chain(pager.pages, pager.live, r.value, ids, data)
    ensures r.Ok? ==> Blob(pager.pages, pager.live, r.value) == Finished(Ok(data))
    ensures r.Ok? ==> |ids| == ChunkCount(|data|) && Grown(old(pager.live), pager.live, ids)
    ensures r.Ok? && |ids| == 1 ==> LeastFree(old(pager.live), r.value) && ids == [r.value]
  {
    hide Chain, Untouched, Built, Grown, ChunkCount, ChunkEnd, Pager.Valid, Blob, LeastFree;
    LiveBound(pager);
    ChunkEnds(|data|, ChunkCount(|data|));
    ghost var pages, live := pager.pages, pager.live;
    BuiltNothing(pages, live);
    ids := [];
    if data == [] {
      var only := LinkFurther(pager, 0, data, pages, live, ids, data);
      if only.Err? { return Err(only.error), []; }
      assert data + data == data;
      ids := [only.value] + ids;
      BuiltMeans(pages, live, pager.pages, pager.live, only.value, ids, data);
      return Ok(only.value), ids;
    }
    var last: u64, k, pos := 0, ChunkCount(|data|), |data|;
    assert data[pos..] == [];
    while k > 0
      invariant 0 <= k <= ChunkCount(|data|) && pager.Valid() && pos <= |data| && pos == ChunkEnd(|data|, k)
      invariant last < BITMAP_BITS && |ids| == ChunkCount(|data|) - k && SameButNext(old(pager.meta), pager.meta)
      invariant Built(pages, live, pager.pages, pager.live, last, ids, data[pos..])
    {
      ChunkEnds(|data|, k);
      var start := (k - 1) * MAX_DATA_PER_PAGE;
      ghost var tail := data[pos..];
      var pid := LinkFurther(pager, last, data[start..pos], pages, live, ids, tail);
      if pid.Err? { return Err(pid.error), ids; }
      assert data[start..pos] + tail == data[start..];
      ids := [pid.value] + ids;
      last, k, pos := pid.value, k - 1, start;
    }
    ChunkEnds(|data|, 0);
    assert data[0..] == data;
    BuiltMeans(pages, live, pager.pages, pager.live, last, ids, data);
    LiveBound(pager);
    r := Ok(last);
  }

  /** The pages of the chain so far were free; a single one was the first free page. */
  ghost predicate Taken(before: set<nat>, after: set<nat>, last: u64, ids: seq<nat>) {
    && Grown(before, after, ids) && (ids == [] ==> after == before)
    && (|ids| == 1 ==> LeastFree(before, last) && ids == [last])
  }

  lemma TakenStart(live: set<nat>)
    ensures Taken(live, live, 0, [])
  {
    hide Grown;
    GrownStart(live);
  }

  lemma TakenStep(before: set<nat>, after: set<nat>, last: u64, ids: seq<nat>, p: nat)
    requires Taken(before, after, last, ids) && p !in after && LeastFree(after, p) && p < BITMAP_BITS
    ensures Taken(before, after + {p}, p, [p] + ids)
  {
    hide Grown, LeastFree;
    GrownStep(before, after, ids, p);
  }

  lemma TakenMeans(before: set<nat>, after: set<nat>, last: u64, ids: seq<nat>)
    requires Taken(before, after, last, ids)
    ensures Grown(before, after, ids) && |after| == |before| + |ids| && (|ids| == 1 ==> LeastFree(before, last) && ids == [last])
  {
    hide LeastFree;
    GrownSize(before, after, ids);
  }

  /** The chain took free pages, each once. */
  ghost predicate Grown(before: set<nat>, after: set<nat>, ids: seq<nat>) {
    Pages(ids) !! before && after == before + Pages(ids) && |after| == |before| + |ids|
  }

  lemma GrownStart(live: set<nat>)
    ensures Grown(live, live, [])
  {
    assert Pages([]) == {};
  }

  lemma GrownStep(before: set<nat>, after: set<nat>, ids: seq<nat>, p: nat)
    requires Grown(before, after, ids) && p !in after
    ensures Grown(before, after + {p}, [p] + ids)
  {
    hide Pages;
    PagesCons(p, ids);
  }

  lemma GrownSize(before: set<nat>, after: set<nat>, ids: seq<nat>)
    requires Grown(before, after, ids)
    ensures |after| == |before| + |ids|
  {
  }

  lemma PagesCons(p: nat, ids: seq<nat>)
    ensures Pages([p] + ids) == {p} + Pages(ids)
  {
    var all := [p] + ids;
    forall i | 0 <= i < |ids| ensures ids[i] in Pages(all) { assert all[i + 1] == ids[i]; }
    assert all[0] == p;
  }

  lemma EmptyChain(pages: seq<Page>, live: set<nat>)
    ensures Chain(pages, live, 0, [], [])
  {
  }

  lemma UntouchedSelf(pages: seq<Page>, live: set<nat>)
    ensures Untouched(pages, live, pages, live)
  {
  }

  lemma LiveBound(pager: Pager)
    requires pager.Valid()
    ensures |pager.live| <= BITMAP_BITS
  {
    MapsBound(pager.bits[..], pager.live);
    RoomIff(pager.live, BITMAP_BITS);
  }

  // ---- Reading ------------------------------------------------------------------------------------

  /** `read_direct`, on any page graph. Where the chain comes back to a page the source reads on for ever; `Endless` stands for that. */
  method ReadDirect(pager: Pager, id: u64) returns (o: Outcome)
    requires pager.Valid()
    ensures o == Blob(pager.pages, pager.live, id)
  {
    hide NextOf, LengthOf, EncodeMeta, Maps, ReadPage;
    var out: seq<byte> := [];
    var at := id;
    var seen: set<nat> := {};
    AfterNothing(Blob(pager.pages, pager.live, id));
    assert pager.live - seen == pager.live;
    while at != 0
      invariant Blob(pager.pages, pager.live, id) == After(out, Follow(pager.pages, pager.live, at, pager.live - seen))
      decreases pager.live - seen
    {
      var page := pager.Read(at);
      if page.Err? { return Finished(Err(page.error)); }
      PageLive(pager.pages, pager.live, at);
      var len := LengthOf(page.value);
      if len > MAX_DATA_PER_PAGE { return Finished(Err(StorageCorrupted("invalid blob page data length"))); }
      if at in seen { return Endless; }
      var chunk := page.value[10..10 + len];
      ghost var rest := Follow(pager.pages, pager.live, NextOf(page.value), pager.live - seen - {at});
      AfterAfter(out, chunk, rest);
      assert pager.live - seen - {at} == pager.live - (seen + {at});
      out := out + chunk;
      seen := seen + {at};
      at := NextOf(page.value);
    }
    assert out + [] == out;
    o := Finished(Ok(out));
  }

  lemma PageLive(pages: seq<Page>, live: set<nat>, p: nat)
    requires ReadPage(pages, live, p).Ok?
    ensures p in live
  {
  }

  function After(front: seq<byte>, o: Outcome): Outcome {
    if o.Finished? && o.r.Ok? then Finished(Ok(front + o.r.value)) else o
  }

  lemma AfterNothing(o: Outcome)
    ensures After([], o) == o
  {
    if o.Finished? && o.r.Ok? { assert [] + o.r.value == o.r.value; }
  }

  lemma AfterAfter(a: seq<byte>, b: seq<byte>, o: Outcome)
    ensures After(a, After(b, o)) == After(a + b, o)
  {
    if o.Finished? && o.r.Ok? { assert a + (b + o.r.value) == a + b + o.r.value; }
  }

  // ---- Deleting ---------------------------------------------------------------------------------------

  /** What is left allocated, and how deletion ends; a cycle ends at the first page freed before. */
  function DeleteFrom(pages: seq<Page>, live: set<nat>, id: u64): (set<nat>, Result<()>)
    decreases live
  {
    if id == 0 then (live, Ok(()))
    else
      var page := ReadPage(pages, live, id);
      if page.Err? then (live, Err(page.error)) else DeleteFrom(pages, live - {id}, NextOf(page.value))
  }

  method Delete(pager: Pager, id: u64) returns (r: Result<()>)
    requires pager.Valid()
    modifies pager, pager.bits
    ensures pager.Valid() && (pager.live, r) == DeleteFrom(old(pager.pages), old(pager.live), id)
    ensures |pager.pages| == |old(pager.pages)| && Kept(old(pager.pages), pager.pages, {})
  {
    hide NextOf, EncodeMeta, Maps, Kept;
    var at := id;
    ghost var before := pager.pages;
    KeptAll(before);
    while at != 0
      invariant pager.Valid() && |pager.pages| == |before| && Kept(before, pager.pages, {})
      invariant DeleteFrom(before, old(pager.live), id) == DeleteFrom(before, pager.live, at)
      decreases pager.live
    {
      KeptRead(before, pager.pages, pager.live, at);
      var page := pager.Read(at);
      if page.Err? { return Err(page.error); }
      ghost var mid := pager.pages;
      var _ := pager.Free(at);
      KeptTrans(before, mid, pager.pages);
      at := NextOf(page.value);
    }
    r := Ok(());
  }

  lemma KeptRead(before: seq<Page>, after: seq<Page>, live: set<nat>, id: nat)
    requires Kept(before, after, {}) && |after| == |before|
    ensures ReadPage(before, live, id) == ReadPage(after, live, id)
  {
  }

  /** Deleting a blob frees exactly its chain. */
  lemma {:induction false} ChainDeletes(pages: seq<Page>, live: set<nat>, id: u64, ids: seq<nat>, data: seq<byte>)
    requires Chain(pages, live, id, ids, data)
    ensures DeleteFrom(pages, live, id) == (live - Pages(ids), Ok(()))
    decreases |ids|
  {
    hide NextOf, LengthOf;
    if ids == [] {
      assert live - Pages(ids) == live;
    } else {
      var page := ReadPage(pages, live, id).value;
      var tail, rest := ids[1..], data[LengthOf(page)..];
      ChainLive(pages, live, NextOf(page), tail, rest);
      ChainKept(pages, live, pages, live - {id}, NextOf(page), tail, rest);
      ChainDeletes(pages, live - {id}, NextOf(page), tail, rest);
      assert ids == [id] + tail;
      PagesCons(id, tail);
      assert live - {id} - Pages(tail) == live - Pages(ids);
    }
  }

  /** Writing a blob and deleting it again restores the allocation set. */
  lemma DeleteRestores(before: set<nat>, pages: seq<Page>, live: set<nat>, id: u64, ids: seq<nat>, data: seq<byte>)
    requires Chain(pages, live, id, ids, data) && Grown(before, live, ids)
    ensures DeleteFrom(pages, live, id) == (before, Ok(()))
  {
    hide Chain, DeleteFrom;
    ChainDeletes(pages, live, id, ids, data);
    assert live - Pages(ids) == before;
  }
}
