/** Offline vacuum: roots from the log, reachable pages, and the copy that keeps exactly those. */
module Vacuum {
  import opened Bytes
  import opened Wrappers
  import opened WalRecords
  import opened WalLog
  import opened Recovery
  import opened Pagers
  import opened BlobStores
  import opened IdMapPages
  import opened CsrPages

  // ---- Roots ----------------------------------------------------------------------------------

  datatype WalRoots = WalRoots(epoch: u64, segments: seq<SegmentPointer>, propertiesRoot: u64, statsRoot: u64)

  function RootsOf(st: RecoveryState): WalRoots { WalRoots(st.epoch, st.segments, st.propertiesRoot, st.statsRoot) }

  function RootOp(roots: WalRoots, op: WalRecord): WalRoots {
    match op
    case ManifestSwitch(epoch, segments, propertiesRoot, statsRoot) =>
      if epoch >= roots.epoch then WalRoots(epoch, segments, propertiesRoot, statsRoot) else roots
    case Checkpoint(_, epoch, propertiesRoot, statsRoot) =>
      if epoch == roots.epoch then roots.(propertiesRoot := propertiesRoot, statsRoot := statsRoot) else roots
    case _ => roots
  }

  lemma RootOpAgrees(st: RecoveryState, op: WalRecord)
    ensures RootsOf(ScanOp(st, op)) == RootOp(RootsOf(st), op)
  {
  }

  /** `scan_wal_roots` finds what recovery finds, for every committed log. */
  method ScanWalRoots(txs: seq<CommittedTx>) returns (roots: WalRoots)
    ensures roots == RootsOf(ScanState(txs))
  {
    hide ScanOp, RootOp;
    roots := WalRoots(0, [], 0, 0);
    for i := 0 to |txs|
      invariant roots == RootsOf(ScanState(txs[..i]))
    {
      assert txs[..i + 1] == txs[..i] + [txs[i]];
      ScanSnoc(txs[..i], txs[i]);
      ghost var before := ScanState(txs[..i]);
      ghost var st := before.(maxTxid := Max(before.maxTxid, txs[i].txid));
      ghost var start := st;
      var ops := txs[i].ops;
      assert ops[0..] == ops;
      for k := 0 to |ops|
        invariant ScanOps(start, ops) == ScanOps(st, ops[k..]) && roots == RootsOf(st)
      {
        assert ops[k..][1..] == ops[k + 1..];
        RootOpAgrees(st, ops[k]);
        roots := RootOp(roots, ops[k]);
        st := ScanOp(st, ops[k]);
      }
    }
    assert txs[..|txs|] == txs;
  }

  // ---- Marking blob chains ----------------------------------------------------------------------

  /** `mark_blob_chain` as a function of the page graph: the result and the marked set. */
  function MarkChain(pages: seq<Page>, live: set<nat>, id: u64, marked: set<nat>): (Result<()>, set<nat>)
    decreases live - marked
  {
    if id == 0 then (Ok(()), marked)
    else if id in marked then (Err(StorageCorrupted("cycle detected in blob chain")), marked)
    else
      var page := ReadPage(pages, live, id);
      if page.Err? then (Err(page.error), marked + {id})
      else if LengthOf(page.value) > MAX_DATA_PER_PAGE then
        (Err(StorageCorrupted("invalid blob page data length")), marked + {id})
      else MarkChain(pages, live, NextOf(page.value), marked + {id})
  }

  /** Marking ends on every page graph, cyclic ones included. */
  method MarkBlobChain(pager: Pager, id: u64, marked: set<nat>) returns (r: Result<()>, after: set<nat>)
    requires pager.Valid()
    ensures (r, after) == MarkChain(pager.pages, pager.live, id, marked)
  {
    hide Maps, EncodeMeta, NextOf, LengthOf;
    var at := id;
    after := marked;
    while at != 0
      invariant MarkChain(pager.pages, pager.live, id, marked) == MarkChain(pager.pages, pager.live, at, after)
      decreases pager.live - after
    {
      if at in after { return Err(StorageCorrupted("cycle detected in blob chain")), after; }
      after := after + {at};
      var page := pager.Read(at);
      if page.Err? { return Err(page.error), after; }
      if LengthOf(page.value) > MAX_DATA_PER_PAGE {
        return Err(StorageCorrupted("invalid blob page data length")), after;
      }
      at := NextOf(page.value);
    }
    r := Ok(());
  }

  /** Marking succeeds on a well-formed chain off the marked pages, and marks exactly the chain. */
  lemma {:induction false} ChainMarks(pages: seq<Page>, live: set<nat>, id: u64, ids: seq<nat>, data: seq<byte>,
                                      marked: set<nat>)
    requires Chain(pages, live, id, ids, data) && Pages(ids) !! marked
    ensures MarkChain(pages, live, id, marked) == (Ok(()), marked + Pages(ids))
    decreases |ids|
  {
    hide NextOf, LengthOf, ReadPage;
    if ids == [] {
      assert marked + Pages(ids) == marked;
    } else {
      var page, tail := ReadPage(pages, live, id).value, ids[1..];
      assert ids == [id] + tail;
      PagesCons(id, tail);
      assert id in Pages(ids);
      assert id !in Pages(tail);
      ChainMarks(pages, live, NextOf(page), tail, data[LengthOf(page)..], marked + {id});
      assert marked + {id} + Pages(tail) == marked + Pages(ids);
    }
  }

  /** Marking succeeds only on a well-formed chain off the marked pages. */
  lemma {:induction false} MarkedIsChain(pages: seq<Page>, live: set<nat>, id: u64,
                                         marked: set<nat>) returns (ids: seq<nat>, data: seq<byte>)
    requires MarkChain(pages, live, id, marked).0.Ok?
    ensures Chain(pages, live, id, ids, data) && Pages(ids) !! marked
    ensures MarkChain(pages, live, id, marked).1 == marked + Pages(ids)
    decreases live - marked
  {
    hide NextOf, LengthOf;
    if id == 0 {
      ids, data := [], [];
      assert marked + Pages(ids) == marked;
    } else {
      var page := ReadPage(pages, live, id).value;
      var tail, rest := MarkedIsChain(pages, live, NextOf(page), marked + {id});
      var chunk := page[10..10 + LengthOf(page)];
      ids, data := [id] + tail, chunk + rest;
      assert ids[1..] == tail && data[..|chunk|] == chunk && data[|chunk|..] == rest;
      PagesCons(id, tail);
      NotListed(id, tail, marked + {id});
      assert marked + {id} + Pages(tail) == marked + Pages(ids);
    }
  }

  lemma NotListed(id: nat, ids: seq<nat>, marked: set<nat>)
    requires Pages(ids) !! marked && id in marked
    ensures id !in ids
  {
    assert forall i :: 0 <= i < |ids| ==> ids[i] in Pages(ids);
  }

  // ---- Marking everything ------------------------------------------------------------------------

  /** "NDBCSRv1": the segment format the marker knows. */
  const MARKED_MAGIC: seq<byte> := [78, 68, 66, 67, 83, 82, 118, 49]

  /** `mark_csr_segment_pages`: the non-zero page ids a version 1 meta page lists. */
  function SegmentPages(pages: seq<Page>, live: set<nat>, metaPageId: u64): Result<set<nat>> {
    var page :- ReadPage(pages, live, metaPageId);
    if page[0..8] != MARKED_MAGIC then Err(WalProtocol("invalid csr meta magic"))
    else
      var n := U32Of(page[40..44]) + U32Of(page[44..48]);
      if 48 + 8 * n > PAGE_SIZE then Err(WalProtocol("csr meta page overflow"))
      else Ok(set i | 0 <= i < n && ListedId(page, i) != 0 :: ListedId(page, i))
  }

  function ListedId(page: Page, i: nat): nat
    requires 48 + 8 * i + 8 <= PAGE_SIZE
  {
    U64Of(page[48 + 8 * i..48 + 8 * i + 8])
  }

  method MarkSegment(pager: Pager, metaPageId: u64, marked: set<nat>) returns (r: Result<()>, after: set<nat>)
    requires pager.Valid()
    ensures var listed := SegmentPages(pager.pages, pager.live, metaPageId);
            if listed.Ok? then r.Ok? && after == marked + listed.value else r == Err(listed.error) && after == marked
  {
    hide Maps, EncodeMeta, ReadPage, U32Of, U64Of;
    after := marked;
    var page := pager.Read(metaPageId);
    if page.Err? { return Err(page.error), after; }
    if page.value[0..8] != MARKED_MAGIC { return Err(WalProtocol("invalid csr meta magic")), after; }
    var n := U32Of(page.value[40..44]) + U32Of(page.value[44..48]);
    if 48 + 8 * n > PAGE_SIZE { return Err(WalProtocol("csr meta page overflow")), after; }
    for k := 0 to n
      invariant after == marked + set i | 0 <= i < k && ListedId(page.value, i) != 0 :: ListedId(page.value, i)
    {
      if ListedId(page.value, k) != 0 { after := after + {ListedId(page.value, k)}; }
    }
    r := Ok(());
  }

  /** Vacuum refuses every segment that the engine itself can load. */
  lemma LoadableSegmentsStopVacuum(pages: seq<Page>, live: set<nat>, metaPageId: u64)
    requires LoadSegment(pages, live, metaPageId).Ok?
    ensures SegmentPages(pages, live, metaPageId) == Err(WalProtocol("invalid csr meta magic"))
  {
    hide ReadAll, DecodeOffsets, DecodeEdges, IdsAt;
    var page := ReadPage(pages, live, metaPageId).value;
    assert DecodeSegmentMeta(page).Ok?;
    assert META_MAGIC[7] != MARKED_MAGIC[7];
  }

  /** The pages the id map's records lie on, and no others. */
  method MarkI2e(start: nat, len: nat, marked: set<nat>) returns (after: set<nat>)
    ensures after == marked + IdPages(start, 0, len)
  {
    after := marked;
    var count := (len + I2E_RECORDS_PER_PAGE - 1) / I2E_RECORDS_PER_PAGE;
    for k := 0 to count
      invariant forall p :: p in after <==> p in marked || start <= p < start + k
    {
      after := after + {start + k};
    }
    forall p ensures p in IdPages(start, 0, len) <==> start <= p < start + count { InIdPages(start, len, count, p); }
  }

  lemma InIdPages(start: nat, len: nat, count: nat, p: int)
    requires count == (len + I2E_RECORDS_PER_PAGE - 1) / I2E_RECORDS_PER_PAGE
    ensures p in IdPages(start, 0, len) <==> start <= p < start + count
  {
    if start <= p < start + count {
      var i := (p - start) * I2E_RECORDS_PER_PAGE;
      assert 0 <= i < len && PageOf(start, i) == p;
    }
  }

  /** A well-formed chain that shares no page with what is marked. */
  ghost predicate Markable(pages: seq<Page>, live: set<nat>, id: u64, marked: set<nat>) {
    exists ids, data :: Chain(pages, live, id, ids, data) && Pages(ids) !! marked
  }

  /** Marking a chain succeeds exactly on those. */
  lemma MarkIff(pages: seq<Page>, live: set<nat>, id: u64, marked: set<nat>)
    ensures MarkChain(pages, live, id, marked).0.Ok? <==> Markable(pages, live, id, marked)
  {
    hide MarkChain, Chain;
    if MarkChain(pages, live, id, marked).0.Ok? {
      var ids, data := MarkedIsChain(pages, live, id, marked);
    }
    if Markable(pages, live, id, marked) {
      var ids, data :| Chain(pages, live, id, ids, data) && Pages(ids) !! marked;
      ChainMarks(pages, live, id, ids, data, marked);
    }
  }

  /** Each chain can be marked after those before it. */
  ghost predicate AllMarkable(pages: seq<Page>, live: set<nat>, blobs: seq<u64>, marked: set<nat>)
    decreases |blobs|
  {
    blobs == [] || (Markable(pages, live, blobs[0], marked) && AllMarkable(pages, live, blobs[1..], MarkChain(pages, live, blobs[0], marked).1))
  }

  ghost function ChainPages(pages: seq<Page>, live: set<nat>, id: u64): set<nat> { MarkChain(pages, live, id, {}).1 }

  /** The pages of the chains at `blobs`. */
  ghost function BlobPages(pages: seq<Page>, live: set<nat>, blobs: seq<u64>): set<nat> {
    if blobs == [] then {} else ChainPages(pages, live, blobs[0]) + BlobPages(pages, live, blobs[1..])
  }

  /** Marking a chain adds exactly its pages, whatever is marked before. */
  lemma MarksChain(pages: seq<Page>, live: set<nat>, id: u64, marked: set<nat>)
    requires MarkChain(pages, live, id, marked).0.Ok?
    ensures MarkChain(pages, live, id, marked).1 == marked + ChainPages(pages, live, id)
  {
    hide MarkChain, Chain;
    var ids, data := MarkedIsChain(pages, live, id, marked);
    ChainMarks(pages, live, id, ids, data, {});
    assert {} + Pages(ids) == Pages(ids);
  }

  /** The chains are well formed, off the marked pages and pairwise disjoint. */
  ghost predicate Apart(pages: seq<Page>, live: set<nat>, blobs: seq<u64>, marked: set<nat>) {
    && (forall i :: 0 <= i < |blobs| ==> Markable(pages, live, blobs[i], marked))
    && (forall i, j :: 0 <= i < j < |blobs| ==> ChainPages(pages, live, blobs[i]) !! ChainPages(pages, live, blobs[j]))
  }

  lemma MarkableMore(pages: seq<Page>, live: set<nat>, id: u64, marked: set<nat>, more: set<nat>)
    ensures Markable(pages, live, id, marked + more) <==> Markable(pages, live, id, marked) && ChainPages(pages, live, id) !! more
  {
    hide MarkChain, Chain;
    forall ids, data | Chain(pages, live, id, ids, data) ensures ChainPages(pages, live, id) == Pages(ids) {
      ChainMarks(pages, live, id, ids, data, {});
      assert {} + Pages(ids) == Pages(ids);
    }
  }

  /** In whatever order they are marked, marking succeeds exactly on such chains. */
  lemma {:induction false} ApartIff(pages: seq<Page>, live: set<nat>, blobs: seq<u64>, marked: set<nat>)
    ensures AllMarkable(pages, live, blobs, marked) <==> Apart(pages, live, blobs, marked)
    decreases |blobs|
  {
    hide Markable, MarkChain, ChainPages;
    if blobs != [] {
      var mine, rest := ChainPages(pages, live, blobs[0]), blobs[1..];
      MarkIff(pages, live, blobs[0], marked);
      if Markable(pages, live, blobs[0], marked) {
        MarksChain(pages, live, blobs[0], marked);
        ApartIff(pages, live, rest, marked + mine);
        ApartCons(pages, live, blobs, marked);
      }
    }
  }

  lemma ApartCons(pages: seq<Page>, live: set<nat>, blobs: seq<u64>, marked: set<nat>)
    requires blobs != [] && Markable(pages, live, blobs[0], marked)
    ensures Apart(pages, live, blobs, marked) <==> Apart(pages, live, blobs[1..], marked + ChainPages(pages, live, blobs[0]))
  {
    hide Markable, MarkChain, ChainPages;
    var mine, rest := ChainPages(pages, live, blobs[0]), blobs[1..];
    forall i | 0 <= i < |rest|
      ensures Markable(pages, live, rest[i], marked + mine)
              <==> (Markable(pages, live, blobs[i + 1], marked) && mine !! ChainPages(pages, live, blobs[i + 1]))
    {
      MarkableMore(pages, live, rest[i], marked, mine);
    }
    if Apart(pages, live, rest, marked + mine) {
      forall i | 0 <= i < |blobs| ensures Markable(pages, live, blobs[i], marked) { assert i > 0 ==> blobs[i] == rest[i - 1]; }
      forall i, j | 0 <= i < j < |blobs| ensures ChainPages(pages, live, blobs[i]) !! ChainPages(pages, live, blobs[j]) {
        assert blobs[j] == rest[j - 1] && (i > 0 ==> blobs[i] == rest[i - 1]);
        assert Markable(pages, live, rest[j - 1], marked + mine);
      }
    }
  }

  /** Several blob chains, in order: it succeeds exactly when they are well formed and share no page. */
  method MarkBlobs(pager: Pager, blobs: seq<u64>, marked: set<nat>) returns (r: Result<()>, after: set<nat>)
    requires pager.Valid()
    ensures marked <= after && (r.Ok? <==> Apart(pager.pages, pager.live, blobs, marked))
    ensures r.Ok? ==> after == marked + BlobPages(pager.pages, pager.live, blobs)
    ensures r.Ok? ==> forall i :: 0 <= i < |blobs| ==> Safe(pager.pages, pager.live, blobs[i], after)
  {
    hide Maps, EncodeMeta, MarkChain, Safe, Markable, ChainPages, Apart;
    ApartIff(pager.pages, pager.live, blobs, marked);
    after := marked;
    assert blobs[0..] == blobs;
    for i := 0 to |blobs|
      invariant marked <= after
      invariant AllMarkable(pager.pages, pager.live, blobs, marked) <==> AllMarkable(pager.pages, pager.live, blobs[i..], after)
      invariant after + BlobPages(pager.pages, pager.live, blobs[i..]) == marked + BlobPages(pager.pages, pager.live, blobs)
      invariant forall j :: 0 <= j < i ==> Safe(pager.pages, pager.live, blobs[j], after)
    {
      ghost var before := after;
      assert blobs[i..][1..] == blobs[i + 1..];
      MarkGrows(pager.pages, pager.live, blobs[i], after);
      MarkIff(pager.pages, pager.live, blobs[i], after);
      r, after := MarkBlobChain(pager, blobs[i], after);
      if r.Err? { return; }
      MarkedSafe(pager.pages, pager.live, blobs[i], before);
      MarksChain(pager.pages, pager.live, blobs[i], before);
      forall j | 0 <= j < i ensures Safe(pager.pages, pager.live, blobs[j], after) {
        SafeGrows(pager.pages, pager.live, blobs[j], before, after);
      }
    }
    r := Ok(());
  }

  /** A finished chain whose pages are all marked. */
  ghost predicate Safe(pages: seq<Page>, live: set<nat>, id: u64, marked: set<nat>) {
    exists ids, data :: Chain(pages, live, id, ids, data) && Pages(ids) <= marked
  }

  lemma SafeGrows(pages: seq<Page>, live: set<nat>, id: u64, before: set<nat>, after: set<nat>)
    requires Safe(pages, live, id, before) && before <= after
    ensures Safe(pages, live, id, after)
  {
    hide Chain;
    var ids, data :| Chain(pages, live, id, ids, data) && Pages(ids) <= before;
    assert Chain(pages, live, id, ids, data) && Pages(ids) <= after;
  }

  lemma MarkedSafe(pages: seq<Page>, live: set<nat>, id: u64, marked: set<nat>)
    requires MarkChain(pages, live, id, marked).0.Ok?
    ensures Safe(pages, live, id, MarkChain(pages, live, id, marked).1)
  {
    hide Chain;
    var ids, data := MarkedIsChain(pages, live, id, marked);
    assert Pages(ids) <= marked + Pages(ids);
  }

  lemma {:induction false} MarkGrows(pages: seq<Page>, live: set<nat>, id: u64, marked: set<nat>)
    ensures marked <= MarkChain(pages, live, id, marked).1
    decreases live - marked
  {
    hide NextOf, LengthOf;
    if id != 0 && id !in marked && ReadPage(pages, live, id).Ok? {
      MarkGrows(pages, live, NextOf(ReadPage(pages, live, id).value), marked + {id});
    }
  }

  /** What is marked before the blobs: meta and bitmap page, the id map's pages and the trees'. */
  ghost function FixedPages(meta: Meta, treePages: set<nat>): set<nat> {
    {0, 1} + treePages + (if meta.i2eStartPageId == 0 then {} else IdPages(meta.i2eStartPageId, 0, meta.i2eLen))
  }

  function BlobRoots(roots: WalRoots, payloads: seq<u64>): seq<u64> { payloads + if roots.statsRoot != 0 then [roots.statsRoot] else [] }

  /** Every segment of the manifest that has a page is in the format the marker knows. */
  ghost predicate OldSegments(pages: seq<Page>, live: set<nat>, segments: seq<SegmentPointer>) {
    forall i :: 0 <= i < |segments| && segments[i].metaPageId != 0 ==> SegmentPages(pages, live, segments[i].metaPageId).Ok?
  }

  /** The meta pages of the manifest's segments and the pages they list. */
  ghost function ListedPages(pages: seq<Page>, live: set<nat>, segments: seq<SegmentPointer>): set<nat> {
    set i, p | 0 <= i < |segments| && segments[i].metaPageId != 0 && p in MetaAndListed(pages, live, segments[i].metaPageId) :: p
  }

  ghost function MetaAndListed(pages: seq<Page>, live: set<nat>, id: u64): set<nat> {
    {id} + if SegmentPages(pages, live, id).Ok? then SegmentPages(pages, live, id).value else {}
  }

  /** Everything a vacuum keeps. */
  ghost function Reachable(pages: seq<Page>, live: set<nat>, meta: Meta, roots: WalRoots, treePages: set<nat>, payloads: seq<u64>): set<nat> {
    FixedPages(meta, treePages) + BlobPages(pages, live, BlobRoots(roots, payloads)) + ListedPages(pages, live, roots.segments)
  }

  /**
   * `mark_reachable_pages`. The pages of the index and property trees, and the blob ids they hold,
   * are given: the tree itself is not part of this model. It succeeds exactly when the blobs are well formed and
   * share no page with each other or with what is marked before, and every manifest segment is in the old format.
   */
  method MarkReachable(pager: Pager, roots: WalRoots, treePages: set<nat>, payloads: seq<u64>)
    returns (r: Result<()>, marked: set<nat>)
    requires pager.Valid()
    ensures r.Ok? <==> Apart(pager.pages, pager.live, BlobRoots(roots, payloads), FixedPages(pager.meta, treePages))
                       && OldSegments(pager.pages, pager.live, roots.segments)
    ensures r.Ok? ==> marked == Reachable(pager.pages, pager.live, pager.meta, roots, treePages, payloads)
    ensures r.Ok? ==> forall i :: 0 <= i < |BlobRoots(roots, payloads)| ==> Safe(pager.pages, pager.live, BlobRoots(roots, payloads)[i], marked)
    ensures r.Ok? ==> forall i :: 0 <= i < |roots.segments| && roots.segments[i].metaPageId != 0 ==>
              LoadSegment(pager.pages, pager.live, roots.segments[i].metaPageId).Err?
  {
    hide Maps, EncodeMeta, Safe, LoadSegment, ReadPage, Apart, SegmentPages, BlobPages, ListedPages, FixedPages;
    marked := {0, 1};
    if pager.meta.i2eStartPageId != 0 && pager.meta.i2eLen > 0 {
      marked := MarkI2e(pager.meta.i2eStartPageId, pager.meta.i2eLen, marked);
    }
    marked := marked + treePages;
    FixedMarked(pager.meta, treePages, marked);
    var blobs := BlobRoots(roots, payloads);
    r, marked := MarkBlobs(pager, blobs, marked);
    if r.Err? { return; }
    ghost var base := marked;
    NothingListed(pager.pages, pager.live);
    assert roots.segments[..0] == [];
    for i := 0 to |roots.segments|
      invariant marked == base + ListedPages(pager.pages, pager.live, roots.segments[..i])
      invariant forall j :: 0 <= j < i && roots.segments[j].metaPageId != 0 ==>
                  SegmentPages(pager.pages, pager.live, roots.segments[j].metaPageId).Ok?
    {
      var id := roots.segments[i].metaPageId;
      ListedSnoc(pager.pages, pager.live, roots.segments, i);
      if id == 0 { continue; }
      r, marked := MarkSegment(pager, id, marked + {id});
      if r.Err? { return; }
    }
    assert roots.segments[..|roots.segments|] == roots.segments;
    OldIsNotLoadable(pager.pages, pager.live, roots.segments);
    SafeAll(pager.pages, pager.live, blobs, base, marked);
    r := Ok(());
  }

  lemma NothingListed(pages: seq<Page>, live: set<nat>)
    ensures ListedPages(pages, live, []) == {}
  {
  }

  lemma ListedSnoc(pages: seq<Page>, live: set<nat>, segments: seq<SegmentPointer>, i: nat)
    requires i < |segments|
    ensures ListedPages(pages, live, segments[..i + 1]) == ListedPages(pages, live, segments[..i])
              + if segments[i].metaPageId == 0 then {} else MetaAndListed(pages, live, segments[i].metaPageId)
  {
    hide MetaAndListed;
    var a, b := segments[..i], segments[..i + 1];
    assert b == a + [segments[i]];
    forall p
      ensures p in ListedPages(pages, live, b) <==>
                (p in ListedPages(pages, live, a) || (segments[i].metaPageId != 0 && p in MetaAndListed(pages, live, segments[i].metaPageId)))
    {
      if p in ListedPages(pages, live, a) {
        var j :| 0 <= j < i && a[j].metaPageId != 0 && p in MetaAndListed(pages, live, a[j].metaPageId);
        assert b[j] == a[j];
      }
      if p in ListedPages(pages, live, b) {
        var j :| 0 <= j < i + 1 && b[j].metaPageId != 0 && p in MetaAndListed(pages, live, b[j].metaPageId);
        assert j < i ==> a[j] == b[j];
      }
      assert b[i] == segments[i];
    }
  }

  lemma FixedMarked(meta: Meta, treePages: set<nat>, marked: set<nat>)
    requires marked == {0, 1} + (if meta.i2eStartPageId != 0 && meta.i2eLen > 0 then IdPages(meta.i2eStartPageId, 0, meta.i2eLen) else {}) + treePages
    ensures marked == FixedPages(meta, treePages)
  {
    if meta.i2eLen == 0 { assert IdPages(meta.i2eStartPageId, 0, 0) == {}; }
  }

  lemma OldIsNotLoadable(pages: seq<Page>, live: set<nat>, segments: seq<SegmentPointer>)
    requires OldSegments(pages, live, segments)
    ensures forall i :: 0 <= i < |segments| && segments[i].metaPageId != 0 ==> LoadSegment(pages, live, segments[i].metaPageId).Err?
  {
    hide LoadSegment, SegmentPages;
    forall i | 0 <= i < |segments| && segments[i].metaPageId != 0 ensures LoadSegment(pages, live, segments[i].metaPageId).Err? {
      if LoadSegment(pages, live, segments[i].metaPageId).Ok? { LoadableSegmentsStopVacuum(pages, live, segments[i].metaPageId); }
    }
  }

  lemma SafeAll(pages: seq<Page>, live: set<nat>, blobs: seq<u64>, before: set<nat>, after: set<nat>)
    requires before <= after && forall i :: 0 <= i < |blobs| ==> Safe(pages, live, blobs[i], before)
    ensures forall i :: 0 <= i < |blobs| ==> Safe(pages, live, blobs[i], after)
  {
    hide Safe;
    forall i | 0 <= i < |blobs| ensures Safe(pages, live, blobs[i], after) {
      SafeGrows(pages, live, blobs[i], before, after);
    }
  }

  // ---- The copy --------------------------------------------------------------------------------

  /** A page the copy can take: in range, and allocated if it is a data page. */
  predicate Copyable(live: set<nat>, p: nat) { p < BITMAP_BITS && (p >= FIRST_DATA_PAGE_ID ==> p in live) }

  /** Marked data pages are byte-identical. */
  ghost predicate SamePages(before: seq<Page>, after: seq<Page>, marked: set<nat>) {
    forall p :: p in marked && p >= FIRST_DATA_PAGE_ID ==> p < |before| && p < |after| && after[p] == before[p]
  }

  /** The highest marked page, or the first one out of range. */
  method HighestPage(marked: set<nat>) returns (r: Result<nat>)
    ensures r.Ok? <==> forall p :: p in marked ==> p < BITMAP_BITS
    ensures r.Ok? ==> 1 <= r.value < BITMAP_BITS && forall p :: p in marked ==> p <= r.value
  {
    var top, todo := 1, marked;
    while todo != {}
      invariant todo <= marked && 1 <= top < BITMAP_BITS
      invariant forall p :: p in marked && p !in todo ==> p <= top
      decreases todo
    {
      var p :| p in todo;
      if p >= BITMAP_BITS { return Err(PageIdOutOfRange(p)); }
      top := Max(top, p);
      todo := todo - {p};
    }
    r := Ok(top);
  }

  /** The bitmap of the copy. */
  method BitmapOf(marked: set<nat>) returns (data: seq<byte>)
    requires forall p :: p in marked ==> p < BITMAP_BITS
    ensures Maps(data, {0, 1} + marked)
  {
    hide Maps, SetBit, Bit;
    data := Zeros(PAGE_SIZE);
    ghost var done: set<nat> := {};
    NothingMapped();
    var todo := {0, 1} + marked;
    while todo != {}
      invariant todo <= {0, 1} + marked && done == {0, 1} + marked - todo && Maps(data, done) && |data| == PAGE_SIZE
      decreases todo
    {
      var p :| p in todo;
      MapsSet(data, done, p, true);
      data := SetBit(data, p, true);
      done := done + {p};
      todo := todo - {p};
    }
    assert done == {0, 1} + marked;
  }

  lemma NothingMapped()
    ensures Maps(Zeros(PAGE_SIZE), {})
  {
    forall p | 0 <= p < BITMAP_BITS ensures !Bit(Zeros(PAGE_SIZE), p) { ZeroBits(p % 8); }
  }

  /**
   * `write_vacuum_copy`: the pages of the new file. It succeeds exactly when every marked page is in
   * range and every marked data page allocated; then exactly the marked pages are allocated, and each
   * holds the same bytes.
   */
  method WriteVacuumCopy(pager: Pager, marked: set<nat>) returns (r: Result<seq<Page>>)
    requires pager.Valid()
    ensures r.Ok? <==> forall p :: p in marked ==> Copyable(pager.live, p)
    ensures r.Ok? ==> 2 <= |r.value| <= BITMAP_BITS && r.value[0] == EncodeMeta(pager.meta.(nextPageId := |r.value|))
    ensures r.Ok? ==> Maps(r.value[1], {0, 1} + marked) && (forall p :: p in marked ==> p < |r.value|)
    ensures r.Ok? ==> SamePages(pager.pages, r.value, marked)
  {
    hide EncodeMeta, Maps;
    var top := HighestPage(marked);
    if top.Err? { return Err(top.error); }
    var next := top.value + 1;
    var data := BitmapOf(marked);
    var head := [EncodeMeta(pager.meta.(nextPageId := next)), data];
    MapsLength(data, {0, 1} + marked);
    var file: seq<Page> := head + seq(next - 2, _ => Zeros(PAGE_SIZE));
    var todo := marked;
    while todo != {}
      invariant todo <= marked && |file| == next && file[0] == head[0] && file[1] == head[1]
      invariant forall p :: p in marked && p !in todo ==> Copyable(pager.live, p)
      invariant SamePages(pager.pages, file, marked - todo)
      decreases todo
    {
      var p :| p in todo;
      if p >= FIRST_DATA_PAGE_ID {
        var page := pager.Read(p);
        if page.Err? { return Err(page.error); }
        file := file[p := page.value];
      }
      todo := todo - {p};
    }
    assert marked - todo == marked;
    r := Ok(file);
  }

  lemma MapsLength(data: seq<byte>, live: set<nat>)
    requires Maps(data, live)
    ensures |data| == PAGE_SIZE
  {
  }

  // ---- What survives ----------------------------------------------------------------------------

  /** A blob whose chain is marked reads the same from the copy. */
  lemma SafeBlobSurvives(pages: seq<Page>, live: set<nat>, after: seq<Page>, live': set<nat>, marked: set<nat>, id: u64)
    requires Safe(pages, live, id, marked) && SamePages(pages, after, marked) && marked <= live'
    ensures Blob(pages, live, id).Finished? && Blob(after, live', id) == Blob(pages, live, id)
  {
    hide Chain, Follow;
    var ids, data :| Chain(pages, live, id, ids, data) && Pages(ids) <= marked;
    ChainLive(pages, live, id, ids, data);
    assert forall i :: 0 <= i < |ids| ==> ids[i] in Pages(ids);
    ChainReads(pages, live, id, ids, data, live);
    ChainKept(pages, live, after, live', id, ids, data);
    ChainReads(after, live', id, ids, data, live');
  }

  /** Id-map records on marked pages read the same from the copy. */
  lemma {:induction false} MarkedRecordsSurvive(pages: seq<Page>, live: set<nat>, after: seq<Page>, live': set<nat>,
                                                marked: set<nat>, start: nat, n: nat)
    requires SamePages(pages, after, marked) && marked <= live && marked <= live'
    requires forall i :: 0 <= i < n ==> PageOf(start, i) in marked
    ensures ReadRecords(after, live', start, n) == ReadRecords(pages, live, start, n)
  {
    hide RecordIn, PageOf;
    if n != 0 { MarkedRecordsSurvive(pages, live, after, live', marked, start, n - 1); }
  }

  /**
   * `vacuum_in_place` from the opened pager and the committed log to the opened copy: every blob
   * held by a tree or named by the log reads the same, every id-map record is the same, tree pages are
   * the same bytes, and nothing else is allocated. It succeeds exactly when marking does and all those pages can be copied,
   * so never while a manifest segment loads.
   */
  method VacuumInPlace(pager: Pager, txs: seq<CommittedTx>, treePages: set<nat>, payloads: seq<u64>)
    returns (r: Result<Pager>, ghost kept: set<nat>)
    requires pager.Valid() && (pager.meta.nextInternalId != 0 || pager.meta.i2eLen == 0)
    ensures kept == Reachable(pager.pages, pager.live, pager.meta, RootsOf(ScanState(txs)), treePages, payloads)
    ensures r.Ok? <==> Apart(pager.pages, pager.live, BlobRoots(RootsOf(ScanState(txs)), payloads), FixedPages(pager.meta, treePages))
                       && OldSegments(pager.pages, pager.live, ScanState(txs).segments) && forall p :: p in kept ==> Copyable(pager.live, p)
    ensures r.Ok? ==> fresh(r.value) && r.value.Valid() && r.value.live == kept
    ensures r.Ok? ==> treePages <= kept && SamePages(pager.pages, r.value.pages, kept)
    ensures r.Ok? ==> r.value.meta == pager.meta.(nextPageId := r.value.meta.nextPageId)
    ensures r.Ok? ==> forall i :: 0 <= i < |payloads| ==>
              Blob(r.value.pages, r.value.live, payloads[i]) == Blob(pager.pages, pager.live, payloads[i])
    ensures r.Ok? && ScanState(txs).statsRoot != 0 ==>
              Blob(r.value.pages, r.value.live, ScanState(txs).statsRoot) == Blob(pager.pages, pager.live, ScanState(txs).statsRoot)
    ensures r.Ok? && pager.meta.i2eStartPageId != 0 ==>
              ReadRecords(r.value.pages, r.value.live, pager.meta.i2eStartPageId, pager.meta.i2eLen)
              == ReadRecords(pager.pages, pager.live, pager.meta.i2eStartPageId, pager.meta.i2eLen)
    ensures r.Ok? ==> forall i :: 0 <= i < |ScanState(txs).segments| && ScanState(txs).segments[i].metaPageId != 0 ==>
              LoadSegment(pager.pages, pager.live, ScanState(txs).segments[i].metaPageId).Err?
  {
    hide EncodeMeta, DecodeMeta, Maps, SamePages, Safe, LoadSegment, ReadRecords, Blob, ScanState, Apart, OldSegments, BlobPages, ListedPages, FixedPages;
    var roots := ScanWalRoots(txs);
    kept := Reachable(pager.pages, pager.live, pager.meta, RootsOf(ScanState(txs)), treePages, payloads);
    KeptFixed(pager.meta, treePages);
    var ok, marked;
    ok, marked := MarkReachable(pager, roots, treePages, payloads);
    if ok.Err? { return Err(ok.error), kept; }
    var copy := WriteVacuumCopy(pager, marked);
    if copy.Err? { return Err(copy.error), kept; }
    var reopened := OpenCopy(pager, copy.value, marked);
    r := Ok(reopened);
    var blobs := BlobRoots(roots, payloads);
    assert forall i :: 0 <= i < |payloads| ==> blobs[i] == payloads[i];
    assert roots.statsRoot != 0 ==> blobs[|payloads|] == roots.statsRoot;
    Survivors(pager.pages, pager.live, reopened.pages, reopened.live, marked, payloads);
    if roots.statsRoot != 0 {
      SafeBlobSurvives(pager.pages, pager.live, reopened.pages, reopened.live, marked, roots.statsRoot);
    }
    if pager.meta.i2eStartPageId != 0 {
      MarkedRecordsSurvive(pager.pages, pager.live, reopened.pages, reopened.live, marked, pager.meta.i2eStartPageId, pager.meta.i2eLen);
    }
  }

  lemma KeptFixed(meta: Meta, treePages: set<nat>)
    ensures {0, 1} + treePages <= FixedPages(meta, treePages)
    ensures meta.i2eStartPageId != 0 ==> forall i :: 0 <= i < meta.i2eLen ==> PageOf(meta.i2eStartPageId, i) in FixedPages(meta, treePages)
  {
    if meta.i2eStartPageId != 0 {
      forall i | 0 <= i < meta.i2eLen ensures PageOf(meta.i2eStartPageId, i) in IdPages(meta.i2eStartPageId, 0, meta.i2eLen) {}
    }
  }

  /** `open` on the copy. */
  method OpenCopy(pager: Pager, file: seq<Page>, marked: set<nat>) returns (q: Pager)
    requires pager.Valid() && (pager.meta.nextInternalId != 0 || pager.meta.i2eLen == 0)
    requires 2 <= |file| <= BITMAP_BITS && file[0] == EncodeMeta(pager.meta.(nextPageId := |file|))
    requires {0, 1} <= marked && Maps(file[1], {0, 1} + marked) && forall p :: p in marked ==> p < |file|
    ensures fresh(q) && q.Valid() && q.live == marked && q.pages == file && q.meta == pager.meta.(nextPageId := |file|)
  {
    hide EncodeMeta, DecodeMeta, Bit;
    MetaRoundTrip(pager.meta.(nextPageId := |file|));
    var reopened := OpenFile(file);
    q := reopened.value;
    assert {0, 1} + marked == marked;
    assert q.live == marked;
  }

  lemma Survivors(pages: seq<Page>, live: set<nat>, after: seq<Page>, live': set<nat>, marked: set<nat>, blobs: seq<u64>)
    requires SamePages(pages, after, marked) && marked <= live'
    requires forall i :: 0 <= i < |blobs| ==> Safe(pages, live, blobs[i], marked)
    ensures forall i :: 0 <= i < |blobs| ==> Blob(after, live', blobs[i]) == Blob(pages, live, blobs[i])
  {
    hide Safe, SamePages, Blob;
    forall i | 0 <= i < |blobs| ensures Blob(after, live', blobs[i]) == Blob(pages, live, blobs[i]) {
      SafeBlobSurvives(pages, live, after, live', marked, blobs[i]);
    }
  }
}
