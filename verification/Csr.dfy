/** Compressed sparse row segments: lookup, construction from edges, and the reverse index. */
module Csr {
  import opened Bytes
  import opened Wrappers
  import opened Sorting
  import opened Graph

  /** A relationship type and the far endpoint of an edge. */
  datatype EdgeRecord = EdgeRecord(rel: u32, dst: NodeId)

  datatype Segment = Segment(
    id: u64,
    metaPageId: u64,
    minSrc: NodeId,
    maxSrc: NodeId,
    minDst: NodeId,
    maxDst: NodeId,
    offsets: seq<nat>,
    edges: seq<EdgeRecord>,
    inOffsets: seq<nat>,
    inEdges: seq<EdgeRecord>)
  {
    function In(dir: Direction): Index {
      if dir.Outgoing? then Index(minSrc, maxSrc, offsets, edges) else Index(minDst, maxDst, inOffsets, inEdges)
    }
  }

  /** One of a segment's two indexes. */
  datatype Index = Index(base: NodeId, last: NodeId, offsets: seq<nat>, records: seq<EdgeRecord>)

  function RecordOf(dir: Direction, e: EdgeKey): EdgeRecord { EdgeRecord(e.rel, dir.Far(e)) }

  function KeyOf(dir: Direction, n: NodeId, r: EdgeRecord): EdgeKey {
    if dir.Outgoing? then EdgeKey(n, r.rel, r.dst) else EdgeKey(r.dst, r.rel, n)
  }

  predicate RelMatches(rel: Option<u32>, r: u32) { rel.Some? ==> rel.value == r }

  /** The keys of the records that match the relationship filter, in order. */
  function Select(rs: seq<EdgeRecord>, dir: Direction, n: NodeId, rel: Option<u32>): seq<EdgeKey> {
    if rs == [] then []
    else (if RelMatches(rel, rs[0].rel) then [KeyOf(dir, n, rs[0])] else []) + Select(rs[1..], dir, n, rel)
  }

  /** `neighbors` and `incoming_neighbors`; `None` where the source indexes out of bounds and panics. */
  function Lookup(ix: Index, dir: Direction, n: NodeId, rel: Option<u32>): Option<seq<EdgeKey>> {
    if n < ix.base || n > ix.last then Some([])
    else
      var i := n - ix.base;
      if i + 1 >= |ix.offsets| then None
      else if !(ix.offsets[i] <= ix.offsets[i + 1] <= |ix.records|) then None
      else Some(Select(ix.records[ix.offsets[i]..ix.offsets[i + 1]], dir, n, rel))
  }

  // ---- What an index stands for -------------------------------------------------------

  /** The first `at` edges are those below `bound`, the rest those from it up. */
  ghost predicate SplitAt(order: seq<EdgeKey>, dir: Direction, at: int, bound: int) {
    && 0 <= at <= |order|
    && (forall k :: 0 <= k < at ==> dir.Pivot(order[k]) < bound)
    && (forall k :: at <= k < |order| ==> dir.Pivot(order[k]) >= bound)
  }

  /** The index lists the edges of `order` grouped by endpoint, one offset per node from `base` to past `last`. */
  ghost predicate Represents(ix: Index, dir: Direction, order: seq<EdgeKey>) {
    && ix.base <= ix.last
    && |ix.offsets| == ix.last - ix.base + 2
    && |ix.records| == |order|
    && (forall k :: 0 <= k < |order| ==> ix.records[k] == RecordOf(dir, order[k]))
    && (forall k :: 0 <= k < |order| ==> ix.base <= dir.Pivot(order[k]) <= ix.last)
    && (forall j :: 0 <= j < |ix.offsets| ==> SplitAt(order, dir, ix.offsets[j], ix.base + j))
  }

  /** `ix` answers lookups with exactly the edges of the multiset. */
  ghost predicate Serves(ix: Index, dir: Direction, edges: multiset<EdgeKey>) {
    forall n: NodeId, rel: Option<u32> :: Answers(Lookup(ix, dir, n, rel), dir, n, rel, edges)
  }

  ghost predicate Answers(got: Option<seq<EdgeKey>>, dir: Direction, n: NodeId, rel: Option<u32>, edges: multiset<EdgeKey>) {
    && got.Some?
    && forall e: EdgeKey :: multiset(got.value)[e]
         == if dir.Pivot(e) == n && RelMatches(rel, e.rel) then edges[e] else 0
  }

  lemma {:induction false} SelectCounts(order: seq<EdgeKey>, rs: seq<EdgeRecord>, dir: Direction, n: NodeId, rel: Option<u32>)
    requires |rs| == |order|
    requires forall k :: 0 <= k < |order| ==> rs[k] == RecordOf(dir, order[k]) && dir.Pivot(order[k]) == n
    ensures forall e: EdgeKey :: multiset(Select(rs, dir, n, rel))[e]
              == if RelMatches(rel, e.rel) then multiset(order)[e] else 0
  {
    if order != [] {
      SelectCounts(order[1..], rs[1..], dir, n, rel);
      assert KeyOf(dir, n, rs[0]) == order[0];
      assert order == [order[0]] + order[1..];
    }
  }

  /** The two offsets around a node cut out exactly its edges. */
  lemma SliceCounts(order: seq<EdgeKey>, dir: Direction, a: int, b: int, n: int)
    requires SplitAt(order, dir, a, n) && SplitAt(order, dir, b, n + 1)
    ensures a <= b
    ensures forall k :: a <= k < b ==> dir.Pivot(order[k]) == n
    ensures forall e: EdgeKey :: multiset(order[a..b])[e] == if dir.Pivot(e) == n then multiset(order)[e] else 0
  {
    SplitOrdered(order, dir, a, b, n);
    assert order == order[..a] + order[a..b] + order[b..];
    forall e: EdgeKey
      ensures multiset(order[a..b])[e] == if dir.Pivot(e) == n then multiset(order)[e] else 0
    {
      if dir.Pivot(e) == n {
        NotThere(order[..a], e);
        NotThere(order[b..], e);
      } else {
        NotThere(order[a..b], e);
      }
    }
  }

  lemma SplitOrdered(order: seq<EdgeKey>, dir: Direction, a: int, b: int, n: int)
    requires SplitAt(order, dir, a, n) && SplitAt(order, dir, b, n + 1)
    ensures a <= b
  {
    hide SplitAt;
    SplitBound(order, dir, b, n + 1);
    if b < a {
      SplitBelow(order, dir, a, n, b);
      SplitAbove(order, dir, b, n + 1, b);
    }
  }

  lemma SplitBelow(order: seq<EdgeKey>, dir: Direction, at: int, bound: int, k: int)
    requires SplitAt(order, dir, at, bound) && 0 <= k < at
    ensures k < |order| && dir.Pivot(order[k]) < bound
  {
  }

  lemma SplitAbove(order: seq<EdgeKey>, dir: Direction, at: int, bound: int, k: int)
    requires SplitAt(order, dir, at, bound) && at <= k < |order|
    ensures 0 <= k && dir.Pivot(order[k]) >= bound
  {
  }

  lemma NotThere(s: seq<EdgeKey>, e: EdgeKey)
    requires forall k :: 0 <= k < |s| ==> s[k] != e
    ensures multiset(s)[e] == 0
  {
    assert e !in s;
  }

  /** An index that represents an edge sequence serves its multiset. */
  lemma RepresentsServes(ix: Index, dir: Direction, order: seq<EdgeKey>)
    requires Represents(ix, dir, order)
    ensures Serves(ix, dir, multiset(order))
  {
    forall n: NodeId, rel: Option<u32> ensures Answers(Lookup(ix, dir, n, rel), dir, n, rel, multiset(order)) {
      LookupAnswers(ix, dir, order, n, rel);
    }
  }

  lemma LookupAnswers(ix: Index, dir: Direction, order: seq<EdgeKey>, n: NodeId, rel: Option<u32>)
    requires Represents(ix, dir, order)
    ensures Answers(Lookup(ix, dir, n, rel), dir, n, rel, multiset(order))
  {
    hide Select, SplitAt;
    if n < ix.base || n > ix.last {
      forall e: EdgeKey | dir.Pivot(e) == n ensures multiset(order)[e] == 0 { NotThere(order, e); }
    } else {
      var i := n - ix.base;
      var a, b := ix.offsets[i], ix.offsets[i + 1];
      assert SplitAt(order, dir, a, n) && SplitAt(order, dir, b, n + 1);
      SplitBound(order, dir, b, n + 1);
      SliceCounts(order, dir, a, b, n);
      SelectCounts(order[a..b], ix.records[a..b], dir, n, rel);
    }
  }

  lemma SplitBound(order: seq<EdgeKey>, dir: Direction, at: int, bound: int)
    requires SplitAt(order, dir, at, bound)
    ensures 0 <= at <= |order|
  {
  }

  // ---- Building the forward index ---------------------------------------------------------

  predicate RecordLe(a: EdgeRecord, b: EdgeRecord) {
    a.rel < b.rel || (a.rel == b.rel && a.dst <= b.dst)
  }

  function EmptySegment(id: u64): Segment {
    Segment(id, 0, 0, 0, 0, 0, [0, 0], [], [], [])
  }

  function RecordsAt(m: map<NodeId, seq<EdgeRecord>>, n: NodeId): seq<EdgeRecord> {
    if n in m then m[n] else []
  }

  ghost predicate Grouped(m: map<NodeId, seq<EdgeRecord>>, edges: seq<EdgeKey>) {
    forall e: EdgeKey :: multiset(RecordsAt(m, e.src))[EdgeRecord(e.rel, e.dst)] == multiset(edges)[e]
  }

  /** The bounds are met: some edge starts (or ends) at each of them. */
  ghost predicate Tight(dir: Direction, edges: seq<EdgeKey>, lo: int, hi: int) {
    (exists e :: e in edges && dir.Pivot(e) == lo) && (exists e :: e in edges && dir.Pivot(e) == hi)
  }

  lemma TightSnoc(edges: seq<EdgeKey>, e: EdgeKey, lo: NodeId, hi: NodeId)
    requires if edges == [] then lo == U32_MAX && hi == 0 else Tight(Outgoing, edges, lo, hi)
    ensures Tight(Outgoing, edges + [e], Min(lo, e.src), Max(hi, e.src))
  {
    var all := edges + [e];
    assert e in all;
    if edges != [] {
      var a :| a in edges && a.src == lo;
      var b :| b in edges && b.src == hi;
      assert a in all && b in all;
    }
  }

  method SrcRange(edges: seq<EdgeKey>) returns (lo: NodeId, hi: NodeId)
    ensures forall k :: 0 <= k < |edges| ==> lo <= edges[k].src <= hi
    ensures edges != [] ==> lo <= hi && Tight(Outgoing, edges, lo, hi)
  {
    lo, hi := U32_MAX, 0;
    for i := 0 to |edges|
      invariant forall k :: 0 <= k < i ==> lo <= edges[k].src <= hi
      invariant if i == 0 then lo == U32_MAX && hi == 0 else Tight(Outgoing, edges[..i], lo, hi)
    {
      ghost var a, b := lo, hi;
      assert edges[..i + 1] == edges[..i] + [edges[i]];
      TightSnoc(edges[..i], edges[i], a, b);
      lo, hi := Min(lo, edges[i].src), Max(hi, edges[i].src);
    }
    if edges != [] { assert lo <= edges[0].src <= hi; }
    assert edges[..|edges|] == edges;
  }

  method GroupBySrc(edges: seq<EdgeKey>) returns (m: map<NodeId, seq<EdgeRecord>>)
    ensures Grouped(m, edges)
  {
    hide Grouped;
    m := map[];
    GroupNone();
    for i := 0 to |edges|
      invariant Grouped(m, edges[..i])
    {
      GroupStep(m, edges[..i], edges[i]);
      assert edges[..i + 1] == edges[..i] + [edges[i]];
      m := m[edges[i].src := RecordsAt(m, edges[i].src) + [EdgeRecord(edges[i].rel, edges[i].dst)]];
    }
    assert edges[..|edges|] == edges;
  }

  lemma GroupNone()
    ensures Grouped(map[], [])
  {
  }

  lemma GroupStep(m: map<NodeId, seq<EdgeRecord>>, done: seq<EdgeKey>, e: EdgeKey)
    requires Grouped(m, done)
    ensures Grouped(m[e.src := RecordsAt(m, e.src) + [EdgeRecord(e.rel, e.dst)]], done + [e])
  {
    hide RecordsAt;
    var m' := m[e.src := RecordsAt(m, e.src) + [EdgeRecord(e.rel, e.dst)]];
    forall x: EdgeKey ensures multiset(RecordsAt(m', x.src))[EdgeRecord(x.rel, x.dst)] == multiset(done + [e])[x] {
      assert multiset(RecordsAt(m, x.src))[EdgeRecord(x.rel, x.dst)] == multiset(done)[x];
      GroupAt(m, e, x);
    }
  }

  /** Appending a record adds one copy of its edge. */
  lemma GroupAt(m: map<NodeId, seq<EdgeRecord>>, e: EdgeKey, x: EdgeKey)
    ensures var m' := m[e.src := RecordsAt(m, e.src) + [EdgeRecord(e.rel, e.dst)]];
            multiset(RecordsAt(m', x.src))[EdgeRecord(x.rel, x.dst)]
            == multiset(RecordsAt(m, x.src))[EdgeRecord(x.rel, x.dst)] + if x == e then 1 else 0
  {
    var rs, r := RecordsAt(m, e.src), EdgeRecord(e.rel, e.dst);
    assert multiset(rs + [r]) == multiset(rs) + multiset{r};
  }

  /** The edges of one source as keys. */
  function KeysOf(n: NodeId, rs: seq<EdgeRecord>): (ks: seq<EdgeKey>)
    ensures |ks| == |rs|
    ensures forall k :: 0 <= k < |rs| ==> ks[k] == EdgeKey(n, rs[k].rel, rs[k].dst)
  {
    seq(|rs|, k requires 0 <= k < |rs| => EdgeKey(n, rs[k].rel, rs[k].dst))
  }

  lemma KeysOfCounts(n: NodeId, rs: seq<EdgeRecord>)
    ensures forall e: EdgeKey :: multiset(KeysOf(n, rs))[e]
              == if e.src == n then multiset(rs)[EdgeRecord(e.rel, e.dst)] else 0
  {
    hide KeysOf;
    forall e: EdgeKey ensures multiset(KeysOf(n, rs))[e] == if e.src == n then multiset(rs)[EdgeRecord(e.rel, e.dst)] else 0 {
      KeysOfCount(n, rs, e);
    }
  }

  lemma {:induction false} KeysOfCount(n: NodeId, rs: seq<EdgeRecord>, e: EdgeKey)
    ensures multiset(KeysOf(n, rs))[e] == if e.src == n then multiset(rs)[EdgeRecord(e.rel, e.dst)] else 0
  {
    hide KeysOf;
    if rs != [] {
      KeysOfCount(n, rs[1..], e);
      assert rs == [rs[0]] + rs[1..];
      assert KeysOf(n, rs) == [EdgeKey(n, rs[0].rel, rs[0].dst)] + KeysOf(n, rs[1..]);
    }
  }

  /** The part of the forward index for sources below `next`. */
  ghost predicate BuiltBelow(offsets: seq<nat>, recs: seq<EdgeRecord>, order: seq<EdgeKey>, edges: seq<EdgeKey>,
                             lo: int, next: int) {
    && |recs| == |order| && lo <= next <= lo + |offsets|
    && RecordsBelow(recs, order, lo, next)
    && SplitsBelow(offsets, order, lo, next)
    && CountsBelow(order, edges, next)
  }

  ghost predicate RecordsBelow(recs: seq<EdgeRecord>, order: seq<EdgeKey>, lo: int, next: int)
    requires |recs| == |order|
  {
    forall k :: 0 <= k < |order| ==> recs[k] == RecordOf(Outgoing, order[k]) && lo <= order[k].src < next
  }

  ghost predicate SplitsBelow(offsets: seq<nat>, order: seq<EdgeKey>, lo: int, next: int)
    requires lo <= next <= lo + |offsets|
  {
    forall j :: 0 <= j < next - lo ==> SplitAt(order, Outgoing, offsets[j], lo + j)
  }

  ghost predicate CountsBelow(order: seq<EdgeKey>, edges: seq<EdgeKey>, next: int) {
    forall e: EdgeKey :: multiset(order)[e] == if e.src < next then multiset(edges)[e] else 0
  }

  lemma BuildStep(offsets: seq<nat>, recs: seq<EdgeRecord>, order: seq<EdgeKey>, edges: seq<EdgeKey>,
                  lo: int, src: NodeId, list: seq<EdgeRecord>)
    requires BuiltBelow(offsets, recs, order, edges, lo, src) && src - lo < |offsets|
    requires forall r :: multiset(list)[r] == multiset(edges)[EdgeKey(src, r.rel, r.dst)]
    ensures BuiltBelow(offsets[src - lo := |recs|], recs + list, order + KeysOf(src, list), edges, lo, src + 1)
  {
    hide RecordsBelow, SplitsBelow, CountsBelow, KeysOf;
    BuildRecords(recs, order, lo, src, list);
    BuildSplits(offsets, recs, order, lo, src, list);
    BuildCounts(order, edges, src, list);
  }

  lemma BuildRecords(recs: seq<EdgeRecord>, order: seq<EdgeKey>, lo: int, src: NodeId, list: seq<EdgeRecord>)
    requires |recs| == |order| && RecordsBelow(recs, order, lo, src) && lo <= src
    ensures RecordsBelow(recs + list, order + KeysOf(src, list), lo, src + 1)
  {
  }

  lemma BuildSplits(offsets: seq<nat>, recs: seq<EdgeRecord>, order: seq<EdgeKey>, lo: int, src: NodeId, list: seq<EdgeRecord>)
    requires lo <= src < lo + |offsets| && |recs| == |order|
    requires RecordsBelow(recs, order, lo, src) && SplitsBelow(offsets, order, lo, src)
    ensures SplitsBelow(offsets[src - lo := |recs|], order + KeysOf(src, list), lo, src + 1)
  {
    hide SplitAt, KeysOf;
    var keys := KeysOf(src, list);
    var offsets' := offsets[src - lo := |recs|];
    forall j | 0 <= j < src + 1 - lo ensures SplitAt(order + keys, Outgoing, offsets'[j], lo + j) {
      if j < src - lo { assert SplitAt(order, Outgoing, offsets[j], lo + j); }
      SplitExtend(order, keys, offsets'[j], lo + j, src);
    }
  }

  lemma SplitExtend(order: seq<EdgeKey>, keys: seq<EdgeKey>, at: int, bound: int, src: int)
    requires bound < src ==> SplitAt(order, Outgoing, at, bound)
    requires bound == src ==> at == |order|
    requires bound <= src
    requires forall k :: 0 <= k < |order| ==> order[k].src < src
    requires forall k :: 0 <= k < |keys| ==> keys[k].src == src
    ensures SplitAt(order + keys, Outgoing, at, bound)
  {
  }

  lemma BuildCounts(order: seq<EdgeKey>, edges: seq<EdgeKey>, src: NodeId, list: seq<EdgeRecord>)
    requires CountsBelow(order, edges, src)
    requires forall r :: multiset(list)[r] == multiset(edges)[EdgeKey(src, r.rel, r.dst)]
    ensures CountsBelow(order + KeysOf(src, list), edges, src + 1)
  {
    hide KeysOf;
    KeysOfCounts(src, list);
    forall e: EdgeKey ensures multiset(order + KeysOf(src, list))[e] == if e.src < src + 1 then multiset(edges)[e] else 0 {
      assert multiset(order + KeysOf(src, list))[e] == multiset(order)[e] + multiset(KeysOf(src, list))[e];
      if e.src == src { assert multiset(list)[EdgeRecord(e.rel, e.dst)] == multiset(edges)[EdgeKey(src, e.rel, e.dst)]; }
    }
  }

  lemma TightPermuted(dir: Direction, a: seq<EdgeKey>, b: seq<EdgeKey>, lo: int, hi: int)
    requires multiset(a) == multiset(b)
    ensures Tight(dir, a, lo, hi) ==> Tight(dir, b, lo, hi)
  {
    if Tight(dir, a, lo, hi) {
      var x :| x in a && dir.Pivot(x) == lo;
      var y :| y in a && dir.Pivot(y) == hi;
      assert x in multiset(a) && y in multiset(a);
      assert x in b && y in b;
    }
  }

  /**
   * The construction shared by `build_segment_from_runs` and the bulk loader: sort, group by source,
   * lay the groups out from the smallest to the largest source. `order` is the edge of each record.
   */
  method BuildSegment(id: u64, input: seq<EdgeKey>) returns (seg: Segment, ghost order: seq<EdgeKey>)
    ensures multiset(order) == multiset(input)
    ensures input == [] ==> seg == EmptySegment(id)
    ensures input != [] ==> Represents(seg.In(Outgoing), Outgoing, order) && Tight(Outgoing, input, seg.minSrc, seg.maxSrc)
    ensures seg.id == id && seg.metaPageId == 0 && seg.inOffsets == [] && seg.inEdges == [] && |seg.edges| == |input|
  {
    hide Grouped, BuiltBelow, Sort;
    var edges := Sort(input, EdgeLe);
    assert |edges| == |multiset(edges)| == |multiset(input)| == |input|;
    var lo, hi := SrcRange(edges);
    TightPermuted(Outgoing, edges, input, lo, hi);
    if edges == [] {
      order := [];
      return EmptySegment(id), order;
    }
    var offsets: seq<nat> := seq(hi - lo + 2, _ => 0);
    var bySrc := GroupBySrc(edges);
    var recs: seq<EdgeRecord> := [];
    order := [];
    BuildStart(offsets, edges, lo);
    var src: int := lo;
    while src <= hi
      invariant lo <= src <= hi + 1 && |offsets| == hi - lo + 2
      invariant BuiltBelow(offsets, recs, order, edges, lo, src)
      invariant |recs| <= |edges|
    {
      var list := Sort(RecordsAt(bySrc, src), RecordLe);
      GroupOfSource(bySrc, edges, src, list);
      BuildStep(offsets, recs, order, edges, lo, src, list);
      BuiltLength(offsets[src - lo := |recs|], recs + list, order + KeysOf(src, list), edges, lo, src + 1);
      offsets, recs, order := offsets[src - lo := |recs|], recs + list, order + KeysOf(src, list);
      src := src + 1;
    }
    ghost var before := offsets;
    offsets := offsets[hi - lo + 1 := |recs|];
    BuildEnd(before, offsets, recs, order, edges, lo, hi);
    seg := Segment(id, 0, lo, hi, 0, 0, offsets, recs, [], []);
  }

  lemma BuildStart(offsets: seq<nat>, edges: seq<EdgeKey>, lo: NodeId)
    requires forall k :: 0 <= k < |edges| ==> lo <= edges[k].src
    ensures BuiltBelow(offsets, [], [], edges, lo, lo)
  {
    forall e: EdgeKey | e.src < lo ensures multiset(edges)[e] == 0 { NotThere(edges, e); }
  }

  lemma GroupOfSource(bySrc: map<NodeId, seq<EdgeRecord>>, edges: seq<EdgeKey>, src: NodeId, list: seq<EdgeRecord>)
    requires Grouped(bySrc, edges) && multiset(list) == multiset(RecordsAt(bySrc, src))
    ensures forall r :: multiset(list)[r] == multiset(edges)[EdgeKey(src, r.rel, r.dst)]
  {
    forall r ensures multiset(list)[r] == multiset(edges)[EdgeKey(src, r.rel, r.dst)] {
      var e := EdgeKey(src, r.rel, r.dst);
      assert multiset(RecordsAt(bySrc, e.src))[EdgeRecord(e.rel, e.dst)] == multiset(edges)[e];
    }
  }

  lemma BuiltLength(offsets: seq<nat>, recs: seq<EdgeRecord>, order: seq<EdgeKey>, edges: seq<EdgeKey>, lo: int, next: int)
    requires BuiltBelow(offsets, recs, order, edges, lo, next)
    ensures |recs| <= |edges|
  {
    assert multiset(order) <= multiset(edges);
    SubMultiset(multiset(order), multiset(edges));
    assert |multiset(order)| == |order| && |multiset(edges)| == |edges|;
  }

  lemma SubMultiset(a: multiset<EdgeKey>, b: multiset<EdgeKey>)
    requires a <= b
    ensures |a| <= |b|
  {
    assert b == a + (b - a);
  }

  lemma BuildEnd(before: seq<nat>, offsets: seq<nat>, recs: seq<EdgeRecord>, order: seq<EdgeKey>,
                 edges: seq<EdgeKey>, lo: NodeId, hi: NodeId)
    requires |offsets| == |before| == hi - lo + 2 && lo <= hi
    requires forall j :: 0 <= j < |offsets| - 1 ==> offsets[j] == before[j]
    requires offsets[hi - lo + 1] == |recs|
    requires BuiltBelow(before, recs, order, edges, lo, hi + 1)
    requires forall k :: 0 <= k < |edges| ==> lo <= edges[k].src <= hi
    ensures multiset(order) == multiset(edges)
    ensures Represents(Index(lo, hi, offsets, recs), Outgoing, order)
  {
    forall e: EdgeKey ensures multiset(order)[e] == multiset(edges)[e] {
      if e.src > hi { NotThere(edges, e); }
    }
    assert SplitAt(order, Outgoing, offsets[hi - lo + 1], hi + 1);
  }

  // ---- Building the reverse index ---------------------------------------------------------

  /** The source of record `at`, found by walking the offsets. */
  method SourceOf(seg: Segment, at: nat, ghost order: seq<EdgeKey>) returns (src: NodeId)
    requires Represents(seg.In(Outgoing), Outgoing, order) && at < |order|
    ensures src == order[at].src
  {
    hide SplitAt;
    src := seg.minSrc;
    ghost var want := order[at].src - seg.minSrc;
    for i := 0 to |seg.offsets| - 1
      invariant i <= want
    {
      SourceSlot(seg, at, i, order);
      if seg.offsets[i] <= at < seg.offsets[i + 1] {
        src := seg.minSrc + i;
        return;
      }
    }
  }

  /** Record `at` lies between the offsets of its own source and no other. */
  lemma SourceSlot(seg: Segment, at: nat, i: nat, order: seq<EdgeKey>)
    requires Represents(seg.In(Outgoing), Outgoing, order) && at < |order| && i + 1 < |seg.offsets|
    ensures seg.offsets[i] <= at < seg.offsets[i + 1] <==> order[at].src == seg.minSrc + i
  {
    var ix := seg.In(Outgoing);
    assert SplitAt(order, Outgoing, ix.offsets[i], ix.base + i);
    assert SplitAt(order, Outgoing, ix.offsets[i + 1], ix.base + (i + 1));
  }

  method WithSources(seg: Segment, ghost order: seq<EdgeKey>) returns (keys: seq<EdgeKey>)
    requires Represents(seg.In(Outgoing), Outgoing, order)
    ensures keys == order
  {
    hide SplitAt;
    keys := [];
    for at := 0 to |seg.edges|
      invariant keys == order[..at]
    {
      var src := SourceOf(seg, at, order);
      assert seg.In(Outgoing).records[at] == RecordOf(Outgoing, order[at]);
      keys := keys + [EdgeKey(src, seg.edges[at].rel, seg.edges[at].dst)];
    }
  }

  /** The offsets filled so far split `rev` at every destination up to `current`. */
  ghost predicate ReverseFilled(offsets: seq<nat>, rev: seq<EdgeKey>, lo: int, current: int) {
    && lo <= current < lo + |offsets|
    && forall j :: 0 <= j <= current - lo ==> SplitAt(rev, Incoming, offsets[j], lo + j)
  }

  lemma ReverseStep(offsets: seq<nat>, rev: seq<EdgeKey>, lo: int, current: int, at: nat)
    requires ReverseFilled(offsets, rev, lo, current) && current + 1 < lo + |offsets|
    requires SplitAt(rev, Incoming, at, current + 1)
    ensures ReverseFilled(offsets[current + 1 - lo := at], rev, lo, current + 1)
  {
    hide SplitAt;
    var offsets' := offsets[current + 1 - lo := at];
    forall j | 0 <= j <= current + 1 - lo ensures SplitAt(rev, Incoming, offsets'[j], lo + j) {
      if j <= current - lo { assert SplitAt(rev, Incoming, offsets[j], lo + j); }
    }
  }

  /** Some edge goes into the largest node id. */
  predicate IntoLast(edges: seq<EdgeKey>) { exists k :: 0 <= k < |edges| && edges[k].dst == U32_MAX }

  /**
   * The reverse index built by `persist`: edges sorted by destination, the source stored in the
   * record's destination field, offsets filled while walking the destinations. The walk counts past the last
   * destination in 32 bits: `None` stands for the overflow when that is the largest id.
   */
  method BuildReverse(seg: Segment, ghost order: seq<EdgeKey>) returns (built: Option<Segment>, ghost rev: seq<EdgeKey>)
    requires Represents(seg.In(Outgoing), Outgoing, order) && seg.edges != []
    ensures multiset(rev) == multiset(order) && (built.None? <==> IntoLast(order))
    ensures built.Some? ==>
              var out := built.value;
              && out == seg.(minDst := out.minDst, maxDst := out.maxDst, inOffsets := out.inOffsets, inEdges := out.inEdges)
              && Represents(out.In(Incoming), Incoming, rev) && Tight(Incoming, order, out.minDst, out.maxDst)
  {
    hide SplitAt, ReverseFilled, Sort;
    var keys := WithSources(seg, order);
    var sorted := Sort(keys, EdgeLeByDst);
    rev := sorted;
    SortedByDst(keys, sorted);
    var minDst, maxDst := sorted[0].dst, sorted[|sorted| - 1].dst;
    var range := maxDst - minDst + 1;
    var inOffsets: seq<nat> := seq(range + 1, _ => 0);
    var inEdges: seq<EdgeRecord> := [];
    var current: int := minDst;
    ReverseInit(inOffsets, sorted);
    for i := 0 to |sorted|
      invariant |inOffsets| == range + 1 && minDst <= current <= maxDst
      invariant ReverseFilled(inOffsets, sorted, minDst, current)
      invariant |inEdges| == i && forall k :: 0 <= k < i ==> inEdges[k] == RecordOf(Incoming, sorted[k])
      invariant forall k :: 0 <= k < i ==> sorted[k].dst <= current
      invariant current == if i > 0 then sorted[i - 1].dst else minDst
    {
      var e := sorted[i];
      assert e.dst <= maxDst;
      assert i > 0 ==> sorted[i - 1].dst <= e.dst;
      while current < e.dst
        invariant |inOffsets| == range + 1 && minDst <= current <= e.dst
        invariant ReverseFilled(inOffsets, sorted, minDst, current)
        invariant forall k :: 0 <= k < i ==> sorted[k].dst <= current
      {
        SplitSorted(sorted, i, current + 1);
        ReverseStep(inOffsets, sorted, minDst, current, i);
        current := current + 1;
        inOffsets := inOffsets[current - minDst := i];
      }
      inEdges := inEdges + [EdgeRecord(e.rel, e.src)];
    }
    assert current == maxDst;
    LastDst(keys, sorted);
    while current <= maxDst
      invariant maxDst <= current <= maxDst + 1 && |inOffsets| == range + 1
      invariant current > maxDst ==> !IntoLast(order)
      invariant ReverseFilled(inOffsets, sorted, minDst, current)
    {
      if current == U32_MAX { return None, rev; }
      SplitSorted(sorted, |sorted|, current + 1);
      ReverseStep(inOffsets, sorted, minDst, current, |sorted|);
      current := current + 1;
      inOffsets := inOffsets[Min(current - minDst, range) := |sorted|];
    }
    var out := seg.(minDst := minDst, maxDst := maxDst, inOffsets := inOffsets, inEdges := inEdges);
    ReverseDone(out, sorted);
    built := Some(out);
  }

  lemma LastDst(keys: seq<EdgeKey>, sorted: seq<EdgeKey>)
    requires |sorted| == |keys| > 0 && multiset(sorted) == multiset(keys)
    requires forall i, j :: 0 <= i <= j < |sorted| ==> sorted[i].dst <= sorted[j].dst
    ensures IntoLast(keys) <==> sorted[|sorted| - 1].dst == U32_MAX
    ensures Tight(Incoming, keys, sorted[0].dst, sorted[|sorted| - 1].dst)
  {
    var last := |sorted| - 1;
    assert sorted[0] in multiset(sorted) && sorted[last] in multiset(sorted);
    assert sorted[0] in keys && sorted[last] in keys;
    forall k | 0 <= k < |keys| ensures keys[k].dst <= sorted[last].dst {
      assert keys[k] in multiset(keys);
      assert keys[k] in sorted;
    }
  }

  lemma SortedByDst(keys: seq<EdgeKey>, sorted: seq<EdgeKey>)
    requires keys != [] && sorted == Sort(keys, EdgeLeByDst)
    ensures |sorted| == |keys| && multiset(sorted) == multiset(keys)
    ensures forall i, j :: 0 <= i <= j < |sorted| ==> sorted[i].dst <= sorted[j].dst
    ensures forall k :: 0 <= k < |sorted| ==> sorted[k] in keys
  {
    hide Sort;
    assert Sorted(sorted, EdgeLeByDst) by { EdgeOrders(); SortSorted(keys, EdgeLeByDst); }
    assert |multiset(sorted)| == |multiset(keys)|;
    forall k | 0 <= k < |sorted| ensures sorted[k] in keys {
      assert sorted[k] in multiset(sorted);
    }
    forall i, j | 0 <= i <= j < |sorted| ensures sorted[i].dst <= sorted[j].dst {
      if i < j { assert EdgeLeByDst(sorted[i], sorted[j]); }
    }
  }

  lemma SplitSorted(sorted: seq<EdgeKey>, i: nat, bound: int)
    requires i <= |sorted|
    requires forall a, b :: 0 <= a <= b < |sorted| ==> sorted[a].dst <= sorted[b].dst
    requires forall k :: 0 <= k < i ==> sorted[k].dst < bound
    requires i < |sorted| ==> sorted[i].dst >= bound
    ensures SplitAt(sorted, Incoming, i, bound)
  {
  }

  lemma ReverseInit(offsets: seq<nat>, sorted: seq<EdgeKey>)
    requires sorted != [] && |offsets| > 0 && offsets[0] == 0
    requires forall a, b :: 0 <= a <= b < |sorted| ==> sorted[a].dst <= sorted[b].dst
    ensures ReverseFilled(offsets, sorted, sorted[0].dst, sorted[0].dst)
  {
  }

  lemma ReverseDone(out: Segment, rev: seq<EdgeKey>)
    requires rev != [] && out.minDst == rev[0].dst && out.maxDst == rev[|rev| - 1].dst
    requires forall a, b :: 0 <= a <= b < |rev| ==> rev[a].dst <= rev[b].dst
    requires |out.inOffsets| == out.maxDst - out.minDst + 2
    requires ReverseFilled(out.inOffsets, rev, out.minDst, out.maxDst + 1)
    requires |out.inEdges| == |rev| && forall k :: 0 <= k < |rev| ==> out.inEdges[k] == RecordOf(Incoming, rev[k])
    ensures Represents(out.In(Incoming), Incoming, rev)
  {
    hide SplitAt;
  }

  // ---- Segments as readers meet them -------------------------------------------------------

  /** A persisted segment: both indexes serve the same edges, or the segment is empty. */
  ghost predicate Stores(seg: Segment, edges: multiset<EdgeKey>) {
    if edges == multiset{} then seg.edges == [] && seg == EmptySegment(seg.id).(metaPageId := seg.metaPageId)
    else Serves(seg.In(Outgoing), Outgoing, edges) && Serves(seg.In(Incoming), Incoming, edges)
  }

  /** An index over `n` edges: every offset is at most `n`. */
  ghost predicate Within(ix: Index, n: nat) {
    && |ix.records| == n && |ix.offsets| <= U32_MAX + 2
    && forall j :: 0 <= j < |ix.offsets| ==> ix.offsets[j] <= n
  }

  lemma RepresentsWithin(ix: Index, dir: Direction, order: seq<EdgeKey>)
    requires Represents(ix, dir, order)
    ensures Within(ix, |order|)
  {
  }

  lemma EmptyWithin(id: u64)
    ensures Within(EmptySegment(id).In(Outgoing), 0) && Within(EmptySegment(id).In(Incoming), 0)
  {
  }

  // ---- The size of a segment ------------------------------------------------------------------

  ghost function Lowest(edges: multiset<EdgeKey>, dir: Direction): (n: nat)
    requires edges != multiset{}
    ensures exists e :: e in edges && dir.Pivot(e) == n
    ensures forall e :: e in edges ==> n <= dir.Pivot(e)
    decreases |edges|
  {
    var e :| e in edges;
    var rest := edges - multiset{e};
    assert forall x :: x in edges <==> x == e || x in rest;
    if rest == multiset{} then dir.Pivot(e) else Min(dir.Pivot(e), Lowest(rest, dir))
  }

  ghost function Highest(edges: multiset<EdgeKey>, dir: Direction): (n: nat)
    requires edges != multiset{}
    ensures exists e :: e in edges && dir.Pivot(e) == n
    ensures forall e :: e in edges ==> dir.Pivot(e) <= n
    decreases |edges|
  {
    var e :| e in edges;
    var rest := edges - multiset{e};
    assert forall x :: x in edges <==> x == e || x in rest;
    if rest == multiset{} then dir.Pivot(e) else Max(dir.Pivot(e), Highest(rest, dir))
  }

  /** The offsets an index over these edges has: one per node from the lowest to past the highest. */
  ghost function Width(edges: multiset<EdgeKey>, dir: Direction): nat {
    if edges == multiset{} then if dir.Outgoing? then 2 else 0
    else Highest(edges, dir) - Lowest(edges, dir) + 2
  }

  /** The index of `n` edges in this direction: as wide as they are, and no offset past them. */
  ghost predicate Measures(ix: Index, dir: Direction, edges: multiset<EdgeKey>) {
    Within(ix, |edges|) && |ix.offsets| == Width(edges, dir)
  }

  lemma RepresentsMeasures(ix: Index, dir: Direction, order: seq<EdgeKey>, input: seq<EdgeKey>)
    requires Represents(ix, dir, order) && multiset(order) == multiset(input) && Tight(dir, input, ix.base, ix.last)
    ensures Measures(ix, dir, multiset(input))
  {
    hide SplitAt;
    var edges := multiset(input);
    assert |order| == |multiset(order)| == |edges|;
    RepresentsWithin(ix, dir, order);
    var a :| a in input && dir.Pivot(a) == ix.base;
    var b :| b in input && dir.Pivot(b) == ix.last;
    assert a in edges && b in edges;
    forall e | e in edges ensures ix.base <= dir.Pivot(e) <= ix.last {
      assert e in multiset(order);
      assert e in order;
    }
    var lo, hi := Lowest(edges, dir), Highest(edges, dir);
    assert lo == ix.base && hi == ix.last;
  }

  lemma EmptyMeasures(id: u64)
    ensures Measures(EmptySegment(id).In(Outgoing), Outgoing, multiset{}) && Measures(EmptySegment(id).In(Incoming), Incoming, multiset{})
  {
    EmptyWithin(id);
  }

  /** Construction followed by the reverse-index step of `persist`; `None` for its overflow. */
  method BuildAndIndex(id: u64, input: seq<EdgeKey>) returns (built: Option<Segment>)
    ensures built.None? <==> IntoLast(input)
    ensures built.Some? ==> Stores(built.value, multiset(input)) && built.value.id == id && built.value.metaPageId == 0
    ensures built.Some? ==> forall dir :: Measures(built.value.In(dir), dir, multiset(input))
  {
    hide Represents, Serves, Within, Measures, Tight;
    var seg, order := BuildSegment(id, input);
    if input == [] {
      EmptyMeasures(id);
      return Some(seg);
    }
    RepresentsServes(seg.In(Outgoing), Outgoing, order);
    RepresentsMeasures(seg.In(Outgoing), Outgoing, order, input);
    if IntoLast(order) { IntoLastPermuted(order, input); }
    if IntoLast(input) { IntoLastPermuted(input, order); }
    assert input[0] in multiset(input);
    ghost var rev;
    built, rev := BuildReverse(seg, order);
    if built.Some? {
      RepresentsServes(built.value.In(Incoming), Incoming, rev);
      TightPermuted(Incoming, order, input, built.value.minDst, built.value.maxDst);
      RepresentsMeasures(built.value.In(Incoming), Incoming, rev, input);
    }
  }

  lemma IntoLastPermuted(a: seq<EdgeKey>, b: seq<EdgeKey>)
    requires multiset(a) == multiset(b) && IntoLast(a)
    ensures IntoLast(b)
  {
    var k :| 0 <= k < |a| && a[k].dst == U32_MAX;
    assert a[k] in multiset(b);
    assert a[k] in b;
  }

  /** Lookups of a stored segment answer exactly its edges, and panic in exactly one case. */
  lemma StoredLookup(seg: Segment, edges: multiset<EdgeKey>, dir: Direction, n: NodeId, rel: Option<u32>)
    requires Stores(seg, edges)
    ensures Lookup(seg.In(dir), dir, n, rel).None? <==> edges == multiset{} && dir.Incoming? && n == 0
    ensures Lookup(seg.In(dir), dir, n, rel).Some? ==> Answers(Lookup(seg.In(dir), dir, n, rel), dir, n, rel, edges)
  {
    if edges != multiset{} {
      assert Answers(Lookup(seg.In(dir), dir, n, rel), dir, n, rel, edges);
    }
  }

  /** A lookup by type or without: the edges from a node, the edges into it, and no others. */
  lemma LookupMeans(seg: Segment, edges: multiset<EdgeKey>, n: NodeId, t: u32, e: EdgeKey)
    requires Stores(seg, edges)
    ensures var got := Lookup(seg.In(Outgoing), Outgoing, n, Some(t));
            got.Some? && multiset(got.value)[e] == if e.src == n && e.rel == t then edges[e] else 0
    ensures var got := Lookup(seg.In(Outgoing), Outgoing, n, None);
            got.Some? && multiset(got.value)[e] == if e.src == n then edges[e] else 0
    ensures var got := Lookup(seg.In(Incoming), Incoming, n, Some(t));
            if edges == multiset{} && n == 0 then got.None?
            else got.Some? && multiset(got.value)[e] == if e.dst == n && e.rel == t then edges[e] else 0
    ensures var got := Lookup(seg.In(Incoming), Incoming, n, None);
            if edges == multiset{} && n == 0 then got.None?
            else got.Some? && multiset(got.value)[e] == if e.dst == n then edges[e] else 0
  {
    hide Stores, Lookup;
    forall dir: Direction, rel: Option<u32>
      ensures Lookup(seg.In(dir), dir, n, rel).None? <==> edges == multiset{} && dir.Incoming? && n == 0
      ensures Lookup(seg.In(dir), dir, n, rel).Some? ==> Answers(Lookup(seg.In(dir), dir, n, rel), dir, n, rel, edges)
    {
      StoredLookup(seg, edges, dir, n, rel);
    }
  }
}
