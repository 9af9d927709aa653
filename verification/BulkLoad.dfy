/** Offline bulk load into a new store, and what reopening that store gives. */
module BulkLoad {
  import opened Bytes
  import opened Wrappers
  import opened Sorting
  import opened Graph
  import opened Csr
  import opened Neighbors
  import opened Compaction
  import opened WalRecords
  import opened WalLog
  import opened Labels
  import opened Recovery
  import opened Pagers
  import opened BlobStores
  import opened CsrPages
  import opened IdMaps
  import opened IdMapPages
  import opened SegmentPages
  import opened Durability
  import opened NodeDurability
  import opened Engine

  datatype BulkNode = BulkNode(externalId: u64, name: Utf8)
  datatype BulkEdge = BulkEdge(src: u64, rel: Utf8, dst: u64)

  // ---- Validation -------------------------------------------------------------------------------

  ghost predicate UniqueIds(nodes: seq<BulkNode>) {
    forall i, j :: 0 <= i < j < |nodes| ==> nodes[i].externalId != nodes[j].externalId
  }

  predicate Known(nodes: seq<BulkNode>, ext: u64) { exists i :: 0 <= i < |nodes| && nodes[i].externalId == ext }

  ghost predicate ValidInput(nodes: seq<BulkNode>, edges: seq<BulkEdge>) {
    UniqueIds(nodes) && forall i :: 0 <= i < |edges| ==> Known(nodes, edges[i].src) && Known(nodes, edges[i].dst)
  }

  /** `validate`. */
  method Validate(nodes: seq<BulkNode>, edges: seq<BulkEdge>) returns (r: Result<()>)
    ensures r.Ok? <==> ValidInput(nodes, edges)
  {
    var seen: set<u64> := {};
    for i := 0 to |nodes|
      invariant UniqueIds(nodes[..i]) && forall x :: x in seen <==> Known(nodes[..i], x)
    {
      if nodes[i].externalId in seen { return Err(WalProtocol("Duplicate external_id in bulk load")); }
      seen := seen + {nodes[i].externalId};
      KnownNext(nodes, i);
    }
    assert nodes[..|nodes|] == nodes;
    for i := 0 to |edges|
      invariant forall k :: 0 <= k < i ==> Known(nodes, edges[k].src) && Known(nodes, edges[k].dst)
    {
      if edges[i].src !in seen { return Err(WalProtocol("Edge src_external_id references non-existent node")); }
      if edges[i].dst !in seen { return Err(WalProtocol("Edge dst_external_id references non-existent node")); }
    }
    r := Ok(());
  }

  lemma KnownNext(nodes: seq<BulkNode>, i: nat)
    requires i < |nodes|
    ensures forall x :: Known(nodes[..i + 1], x) <==> Known(nodes[..i], x) || x == nodes[i].externalId
  {
    forall x ensures Known(nodes[..i + 1], x) <==> Known(nodes[..i], x) || x == nodes[i].externalId {
      if Known(nodes[..i], x) {
        var k :| 0 <= k < i && nodes[..i][k].externalId == x;
        assert nodes[..i + 1][k].externalId == x;
      }
      if x == nodes[i].externalId { assert nodes[..i + 1][i].externalId == x; }
    }
  }

  // ---- Labels ------------------------------------------------------------------------------------

  function Intern(names: seq<Utf8>, name: Utf8): seq<Utf8> { if name in names then names else names + [name] }

  function NodeNames(nodes: seq<BulkNode>): seq<Utf8> {
    if nodes == [] then [] else Intern(NodeNames(nodes[..|nodes| - 1]), nodes[|nodes| - 1].name)
  }

  /** The label table of an input: node labels, then relationship types, each where it is first seen. */
  function NamesOf(nodes: seq<BulkNode>, edges: seq<BulkEdge>): seq<Utf8> {
    if edges == [] then NodeNames(nodes) else Intern(NamesOf(nodes, edges[..|edges| - 1]), edges[|edges| - 1].rel)
  }

  ghost predicate Interned(names: seq<Utf8>, nodes: seq<BulkNode>, edges: seq<BulkEdge>) {
    && Distinct(names) && |names| <= |nodes| + |edges|
    && (forall i :: 0 <= i < |nodes| ==> nodes[i].name in names)
    && (forall i :: 0 <= i < |edges| ==> edges[i].rel in names)
    && (forall x :: x in names ==> (exists i :: 0 <= i < |nodes| && nodes[i].name == x) || (exists i :: 0 <= i < |edges| && edges[i].rel == x))
  }

  lemma InternAdds(names: seq<Utf8>, name: Utf8)
    ensures forall x :: x in Intern(names, name) <==> x in names || x == name
    ensures Distinct(names) ==> Distinct(Intern(names, name))
    ensures |Intern(names, name)| <= |names| + 1
  {
  }

  lemma {:induction false} NodeNamesInterned(nodes: seq<BulkNode>)
    ensures Interned(NodeNames(nodes), nodes, [])
  {
    hide Intern, Distinct;
    if nodes == [] {
      assert Distinct([]) by { NoneDistinct(); }
    } else {
      var n := |nodes| - 1;
      NodeNamesInterned(nodes[..n]);
      InternAdds(NodeNames(nodes[..n]), nodes[n].name);
      NodeSeen(nodes, NodeNames(nodes[..n]), NodeNames(nodes));
    }
  }

  lemma NoneDistinct()
    ensures Distinct([])
  {
  }

  lemma NodeSeen(nodes: seq<BulkNode>, front: seq<Utf8>, names: seq<Utf8>)
    requires nodes != [] && Interned(front, nodes[..|nodes| - 1], []) && Distinct(names) && |names| <= |front| + 1
    requires forall x :: x in names <==> x in front || x == nodes[|nodes| - 1].name
    ensures Interned(names, nodes, [])
  {
    hide Distinct;
    var n := |nodes| - 1;
    forall i | 0 <= i < |nodes| ensures nodes[i].name in names { if i < n { assert nodes[..n][i] == nodes[i]; } }
    forall x | x in names ensures exists i :: 0 <= i < |nodes| && nodes[i].name == x {
      if x in front {
        var i :| 0 <= i < n && nodes[..n][i].name == x;
        assert nodes[i].name == x;
      }
    }
  }

  lemma {:induction false} NamesInterned(nodes: seq<BulkNode>, edges: seq<BulkEdge>)
    ensures Interned(NamesOf(nodes, edges), nodes, edges)
    decreases |edges|
  {
    hide Intern, Distinct;
    if edges == [] {
      NodeNamesInterned(nodes);
    } else {
      var n := |edges| - 1;
      NamesInterned(nodes, edges[..n]);
      InternAdds(NamesOf(nodes, edges[..n]), edges[n].rel);
      EdgeSeen(nodes, edges, NamesOf(nodes, edges[..n]), NamesOf(nodes, edges));
    }
  }

  lemma EdgeSeen(nodes: seq<BulkNode>, edges: seq<BulkEdge>, front: seq<Utf8>, names: seq<Utf8>)
    requires edges != [] && Interned(front, nodes, edges[..|edges| - 1]) && Distinct(names) && |names| <= |front| + 1
    requires forall x :: x in names <==> x in front || x == edges[|edges| - 1].rel
    ensures Interned(names, nodes, edges)
  {
    hide Distinct;
    var n := |edges| - 1;
    forall i | 0 <= i < |edges| ensures edges[i].rel in names { if i < n { assert edges[..n][i] == edges[i]; } }
    forall x | x in names
      ensures (exists i :: 0 <= i < |nodes| && nodes[i].name == x) || (exists i :: 0 <= i < |edges| && edges[i].rel == x)
    {
      if x in front && exists i :: 0 <= i < n && edges[..n][i].rel == x {
        var i :| 0 <= i < n && edges[..n][i].rel == x;
        assert edges[i].rel == x;
      }
    }
  }

  /** The labels and relationship types of an input, in reading order. */
  ghost function Mentions(nodes: seq<BulkNode>, edges: seq<BulkEdge>): seq<Utf8> {
    seq(|nodes|, i requires 0 <= i < |nodes| => nodes[i].name) + seq(|edges|, i requires 0 <= i < |edges| => edges[i].rel)
  }

  /** `x` is mentioned before `y` ever is. */
  ghost predicate Sooner(all: seq<Utf8>, x: Utf8, y: Utf8) { exists p :: 0 <= p < |all| && all[p] == x && y !in all[..p] }

  lemma SoonerStill(all: seq<Utf8>, z: Utf8, x: Utf8, y: Utf8)
    ensures Sooner(all, x, y) ==> Sooner(all + [z], x, y)
    ensures x in all && y !in all ==> Sooner(all + [z], x, y)
  {
    if Sooner(all, x, y) || (x in all && y !in all) {
      var p :| 0 <= p < |all| && all[p] == x && y !in all[..p];
      assert (all + [z])[p] == x && (all + [z])[..p] == all[..p];
    }
  }

  /** The table holds what is mentioned; of two names, the one listed first was mentioned sooner. */
  ghost predicate FirstSeenFirst(names: seq<Utf8>, all: seq<Utf8>) {
    && (forall x :: x in names <==> x in all)
    && (forall i, j :: 0 <= i < j < |names| ==> Sooner(all, names[i], names[j]))
  }

  lemma SeenNext(names: seq<Utf8>, all: seq<Utf8>, x: Utf8)
    requires FirstSeenFirst(names, all)
    ensures FirstSeenFirst(Intern(names, x), all + [x])
  {
    hide Sooner;
    var after, more := Intern(names, x), all + [x];
    InternAdds(names, x);
    forall y ensures y in after <==> y in more { }
    forall i, j | 0 <= i < j < |after| ensures Sooner(more, after[i], after[j]) {
      assert after[i] == names[i] && names[i] in all;
      SoonerStill(all, x, after[i], after[j]);
      if j < |names| { assert after[j] == names[j]; }
    }
  }

  lemma {:induction false} NamesInOrder(nodes: seq<BulkNode>, edges: seq<BulkEdge>)
    ensures FirstSeenFirst(NamesOf(nodes, edges), Mentions(nodes, edges))
    decreases |nodes| + |edges|
  {
    hide FirstSeenFirst, Intern;
    if edges != [] {
      var n := |edges| - 1;
      NamesInOrder(nodes, edges[..n]);
      SeenNext(NamesOf(nodes, edges[..n]), Mentions(nodes, edges[..n]), edges[n].rel);
      assert Mentions(nodes, edges) == Mentions(nodes, edges[..n]) + [edges[n].rel];
    } else if nodes != [] {
      var n := |nodes| - 1;
      NamesInOrder(nodes[..n], []);
      SeenNext(NodeNames(nodes[..n]), Mentions(nodes[..n], []), nodes[n].name);
      assert Mentions(nodes, edges) == Mentions(nodes[..n], []) + [nodes[n].name];
    } else {
      NoneSeen();
    }
  }

  lemma NoneSeen()
    ensures FirstSeenFirst(NamesOf([], []), Mentions([], []))
  {
  }

  /** `build_label_interner`: node labels first, then relationship types. */
  method BuildNames(nodes: seq<BulkNode>, edges: seq<BulkEdge>) returns (names: seq<Utf8>)
    ensures names == NamesOf(nodes, edges) && Interned(names, nodes, edges)
    ensures FirstSeenFirst(names, Mentions(nodes, edges))
  {
    hide FirstSeenFirst;
    var interner := new LabelInterner();
    for i := 0 to |nodes|
      invariant fresh(interner) && interner.Valid() && interner.i2s == NodeNames(nodes[..i])
    {
      assert nodes[..i + 1][..i] == nodes[..i];
      var _ := interner.GetOrCreate(nodes[i].name);
    }
    assert nodes[..|nodes|] == nodes;
    for i := 0 to |edges|
      invariant fresh(interner) && interner.Valid() && interner.i2s == NamesOf(nodes, edges[..i])
    {
      assert edges[..i + 1][..i] == edges[..i];
      var _ := interner.GetOrCreate(edges[i].rel);
    }
    assert edges[..|edges|] == edges;
    NamesInterned(nodes, edges);
    NamesInOrder(nodes, edges);
    names := interner.i2s;
  }

  // ---- Node ids --------------------------------------------------------------------------------------

  /** Each node with its position as internal id. */
  function CreatedOf(nodes: seq<BulkNode>, names: seq<Utf8>): (created: seq<Created>)
    requires |nodes| <= U32_MAX && |names| <= U32_MAX && forall i :: 0 <= i < |nodes| ==> nodes[i].name in names
    ensures |created| == |nodes|
    ensures forall i :: 0 <= i < |nodes| ==> created[i] == Created(nodes[i].externalId, IndexOf(names, nodes[i].name), i)
  {
    seq(|nodes|, i requires 0 <= i < |nodes| => Created(nodes[i].externalId, IndexOf(names, nodes[i].name), i))
  }

  /** The record of each node, in input order. */
  function RecordsOf(nodes: seq<BulkNode>, names: seq<Utf8>): (rs: seq<I2eRecord>)
    requires |nodes| <= U32_MAX && |names| <= U32_MAX && forall i :: 0 <= i < |nodes| ==> nodes[i].name in names
    ensures |rs| == |nodes|
    ensures forall i :: 0 <= i < |nodes| ==>
              rs[i].externalId == nodes[i].externalId && rs[i].labelId < |names| && names[rs[i].labelId] == nodes[i].name && rs[i].flags == 0
  {
    NewRecords(CreatedOf(nodes, names))
  }

  lemma CreatedReserved(nodes: seq<BulkNode>, names: seq<Utf8>)
    requires |nodes| <= U32_MAX && |names| <= U32_MAX && UniqueIds(nodes) && forall i :: 0 <= i < |nodes| ==> nodes[i].name in names
    ensures Reserved(NoIds, CreatedOf(nodes, names))
  {
    hide IndexOf;
  }

  /** The id map finds each node at its position. */
  ghost predicate AtPositions(ids: Ids, nodes: seq<BulkNode>) {
    forall k :: 0 <= k < |nodes| ==> nodes[k].externalId in ids.e2i && ids.e2i[nodes[k].externalId] == k
  }

  lemma WrittenPositions(ids: Ids, nodes: seq<BulkNode>, names: seq<Utf8>)
    requires |nodes| <= U32_MAX && |names| <= U32_MAX && UniqueIds(nodes) && forall i :: 0 <= i < |nodes| ==> nodes[i].name in names
    requires Wrote(NoIds, CreatedOf(nodes, names), [], ids) || Wrote(NoIds, CreatedOf(nodes, names), CreateRecords(CreatedOf(nodes, names)), ids)
    ensures ids.i2e == RecordsOf(nodes, names) && AtPositions(ids, nodes)
  {
    hide IndexOf, Relabel;
    var rs := RecordsOf(nodes, names);
    assert [] + rs == rs;
    forall k | 0 <= k < |nodes| ensures nodes[k].externalId in ids.e2i && ids.e2i[nodes[k].externalId] == k {
      var x := nodes[k].externalId;
      assert rs[k].externalId == x;
      if x == 0 { assert ZeroBetween(rs, 0, |rs|); }
      assert rs[ids.e2i[x]].externalId == x;
    }
  }

  // ---- The pages of the id map -----------------------------------------------------------------------

  function IdPageCount(n: nat): nat { (n + I2E_RECORDS_PER_PAGE - 1) / I2E_RECORDS_PER_PAGE }

  lemma CountOneMore(n: nat)
    ensures var page := n / I2E_RECORDS_PER_PAGE;
            if page == IdPageCount(n) then IdPageCount(n + 1) == IdPageCount(n) + 1
            else page == IdPageCount(n) - 1 && IdPageCount(n + 1) == IdPageCount(n)
  {
  }

  lemma {:induction false} IdPagesSize(start: nat, n: nat)
    ensures |IdPages(start, 0, n)| == IdPageCount(n) && forall p :: p in IdPages(start, 0, n) <==> start <= p < start + IdPageCount(n)
  {
    if n == 0 {
      assert IdPages(start, 0, 0) == {};
    } else {
      IdPagesSize(start, n - 1);
      CountOneMore(n - 1);
      var before, p := IdPages(start, 0, n - 1), PageOf(start, n - 1);
      assert IdPages(start, 0, n) == before + {p};
      if p in before { assert before + {p} == before; }
    }
  }

  /** In a new file there is room for `n` records exactly when their pages fit the bitmap. */
  lemma NewFileRoom(n: nat)
    ensures RoomFor(None, {0, 1}, 0, n) <==> 2 + IdPageCount(n) <= BITMAP_BITS
  {
    if n > 0 {
      assert LeastFree({0, 1}, 2);
      forall p | LeastFree({0, 1}, p) ensures p == 2 { LeastFreeUnique({0, 1}, p, 2); }
      assert PageOf(2, n - 1) == 1 + IdPageCount(n);
      forall i | 0 <= i < n ensures 2 <= PageOf(2, i) <= PageOf(2, n - 1) { }
    }
  }

  lemma NewFileGrew(pages: seq<Page>, pages': seq<Page>, live': set<nat>, start: Option<u64>, n: nat)
    requires Grew(pages, {0, 1}, pages', live', start, 0, n) && (start.Some? ==> start.value == 2)
    ensures |live'| == 2 + IdPageCount(n)
  {
    if start.Some? {
      IdPagesSize(2, n);
      assert {0, 1} !! IdPages(2, 0, n);
      assert |{0, 1} + IdPages(2, 0, n)| == |{0, 1}| + |IdPages(2, 0, n)|;
    }
  }

  /** `build_idmap_and_labels`: internal ids are input positions; it fails exactly when the records need too many pages. */
  method BuildIdMap(pager: Pager, nodes: seq<BulkNode>, names: seq<Utf8>) returns (r: Result<IdMap>)
    requires pager.Valid() && pager.meta.i2eStartPageId == 0 && pager.meta.i2eLen == 0 && pager.live == {0, 1}
    requires UniqueIds(nodes) && |nodes| <= U32_MAX && |names| <= U32_MAX
    requires forall i :: 0 <= i < |nodes| ==> nodes[i].name in names
    modifies pager, pager.bits
    ensures pager.Valid() && (r.Ok? <==> 2 + IdPageCount(|nodes|) <= BITMAP_BITS)
    ensures r.Ok? ==> fresh(r.value) && r.value.Valid(pager) && |pager.live| == 2 + IdPageCount(|nodes|)
    ensures r.Ok? ==> r.value.i2e == RecordsOf(nodes, names) && AtPositions(r.value.Contents(), nodes)
  {
    hide Maps, EncodeMeta, OnDisk, Kept, RecordsOf, IndexOf, UniqueIds, Indexed, PageOf, RoomFor, Grew, ReplayOps, Reserved, IdPageCount, Wrote;
    var ids := new IdMap([], None, 0);
    assert ids.Contents() == NoIds by { NothingLoaded([]); }
    var created := CreatedOf(nodes, names);
    CreatedReserved(nodes, names);
    NewFileRoom(|nodes|);
    ghost var pages := pager.pages;
    var done := ids.ApplyCreations(pager, created);
    if done.Err? { return Err(done.error); }
    assert CreateRecords(created) + [] == CreateRecords(created);
    WritesApply(NoIds, created, []) by { NoIdsFind(); }
    WrittenPositions(ids.Contents(), nodes, names);
    assert ids.i2eStart.Some? ==> ids.i2eStart.value == 2 by {
      assert LeastFree({0, 1}, 2);
      if ids.i2eStart.Some? { LeastFreeUnique({0, 1}, 2, ids.i2eStart.value); }
    }
    NewFileGrew(pages, pager.pages, pager.live, ids.i2eStart, |nodes|);
    r := Ok(ids);
  }

  lemma NoIdsFind()
    ensures Finds(NoIds) && Unique(NoIds.i2e)
  {
  }

  // ---- Edges ----------------------------------------------------------------------------------------

  function Position(nodes: seq<BulkNode>, ext: u64): (i: nat)
    requires Known(nodes, ext)
    ensures i < |nodes| && nodes[i].externalId == ext
  {
    if nodes[0].externalId == ext then 0
    else
      assert Known(nodes[1..], ext) by {
        var i :| 0 <= i < |nodes| && nodes[i].externalId == ext;
        assert nodes[1..][i - 1].externalId == ext;
      }
      1 + Position(nodes[1..], ext)
  }

  /** The input edges with endpoints replaced by positions and types by label ids. */
  function KeysOf(nodes: seq<BulkNode>, edges: seq<BulkEdge>, names: seq<Utf8>): (keys: seq<EdgeKey>)
    requires |nodes| <= U32_MAX && |names| <= U32_MAX
    requires forall i :: 0 <= i < |edges| ==> Known(nodes, edges[i].src) && Known(nodes, edges[i].dst) && edges[i].rel in names
    ensures |keys| == |edges|
    ensures forall i :: 0 <= i < |edges| ==> Resolves(nodes, names, edges[i], keys[i])
  {
    seq(|edges|, i requires 0 <= i < |edges| =>
      EdgeKey(Position(nodes, edges[i].src), IndexOf(names, edges[i].rel), Position(nodes, edges[i].dst)))
  }

  /** `k` is the input edge with its endpoints and relationship type replaced by ids. */
  ghost predicate Resolves(nodes: seq<BulkNode>, names: seq<Utf8>, e: BulkEdge, k: EdgeKey) {
    && k.src < |nodes| && nodes[k.src].externalId == e.src
    && k.dst < |nodes| && nodes[k.dst].externalId == e.dst
    && k.rel < |names| && names[k.rel] == e.rel
  }

  /** Ids determine the edge and are determined by it. */
  lemma ResolvesUnique(nodes: seq<BulkNode>, names: seq<Utf8>, e: BulkEdge, k: EdgeKey, l: EdgeKey)
    requires UniqueIds(nodes) && Distinct(names) && Resolves(nodes, names, e, k)
    ensures Resolves(nodes, names, e, l) <==> k == l
  {
  }

  /** The edge list of `build_segments`, before it is sorted. */
  method ResolveEdges(nodes: seq<BulkNode>, edges: seq<BulkEdge>, names: seq<Utf8>,
                      e2i: map<u64, u32>) returns (keys: seq<EdgeKey>)
    requires |nodes| <= U32_MAX && |names| <= U32_MAX && ValidInput(nodes, edges) && Interned(names, nodes, edges)
    requires forall k :: 0 <= k < |nodes| ==> nodes[k].externalId in e2i && e2i[nodes[k].externalId] == k
    ensures keys == KeysOf(nodes, edges, names)
  {
    hide ValidInput, Interned, KeysOf, IndexOf;
    InputMeans(nodes, edges, names);
    keys := [];
    ghost var want := KeysOf(nodes, edges, names);
    for i := 0 to |edges|
      invariant keys == want[..i]
    {
      assert Known(nodes, edges[i].src) && Known(nodes, edges[i].dst);
      KeyAt(nodes, edges, names, e2i, i);
      keys := keys + [EdgeKey(e2i[edges[i].src], IndexOf(names, edges[i].rel), e2i[edges[i].dst])];
    }
  }

  lemma InputMeans(nodes: seq<BulkNode>, edges: seq<BulkEdge>, names: seq<Utf8>)
    requires ValidInput(nodes, edges) && Interned(names, nodes, edges)
    ensures forall i :: 0 <= i < |edges| ==> Known(nodes, edges[i].src) && Known(nodes, edges[i].dst) && edges[i].rel in names
  {
    hide Known, Distinct, UniqueIds;
  }

  lemma KeyAt(nodes: seq<BulkNode>, edges: seq<BulkEdge>, names: seq<Utf8>, e2i: map<u64, u32>, i: nat)
    requires |nodes| <= U32_MAX && |names| <= U32_MAX && i < |edges|
    requires forall k :: 0 <= k < |edges| ==> Known(nodes, edges[k].src) && Known(nodes, edges[k].dst) && edges[k].rel in names
    requires forall k :: 0 <= k < |nodes| ==> nodes[k].externalId in e2i && e2i[nodes[k].externalId] == k
    ensures edges[i].src in e2i && edges[i].dst in e2i
    ensures KeysOf(nodes, edges, names)[i] == EdgeKey(e2i[edges[i].src], IndexOf(names, edges[i].rel), e2i[edges[i].dst])
  {
    hide IndexOf, Position, Known, Resolves;
    var s, d := Position(nodes, edges[i].src), Position(nodes, edges[i].dst);
    assert nodes[s].externalId == edges[i].src && nodes[d].externalId == edges[i].dst;
  }

  // ---- Commit and reopen --------------------------------------------------------------------------

  /** Names short enough to log at all, and short enough to be read back. */
  ghost predicate AllLoggable(nodes: seq<BulkNode>, edges: seq<BulkEdge>) {
    && (forall i :: 0 <= i < |nodes| ==> |nodes[i].name| + 9 <= U32_MAX) && (forall i :: 0 <= i < |edges| ==> |edges[i].rel| + 9 <= U32_MAX)
  }

  ghost predicate AllFit(nodes: seq<BulkNode>, edges: seq<BulkEdge>) {
    && (forall i :: 0 <= i < |nodes| ==> NameFits(nodes[i].name)) && (forall i :: 0 <= i < |edges| ==> NameFits(edges[i].rel))
  }

  lemma NamesFitIff(names: seq<Utf8>, nodes: seq<BulkNode>, edges: seq<BulkEdge>)
    requires Interned(names, nodes, edges)
    ensures AllFit(nodes, edges) <==> forall i :: 0 <= i < |names| ==> NameFits(names[i])
    ensures AllLoggable(nodes, edges) ==> forall i :: 0 <= i < |names| ==> |names[i]| + 9 <= U32_MAX
  {
    hide NameFits, Distinct;
    forall i | 0 <= i < |names|
      ensures AllFit(nodes, edges) ==> NameFits(names[i])
      ensures AllLoggable(nodes, edges) ==> |names[i]| + 9 <= U32_MAX
    {
      assert names[i] in names;
    }
    if forall i :: 0 <= i < |names| ==> NameFits(names[i]) {
      forall i | 0 <= i < |nodes| ensures NameFits(nodes[i].name) { assert nodes[i].name in names; }
      forall i | 0 <= i < |edges| ensures NameFits(edges[i].rel) { assert edges[i].rel in names; }
    }
  }

  /** The view a bulk load leaves. */
  function LoadedView(seg: Segment, names: seq<Utf8>, propertiesRoot: u64, statsRoot: u64): View {
    View([], [seg], names, 0, propertiesRoot, statsRoot)
  }

  lemma DefinitionLoggable(name: Utf8, id: u32)
    requires |name| + 9 <= U32_MAX
    ensures Appendable(CreateLabel(name, id)) && (Storable(CreateLabel(name, id)) <==> NameFits(name))
  {
    assert |EncodeBody(CreateLabel(name, id))| == 9 + |name|;
  }

  lemma SnapshotLoggable(v: View)
    requires |v.labels| <= U32_MAX && |v.segments| <= MAX_SEGMENTS && forall i :: 0 <= i < |v.labels| ==> |v.labels[i]| + 9 <= U32_MAX
    ensures LoggableTx(RewriteTx(0, 0, v))
    ensures ReadableTx(RewriteTx(0, 0, v)) <==> forall i :: 0 <= i < |v.labels| ==> NameFits(v.labels[i])
  {
    hide Storable, Appendable, NameFits;
    var defs, tail := Definitions(v.labels, 0), CompactTx(0, 0, v).ops;
    CompactTxReadable(0, 0, v);
    forall i | 0 <= i < |defs| ensures Appendable(defs[i]) && (Storable(defs[i]) <==> NameFits(v.labels[i])) {
      DefinitionLoggable(v.labels[i], i);
    }
    forall i | 0 <= i < |defs| + |tail| ensures Appendable((defs + tail)[i]) { }
    if ReadableTx(RewriteTx(0, 0, v)) {
      forall i | 0 <= i < |defs| ensures Storable(defs[i]) { assert RewriteTx(0, 0, v).ops[i] == defs[i]; }
    }
  }

  /** `initialize_wal`: labels, manifest and checkpoint in transaction 0. A name the reader refuses makes the log unreadable. */
  method InitializeWal(seg: Segment, names: seq<Utf8>, propertiesRoot: u64, statsRoot: u64) returns (file: seq<byte>)
    requires Distinct(names) && |names| <= U32_MAX && forall i :: 0 <= i < |names| ==> |names[i]| + 9 <= U32_MAX
    ensures (forall i :: 0 <= i < |names| ==> NameFits(names[i])) ==>
              ReplayCommitted(file) == Ok([RewriteTx(0, 0, LoadedView(seg, names, propertiesRoot, statsRoot))])
    ensures !(forall i :: 0 <= i < |names| ==> NameFits(names[i])) ==> ReplayCommitted(file).Err?
  {
    hide RewriteTx, ReadableTx, LoggableTx, TxBytes, ReplayCommitted, NameFits, Distinct, Carries, TxRecords;
    var view := LoadedView(seg, names, propertiesRoot, statsRoot);
    SnapshotLoggable(view);
    var tx := RewriteTx(0, 0, view);
    var wal := new Wal.Open([]);
    EmptyCarries();
    wal.AppendDurably(tx, [], []);
    file := wal.file;
    assert [] + [tx] == [tx];
  }

  /** Opening this log on these pages gives the loaded view and the id map with these records. */
  ghost predicate OpensLoaded(pages: seq<Page>, live: set<nat>, meta: Meta, v: View, records: seq<I2eRecord>)
    requires |v.labels| <= U32_MAX && |records| <= U32_MAX
  {
    var log := [RewriteTx(0, 0, v)];
    && Opens(log, pages, live, meta) && Recovered(log, pages, live) == Ok(v)
    && RecoveredNodes(log, pages, live, meta) == Ok(Loaded(records))
  }

  lemma SingleHeld(seg: Segment)
    ensures Held(map[seg.metaPageId := seg], [seg])
  {
  }

  lemma LoadedOpens(pages: seq<Page>, live: set<nat>, meta: Meta, seg: Segment, names: seq<Utf8>, p: u64, s: u64, records: seq<I2eRecord>)
    requires Distinct(names) && |names| <= U32_MAX && |records| <= U32_MAX
    requires LoadSegment(pages, live, seg.metaPageId) == Ok(seg)
    requires StoredRecords(pages, live, meta) == Ok(records) && meta.i2eLen == |records|
    ensures OpensLoaded(pages, live, meta, LoadedView(seg, names, p, s), records)
  {
    hide RewriteTx, ScanState, RunsOf, ReplayLabels, LoadListed, LoadSegment, StoredRecords, Indexed, Distinct, NodePart, Held;
    var v := LoadedView(seg, names, p, s);
    var tx, store := RewriteTx(0, 0, v), map[seg.metaPageId := seg];
    SingleHeld(seg);
    SnapshotRecovers(store, v, 0, 0);
    RecoversIff([tx], store, v, pages, live);
    assert AllLoad(pages, live, v.segments);
    RewriteHasNoNodes(0, 0, v);
    NothingRewritten(tx, records);
    assert ReplayOps(Loaded(records), []) == Ok(Loaded(records));
    RoomForNone(StartOf(meta), live, |records|);
  }

  // ---- What readers of the new store see ---------------------------------------------------------------

  /** Every node is found by its external id at its position with its label; external id 0 is the exception. */
  ghost predicate FindsNodes(ids: Ids, nodes: seq<BulkNode>, names: seq<Utf8>) {
    |ids.i2l| == |nodes| && forall i :: 0 <= i < |nodes| ==> FoundAt(ids, nodes, names, i)
  }

  ghost predicate FoundAt(ids: Ids, nodes: seq<BulkNode>, names: seq<Utf8>, i: nat)
    requires i < |nodes| == |ids.i2l|
  {
    && (nodes[i].externalId in ids.e2i <==> nodes[i].externalId != 0)
    && (nodes[i].externalId != 0 ==> ids.e2i[nodes[i].externalId] == i)
    && (exists l: u32 :: l < |names| && ids.i2l[i] == [l] && names[l] == nodes[i].name)
  }

  /** A loaded id map finds every node by its external id, except id 0. */
  lemma LoadedFinds(nodes: seq<BulkNode>, names: seq<Utf8>)
    requires |nodes| <= U32_MAX && |names| <= U32_MAX && UniqueIds(nodes)
    requires forall k :: 0 <= k < |nodes| ==> nodes[k].name in names
    ensures FindsNodes(Loaded(RecordsOf(nodes, names)), nodes, names)
  {
    hide Indexed, RecordsOf, Finds, Unique;
    var rs := RecordsOf(nodes, names);
    RecordsUnique(nodes, names);
    IndexedFinds(rs);
    forall i | 0 <= i < |nodes| ensures FoundAt(Loaded(rs), nodes, names, i) { OneFound(rs, nodes, names, i); }
  }

  lemma RecordsUnique(nodes: seq<BulkNode>, names: seq<Utf8>)
    requires |nodes| <= U32_MAX && |names| <= U32_MAX && UniqueIds(nodes)
    requires forall k :: 0 <= k < |nodes| ==> nodes[k].name in names
    ensures Unique(RecordsOf(nodes, names))
  {
    hide RecordsOf;
    var rs := RecordsOf(nodes, names);
    forall i, j | 0 <= i < j < |rs| ensures rs[i].externalId != rs[j].externalId {
      assert nodes[i].externalId != nodes[j].externalId;
    }
  }

  lemma OneFound(rs: seq<I2eRecord>, nodes: seq<BulkNode>, names: seq<Utf8>, i: nat)
    requires |rs| == |nodes| <= U32_MAX && i < |nodes| && Finds(Loaded(rs)) && 0 !in Loaded(rs).e2i
    requires rs[i].externalId == nodes[i].externalId && rs[i].labelId < |names| && names[rs[i].labelId] == nodes[i].name
    ensures FoundAt(Loaded(rs), nodes, names, i)
  {
    hide Indexed;
    assert Loaded(rs).i2l[i] == [rs[i].labelId];
  }

  /** The edge is one from the node, or into it, of the type if one is asked for. */
  predicate Wants(q: Query, e: EdgeKey) {
    && q.node == (match q.dir case Outgoing => e.src case Incoming => e.dst)
    && (match q.rel case Some(t) => e.rel == t case None => true)
  }

  /** Every scan, in either direction, returns exactly the edges asked for; it panics only without edges, into node 0. */
  ghost predicate ScansEdges(seg: Segment, keys: seq<EdgeKey>) {
    forall q: Query ::
      && (Served([], [seg], q) <==> !(keys == [] && q.dir.Incoming? && q.node == 0))
      && (Served([], [seg], q) ==> forall e: EdgeKey :: ScanCount(seg, q, e) == if Wants(q, e) then multiset(keys)[e] else 0)
  }

  ghost function ScanCount(seg: Segment, q: Query, e: EdgeKey): nat
    requires Served([], [seg], q)
  {
    multiset(Neighbors.Scan([], [seg], q))[e]
  }

  lemma LoadedScan(seg: Segment, keys: seq<EdgeKey>, q: Query, e: EdgeKey)
    requires Stores(seg, multiset(keys))
    ensures Served([], [seg], q) <==> !(keys == [] && q.dir.Incoming? && q.node == 0)
    ensures Served([], [seg], q) ==> ScanCount(seg, q, e) == if Wants(q, e) then multiset(keys)[e] else 0
  {
    hide Stores, Lookup, Neighbors.Scan;
    StoredLookup(seg, multiset(keys), q.dir, q.node, q.rel);
    assert multiset(keys) == multiset{} <==> keys == [] by { assert keys != [] ==> keys[0] in multiset(keys); }
    assert Served([], [seg], q) <==> SegmentEdges([seg][0], q).Some?;
    if Served([], [seg], q) {
      var none: seq<Run>, stored := [], [multiset(keys)];
      ScanCounts(none, [seg], stored, q, e);
      assert stored[1..] == [] && Total(stored, e) == multiset(keys)[e];
      assert !HiddenBy(none, |none|, e) && RunsShow(none, 0, q.dir, e) == 0;
    }
  }

  lemma LoadedScans(seg: Segment, keys: seq<EdgeKey>)
    requires Stores(seg, multiset(keys))
    ensures ScansEdges(seg, keys)
  {
    hide Stores, Served, ScanCount;
    forall q: Query
      ensures Served([], [seg], q) <==> !(keys == [] && q.dir.Incoming? && q.node == 0)
      ensures Served([], [seg], q) ==> forall e: EdgeKey :: ScanCount(seg, q, e) == if Wants(q, e) then multiset(keys)[e] else 0
    {
      LoadedScan(seg, keys, q, EdgeKey(0, 0, 0));
      forall e: EdgeKey ensures Served([], [seg], q) ==> ScanCount(seg, q, e) == if Wants(q, e) then multiset(keys)[e] else 0 {
        LoadedScan(seg, keys, q, e);
      }
    }
  }

  /** Copies of an edge between ids among the input edges; ids outside the input stand for none. */
  ghost function InputCopies(nodes: seq<BulkNode>, edges: seq<BulkEdge>, names: seq<Utf8>, e: EdgeKey): nat {
    if e.src < |nodes| && e.rel < |names| && e.dst < |nodes| then
      multiset(edges)[BulkEdge(nodes[e.src].externalId, names[e.rel], nodes[e.dst].externalId)]
    else 0
  }

  lemma {:induction false} KeysCount(nodes: seq<BulkNode>, edges: seq<BulkEdge>, names: seq<Utf8>, e: EdgeKey)
    requires |nodes| <= U32_MAX && |names| <= U32_MAX && UniqueIds(nodes) && Distinct(names)
    requires forall i :: 0 <= i < |edges| ==> Known(nodes, edges[i].src) && Known(nodes, edges[i].dst) && edges[i].rel in names
    ensures multiset(KeysOf(nodes, edges, names))[e] == InputCopies(nodes, edges, names, e)
    decreases |edges|
  {
    hide KeysOf, Known, UniqueIds, Distinct, Resolves;
    var keys := KeysOf(nodes, edges, names);
    if edges == [] {
      assert keys == [];
    } else {
      var n := |edges| - 1;
      KeysCount(nodes, edges[..n], names, e);
      KeysSnoc(nodes, edges, names);
      assert edges == edges[..n] + [edges[n]];
      assert Resolves(nodes, names, edges[n], keys[n]);
      LastKey(nodes, names, edges[n], keys[n], e);
    }
  }

  lemma KeysSnoc(nodes: seq<BulkNode>, edges: seq<BulkEdge>, names: seq<Utf8>)
    requires |nodes| <= U32_MAX && |names| <= U32_MAX && edges != []
    requires forall i :: 0 <= i < |edges| ==> Known(nodes, edges[i].src) && Known(nodes, edges[i].dst) && edges[i].rel in names
    ensures var n, keys := |edges| - 1, KeysOf(nodes, edges, names); keys == KeysOf(nodes, edges[..n], names) + [keys[n]]
  {
    hide Position, IndexOf, Known, Resolves;
  }

  lemma LastKey(nodes: seq<BulkNode>, names: seq<Utf8>, input: BulkEdge, k: EdgeKey, e: EdgeKey)
    requires UniqueIds(nodes) && Distinct(names) && Resolves(nodes, names, input, k)
    ensures k == e <==> e.src < |nodes| && e.rel < |names| && e.dst < |nodes|
                        && input == BulkEdge(nodes[e.src].externalId, names[e.rel], nodes[e.dst].externalId)
  {
  }

  /** Every query of the new store returns exactly the input edges between the nodes and of the type its ids stand for. */
  ghost predicate ServesInput(seg: Segment, nodes: seq<BulkNode>, edges: seq<BulkEdge>, names: seq<Utf8>) {
    forall e: EdgeKey ::
      && Served([], [seg], Query(Outgoing, e.src, None)) && Served([], [seg], Query(Outgoing, e.src, Some(e.rel)))
      && ScanCount(seg, Query(Outgoing, e.src, None), e) == InputCopies(nodes, edges, names, e)
      && ScanCount(seg, Query(Outgoing, e.src, Some(e.rel)), e) == InputCopies(nodes, edges, names, e)
      && (edges != [] ==>
            && Served([], [seg], Query(Incoming, e.dst, None)) && Served([], [seg], Query(Incoming, e.dst, Some(e.rel)))
            && ScanCount(seg, Query(Incoming, e.dst, None), e) == InputCopies(nodes, edges, names, e)
            && ScanCount(seg, Query(Incoming, e.dst, Some(e.rel)), e) == InputCopies(nodes, edges, names, e))
  }

  lemma LoadedServes(seg: Segment, nodes: seq<BulkNode>, edges: seq<BulkEdge>, names: seq<Utf8>)
    requires |nodes| <= U32_MAX && |names| <= U32_MAX && UniqueIds(nodes) && Distinct(names)
    requires forall i :: 0 <= i < |edges| ==> Known(nodes, edges[i].src) && Known(nodes, edges[i].dst) && edges[i].rel in names
    requires Stores(seg, multiset(KeysOf(nodes, edges, names)))
    ensures ServesInput(seg, nodes, edges, names)
  {
    hide Stores, KeysOf, Served, ScanCount, InputCopies, UniqueIds, Distinct, Known;
    var keys := KeysOf(nodes, edges, names);
    LoadedScans(seg, keys);
    forall e: EdgeKey ensures multiset(keys)[e] == InputCopies(nodes, edges, names, e) { KeysCount(nodes, edges, names, e); }
  }

  // ---- The whole load --------------------------------------------------------------------------------------

  /** The page ids of the segment fit its meta page, and all pages fit the bitmap. */
  ghost predicate LoadFits(nodes: seq<BulkNode>, keys: seq<EdgeKey>, stats: seq<byte>) {
    && 80 + 8 * EdgePages(multiset(keys)) <= PAGE_SIZE
    && 2 + IdPageCount(|nodes|) + EdgePages(multiset(keys)) + 1 + 1 + ChunkCount(|stats|) <= BITMAP_BITS
  }

  /** Segment, property tree and statistics, one after the other on free pages. */
  method WriteSegment(pager: Pager, keys: seq<EdgeKey>, emptyTree: Page, stats: seq<byte>) returns (r: Result<(Segment, u64, u64)>)
    requires pager.Valid() && !IntoLast(keys)
    modifies pager, pager.bits
    ensures pager.Valid() && Untouched(old(pager.pages), old(pager.live), pager.pages, pager.live) && SameButNext(old(pager.meta), pager.meta)
    ensures r.Ok? <==> && 80 + 8 * EdgePages(multiset(keys)) <= PAGE_SIZE
                       && |old(pager.live)| + EdgePages(multiset(keys)) + 1 + 1 + ChunkCount(|stats|) <= BITMAP_BITS
    ensures r.Ok? ==> Stores(r.value.0, multiset(keys)) && LoadSegment(pager.pages, pager.live, r.value.0.metaPageId) == Ok(r.value.0)
    ensures r.Ok? ==> ReadPage(pager.pages, pager.live, r.value.1) == Ok(emptyTree)
    ensures r.Ok? ==> Blob(pager.pages, pager.live, r.value.2) == Finished(Ok(stats))
  {
    hide Maps, EncodeMeta, Stores, Blob, ChunkCount, EdgePages, Untouched, Footprint, LoadSegment, Chain, Grown, LeastFree, ReadPage, Sort;
    ghost var pages, live := pager.pages, pager.live;
    var sorted := Sort(keys, EdgeLe);
    if IntoLast(sorted) { IntoLastPermuted(sorted, keys); }
    var built := PersistEdges(pager, 0, sorted);
    if built.Err? { return Err(built.error); }
    ghost var aPages, aLive := pager.pages, pager.live;
    var tree := PutFresh(pager, emptyTree);
    UntouchedTrans(pages, live, aPages, aLive, pager.pages, pager.live);
    if tree.Err? { return Err(tree.error); }
    LoadUntouched(aPages, aLive, pager.pages, pager.live, built.value.metaPageId);
    ghost var bPages, bLive := pager.pages, pager.live;
    var root, chain := WriteDirect(pager, stats);
    UntouchedTrans(pages, live, bPages, bLive, pager.pages, pager.live);
    if root.Err? { return Err(root.error); }
    LoadUntouched(bPages, bLive, pager.pages, pager.live, built.value.metaPageId);
    PageUntouched(bPages, bLive, pager.pages, pager.live, tree.value);
    r := Ok((built.value, tree.value, root.value));
  }

  lemma PageUntouched(a: seq<Page>, la: set<nat>, b: seq<Page>, lb: set<nat>, p: nat)
    requires Untouched(a, la, b, lb) && ReadPage(a, la, p).Ok?
    ensures ReadPage(b, lb, p) == ReadPage(a, la, p)
  {
  }

  /**
   * What the new store is. Opened, it has no runs and one segment, finds every node by its external id with its label,
   * answers every query with the input edges, and its roots name the property tree and the statistics.
   */
  ghost predicate Loads(pager: Pager, file: seq<byte>, nodes: seq<BulkNode>, edges: seq<BulkEdge>, emptyTree: Page, stats: seq<byte>)
    reads pager
  {
    var log := ReplayCommitted(file);
    && log.Ok? && Opens(log.value, pager.pages, pager.live, pager.meta)
    && var view := Recovered(log.value, pager.pages, pager.live).value;
       && view.runs == [] && |view.segments| == 1 && ServesInput(view.segments[0], nodes, edges, view.labels)
       && FindsNodes(RecoveredNodes(log.value, pager.pages, pager.live, pager.meta).value, nodes, view.labels)
       && ReadPage(pager.pages, pager.live, view.propertiesRoot) == Ok(emptyTree)
       && Blob(pager.pages, pager.live, view.statsRoot) == Finished(Ok(stats))
  }

  /**
   * `commit`. `emptyTree` is the page of a property tree without entries and `stats` the encoded statistics. An
   * accepted input loads exactly when the page ids of its segment fit the meta page and the pages fit the file. The new
   * store then opens, finds every node and answers every query with exactly the input edges; or, if a name is too
   * long to be read back, it does not open.
   */
  method Commit(nodes: seq<BulkNode>, edges: seq<BulkEdge>, emptyTree: Page, stats: seq<byte>)
    returns (r: Result<Pager>, file: seq<byte>)
    requires |nodes| + |edges| < U32_MAX && AllLoggable(nodes, edges)
    ensures Interned(NamesOf(nodes, edges), nodes, edges)
    ensures !ValidInput(nodes, edges) ==> r.Err?
    ensures ValidInput(nodes, edges) ==> (r.Ok? <==> LoadFits(nodes, KeysOf(nodes, edges, NamesOf(nodes, edges)), stats))
    ensures r.Ok? ==> r.value.Valid()
    ensures r.Ok? && AllFit(nodes, edges) ==> Loads(r.value, file, nodes, edges, emptyTree, stats)
    ensures r.Ok? && !AllFit(nodes, edges) ==> ReplayCommitted(file).Err?
  {
    hide Pager.Valid, LoadSegment, Stores, ReplayCommitted, NameFits, Interned, NamesOf, KeysOf, LoadFits, Loads, RecordsOf, StoredRecords,
         AllFit, ValidInput, AllLoggable, RewriteTx, Distinct, Known, Blob, ReadPage;
    NamesInterned(nodes, edges);
    InternedMeans(NamesOf(nodes, edges), nodes, edges);
    file := [];
    var ok := Validate(nodes, edges);
    if ok.Err? { r := Err(ok.error); return; }
    InputMeans(nodes, edges, NamesOf(nodes, edges));
    var names := BuildNames(nodes, edges);
    var pager := new Pager.Create();
    var built := WritePages(pager, nodes, edges, names, emptyTree, stats);
    if built.Err? { r := Err(built.error); return; }
    NamesFitIff(names, nodes, edges);
    file := InitializeWal(built.value.0, names, built.value.1, built.value.2);
    if AllFit(nodes, edges) { LoadDone(pager, file, nodes, edges, names, built.value.0, built.value.1, built.value.2, emptyTree, stats); }
    r := Ok(pager);
  }

  lemma LoadDone(pager: Pager, file: seq<byte>, nodes: seq<BulkNode>, edges: seq<BulkEdge>, names: seq<Utf8>, seg: Segment,
                 treeRoot: u64, statsRoot: u64, emptyTree: Page, stats: seq<byte>)
    requires InputKnown(nodes, edges, names) && Distinct(names) && ValidInput(nodes, edges)
    requires Stores(seg, multiset(KeysOf(nodes, edges, names))) && LoadSegment(pager.pages, pager.live, seg.metaPageId) == Ok(seg)
    requires StoredRecords(pager.pages, pager.live, pager.meta) == Ok(RecordsOf(nodes, names)) && pager.meta.i2eLen == |nodes|
    requires ReadPage(pager.pages, pager.live, treeRoot) == Ok(emptyTree) && Blob(pager.pages, pager.live, statsRoot) == Finished(Ok(stats))
    requires ReplayCommitted(file) == Ok([RewriteTx(0, 0, LoadedView(seg, names, treeRoot, statsRoot))])
    ensures Loads(pager, file, nodes, edges, emptyTree, stats)
  {
    hide LoadSegment, Stores, ReplayCommitted, KeysOf, FindsNodes, ServesInput, RecordsOf, StoredRecords, RewriteTx, Distinct, Opens, Recovered,
         RecoveredNodes, ReadPage, Blob;
    LoadedOpens(pager.pages, pager.live, pager.meta, seg, names, treeRoot, statsRoot, RecordsOf(nodes, names));
    LoadedFinds(nodes, names);
    LoadedServes(seg, nodes, edges, names);
  }

  lemma InputUnique(nodes: seq<BulkNode>, edges: seq<BulkEdge>)
    requires ValidInput(nodes, edges)
    ensures UniqueIds(nodes)
  {
  }

  /** The page half of the load: id map, segment, property tree, statistics. */
  method WritePages(pager: Pager, nodes: seq<BulkNode>, edges: seq<BulkEdge>, names: seq<Utf8>, emptyTree: Page, stats: seq<byte>)
    returns (r: Result<(Segment, u64, u64)>)
    requires pager.Valid() && pager.meta == NewMeta && pager.live == {0, 1} && |nodes| + |edges| < U32_MAX
    requires ValidInput(nodes, edges) && Interned(names, nodes, edges)
    modifies pager, pager.bits
    ensures InputKnown(nodes, edges, names) && pager.Valid() && (r.Ok? <==> LoadFits(nodes, KeysOf(nodes, edges, names), stats))
    ensures r.Ok? ==> Stores(r.value.0, multiset(KeysOf(nodes, edges, names)))
    ensures r.Ok? ==> LoadSegment(pager.pages, pager.live, r.value.0.metaPageId) == Ok(r.value.0)
    ensures r.Ok? ==> StoredRecords(pager.pages, pager.live, pager.meta) == Ok(RecordsOf(nodes, names)) && pager.meta.i2eLen == |nodes|
    ensures r.Ok? ==> ReadPage(pager.pages, pager.live, r.value.1) == Ok(emptyTree)
    ensures r.Ok? ==> Blob(pager.pages, pager.live, r.value.2) == Finished(Ok(stats))
  {
    hide Pager.Valid, IdMap.Valid, OnDisk, Untouched, LoadSegment, Stores, KeysOf, EdgePages, ChunkCount, IdPageCount, RecordsOf, StoredRecords, Blob,
         ReadPage, Interned, ValidInput;
    InternedMeans(names, nodes, edges);
    InputMeans(nodes, edges, names);
    InputUnique(nodes, edges);
    var ids := BuildIdMap(pager, nodes, names);
    if ids.Err? { return Err(ids.error); }
    var keys := ResolveEdges(nodes, edges, names, ids.value.e2i);
    KeysFit(nodes, edges, names);
    Placed(ids.value, pager, RecordsOf(nodes, names));
    ghost var pages, live, meta := pager.pages, pager.live, pager.meta;
    r := WriteSegment(pager, keys, emptyTree, stats);
    if r.Ok? { RecordsStay(pages, live, meta, pager.pages, pager.live, pager.meta); }
  }

  /** Endpoints and names of the input are known. */
  ghost predicate InputKnown(nodes: seq<BulkNode>, edges: seq<BulkEdge>, names: seq<Utf8>) {
    && |nodes| <= U32_MAX && |names| <= U32_MAX && (forall i :: 0 <= i < |nodes| ==> nodes[i].name in names)
    && forall i :: 0 <= i < |edges| ==> Known(nodes, edges[i].src) && Known(nodes, edges[i].dst) && edges[i].rel in names
  }

  lemma InternedMeans(names: seq<Utf8>, nodes: seq<BulkNode>, edges: seq<BulkEdge>)
    requires Interned(names, nodes, edges)
    ensures Distinct(names) && |names| <= |nodes| + |edges|
    ensures (forall i :: 0 <= i < |nodes| ==> nodes[i].name in names) && (forall i :: 0 <= i < |edges| ==> edges[i].rel in names)
  {
    hide Distinct;
  }

  lemma KeysFit(nodes: seq<BulkNode>, edges: seq<BulkEdge>, names: seq<Utf8>)
    requires |nodes| < U32_MAX && |names| <= U32_MAX
    requires forall i :: 0 <= i < |edges| ==> Known(nodes, edges[i].src) && Known(nodes, edges[i].dst) && edges[i].rel in names
    ensures !IntoLast(KeysOf(nodes, edges, names))
  {
    hide KeysOf;
    var keys := KeysOf(nodes, edges, names);
    forall k | 0 <= k < |keys| ensures keys[k].dst < U32_MAX { assert Resolves(nodes, names, edges[k], keys[k]); }
  }

  /** The id map's records as the page file holds them. */
  lemma Placed(ids: IdMap, pager: Pager, records: seq<I2eRecord>)
    requires ids.Valid(pager) && ids.i2e == records
    ensures StoredRecords(pager.pages, pager.live, pager.meta) == Ok(records) && pager.meta.i2eLen == |records|
  {
    hide OnDisk, ReadRecords, IdMap.Tidy;
    if ids.i2eStart.Some? {
      OnDiskReads(pager.pages, pager.live, ids.i2eStart.value, records, |records|);
      assert records[..|records|] == records;
    }
  }

  /** They survive later writes to free pages. */
  lemma RecordsStay(a: seq<Page>, la: set<nat>, m: Meta, b: seq<Page>, lb: set<nat>, m': Meta)
    requires Untouched(a, la, b, lb) && SameButNext(m, m') && StoredRecords(a, la, m).Ok?
    ensures StoredRecords(b, lb, m') == StoredRecords(a, la, m)
  {
    hide ReadRecords, Untouched;
    if m.i2eStartPageId != 0 { RecordsUntouched(a, la, b, lb, m.i2eStartPageId, m.i2eLen); }
  }

  lemma {:induction false} RecordsUntouched(a: seq<Page>, la: set<nat>, b: seq<Page>, lb: set<nat>, start: nat, n: nat)
    requires Untouched(a, la, b, lb) && ReadRecords(a, la, start, n).Ok?
    ensures ReadRecords(b, lb, start, n) == ReadRecords(a, la, start, n)
  {
    hide RecordIn, PageOf;
    if n != 0 { RecordsUntouched(a, la, b, lb, start, n - 1); }
  }
}
