/** What a store of runs and segments means, and what folding the runs into one segment does to it. */
module Compaction {
  import opened Bytes
  import opened Wrappers
  import opened Graph
  import opened Csr
  import opened Neighbors

  // ---- Edge counts behind a scan --------------------------------------------------------

  /** Hidden by the `i` newest runs: either endpoint or the edge itself is tombstoned. */
  predicate HiddenBy(runs: seq<Run>, i: nat, e: EdgeKey)
    requires i <= |runs|
  {
    e.src in DeadNodes(runs, i) || e.dst in DeadNodes(runs, i) || e in DeadEdges(runs, i)
  }

  /** Copies of `e` from run `i` that a scan in direction `dir` shows. */
  ghost function RunShows(runs: seq<Run>, i: nat, dir: Direction, e: EdgeKey): nat
    requires i < |runs|
  {
    if HiddenBy(runs, i, e) || dir.Pivot(e) in runs[i].tombstonedNodes then 0 else runs[i].Count(e)
  }

  ghost function RunsShow(runs: seq<Run>, i: nat, dir: Direction, e: EdgeKey): nat
    requires i <= |runs|
    decreases |runs| - i
  {
    if i == |runs| then 0 else RunShows(runs, i, dir, e) + RunsShow(runs, i + 1, dir, e)
  }

  /** Copies of `e` over all segments. */
  ghost function Total(stored: seq<multiset<EdgeKey>>, e: EdgeKey): nat {
    if stored == [] then 0 else stored[0][e] + Total(stored[1..], e)
  }

  /** Copies of `e` a scan shows: from the runs, and from the segments unless hidden. */
  ghost function Shown(runs: seq<Run>, stored: seq<multiset<EdgeKey>>, dir: Direction, e: EdgeKey): nat {
    RunsShow(runs, 0, dir, e) + if HiddenBy(runs, |runs|, e) then 0 else Total(stored, e)
  }

  ghost predicate AllMirrored(runs: seq<Run>) { forall i :: 0 <= i < |runs| ==> runs[i].Mirrored() }

  ghost predicate Clean(runs: seq<Run>) {
    forall i :: 0 <= i < |runs| ==> runs[i].EdgeClean() && runs[i].NodeClean()
  }

  ghost predicate AllStored(segs: seq<Segment>, stored: seq<multiset<EdgeKey>>) {
    |segs| == |stored| && forall j :: 0 <= j < |segs| ==> Stores(segs[j], stored[j])
  }

  predicate Asked(q: Query, e: EdgeKey) { q.dir.Pivot(e) == q.node && RelMatches(q.rel, e.rel) }

  lemma {:induction false} PickCounts(s: seq<EdgeKey>, q: Query, nodes: set<NodeId>, edges: set<EdgeKey>)
    ensures forall e :: multiset(Pick(s, q, nodes, edges))[e] == if Passes(q, e, nodes, edges) then multiset(s)[e] else 0
  {
    hide Passes;
    if s != [] {
      PickCounts(s[1..], q, nodes, edges);
      assert s == [s[0]] + s[1..];
    }
  }

  lemma RunBucket(run: Run, dir: Direction, n: NodeId, e: EdgeKey)
    requires run.Mirrored()
    ensures multiset(run.EdgesFor(dir, n))[e] == if dir.Pivot(e) == n then run.Count(e) else 0
  {
    assert CountIn(run.edgesBySrc, e.src, e) == CountIn(run.edgesByDst, e.dst, e);
    var m := if dir.Outgoing? then run.edgesBySrc else run.edgesByDst;
    assert CountIn(m, n, e) == multiset(run.EdgesFor(dir, n))[e];
  }

  lemma RunPartCounts(runs: seq<Run>, i: nat, q: Query, e: EdgeKey)
    requires i < |runs| && runs[i].Mirrored()
    ensures multiset(RunPart(runs, i, q))[e] == if Asked(q, e) then RunShows(runs, i, q.dir, e) else 0
  {
    PickCounts(runs[i].EdgesFor(q.dir, q.node), q, DeadNodes(runs, i), DeadEdges(runs, i));
    RunBucket(runs[i], q.dir, q.node, e);
  }

  lemma {:induction false} RunsCounts(runs: seq<Run>, i: nat, q: Query, e: EdgeKey)
    requires i <= |runs| && AllMirrored(runs)
    ensures multiset(RunsFrom(runs, i, q))[e] == if Asked(q, e) then RunsShow(runs, i, q.dir, e) else 0
    decreases |runs| - i
  {
    hide RunPart, RunShows;
    if i < |runs| {
      RunPartCounts(runs, i, q, e);
      RunsCounts(runs, i + 1, q, e);
    }
  }

  lemma {:induction false} SegsCounts(runs: seq<Run>, segs: seq<Segment>, stored: seq<multiset<EdgeKey>>,
                                      j: nat, q: Query, e: EdgeKey)
    requires j <= |segs| && NoPanic(segs, q) && AllStored(segs, stored) && q.node !in DeadNodes(runs, |runs|)
    ensures multiset(SegsFrom(runs, segs, j, q))[e]
         == if Asked(q, e) && !HiddenBy(runs, |runs|, e) then Total(stored[j..], e) else 0
    decreases |segs| - j
  {
    hide Stores, Pick, Answers;
    if j < |segs| {
      var got := SegmentEdges(segs[j], q).value;
      PickCounts(got, q.(rel := None), DeadNodes(runs, |runs|), DeadEdges(runs, |runs|));
      StoredLookup(segs[j], stored[j], q.dir, q.node, q.rel);
      AnswerCount(SegmentEdges(segs[j], q), q, stored[j], e);
      SegsCounts(runs, segs, stored, j + 1, q, e);
      assert stored[j..][1..] == stored[j + 1..];
    }
  }

  lemma AnswerCount(got: Option<seq<EdgeKey>>, q: Query, edges: multiset<EdgeKey>, e: EdgeKey)
    requires Answers(got, q.dir, q.node, q.rel, edges)
    ensures got.Some? && multiset(got.value)[e] == if Asked(q, e) then edges[e] else 0
  {
  }

  /** A scan answers its query with exactly the shown copies of each edge. */
  lemma ScanCounts(runs: seq<Run>, segs: seq<Segment>, stored: seq<multiset<EdgeKey>>, q: Query, e: EdgeKey)
    requires AllMirrored(runs) && AllStored(segs, stored) && Served(runs, segs, q)
    ensures multiset(Scan(runs, segs, q))[e] == if Asked(q, e) then Shown(runs, stored, q.dir, e) else 0
  {
    hide AllMirrored, AllStored, NoPanic, RunsFrom, SegsFrom, RunsShow, DeadNodes, DeadEdges;
    RunsCounts(runs, 0, q, e);
    assert stored[0..] == stored;
    if q.node !in DeadNodes(runs, |runs|) { SegsCounts(runs, segs, stored, 0, q, e); }
  }

  /** Copies of `e` a scan returns; none if it would panic. */
  ghost function Returned(runs: seq<Run>, segs: seq<Segment>, q: Query, e: EdgeKey): nat {
    if Served(runs, segs, q) then multiset(Scan(runs, segs, q))[e] else 0
  }

  /** What the four kinds of query return: the shown edges from a node or into it, of one type or of all. */
  lemma ScanMeans(runs: seq<Run>, segs: seq<Segment>, stored: seq<multiset<EdgeKey>>, n: NodeId, t: u32, e: EdgeKey)
    requires AllMirrored(runs) && AllStored(segs, stored)
    ensures Returned(runs, segs, Query(Outgoing, n, Some(t)), e) == if e.src == n && e.rel == t then Shown(runs, stored, Outgoing, e) else 0
    ensures Returned(runs, segs, Query(Outgoing, n, None), e) == if e.src == n then Shown(runs, stored, Outgoing, e) else 0
    ensures Served(runs, segs, Query(Incoming, n, Some(t))) ==>
              Returned(runs, segs, Query(Incoming, n, Some(t)), e) == if e.dst == n && e.rel == t then Shown(runs, stored, Incoming, e) else 0
    ensures Served(runs, segs, Query(Incoming, n, None)) ==>
              Returned(runs, segs, Query(Incoming, n, None), e) == if e.dst == n then Shown(runs, stored, Incoming, e) else 0
  {
    hide AllMirrored, AllStored, Served, Scan, Shown;
    forall dir: Direction, rel: Option<u32>
      ensures var q := Query(dir, n, rel);
              && (dir.Outgoing? ==> Served(runs, segs, q))
              && (Served(runs, segs, q) ==> Returned(runs, segs, q, e) == if Asked(q, e) then Shown(runs, stored, dir, e) else 0)
    {
      ServedIff(runs, segs, stored, Query(dir, n, rel));
      if Served(runs, segs, Query(dir, n, rel)) { ScanCounts(runs, segs, stored, Query(dir, n, rel), e); }
    }
  }

  // ---- Refinement of the abstract graph ------------------------------------------------------

  /** Copies of `e` after applying the transactions of runs `|runs|-1 .. i`, oldest first, to the
      segments: a tombstone removes every older copy, then the transaction adds its own edges. */
  ghost function Applied(runs: seq<Run>, stored: seq<multiset<EdgeKey>>, i: nat, e: EdgeKey): nat
    requires i <= |runs|
    decreases |runs| - i
  {
    if i == |runs| then Total(stored, e)
    else
      var run := runs[i];
      (if e.src in run.tombstonedNodes || e.dst in run.tombstonedNodes || e in run.tombstonedEdges then 0
       else Applied(runs, stored, i + 1, e)) + run.Count(e)
  }

  lemma {:induction false} AppliedShows(runs: seq<Run>, stored: seq<multiset<EdgeKey>>, i: nat, dir: Direction, e: EdgeKey)
    requires i <= |runs| && Clean(runs)
    ensures RunsShow(runs, i, dir, e) + (if HiddenBy(runs, |runs|, e) then 0 else Total(stored, e))
         == if HiddenBy(runs, i, e) then 0 else Applied(runs, stored, i, e)
    decreases |runs| - i
  {
    DeadMonotone(runs, i, |runs|);
    if i < |runs| {
      AppliedShows(runs, stored, i + 1, dir, e);
      var run := runs[i];
      assert HiddenBy(runs, i + 1, e) <==>
        HiddenBy(runs, i, e) || e.src in run.tombstonedNodes || e.dst in run.tombstonedNodes || e in run.tombstonedEdges;
    }
  }

  /**
   * Over clean runs the lazy newest-first merge shows exactly the graph obtained by applying the
   * transactions one after another, oldest first.
   */
  lemma ScanRefinesGraph(runs: seq<Run>, segs: seq<Segment>, stored: seq<multiset<EdgeKey>>, q: Query, e: EdgeKey)
    requires AllMirrored(runs) && Clean(runs) && AllStored(segs, stored) && Served(runs, segs, q)
    ensures multiset(Scan(runs, segs, q))[e] == if Asked(q, e) then Applied(runs, stored, 0, e) else 0
  {
    hide AllMirrored, AllStored, Served, Scan, RunsShow, Applied;
    ScanCounts(runs, segs, stored, q, e);
    AppliedShows(runs, stored, 0, q.dir, e);
  }

  // ---- Direction duality -----------------------------------------------------------------------

  /** Visible so far, and exactly one endpoint is tombstoned by the run that holds it. */
  ghost predicate Lopsided(runs: seq<Run>, i: nat, e: EdgeKey)
    requires i < |runs|
  {
    && !HiddenBy(runs, i, e) && runs[i].Count(e) > 0
    && (e.src in runs[i].tombstonedNodes) != (e.dst in runs[i].tombstonedNodes)
  }

  lemma {:induction false} HiddenStaysHidden(runs: seq<Run>, i: nat, dir: Direction, e: EdgeKey)
    requires i <= |runs| && HiddenBy(runs, i, e)
    ensures RunsShow(runs, i, dir, e) == 0
    decreases |runs| - i
  {
    if i < |runs| {
      DeadMonotone(runs, i, i + 1);
      HiddenStaysHidden(runs, i + 1, dir, e);
    }
  }

  lemma {:induction false} DualityFrom(runs: seq<Run>, i: nat, e: EdgeKey)
    requires i <= |runs|
    ensures RunsShow(runs, i, Outgoing, e) == RunsShow(runs, i, Incoming, e)
        <==> forall k :: i <= k < |runs| ==> !Lopsided(runs, k, e)
    decreases |runs| - i
  {
    if i < |runs| {
      var run := runs[i];
      assert Lopsided(runs, i, e) <==> RunShows(runs, i, Outgoing, e) != RunShows(runs, i, Incoming, e);
      if e.src in run.tombstonedNodes || e.dst in run.tombstonedNodes {
        HiddenStaysHidden(runs, i + 1, Outgoing, e);
        HiddenStaysHidden(runs, i + 1, Incoming, e);
        forall k | i < k < |runs| ensures !Lopsided(runs, k, e) { DeadMonotone(runs, i + 1, k); }
      } else {
        DualityFrom(runs, i + 1, e);
      }
    }
  }

  /** An edge has the same multiplicity in the outgoing scan of its source as in the incoming scan of
      its destination exactly when no run holds it lopsidedly. */
  lemma DirectionDuality(runs: seq<Run>, segs: seq<Segment>, stored: seq<multiset<EdgeKey>>, e: EdgeKey, rel: Option<u32>)
    requires AllMirrored(runs) && AllStored(segs, stored) && RelMatches(rel, e.rel)
    requires Served(runs, segs, Query(Outgoing, e.src, rel)) && Served(runs, segs, Query(Incoming, e.dst, rel))
    ensures multiset(Scan(runs, segs, Query(Outgoing, e.src, rel)))[e]
         == multiset(Scan(runs, segs, Query(Incoming, e.dst, rel)))[e]
        <==> forall k :: 0 <= k < |runs| ==> !Lopsided(runs, k, e)
  {
    hide AllMirrored, AllStored, Served, Scan, RunsShow;
    ScanCounts(runs, segs, stored, Query(Outgoing, e.src, rel), e);
    ScanCounts(runs, segs, stored, Query(Incoming, e.dst, rel), e);
    DualityFrom(runs, 0, e);
  }

  lemma CleanIsNotLopsided(runs: seq<Run>, e: EdgeKey)
    requires Clean(runs)
    ensures forall k :: 0 <= k < |runs| ==> !Lopsided(runs, k, e)
  {
  }

  // ---- Folding the runs ---------------------------------------------------------------------------

  /** Copies of `e` that the fold keeps from runs `i` on: its own tombstones count against a run. */
  ghost function Folded(runs: seq<Run>, i: nat, e: EdgeKey): nat
    requires i <= |runs|
    decreases |runs| - i
  {
    if i == |runs| then 0
    else (if HiddenBy(runs, i + 1, e) then 0 else runs[i].Count(e)) + Folded(runs, i + 1, e)
  }

  /** Copies of `e` that a scan shows although their own run tombstones them. */
  ghost function OwnHidden(runs: seq<Run>, i: nat, dir: Direction, e: EdgeKey): nat
    requires i <= |runs|
    decreases |runs| - i
  {
    if i == |runs| then 0
    else (if HiddenBy(runs, i + 1, e) then RunShows(runs, i, dir, e) else 0) + OwnHidden(runs, i + 1, dir, e)
  }

  lemma {:induction false} FoldAccounts(runs: seq<Run>, i: nat, dir: Direction, e: EdgeKey)
    requires i <= |runs|
    ensures RunsShow(runs, i, dir, e) == Folded(runs, i, e) + OwnHidden(runs, i, dir, e)
    decreases |runs| - i
  {
    if i < |runs| {
      DeadMonotone(runs, i, i + 1);
      FoldAccounts(runs, i + 1, dir, e);
      if !HiddenBy(runs, i + 1, e) { assert dir.Pivot(e) !in runs[i].tombstonedNodes; }
    }
  }

  /**
   * Conservation, for all runs and segments: after compaction a scan shows what it showed before,
   * plus the older segment copies the discarded tombstones hid, minus the copies their own run tombstoned.
   */
  lemma CompactionLaw(runs: seq<Run>, stored: seq<multiset<EdgeKey>>, folded: multiset<EdgeKey>, dir: Direction, e: EdgeKey)
    requires folded[e] == Folded(runs, 0, e)
    ensures Shown([], [folded] + stored, dir, e) + OwnHidden(runs, 0, dir, e)
         == Shown(runs, stored, dir, e) + if HiddenBy(runs, |runs|, e) then Total(stored, e) else 0
  {
    FoldAccounts(runs, 0, dir, e);
    assert ([folded] + stored)[1..] == stored;
  }

  lemma {:induction false} CleanHidesNothing(runs: seq<Run>, i: nat, dir: Direction, e: EdgeKey)
    requires i <= |runs| && Clean(runs)
    ensures OwnHidden(runs, i, dir, e) == 0
    decreases |runs| - i
  {
    if i < |runs| { CleanHidesNothing(runs, i + 1, dir, e); }
  }

  predicate IntoZero(q: Query) { q.dir.Incoming? && q.node == 0 }

  /** A query panics exactly when it asks for the edges into node 0, a segment is without edges and the runs leave node 0. */
  lemma ServedIff(runs: seq<Run>, segs: seq<Segment>, stored: seq<multiset<EdgeKey>>, q: Query)
    requires AllStored(segs, stored)
    ensures Served(runs, segs, q) <==> !(IntoZero(q) && multiset{} in stored && 0 !in DeadNodes(runs, |runs|))
    ensures NoPanic(segs, q) <==> !(IntoZero(q) && multiset{} in stored)
  {
    hide Stores, Lookup, DeadNodes;
    forall j | 0 <= j < |segs| ensures SegmentEdges(segs[j], q).Some? <==> !(stored[j] == multiset{} && IntoZero(q)) {
      StoredLookup(segs[j], stored[j], q.dir, q.node, q.rel);
    }
    if IntoZero(q) && multiset{} in stored {
      var j :| 0 <= j < |stored| && stored[j] == multiset{};
      assert SegmentEdges(segs[j], q).None?;
    }
  }

  /** The query was served before the compaction and panics after it. */
  ghost predicate BeginsToPanic(runs: seq<Run>, segs: seq<Segment>, seg: Segment, q: Query) {
    Served(runs, segs, q) && !Served([], [seg] + segs, q)
  }

  /** When it does: it asks for the edges into node 0, and either the runs hid the edgeless segments from it by a tombstone
      that compaction drops, or the new segment is the first without edges. */
  predicate LosesGuard(runs: seq<Run>, stored: seq<multiset<EdgeKey>>, folded: multiset<EdgeKey>, q: Query) {
    && IntoZero(q) && (folded == multiset{} || multiset{} in stored)
    && (0 in DeadNodes(runs, |runs|) || multiset{} !in stored)
  }

  /**
   * Over clean runs, compaction changes the answer to a query by exactly the resurfacing older copies. A query
   * served after it was served before, and one served before begins to panic exactly when it loses its guard.
   */
  lemma CompactionScan(runs: seq<Run>, segs: seq<Segment>, stored: seq<multiset<EdgeKey>>,
                       seg: Segment, folded: multiset<EdgeKey>, q: Query, e: EdgeKey)
    requires AllMirrored(runs) && Clean(runs) && AllStored(segs, stored)
    requires Stores(seg, folded) && forall x :: folded[x] == Folded(runs, 0, x)
    ensures BeginsToPanic(runs, segs, seg, q) <==> LosesGuard(runs, stored, folded, q)
    ensures Served([], [seg] + segs, q) ==>
              && Served(runs, segs, q)
              && multiset(Scan([], [seg] + segs, q))[e] == multiset(Scan(runs, segs, q))[e]
                   + if Asked(q, e) && HiddenBy(runs, |runs|, e) then Total(stored, e) else 0
  {
    hide Scan, Stores, Folded, Shown, Clean, AllMirrored, AllStored, Lookup, Served, NoPanic;
    StoredCons(seg, folded, segs, stored);
    ServedIff([], [seg] + segs, [folded] + stored, q);
    ServedIff(runs, segs, stored, q);
    assert multiset{} in [folded] + stored <==> folded == multiset{} || multiset{} in stored;
    if Served([], [seg] + segs, q) {
      NoRunsMirrored();
      ScanCounts([], [seg] + segs, [folded] + stored, q, e);
      ScanCounts(runs, segs, stored, q, e);
      CompactionLaw(runs, stored, folded, q.dir, e);
      CleanHidesNothing(runs, 0, q.dir, e);
    }
  }

  lemma StoredCons(seg: Segment, folded: multiset<EdgeKey>, segs: seq<Segment>, stored: seq<multiset<EdgeKey>>)
    requires Stores(seg, folded) && AllStored(segs, stored)
    ensures AllStored([seg] + segs, [folded] + stored)
  {
    hide Stores;
  }

  lemma NoRunsMirrored()
    ensures AllMirrored([])
  {
  }

  /** Compaction of clean runs preserves every count exactly when no tombstone hides an older segment edge. */
  lemma CompactionPreservesIff(runs: seq<Run>, stored: seq<multiset<EdgeKey>>, folded: multiset<EdgeKey>, dir: Direction)
    requires Clean(runs) && forall e :: folded[e] == Folded(runs, 0, e)
    ensures (forall e: EdgeKey :: Shown([], [folded] + stored, dir, e) == Shown(runs, stored, dir, e))
        <==> (forall e: EdgeKey :: HiddenBy(runs, |runs|, e) ==> Total(stored, e) == 0)
  {
    hide Shown, HiddenBy, Total;
    forall e: EdgeKey
      ensures Shown([], [folded] + stored, dir, e) == Shown(runs, stored, dir, e)
          <==> (HiddenBy(runs, |runs|, e) ==> Total(stored, e) == 0)
    {
      CompactionLaw(runs, stored, folded, dir, e);
      CleanHidesNothing(runs, 0, dir, e);
    }
  }

  // ---- build_segment_from_runs ---------------------------------------------------------------------

  ghost predicate FoldedSoFar(edges: seq<EdgeKey>, runs: seq<Run>, i: nat)
    requires i <= |runs|
  {
    forall e: EdgeKey :: multiset(edges)[e] + Folded(runs, i, e) == Folded(runs, 0, e)
  }

  /** The edges that survive the newest-to-oldest fold with accumulated tombstones. */
  method FoldRuns(runs: seq<Run>) returns (edges: seq<EdgeKey>)
    requires AllMirrored(runs)
    ensures forall e: EdgeKey :: multiset(edges)[e] == Folded(runs, 0, e)
  {
    hide Folded, FoldedSoFar, LiveCounts, Pure, CountIn;
    var blockedNodes: set<NodeId> := {};
    var blockedEdges: set<EdgeKey> := {};
    edges := [];
    FoldStart(runs);
    for i := 0 to |runs|
      invariant blockedNodes == DeadNodes(runs, i) && blockedEdges == DeadEdges(runs, i)
      invariant FoldedSoFar(edges, runs, i)
    {
      blockedNodes := blockedNodes + runs[i].tombstonedNodes;
      blockedEdges := blockedEdges + runs[i].tombstonedEdges;
      var kept := KeepLive(runs[i], blockedNodes, blockedEdges);
      FoldStep(edges, kept, runs, i);
      edges := edges + kept;
    }
    FoldEnd(edges, runs);
  }

  lemma FoldStart(runs: seq<Run>)
    ensures FoldedSoFar([], runs, 0)
  {
  }

  lemma FoldEnd(edges: seq<EdgeKey>, runs: seq<Run>)
    requires FoldedSoFar(edges, runs, |runs|)
    ensures forall e: EdgeKey :: multiset(edges)[e] == Folded(runs, 0, e)
  {
    forall e: EdgeKey ensures multiset(edges)[e] == Folded(runs, 0, e) {
      assert multiset(edges)[e] + Folded(runs, |runs|, e) == Folded(runs, 0, e);
    }
  }

  lemma FoldStep(edges: seq<EdgeKey>, kept: seq<EdgeKey>, runs: seq<Run>, i: nat)
    requires i < |runs| && FoldedSoFar(edges, runs, i)
    requires LiveCounts(kept, runs[i], DeadNodes(runs, i + 1), DeadEdges(runs, i + 1))
    ensures FoldedSoFar(edges + kept, runs, i + 1)
  {
    hide DeadNodes, DeadEdges;
    forall e: EdgeKey ensures multiset(edges + kept)[e] + Folded(runs, i + 1, e) == Folded(runs, 0, e) {
      assert multiset(edges)[e] + Folded(runs, i, e) == Folded(runs, 0, e);
      assert multiset(edges + kept)[e] == multiset(edges)[e] + multiset(kept)[e];
    }
  }

  ghost predicate LiveCounts(kept: seq<EdgeKey>, run: Run, nodes: set<NodeId>, edges: set<EdgeKey>) {
    forall e: EdgeKey :: multiset(kept)[e]
      == if e.src in nodes || e.dst in nodes || e in edges then 0 else run.Count(e)
  }

  /** One run's edges, bucket by bucket, without the blocked ones. */
  method KeepLive(run: Run, nodes: set<NodeId>, edges: set<EdgeKey>) returns (kept: seq<EdgeKey>)
    requires run.Mirrored()
    ensures LiveCounts(kept, run, nodes, edges)
  {
    var left := run.edgesBySrc.Keys;
    kept := [];
    while left != {}
      invariant left <= run.edgesBySrc.Keys
      invariant forall e: EdgeKey :: multiset(kept)[e] == LiveOutside(run, nodes, edges, left, e)
      decreases left
    {
      var n :| n in left;
      var some := LiveIn(run.edgesBySrc[n], nodes, edges);
      forall e: EdgeKey
        ensures multiset(kept + some)[e] == LiveOutside(run, nodes, edges, left - {n}, e)
      {
        assert CountIn(run.edgesBySrc, n, e) == multiset(run.edgesBySrc[n])[e];
        assert multiset(kept + some)[e] == multiset(kept)[e] + multiset(some)[e];
      }
      left, kept := left - {n}, kept + some;
    }
  }

  ghost function LiveOutside(run: Run, nodes: set<NodeId>, edges: set<EdgeKey>, left: set<NodeId>, e: EdgeKey): nat {
    if e.src in left || e.src in nodes || e.dst in nodes || e in edges then 0 else run.Count(e)
  }

  method LiveIn(bucket: seq<EdgeKey>, nodes: set<NodeId>, edges: set<EdgeKey>) returns (kept: seq<EdgeKey>)
    ensures forall e: EdgeKey :: multiset(kept)[e]
              == if e.src in nodes || e.dst in nodes || e in edges then 0 else multiset(bucket)[e]
  {
    kept := [];
    for k := 0 to |bucket|
      invariant forall e: EdgeKey :: multiset(kept)[e]
                  == if e.src in nodes || e.dst in nodes || e in edges then 0 else multiset(bucket[..k])[e]
    {
      var e := bucket[k];
      assert bucket[..k + 1] == bucket[..k] + [e];
      if e.src in nodes || e.dst in nodes { continue; }
      if e in edges { continue; }
      kept := kept + [e];
    }
    assert bucket[..|bucket|] == bucket;
  }

  /** `build_segment_from_runs` with the reverse index that `persist` adds; `None` for its overflow. */
  method CompactRuns(id: u64, runs: seq<Run>) returns (seg: Option<Segment>, ghost folded: multiset<EdgeKey>)
    requires AllMirrored(runs)
    ensures forall e :: folded[e] == Folded(runs, 0, e)
    ensures seg.None? <==> exists e :: e in folded && e.dst == U32_MAX
    ensures seg.Some? ==> Stores(seg.value, folded) && seg.value.id == id && seg.value.metaPageId == 0
    ensures seg.Some? ==> forall dir :: Measures(seg.value.In(dir), dir, folded)
  {
    hide Stores, Folded, Measures;
    var edges := FoldRuns(runs);
    folded := multiset(edges);
    assert IntoLast(edges) <==> exists e :: e in folded && e.dst == U32_MAX by { IntoLastMeans(edges); }
    seg := BuildAndIndex(id, edges);
  }

  lemma IntoLastMeans(edges: seq<EdgeKey>)
    ensures IntoLast(edges) <==> exists e :: e in multiset(edges) && e.dst == U32_MAX
  {
    if IntoLast(edges) {
      var k :| 0 <= k < |edges| && edges[k].dst == U32_MAX;
      assert edges[k] in multiset(edges);
    }
    if e :| e in multiset(edges) && e.dst == U32_MAX { assert e in edges; }
  }
}
