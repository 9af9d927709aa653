/** The merged neighbor scan over runs and segments, and the iterator that computes it lazily. */
module Neighbors {
  import opened Bytes
  import opened Wrappers
  import opened Graph
  import opened Csr

  // ---- What a scan means ------------------------------------------------------------

  /** Nodes tombstoned by the `i` newest runs. */
  function DeadNodes(runs: seq<Run>, i: nat): set<NodeId>
    requires i <= |runs|
  {
    if i == 0 then {} else DeadNodes(runs, i - 1) + runs[i - 1].tombstonedNodes
  }

  function DeadEdges(runs: seq<Run>, i: nat): set<EdgeKey>
    requires i <= |runs|
  {
    if i == 0 then {} else DeadEdges(runs, i - 1) + runs[i - 1].tombstonedEdges
  }

  /** A query: where to start, in which direction, and an optional relationship type. */
  datatype Query = Query(dir: Direction, node: NodeId, rel: Option<u32>)

  predicate Passes(q: Query, e: EdgeKey, nodes: set<NodeId>, edges: set<EdgeKey>) {
    RelMatches(q.rel, e.rel) && q.dir.Far(e) !in nodes && e !in edges
  }

  /** The edges of `s` that pass, in order. */
  function Pick(s: seq<EdgeKey>, q: Query, nodes: set<NodeId>, edges: set<EdgeKey>): seq<EdgeKey> {
    if s == [] then []
    else (if Passes(q, s[0], nodes, edges) then [s[0]] else []) + Pick(s[1..], q, nodes, edges)
  }

  /** What run `i` contributes: its edges, unless it or a newer run tombstones the start node,
      filtered by the tombstones of strictly newer runs. */
  function RunPart(runs: seq<Run>, i: nat, q: Query): seq<EdgeKey>
    requires i < |runs|
  {
    if q.node in DeadNodes(runs, i + 1) then []
    else Pick(runs[i].EdgesFor(q.dir, q.node), q, DeadNodes(runs, i), DeadEdges(runs, i))
  }

  function RunsFrom(runs: seq<Run>, i: nat, q: Query): seq<EdgeKey>
    requires i <= |runs|
    decreases |runs| - i
  {
    if i == |runs| then [] else RunPart(runs, i, q) + RunsFrom(runs, i + 1, q)
  }

  /** The segment lookup behind a query, `None` if it would panic. */
  function SegmentEdges(seg: Segment, q: Query): Option<seq<EdgeKey>> {
    Lookup(seg.In(q.dir), q.dir, q.node, q.rel)
  }

  predicate NoPanic(segs: seq<Segment>, q: Query) {
    forall j :: 0 <= j < |segs| ==> SegmentEdges(segs[j], q).Some?
  }

  /** The query ends without a panic: segments are not reached once the runs tombstone the start node. */
  predicate Served(runs: seq<Run>, segs: seq<Segment>, q: Query) { q.node in DeadNodes(runs, |runs|) || NoPanic(segs, q) }

  function SegsFrom(runs: seq<Run>, segs: seq<Segment>, j: nat, q: Query): seq<EdgeKey>
    requires j <= |segs| && NoPanic(segs, q)
    decreases |segs| - j
  {
    if j == |segs| then []
    else
      Pick(SegmentEdges(segs[j], q).value, q.(rel := None), DeadNodes(runs, |runs|), DeadEdges(runs, |runs|))
      + SegsFrom(runs, segs, j + 1, q)
  }

  function SegPart(runs: seq<Run>, segs: seq<Segment>, j: nat, q: Query): seq<EdgeKey>
    requires j <= |segs| && Served(runs, segs, q)
  {
    if q.node in DeadNodes(runs, |runs|) then [] else SegsFrom(runs, segs, j, q)
  }

  /** Newest run first, then every segment. */
  function Scan(runs: seq<Run>, segs: seq<Segment>, q: Query): seq<EdgeKey>
    requires Served(runs, segs, q)
  {
    RunsFrom(runs, 0, q) + SegPart(runs, segs, 0, q)
  }

  lemma {:induction false} DeadMonotone(runs: seq<Run>, i: nat, j: nat)
    requires i <= j <= |runs|
    ensures DeadNodes(runs, i) <= DeadNodes(runs, j) && DeadEdges(runs, i) <= DeadEdges(runs, j)
  {
    if i < j { DeadMonotone(runs, i, j - 1); }
  }

  /** Once the start node is tombstoned, nothing older contributes. */
  lemma {:induction false} DeadStart(runs: seq<Run>, i: nat, q: Query)
    requires i <= |runs| && q.node in DeadNodes(runs, i)
    ensures RunsFrom(runs, i, q) == [] && q.node in DeadNodes(runs, |runs|)
    decreases |runs| - i
  {
    DeadMonotone(runs, i, |runs|);
    if i < |runs| { DeadStart(runs, i + 1, q); }
  }

  lemma DeadNext(runs: seq<Run>, i: nat)
    requires i < |runs|
    ensures DeadNodes(runs, i + 1) == DeadNodes(runs, i) + runs[i].tombstonedNodes
    ensures DeadEdges(runs, i + 1) == DeadEdges(runs, i) + runs[i].tombstonedEdges
  {
  }

  /** What a run contributes is what its loaded edges leave. */
  lemma RunPartIs(runs: seq<Run>, i: nat, q: Query)
    requires i < |runs| && q.node !in DeadNodes(runs, i)
    ensures RunPart(runs, i, q)
         == Pick(if q.node in runs[i].tombstonedNodes then [] else runs[i].EdgesFor(q.dir, q.node), q, DeadNodes(runs, i), DeadEdges(runs, i))
  {
    DeadNext(runs, i);
  }

  // ---- The iterator --------------------------------------------------------------------

  class NeighborsIter {
    const runs: seq<Run>
    const segments: seq<Segment>
    const q: Query
    var runIdx: nat
    var edgeIdx: nat
    var currentEdges: seq<EdgeKey>
    var segmentIdx: nat
    var segmentEdgeIdx: nat
    var currentSegmentEdges: seq<EdgeKey>
    var blockedNodes: set<NodeId>
    var blockedEdges: set<EdgeKey>
    var pendingNodes: set<NodeId>
    var pendingEdges: set<EdgeKey>
    var terminated: bool

    ghost predicate Valid()
      reads this
    {
      && Served(runs, segments, q)
      && runIdx <= |runs| && edgeIdx <= |currentEdges|
      && segmentIdx <= |segments| && segmentEdgeIdx <= |currentSegmentEdges|
      && (!terminated ==> Consistent())
    }

    /** The tombstones held are those of the runs loaded so far; a run being consumed has its own
        still pending; segments are touched only after every run. */
    ghost predicate Consistent()
      reads this
      requires runIdx <= |runs| && edgeIdx <= |currentEdges|
    {
      && blockedNodes + pendingNodes == DeadNodes(runs, runIdx)
      && blockedEdges + pendingEdges == DeadEdges(runs, runIdx)
      && q.node !in blockedNodes
      && (edgeIdx < |currentEdges| ==>
            && runIdx > 0 && q.node !in pendingNodes
            && blockedNodes == DeadNodes(runs, runIdx - 1) && blockedEdges == DeadEdges(runs, runIdx - 1))
      && (segmentIdx > 0 || currentSegmentEdges != [] ==>
            edgeIdx == |currentEdges| && runIdx == |runs| && q.node !in pendingNodes)
    }

    /** Everything still to come. */
    ghost function Remaining(): seq<EdgeKey>
      requires Valid()
      reads this
    {
      if terminated then []
      else Pick(currentEdges[edgeIdx..], q, blockedNodes, blockedEdges)
           + RunsFrom(runs, runIdx, q)
           + SegmentsLeft()
    }

    ghost function SegmentsLeft(): seq<EdgeKey>
      requires Valid()
      reads this
    {
      if q.node in DeadNodes(runs, |runs|) then []
      else Pick(currentSegmentEdges[segmentEdgeIdx..], q.(rel := None), DeadNodes(runs, |runs|), DeadEdges(runs, |runs|))
           + SegsFrom(runs, segments, segmentIdx, q)
    }

    constructor (runs: seq<Run>, segments: seq<Segment>, q: Query)
      requires Served(runs, segments, q)
      ensures Valid() && this.runs == runs && this.segments == segments && this.q == q
      ensures Remaining() == Scan(runs, segments, q)
    {
      this.runs, this.segments, this.q := runs, segments, q;
      runIdx, edgeIdx, currentEdges := 0, 0, [];
      segmentIdx, segmentEdgeIdx, currentSegmentEdges := 0, 0, [];
      blockedNodes, blockedEdges, pendingNodes, pendingEdges := {}, {}, {}, {};
      terminated := false;
      new;
      assert SegmentsLeft() == SegPart(runs, segments, 0, q);
      assert [] + RunsFrom(runs, 0, q) == RunsFrom(runs, 0, q);
    }

    method ApplyPendingTombstones()
      requires Valid() && !terminated && edgeIdx == |currentEdges|
      modifies this
      ensures Valid() && Remaining() == old(Remaining())
      ensures !terminated ==> pendingNodes == {} && pendingEdges == {}
      ensures unchanged(`runIdx) && unchanged(`edgeIdx) && unchanged(`currentEdges)
      ensures unchanged(`segmentIdx) && unchanged(`segmentEdgeIdx) && unchanged(`currentSegmentEdges)
    {
      if pendingNodes == {} && pendingEdges == {} { return; }
      blockedNodes, pendingNodes := blockedNodes + pendingNodes, {};
      blockedEdges, pendingEdges := blockedEdges + pendingEdges, {};
      if q.node in blockedNodes {
        DeadStart(runs, runIdx, q);
        terminated := true;
      }
    }

    method LoadRun()
      requires Valid() && !terminated && edgeIdx == |currentEdges| && runIdx < |runs|
      requires pendingNodes == {} && pendingEdges == {}
      modifies this
      ensures Valid() && !terminated && Remaining() == old(Remaining())
      ensures runIdx == old(runIdx) + 1
    {
      hide Pick, SegsFrom, RunPart, DeadNodes, DeadEdges;
      assert blockedNodes == blockedNodes + pendingNodes == DeadNodes(runs, runIdx);
      assert blockedEdges == blockedEdges + pendingEdges == DeadEdges(runs, runIdx);
      RunStage();
      assert currentEdges[edgeIdx..] == [];
      PickNothing(q, blockedNodes, blockedEdges);
      ghost var part, older, rest := RunPart(runs, runIdx, q), RunsFrom(runs, runIdx + 1, q), SegmentsLeft();
      assert Remaining() == part + (older + rest);
      var run := runs[runIdx];
      DeadNext(runs, runIdx);
      RunPartIs(runs, runIdx, q);
      currentEdges, edgeIdx := if q.node in run.tombstonedNodes then [] else run.EdgesFor(q.dir, q.node), 0;
      pendingNodes, pendingEdges := run.tombstonedNodes, run.tombstonedEdges;
      runIdx := runIdx + 1;
      assert currentEdges[0..] == currentEdges;
      RunStage();
    }

    method LoadSegment()
      requires Valid() && !terminated && edgeIdx == |currentEdges| && runIdx == |runs|
      requires pendingNodes == {} && pendingEdges == {}
      requires segmentEdgeIdx == |currentSegmentEdges| && segmentIdx < |segments|
      modifies this
      ensures Valid() && !terminated && Remaining() == old(Remaining())
      ensures segmentIdx == old(segmentIdx) + 1
      ensures unchanged(`runIdx) && unchanged(`edgeIdx) && unchanged(`currentEdges)
    {
      currentSegmentEdges, segmentEdgeIdx := SegmentEdges(segments[segmentIdx], q).value, 0;
      segmentIdx := segmentIdx + 1;
      assert currentSegmentEdges[0..] == currentSegmentEdges;
    }

    /** The next edge of the loaded run, unless it is filtered out. */
    method TakeRunEdge() returns (r: Option<EdgeKey>)
      requires Valid() && !terminated && edgeIdx < |currentEdges|
      modifies this`edgeIdx
      ensures Valid() && edgeIdx == old(edgeIdx) + 1
      ensures Took(r, old(Remaining()), Remaining())
    {
      hide RunsFrom, SegsFrom, DeadNodes, DeadEdges, Pick;
      var edge := currentEdges[edgeIdx];
      ghost var rest := RunsFrom(runs, runIdx, q) + SegmentsLeft();
      RunStage();
      PickFirst(currentEdges, edgeIdx, q, blockedNodes, blockedEdges, rest);
      edgeIdx := edgeIdx + 1;
      RunStage();
      if q.rel.Some? && edge.rel != q.rel.value { return None; }
      if q.dir.Far(edge) in blockedNodes || edge in blockedEdges { return None; }
      return Some(edge);
    }

    lemma RunStage()
      requires Valid() && !terminated
      ensures Remaining() == Pick(currentEdges[edgeIdx..], q, blockedNodes, blockedEdges)
                             + (RunsFrom(runs, runIdx, q) + SegmentsLeft())
    {
    }

    lemma SegmentStage()
      requires Valid() && !terminated && edgeIdx == |currentEdges| && runIdx == |runs|
      requires pendingNodes == {} && pendingEdges == {}
      ensures Remaining() == Pick(currentSegmentEdges[segmentEdgeIdx..], q.(rel := None), blockedNodes, blockedEdges)
                             + SegsFrom(runs, segments, segmentIdx, q)
    {
      assert currentEdges[edgeIdx..] == [];
      PickNothing(q, blockedNodes, blockedEdges);
      assert blockedNodes == blockedNodes + pendingNodes == DeadNodes(runs, |runs|);
      assert blockedEdges == blockedEdges + pendingEdges == DeadEdges(runs, |runs|);
    }

    /** The next edge of the loaded segment, unless it is filtered out. */
    method TakeSegmentEdge() returns (r: Option<EdgeKey>)
      requires Valid() && !terminated && edgeIdx == |currentEdges| && runIdx == |runs|
      requires pendingNodes == {} && pendingEdges == {} && segmentEdgeIdx < |currentSegmentEdges|
      modifies this`segmentEdgeIdx
      ensures Valid() && segmentEdgeIdx == old(segmentEdgeIdx) + 1
      ensures Took(r, old(Remaining()), Remaining())
    {
      hide SegsFrom, DeadNodes, DeadEdges, Pick;
      var edge := currentSegmentEdges[segmentEdgeIdx];
      ghost var rest := SegsFrom(runs, segments, segmentIdx, q);
      SegmentStage();
      PickFirst(currentSegmentEdges, segmentEdgeIdx, q.(rel := None), blockedNodes, blockedEdges, rest);
      segmentEdgeIdx := segmentEdgeIdx + 1;
      SegmentStage();
      if q.dir.Far(edge) in blockedNodes || edge in blockedEdges { return None; }
      return Some(edge);
    }

    lemma Ended()
      requires Valid() && !terminated && edgeIdx == |currentEdges| && runIdx == |runs|
      requires segmentEdgeIdx == |currentSegmentEdges| && segmentIdx == |segments|
      ensures Remaining() == []
    {
    }

    lemma Bounds()
      requires Valid()
      ensures runIdx <= |runs| && edgeIdx <= |currentEdges|
      ensures segmentIdx <= |segments| && segmentEdgeIdx <= |currentSegmentEdges|
      ensures terminated ==> Remaining() == []
    {
    }

    /** `Iterator::next`: the first remaining edge, or the end, which is final. */
    method Next() returns (r: Option<EdgeKey>)
      requires Valid()
      modifies this
      ensures Valid()
      ensures old(Remaining()) == [] ==> r == None && Remaining() == [] && terminated
      ensures old(Remaining()) != [] ==> r == Some(old(Remaining())[0]) && Remaining() == old(Remaining())[1..]
    {
      hide *;
      Bounds();
      if terminated { return None; }
      while true
        invariant Valid() && !terminated && Remaining() == old(Remaining())
        decreases |runs| - runIdx, |currentEdges| - edgeIdx, |segments| - segmentIdx, |currentSegmentEdges| - segmentEdgeIdx
      {
        Bounds();
        if edgeIdx >= |currentEdges| {
          ApplyPendingTombstones();
          Bounds();
          if terminated { return None; }
          if runIdx < |runs| {
            LoadRun();
            continue;
          }
          if segmentEdgeIdx >= |currentSegmentEdges| {
            if segmentIdx >= |segments| {
              Ended();
              Terminate();
              return None;
            }
            LoadSegment();
            continue;
          }
          r := TakeSegmentEdge();
        } else {
          r := TakeRunEdge();
        }
        TookMeans(r, old(Remaining()), Remaining());
        if r.Some? { return r; }
      }
    }

    method Terminate()
      requires Valid() && Remaining() == []
      modifies this`terminated
      ensures Valid() && terminated && Remaining() == []
    {
      terminated := true;
    }
  }

  /** One edge of `before` was examined: dropped, or returned as its head. */
  ghost predicate Took(r: Option<EdgeKey>, before: seq<EdgeKey>, after: seq<EdgeKey>) {
    before == (if r.Some? then [r.value] else []) + after
  }

  lemma TookMeans(r: Option<EdgeKey>, before: seq<EdgeKey>, after: seq<EdgeKey>)
    requires Took(r, before, after)
    ensures r.None? ==> after == before
    ensures r.Some? ==> before != [] && r.value == before[0] && after == before[1..]
  {
  }

  lemma PickNothing(q: Query, nodes: set<NodeId>, edges: set<EdgeKey>)
    ensures Pick([], q, nodes, edges) == []
  {
  }

  lemma PickFirst(s: seq<EdgeKey>, i: nat, q: Query, nodes: set<NodeId>, edges: set<EdgeKey>, rest: seq<EdgeKey>)
    requires i < |s|
    ensures Pick(s[i..], q, nodes, edges) + rest
         == (if Passes(q, s[i], nodes, edges) then [s[i]] else []) + (Pick(s[i + 1..], q, nodes, edges) + rest)
  {
    assert s[i..][1..] == s[i + 1..];
  }

  /** Draining the iterator terminates and yields exactly the scan. */
  method Collect(runs: seq<Run>, segs: seq<Segment>, q: Query) returns (out: seq<EdgeKey>)
    requires Served(runs, segs, q)
    ensures out == Scan(runs, segs, q)
  {
    hide *;
    var it := new NeighborsIter(runs, segs, q);
    out := [];
    assert out + it.Remaining() == it.Remaining();
    while true
      invariant it.Valid() && out + it.Remaining() == Scan(runs, segs, q)
      decreases |it.Remaining()|
    {
      ghost var left := it.Remaining();
      var r := it.Next();
      if r.None? { return; }
      assert out + left == out + [left[0]] + left[1..];
      out := out + [r.value];
    }
  }
}
