/** What a reader sees of the committed transactions, in terms of their operations alone. */
module Transactions {
  import opened Bytes
  import opened Wrappers
  import opened Graph
  import opened WalRecords
  import opened MemTables
  import opened Csr
  import opened Neighbors
  import opened Compaction
  import opened CommitHistory
  import opened Durability
  import Overlay

  // ---- Transactions as lists of operations, oldest first ----------------------------------------------

  /** The transaction deletes the edge, or a node at one of its ends. */
  predicate Deletes(ops: seq<WalRecord>, e: EdgeKey) {
    TombstoneNode(e.src) in ops || TombstoneNode(e.dst) in ops || TombstoneEdge(e.src, e.rel, e.dst) in ops
  }

  /**
   * Copies of `e` a query from its source, or into its destination, shows: each transaction takes away what is older if
   * it deletes the edge, and adds the copies it leaves itself, unless it deletes the node the query starts from.
   */
  function Visible(txs: seq<seq<WalRecord>>, base: nat, fromSource: bool, e: EdgeKey): nat {
    if txs == [] then base
    else
      var ops, older := txs[|txs| - 1], txs[..|txs| - 1];
      (if TombstoneNode(if fromSource then e.src else e.dst) in ops then 0 else LiveCopies(ops, e))
      + if Deletes(ops, e) then 0 else Visible(older, base, fromSource, e)
  }

  /** What the latest transaction that sets or removes a property says. */
  function NodeMark(txs: seq<seq<WalRecord>>, n: NodeId, key: Utf8): Mark {
    if txs == [] then Unset
    else
      var mark := LastNodeMark(txs[|txs| - 1], n, key);
      if mark != Unset then mark else NodeMark(txs[..|txs| - 1], n, key)
  }

  function EdgeMark(txs: seq<seq<WalRecord>>, e: EdgeKey, key: Utf8): Mark {
    if txs == [] then Unset
    else
      var mark := LastEdgeMark(txs[|txs| - 1], e, key);
      if mark != Unset then mark else EdgeMark(txs[..|txs| - 1], e, key)
  }

  /** The runs, newest first, are those of the transactions. */
  ghost predicate Committed(runs: seq<Run>, txs: seq<seq<WalRecord>>) {
    |runs| == |txs| && forall i :: 0 <= i < |runs| ==> Tells(runs[i], runs[i].txid, txs[|txs| - 1 - i])
  }

  lemma CommittedTail(runs: seq<Run>, txs: seq<seq<WalRecord>>)
    requires Committed(runs, txs) && runs != []
    ensures Committed(runs[1..], txs[..|txs| - 1]) && Tells(runs[0], runs[0].txid, txs[|txs| - 1])
  {
    hide Tells;
    var n := |txs| - 1;
    forall i | 0 <= i < n ensures Tells(runs[1..][i], runs[1..][i].txid, txs[..n][n - 1 - i]) {
      assert Tells(runs[i + 1], runs[i + 1].txid, txs[n - (i + 1)]);
    }
  }

  lemma CommittedMirrored(runs: seq<Run>, txs: seq<seq<WalRecord>>)
    requires Committed(runs, txs)
    ensures AllMirrored(runs) && Overlay.DecidedTables(runs)
  {
    hide LiveCopies, LastNodeMark, LastEdgeMark, Run.Mirrored, PropTable.Decided;
  }

  // ---- Scans -----------------------------------------------------------------------------------------------

  lemma {:induction false} ShownIsVisible(runs: seq<Run>, txs: seq<seq<WalRecord>>, stored: seq<multiset<EdgeKey>>, dir: Direction, e: EdgeKey)
    requires Committed(runs, txs)
    ensures Shown(runs, stored, dir, e) == Visible(txs, Total(stored, e), dir.Outgoing?, e)
    decreases |runs|
  {
    hide Tells, LiveCopies, Committed;
    if runs == [] {
      assert |txs| == 0 by { CommittedLength(runs, txs); }
      NothingHidden(e);
    } else {
      CommittedLength(runs, txs);
      CommittedTail(runs, txs);
      ShownIsVisible(runs[1..], txs[..|txs| - 1], stored, dir, e);
      assert runs == [runs[0]] + runs[1..];
      ShownOnTop([runs[0]], runs[1..], stored, dir, e);
      OneRun(runs[0], txs[|txs| - 1], dir, e);
    }
  }

  lemma CommittedLength(runs: seq<Run>, txs: seq<seq<WalRecord>>)
    requires Committed(runs, txs)
    ensures |runs| == |txs|
  {
  }

  lemma NothingHidden(e: EdgeKey)
    ensures !HiddenBy([], 0, e)
  {
  }

  lemma OneRun(run: Run, ops: seq<WalRecord>, dir: Direction, e: EdgeKey)
    requires Tells(run, run.txid, ops)
    ensures RunsShow([run], 0, dir, e) == if TombstoneNode(if dir.Outgoing? then e.src else e.dst) in ops then 0 else LiveCopies(ops, e)
    ensures HiddenBy([run], 1, e) <==> Deletes(ops, e)
  {
    hide LiveCopies, LastNodeMark, LastEdgeMark, Run.Mirrored, PropTable.Decided, Run.Count;
    var runs := [run];
    assert DeadNodes(runs, 0) == {} && DeadEdges(runs, 0) == {};
    assert DeadNodes(runs, 1) == run.tombstonedNodes && DeadEdges(runs, 1) == run.tombstonedEdges;
    assert RunsShow(runs, 1, dir, e) == 0;
  }

  /** Every query returns exactly the visible copies of the edges from a node or into it, of one type or of all. */
  lemma ScanOfTransactions(runs: seq<Run>, txs: seq<seq<WalRecord>>, segs: seq<Segment>, stored: seq<multiset<EdgeKey>>,
                           n: NodeId, t: u32, e: EdgeKey)
    requires Committed(runs, txs) && AllStored(segs, stored)
    ensures Returned(runs, segs, Query(Outgoing, n, Some(t)), e) == if e.src == n && e.rel == t then Visible(txs, Total(stored, e), true, e) else 0
    ensures Returned(runs, segs, Query(Outgoing, n, None), e) == if e.src == n then Visible(txs, Total(stored, e), true, e) else 0
    ensures Served(runs, segs, Query(Incoming, n, Some(t))) ==>
              Returned(runs, segs, Query(Incoming, n, Some(t)), e) == if e.dst == n && e.rel == t then Visible(txs, Total(stored, e), false, e) else 0
    ensures Served(runs, segs, Query(Incoming, n, None)) ==>
              Returned(runs, segs, Query(Incoming, n, None), e) == if e.dst == n then Visible(txs, Total(stored, e), false, e) else 0
  {
    hide Committed, AllStored, Served, Returned, Shown, Visible, AllMirrored;
    CommittedMirrored(runs, txs);
    ScanMeans(runs, segs, stored, n, t, e);
    ShownIsVisible(runs, txs, stored, Outgoing, e);
    ShownIsVisible(runs, txs, stored, Incoming, e);
  }

  // ---- Compaction --------------------------------------------------------------------------------------------

  /** Copies of `e` a compaction writes: a transaction that deletes the edge takes away its own copies and all older ones. */
  function Compacted(txs: seq<seq<WalRecord>>, e: EdgeKey): nat {
    if txs == [] || Deletes(txs[|txs| - 1], e) then 0
    else LiveCopies(txs[|txs| - 1], e) + Compacted(txs[..|txs| - 1], e)
  }

  lemma RunHides(runs: seq<Run>, txs: seq<seq<WalRecord>>, i: nat, e: EdgeKey)
    requires Committed(runs, txs) && i < |runs|
    ensures HiddenBy(runs, i + 1, e) <==> HiddenBy(runs, i, e) || Deletes(txs[|txs| - 1 - i], e)
    ensures runs[i].Count(e) == LiveCopies(txs[|txs| - 1 - i], e)
  {
    hide LiveCopies, LastNodeMark, LastEdgeMark, Run.Mirrored, PropTable.Decided, Run.Count;
    assert Tells(runs[i], runs[i].txid, txs[|txs| - 1 - i]);
  }

  lemma {:induction false} FoldIsCompacted(runs: seq<Run>, txs: seq<seq<WalRecord>>, i: nat, e: EdgeKey)
    requires Committed(runs, txs) && i <= |runs| == |txs|
    ensures Folded(runs, i, e) == if HiddenBy(runs, i, e) then 0 else Compacted(txs[..|txs| - i], e)
    decreases |runs| - i
  {
    hide Committed, HiddenBy, Deletes, LiveCopies, Run.Count;
    if i < |runs| {
      RunHides(runs, txs, i, e);
      FoldIsCompacted(runs, txs, i + 1, e);
      var front := txs[..|txs| - i];
      assert front[|front| - 1] == txs[|txs| - 1 - i] && front[..|front| - 1] == txs[..|txs| - (i + 1)];
    }
  }

  /** After compaction every query returns the compacted copies and, deleted or not, those of the older segments. */
  lemma CompactionOfTransactions(runs: seq<Run>, txs: seq<seq<WalRecord>>, segs: seq<Segment>, stored: seq<multiset<EdgeKey>>,
                                 seg: Segment, folded: multiset<EdgeKey>, n: NodeId, t: u32, e: EdgeKey)
    requires Committed(runs, txs) && AllStored(segs, stored) && Stores(seg, folded) && FoldOf(runs, folded)
    ensures folded[e] == Compacted(txs, e)
    ensures Returned([], [seg] + segs, Query(Outgoing, n, Some(t)), e) == if e.src == n && e.rel == t then Compacted(txs, e) + Total(stored, e) else 0
    ensures Returned([], [seg] + segs, Query(Outgoing, n, None), e) == if e.src == n then Compacted(txs, e) + Total(stored, e) else 0
    ensures Served([], [seg] + segs, Query(Incoming, n, Some(t))) ==>
              Returned([], [seg] + segs, Query(Incoming, n, Some(t)), e) == if e.dst == n && e.rel == t then Compacted(txs, e) + Total(stored, e) else 0
    ensures Served([], [seg] + segs, Query(Incoming, n, None)) ==>
              Returned([], [seg] + segs, Query(Incoming, n, None), e) == if e.dst == n then Compacted(txs, e) + Total(stored, e) else 0
  {
    hide Committed, Served, Returned, Stores, Compacted, Folded, AllMirrored;
    CommittedLength(runs, txs);
    FoldIsCompacted(runs, txs, 0, e);
    assert txs[..|txs|] == txs;
    NoneMirrored();
    assert ([folded] + stored)[1..] == stored;
    ScanMeans([], [seg] + segs, [folded] + stored, n, t, e);
  }

  lemma NoneMirrored()
    ensures AllMirrored([])
  {
  }

  // ---- Properties ------------------------------------------------------------------------------------------

  /** A lookup finds the value of the latest transaction that sets or removes the property. */
  lemma {:induction false} NodePropertyOfTransactions(runs: seq<Run>, txs: seq<seq<WalRecord>>, n: NodeId, key: Utf8)
    requires Committed(runs, txs)
    ensures Overlay.FirstMark(runs, Overlay.NodeOwner(n), key) == NodeMark(txs, n, key)
    decreases |runs|
  {
    hide LiveCopies, LastNodeMark, LastEdgeMark, Run.Mirrored, PropTable.Decided, PropTable.Marked, Committed;
    CommittedLength(runs, txs);
    if runs != [] {
      CommittedTail(runs, txs);
      NodePropertyOfTransactions(runs[1..], txs[..|txs| - 1], n, key);
    }
  }

  lemma {:induction false} EdgePropertyOfTransactions(runs: seq<Run>, txs: seq<seq<WalRecord>>, e: EdgeKey, key: Utf8)
    requires Committed(runs, txs)
    ensures Overlay.FirstMark(runs, Overlay.EdgeOwner(e), key) == EdgeMark(txs, e, key)
    decreases |runs|
  {
    hide LiveCopies, LastNodeMark, LastEdgeMark, Run.Mirrored, PropTable.Decided, PropTable.Marked, Committed;
    CommittedLength(runs, txs);
    if runs != [] {
      CommittedTail(runs, txs);
      EdgePropertyOfTransactions(runs[1..], txs[..|txs| - 1], e, key);
    }
  }

  // ---- After a crash ------------------------------------------------------------------------------------------

  /** What replay keeps of a transaction: its edge deletions come last, so edges it deletes are not created. */
  function KeptOps(ops: seq<WalRecord>): seq<WalRecord> { Without(ops, ops) }

  /** `ops` without the creations of edges that `all` deletes. */
  function Without(ops: seq<WalRecord>, all: seq<WalRecord>): seq<WalRecord> {
    if ops == [] then []
    else
      var r := ops[|ops| - 1];
      Without(ops[..|ops| - 1], all) + if r.CreateEdge? && TombstoneEdge(r.src, r.rel, r.dst) in all then [] else [r]
  }

  lemma WithoutSays(ops: seq<WalRecord>, all: seq<WalRecord>, e: EdgeKey, n: NodeId, key: Utf8)
    ensures LiveCopies(Without(ops, all), e) == if TombstoneEdge(e.src, e.rel, e.dst) in all then 0 else LiveCopies(ops, e)
    ensures TombstoneEdge(e.src, e.rel, e.dst) in Without(ops, all) <==> TombstoneEdge(e.src, e.rel, e.dst) in ops
    ensures TombstoneNode(n) in Without(ops, all) <==> TombstoneNode(n) in ops
    ensures LastNodeMark(Without(ops, all), n, key) == LastNodeMark(ops, n, key)
    ensures LastEdgeMark(Without(ops, all), e, key) == LastEdgeMark(ops, e, key)
  {
    hide Without, LiveCopies, LastNodeMark, LastEdgeMark;
    WithoutCopies(ops, all, e);
    WithoutKeeps(ops, all, TombstoneEdge(e.src, e.rel, e.dst));
    WithoutKeeps(ops, all, TombstoneNode(n));
    WithoutNodeMark(ops, all, n, key);
    WithoutEdgeMark(ops, all, e, key);
  }

  function CopiesAfter(front: nat, r: WalRecord, e: EdgeKey): nat {
    match r
    case CreateEdge(src, rel, dst) => if EdgeKey(src, rel, dst) == e then front + 1 else front
    case TombstoneEdge(src, rel, dst) => if EdgeKey(src, rel, dst) == e then 0 else front
    case _ => front
  }

  lemma CopiesSnoc(ops: seq<WalRecord>, r: WalRecord, e: EdgeKey)
    ensures LiveCopies(ops + [r], e) == CopiesAfter(LiveCopies(ops, e), r, e)
  {
    assert (ops + [r])[..|ops|] == ops && (ops + [r])[|ops|] == r;
  }

  lemma NodeMarkSnoc(ops: seq<WalRecord>, r: WalRecord, n: NodeId, key: Utf8)
    ensures LastNodeMark(ops + [r], n, key) == match r
              case SetNodeProperty(n', key', v) => if n' == n && key' == key then SetTo(v) else LastNodeMark(ops, n, key)
              case RemoveNodeProperty(n', key') => if n' == n && key' == key then Gone else LastNodeMark(ops, n, key)
              case _ => LastNodeMark(ops, n, key)
  {
    assert (ops + [r])[..|ops|] == ops && (ops + [r])[|ops|] == r;
  }

  lemma EdgeMarkSnoc(ops: seq<WalRecord>, r: WalRecord, e: EdgeKey, key: Utf8)
    ensures LastEdgeMark(ops + [r], e, key) == match r
              case SetEdgeProperty(src, rel, dst, key', v) =>
                if EdgeKey(src, rel, dst) == e && key' == key then SetTo(v) else LastEdgeMark(ops, e, key)
              case RemoveEdgeProperty(src, rel, dst, key') =>
                if EdgeKey(src, rel, dst) == e && key' == key then Gone else LastEdgeMark(ops, e, key)
              case _ => LastEdgeMark(ops, e, key)
  {
    assert (ops + [r])[..|ops|] == ops && (ops + [r])[|ops|] == r;
  }

  predicate Skipped(r: WalRecord, all: seq<WalRecord>) { r.CreateEdge? && TombstoneEdge(r.src, r.rel, r.dst) in all }

  lemma WithoutSnoc(ops: seq<WalRecord>, all: seq<WalRecord>)
    requires ops != []
    ensures var k := |ops| - 1;
            && ops == ops[..k] + [ops[k]]
            && Without(ops, all) == if Skipped(ops[k], all) then Without(ops[..k], all) else Without(ops[..k], all) + [ops[k]]
  {
  }

  lemma {:induction false} WithoutCopies(ops: seq<WalRecord>, all: seq<WalRecord>, e: EdgeKey)
    ensures LiveCopies(Without(ops, all), e) == if TombstoneEdge(e.src, e.rel, e.dst) in all then 0 else LiveCopies(ops, e)
    decreases |ops|
  {
    if ops != [] {
      hide Without, LiveCopies;
      var k := |ops| - 1;
      WithoutCopies(ops[..k], all, e);
      WithoutSnoc(ops, all);
      CopiesSnoc(ops[..k], ops[k], e);
      CopiesSnoc(Without(ops[..k], all), ops[k], e);
    }
  }

  lemma {:induction false} WithoutKeeps(ops: seq<WalRecord>, all: seq<WalRecord>, r: WalRecord)
    requires !r.CreateEdge?
    ensures r in Without(ops, all) <==> r in ops
  {
    if ops != [] {
      var k := |ops| - 1;
      WithoutKeeps(ops[..k], all, r);
      assert ops == ops[..k] + [ops[k]];
    }
  }

  lemma {:induction false} WithoutNodeMark(ops: seq<WalRecord>, all: seq<WalRecord>, n: NodeId, key: Utf8)
    ensures LastNodeMark(Without(ops, all), n, key) == LastNodeMark(ops, n, key)
    decreases |ops|
  {
    if ops != [] {
      hide Without, LastNodeMark;
      var k := |ops| - 1;
      WithoutNodeMark(ops[..k], all, n, key);
      WithoutSnoc(ops, all);
      NodeMarkSnoc(ops[..k], ops[k], n, key);
      NodeMarkSnoc(Without(ops[..k], all), ops[k], n, key);
    }
  }

  lemma {:induction false} WithoutEdgeMark(ops: seq<WalRecord>, all: seq<WalRecord>, e: EdgeKey, key: Utf8)
    ensures LastEdgeMark(Without(ops, all), e, key) == LastEdgeMark(ops, e, key)
    decreases |ops|
  {
    if ops != [] {
      hide Without, LastEdgeMark;
      var k := |ops| - 1;
      WithoutEdgeMark(ops[..k], all, e, key);
      WithoutSnoc(ops, all);
      EdgeMarkSnoc(ops[..k], ops[k], e, key);
      EdgeMarkSnoc(Without(ops[..k], all), ops[k], e, key);
    }
  }

  /** The run that replay rebuilds tells what is kept of the transaction. */
  lemma DroppedTells(run: Run, ops: seq<WalRecord>)
    requires Tells(run, run.txid, ops)
    ensures Tells(DropOwn(run), run.txid, KeptOps(ops))
  {
    hide LiveCopies, LastNodeMark, LastEdgeMark, Run.Count, PropTable.Marked, PropTable.Decided, Without;
    var kept := DropOwn(run);
    DropTells(run);
    forall e: EdgeKey
      ensures kept.Count(e) == LiveCopies(KeptOps(ops), e)
      ensures e in kept.tombstonedEdges <==> TombstoneEdge(e.src, e.rel, e.dst) in KeptOps(ops)
    {
      WithoutSays(ops, ops, e, 0, []);
      assert run.Count(e) == LiveCopies(ops, e);
    }
    forall n: NodeId, key: Utf8 ensures kept.nodeProps.Marked(n, key) == LastNodeMark(KeptOps(ops), n, key) {
      WithoutSays(ops, ops, EdgeKey(0, 0, 0), n, key);
    }
    forall n: NodeId ensures n in kept.tombstonedNodes <==> TombstoneNode(n) in KeptOps(ops) {
      WithoutSays(ops, ops, EdgeKey(0, 0, 0), n, []);
    }
    forall e: EdgeKey, key: Utf8 ensures kept.edgeProps.Marked(e, key) == LastEdgeMark(KeptOps(ops), e, key) {
      WithoutSays(ops, ops, e, 0, key);
    }
  }

  lemma DropTells(run: Run)
    requires run.Mirrored()
    ensures var kept := DropOwn(run);
            && kept.Mirrored() && kept.txid == run.txid && kept.tombstonedNodes == run.tombstonedNodes
            && kept.tombstonedEdges == run.tombstonedEdges && kept.nodeProps == run.nodeProps && kept.edgeProps == run.edgeProps
            && forall e: EdgeKey :: kept.Count(e) == if e in run.tombstonedEdges then 0 else run.Count(e)
  {
    hide Run.Mirrored, Run.Count;
    DropMirrored(run);
    forall e: EdgeKey ensures DropOwn(run).Count(e) == if e in run.tombstonedEdges then 0 else run.Count(e) { DropCountOf(run, e); }
  }

  lemma DropCountOf(run: Run, e: EdgeKey)
    ensures DropOwn(run).Count(e) == if e in run.tombstonedEdges then 0 else run.Count(e)
  {
    DropCounts(run.edgesBySrc, run.tombstonedEdges);
  }

  lemma SameMarks<K(!new)>(a: PropTable<K>, b: PropTable<K>)
    requires SameProps(a, b)
    ensures forall k, key :: a.Marked(k, key) == b.Marked(k, key)
    ensures a.Decided() ==> b.Decided()
  {
    forall k, key ensures a.Marked(k, key) == b.Marked(k, key) { assert a.RemovedKeys(k) == b.RemovedKeys(k); }
    if a.Decided() {
      forall k | k in b.values ensures b.values[k].Keys !! b.RemovedKeys(k) { assert a.RemovedKeys(k) == b.RemovedKeys(k); }
    }
  }

  /** What one run tells, a run that no reader can tell apart from it tells too. */
  lemma SameTells(a: Run, b: Run, ops: seq<WalRecord>)
    requires SameRun(a, b) && Tells(a, a.txid, ops)
    ensures Tells(b, b.txid, ops)
  {
    hide LiveCopies, LastNodeMark, LastEdgeMark, PropTable.Marked, PropTable.Decided, SameProps, CountIn, Pure;
    SameMarks(a.nodeProps, b.nodeProps);
    SameMarks(a.edgeProps, b.edgeProps);
    assert forall e: EdgeKey :: a.Count(e) == b.Count(e);
  }

  function KeptTxs(txs: seq<seq<WalRecord>>): (r: seq<seq<WalRecord>>)
    ensures |r| == |txs| && forall i :: 0 <= i < |txs| ==> r[i] == KeptOps(txs[i])
  {
    seq(|txs|, i requires 0 <= i < |txs| => KeptOps(txs[i]))
  }

  /** The store reopened on the log of `v` holds what is kept of its transactions. */
  lemma ReopenedCommitted(v: View, w: View, txs: seq<seq<WalRecord>>)
    requires Committed(v.runs, txs) && SameView(Durable(v), w)
    ensures Committed(w.runs, KeptTxs(txs))
  {
    hide Tells, SameRun, KeptOps, DropOwn;
    var n := |txs| - 1;
    forall i | 0 <= i < |w.runs| ensures Tells(w.runs[i], w.runs[i].txid, KeptTxs(txs)[n - i]) {
      DroppedTells(v.runs[i], txs[n - i]);
      SameTells(DropOwn(v.runs[i]), w.runs[i], KeptOps(txs[n - i]));
    }
  }

  /** So its queries return the visible copies of what was kept, and its lookups the latest marks as before. */
  lemma ReopenedScan(v: View, w: View, txs: seq<seq<WalRecord>>, stored: seq<multiset<EdgeKey>>, n: NodeId, t: u32, e: EdgeKey, key: Utf8)
    requires Committed(v.runs, txs) && SameView(Durable(v), w) && AllStored(w.segments, stored)
    ensures Returned(w.runs, w.segments, Query(Outgoing, n, Some(t)), e)
         == if e.src == n && e.rel == t then Visible(KeptTxs(txs), Total(stored, e), true, e) else 0
    ensures Returned(w.runs, w.segments, Query(Outgoing, n, None), e)
         == if e.src == n then Visible(KeptTxs(txs), Total(stored, e), true, e) else 0
    ensures Served(w.runs, w.segments, Query(Incoming, n, None)) ==>
              Returned(w.runs, w.segments, Query(Incoming, n, None), e)
              == if e.dst == n then Visible(KeptTxs(txs), Total(stored, e), false, e) else 0
    ensures Served(w.runs, w.segments, Query(Incoming, n, Some(t))) ==>
              Returned(w.runs, w.segments, Query(Incoming, n, Some(t)), e)
              == if e.dst == n && e.rel == t then Visible(KeptTxs(txs), Total(stored, e), false, e) else 0
    ensures Overlay.FirstMark(w.runs, Overlay.NodeOwner(n), key) == NodeMark(txs, n, key)
    ensures Overlay.FirstMark(w.runs, Overlay.EdgeOwner(e), key) == EdgeMark(txs, e, key)
  {
    hide Committed, AllStored, Served, Returned, Visible, SameView, KeptTxs;
    ReopenedCommitted(v, w, txs);
    ScanOfTransactions(w.runs, KeptTxs(txs), w.segments, stored, n, t, e);
    NodePropertyOfTransactions(w.runs, KeptTxs(txs), n, key);
    EdgePropertyOfTransactions(w.runs, KeptTxs(txs), e, key);
    KeptMarks(txs, n, e, key);
  }

  lemma {:induction false} KeptMarks(txs: seq<seq<WalRecord>>, n: NodeId, e: EdgeKey, key: Utf8)
    ensures NodeMark(KeptTxs(txs), n, key) == NodeMark(txs, n, key) && EdgeMark(KeptTxs(txs), e, key) == EdgeMark(txs, e, key)
    decreases |txs|
  {
    hide LastNodeMark, LastEdgeMark, Without, LiveCopies;
    if txs != [] {
      var k := |txs| - 1;
      assert KeptTxs(txs)[..k] == KeptTxs(txs[..k]);
      KeptMarks(txs[..k], n, e, key);
      WithoutSays(txs[k], txs[k], e, n, key);
    }
  }
}
