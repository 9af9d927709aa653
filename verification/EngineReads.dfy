/** What readers get from the engine, before and after a crash, in terms of the operations of its transactions. */
module EngineReads {
  import opened Bytes
  import opened Wrappers
  import opened WalRecords
  import opened Graph
  import opened MemTables
  import opened Neighbors
  import opened Compaction
  import opened Pagers
  import opened IdMaps
  import opened IdMapPages
  import opened SegmentPages
  import opened Durability
  import opened Transactions
  import opened Engine
  import WalLog
  import Overlay

  /** A commit adds its operations to the transactions the published runs tell, unless they leave nothing behind. */
  lemma CommittedNext(before: seq<Run>, after: seq<Run>, txid: u64, ops: seq<WalRecord>, txs: seq<seq<WalRecord>>)
    requires Committed(before, txs) && Publishes(before, after, txid, ops)
    ensures Committed(after, if SaysNothing(ops) then txs else txs + [ops])
  {
    hide Tells, SaysNothing;
    if !SaysNothing(ops) {
      var all, n := txs + [ops], |txs|;
      assert after[0].txid == txid by { TellsTxid(after[0], txid, ops); }
      forall i | 0 <= i < |after| ensures Tells(after[i], after[i].txid, all[n - i]) {
        if i > 0 { assert after[i] == before[i - 1] && all[n - i] == txs[n - 1 - (i - 1)]; }
      }
    }
  }

  lemma TellsTxid(run: Run, txid: u64, ops: seq<WalRecord>)
    requires Tells(run, txid, ops)
    ensures run.txid == txid
  {
    hide LiveCopies, LastNodeMark, LastEdgeMark;
  }

  /** The edges behind the segments of the view the log carried after `n` transactions. */
  lemma StoredThen(a: Account, ids: Ids, used: set<nat>, view: View, nextTxid: u64, writer: Option<u64>, n: nat)
    requires Balanced(a, ids, used, view, nextTxid, writer) && n <= |a.log|
    ensures n < |a.history| && (forall i :: 0 <= i < |a.history[n].segments| ==> a.history[n].segments[i].metaPageId in a.contents)
    ensures AllStored(a.history[n].segments, ContentsOf(a.history[n].segments, a.contents))
  {
    assert Stands(a.log[..n], a.store, a.history[n]);
    RecoversHeld(a.log[..n], a.store, Durable(a.history[n]));
    ViewStored(a.store, a.contents, a.history[n].segments);
  }

  /**
   * Crash the engine at any time, so that `n` transactions of the log and the first `d` records of the id map survive, and
   * reopen. If that is recoverable, queries and lookups answer from exactly what is kept of the operations that were
   * committed by then.
   */
  lemma CrashKeepsTransactions(a: Account, ids: Ids, used: set<nat>, view: View, nextTxid: u64, writer: Option<u64>, n: nat, d: nat,
                               pages: seq<Page>, live: set<nat>, meta: Meta, txs: seq<seq<WalRecord>>, node: NodeId, t: u32, e: EdgeKey, key: Utf8)
    requires Balanced(a, ids, used, view, nextTxid, writer) && n <= |a.log| && n < |a.bases| && a.bases[n] <= d <= |ids.i2e|
    requires DiskHolds(pages, live, meta, ids.i2e[..d]) && Recoverable(a, ids.i2e, n, d, pages, live, meta)
    requires n < |a.history| && Committed(a.history[n].runs, txs)
    ensures forall i :: 0 <= i < |a.history[n].segments| ==> a.history[n].segments[i].metaPageId in a.contents
    ensures Recovered(a.log[..n], pages, live).Ok?
    ensures var w, base := Recovered(a.log[..n], pages, live).value, Total(ContentsOf(a.history[n].segments, a.contents), e);
            && Returned(w.runs, w.segments, Query(Outgoing, node, Some(t)), e)
               == (if e.src == node && e.rel == t then Visible(KeptTxs(txs), base, true, e) else 0)
            && Returned(w.runs, w.segments, Query(Outgoing, node, None), e)
               == (if e.src == node then Visible(KeptTxs(txs), base, true, e) else 0)
            && (Served(w.runs, w.segments, Query(Incoming, node, None)) ==>
                  Returned(w.runs, w.segments, Query(Incoming, node, None), e)
                  == (if e.dst == node then Visible(KeptTxs(txs), base, false, e) else 0))
            && (Served(w.runs, w.segments, Query(Incoming, node, Some(t))) ==>
                  Returned(w.runs, w.segments, Query(Incoming, node, Some(t)), e)
                  == (if e.dst == node && e.rel == t then Visible(KeptTxs(txs), base, false, e) else 0))
            && Overlay.FirstMark(w.runs, Overlay.NodeOwner(node), key) == NodeMark(txs, node, key)
            && Overlay.FirstMark(w.runs, Overlay.EdgeOwner(e), key) == EdgeMark(txs, e, key)
  {
    hide Balanced, DiskHolds, Recoverable, Committed, AllStored, Returned, Served, Visible, Recovered, RecoveredNodes, SameView, Durable, KeptTxs,
         Rebuilt, Finds, Relabel, Total, NodeMark, EdgeMark, Overlay.FirstMark;
    StoredThen(a, ids, used, view, nextTxid, writer, n);
    CrashOpens(a, ids, used, view, nextTxid, writer, n, d, pages, live, meta);
    OpensView(a.log[..n], pages, live, meta);
    var w := Recovered(a.log[..n], pages, live).value;
    ReopenedScan(a.history[n], w, txs, ContentsOf(a.history[n].segments, a.contents), node, t, e, key);
  }

  lemma OpensView(log: seq<WalLog.CommittedTx>, pages: seq<Page>, live: set<nat>, meta: Meta)
    requires Opens(log, pages, live, meta)
    ensures Recovered(log, pages, live).Ok?
  {
    hide Recovered, RecoveredNodes, RoomFor;
  }
}
