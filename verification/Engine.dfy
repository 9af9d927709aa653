/** The storage engine: commit, label creation, compaction, close, crash and reopen over one log, page file and id map. */
module Engine {
  import opened Bytes
  import opened Wrappers
  import opened Graph
  import opened Csr
  import opened WalRecords
  import opened WalLog
  import opened MemTables
  import opened Labels
  import opened Recovery
  import opened Compaction
  import opened Pagers
  import opened BlobStores
  import opened CsrPages
  import opened IdMaps
  import opened IdMapPages
  import opened SegmentPages
  import opened Durability
  import opened NodeDurability
  import Neighbors

  // ---- What the log and the pages are known to hold -------------------------------------------

  /**
   * The committed transactions, the segments that were persisted and the edges behind them, the view the log carried
   * after each transaction and now, the transactions refused after they were logged, the records made by each prefix,
   * and the node records under the checkpoint.
   */
  datatype Account = Account(
    log: seq<CommittedTx>,
    store: SegmentStore,
    contents: map<u64, multiset<EdgeKey>>,
    history: seq<View>,
    promised: View,
    refused: set<u64>,
    bases: seq<nat>,
    marks: seq<nat>,
    covered: seq<WalRecord>)

  const NewAccount := Account([], map[], map[], [EmptyView], EmptyView, {}, [0], [0], [])

  ghost predicate RefusedBelow(refused: set<u64>, nextTxid: u64, writer: Option<u64>) {
    forall t :: t in refused ==> t < nextTxid && (writer.Some? ==> t < writer.value)
  }

  /** What every operation keeps: log, segments, published view and id map tell the same story. */
  ghost predicate Balanced(a: Account, ids: Ids, live: set<nat>, view: View, nextTxid: u64, writer: Option<u64>) {
    && Consistent(a.log, a.store, a.contents, a.history, a.promised, nextTxid, writer)
    && NodesConsistent(a.log, ids, a.bases, a.marks, nextTxid, writer)
    && view == Published(a.promised, a.refused) && RefusedBelow(a.refused, nextTxid, writer)
    && (forall p :: p in a.store ==> p in live)
    && (a.refused == {} ==> Tracked(ids, a.covered, PastNow(a.log)))
  }

  lemma NewBalanced()
    ensures Balanced(NewAccount, NoIds, {0, 1}, EmptyView, 1, None)
  {
    hide NodesConsistent, Tracked;
    NoNodes();
    EmptyStands(map[]);
    assert PastNow([]) == [];
  }

  lemma BalancedMeans(a: Account, ids: Ids, live: set<nat>, view: View, nextTxid: u64, writer: Option<u64>)
    requires Balanced(a, ids, live, view, nextTxid, writer)
    ensures Faithful(a.log, a.store, a.history) && |a.history| == |a.log| + 1 == |a.bases| == |a.marks|
    ensures AllMirrored(view.runs) && |view.labels| <= U32_MAX && 0 < nextTxid && Finds(ids) && Unique(ids.i2e)
    ensures view.segments == a.promised.segments && view.labels == a.promised.labels
  {
    hide Faithful, ScanState, Backed, AllMirrored, AllMade, InOrder, Finds, Unique, Tracked, PastNow, Passed;
    ConsistentMeans(a.log, a.store, a.contents, a.history, a.promised, nextTxid, writer);
    AllMadeLengths(a.log, ids.i2e, a.bases, a.marks);
    PassedMirrored(a.promised.runs, a.refused);
  }

  lemma ConsistentMeans(log: seq<CommittedTx>, store: SegmentStore, contents: map<u64, multiset<EdgeKey>>,
                        history: seq<View>, v: View, nextTxid: u64, writer: Option<u64>)
    requires Consistent(log, store, contents, history, v, nextTxid, writer)
    ensures Faithful(log, store, history) && |history| == |log| + 1 && history[|log|] == v
    ensures AllMirrored(v.runs) && Descending(v.runs) && |v.labels| <= U32_MAX && 0 < nextTxid
    ensures writer.Some? ==> writer.value < nextTxid && forall i :: 0 <= i < |v.runs| ==> v.runs[i].txid < writer.value
    ensures writer.Some? ==> ScanState(log).checkpoint < writer.value
  {
    hide Recovers, ScanState, Backed, AllMirrored;
    FaithfulNow(log, store, history);
  }

  lemma BeginBalanced(a: Account, ids: Ids, live: set<nat>, view: View, nextTxid: u64)
    requires Balanced(a, ids, live, view, nextTxid, None) && nextTxid < 0xFFFF_FFFF_FFFF_FFFF
    ensures Balanced(a, ids, live, view, nextTxid + 1, Some(nextTxid))
  {
    hide Consistent, AllMade, Finds, Unique, Tracked, PastNow, Published, ZeroBetween;
    BeginStep(a.log, a.store, a.contents, a.history, a.promised, nextTxid);
    OrderBegin(a.log, nextTxid);
  }

  lemma OrderBegin(log: seq<CommittedTx>, nextTxid: u64)
    requires InOrder(log, nextTxid, None) && nextTxid < 0xFFFF_FFFF_FFFF_FFFF
    ensures InOrder(log, nextTxid + 1, Some(nextTxid))
  {
    hide NodePart;
  }

  // ---- Commit -------------------------------------------------------------------------------------

  /** The node records a commit logs: creations first, then label changes. */
  function Writes(created: seq<Created>, changes: seq<WalRecord>): seq<WalRecord> { CreateRecords(created) + changes }

  lemma WritesAreNodeOps(created: seq<Created>, changes: seq<WalRecord>)
    requires ChangesOnly(changes)
    ensures NodeOps(Writes(created, changes))
  {
  }

  /** The nodes a reopening starts from after the latest transaction. */
  function LastBase(a: Account): nat { if a.bases == [] then 0 else a.bases[|a.bases| - 1] }

  function AfterCommit(a: Account, tx: CommittedTx, run: Run, nodes: nat, published: bool): Account {
    var v := PublishRun(a.promised, run);
    a.(log := a.log + [tx], history := a.history + [v], promised := v,
       refused := if published then a.refused else a.refused + {tx.txid},
       bases := a.bases + [LastBase(a)], marks := a.marks + [nodes])
  }

  lemma CommitAccount(a: Account, tx: CommittedTx, run: Run, nodes: nat, published: bool)
    ensures AfterCommit(a, tx, run, nodes, published).log == a.log + [tx] && AfterCommit(a, tx, run, nodes, published).store == a.store
  {
    hide PublishRun;
  }

  /** A commit is logged, the creations and the first `k` label changes applied, the run published if those were all. */
  lemma CommitBalanced(a: Account, ids: Ids, live: set<nat>, view: View, nextTxid: u64, txid: u64, created: seq<Created>,
                       changes: seq<WalRecord>, k: nat, img: Image, c: CommitLog, ids': Ids, live': set<nat>, later: u64)
    requires Balanced(a, ids, live, view, nextTxid, Some(txid)) && live <= live' && nextTxid <= later
    requires Reserved(ids, created) && ChangesOnly(changes) && k <= |changes| && img.Valid() && Lists(c, img)
    requires ReadableTx(CommitTxOf(txid, Writes(created, changes), c))
    requires ReplayOps(ids, CreateRecords(created) + changes[..k]) == Ok(ids')
    ensures |a.bases| == |a.log| + 1
    ensures var tx, run := CommitTxOf(txid, Writes(created, changes), c), Freeze(img, txid);
            Balanced(AfterCommit(a, tx, run, |ids'.i2e|, k == |changes|), ids', live',
                     if k == |changes| then PublishRun(view, run) else view, later, None)
  {
    hide Consistent, NodesConsistent, Published, Tracked, PastNow, Lists, Freeze, Image.Valid, ReadableTx, CommitTxOf, PublishRun,
         Reserved, ChangesOnly, ReplayOps, Writes;
    var tx, run := CommitTxOf(txid, Writes(created, changes), c), Freeze(img, txid);
    CommitTxid(txid, Writes(created, changes), c);
    assert txid in a.refused + {txid};
    CommitNodesStep(a, ids, nextTxid, txid, created, changes, k, c, ids');
    CommitViewStep(a, nextTxid, txid, created, changes, img, c);
    BalancedMeans(a, ids, live, view, nextTxid, Some(txid));
    LaterBoth(a.log + [tx], a.store, a.contents, a.history + [PublishRun(a.promised, run)], PublishRun(a.promised, run), ids',
              a.bases + [a.bases[|a.log|]], a.marks + [|ids'.i2e|], nextTxid, later);
    PublishPassed(a.promised, a.refused, nextTxid, txid, run) by { WriterAbove(a, nextTxid, txid); RunOfTxid(img, txid); }
    if k == |changes| {
      assert changes[..k] == changes;
      if a.refused == {} { CommitTrackedStep(a, ids, created, changes, ids', tx); }
    }
  }

  lemma CommitTxid(txid: u64, nodeOps: seq<WalRecord>, c: CommitLog)
    ensures CommitTxOf(txid, nodeOps, c).txid == txid
  {
    hide Records;
  }

  lemma RunOfTxid(img: Image, txid: u64)
    ensures Freeze(img, txid).txid == txid
  {
    hide SortBuckets;
  }

  lemma WriterAbove(a: Account, nextTxid: u64, txid: u64)
    requires Consistent(a.log, a.store, a.contents, a.history, a.promised, nextTxid, Some(txid)) && RefusedBelow(a.refused, nextTxid, Some(txid))
    ensures txid < nextTxid && txid !in a.refused && forall i :: 0 <= i < |a.promised.runs| ==> a.promised.runs[i].txid != txid
  {
    hide Consistent;
    ConsistentMeans(a.log, a.store, a.contents, a.history, a.promised, nextTxid, Some(txid));
    assert Some(txid).value == txid;
  }

  lemma PublishPassed(v: View, refused: set<u64>, nextTxid: u64, txid: u64, run: Run)
    requires run.txid == txid && txid !in refused && txid < nextTxid && RefusedBelow(refused, nextTxid, Some(txid))
    requires forall i :: 0 <= i < |v.runs| ==> v.runs[i].txid != txid
    ensures Published(PublishRun(v, run), refused) == PublishRun(Published(v, refused), run)
    ensures Published(PublishRun(v, run), refused + {txid}) == Published(v, refused)
    ensures RefusedBelow(refused, nextTxid, None) && RefusedBelow(refused + {txid}, nextTxid, None)
  {
    hide Run.IsEmpty;
    PassedMore(v.runs, refused, txid);
    if !run.IsEmpty() {
      var all := [run] + v.runs;
      assert all[0] == run && all[1..] == v.runs;
    }
  }

  lemma CommitViewStep(a: Account, nextTxid: u64, txid: u64, created: seq<Created>, changes: seq<WalRecord>, img: Image, c: CommitLog)
    requires Consistent(a.log, a.store, a.contents, a.history, a.promised, nextTxid, Some(txid))
    requires ChangesOnly(changes) && img.Valid() && Lists(c, img) && ReadableTx(CommitTxOf(txid, Writes(created, changes), c))
    ensures var tx, v := CommitTxOf(txid, Writes(created, changes), c), PublishRun(a.promised, Freeze(img, txid));
            Consistent(a.log + [tx], a.store, a.contents, a.history + [v], v, nextTxid, None)
  {
    hide Consistent, Lists, Freeze, Image.Valid, ReadableTx, CommitTxOf, PublishRun, NodeOps;
    WritesAreNodeOps(created, changes);
    CommitStep(a.log, a.store, a.contents, a.history, a.promised, nextTxid, txid, Writes(created, changes), img, c);
  }

  lemma CommitNodesStep(a: Account, ids: Ids, nextTxid: u64, txid: u64, created: seq<Created>, changes: seq<WalRecord>, k: nat,
                        c: CommitLog, ids': Ids)
    requires Consistent(a.log, a.store, a.contents, a.history, a.promised, nextTxid, Some(txid))
    requires NodesConsistent(a.log, ids, a.bases, a.marks, nextTxid, Some(txid))
    requires Reserved(ids, created) && ChangesOnly(changes) && k <= |changes|
    requires ReplayOps(ids, CreateRecords(created) + changes[..k]) == Ok(ids')
    ensures |a.bases| == |a.log| + 1
    ensures var tx := CommitTxOf(txid, Writes(created, changes), c);
            && PastNow(a.log + [tx]) == PastNow(a.log) + Writes(created, changes)
            && NodesConsistent(a.log + [tx], ids', a.bases + [a.bases[|a.log|]], a.marks + [|ids'.i2e|], nextTxid, None)
  {
    hide Consistent, InOrder, AllMade, Finds, Unique, PastNow, Reserved, ReplayOps, ScanState, NodePart, Wrote, ZeroBetween, Records, NodeOps;
    AllMadeLengths(a.log, ids.i2e, a.bases, a.marks);
    ConsistentMeans(a.log, a.store, a.contents, a.history, a.promised, nextTxid, Some(txid));
    WritesAreNodeOps(created, changes);
    var tx := CommitTxOf(txid, Writes(created, changes), c);
    assert Some(txid).value == txid;
    CommitNodePart(txid, Writes(created, changes), c);
    ScanAfterCommit(a.log, txid, Writes(created, changes), c);
    assert ChangesOnly(changes[..k]);
    WritesApply(ids, created, changes[..k]);
    CommitNodes(a.log, ids, a.bases, a.marks, nextTxid, tx, created, changes, CreateRecords(created) + changes[..k], ids');
  }

  lemma CommitTrackedStep(a: Account, ids: Ids, created: seq<Created>, changes: seq<WalRecord>, ids': Ids, tx: CommittedTx)
    requires Finds(ids) && Unique(ids.i2e) && Tracked(ids, a.covered, PastNow(a.log))
    requires Reserved(ids, created) && ChangesOnly(changes) && ReplayOps(ids, CreateRecords(created) + changes) == Ok(ids')
    requires PastNow(a.log + [tx]) == PastNow(a.log) + Writes(created, changes)
    ensures Tracked(ids', a.covered, PastNow(a.log + [tx]))
  {
    hide Finds, Unique, Tracked, PastNow, ReplayOps, Reserved, Wrote;
    WritesApply(ids, created, changes);
    ChangesKnown(ids, created, changes, ids');
    CommitTracked(ids, a.covered, PastNow(a.log), created, changes, ids');
  }

  lemma ChangesKnown(ids: Ids, created: seq<Created>, changes: seq<WalRecord>, ids': Ids)
    requires Finds(ids) && Reserved(ids, created) && ChangesOnly(changes) && ReplayOps(ids, CreateRecords(created) + changes) == Ok(ids')
    requires Wrote(ids, created, CreateRecords(created) + changes, ids')
    ensures NamesBelow(changes, |ids'.i2e|)
  {
    hide ReplayOps, Reserved, Relabel;
    FindsLengths(ids);
    MissingNodePoisonsLog(ids, created, changes);
  }

  lemma LaterBoth(log: seq<CommittedTx>, store: SegmentStore, contents: map<u64, multiset<EdgeKey>>, history: seq<View>, v: View,
                  ids: Ids, bases: seq<nat>, marks: seq<nat>, nextTxid: u64, later: u64)
    requires Consistent(log, store, contents, history, v, nextTxid, None) && NodesConsistent(log, ids, bases, marks, nextTxid, None)
    requires nextTxid <= later
    ensures Consistent(log, store, contents, history, v, later, None) && NodesConsistent(log, ids, bases, marks, later, None)
  {
    hide Consistent, AllMade, Finds, Unique, NodePart, ZeroBetween;
    LaterStep(log, store, contents, history, v, nextTxid, later);
  }

  // ---- Labels, compaction and the rewritten log ------------------------------------------------------

  function AfterLabel(a: Account, tx: CommittedTx, name: Utf8, nodes: nat): Account {
    var v := a.promised.(labels := a.promised.labels + [name]);
    a.(log := a.log + [tx], history := a.history + [v], promised := v, bases := a.bases + [LastBase(a)], marks := a.marks + [nodes])
  }

  lemma LabelBalanced(a: Account, ids: Ids, live: set<nat>, view: View, nextTxid: u64, writer: Option<u64>, name: Utf8)
    requires Balanced(a, ids, live, view, nextTxid, writer) && nextTxid < 0xFFFF_FFFF_FFFF_FFFF
    requires name !in view.labels && |view.labels| < U32_MAX && NameFits(name)
    ensures |a.bases| == |a.log| + 1
    ensures var tx := LabelTx(nextTxid, name, |view.labels|);
            && ReadableTx(tx)
            && Balanced(AfterLabel(a, tx, name, |ids.i2e|), ids, live, view.(labels := view.labels + [name]), nextTxid + 1, writer)
  {
    hide Consistent, NodesConsistent, Tracked, PastNow, Passed, ReadableTx, NameFits, ScanState, NodePart;
    var tx := LabelTx(nextTxid, name, |view.labels|);
    BalancedMeans(a, ids, live, view, nextTxid, writer);
    LabelStep(a.log, a.store, a.contents, a.history, a.promised, nextTxid, writer, name);
    ScanAfterPlain(a.log, tx);
    NodePartNone(tx.ops);
    PlainNodes(a.log, ids, a.bases, a.marks, nextTxid, writer, tx, nextTxid + 1);
  }

  function AfterCompact(a: Account, tx: CommittedTx, v: View, seg: Segment, folded: multiset<EdgeKey>, from: u64, upTo: u64,
                        mid: nat, nodes: nat): Account
  {
    a.(log := a.log + [tx], store := a.store[seg.metaPageId := seg], contents := a.contents[seg.metaPageId := folded],
       history := a.history + [v], promised := v, bases := a.bases + [mid], marks := a.marks + [nodes],
       covered := a.covered + CoveredNodes(a.log, from, upTo))
  }

  /** The view the log carries after the runs published so far were folded: refused runs past them stay in it. */
  function CompactedPromise(v: View, upTo: u64, seg: Segment, propertiesRoot: u64, statsRoot: u64): View
    requires v.epoch < 0xFFFF_FFFF_FFFF_FFFF
  {
    View(Newer(v.runs, upTo), [seg] + v.segments, v.labels, v.epoch + 1, propertiesRoot, statsRoot)
  }

  lemma CompactBalanced(a: Account, ids: Ids, live: set<nat>, view: View, nextTxid: u64, seg: Segment, folded: multiset<EdgeKey>,
                        propertiesRoot: u64, statsRoot: u64, live': set<nat>) returns (mid: nat)
    requires Balanced(a, ids, live, view, nextTxid, None) && nextTxid < 0xFFFF_FFFF_FFFF_FFFF && view.epoch < 0xFFFF_FFFF_FFFF_FFFF
    requires view.runs != [] && |view.segments| < MAX_SEGMENTS && seg.metaPageId !in live && Stores(seg, folded)
    requires live <= live' && seg.metaPageId in live'
    ensures a.promised.epoch == view.epoch
    ensures var upTo := MaxTxid(view.runs);
            var v := CompactedPromise(a.promised, upTo, seg, propertiesRoot, statsRoot);
            var tx := CompactTx(nextTxid, upTo, v);
            && ReadableTx(tx) && tx == CompactTx(nextTxid, upTo, v.(runs := []))
            && Balanced(AfterCompact(a, tx, v, seg, folded, ScanState(a.log).checkpoint, upTo, mid, |ids.i2e|), ids, live',
                        v.(runs := []), nextTxid + 1, None)
  {
    hide Consistent, NodesConsistent, Tracked, PastNow, Passed, ReadableTx, ScanState, NodePart, Stores, Newer, CoveredNodes, CompactTx,
         MaxTxid, AllMirrored, Descending;
    var upTo := MaxTxid(view.runs);
    var v := CompactedPromise(a.promised, upTo, seg, propertiesRoot, statsRoot);
    var tx := CompactTx(nextTxid, upTo, v);
    BalancedMeans(a, ids, live, view, nextTxid, None);
    CompactViewStep(a, view.runs, nextTxid, seg, folded, upTo, v);
    CompactHasNoNodes(nextTxid, upTo, v);
    mid := CompactNodes(a.log, ids, a.bases, a.marks, nextTxid, tx, upTo, nextTxid + 1);
    if a.refused == {} { CoverTracked(ids, a.covered, CoveredNodes(a.log, ScanState(a.log).checkpoint, upTo), PastNow(a.log + [tx])); }
  }

  /** The account after the compaction that publishes `next`. */
  lemma InstallStep(a: Account, ids: Ids, live: set<nat>, view: View, nextTxid: u64, seg: Segment, folded: multiset<EdgeKey>,
                    next: View, live': set<nat>) returns (after: Account)
    requires Balanced(a, ids, live, view, nextTxid, None) && nextTxid < 0xFFFF_FFFF_FFFF_FFFF && view.epoch < 0xFFFF_FFFF_FFFF_FFFF
    requires view.runs != [] && |view.segments| < MAX_SEGMENTS && seg.metaPageId !in live && Stores(seg, folded)
    requires live <= live' && seg.metaPageId in live'
    requires next == View([], [seg] + view.segments, view.labels, view.epoch + 1, next.propertiesRoot, next.statsRoot)
    ensures var tx := CompactTx(nextTxid, MaxTxid(view.runs), next);
            && ReadableTx(tx) && after.log == a.log + [tx] && after.store == a.store[seg.metaPageId := seg]
            && after.contents == a.contents[seg.metaPageId := folded] && Balanced(after, ids, live', next, nextTxid + 1, None)
  {
    hide Balanced, Stores, ReadableTx, CompactTx, MaxTxid, Newer, CoveredNodes, ScanState;
    var upTo := MaxTxid(view.runs);
    BalancedMeans(a, ids, live, view, nextTxid, None);
    var mid := CompactBalanced(a, ids, live, view, nextTxid, seg, folded, next.propertiesRoot, next.statsRoot, live');
    var v := CompactedPromise(a.promised, upTo, seg, next.propertiesRoot, next.statsRoot);
    after := AfterCompact(a, CompactTx(nextTxid, upTo, v), v, seg, folded, ScanState(a.log).checkpoint, upTo, mid, |ids.i2e|);
  }

  lemma CompactHasNoNodes(txid: u64, upTo: u64, v: View)
    ensures NodePart(CompactTx(txid, upTo, v).ops) == [] && CompactTx(txid, upTo, v) == CompactTx(txid, upTo, v.(runs := []))
  {
    NodePartNone(CompactTx(txid, upTo, v).ops);
  }

  lemma CompactViewStep(a: Account, published: seq<Run>, nextTxid: u64, seg: Segment, folded: multiset<EdgeKey>, upTo: u64, v: View)
    requires Consistent(a.log, a.store, a.contents, a.history, a.promised, nextTxid, None) && nextTxid < 0xFFFF_FFFF_FFFF_FFFF
    requires published == Passed(a.promised.runs, a.refused) && published != [] && upTo == MaxTxid(published)
    requires |a.promised.segments| < MAX_SEGMENTS && seg.metaPageId !in a.store && Stores(seg, folded)
    requires a.promised.epoch < 0xFFFF_FFFF_FFFF_FFFF && v == CompactedPromise(a.promised, upTo, seg, v.propertiesRoot, v.statsRoot)
    ensures var tx := CompactTx(nextTxid, upTo, v);
            && ReadableTx(tx) && Passed(v.runs, a.refused) == []
            && ScanState(a.log + [tx]).checkpoint == upTo >= ScanState(a.log).checkpoint
            && Consistent(a.log + [tx], a.store[seg.metaPageId := seg], a.contents[seg.metaPageId := folded],
                          a.history + [v], v, nextTxid + 1, None)
  {
    hide Consistent, Passed, ReadableTx, ScanState, Stores, Newer, CompactTx, AllMirrored, Descending, MaxTxid;
    ConsistentMeans(a.log, a.store, a.contents, a.history, a.promised, nextTxid, None);
    NewestPublished(a.promised.runs, a.refused, published, upTo);
    CompactStep(a.log, a.store, a.contents, a.history, a.promised, nextTxid, seg, folded, upTo, v);
    CheckpointRises(a, nextTxid, upTo, v);
  }

  lemma CheckpointRises(a: Account, nextTxid: u64, upTo: u64, v: View)
    requires Consistent(a.log, a.store, a.contents, a.history, a.promised, nextTxid, None) && v.epoch >= a.promised.epoch
    requires exists i :: 0 <= i < |a.promised.runs| && a.promised.runs[i].txid == upTo
    ensures ScanState(a.log + [CompactTx(nextTxid, upTo, v)]).checkpoint == upTo >= ScanState(a.log).checkpoint
  {
    hide ScanState, Recovers, Backed, AllMirrored, LabelsFit, DropOwn;
    FaithfulNow(a.log, a.store, a.history);
    EpochOf(a.log, a.store, Durable(a.promised));
    ScanAfterCompact(a.log, nextTxid, upTo, v);
  }

  lemma NewestPublished(runs: seq<Run>, refused: set<u64>, passed: seq<Run>, upTo: u64)
    requires AllMirrored(runs) && Descending(runs) && passed == Passed(runs, refused) && passed != [] && upTo == MaxTxid(passed)
    ensures exists i :: 0 <= i < |runs| && runs[i].txid == upTo
    ensures Passed(Newer(runs, upTo), refused) == []
  {
    hide Passed, Newer, AllMirrored, Descending;
    PassedIn(runs, refused);
    var i :| 0 <= i < |passed| && passed[i].txid == upTo;
    assert passed[i] in passed;
    var k :| 0 <= k < |runs| && runs[k] == passed[i];
    forall run | run in passed ensures run.txid <= upTo {
      var j :| 0 <= j < |passed| && passed[j] == run;
    }
    PassedNewer(runs, refused, upTo);
  }

  function AfterRewrite(a: Account, tx: CommittedTx, v: View, nodes: nat): Account {
    a.(log := [tx], history := [EmptyView, v], promised := v, bases := [nodes, nodes], marks := [nodes, nodes],
       covered := a.covered + PastNow(a.log))
  }

  /** `ops` names the segments and roots of `v` to a later open, and checkpoints everything up to `upTo`. */
  ghost predicate Switches(ops: seq<WalRecord>, upTo: u64, v: View) {
    && |ops| == 2 && ops[0].ManifestSwitch? && ops[1] == Checkpoint(upTo, v.epoch, v.propertiesRoot, v.statsRoot)
    && ops[0].epoch == v.epoch && ops[0].propertiesRoot == v.propertiesRoot && ops[0].statsRoot == v.statsRoot
    && |ops[0].segments| == |v.segments|
    && (forall i :: 0 <= i < |v.segments| ==> ops[0].segments[i].id == v.segments[i].id
                                              && ops[0].segments[i].metaPageId == v.segments[i].metaPageId)
  }

  lemma CompactSwitches(txid: u64, upTo: u64, v: View)
    ensures CompactTx(txid, upTo, v).txid == txid && Switches(CompactTx(txid, upTo, v).ops, upTo, v)
  {
  }

  /** A snapshot defines every label under its id, then switches. */
  lemma SnapshotDefines(txid: u64, upTo: u64, v: View)
    requires |v.labels| <= U32_MAX
    ensures var tx := RewriteTx(txid, upTo, v);
            && tx.txid == txid && |tx.ops| >= |v.labels| && Switches(tx.ops[|v.labels|..], upTo, v)
            && (forall i :: 0 <= i < |v.labels| ==> tx.ops[i] == CreateLabel(v.labels[i], i))
  {
    CompactSwitches(txid, upTo, v);
    var tx := RewriteTx(txid, upTo, v);
    assert tx.ops[|v.labels|..] == CompactTx(txid, upTo, v).ops;
  }

  /** The snapshot transaction of a view, checkpointing everything before it. */
  ghost predicate IsSnapshot(tx: CommittedTx, txid: u64, v: View) {
    && 0 < txid && |v.labels| <= U32_MAX && tx == RewriteTx(txid, txid - 1, v)
    && |tx.ops| >= |v.labels| && Switches(tx.ops[|v.labels|..], txid - 1, v)
    && (forall i :: 0 <= i < |v.labels| ==> tx.ops[i] == CreateLabel(v.labels[i], i))
  }

  /** With no published runs the rewritten log carries the published view. */
  lemma RewriteBalanced(a: Account, ids: Ids, live: set<nat>, view: View, nextTxid: u64)
    requires Balanced(a, ids, live, view, nextTxid, None) && nextTxid < 0xFFFF_FFFF_FFFF_FFFF
    requires view.runs == [] && |view.segments| <= MAX_SEGMENTS
    ensures |view.labels| <= U32_MAX && 0 < nextTxid
    ensures var tx := RewriteTx(nextTxid, nextTxid - 1, view);
            ReadableTx(tx) && Balanced(AfterRewrite(a, tx, view, |ids.i2e|), ids, live, view, nextTxid + 1, None)
  {
    hide Consistent, NodesConsistent, Tracked, PastNow, ReadableTx, ScanState, NodePart, RewriteTx;
    BalancedMeans(a, ids, live, view, nextTxid, None);
    var tx := RewriteTx(nextTxid, nextTxid - 1, view);
    RewriteStep(a.log, a.store, a.contents, a.history, a.promised, nextTxid, view);
    RewriteHasNoNodes(nextTxid, nextTxid - 1, view);
    RewriteNodes(a.log, ids, a.bases, a.marks, nextTxid, tx, nextTxid + 1);
    if a.refused == {} {
      assert PastNow(a.log) + [] == PastNow(a.log);
      CoverTracked(ids, a.covered, PastNow(a.log), []);
    }
  }

  lemma RewriteHasNoNodes(txid: u64, upTo: u64, v: View)
    requires |v.labels| <= U32_MAX
    ensures NodePart(RewriteTx(txid, upTo, v).ops) == []
  {
    NodePartNone(RewriteTx(txid, upTo, v).ops);
  }

  // ---- Crash and reopen on values -----------------------------------------------------------------------

  /** The account of the store reopened on the first `n` transactions. */
  ghost function AfterRestart(a: Account, n: nat): Account
    requires |a.history| == |a.log| + 1 == |a.bases| == |a.marks| && n <= |a.log|
  {
    var h := Reopened(a.log, a.history, n);
    a.(log := a.log[..n], history := h, promised := h[n], refused := {}, bases := a.bases[..n + 1], marks := a.marks[..n + 1], covered := [])
  }

  /** The reopened store promises what the log carried after its first `n` transactions. */
  ghost predicate Restarted(a: Account, n: nat, after: Account, view: View) {
    && n < |a.history| == |a.log| + 1 == |a.bases| == |a.marks| && after == AfterRestart(a, n)
    && SameView(Durable(a.history[n]), view)
  }

  lemma RestartBalanced(a: Account, ids: Ids, live: set<nat>, view: View, nextTxid: u64, writer: Option<u64>, n: nat, d: nat, live': set<nat>)
    requires Balanced(a, ids, live, view, nextTxid, writer) && n <= |a.log| == |a.bases| - 1 == |a.marks| - 1
    requires a.bases[n] <= d <= a.marks[n] <= |ids.i2e| <= U32_MAX && Replays(PastNow(a.log[..n]), ids.i2e, a.bases[n], a.marks[n], d)
    requires forall p :: p in a.store ==> p in live'
    ensures |a.history| == |a.log| + 1 && ScanState(a.log[..n]).maxTxid < 0xFFFF_FFFF_FFFF_FFFF
    ensures SameView(Durable(a.history[n]), Rebuilt(a.log[..n], a.history[n]))
    ensures var end := ReplayOps(Loaded(ids.i2e[..d]), PastNow(a.log[..n]));
            && end.Ok? && |end.value.i2e| == a.marks[n]
            && Balanced(AfterRestart(a, n), end.value, live', Rebuilt(a.log[..n], a.history[n]),
                        NextTxid(ScanState(a.log[..n])), None)
  {
    hide Consistent, NodesConsistent, Tracked, PastNow, ScanState, ReplayOps, Loaded, Replays, Rebuilt, SameView, Durable, Passed;
    var cut := a.log[..n];
    RestartStep(a.log, a.store, a.contents, a.history, a.promised, nextTxid, writer, n);
    RestartNodes(a.log, ids, a.bases, a.marks, nextTxid, writer, n, d, NextTxid(ScanState(cut)));
    var h := Reopened(a.log, a.history, n);
    PassedNone(h[n].runs);
  }

  // ---- The engine ----------------------------------------------------------------------------

  /** Every record a commit creates has a page. */
  ghost predicate HasRoom(start: Option<u64>, live: set<nat>, nodes: nat, created: seq<Created>) {
    RoomFor(start, live, nodes, nodes + |created|)
  }

  /** Every label change names a node that exists once the transaction's own are created. */
  ghost predicate KnowsNodes(nodes: nat, created: seq<Created>, changes: seq<WalRecord>) {
    forall i :: 0 <= i < |changes| && LabelChange(changes[i]) ==> changes[i].node < nodes + |created|
  }

  /** What sinking the properties does: the root it returns, or its error, and the pages it takes and fills. */
  datatype Sinking = Sinking(root: Result<u64>, taken: seq<Page>)

  /** The pages of a segment of these edges, of sinking and of the statistics fit. */
  ghost predicate PagesFit(folded: multiset<EdgeKey>, live: set<nat>, sunk: Sinking, stats: seq<byte>) {
    && 80 + 8 * EdgePages(folded) <= PAGE_SIZE
    && |live| + EdgePages(folded) + 1 + |sunk.taken| + ChunkCount(|stats|) <= BITMAP_BITS
  }

  /** What a compaction of these edges needs: no edge into the largest id, sinking that succeeds, and room. */
  ghost predicate Compactable(folded: multiset<EdgeKey>, live: set<nat>, sunk: Sinking, stats: seq<byte>) {
    (forall e :: e in folded ==> e.dst != U32_MAX) && sunk.root.Ok? && PagesFit(folded, live, sunk, stats)
  }

  class GraphEngine {
    const wal: Wal
    const pager: Pager
    const ids: IdMap
    var runs: seq<Run>
    var segments: seq<Segment>
    var labels: seq<Utf8>
    var epoch: u64
    var propertiesRoot: u64
    var statsRoot: u64
    var nextTxid: u64
    /** The id of the transaction that holds the write lock. */
    var writer: Option<u64>

    /** The records in the log file and the account they support. */
    ghost var recs: seq<WalRecord>
    ghost var acc: Account

    function CurrentView(): View
      reads this
    {
      View(runs, segments, labels, epoch, propertiesRoot, statsRoot)
    }

    /** The file holds whole records, all durable; id map and pages are in step; everything balances. */
    ghost predicate Valid()
      reads this, wal, pager, pager.bits, ids
    {
      && Carries(wal.file, recs, acc.log) && wal.synced == |wal.file|
      && pager.Valid() && ids.Valid(pager)
      && Balanced(acc, ids.Contents(), pager.live, CurrentView(), nextTxid, writer)
    }

    /** Every persisted segment still loads, and shares no page with the id map. */
    ghost predicate SegmentsIntact()
      reads this, pager, ids
    {
      Intact(pager.pages, pager.live, acc.store, ids.i2eStart, ids.i2eLen)
    }

    /** They are intact exactly when the id map grew over none of their pages. */
    ghost predicate IntactIfExclusive(pages: seq<Page>, live: set<nat>, store: SegmentStore, d: nat)
      reads this, pager, ids
    {
      SegmentsIntact() <==> Exclusive(pages, live, store, ids.i2eStart, d, ids.i2eLen)
    }

    /** `open` on new files. */
    constructor ()
      ensures Valid() && SegmentsIntact() && CurrentView() == EmptyView && acc == NewAccount && writer == None
      ensures fresh(wal) && fresh(pager) && fresh(pager.bits) && fresh(ids)
      ensures ids.Contents() == NoIds && ids.i2eStart == None && ids.i2eLen == 0 && pager.live == {0, 1} && nextTxid == 1
    {
      hide Maps, EncodeMeta, Balanced, Intact;
      wal := new Wal.Open([]);
      pager := new Pager.Create();
      ids := new IdMap([], None, 0);
      runs, segments, labels := [], [], [];
      epoch, propertiesRoot, statsRoot := 0, 0, 0;
      nextTxid, writer := 1, None;
      recs, acc := [], NewAccount;
      new;
      NewBalanced();
      EmptyCarries();
      NothingToBreak(pager.pages, pager.live);
      assert Loaded([]) == NoIds by { assert FirstLabels([]) == []; }
    }

    /** The engine `open` builds from what it recovered. */
    constructor Assemble(wal: Wal, pager: Pager, ids: IdMap, view: View, nextTxid: u64, ghost recs: seq<WalRecord>, ghost acc: Account)
      ensures this.wal == wal && this.pager == pager && this.ids == ids && CurrentView() == view
      ensures this.nextTxid == nextTxid && writer == None && this.recs == recs && this.acc == acc
    {
      this.wal, this.pager, this.ids := wal, pager, ids;
      runs, segments, labels := view.runs, view.segments, view.labels;
      epoch, propertiesRoot, statsRoot := view.epoch, view.propertiesRoot, view.statsRoot;
      this.nextTxid, writer := nextTxid, None;
      this.recs, this.acc := recs, acc;
    }

    /** `begin_write`: take the lock and an id. */
    method BeginWrite() returns (txid: u64)
      requires Valid() && writer == None && nextTxid < 0xFFFF_FFFF_FFFF_FFFF
      modifies this`nextTxid, this`writer
      ensures Valid() && writer == Some(txid) && txid == old(nextTxid) && nextTxid == txid + 1
    {
      hide Carries, Balanced, Pager.Valid, IdMap.Valid;
      BeginBalanced(acc, ids.Contents(), pager.live, CurrentView(), nextTxid);
      txid := nextTxid;
      nextTxid := nextTxid + 1;
      writer := Some(txid);
    }

    /** The id-map half of a commit: creations, then label changes up to the first of a missing node. */
    method ApplyWrites(created: seq<Created>, changes: seq<WalRecord>) returns (r: Result<()>, ghost k: nat)
      requires pager.Valid() && ids.Valid(pager) && Reserved(ids.Contents(), created) && ChangesOnly(changes)
      modifies pager, pager.bits, ids
      ensures pager.Valid() && ids.Valid(pager) && k <= |changes| && old(ids.i2eLen) <= ids.i2eLen
      ensures Grew(old(pager.pages), old(pager.live), pager.pages, pager.live, ids.i2eStart, old(ids.i2eLen), ids.i2eLen)
      ensures old(ids.i2eStart).Some? ==> ids.i2eStart == old(ids.i2eStart)
      ensures var room := HasRoom(old(ids.i2eStart), old(pager.live), old(ids.i2eLen), created);
              && (r.Ok? <==> room && KnowsNodes(old(ids.i2eLen), created, changes))
              && (room ==> (r.Ok? <==> k == |changes|) && ids.i2eLen == old(ids.i2eLen) + |created|)
              && (room ==> ReplayOps(old(ids.Contents()), CreateRecords(created) + changes[..k]) == Ok(ids.Contents()))
              && (!room ==> Stuck(old(ids.Contents()), created, ids.Contents(), ids.i2eStart, pager.live))
    {
      hide Stuck, Kept, OnDisk, Grew, RoomFor, Pager.Valid, ReplayOps, Reserved, IdMap.Tidy;
      k := 0;
      r := ids.ApplyCreations(pager, created);
      if r.Err? { return; }
      ghost var made := ids.Contents();
      r, k := ids.ApplyChanges(pager, changes);
      ReplayConcat(old(ids.Contents()), CreateRecords(created), changes[..k]);
    }

    /** The log half of a commit. */
    method LogCommit(txid: u64, nodeOps: seq<WalRecord>, mem: MemTable) returns (ghost c: CommitLog, ghost tx: CommittedTx)
      requires wal.Valid() && Carries(wal.file, recs, acc.log) && mem.Contents().Valid()
      requires forall c :: Lists(c, mem.Contents()) ==> LoggableTx(CommitTxOf(txid, nodeOps, c))
      modifies wal
      ensures Lists(c, mem.Contents()) && tx == CommitTxOf(txid, nodeOps, c) && LoggableTx(tx) && wal.synced == |wal.file|
      ensures ReadableTx(tx) ==> Carries(wal.file, recs + TxRecords(tx), acc.log + [tx]) && ReplayCommitted(wal.file) == Ok(acc.log + [tx])
      ensures !ReadableTx(tx) ==> ReplayCommitted(wal.file).Err?
    {
      hide Lists, Carries, TxRecords, LoggableTx, ReadableTx, TxBytes, CommitTxOf, Image.Valid, MemTable.Contents, ReplayCommitted;
      var listed := mem.ListForWal();
      c := listed;
      var logged := CommitTxOf(txid, nodeOps, listed);
      tx := logged;
      wal.AppendDurably(logged, recs, acc.log);
    }

    /** Everything of a commit but publishing. */
    method LogAndApply(txid: u64, created: seq<Created>, changes: seq<WalRecord>, mem: MemTable)
      returns (r: Result<()>, ghost c: CommitLog, ghost tx: CommittedTx, ghost room: bool, ghost k: nat)
      requires wal.Valid() && Carries(wal.file, recs, acc.log) && mem.Contents().Valid()
      requires forall c :: Lists(c, mem.Contents()) ==> LoggableTx(CommitTxOf(txid, Writes(created, changes), c))
      requires pager.Valid() && ids.Valid(pager) && Reserved(ids.Contents(), created) && ChangesOnly(changes)
      modifies wal, pager, pager.bits, ids
      ensures Lists(c, mem.Contents()) && tx == CommitTxOf(txid, Writes(created, changes), c) && wal.synced == |wal.file|
      ensures ReadableTx(tx) ==> Carries(wal.file, recs + TxRecords(tx), acc.log + [tx]) && ReplayCommitted(wal.file) == Ok(acc.log + [tx])
      ensures !ReadableTx(tx) ==> ReplayCommitted(wal.file).Err?
      ensures pager.Valid() && ids.Valid(pager) && old(pager.live) <= pager.live && k <= |changes| && ids.i2eLen == |ids.i2e|
      ensures room == HasRoom(old(ids.i2eStart), old(pager.live), old(ids.i2eLen), created)
      ensures r.Ok? <==> room && KnowsNodes(old(ids.i2eLen), created, changes)
      ensures room ==> (r.Ok? <==> k == |changes|) && ReplayOps(old(ids.Contents()), CreateRecords(created) + changes[..k]) == Ok(ids.Contents())
      ensures r.Ok? ==> ReplayOps(old(ids.Contents()), Writes(created, changes)) == Ok(ids.Contents())
      ensures !room ==> Stuck(old(ids.Contents()), created, ids.Contents(), ids.i2eStart, pager.live)
      ensures old(SegmentsIntact()) ==>
                (SegmentsIntact() <==> Exclusive(old(pager.pages), old(pager.live), acc.store, ids.i2eStart, old(ids.i2eLen), ids.i2eLen))
    {
      hide Stuck, Lists, Carries, TxRecords, LoggableTx, ReadableTx, CommitTxOf, Intact, Exclusive, ReplayOps, Grew,
           Reserved, ChangesOnly, HasRoom, KnowsNodes, Image.Valid, MemTable.Contents, Pager.Valid, IdMap.Valid, ReplayCommitted, Writes;
      ghost var pages, live, start, len := pager.pages, pager.live, ids.i2eStart, ids.i2eLen;
      IdMapLength(ids, pager);
      c, tx := LogCommit(txid, Writes(created, changes), mem);
      r, k := ApplyWrites(created, changes);
      if r.Ok? { AllApplied(created, changes, k); }
      IdMapLength(ids, pager);
      room := HasRoom(start, live, len, created);
      if Intact(pages, live, acc.store, start, len) {
        IntactIff(pages, live, pager.pages, pager.live, acc.store, start, ids.i2eStart, len, ids.i2eLen);
      }
      GrewLive(pages, live, pager.pages, pager.live, ids.i2eStart, len, ids.i2eLen);
    }

    /** Log, pages, id map and account are as after the commit of `run`, which is still to be published if `published`. */
    ghost predicate Accounted(run: Run, published: bool)
      reads this, wal, pager, pager.bits, ids
    {
      && Carries(wal.file, recs, acc.log) && wal.synced == |wal.file| && pager.Valid() && ids.Valid(pager)
      && nextTxid < 0xFFFF_FFFF_FFFF_FFFF
      && Balanced(acc, ids.Contents(), pager.live, if published then PublishRun(CurrentView(), run) else CurrentView(),
                  if published then nextTxid + 1 else nextTxid, None)
    }

    /** Everything of a commit but publishing, with the account brought up to date. */
    method Settle(txid: u64, created: seq<Created>, changes: seq<WalRecord>, mem: MemTable)
      returns (r: Result<()>, ghost c: CommitLog, ghost tx: CommittedTx, ghost room: bool)
      requires Valid() && writer == Some(txid) && nextTxid < 0xFFFF_FFFF_FFFF_FFFF
      requires Reserved(ids.Contents(), created) && ChangesOnly(changes) && mem.Contents().Valid()
      requires forall c :: Lists(c, mem.Contents()) ==> LoggableTx(CommitTxOf(txid, Writes(created, changes), c))
      modifies this`recs, this`acc, wal, pager, pager.bits, ids
      ensures Lists(c, mem.Contents()) && tx == CommitTxOf(txid, Writes(created, changes), c)
      ensures room == HasRoom(old(ids.i2eStart), old(pager.live), old(ids.i2eLen), created)
      ensures r.Ok? <==> room && KnowsNodes(old(ids.i2eLen), created, changes)
      ensures ReadableTx(tx) ==> ReplayCommitted(wal.file) == Ok(old(acc.log) + [tx])
      ensures !ReadableTx(tx) ==> ReplayCommitted(wal.file).Err?
      ensures ReadableTx(tx) && room ==> acc == AfterCommit(old(acc), tx, Freeze(mem.Contents(), txid), ids.i2eLen, r.Ok?)
      ensures ReadableTx(tx) && room ==> Accounted(Freeze(mem.Contents(), txid), r.Ok?)
      ensures r.Ok? ==> ReplayOps(old(ids.Contents()), Writes(created, changes)) == Ok(ids.Contents())
      ensures !room ==> Stuck(old(ids.Contents()), created, ids.Contents(), ids.i2eStart, pager.live) && ids.Valid(pager)
      ensures acc.store == old(acc.store)
      ensures old(SegmentsIntact()) ==>
                (SegmentsIntact() <==> Exclusive(old(pager.pages), old(pager.live), old(acc.store), ids.i2eStart, old(ids.i2eLen), ids.i2eLen))
    {
      hide Stuck, Lists, Carries, TxRecords, Freeze, Balanced, LoggableTx, ReadableTx, CommitTxOf, Intact, Exclusive, ReplayOps,
           Reserved, ChangesOnly, HasRoom, KnowsNodes, Image.Valid, MemTable.Contents, Pager.Valid, IdMap.Valid, PublishRun,
           ReplayCommitted, Writes, AfterCommit;
      ghost var before, live, k := ids.Contents(), pager.live, 0;
      r, c, tx, room, k := LogAndApply(txid, created, changes, mem);
      ghost var run := Freeze(mem.Contents(), txid);
      if ReadableTx(tx) && room {
        CommitBalanced(acc, before, live, CurrentView(), nextTxid, txid, created, changes, k, mem.Contents(), c, ids.Contents(), pager.live,
                       if r.Ok? then nextTxid + 1 else nextTxid);
        CommitAccount(acc, tx, run, ids.i2eLen, r.Ok?);
        recs, acc := recs + TxRecords(tx), AfterCommit(acc, tx, run, ids.i2eLen, r.Ok?);
      }
    }

    /**
     * `WriteTxn::commit`: log and fsync, apply the node writes to the id map, publish the frozen run. It fails, after
     * logging, exactly when a record has no page or a label change names a missing node; nothing is published
     * then, but the log carries the transaction. Without pages the store does not open again on what this leaves, and
     * an oversized record makes the log unreadable.
     */
    method Commit(txid: u64, created: seq<Created>, changes: seq<WalRecord>, mem: MemTable, ghost ops: seq<WalRecord>)
      returns (r: Result<()>, ghost c: CommitLog, ghost tx: CommittedTx, ghost room: bool)
      requires Valid() && writer == Some(txid) && nextTxid < 0xFFFF_FFFF_FFFF_FFFF
      requires Reserved(ids.Contents(), created) && ChangesOnly(changes) && mem.Contents() == ApplyAll(ops, EmptyImage)
      requires forall c :: Lists(c, mem.Contents()) ==> LoggableTx(CommitTxOf(txid, Writes(created, changes), c))
      modifies this, wal, pager, pager.bits, ids
      ensures Lists(c, mem.Contents()) && tx == CommitTxOf(txid, Writes(created, changes), c) && writer == None
      ensures room == HasRoom(old(ids.i2eStart), old(pager.live), old(ids.i2eLen), created)
      ensures r.Ok? <==> room && KnowsNodes(old(ids.i2eLen), created, changes)
      ensures CurrentView() == if r.Ok? then PublishRun(old(CurrentView()), Freeze(mem.Contents(), txid)) else old(CurrentView())
      ensures r.Ok? ==> Publishes(old(runs), runs, txid, ops)
      ensures ReadableTx(tx) ==> ReplayCommitted(wal.file) == Ok(old(acc.log) + [tx])
      ensures !ReadableTx(tx) ==> ReplayCommitted(wal.file).Err?
      ensures ReadableTx(tx) && room ==> Valid() && acc == AfterCommit(old(acc), tx, Freeze(mem.Contents(), txid), ids.i2eLen, r.Ok?)
      ensures r.Ok? ==> ReplayOps(old(ids.Contents()), Writes(created, changes)) == Ok(ids.Contents())
      ensures !room ==> !Opens(old(acc.log) + [tx], pager.pages, pager.live, pager.meta)
      ensures old(SegmentsIntact()) ==>
                (SegmentsIntact() <==> Exclusive(old(pager.pages), old(pager.live), old(acc.store), ids.i2eStart, old(ids.i2eLen), ids.i2eLen))
    {
      hide Stuck, Opens, Lists, Carries, Freeze, Balanced, LoggableTx, ReadableTx, CommitTxOf, Intact, Exclusive, ReplayOps,
           Reserved, ChangesOnly, HasRoom, KnowsNodes, Image.Valid, Run.IsEmpty, MemTable.Contents, Pager.Valid, IdMap.Valid,
           ReplayCommitted, Writes, AfterCommit, ApplyAll, Publishes, Tells, SaysNothing;
      FrozenTells(ops, txid);
      FrozenPublishes(runs, txid, ops);
      ghost var a, before, live := acc, ids.Contents(), pager.live;
      r, c, tx, room := Settle(txid, created, changes, mem);
      if !room { StuckNeverOpens(a, before, live, CurrentView(), nextTxid, txid, created, changes, c, ids, pager); }
      writer := None;
      if r.Err? { return; }
      var run := Freeze(mem.Contents(), txid);
      if !run.IsEmpty() { runs := [run] + runs; }
      nextTxid := nextTxid + 1;
    }

    /** `get_or_create_label`; it does not need the write lock. A name too long to be read back makes the log unreadable. */
    method GetOrCreateLabel(name: Utf8) returns (id: u32)
      requires Valid() && |labels| < U32_MAX && |name| + 9 <= U32_MAX && nextTxid < 0xFFFF_FFFF_FFFF_FFFF
      modifies this, wal
      ensures writer == old(writer) && id < |labels| && labels[id] == name
      ensures NameFits(name) || name in old(labels) ==> Valid()
      ensures name in old(labels) ==> CurrentView() == old(CurrentView()) && acc == old(acc)
      ensures name !in old(labels) ==> CurrentView() == old(CurrentView()).(labels := old(labels) + [name]) && id == |old(labels)|
      ensures name !in old(labels) && NameFits(name) ==> acc == AfterLabel(old(acc), LabelTx(old(nextTxid), name, id), name, |ids.i2e|)
      ensures name !in old(labels) && !NameFits(name) ==> ReplayCommitted(wal.file).Err?
      ensures old(SegmentsIntact()) && Valid() ==> SegmentsIntact()
    {
      hide Carries, TxRecords, Balanced, LoggableTx, ReadableTx, TxBytes, NameFits, Pager.Valid, IdMap.Valid, Intact, ReplayCommitted;
      if name in labels {
        var i :| 0 <= i < |labels| && labels[i] == name;
        BalancedMeans(acc, ids.Contents(), pager.live, CurrentView(), nextTxid, writer);
        return i;
      }
      id := |labels|;
      var tx := LabelTx(nextTxid, name, id);
      LabelLoggable(nextTxid, name, id);
      wal.AppendDurably(tx, recs, acc.log);
      if NameFits(name) {
        LabelBalanced(acc, ids.Contents(), pager.live, CurrentView(), nextTxid, writer, name);
        recs, acc := recs + TxRecords(tx), AfterLabel(acc, tx, name, |ids.i2e|);
      }
      labels, nextTxid := labels + [name], nextTxid + 1;
    }

    /** The page half of a compaction: fold the published runs, persist the segment, write the statistics. */
    method WriteCompaction(id: u64, sunk: Sinking, stats: seq<byte>)
      returns (r: Result<(Segment, u64)>, ghost folded: multiset<EdgeKey>)
      requires pager.Valid() && ids.Valid(pager) && AllMirrored(runs)
      modifies pager, pager.bits
      ensures pager.Valid() && ids.Valid(pager) && FoldOf(runs, folded) && old(pager.live) <= pager.live
      ensures r.Ok? <==> Compactable(folded, old(pager.live), sunk, stats)
      ensures r.Ok? ==> Stores(r.value.0, folded) && r.value.0.metaPageId !in old(pager.live) && r.value.0.metaPageId in pager.live
      ensures r.Ok? ==> sunk.root.Ok? && Blob(pager.pages, pager.live, r.value.1) == Finished(Ok(stats))
      ensures old(SegmentsIntact()) ==> SegmentsIntact()
      ensures old(SegmentsIntact()) && r.Ok? ==>
                Intact(pager.pages, pager.live, acc.store[r.value.0.metaPageId := r.value.0], ids.i2eStart, ids.i2eLen)
    {
      hide Pager.Valid, Intact, Stores, Measures, AllMirrored, Blob, ChunkCount, EdgePages, Untouched, Footprint, Folded, LoadSegment,
           OnDisk, IdMap.Tidy;
      ghost var pages, live := pager.pages, pager.live;
      var seg;
      seg, folded := CompactRuns(id, runs);
      if seg.None? { return Err(ReverseOverflow), folded; }
      r := WriteSegmentAndStats(pager, seg.value, folded, sunk, stats);
      UntouchedLive(pages, live, pager.pages, pager.live);
      if ids.i2eStart.Some? { OnDiskUntouched(pages, live, pager.pages, pager.live, ids.i2eStart.value, ids.i2e); }
      if r.Ok? { FootprintLive(pager.pages, pager.live, r.value.0.metaPageId); }
      if Intact(pages, live, acc.store, ids.i2eStart, ids.i2eLen) {
        IntactUntouched(pages, live, pager.pages, pager.live, acc.store, ids.i2eStart, ids.i2eLen);
        if r.Ok? {
          IdPagesLive(ids, pages, live);
          IntactGains(pager.pages, pager.live, acc.store, ids.i2eStart, ids.i2eLen, r.value.0);
        }
      }
    }

    /**
     * `compact`: fold the published runs into one segment, persist it, log the manifest switch and checkpoint, then
     * publish. `sunk` is what property sinking did and `stats` the encoded statistics. It fails exactly when an
     * edge goes into the largest id, sinking failed or the pages do not suffice; view and log are then as they were.
     */
    method Compact(id: u64, sunk: Sinking, stats: seq<byte>) returns (r: Result<()>, ghost folded: multiset<EdgeKey>)
      requires Valid() && writer == None && |segments| < MAX_SEGMENTS
      requires nextTxid < 0xFFFF_FFFF_FFFF_FFFF && epoch < 0xFFFF_FFFF_FFFF_FFFF
      modifies this, wal, pager, pager.bits
      ensures Valid() && writer == None && FoldOf(old(runs), folded)
      ensures r.Ok? <==> old(runs) == [] || Compactable(folded, old(pager.live), sunk, stats)
      ensures r.Err? || old(runs) == [] ==> CurrentView() == old(CurrentView()) && acc == old(acc) && wal.file == old(wal.file)
      ensures r.Ok? && old(runs) != [] ==>
                && |segments| > 0 && Stores(segments[0], folded) && segments[0].metaPageId !in old(pager.live)
                && CurrentView() == View([], [segments[0]] + old(segments), old(labels), old(epoch) + 1, sunk.root.value, statsRoot)
                && Blob(pager.pages, pager.live, statsRoot) == Finished(Ok(stats))
                && acc.log == old(acc.log) + [CompactTx(old(nextTxid), MaxTxid(old(runs)), CurrentView())]
                && Switches(acc.log[|old(acc.log)|].ops, MaxTxid(old(runs)), CurrentView())
                && acc.contents == old(acc.contents)[segments[0].metaPageId := folded]
      ensures old(SegmentsIntact()) ==> SegmentsIntact()
    {
      hide Carries, Balanced, Stores, AllMirrored, MaxTxid, FoldOf, Compactable, Pager.Valid, IdMap.Valid, Intact, Blob,
           CompactTx, ReadableTx, TxRecords, Switches;
      folded := multiset{};
      if runs == [] {
        NothingFolded();
        return Ok(()), folded;
      }
      ghost var live := pager.live;
      BalancedMeans(acc, ids.Contents(), live, CurrentView(), nextTxid, writer);
      var written;
      written, folded := WriteCompaction(id, sunk, stats);
      if written.Err? {
        MoreLive(acc, ids.Contents(), live, CurrentView(), nextTxid, pager.live);
        return Err(written.error), folded;
      }
      var next := View([], [written.value.0] + segments, labels, epoch + 1, sunk.root.value, written.value.1);
      ghost var after := InstallStep(acc, ids.Contents(), live, CurrentView(), nextTxid, written.value.0, folded, next, pager.live);
      CompactSwitches(nextTxid, MaxTxid(runs), next);
      Install(CompactTx(nextTxid, MaxTxid(runs), next), next, after);
      r := Ok(());
    }

    /** Log the manifest switch `tx` of a compaction, make it durable, then publish the new view. */
    method Install(tx: CommittedTx, next: View, ghost after: Account)
      requires Carries(wal.file, recs, acc.log) && wal.synced == |wal.file| && pager.Valid() && ids.Valid(pager) && writer == None
      requires ReadableTx(tx) && after.log == acc.log + [tx] && next.labels == labels && nextTxid < 0xFFFF_FFFF_FFFF_FFFF
      requires Balanced(after, ids.Contents(), pager.live, next, nextTxid + 1, None)
      modifies this, wal
      ensures Valid() && writer == None && CurrentView() == next && acc == after && recs == old(recs) + TxRecords(tx)
    {
      hide Carries, TxRecords, Balanced, LoggableTx, ReadableTx, Pager.Valid, IdMap.Valid, Wal.Safe, ReplayCommitted, TxBytes;
      wal.AppendDurably(tx, recs, acc.log);
      recs, acc := recs + TxRecords(tx), after;
      runs, segments, epoch := next.runs, next.segments, next.epoch;
      propertiesRoot, statsRoot, nextTxid := next.propertiesRoot, next.statsRoot, nextTxid + 1;
      assert CurrentView() == next;
    }

    /** `checkpoint_on_close`: with no runs published, replace the log by one snapshot transaction. */
    method CheckpointOnClose() returns (ghost tx: CommittedTx)
      requires Valid() && writer == None && |segments| <= MAX_SEGMENTS && nextTxid < 0xFFFF_FFFF_FFFF_FFFF
      modifies this, wal
      ensures Valid() && writer == None && CurrentView() == old(CurrentView()) && acc.store == old(acc.store)
      ensures runs != [] ==> acc == old(acc)
      ensures IsSnapshot(tx, old(nextTxid), CurrentView())
      ensures runs == [] ==> acc == AfterRewrite(old(acc), tx, CurrentView(), |ids.i2e|)
      ensures old(SegmentsIntact()) ==> SegmentsIntact()
    {
      hide Carries, TxRecords, Balanced, LoggableTx, ReadableTx, RewriteTx, Switches, Pager.Valid, IdMap.Valid, Intact, PastNow;
      BalancedMeans(acc, ids.Contents(), pager.live, CurrentView(), nextTxid, writer);
      SnapshotDefines(nextTxid, nextTxid - 1, CurrentView());
      var snapshot := RewriteTx(nextTxid, nextTxid - 1, CurrentView());
      tx := snapshot;
      if runs != [] {
        wal.Fsync();
        return;
      }
      RewriteBalanced(acc, ids.Contents(), pager.live, CurrentView(), nextTxid);
      wal.RewriteAsSnapshot(snapshot);
      nextTxid := nextTxid + 1;
      recs, acc := TxRecords(tx), AfterRewrite(acc, tx, CurrentView(), |ids.i2e|);
    }
  }

  /** Take a free page for each of `taken` and fill it. */
  method FillPages(pager: Pager, taken: seq<Page>) returns (r: Result<()>)
    requires pager.Valid()
    modifies pager, pager.bits
    ensures pager.Valid() && Untouched(old(pager.pages), old(pager.live), pager.pages, pager.live) && SameButNext(old(pager.meta), pager.meta)
    ensures r.Ok? <==> |old(pager.live)| + |taken| <= BITMAP_BITS
    ensures r.Ok? ==> |pager.live| == |old(pager.live)| + |taken|
  {
    hide Untouched, Pager.Valid;
    ghost var pages, live := pager.pages, pager.live;
    UntouchedSelf(pages, live);
    LiveBound(pager);
    for i := 0 to |taken|
      invariant pager.Valid() && |pager.live| == |live| + i <= BITMAP_BITS
      invariant Untouched(pages, live, pager.pages, pager.live) && SameButNext(old(pager.meta), pager.meta)
    {
      ghost var midPages, midLive := pager.pages, pager.live;
      var page := PutFresh(pager, taken[i]);
      UntouchedTrans(pages, live, midPages, midLive, pager.pages, pager.live);
      if page.Err? { return Err(page.error); }
    }
    r := Ok(());
  }

  /** `persist`, the pages of sinking, and the statistics blob, on free pages only. */
  method WriteSegmentAndStats(pager: Pager, seg: Segment, ghost folded: multiset<EdgeKey>, sunk: Sinking, stats: seq<byte>)
    returns (r: Result<(Segment, u64)>)
    requires pager.Valid() && Stores(seg, folded) && forall dir :: Measures(seg.In(dir), dir, folded)
    modifies pager, pager.bits
    ensures pager.Valid() && Untouched(old(pager.pages), old(pager.live), pager.pages, pager.live) && SameButNext(old(pager.meta), pager.meta)
    ensures r.Ok? <==> sunk.root.Ok? && PagesFit(folded, old(pager.live), sunk, stats)
    ensures r.Ok? ==> Stores(r.value.0, folded) && r.value.0.metaPageId !in old(pager.live)
    ensures r.Ok? ==> LoadSegment(pager.pages, pager.live, r.value.0.metaPageId) == Ok(r.value.0)
    ensures r.Ok? ==> Footprint(pager.pages, pager.live, r.value.0.metaPageId) !! old(pager.live)
    ensures r.Ok? ==> Blob(pager.pages, pager.live, r.value.1) == Finished(Ok(stats))
  {
    hide Maps, EncodeMeta, Stores, Measures, Blob, ChunkCount, EdgePages, Untouched, Footprint, SnugAt, LoadSegment, Chain, Grown, LeastFree;
    ghost var pages, live := pager.pages, pager.live;
    var done := PersistBuilt(pager, seg, folded);
    if done.Err? { return Err(done.error); }
    ghost var midPages, midLive := pager.pages, pager.live;
    var filled := FillPages(pager, sunk.taken);
    UntouchedTrans(pages, live, midPages, midLive, pager.pages, pager.live);
    if filled.Err? { return Err(filled.error); }
    if sunk.root.Err? { return Err(sunk.root.error); }
    ghost var latePages, lateLive := pager.pages, pager.live;
    var root, chain := WriteDirect(pager, stats);
    UntouchedTrans(pages, live, latePages, lateLive, pager.pages, pager.live);
    UntouchedTrans(midPages, midLive, latePages, lateLive, pager.pages, pager.live);
    if root.Err? { return Err(root.error); }
    LoadUntouched(midPages, midLive, pager.pages, pager.live, done.value.metaPageId);
    FootprintUntouched(midPages, midLive, pager.pages, pager.live, done.value.metaPageId);
    r := Ok((done.value, root.value));
  }

  /** The id map's records sit on allocated pages. */
  lemma IdPagesLive(ids: IdMap, pages: seq<Page>, live: set<nat>)
    requires ids.i2eStart.Some? ==> OnDisk(pages, live, ids.i2eStart.value, ids.i2e)
    requires ids.i2eLen == |ids.i2e|
    ensures IdMapPagesOf(ids.i2eStart, ids.i2eLen) <= live
  {
    hide RecordIn;
    if ids.i2eStart.Some? {
      var start := ids.i2eStart.value;
      forall i | 0 <= i < |ids.i2e| ensures PageOf(start, i) in live { assert ReadRecord(pages, live, start, i).Ok?; }
    }
  }

  lemma NothingFolded()
    ensures FoldOf([], multiset{})
  {
  }

  lemma MoreLive(a: Account, ids: Ids, live: set<nat>, view: View, nextTxid: u64, live': set<nat>)
    requires Balanced(a, ids, live, view, nextTxid, None) && live <= live'
    ensures Balanced(a, ids, live', view, nextTxid, None)
  {
    hide Consistent, NodesConsistent, Tracked, PastNow, Published;
  }

  lemma LabelLoggable(txid: u64, name: Utf8, id: u32)
    requires |name| + 9 <= U32_MAX
    ensures LoggableTx(LabelTx(txid, name, id)) && (ReadableTx(LabelTx(txid, name, id)) <==> NameFits(name))
  {
    var tx := LabelTx(txid, name, id);
    assert |EncodeBody(tx.ops[0])| == 9 + |name|;
  }

  lemma AllApplied(created: seq<Created>, changes: seq<WalRecord>, k: nat)
    requires k == |changes|
    ensures CreateRecords(created) + changes[..k] == Writes(created, changes)
  {
    assert changes[..k] == changes;
  }

  lemma IdMapLength(ids: IdMap, pager: Pager)
    requires ids.Valid(pager)
    ensures ids.i2eLen == |ids.i2e| == |ids.i2l| && (ids.i2eStart.None? ==> ids.i2eLen == 0)
  {
    hide OnDisk;
  }

  lemma NothingToBreak(pages: seq<Page>, live: set<nat>)
    ensures Intact(pages, live, map[], None, 0)
  {
  }

  lemma GrewLive(a: seq<Page>, la: set<nat>, b: seq<Page>, lb: set<nat>, start: Option<u64>, lo: nat, hi: nat)
    requires Grew(a, la, b, lb, start, lo, hi)
    ensures la <= lb
  {
  }

  // ---- Open --------------------------------------------------------------------------------------------

  /** What `open` makes of the id map: the stored records with the node records past the checkpoint replayed over them. */
  function RecoveredNodes(log: seq<CommittedTx>, pages: seq<Page>, live: set<nat>, meta: Meta): Result<Ids> {
    var records :- StoredRecords(pages, live, meta);
    ReplayOps(Loaded(records), PastNow(log))
  }

  /** `open` succeeds on this log and these pages. */
  ghost predicate Opens(log: seq<CommittedTx>, pages: seq<Page>, live: set<nat>, meta: Meta) {
    && Recovered(log, pages, live).Ok? && RecoveredNodes(log, pages, live, meta).Ok?
    && RoomFor(StartOf(meta), live, meta.i2eLen, |RecoveredNodes(log, pages, live, meta).value.i2e|)
  }

  /** A log that creates nodes for which there is no page cannot be opened: the records are still missing. */
  lemma StuckNeverOpens(a: Account, before: Ids, used: set<nat>, view: View, nextTxid: u64, txid: u64, created: seq<Created>,
                        changes: seq<WalRecord>, c: CommitLog, ids: IdMap, pager: Pager)
    requires Balanced(a, before, used, view, nextTxid, Some(txid)) && Reserved(before, created) && ChangesOnly(changes)
    requires ids.Valid(pager) && Stuck(before, created, ids.Contents(), ids.i2eStart, pager.live)
    ensures !Opens(a.log + [CommitTxOf(txid, Writes(created, changes), c)], pager.pages, pager.live, pager.meta)
  {
    hide Consistent, NodesConsistent, Reserved, ReplayOps, PastNow, Loaded, StoredRecords, CommitTxOf, Recovered, RoomFor, Tracked, Replays,
         OnDisk, Finds, Relabel, ZeroBetween, Writes, DiskHolds, IdMap.Tidy;
    var log, all, d := a.log + [CommitTxOf(txid, Writes(created, changes), c)], ReplayOps(before, CreateRecords(created)).value, |ids.i2e|;
    assert CreateRecords(created) + changes[..0] == CreateRecords(created);
    BalancedMeans(a, before, used, view, nextTxid, Some(txid));
    CommitNodesStep(a, before, nextTxid, txid, created, changes, 0, c, all);
    var bases, marks := a.bases + [a.bases[|a.log|]], a.marks + [|all.i2e|];
    LatestBase(a, before, nextTxid, Some(txid));
    assert log[..|log|] == log && ids.i2e == all.i2e[..d];
    CrashRecoversNodes(log, all, bases, marks, nextTxid, None, |log|, d);
    assert DiskHolds(pager.pages, pager.live, pager.meta, ids.i2e) by { ValidDisk(ids, pager); }
    HeldRecords(pager.pages, pager.live, pager.meta, ids.i2e);
    assert all.i2e[..|all.i2e|] == all.i2e;
  }

  lemma LatestBase(a: Account, ids: Ids, nextTxid: u64, writer: Option<u64>)
    requires NodesConsistent(a.log, ids, a.bases, a.marks, nextTxid, writer)
    ensures |a.bases| == |a.log| + 1 && a.bases[|a.log|] <= |ids.i2e|
  {
    hide PastNow, InOrder, Finds, Unique, ZeroBetween;
    AllMadeLengths(a.log, ids.i2e, a.bases, a.marks);
    AllMadeNow(a.log, ids.i2e, a.bases, a.marks);
    MakesRange(PastNow(a.log), ids.i2e, a.bases[|a.log|], |ids.i2e|);
  }

  lemma ValidDisk(ids: IdMap, pager: Pager)
    requires ids.Valid(pager)
    ensures DiskHolds(pager.pages, pager.live, pager.meta, ids.i2e) && StartOf(pager.meta) == ids.i2eStart
  {
    hide OnDisk, IdMap.Tidy;
  }

  /** The parts of an open engine that reopening yields. */
  datatype Opened = Opened(view: View, nextTxid: u64, ids: IdMap)

  /**
   * `GraphEngine::open`: load the id map, replay the log, load the manifest's segments, replay labels, then the
   * node records and runs past the checkpoint. It succeeds exactly when each of those does.
   */
  method Open(file: seq<byte>, disk: Pager) returns (r: Result<Opened>)
    requires disk.Valid() && WellKept(disk.meta)
    modifies disk, disk.bits
    ensures disk.Valid()
    ensures var log := ReplayCommitted(file);
            && (r.Ok? <==> log.Ok? && Opens(log.value, old(disk.pages), old(disk.live), old(disk.meta)))
            && (r.Ok? ==>
                  && Recovered(log.value, old(disk.pages), old(disk.live)) == Ok(r.value.view)
                  && fresh(r.value.ids) && r.value.ids.Valid(disk)
                  && RecoveredNodes(log.value, old(disk.pages), old(disk.live), old(disk.meta)) == Ok(r.value.ids.Contents())
                  && r.value.nextTxid == NextTxid(ScanState(log.value)))
    ensures r.Ok? ==> (old(disk.meta).i2eStartPageId != 0 ==> r.value.ids.i2eStart == StartOf(old(disk.meta)))
    ensures r.Ok? ==> old(disk.meta).i2eLen <= r.value.ids.i2eLen
                      && Grew(old(disk.pages), old(disk.live), disk.pages, disk.live, r.value.ids.i2eStart, old(disk.meta).i2eLen, r.value.ids.i2eLen)
  {
    hide ReplayCommitted, ScanState, RunsOf, ReplayLabels, ReplayOps, PastNow, LoadListed, Pager.Valid, Indexed, RoomFor, Grew, OnDisk,
         IdMap.Tidy, StoredRecords, Loaded;
    var loaded := IdMapPages.Load(disk);
    if loaded.Err? { return Err(loaded.error); }
    var ids := loaded.value;
    LoadedValid(ids, disk, StoredRecords(disk.pages, disk.live, disk.meta).value);
    var wal := new Wal.Open(file);
    var committed := wal.ReplayLog();
    if committed.Err? { return Err(committed.error); }
    var log := committed.value;
    var st := ScanRecoveryState(log);
    var segments := LoadManifest(disk, st.segments);
    if segments.Err? { return Err(segments.error); }
    var labels := ReplayLabelTransactions(log);
    if labels.Err? { return Err(labels.error); }
    var done := ids.Replay(disk, PastNow(log));
    if done.Err? { return Err(done.error); }
    var runs := ReplayRuns(log, st.checkpoint);
    var view := View(runs, segments.value, labels.value, st.epoch, st.propertiesRoot, st.statsRoot);
    r := Ok(Opened(view, NextTxid(st), ids));
  }

  // ---- Crash and reopen -----------------------------------------------------------------------------------

  /**
   * After a crash that left `n` transactions in the log and the first `d` records on disk: the manifest's segments are
   * on their pages, no stored record with external id 0 is met again, every label change names a node known by then,
   * and there are pages for the records still to be written.
   */
  ghost predicate Recoverable(a: Account, r: seq<I2eRecord>, n: nat, d: nat, pages: seq<Page>, live: set<nat>, meta: Meta)
  {
    && n < |a.history| == |a.bases| == |a.marks| == |a.log| + 1 && AllLoad(pages, live, a.history[n].segments)
    && Replays(PastNow(a.log[..n]), r, a.bases[n], a.marks[n], d)
    && RoomFor(StartOf(meta), live, d, Max(a.marks[n], d))
  }

  /** The manifest of the view after `n` transactions loads from these pages. */
  ghost predicate ManifestLoads(a: Account, n: nat, pages: seq<Page>, live: set<nat>) {
    n < |a.history| && AllLoad(pages, live, a.history[n].segments)
  }

  /** A disk a crash may leave: the first `d` records, at least those under the checkpoint of the surviving log. */
  ghost predicate Leaves(a: Account, r: seq<I2eRecord>, n: nat, d: nat, pages: seq<Page>, live: set<nat>, meta: Meta) {
    n < |a.bases| && a.bases[n] <= d <= |r| && DiskHolds(pages, live, meta, r[..d])
  }

  /** No record is on disk before its transaction was durable. */
  ghost predicate NotAhead(a: Account, n: nat, d: nat) { n < |a.marks| && d <= a.marks[n] }

  /** What that crash brings back: the view the log carried, and the id map with the labels the log tells. */
  ghost predicate BroughtBack(a: Account, r: seq<I2eRecord>, n: nat, d: nat, view: View, ids: Ids)
  {
    && n < |a.history| == |a.bases| == |a.marks| == |a.log| + 1 && d <= |r| && a.marks[n] <= |r|
    && view == Rebuilt(a.log[..n], a.history[n]) && SameView(Durable(a.history[n]), view)
    && Finds(ids) && |ids.i2l| == |ids.i2e| && ids.i2e == r[..Max(a.marks[n], d)]
    && forall k :: 0 <= k < |ids.i2l| ==> ids.i2l[k] == Relabel([r[k].labelId], PastNow(a.log[..n]), k)
  }

  /** Crash recovery on values: reopening brings back exactly that state, exactly when it is recoverable. */
  lemma CrashOpens(a: Account, ids: Ids, used: set<nat>, view: View, nextTxid: u64, writer: Option<u64>, n: nat, d: nat,
                   pages: seq<Page>, live: set<nat>, meta: Meta)
    requires Balanced(a, ids, used, view, nextTxid, writer) && n <= |a.log| && n < |a.bases| && a.bases[n] <= d <= |ids.i2e|
    requires DiskHolds(pages, live, meta, ids.i2e[..d])
    ensures |a.history| == |a.bases| == |a.marks| == |a.log| + 1 && a.marks[n] <= |ids.i2e| && SameView(Durable(a.history[n]), Rebuilt(a.log[..n], a.history[n]))
    ensures Recoverable(a, ids.i2e, n, d, pages, live, meta) <==>
              Opens(a.log[..n], pages, live, meta) && Recovered(a.log[..n], pages, live).value.segments == a.history[n].segments
    ensures AllLoad(pages, live, a.history[n].segments) ==>
              (Opens(a.log[..n], pages, live, meta) <==> Recoverable(a, ids.i2e, n, d, pages, live, meta))
    ensures Recoverable(a, ids.i2e, n, d, pages, live, meta) ==>
              BroughtBack(a, ids.i2e, n, d, Recovered(a.log[..n], pages, live).value, RecoveredNodes(a.log[..n], pages, live, meta).value)
  {
    hide Consistent, NodesConsistent, Tracked, PastNow, ReplayOps, Loaded, Rebuilt, SameView, Durable, Published, Recovered, Replays, RoomFor,
         AllLoad, StoredRecords, DiskHolds, Finds, Relabel, Faithful;
    BalancedMeans(a, ids, used, view, nextTxid, writer);
    ViewReturns(a, n, pages, live);
    HeldRecords(pages, live, meta, ids.i2e[..d]);
    DiskLength(pages, live, meta, ids.i2e[..d]);
    CrashRecoversNodes(a.log, ids, a.bases, a.marks, nextTxid, writer, n, d);
    if Recoverable(a, ids.i2e, n, d, pages, live, meta) { FindsLengths(RecoveredNodes(a.log[..n], pages, live, meta).value); }
  }

  lemma DiskLength(pages: seq<Page>, live: set<nat>, meta: Meta, records: seq<I2eRecord>)
    requires DiskHolds(pages, live, meta, records)
    ensures meta.i2eLen == |records|
  {
  }

  lemma ViewReturns(a: Account, n: nat, pages: seq<Page>, live: set<nat>)
    requires Faithful(a.log, a.store, a.history) && n <= |a.log|
    ensures SameView(Durable(a.history[n]), Rebuilt(a.log[..n], a.history[n]))
    ensures Recovered(a.log[..n], pages, live) == Ok(Rebuilt(a.log[..n], a.history[n])) <==> AllLoad(pages, live, a.history[n].segments)
    ensures Recovered(a.log[..n], pages, live).Ok? && Recovered(a.log[..n], pages, live).value.segments == a.history[n].segments ==>
              AllLoad(pages, live, a.history[n].segments)
    ensures AllLoad(pages, live, a.history[n].segments) ==> Rebuilt(a.log[..n], a.history[n]).segments == a.history[n].segments
  {
    hide ScanState, RunsOf, ReplayLabels, LoadListed, AllLoad, Sound, DropOwn, SameRuns;
    assert Stands(a.log[..n], a.store, a.history[n]);
    RecoversIff(a.log[..n], a.store, Durable(a.history[n]), pages, live);
    assert Rebuilt(a.log[..n], Durable(a.history[n])) == Rebuilt(a.log[..n], a.history[n]);
    ListedIff(pages, live, a.history[n].segments);
  }

  /**
   * Lose any suffix of the log and any number of the latest records, and reopen. Exactly when that is recoverable the
   * result is the durable part of the view the log carried after the surviving transactions, with the id map
   * they made.
   */
  method CrashAndReopen(e: GraphEngine, k: nat, disk: Pager, ghost d: nat) returns (r: Result<Opened>, ghost n: nat, ghost back: bool)
    requires e.Valid() && k <= |e.wal.file| && disk.Valid() && AllStorable(e.recs)
    requires Leaves(e.acc, e.ids.i2e, Survivors(e.recs, k), d, disk.pages, disk.live, disk.meta)
    modifies disk, disk.bits
    ensures n == Survivors(e.recs, k) <= |e.acc.log| && (k == |e.wal.file| ==> n == |e.acc.log|)
    ensures back == Recoverable(e.acc, e.ids.i2e, n, d, old(disk.pages), old(disk.live), old(disk.meta))
    ensures back <==> r.Ok? && n < |e.acc.history| && r.value.view.segments == e.acc.history[n].segments
    ensures ManifestLoads(e.acc, n, old(disk.pages), old(disk.live)) ==> (r.Ok? <==> back)
    ensures back ==> BroughtBack(e.acc, e.ids.i2e, n, d, r.value.view, r.value.ids.Contents())
  {
    hide Balanced, Carries, Survivors, ReplayCommitted, Recovered, RecoveredNodes, Opens, Recoverable, BroughtBack, Pager.Valid, IdMap.Valid,
         DiskHolds, Grew, AllLoad;
    CarriesStorable(e.wal.file, e.recs, e.acc.log);
    n := Survivors(e.recs, k);
    KeptWell(disk, e.ids.i2e[..d]);
    TruncationRecoversPrefix(e.wal.file, e.recs, e.acc.log, k);
    if k == |e.wal.file| { NothingLost(e.wal.file, e.recs, e.acc.log, k); }
    CrashOpens(e.acc, e.ids.Contents(), e.pager.live, e.CurrentView(), e.nextTxid, e.writer, n, d, disk.pages, disk.live, disk.meta);
    back := Recoverable(e.acc, e.ids.i2e, n, d, disk.pages, disk.live, disk.meta);
    r := Open(e.wal.file[..k], disk);
  }

  lemma CarriesStorable(file: seq<byte>, recs: seq<WalRecord>, log: seq<CommittedTx>)
    requires Carries(file, recs, log)
    ensures AllStorable(recs)
  {
    hide Storable;
  }

  lemma KeptWell(disk: Pager, records: seq<I2eRecord>)
    requires DiskHolds(disk.pages, disk.live, disk.meta, records)
    ensures WellKept(disk.meta)
  {
  }

  lemma NothingLost(file: seq<byte>, recs: seq<WalRecord>, log: seq<CommittedTx>, k: nat)
    requires Carries(file, recs, log) && k == |file|
    ensures Survivors(recs, k) == |log|
  {
    hide Storable, Appendable, Frame;
    WholeFramesExact(recs, k, |recs|);
    assert recs[..|recs|] == recs;
    DoneCounts(recs, Start);
  }

  /** The running store's own page file holds all its records: a crash of the process alone loses none. */
  lemma LiveDisk(e: GraphEngine)
    requires e.Valid()
    ensures DiskHolds(e.pager.pages, e.pager.live, e.pager.meta, e.ids.i2e[..|e.ids.i2e|])
  {
    hide Balanced, Carries, OnDisk, Pager.Valid, IdMap.Tidy;
    assert e.ids.i2e[..|e.ids.i2e|] == e.ids.i2e;
  }

  /** `bytes` are the first records `kept` of the log, which hold `n` committed transactions. */
  ghost predicate EndsAfter(recs: seq<WalRecord>, kept: seq<WalRecord>, bytes: seq<byte>, n: nat) {
    kept <= recs && AllAppendable(kept) && bytes == Frames(kept) && n == Commits(kept)
  }

  lemma KeptCarries(file: seq<byte>, recs: seq<WalRecord>, log: seq<CommittedTx>, kept: seq<WalRecord>, bytes: seq<byte>, n: nat)
    requires Carries(file, recs, log) && EndsAfter(recs, kept, bytes, n)
    ensures n <= |log| && Carries(bytes, kept, log[..n]) && ReplayCommitted(bytes) == Ok(log[..n])
  {
    hide Carries, ReplayCommitted, Frames;
    assert recs[..|kept|] == kept;
    BoundaryCarries(file, recs, log, |kept|);
    WholeLog(bytes, kept, log[..n]);
  }

  /**
   * Reopen on what survives a crash on a record boundary, no record on disk before its transaction was durable. The
   * new engine is valid again over the surviving log, with everything published; nothing is refused any more.
   */
  method Reopen(crashed: GraphEngine, bytes: seq<byte>, disk: Pager, ghost kept: seq<WalRecord>, ghost n: nat, ghost d: nat)
    returns (r: Result<GraphEngine>, ghost back: bool)
    requires crashed.Valid() && EndsAfter(crashed.recs, kept, bytes, n)
    requires disk.Valid() && Leaves(crashed.acc, crashed.ids.i2e, n, d, disk.pages, disk.live, disk.meta)
    requires NotAhead(crashed.acc, n, d) && forall p :: p in crashed.acc.store ==> p in disk.live
    modifies disk, disk.bits
    ensures ManifestLoads(crashed.acc, n, old(disk.pages), old(disk.live)) ==> (r.Ok? <==> back)
    ensures back == Recoverable(crashed.acc, crashed.ids.i2e, n, d, old(disk.pages), old(disk.live), old(disk.meta))
    ensures back ==>
              && r.Ok? && fresh(r.value) && r.value.Valid() && r.value.writer == None
              && r.value.recs == kept && Restarted(crashed.acc, n, r.value.acc, r.value.CurrentView())
    ensures back && Intact(old(disk.pages), old(disk.live), crashed.acc.store, StartOf(old(disk.meta)), d) ==>
              r.value.IntactIfExclusive(old(disk.pages), old(disk.live), crashed.acc.store, d)
  {
    hide EndsAfter, Balanced, Carries, Frames, Commits, ReplayCommitted, Recovered, RecoveredNodes, Opens, BroughtBack, Pager.Valid, IdMap.Valid, DiskHolds,
         Grew, AfterRestart, Durable, SameView, AllLoad, Rebuilt, NextTxid, Recoverable, ScanState, Intact, Exclusive;
    ghost var a, now, used := crashed.acc, crashed.ids.Contents(), crashed.pager.live;
    ghost var pages, live, meta := disk.pages, disk.live, disk.meta;
    BalancedMeans(a, now, crashed.pager.live, crashed.CurrentView(), crashed.nextTxid, crashed.writer);
    KeptWell(disk, crashed.ids.i2e[..d]);
    DiskLength(pages, live, meta, crashed.ids.i2e[..d]);
    KeptCarries(crashed.wal.file, crashed.recs, a.log, kept, bytes, n);
    CrashOpens(a, now, crashed.pager.live, crashed.CurrentView(), crashed.nextTxid, crashed.writer, n, d, pages, live, meta);
    back := Recoverable(a, now.i2e, n, d, pages, live, meta);
    var parts := Open(bytes, disk);
    if parts.Err? { return Err(parts.error), back; }
    var wal := new Wal.Open(bytes);
    var engine := new GraphEngine.Assemble(wal, disk, parts.value.ids, parts.value.view, parts.value.nextTxid,
                                           kept, AfterRestart(a, n));
    if back {
      GrewLive(pages, live, disk.pages, disk.live, parts.value.ids.i2eStart, meta.i2eLen, parts.value.ids.i2eLen);
      RestartReturns(a, now, used, crashed.CurrentView(), crashed.nextTxid, crashed.writer, n, d, pages, live, meta, disk.live);
      if Intact(pages, live, a.store, StartOf(meta), d) {
        IntactIff(pages, live, disk.pages, disk.live, a.store, StartOf(meta), engine.ids.i2eStart, d, engine.ids.i2eLen);
      }
    }
    r := Ok(engine);
  }

  lemma RestartReturns(a: Account, ids: Ids, used: set<nat>, view: View, nextTxid: u64, writer: Option<u64>, n: nat, d: nat,
                       pages: seq<Page>, live: set<nat>, meta: Meta, live': set<nat>)
    requires Balanced(a, ids, used, view, nextTxid, writer) && n <= |a.log| && n < |a.bases| == |a.marks|
    requires a.bases[n] <= d <= a.marks[n] && d <= |ids.i2e| && DiskHolds(pages, live, meta, ids.i2e[..d])
    requires |a.history| == |a.log| + 1 == |a.bases| && Recoverable(a, ids.i2e, n, d, pages, live, meta)
    requires forall p :: p in a.store ==> p in live'
    ensures Recovered(a.log[..n], pages, live) == Ok(Rebuilt(a.log[..n], a.history[n]))
    ensures RecoveredNodes(a.log[..n], pages, live, meta).Ok?
    ensures SameView(Durable(a.history[n]), Rebuilt(a.log[..n], a.history[n])) && AfterRestart(a, n).log == a.log[..n]
    ensures AfterRestart(a, n).store == a.store
    ensures Balanced(AfterRestart(a, n), RecoveredNodes(a.log[..n], pages, live, meta).value, live', Rebuilt(a.log[..n], a.history[n]),
                     NextTxid(ScanState(a.log[..n])), None)
  {
    hide Balanced, PastNow, ReplayOps, Loaded, Rebuilt, SameView, Durable, Recovered, Replays, RoomFor, AllLoad, StoredRecords, DiskHolds,
         NextTxid, ScanState, Faithful;
    BalancedMeans(a, ids, used, view, nextTxid, writer);
    FindsLengths(ids);
    CrashOpens(a, ids, used, view, nextTxid, writer, n, d, pages, live, meta);
    ViewReturns(a, n, pages, live);
    HeldRecords(pages, live, meta, ids.i2e[..d]);
    RestartBalanced(a, ids, used, view, nextTxid, writer, n, d, live');
  }

  /**
   * While no commit was refused, reopening gives a node the labels it has in the running store exactly when the label
   * changes under the checkpoint net to its first label.
   */
  lemma LabelsSurviveIff(e: GraphEngine, node: nat)
    requires e.Valid() && e.acc.refused == {} && node < |e.ids.i2l|
    ensures |e.ids.i2l| == |e.ids.i2e|
    ensures Relabel([e.ids.i2e[node].labelId], PastNow(e.acc.log), node) == e.ids.i2l[node] <==>
              NetsToFirst(e.ids.i2e[node].labelId, e.acc.covered, PastNow(e.acc.log), node)
  {
    hide Carries, Pager.Valid, Consistent, NodesConsistent, PastNow, Relabel, NetsToFirst, OnDisk, IdMap.Tidy;
    ReopenedLabelsIff(e.ids.Contents(), e.acc.covered, PastNow(e.acc.log), node);
  }

  // ---- What readers see across a compaction -----------------------------------------------------------

  /** The edges behind the segments of a view. */
  ghost function ContentsOf(segments: seq<Segment>, contents: map<u64, multiset<EdgeKey>>): seq<multiset<EdgeKey>>
    requires forall i :: 0 <= i < |segments| ==> segments[i].metaPageId in contents
  {
    seq(|segments|, i requires 0 <= i < |segments| => contents[segments[i].metaPageId])
  }

  lemma ViewStored(store: SegmentStore, contents: map<u64, multiset<EdgeKey>>, segments: seq<Segment>)
    requires Held(store, segments) && Backed(store, contents)
    ensures forall i :: 0 <= i < |segments| ==> segments[i].metaPageId in contents
    ensures AllStored(segments, ContentsOf(segments, contents))
  {
    hide Stores;
  }

  lemma BalancedStored(a: Account, ids: Ids, live: set<nat>, v: View, nextTxid: u64)
    requires Balanced(a, ids, live, v, nextTxid, None)
    ensures Held(a.store, v.segments) && Backed(a.store, a.contents)
  {
    hide NodesConsistent, Tracked, PastNow, ScanState, Backed, Held, LabelsFit, AllMirrored, Passed;
    FaithfulNow(a.log, a.store, a.history);
    RecoversHeld(a.log, a.store, Durable(a.promised));
  }

  /**
   * In every state the engine can reach with clean runs, compaction changes the answer to a query by exactly the older
   * segment edges that the discarded tombstones hid; a query begins to panic exactly when it asks for the edges into node
   * 0 and a segment without edges is new or was behind a tombstone of that node.
   */
  lemma CompactedView(a: Account, ids: Ids, live: set<nat>, v: View, nextTxid: u64, seg: Segment, folded: multiset<EdgeKey>,
                      q: Neighbors.Query, e: EdgeKey)
    requires Balanced(a, ids, live, v, nextTxid, None) && Clean(v.runs) && Stores(seg, folded) && FoldOf(v.runs, folded)
    ensures forall i :: 0 <= i < |v.segments| ==> v.segments[i].metaPageId in a.contents
    ensures BeginsToPanic(v.runs, v.segments, seg, q) <==> LosesGuard(v.runs, ContentsOf(v.segments, a.contents), folded, q)
    ensures Neighbors.Served([], [seg] + v.segments, q) ==>
              && Neighbors.Served(v.runs, v.segments, q)
              && multiset(Neighbors.Scan([], [seg] + v.segments, q))[e] == multiset(Neighbors.Scan(v.runs, v.segments, q))[e]
                   + if Asked(q, e) && HiddenBy(v.runs, |v.runs|, e) then Total(ContentsOf(v.segments, a.contents), e) else 0
  {
    hide Balanced, Clean, AllMirrored, Stores, Neighbors.Scan, Neighbors.Served, Backed, Held, Folded, BeginsToPanic, LosesGuard;
    BalancedMeans(a, ids, live, v, nextTxid, None);
    BalancedStored(a, ids, live, v, nextTxid);
    ViewStored(a.store, a.contents, v.segments);
    CompactionScan(v.runs, v.segments, ContentsOf(v.segments, a.contents), seg, folded, q, e);
  }
}
