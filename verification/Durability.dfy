/** What the log carries: the view that reopening gives after every prefix of it, and what each operation does to that. */
module Durability {
  import opened Bytes
  import opened Wrappers
  import opened Graph
  import opened Csr
  import opened WalRecords
  import opened WalLog
  import opened MemTables
  import opened Labels
  import opened Recovery
  import opened Compaction
  import opened Pagers
  import opened SegmentPages

  /** Everything readers and the manifest see. */
  datatype View = View(
    runs: seq<Run>,
    segments: seq<Segment>,
    labels: seq<Utf8>,
    epoch: u64,
    propertiesRoot: u64,
    statsRoot: u64)

  const EmptyView := View([], [], [], 0, 0, 0)

  /** Reopening on this log and store gives this view. */
  ghost predicate Recovers(log: seq<CommittedTx>, store: SegmentStore, v: View) {
    var st := ScanState(log);
    && SameRuns(v.runs, RunsOf(log, st.checkpoint))
    && st.segments == PointersTo(v.segments) && Held(store, v.segments)
    && ReplayLabels([], log) == Ok(v.labels)
    && v.epoch == st.epoch && v.propertiesRoot == st.propertiesRoot && v.statsRoot == st.statsRoot
  }

  ghost predicate SameView(a: View, b: View) {
    SameRuns(a.runs, b.runs) && a == b.(runs := a.runs)
  }

  // ---- Reopen ---------------------------------------------------------------------------

  /** What `open` publishes from a log and the pages beside it. */
  function Recovered(log: seq<CommittedTx>, pages: seq<Page>, live: set<nat>): Result<View> {
    var st := ScanState(log);
    var segments :- LoadListed(pages, live, st.segments);
    var labels :- ReplayLabels([], log);
    Ok(View(RunsOf(log, st.checkpoint), segments, labels, st.epoch, st.propertiesRoot, st.statsRoot))
  }

  /** The view with its runs rebuilt from the log. */
  function Rebuilt(log: seq<CommittedTx>, v: View): View { v.(runs := RunsOf(log, ScanState(log).checkpoint)) }

  /** Reopening gives the view the log carries exactly when the manifest's segments are still on their pages. */
  lemma RecoversIff(log: seq<CommittedTx>, store: SegmentStore, v: View, pages: seq<Page>, live: set<nat>)
    requires Recovers(log, store, v)
    ensures SameView(v, Rebuilt(log, v))
    ensures Recovered(log, pages, live) == Ok(Rebuilt(log, v)) <==> AllLoad(pages, live, v.segments)
  {
    hide ScanState, RunsOf, ReplayLabels, LoadListed, AllLoad, SameRun;
    ListedIff(pages, live, v.segments);
  }

  function NextTxid(st: RecoveryState): u64 { if st.maxTxid == 0xFFFF_FFFF_FFFF_FFFF then st.maxTxid else st.maxTxid + 1 }

  // ---- One transaction more --------------------------------------------------------------

  /** Node and label records of a transaction: they do not touch runs, labels or the manifest. */
  predicate NodeOp(r: WalRecord) { r.CreateNode? || r.AddNodeLabel? || r.RemoveNodeLabel? }

  ghost predicate NodeOps(ops: seq<WalRecord>) { forall i :: 0 <= i < |ops| ==> NodeOp(ops[i]) }

  /** Graph records only. */
  ghost predicate GraphOps(ops: seq<WalRecord>) {
    forall i :: 0 <= i < |ops| ==> !ops[i].CreateLabel? && !ManifestOp(ops[i])
  }

  lemma {:induction false} NodeOpsLeaveImage(ops: seq<WalRecord>, img: Image)
    requires NodeOps(ops)
    ensures ApplyAll(ops, img) == img
    decreases |ops|
  {
    if ops != [] { NodeOpsLeaveImage(ops[1..], img); }
  }

  lemma SectionsAreGraphOps(c: CommitLog)
    ensures GraphOps(Records(c))
  {
    hide Creates, NodeTombstones, EdgeTombstones, NodeSets, NodeRemovals, EdgeSets, EdgeRemovals;
  }

  function CommitTxOf(txid: u64, nodeOps: seq<WalRecord>, c: CommitLog): CommittedTx {
    CommittedTx(txid, nodeOps + Records(c))
  }

  function PublishRun(v: View, run: Run): View {
    if run.IsEmpty() then v else v.(runs := [run] + v.runs)
  }

  /** What the log keeps of a view: each run without the edges its own edge tombstones name. */
  function Durable(v: View): (d: View)
    ensures |d.runs| == |v.runs| && d == v.(runs := d.runs)
    ensures forall i :: 0 <= i < |v.runs| ==> d.runs[i] == DropOwn(v.runs[i])
  {
    v.(runs := DropAll(v.runs))
  }

  function DropAll(runs: seq<Run>): (r: seq<Run>)
    ensures |r| == |runs| && forall i :: 0 <= i < |runs| ==> r[i] == DropOwn(runs[i])
  {
    seq(|runs|, i requires 0 <= i < |runs| => DropOwn(runs[i]))
  }

  /** The log keeps the whole view exactly when no run tombstones an edge it holds. */
  lemma DurableIff(v: View)
    requires AllMirrored(v.runs)
    ensures SameView(v, Durable(v)) <==> (forall i :: 0 <= i < |v.runs| ==> v.runs[i].EdgeClean())
  {
    hide DropOwn, Run.EdgeClean, Run.Mirrored;
    forall i | 0 <= i < |v.runs| ensures SameRun(v.runs[i], DropOwn(v.runs[i])) <==> v.runs[i].EdgeClean() {
      CleanDropsNothing(v.runs[i]);
      SameAsDropped(v.runs[i]);
    }
    if forall i :: 0 <= i < |v.runs| ==> v.runs[i].EdgeClean() {
      assert SameRuns(v.runs, Durable(v).runs);
    }
  }

  lemma SameAsDropped(run: Run)
    ensures SameRun(run, DropOwn(run)) <==> run == DropOwn(run)
  {
    hide DropBuckets;
  }

  lemma DurablePublish(v: View, run: Run)
    requires run.Mirrored()
    ensures Durable(PublishRun(v, run)) == PublishRun(Durable(v), DropOwn(run))
  {
    hide DropOwn, Run.Mirrored;
    EmptyAsDropped(run);
    if !run.IsEmpty() {
      assert Durable(PublishRun(v, run)).runs == [DropOwn(run)] + Durable(v).runs;
    }
  }

  lemma EmptyAsDropped(run: Run)
    requires run.Mirrored()
    ensures run.IsEmpty() <==> DropOwn(run).IsEmpty()
  {
    DropNothing(run.edgesBySrc, {});
    DropNothing(run.edgesByDst, {});
  }

  /** After a commit the log recovers the durable part of the published view. */
  lemma CommitRecovers(log: seq<CommittedTx>, store: SegmentStore, v: View,
                       txid: u64, nodeOps: seq<WalRecord>, img: Image, c: CommitLog)
    requires Recovers(log, store, v) && txid > ScanState(log).checkpoint
    requires NodeOps(nodeOps) && img.Valid() && Lists(c, img)
    ensures Recovers(log + [CommitTxOf(txid, nodeOps, c)], store, PublishRun(v, DropOwn(Freeze(img, txid))))
  {
    hide ScanState, RunsOf, RunOf, Lists, Freeze, ReplayLabels, ReplayLabelOps, DropOwn, SameRuns, SameRun, Held, Run.IsEmpty;
    hide GraphOps, NodeOps, CommitTxOf, Image.Valid;
    var tx, st, run := CommitTxOf(txid, nodeOps, c), ScanState(log), DropOwn(Freeze(img, txid));
    CommitIsGraphOps(txid, nodeOps, c);
    ScanAfterGraphOps(log, tx);
    ReplayLabelsSnoc([], log, tx);
    NoLabelOps(v.labels, tx.ops) by { GraphOpsMean(tx.ops); }
    RunsSnoc(log, tx, st.checkpoint);
    ReplayedRun(txid, nodeOps, img, c);
    SameRunsPublish(v, run, RunsOf(log, st.checkpoint), RunOf(tx));
  }

  lemma CommitIsGraphOps(txid: u64, nodeOps: seq<WalRecord>, c: CommitLog)
    requires NodeOps(nodeOps)
    ensures GraphOps(CommitTxOf(txid, nodeOps, c).ops) && CommitTxOf(txid, nodeOps, c).txid == txid
  {
    hide Records;
    SectionsAreGraphOps(c);
  }

  lemma GraphOpsMean(ops: seq<WalRecord>)
    requires GraphOps(ops)
    ensures forall i :: 0 <= i < |ops| ==> !ops[i].CreateLabel? && !ManifestOp(ops[i])
  {
  }

  lemma ScanAfterGraphOps(log: seq<CommittedTx>, tx: CommittedTx)
    requires GraphOps(tx.ops)
    ensures ScanState(log + [tx]) == ScanState(log).(maxTxid := Max(ScanState(log).maxTxid, tx.txid))
  {
    ScanSnoc(log, tx);
    ScanOpsIgnores(ScanState(log).(maxTxid := Max(ScanState(log).maxTxid, tx.txid)), tx.ops);
  }

  lemma SameRunsPublish(v: View, run: Run, replayed: seq<Run>, last: Run)
    requires SameRuns(v.runs, replayed) && SameRun(run, last) && (run.IsEmpty() <==> last.IsEmpty())
    ensures SameRuns(PublishRun(v, run).runs, (if last.IsEmpty() then [] else [last]) + replayed)
  {
    hide SameRun, Run.IsEmpty;
  }

  lemma ReplayedRun(txid: u64, nodeOps: seq<WalRecord>, img: Image, c: CommitLog)
    requires NodeOps(nodeOps) && img.Valid() && Lists(c, img)
    ensures SameRun(DropOwn(Freeze(img, txid)), RunOf(CommitTxOf(txid, nodeOps, c)))
    ensures DropOwn(Freeze(img, txid)).IsEmpty() <==> RunOf(CommitTxOf(txid, nodeOps, c)).IsEmpty()
  {
    hide Lists, Freeze, Records, ApplyAll, DropOwn;
    ApplyAllConcat(nodeOps, Records(c), EmptyImage);
    NodeOpsLeaveImage(nodeOps, EmptyImage);
    CommitReplay(img, c, txid);
  }

  /** A label creation. */
  function LabelTx(txid: u64, name: Utf8, id: u32): CommittedTx { CommittedTx(txid, [CreateLabel(name, id)]) }

  lemma LabelRecovers(log: seq<CommittedTx>, store: SegmentStore, v: View, txid: u64, name: Utf8)
    requires Recovers(log, store, v) && name !in v.labels && |v.labels| <= U32_MAX
    ensures Recovers(log + [LabelTx(txid, name, |v.labels|)], store, v.(labels := v.labels + [name]))
  {
    hide RunsOf;
    var tx, st := LabelTx(txid, name, |v.labels|), ScanState(log);
    ScanSnoc(log, tx);
    ScanOpsIgnores(st.(maxTxid := Max(st.maxTxid, txid)), tx.ops);
    ReplayLabelsSnoc([], log, tx);
    assert tx.ops[1..] == [];
    assert ReplayLabelOps(v.labels + [name], []) == Ok(v.labels + [name]);
    assert Fill(v.labels, |v.labels|) == Ok(v.labels);
    RunsSnoc(log, tx, st.checkpoint);
    NoImage(tx.ops[0]);
    assert ApplyAll(tx.ops[1..], EmptyImage) == EmptyImage;
  }

  lemma NoImage(op: WalRecord)
    requires op.CreateLabel? || ManifestOp(op)
    ensures Apply(EmptyImage, op) == EmptyImage && forall txid :: Freeze(EmptyImage, txid).IsEmpty()
  {
  }

  function CompactTx(txid: u64, upTo: u64, v: View): CommittedTx {
    CommittedTx(txid, [
      ManifestSwitch(v.epoch, PointersTo(v.segments), v.propertiesRoot, v.statsRoot),
      Checkpoint(upTo, v.epoch, v.propertiesRoot, v.statsRoot)])
  }

  /** The runs past a transaction id. */
  function Newer(runs: seq<Run>, upTo: u64): seq<Run> {
    if runs == [] then [] else (if runs[0].txid > upTo then [runs[0]] else []) + Newer(runs[1..], upTo)
  }

  lemma {:induction false} NewerConcat(a: seq<Run>, b: seq<Run>, upTo: u64)
    ensures Newer(a + b, upTo) == Newer(a, upTo) + Newer(b, upTo)
  {
    if a == [] {
      assert a + b == b;
    } else {
      assert (a + b)[1..] == a[1..] + b;
      NewerConcat(a[1..], b, upTo);
    }
  }

  /** Raising the checkpoint leaves the rebuilt runs past it. */
  lemma {:induction false} RunsNewer(txs: seq<CommittedTx>, checkpoint: u64, upTo: u64)
    requires checkpoint <= upTo
    ensures RunsOf(txs, upTo) == Newer(RunsOf(txs, checkpoint), upTo)
  {
    hide RunOf;
    if txs != [] {
      var n := |txs| - 1;
      RunTxid(txs[n]);
      RunsNewer(txs[..n], checkpoint, upTo);
      var here := if txs[n].txid > checkpoint && !RunOf(txs[n]).IsEmpty() then [RunOf(txs[n])] else [];
      NewerConcat(here, RunsOf(txs[..n], checkpoint), upTo);
      if here != [] { assert here[1..] == []; }
    }
  }

  lemma {:induction false} SameNewer(a: seq<Run>, b: seq<Run>, upTo: u64)
    requires SameRuns(a, b)
    ensures SameRuns(Newer(a, upTo), Newer(b, upTo))
  {
    if a != [] {
      assert SameRun(a[0], b[0]);
      SameRunsTail(a, b);
      SameNewer(a[1..], b[1..], upTo);
    }
  }

  lemma SameRunsTail(a: seq<Run>, b: seq<Run>)
    requires SameRuns(a, b) && a != []
    ensures SameRuns(a[1..], b[1..])
  {
    hide SameRun;
  }

  lemma {:induction false} DropNewer(runs: seq<Run>, upTo: u64)
    ensures Newer(DropAll(runs), upTo) == DropAll(Newer(runs, upTo))
  {
    hide DropBuckets;
    if runs != [] {
      assert DropAll(runs)[1..] == DropAll(runs[1..]);
      DropNewer(runs[1..], upTo);
    }
  }

  lemma {:induction false} NewerRuns(runs: seq<Run>, upTo: u64)
    requires AllMirrored(runs) && Descending(runs)
    ensures AllMirrored(Newer(runs, upTo)) && Descending(Newer(runs, upTo))
    ensures forall run :: run in Newer(runs, upTo) <==> run in runs && run.txid > upTo
  {
    hide Run.Mirrored;
    if runs != [] {
      NewerRuns(runs[1..], upTo);
      var rest := Newer(runs[1..], upTo);
      assert runs == [runs[0]] + runs[1..];
      forall i | 0 <= i < |rest| ensures rest[i].txid < runs[0].txid { assert rest[i] in runs[1..]; }
    }
  }

  /** After compaction the log recovers the new manifest and the runs past the checkpoint. */
  lemma CompactRecovers(log: seq<CommittedTx>, store: SegmentStore, v: View, txid: u64, upTo: u64,
                        store': SegmentStore, v': View)
    requires Recovers(log, store, v)
    requires v'.runs == Newer(v.runs, upTo) && v'.labels == v.labels && v'.epoch >= v.epoch && Held(store', v'.segments)
    requires upTo >= ScanState(log).checkpoint
    ensures Recovers(log + [CompactTx(txid, upTo, v')], store', v')
  {
    hide ReplayLabels, ReplayLabelOps, Held, RunOf, ScanState, RunsOf, SameRuns, Newer;
    var tx, st := CompactTx(txid, upTo, v'), ScanState(log);
    ScanSnoc(log, tx);
    CompactScan(st.(maxTxid := Max(st.maxTxid, txid)), tx.ops[0], tx.ops[1]);
    assert tx.ops == [tx.ops[0], tx.ops[1]];
    ReplayLabelsSnoc([], log, tx);
    NoLabelOps(v.labels, tx.ops);
    RunsSnoc(log, tx, upTo);
    CompactRunEmpty(tx);
    RunsNewer(log, st.checkpoint, upTo);
    SameNewer(v.runs, RunsOf(log, st.checkpoint), upTo);
    assert [] + RunsOf(log, upTo) == RunsOf(log, upTo);
  }

  lemma CompactScan(st: RecoveryState, m: WalRecord, c: WalRecord)
    requires m.ManifestSwitch? && c.Checkpoint? && m.epoch == c.epoch >= st.epoch
    requires m.propertiesRoot == c.propertiesRoot && m.statsRoot == c.statsRoot
    ensures ScanOps(st, [m, c]) == RecoveryState(m.epoch, m.segments, c.upToTxid, st.maxTxid, m.propertiesRoot, m.statsRoot)
  {
    var st' := ScanOp(st, m);
    assert [m, c][1..] == [c] && [c][1..] == [];
    assert ScanOps(st', [c]) == ScanOps(ScanOp(st', c), []);
  }

  lemma CompactRunEmpty(tx: CommittedTx)
    requires |tx.ops| == 2 && ManifestOp(tx.ops[0]) && ManifestOp(tx.ops[1])
    ensures RunOf(tx).IsEmpty()
  {
    NoImage(tx.ops[0]);
    NoImage(tx.ops[1]);
    assert ApplyAll(tx.ops[1..][1..], EmptyImage) == EmptyImage;
    assert ApplyAll(tx.ops[1..], EmptyImage) == EmptyImage;
  }

  // ---- Log rewrite on close --------------------------------------------------------------

  function RewriteTx(txid: u64, upTo: u64, v: View): CommittedTx
    requires |v.labels| <= U32_MAX
  {
    CommittedTx(txid, Definitions(v.labels, 0) + CompactTx(txid, upTo, v).ops)
  }

  /** A log of one snapshot transaction recovers the view it was written from. */
  lemma SnapshotRecovers(store: SegmentStore, v: View, txid: u64, upTo: u64)
    requires Held(store, v.segments) && v.runs == [] && Distinct(v.labels) && |v.labels| <= U32_MAX
    ensures Recovers([RewriteTx(txid, upTo, v)], store, v) && Rebuilt([RewriteTx(txid, upTo, v)], v) == v
    ensures ScanState([RewriteTx(txid, upTo, v)]).checkpoint == upTo && ScanState([RewriteTx(txid, upTo, v)]).maxTxid == txid
  {
    hide Held;
    var tx := RewriteTx(txid, upTo, v);
    var tail := CompactTx(txid, upTo, v).ops;
    var defs := Definitions(v.labels, 0);
    var begun := NoState.(maxTxid := txid);
    assert [] + [tx] == [tx];
    ScanSnoc([], tx);
    ScanOpsConcat(begun, defs, tail);
    ScanOpsIgnores(begun, defs);
    assert tail == [tail[0], tail[1]];
    CompactScan(begun, tail[0], tail[1]);
    ReplayLabelsSnoc([], [], tx);
    assert v.labels[..0] == [];
    DefinitionsReplay(v.labels, 0, tail);
    NoLabelOps(v.labels, tail);
    RunsSnoc([], tx, upTo);
    RewriteRunEmpty(tx, defs, tail);
  }

  /**
   * With no runs in the log, the single rewritten transaction recovers, from any pages, what the full
   * log recovers, and every later transaction id lies above its checkpoint.
   */
  lemma RewriteRecovers(log: seq<CommittedTx>, store: SegmentStore, v: View, txid: u64, upTo: u64, pages: seq<Page>, live: set<nat>)
    requires Recovers(log, store, v) && v.runs == [] && Distinct(v.labels) && |v.labels| <= U32_MAX
    ensures Recovers([RewriteTx(txid, upTo, v)], store, v)
    ensures Recovered([RewriteTx(txid, upTo, v)], pages, live) == Recovered(log, pages, live)
    ensures Recovered(log, pages, live) == Ok(v) <==> AllLoad(pages, live, v.segments)
    ensures ScanState([RewriteTx(txid, upTo, v)]).checkpoint == upTo && ScanState([RewriteTx(txid, upTo, v)]).maxTxid == txid
  {
    hide RewriteTx, ScanState, RunsOf, ReplayLabels, LoadListed, AllLoad;
    SnapshotRecovers(store, v, txid, upTo);
    RecoversIff(log, store, v, pages, live);
    assert SameRuns(v.runs, RunsOf(log, ScanState(log).checkpoint));
  }

  lemma {:induction false} ScanOpsConcat(st: RecoveryState, a: seq<WalRecord>, b: seq<WalRecord>)
    ensures ScanOps(st, a + b) == ScanOps(ScanOps(st, a), b)
    decreases |a|
  {
    hide ScanOp;
    if a == [] {
      assert a + b == b;
    } else {
      assert (a + b)[1..] == a[1..] + b;
      ScanOpsConcat(ScanOp(st, a[0]), a[1..], b);
    }
  }

  lemma {:induction false} DefinitionsLeaveImage(ops: seq<WalRecord>)
    requires forall i :: 0 <= i < |ops| ==> ops[i].CreateLabel? || ManifestOp(ops[i])
    ensures ApplyAll(ops, EmptyImage) == EmptyImage
    decreases |ops|
  {
    if ops != [] {
      NoImage(ops[0]);
      DefinitionsLeaveImage(ops[1..]);
    }
  }

  lemma RewriteRunEmpty(tx: CommittedTx, defs: seq<WalRecord>, tail: seq<WalRecord>)
    requires tx.ops == defs + tail
    requires forall i :: 0 <= i < |defs| ==> defs[i].CreateLabel?
    requires forall i :: 0 <= i < |tail| ==> ManifestOp(tail[i])
    ensures RunOf(tx).IsEmpty()
  {
    DefinitionsLeaveImage(tx.ops);
    if tx.ops == [] { NoImage(CreateLabel([], 0)); } else { NoImage(tx.ops[0]); }
  }

  // ---- Whole runs -----------------------------------------------------------------------------

  ghost predicate Descending(runs: seq<Run>) {
    forall i, j :: 0 <= i < j < |runs| ==> runs[j].txid < runs[i].txid
  }

  ghost predicate LabelsFit(labels: seq<Utf8>) {
    Distinct(labels) && |labels| <= U32_MAX && forall i :: 0 <= i < |labels| ==> NameFits(labels[i])
  }

  /** Runs newest first, each past the checkpoint and logged; labels distinct and small enough to log. */
  ghost predicate Sound(v: View, st: RecoveryState) {
    && AllMirrored(v.runs) && Descending(v.runs) && LabelsFit(v.labels) && st.checkpoint <= st.maxTxid
    && forall i :: 0 <= i < |v.runs| ==> st.checkpoint < v.runs[i].txid <= st.maxTxid
  }

  /** The log carries a sound view: reopening gives what is durable of it. */
  ghost predicate Stands(log: seq<CommittedTx>, store: SegmentStore, v: View) {
    Recovers(log, store, Durable(v)) && Sound(v, ScanState(log))
  }

  /** Every prefix of the log carries the view published at that point. */
  ghost predicate Faithful(log: seq<CommittedTx>, store: SegmentStore, history: seq<View>) {
    |history| == |log| + 1 && forall i :: 0 <= i <= |log| ==> Stands(log[..i], store, history[i])
  }

  /**
   * Crash consistency of the view: cut the log at any byte and reopen on pages that may have changed. The result is
   * exactly the durable part of the view the log carried after the transactions whose commit frame survives whole,
   * if and only if that view's segments are still on their pages.
   */
  lemma CrashRecovers(file: seq<byte>, recs: seq<WalRecord>, log: seq<CommittedTx>, store: SegmentStore,
                      history: seq<View>, k: nat, pages: seq<Page>, live: set<nat>)
    requires Carries(file, recs, log) && Faithful(log, store, history) && k <= |file|
    ensures Survivors(recs, k) <= |log|
    ensures var n := Survivors(recs, k);
            var rebuilt := Rebuilt(log[..n], history[n]);
            && ReplayCommitted(file[..k]) == Ok(log[..n]) && SameView(Durable(history[n]), rebuilt)
            && (Recovered(log[..n], pages, live) == Ok(rebuilt) <==> AllLoad(pages, live, history[n].segments))
  {
    hide Recovers, ReplayCommitted, Sound, Survivors, Frames, Steps, Storable, Recovered, ScanState, RunsOf;
    TruncationRecoversPrefix(file, recs, log, k);
    var n := Survivors(recs, k);
    assert Stands(log[..n], store, history[n]);
    RecoversIff(log[..n], store, Durable(history[n]), pages, live);
    assert Rebuilt(log[..n], Durable(history[n])) == Rebuilt(log[..n], history[n]);
  }

  lemma FaithfulSnoc(log: seq<CommittedTx>, tx: CommittedTx, store: SegmentStore, history: seq<View>, v: View)
    requires Faithful(log, store, history) && Stands(log + [tx], store, v)
    ensures Faithful(log + [tx], store, history + [v])
  {
    hide Stands;
    var log', history' := log + [tx], history + [v];
    forall i | 0 <= i <= |log'| ensures Stands(log'[..i], store, history'[i]) {
      if i <= |log| { assert log'[..i] == log[..i]; } else { assert log'[..i] == log'; }
    }
  }

  lemma FaithfulNow(log: seq<CommittedTx>, store: SegmentStore, history: seq<View>)
    requires Faithful(log, store, history)
    ensures |history| == |log| + 1 && Stands(log, store, history[|log|])
    ensures Recovers(log, store, Durable(history[|log|]))
  {
    hide Recovers, Sound;
    assert log[..|log|] == log;
  }

  /** A segment on a fresh page leaves every recoverable view recoverable. */
  lemma FaithfulGrows(log: seq<CommittedTx>, store: SegmentStore, history: seq<View>, page: u64, seg: Segment)
    requires Faithful(log, store, history) && page !in store
    ensures Faithful(log, store[page := seg], history)
  {
    hide ScanState, RunsOf, ReplayLabels, SameRuns, Sound;
    forall i | 0 <= i <= |log| ensures Stands(log[..i], store[page := seg], history[i]) {
      assert Stands(log[..i], store, history[i]);
    }
  }

  // ---- Record sizes ------------------------------------------------------------------------------

  /** The most segments whose manifest record the log reader still accepts. */
  const MAX_SEGMENTS: nat := 65534

  predicate NameFits(name: Utf8) { |name| + 9 <= MAX_WAL_RECORD_LEN }

  lemma CompactTxReadable(txid: u64, upTo: u64, v: View)
    requires |v.segments| <= MAX_SEGMENTS
    ensures ReadableTx(CompactTx(txid, upTo, v))
  {
    var tx := CompactTx(txid, upTo, v);
    assert |EncodeBody(tx.ops[0])| == 29 + 16 * |v.segments|;
    assert |EncodeBody(tx.ops[1])| == 33;
  }

  lemma LabelReadable(name: Utf8, id: u32)
    requires NameFits(name)
    ensures Storable(CreateLabel(name, id))
  {
    assert |EncodeBody(CreateLabel(name, id))| == 9 + |name|;
  }

  lemma RewriteTxReadable(txid: u64, upTo: u64, v: View)
    requires |v.labels| <= U32_MAX && |v.segments| <= MAX_SEGMENTS
    requires forall i :: 0 <= i < |v.labels| ==> NameFits(v.labels[i])
    ensures ReadableTx(RewriteTx(txid, upTo, v))
  {
    hide Storable, Appendable, NameFits;
    CompactTxReadable(txid, upTo, v);
    var defs, tail := Definitions(v.labels, 0), CompactTx(txid, upTo, v).ops;
    forall i | 0 <= i < |defs| ensures Storable(defs[i]) { LabelReadable(v.labels[i], i); }
  }

  // ---- Scans after one transaction ------------------------------------------------------------------

  lemma ScanAfterPlain(log: seq<CommittedTx>, tx: CommittedTx)
    requires forall i :: 0 <= i < |tx.ops| ==> !ManifestOp(tx.ops[i])
    ensures ScanState(log + [tx]) == ScanState(log).(maxTxid := Max(ScanState(log).maxTxid, tx.txid))
  {
    ScanSnoc(log, tx);
    ScanOpsIgnores(ScanState(log).(maxTxid := Max(ScanState(log).maxTxid, tx.txid)), tx.ops);
  }

  lemma ScanAfterCompact(log: seq<CommittedTx>, txid: u64, upTo: u64, v: View)
    requires v.epoch >= ScanState(log).epoch
    ensures ScanState(log + [CompactTx(txid, upTo, v)]).checkpoint == upTo
    ensures ScanState(log + [CompactTx(txid, upTo, v)]).maxTxid == Max(ScanState(log).maxTxid, txid)
  {
    var tx, st := CompactTx(txid, upTo, v), ScanState(log);
    ScanSnoc(log, tx);
    assert tx.ops == [tx.ops[0], tx.ops[1]];
    CompactScan(st.(maxTxid := Max(st.maxTxid, txid)), tx.ops[0], tx.ops[1]);
  }

  function MaxTxid(runs: seq<Run>): (m: u64)
    requires runs != []
    ensures forall i :: 0 <= i < |runs| ==> runs[i].txid <= m
    ensures exists i :: 0 <= i < |runs| && runs[i].txid == m
  {
    if |runs| == 1 then runs[0].txid
    else
      var m := MaxTxid(runs[1..]);
      if runs[0].txid >= m then runs[0].txid else m
  }

  // ---- One step on values --------------------------------------------------------------------

  /** Ids still to be used lie above everything logged; an open writer lies above every run. */
  ghost predicate Numbered(st: RecoveryState, runs: seq<Run>, nextTxid: u64, writer: Option<u64>) {
    && st.maxTxid < nextTxid
    && (writer.Some? ==> st.checkpoint < writer.value < nextTxid)
    && (writer.Some? ==> forall i :: 0 <= i < |runs| ==> runs[i].txid < writer.value)
  }

  /** The edges behind every durable segment. */
  ghost predicate Backed(store: SegmentStore, contents: map<u64, multiset<EdgeKey>>) {
    store.Keys == contents.Keys && forall p :: p in store ==> Stores(store[p], contents[p])
  }

  /** What every operation keeps between the log, the durable segments and the published view. */
  ghost predicate Consistent(log: seq<CommittedTx>, store: SegmentStore, contents: map<u64, multiset<EdgeKey>>,
                             history: seq<View>, v: View, nextTxid: u64, writer: Option<u64>)
  {
    && Faithful(log, store, history) && history[|log|] == v
    && Numbered(ScanState(log), v.runs, nextTxid, writer) && Backed(store, contents)
  }

  lemma SoundCommit(st: RecoveryState, v: View, nextTxid: u64, txid: u64, run: Run)
    requires Sound(v, st) && Numbered(st, v.runs, nextTxid, Some(txid))
    requires run.txid == txid && run.Mirrored()
    ensures st.checkpoint < txid
    ensures var v', st' := PublishRun(v, run), st.(maxTxid := Max(st.maxTxid, txid));
            Sound(v', st') && Numbered(st', v'.runs, nextTxid, None)
  {
    hide Run.IsEmpty, Run.Mirrored, LabelsFit;
    assert Some(txid).value == txid;
  }

  lemma ScanAfterCommit(log: seq<CommittedTx>, txid: u64, nodeOps: seq<WalRecord>, c: CommitLog)
    requires NodeOps(nodeOps)
    ensures ScanState(log + [CommitTxOf(txid, nodeOps, c)])
         == ScanState(log).(maxTxid := Max(ScanState(log).maxTxid, txid))
  {
    hide Records, ScanState, GraphOps;
    CommitIsGraphOps(txid, nodeOps, c);
    ScanAfterGraphOps(log, CommitTxOf(txid, nodeOps, c));
  }

  lemma BeginStep(log: seq<CommittedTx>, store: SegmentStore, contents: map<u64, multiset<EdgeKey>>,
                  history: seq<View>, v: View, nextTxid: u64)
    requires Consistent(log, store, contents, history, v, nextTxid, None) && nextTxid < 0xFFFF_FFFF_FFFF_FFFF
    ensures Consistent(log, store, contents, history, v, nextTxid + 1, Some(nextTxid))
  {
    hide ScanState, Recovers, Faithful, AllMirrored, LabelsFit, Backed;
    FaithfulNow(log, store, history);
  }

  lemma CommitStep(log: seq<CommittedTx>, store: SegmentStore, contents: map<u64, multiset<EdgeKey>>,
                   history: seq<View>, v: View, nextTxid: u64,
                   txid: u64, nodeOps: seq<WalRecord>, img: Image, c: CommitLog)
    requires Consistent(log, store, contents, history, v, nextTxid, Some(txid))
    requires NodeOps(nodeOps) && img.Valid() && Lists(c, img) && ReadableTx(CommitTxOf(txid, nodeOps, c))
    ensures var v' := PublishRun(v, Freeze(img, txid));
            Consistent(log + [CommitTxOf(txid, nodeOps, c)], store, contents, history + [v'], v', nextTxid, None)
  {
    hide ScanState, Recovers, Faithful, ReadableTx, Lists, NodeOps, Sound, Numbered, CommitTxOf;
    hide PublishRun, Durable, DropOwn, Run.Mirrored, Image.Valid, Backed;
    var run, tx := Freeze(img, txid), CommitTxOf(txid, nodeOps, c);
    FaithfulNow(log, store, history);
    FreezeMirrored(img, txid);
    SoundCommit(ScanState(log), v, nextTxid, txid, run);
    CommitRecovers(log, store, Durable(v), txid, nodeOps, img, c);
    DurablePublish(v, run);
    ScanAfterCommit(log, txid, nodeOps, c);
    FaithfulSnoc(log, tx, store, history, PublishRun(v, run));
  }

  /** Skipping ids does no harm. */
  lemma LaterStep(log: seq<CommittedTx>, store: SegmentStore, contents: map<u64, multiset<EdgeKey>>,
                  history: seq<View>, v: View, nextTxid: u64, later: u64)
    requires Consistent(log, store, contents, history, v, nextTxid, None) && nextTxid <= later
    ensures Consistent(log, store, contents, history, v, later, None)
  {
    hide ScanState, Faithful, Backed;
  }

  lemma LabelStep(log: seq<CommittedTx>, store: SegmentStore, contents: map<u64, multiset<EdgeKey>>,
                  history: seq<View>, v: View, nextTxid: u64, writer: Option<u64>, name: Utf8)
    requires Consistent(log, store, contents, history, v, nextTxid, writer) && nextTxid < 0xFFFF_FFFF_FFFF_FFFF
    requires name !in v.labels && |v.labels| < U32_MAX && NameFits(name)
    ensures var tx := LabelTx(nextTxid, name, |v.labels|);
            var v' := v.(labels := v.labels + [name]);
            ReadableTx(tx) && Consistent(log + [tx], store, contents, history + [v'], v', nextTxid + 1, writer)
  {
    hide ScanState, Recovers, Faithful, ReadableTx, AllMirrored, DropOwn, Backed, NameFits;
    var tx, v' := LabelTx(nextTxid, name, |v.labels|), v.(labels := v.labels + [name]);
    FaithfulNow(log, store, history);
    LabelRecovers(log, store, Durable(v), nextTxid, name);
    assert Durable(v') == Durable(v).(labels := v.labels + [name]);
    ScanAfterPlain(log, tx);
    FaithfulSnoc(log, tx, store, history, v');
    LabelTxReadable(nextTxid, name, |v.labels|);
  }

  lemma LabelTxReadable(txid: u64, name: Utf8, id: u32)
    requires NameFits(name)
    ensures ReadableTx(LabelTx(txid, name, id))
  {
    hide Storable, Appendable, NameFits;
    LabelReadable(name, id);
  }

  lemma CompactStep(log: seq<CommittedTx>, store: SegmentStore, contents: map<u64, multiset<EdgeKey>>, history: seq<View>,
                    v: View, nextTxid: u64, seg: Segment, folded: multiset<EdgeKey>, upTo: u64, v': View)
    requires Consistent(log, store, contents, history, v, nextTxid, None) && nextTxid < 0xFFFF_FFFF_FFFF_FFFF
    requires |v.segments| < MAX_SEGMENTS && seg.metaPageId !in store && Stores(seg, folded)
    requires exists i :: 0 <= i < |v.runs| && v.runs[i].txid == upTo
    requires v'.runs == Newer(v.runs, upTo) && v'.segments == [seg] + v.segments && v'.labels == v.labels && v'.epoch == v.epoch + 1
    ensures var tx := CompactTx(nextTxid, upTo, v');
            && ReadableTx(tx)
            && Consistent(log + [tx], store[seg.metaPageId := seg], contents[seg.metaPageId := folded],
                          history + [v'], v', nextTxid + 1, None)
  {
    hide ScanState, Recovers, Faithful, ReadableTx, CompactTx, Stores, Sound, Numbered, Backed, Durable, Newer;
    var store' := store[seg.metaPageId := seg];
    var tx := CompactTx(nextTxid, upTo, v');
    FaithfulNow(log, store, history);
    DurableNewer(v, v', upTo);
    NewSegmentHeld(log, store, Durable(v), seg);
    EpochOf(log, store, Durable(v));
    ScanAfterCompact(log, nextTxid, upTo, v');
    CompactSound(v, ScanState(log), v', ScanState(log + [tx]), nextTxid, upTo);
    CompactDurable(log, store, v, nextTxid, upTo, store', v');
    FaithfulGrows(log, store, history, seg.metaPageId, seg);
    FaithfulSnoc(log, tx, store', history, v');
    BackedGrows(store, contents, seg, folded);
    CompactTxReadable(nextTxid, upTo, v');
  }

  lemma CompactDurable(log: seq<CommittedTx>, store: SegmentStore, v: View, txid: u64, upTo: u64, store': SegmentStore, v': View)
    requires Recovers(log, store, Durable(v)) && Durable(v').runs == Newer(Durable(v).runs, upTo)
    requires v'.labels == v.labels && v'.epoch >= v.epoch && Held(store', v'.segments) && upTo >= ScanState(log).checkpoint
    ensures Recovers(log + [CompactTx(txid, upTo, v')], store', Durable(v'))
  {
    hide Recovers, ScanState, DropOwn, Held, Newer;
    CompactRecovers(log, store, Durable(v), txid, upTo, store', Durable(v'));
    assert CompactTx(txid, upTo, Durable(v')) == CompactTx(txid, upTo, v');
  }

  lemma DurableNewer(v: View, v': View, upTo: u64)
    requires v'.runs == Newer(v.runs, upTo)
    ensures Durable(v').runs == Newer(Durable(v).runs, upTo)
    ensures Durable(v).segments == v.segments && Durable(v).labels == v.labels && Durable(v).epoch == v.epoch
  {
    hide DropOwn, Newer;
    DropNewer(v.runs, upTo);
  }

  lemma CompactSound(v: View, st: RecoveryState, v': View, st': RecoveryState, nextTxid: u64, upTo: u64)
    requires Sound(v, st) && Numbered(st, v.runs, nextTxid, None) && nextTxid < 0xFFFF_FFFF_FFFF_FFFF
    requires v'.runs == Newer(v.runs, upTo) && v'.labels == v.labels && exists i :: 0 <= i < |v.runs| && v.runs[i].txid == upTo
    requires st'.checkpoint == upTo && st'.maxTxid == Max(st.maxTxid, nextTxid)
    ensures Sound(v', st') && Numbered(st', v'.runs, nextTxid + 1, None) && upTo >= st.checkpoint
  {
    hide LabelsFit, Newer, Descending, AllMirrored;
    NewerRuns(v.runs, upTo);
    forall i | 0 <= i < |v'.runs| ensures upTo < v'.runs[i].txid <= st.maxTxid {
      assert v'.runs[i] in v'.runs;
    }
  }

  lemma BackedGrows(store: SegmentStore, contents: map<u64, multiset<EdgeKey>>, seg: Segment, folded: multiset<EdgeKey>)
    requires Backed(store, contents) && Stores(seg, folded)
    ensures Backed(store[seg.metaPageId := seg], contents[seg.metaPageId := folded])
  {
    hide Stores;
  }

  lemma NewSegmentHeld(log: seq<CommittedTx>, store: SegmentStore, v: View, seg: Segment)
    requires Recovers(log, store, v) && seg.metaPageId !in store
    ensures Held(store[seg.metaPageId := seg], [seg] + v.segments)
  {
  }

  lemma EpochOf(log: seq<CommittedTx>, store: SegmentStore, v: View)
    requires Recovers(log, store, v)
    ensures v.epoch == ScanState(log).epoch
  {
  }

  /** The rewritten log carries the view without runs, and the checkpoint stays below the next id. */
  lemma RewriteStep(log: seq<CommittedTx>, store: SegmentStore, contents: map<u64, multiset<EdgeKey>>,
                    history: seq<View>, v: View, nextTxid: u64, v': View)
    requires Consistent(log, store, contents, history, v, nextTxid, None) && 0 < nextTxid < 0xFFFF_FFFF_FFFF_FFFF
    requires v' == v.(runs := []) && |v.segments| <= MAX_SEGMENTS
    ensures |v'.labels| <= U32_MAX
    ensures var tx := RewriteTx(nextTxid, nextTxid - 1, v');
            ReadableTx(tx) && Consistent([tx], store, contents, [EmptyView, v'], v', nextTxid + 1, None)
  {
    hide ScanState, Recovers, Faithful, ReadableTx, RewriteTx, Backed, Sound, Durable, Distinct, NameFits, Held;
    FaithfulNow(log, store, history);
    SoundLabels(v, v', ScanState(log));
    RecoversHeld(log, store, Durable(v));
    var tx := RewriteTx(nextTxid, nextTxid - 1, v');
    SnapshotRecovers(store, v', nextTxid, nextTxid - 1);
    RewriteTxReadable(nextTxid, nextTxid - 1, v');
    SoundNoRuns(v', ScanState([tx]));
    SingleLog(tx, store, v');
  }

  lemma RecoversHeld(log: seq<CommittedTx>, store: SegmentStore, v: View)
    requires Recovers(log, store, v)
    ensures Held(store, v.segments)
  {
  }

  lemma SoundLabels(v: View, v': View, st: RecoveryState)
    requires Sound(v, st) && v' == v.(runs := [])
    ensures LabelsFit(v'.labels) && Durable(v') == v' && Durable(v).segments == v'.segments
  {
    hide LabelsFit, DropOwn;
    assert Durable(v').runs == [];
  }

  lemma SoundNoRuns(v: View, st: RecoveryState)
    requires LabelsFit(v.labels) && v.runs == [] && st.checkpoint <= st.maxTxid
    ensures Sound(v, st)
  {
    hide LabelsFit;
  }

  lemma SingleLog(tx: CommittedTx, store: SegmentStore, v: View)
    requires Stands([tx], store, v)
    ensures Faithful([tx], store, [EmptyView, v])
  {
    hide Stands;
    assert [] + [tx] == [tx];
    EmptyStands(store);
    FaithfulSnoc([], tx, store, [EmptyView], v);
    assert [EmptyView] + [v] == [EmptyView, v];
  }

  lemma EmptyStands(store: SegmentStore)
    ensures Stands([], store, EmptyView) && Faithful([], store, [EmptyView])
  {
  }

  /** The edges compaction writes, each with its multiplicity. */
  ghost predicate FoldOf(runs: seq<Run>, folded: multiset<EdgeKey>) {
    forall e :: folded[e] == Folded(runs, 0, e)
  }

  // ---- Reopening after a crash on a transaction boundary ---------------------------------------

  lemma DropMirrored(run: Run)
    requires run.Mirrored()
    ensures DropOwn(run).Mirrored() && DropOwn(DropOwn(run)) == DropOwn(run)
  {
    var dead, d := run.tombstonedEdges, DropOwn(run);
    DropCounts(run.edgesBySrc, dead);
    DropCounts(run.edgesByDst, dead);
    forall e: EdgeKey ensures CountIn(d.edgesBySrc, e.src, e) == CountIn(d.edgesByDst, e.dst, e) {
      assert CountIn(run.edgesBySrc, e.src, e) == CountIn(run.edgesByDst, e.dst, e);
    }
    assert Pure(d.edgesBySrc, Outgoing) && Pure(d.edgesByDst, Incoming);
    DropNothing(d.edgesBySrc, dead);
    DropNothing(d.edgesByDst, dead);
  }

  lemma DropCounts(m: map<NodeId, seq<EdgeKey>>, dead: set<EdgeKey>)
    ensures forall n, e :: CountIn(DropBuckets(m, dead), n, e) == if e in dead then 0 else CountIn(m, n, e)
  {
    forall n, e ensures CountIn(DropBuckets(m, dead), n, e) == if e in dead then 0 else CountIn(m, n, e) {
      KeepCounts(Bucket(m, n), dead);
    }
  }

  lemma SameMirrored(a: Run, b: Run)
    requires SameRun(a, b) && a.Mirrored()
    ensures b.Mirrored() && SameRun(DropOwn(a), DropOwn(b)) && a.txid == b.txid
  {
    hide DropBuckets, CountIn;
  }

  /** What reopening returns is itself a sound view that the same log carries. */
  lemma ReopenedStands(log: seq<CommittedTx>, store: SegmentStore, v: View)
    requires Stands(log, store, v)
    ensures Stands(log, store, Rebuilt(log, v)) && SameView(Durable(v), Rebuilt(log, v))
  {
    hide ScanState, RunsOf, ReplayLabels, SameRun, Run.Mirrored, DropOwn, LabelsFit;
    var w := Rebuilt(log, v);
    forall i | 0 <= i < |w.runs|
      ensures w.runs[i].Mirrored() && SameRun(DropOwn(w.runs[i]), w.runs[i]) && w.runs[i].txid == v.runs[i].txid
    {
      assert SameRun(Durable(v).runs[i], w.runs[i]);
      ReopenedRun(v.runs[i], w.runs[i]);
    }
    assert SameRuns(Durable(w).runs, w.runs);
  }

  lemma ReopenedRun(live: Run, replayed: Run)
    requires live.Mirrored() && SameRun(DropOwn(live), replayed)
    ensures replayed.Mirrored() && SameRun(DropOwn(replayed), replayed) && replayed.txid == live.txid
  {
    hide DropOwn;
    DropMirrored(live);
    SameMirrored(DropOwn(live), replayed);
  }

  /** The views reopening gives after each prefix. */
  ghost function Reopened(log: seq<CommittedTx>, history: seq<View>, n: nat): (h: seq<View>)
    requires |history| == |log| + 1 && n <= |log|
    ensures |h| == n + 1 && forall i :: 0 <= i <= n ==> h[i] == Rebuilt(log[..i], history[i])
  {
    seq(n + 1, i requires 0 <= i <= n => Rebuilt(log[..i], history[i]))
  }

  lemma RestartStep(log: seq<CommittedTx>, store: SegmentStore, contents: map<u64, multiset<EdgeKey>>,
                    history: seq<View>, v: View, nextTxid: u64, writer: Option<u64>, n: nat)
    requires Consistent(log, store, contents, history, v, nextTxid, writer) && n <= |log|
    ensures |history| == |log| + 1 && ScanState(log[..n]).maxTxid < nextTxid
    ensures var h := Reopened(log, history, n);
            && SameView(Durable(history[n]), h[n])
            && Consistent(log[..n], store, contents, h, h[n], ScanState(log[..n]).maxTxid + 1, None)
  {
    hide Recovers, ScanState, Backed, Durable, Sound, SameView, Rebuilt;
    var h, cut := Reopened(log, history, n), log[..n];
    forall i | 0 <= i <= n ensures Stands(cut[..i], store, h[i]) && SameView(Durable(history[i]), h[i]) {
      assert cut[..i] == log[..i];
      assert Stands(log[..i], store, history[i]);
      ReopenedStands(log[..i], store, history[i]);
    }
    ScanMaxGrows(log, n);
  }

  // ---- Committed but not published ---------------------------------------------------------------

  /** The runs whose transaction was not refused after logging. */
  function Passed(runs: seq<Run>, refused: set<u64>): seq<Run> {
    if runs == [] then [] else (if runs[0].txid in refused then [] else [runs[0]]) + Passed(runs[1..], refused)
  }

  /** What readers see of a view the log carries: everything but the runs of refused transactions. */
  function Published(v: View, refused: set<u64>): View { v.(runs := Passed(v.runs, refused)) }

  lemma {:induction false} PassedIn(runs: seq<Run>, refused: set<u64>)
    ensures forall run :: run in Passed(runs, refused) <==> run in runs && run.txid !in refused
  {
    if runs != [] {
      PassedIn(runs[1..], refused);
      assert runs == [runs[0]] + runs[1..];
    }
  }

  lemma {:induction false} PassedMore(runs: seq<Run>, refused: set<u64>, txid: u64)
    requires forall i :: 0 <= i < |runs| ==> runs[i].txid != txid
    ensures Passed(runs, refused + {txid}) == Passed(runs, refused)
  {
    if runs != [] { PassedMore(runs[1..], refused, txid); }
  }

  lemma {:induction false} PassedNone(runs: seq<Run>)
    ensures Passed(runs, {}) == runs
  {
    if runs != [] {
      PassedNone(runs[1..]);
      assert runs == [runs[0]] + runs[1..];
    }
  }

  lemma {:induction false} AllRefused(runs: seq<Run>, refused: set<u64>)
    requires forall i :: 0 <= i < |runs| ==> runs[i].txid in refused
    ensures Passed(runs, refused) == []
  {
    if runs != [] { AllRefused(runs[1..], refused); }
  }

  /** Past the newest published run there are only refused ones. */
  lemma PassedNewer(runs: seq<Run>, refused: set<u64>, upTo: u64)
    requires AllMirrored(runs) && Descending(runs) && forall run :: run in Passed(runs, refused) ==> run.txid <= upTo
    ensures Passed(Newer(runs, upTo), refused) == []
  {
    hide Passed, Newer, AllMirrored, Descending;
    PassedIn(runs, refused);
    NewerRuns(runs, upTo);
    var newer := Newer(runs, upTo);
    forall i | 0 <= i < |newer| ensures newer[i].txid in refused { assert newer[i] in newer; }
    AllRefused(newer, refused);
  }

  lemma PassedMirrored(runs: seq<Run>, refused: set<u64>)
    requires AllMirrored(runs)
    ensures AllMirrored(Passed(runs, refused))
  {
    hide Run.Mirrored;
    PassedIn(runs, refused);
    forall i | 0 <= i < |Passed(runs, refused)| ensures Passed(runs, refused)[i].Mirrored() {
      assert Passed(runs, refused)[i] in Passed(runs, refused);
    }
  }
}
