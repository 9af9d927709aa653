/** What reopening reconstructs from the committed transactions of the log. */
module Recovery {
  import opened Bytes
  import opened Graph
  import opened WalRecords
  import opened WalLog
  import opened MemTables

  // ---- Manifest, checkpoint and roots ---------------------------------------------------

  datatype RecoveryState = RecoveryState(
    epoch: u64,
    segments: seq<SegmentPointer>,
    checkpoint: u64,
    maxTxid: u64,
    propertiesRoot: u64,
    statsRoot: u64)

  const NoState := RecoveryState(0, [], 0, 0, 0, 0)

  function ScanOp(st: RecoveryState, op: WalRecord): RecoveryState {
    match op
    case ManifestSwitch(epoch, segments, p, s) =>
      if epoch >= st.epoch then
        st.(epoch := epoch, segments := segments, checkpoint := 0, propertiesRoot := p, statsRoot := s)
      else st
    case Checkpoint(upTo, epoch, p, s) =>
      if epoch == st.epoch then
        st.(checkpoint := Max(st.checkpoint, upTo), propertiesRoot := p, statsRoot := s)
      else st
    case _ => st
  }

  function ScanOps(st: RecoveryState, ops: seq<WalRecord>): RecoveryState
    decreases |ops|
  {
    if ops == [] then st else ScanOps(ScanOp(st, ops[0]), ops[1..])
  }

  function ScanOneTx(st: RecoveryState, tx: CommittedTx): RecoveryState {
    ScanOps(st.(maxTxid := Max(st.maxTxid, tx.txid)), tx.ops)
  }

  /** `scan_recovery_state`. */
  function ScanState(txs: seq<CommittedTx>): RecoveryState {
    if txs == [] then NoState else ScanOneTx(ScanState(txs[..|txs| - 1]), txs[|txs| - 1])
  }

  lemma ScanSnoc(txs: seq<CommittedTx>, tx: CommittedTx)
    ensures ScanState(txs + [tx]) == ScanOneTx(ScanState(txs), tx)
  {
    assert (txs + [tx])[..|txs|] == txs;
  }

  predicate ManifestOp(op: WalRecord) { op.ManifestSwitch? || op.Checkpoint? }

  lemma {:induction false} ScanOpsIgnores(st: RecoveryState, ops: seq<WalRecord>)
    requires forall i :: 0 <= i < |ops| ==> !ManifestOp(ops[i])
    ensures ScanOps(st, ops) == st
    decreases |ops|
  {
    if ops != [] { ScanOpsIgnores(st, ops[1..]); }
  }

  lemma {:induction false} ScanMaxGrows(txs: seq<CommittedTx>, i: nat)
    requires i <= |txs|
    ensures ScanState(txs[..i]).maxTxid <= ScanState(txs).maxTxid
  {
    var n := |txs| - 1;
    if i <= n {
      ScanMaxGrows(txs[..n], i);
      assert txs[..n][..i] == txs[..i];
      ScanKeepsMax(ScanState(txs[..n]).(maxTxid := Max(ScanState(txs[..n]).maxTxid, txs[n].txid)), txs[n].ops);
    } else {
      assert txs[..i] == txs;
    }
  }

  lemma {:induction false} ScanKeepsMax(st: RecoveryState, ops: seq<WalRecord>)
    ensures ScanOps(st, ops).maxTxid == st.maxTxid
    decreases |ops|
  {
    if ops != [] { ScanKeepsMax(ScanOp(st, ops[0]), ops[1..]); }
  }

  method ScanRecoveryState(txs: seq<CommittedTx>) returns (st: RecoveryState)
    ensures st == ScanState(txs)
  {
    hide ScanOp;
    st := NoState;
    for i := 0 to |txs|
      invariant st == ScanState(txs[..i])
    {
      assert txs[..i + 1] == txs[..i] + [txs[i]];
      ScanSnoc(txs[..i], txs[i]);
      st := st.(maxTxid := Max(st.maxTxid, txs[i].txid));
      ghost var start := st;
      var ops := txs[i].ops;
      assert ops[0..] == ops;
      for k := 0 to |ops|
        invariant ScanOps(start, ops) == ScanOps(st, ops[k..])
      {
        assert ops[k..][1..] == ops[k + 1..];
        st := ScanOp(st, ops[k]);
      }
    }
    assert txs[..|txs|] == txs;
  }

  // ---- Runs -------------------------------------------------------------------------------

  function RunOf(tx: CommittedTx): Run { Freeze(ApplyAll(tx.ops, EmptyImage), tx.txid) }

  /** The runs rebuilt from transactions past the checkpoint, newest first, empty ones skipped. */
  function RunsOf(txs: seq<CommittedTx>, checkpoint: u64): seq<Run> {
    if txs == [] then []
    else
      var n := |txs| - 1;
      (if txs[n].txid > checkpoint && !RunOf(txs[n]).IsEmpty() then [RunOf(txs[n])] else [])
      + RunsOf(txs[..n], checkpoint)
  }

  lemma RunsSnoc(txs: seq<CommittedTx>, tx: CommittedTx, checkpoint: u64)
    ensures RunsOf(txs + [tx], checkpoint)
         == (if tx.txid > checkpoint && !RunOf(tx).IsEmpty() then [RunOf(tx)] else []) + RunsOf(txs, checkpoint)
  {
    assert (txs + [tx])[..|txs|] == txs;
  }

  lemma RunTxid(tx: CommittedTx)
    ensures RunOf(tx).txid == tx.txid
  {
  }

  function Reversed(runs: seq<Run>): seq<Run> {
    if runs == [] then [] else [runs[|runs| - 1]] + Reversed(runs[..|runs| - 1])
  }

  /** `replay_graph_transactions` for runs, followed by the reversal in `open`. */
  method ReplayRuns(txs: seq<CommittedTx>, checkpoint: u64) returns (runs: seq<Run>)
    ensures runs == RunsOf(txs, checkpoint)
  {
    hide RunOf;
    var out: seq<Run> := [];
    for i := 0 to |txs|
      invariant Reversed(out) == RunsOf(txs[..i], checkpoint)
    {
      assert txs[..i + 1] == txs[..i] + [txs[i]];
      RunsSnoc(txs[..i], txs[i], checkpoint);
      if txs[i].txid <= checkpoint { continue; }
      var run := ReplayTx(txs[i]);
      if !run.IsEmpty() {
        assert (out + [run])[..|out|] == out;
        out := out + [run];
      }
    }
    assert txs[..|txs|] == txs;
    runs := Reversed(out);
  }

  /** One transaction replayed into a fresh buffer and frozen. */
  method ReplayTx(tx: CommittedTx) returns (run: Run)
    ensures run == RunOf(tx)
  {
    hide Apply;
    var img := EmptyImage;
    assert tx.ops[0..] == tx.ops;
    for k := 0 to |tx.ops|
      invariant ApplyAll(tx.ops, EmptyImage) == ApplyAll(tx.ops[k..], img)
    {
      assert tx.ops[k..][1..] == tx.ops[k + 1..];
      img := Apply(img, tx.ops[k]);
    }
    run := Freeze(img, tx.txid);
  }
}
