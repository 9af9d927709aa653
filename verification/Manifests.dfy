/** What recovery takes from the manifest and checkpoint records of any log, whoever wrote it. */
module Manifests {
  import opened Bytes
  import opened Graph
  import opened WalRecords
  import opened WalLog
  import opened Recovery
  import opened Durability

  /** The operations of all transactions, in the order of the log. */
  function AllOps(log: seq<CommittedTx>): seq<WalRecord> {
    if log == [] then [] else AllOps(log[..|log| - 1]) + log[|log| - 1].ops
  }

  /** `at` is the last switch among those of the highest epoch; -1 stands for none. */
  ghost predicate Leads(ops: seq<WalRecord>, at: int) {
    && -1 <= at < |ops|
    && (at >= 0 ==> ops[at].ManifestSwitch?)
    && forall j :: 0 <= j < |ops| && ops[j].ManifestSwitch? ==>
         at >= 0 && if j <= at then ops[j].epoch <= ops[at].epoch else ops[j].epoch < ops[at].epoch
  }

  function EpochAt(ops: seq<WalRecord>, at: int): u64 {
    if 0 <= at < |ops| && ops[at].ManifestSwitch? then ops[at].epoch else 0
  }

  /** Checkpoint `k` counts: it comes after the switch and is of its epoch. */
  ghost predicate Counts(ops: seq<WalRecord>, at: int, k: int) {
    0 <= k < |ops| && at < k && ops[k].Checkpoint? && ops[k].epoch == EpochAt(ops, at)
  }

  /** The checkpoint is the highest of those that count, 0 without any. */
  ghost predicate Covers(ops: seq<WalRecord>, at: int, upTo: u64) {
    && (forall k :: Counts(ops, at, k) ==> ops[k].upToTxid <= upTo)
    && (upTo == 0 || exists k :: Counts(ops, at, k) && ops[k].upToTxid == upTo)
  }

  /** The roots are those of the last checkpoint that counts, of the switch without any, and 0 without a switch. */
  ghost predicate Roots(ops: seq<WalRecord>, at: int, propertiesRoot: u64, statsRoot: u64) {
    && (forall k :: Counts(ops, at, k) && (forall j :: k < j < |ops| ==> !Counts(ops, at, j)) ==>
          propertiesRoot == ops[k].propertiesRoot && statsRoot == ops[k].statsRoot)
    && ((forall k :: !Counts(ops, at, k)) ==>
          if 0 <= at < |ops| && ops[at].ManifestSwitch? then propertiesRoot == ops[at].propertiesRoot && statsRoot == ops[at].statsRoot
          else propertiesRoot == 0 && statsRoot == 0)
  }

  ghost predicate InForce(ops: seq<WalRecord>, at: int, st: RecoveryState) {
    && Leads(ops, at) && st.epoch == EpochAt(ops, at)
    && st.segments == (if at >= 0 then ops[at].segments else [])
    && Covers(ops, at, st.checkpoint) && Roots(ops, at, st.propertiesRoot, st.statsRoot)
  }

  lemma EpochGrown(ops: seq<WalRecord>, op: WalRecord, at: int)
    requires -1 <= at < |ops|
    ensures EpochAt(ops + [op], at) == EpochAt(ops, at)
    ensures forall k :: 0 <= k < |ops| ==> (Counts(ops + [op], at, k) <==> Counts(ops, at, k))
  {
  }

  lemma SwitchTaken(ops: seq<WalRecord>, op: WalRecord, at: int, st: RecoveryState)
    requires InForce(ops, at, st) && op.ManifestSwitch? && op.epoch >= st.epoch
    ensures InForce(ops + [op], |ops|, ScanOp(st, op))
  {
    var more := ops + [op];
    forall k ensures !Counts(more, |ops|, k) { }
  }

  lemma StillLeads(ops: seq<WalRecord>, op: WalRecord, at: int)
    requires Leads(ops, at) && (op.ManifestSwitch? ==> op.epoch < EpochAt(ops, at))
    ensures Leads(ops + [op], at)
  {
  }

  lemma SwitchPassed(ops: seq<WalRecord>, op: WalRecord, at: int, st: RecoveryState)
    requires InForce(ops, at, st) && (op.ManifestSwitch? ==> op.epoch < st.epoch)
    requires op.Checkpoint? ==> op.epoch != st.epoch
    ensures ScanOp(st, op) == st && InForce(ops + [op], at, st)
  {
    hide Covers, Roots, Leads;
    var more := ops + [op];
    StillLeads(ops, op, at);
    EpochGrown(ops, op, at);
    forall k ensures Counts(more, at, k) <==> Counts(ops, at, k) { }
    SameCounts(ops, more, at, st.checkpoint);
    SameRoots(ops, more, at, st.propertiesRoot, st.statsRoot);
  }

  lemma SameCounts(ops: seq<WalRecord>, more: seq<WalRecord>, at: int, upTo: u64)
    requires ops <= more && Covers(ops, at, upTo) && forall k :: Counts(more, at, k) <==> Counts(ops, at, k)
    ensures Covers(more, at, upTo)
  {
    if upTo != 0 {
      var k :| Counts(ops, at, k) && ops[k].upToTxid == upTo;
      assert Counts(more, at, k) && more[k].upToTxid == upTo;
    }
  }

  lemma SameRoots(ops: seq<WalRecord>, more: seq<WalRecord>, at: int, p: u64, s: u64)
    requires ops <= more && -1 <= at < |ops| && Roots(ops, at, p, s) && forall k :: Counts(more, at, k) <==> Counts(ops, at, k)
    ensures Roots(more, at, p, s)
  {
    forall k | Counts(more, at, k) && (forall j :: k < j < |more| ==> !Counts(more, at, j)) ensures p == more[k].propertiesRoot && s == more[k].statsRoot {
      assert Counts(ops, at, k);
      forall j | k < j < |ops| ensures !Counts(ops, at, j) { assert !Counts(more, at, j); }
    }
  }

  lemma CheckpointCounts(ops: seq<WalRecord>, op: WalRecord, at: int, st: RecoveryState)
    requires InForce(ops, at, st) && op.Checkpoint? && op.epoch == st.epoch
    ensures InForce(ops + [op], at, ScanOp(st, op))
  {
    var more, next := ops + [op], ScanOp(st, op);
    EpochGrown(ops, op, at);
    assert Counts(more, at, |ops|);
    if next.checkpoint != 0 && next.checkpoint != op.upToTxid {
      var k :| Counts(ops, at, k) && ops[k].upToTxid == st.checkpoint;
      assert Counts(more, at, k) && more[k].upToTxid == next.checkpoint;
    }
  }

  lemma {:induction false} OpsInForce(ops: seq<WalRecord>, rest: seq<WalRecord>, at: int, st: RecoveryState) returns (last: int)
    requires InForce(ops, at, st)
    ensures InForce(ops + rest, last, ScanOps(st, rest))
    decreases |rest|
  {
    hide InForce, ScanOp;
    last := at;
    if rest == [] {
      assert ops + rest == ops;
    } else {
      var op := rest[0];
      if op.ManifestSwitch? && op.epoch >= st.epoch {
        SwitchTaken(ops, op, at, st);
        last := |ops|;
      } else if op.Checkpoint? && op.epoch == st.epoch {
        CheckpointCounts(ops, op, at, st);
      } else {
        SwitchPassed(ops, op, at, st);
      }
      last := OpsInForce(ops + [op], rest[1..], last, ScanOp(st, op));
      assert ops + rest == ops + [op] + rest[1..];
    }
  }

  lemma NoneInForce()
    ensures InForce([], -1, NoState)
  {
  }

  lemma SameInForce(ops: seq<WalRecord>, at: int, st: RecoveryState, maxTxid: u64)
    requires InForce(ops, at, st)
    ensures InForce(ops, at, st.(maxTxid := maxTxid))
  {
  }

  /**
   * For every log: epoch and segments are those of the last switch among those of the highest epoch, the checkpoint is the
   * highest of that epoch logged after it, and the roots are the last ones logged for it.
   */
  lemma {:induction false} StateMeans(log: seq<CommittedTx>) returns (at: int)
    ensures InForce(AllOps(log), at, ScanState(log))
  {
    hide InForce, ScanOps;
    if log == [] {
      NoneInForce();
      at := -1;
    } else {
      var n := |log| - 1;
      var st := ScanState(log[..n]);
      at := StateMeans(log[..n]);
      SameInForce(AllOps(log[..n]), at, st, Max(st.maxTxid, log[n].txid));
      at := OpsInForce(AllOps(log[..n]), log[n].ops, at, st.(maxTxid := Max(st.maxTxid, log[n].txid)));
    }
  }

  /** The next transaction id is above every id in the log and no higher than need be. */
  lemma {:induction false} HighestTxid(log: seq<CommittedTx>)
    ensures forall i :: 0 <= i < |log| ==> log[i].txid <= ScanState(log).maxTxid
    ensures ScanState(log).maxTxid == 0 || exists i :: 0 <= i < |log| && log[i].txid == ScanState(log).maxTxid
  {
    hide ScanOps;
    if log != [] {
      var n := |log| - 1;
      var st := ScanState(log[..n]);
      HighestTxid(log[..n]);
      ScanKeepsMax(st.(maxTxid := Max(st.maxTxid, log[n].txid)), log[n].ops);
      assert forall i :: 0 <= i < n ==> log[..n][i] == log[i];
    }
  }

  /** The id handed out after opening: 1 on an empty log, otherwise one above the highest, as long as there is one. */
  lemma NextTxidMeans(log: seq<CommittedTx>)
    ensures var next := NextTxid(ScanState(log));
            && next > 0 && (forall i :: 0 <= i < |log| ==> log[i].txid < next || log[i].txid == next == 0xFFFF_FFFF_FFFF_FFFF)
            && (next == 1 || exists i :: 0 <= i < |log| && (log[i].txid == next - 1 || log[i].txid == next))
  {
    hide ScanState;
    HighestTxid(log);
  }

  // ---- Runs -------------------------------------------------------------------------------

  /** Transaction `i` is past the checkpoint and leaves a run. */
  predicate Lasts(log: seq<CommittedTx>, checkpoint: u64, i: int) {
    0 <= i < |log| && log[i].txid > checkpoint && !RunOf(log[i]).IsEmpty()
  }

  /** The runs are those of the transactions at `places`, which are all that last, latest first. */
  ghost predicate RunsAt(log: seq<CommittedTx>, checkpoint: u64, runs: seq<Run>, places: seq<int>) {
    && |places| == |runs|
    && (forall k :: 0 <= k < |places| ==> Lasts(log, checkpoint, places[k]) && runs[k] == RunOf(log[places[k]]))
    && (forall k, l :: 0 <= k < l < |places| ==> places[k] > places[l])
    && (forall i :: Lasts(log, checkpoint, i) ==> i in places)
  }

  lemma NextAt(log: seq<CommittedTx>, checkpoint: u64, runs: seq<Run>, places: seq<int>)
    requires log != [] && RunsAt(log[..|log| - 1], checkpoint, runs, places)
    ensures var n := |log| - 1;
            if Lasts(log, checkpoint, n) then RunsAt(log, checkpoint, [RunOf(log[n])] + runs, [n] + places)
            else RunsAt(log, checkpoint, runs, places)
  {
    hide RunOf, Run.IsEmpty;
    var n := |log| - 1;
    forall i | 0 <= i < n ensures Lasts(log, checkpoint, i) <==> Lasts(log[..n], checkpoint, i) { assert log[..n][i] == log[i]; }
    forall k | 0 <= k < |places| ensures log[..n][places[k]] == log[places[k]] { assert Lasts(log[..n], checkpoint, places[k]); }
  }

  lemma {:induction false} RunsMean(log: seq<CommittedTx>, checkpoint: u64) returns (places: seq<int>)
    ensures RunsAt(log, checkpoint, RunsOf(log, checkpoint), places)
  {
    hide RunsAt, RunOf, Run.IsEmpty;
    if log == [] {
      places := [];
      NoneAt(checkpoint);
    } else {
      var n := |log| - 1;
      places := RunsMean(log[..n], checkpoint);
      NextAt(log, checkpoint, RunsOf(log[..n], checkpoint), places);
      assert [] + RunsOf(log[..n], checkpoint) == RunsOf(log[..n], checkpoint);
      if Lasts(log, checkpoint, n) { places := [n] + places; }
    }
  }

  lemma NoneAt(checkpoint: u64)
    ensures RunsAt([], checkpoint, [], [])
  {
  }
}
