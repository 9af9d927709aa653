/** What the log carries of the id map: which records its creations made, and what reopening makes of them. */
module NodeDurability {
  import opened Bytes
  import opened Wrappers
  import opened WalRecords
  import opened WalLog
  import opened MemTables
  import opened Recovery
  import opened IdMaps
  import opened Durability

  // ---- The node records of a log -------------------------------------------------------------

  /** The node and label-change records among the operations. */
  function NodePart(ops: seq<WalRecord>): seq<WalRecord> {
    if ops == [] then [] else (if NodeOp(ops[0]) then [ops[0]] else []) + NodePart(ops[1..])
  }

  function KeepNode(op: WalRecord): seq<WalRecord> { if NodeOp(op) then [op] else [] }

  lemma NodePartHead(ops: seq<WalRecord>)
    requires ops != []
    ensures NodePart(ops) == KeepNode(ops[0]) + NodePart(ops[1..])
  {
  }

  lemma {:induction false} NodePartConcat(a: seq<WalRecord>, b: seq<WalRecord>)
    ensures NodePart(a + b) == NodePart(a) + NodePart(b)
    decreases |a|
  {
    if a == [] {
      assert a + b == b;
    } else {
      hide NodePart, KeepNode;
      assert (a + b)[1..] == a[1..] + b && (a + b)[0] == a[0];
      NodePartHead(a);
      NodePartHead(a + b);
      NodePartConcat(a[1..], b);
      Rejoin(KeepNode(a[0]), NodePart(a[1..]), NodePart(b));
    }
  }

  lemma {:induction false} NodePartAll(ops: seq<WalRecord>)
    requires NodeOps(ops)
    ensures NodePart(ops) == ops
  {
    if ops != [] {
      NodePartAll(ops[1..]);
      assert ops == [ops[0]] + ops[1..];
    }
  }

  lemma {:induction false} NodePartNone(ops: seq<WalRecord>)
    requires forall i :: 0 <= i < |ops| ==> !NodeOp(ops[i])
    ensures NodePart(ops) == []
  {
    if ops != [] { NodePartNone(ops[1..]); }
  }

  /** A commit's node records are the ones it was given. */
  lemma CommitNodePart(txid: u64, nodeOps: seq<WalRecord>, c: CommitLog)
    requires NodeOps(nodeOps)
    ensures NodePart(CommitTxOf(txid, nodeOps, c).ops) == nodeOps
  {
    SectionsHaveNoNodes(c);
    NodePartConcat(nodeOps, Records(c));
    NodePartAll(nodeOps);
    NodePartNone(Records(c));
  }

  lemma SectionsHaveNoNodes(c: CommitLog)
    ensures forall i :: 0 <= i < |Records(c)| ==> !NodeOp(Records(c)[i])
  {
    hide Creates, NodeTombstones, EdgeTombstones, NodeSets, NodeRemovals, EdgeSets, EdgeRemovals;
  }

  /** Replay passes over everything else. */
  lemma {:induction false} ReplayNodePart(ids: Ids, ops: seq<WalRecord>)
    ensures ReplayOps(ids, NodePart(ops)) == ReplayOps(ids, ops)
    decreases |ops|
  {
    hide Create, AddLabel, RemoveLabel;
    if ops != [] {
      var next := ReplayOp(ids, ops[0]);
      if NodeOp(ops[0]) {
        assert NodePart(ops)[0] == ops[0] && NodePart(ops)[1..] == NodePart(ops[1..]);
      } else {
        assert NodePart(ops) == NodePart(ops[1..]);
      }
      if next.Ok? { ReplayNodePart(next.value, ops[1..]); }
    }
  }

  /** The node records of the transactions past the checkpoint, in log order. */
  function PastNodes(txs: seq<CommittedTx>, checkpoint: u64): seq<WalRecord> {
    if txs == [] then []
    else
      var n := |txs| - 1;
      PastNodes(txs[..n], checkpoint) + if txs[n].txid > checkpoint then NodePart(txs[n].ops) else []
  }

  /** Those of the transactions from one checkpoint up to another. */
  function CoveredNodes(txs: seq<CommittedTx>, from: u64, upTo: u64): seq<WalRecord> {
    if txs == [] then []
    else
      var n := |txs| - 1;
      CoveredNodes(txs[..n], from, upTo) + if from < txs[n].txid <= upTo then NodePart(txs[n].ops) else []
  }

  lemma PastSnoc(txs: seq<CommittedTx>, tx: CommittedTx, checkpoint: u64)
    ensures PastNodes(txs + [tx], checkpoint)
         == PastNodes(txs, checkpoint) + if tx.txid > checkpoint then NodePart(tx.ops) else []
  {
    assert (txs + [tx])[..|txs|] == txs;
  }

  /** Transactions that carry node records were logged in the order of their ids, all below the next one. */
  ghost predicate InOrder(log: seq<CommittedTx>, nextTxid: u64, writer: Option<u64>) {
    && (forall i, j :: 0 <= i < j < |log| && NodePart(log[i].ops) != [] && NodePart(log[j].ops) != [] ==> log[i].txid < log[j].txid)
    && (forall i :: 0 <= i < |log| && NodePart(log[i].ops) != [] ==>
          log[i].txid < nextTxid && (writer.Some? ==> log[i].txid < writer.value))
  }

  ghost predicate Ascends(log: seq<CommittedTx>) {
    forall i, j :: 0 <= i < j < |log| && NodePart(log[i].ops) != [] && NodePart(log[j].ops) != [] ==> log[i].txid < log[j].txid
  }

  lemma {:induction false} NothingPast(log: seq<CommittedTx>, checkpoint: u64)
    requires forall i :: 0 <= i < |log| && NodePart(log[i].ops) != [] ==> log[i].txid <= checkpoint
    ensures PastNodes(log, checkpoint) == []
  {
    if log != [] { NothingPast(log[..|log| - 1], checkpoint); }
  }

  lemma PastLast(log: seq<CommittedTx>, from: u64, upTo: u64)
    requires log != []
    ensures var n := |log| - 1;
            && PastNodes(log, from) == PastNodes(log[..n], from) + (if log[n].txid > from then NodePart(log[n].ops) else [])
            && CoveredNodes(log, from, upTo)
               == CoveredNodes(log[..n], from, upTo) + (if from < log[n].txid <= upTo then NodePart(log[n].ops) else [])
  {
    hide NodePart;
  }

  lemma AscendsFront(log: seq<CommittedTx>)
    requires Ascends(log) && log != []
    ensures Ascends(log[..|log| - 1])
  {
    hide NodePart;
  }

  lemma CoveredBefore(log: seq<CommittedTx>, upTo: u64)
    requires Ascends(log) && log != [] && NodePart(log[|log| - 1].ops) != [] && log[|log| - 1].txid <= upTo
    ensures PastNodes(log[..|log| - 1], upTo) == []
  {
    hide NodePart, PastNodes;
    var front := log[..|log| - 1];
    forall i | 0 <= i < |front| && NodePart(front[i].ops) != [] ensures front[i].txid <= upTo { assert front[i] == log[i]; }
    NothingPast(front, upTo);
  }

  lemma Rejoin(x: seq<WalRecord>, y: seq<WalRecord>, z: seq<WalRecord>)
    ensures (x + y) + z == x + (y + z) && x + [] == x && [] + x == x
  {
  }

  /** Raising the checkpoint takes node records away from the front only. */
  lemma {:induction false} PastSplit(log: seq<CommittedTx>, from: u64, upTo: u64)
    requires Ascends(log) && from <= upTo
    ensures PastNodes(log, from) == CoveredNodes(log, from, upTo) + PastNodes(log, upTo)
    decreases |log|
  {
    if log != [] {
      hide NodePart, PastNodes, CoveredNodes, Ascends;
      var n := |log| - 1;
      var part, x, y := NodePart(log[n].ops), CoveredNodes(log[..n], from, upTo), PastNodes(log[..n], upTo);
      AscendsFront(log);
      PastSplit(log[..n], from, upTo);
      PastLast(log, from, upTo);
      PastLast(log, upTo, upTo);
      Rejoin(x, y, part);
      Rejoin(x, part, []);
      Rejoin(x, y, []);
      Rejoin(part, [], []);
      if part != [] && log[n].txid <= upTo { CoveredBefore(log, upTo); }
    }
  }

  function PastNow(log: seq<CommittedTx>): seq<WalRecord> { PastNodes(log, ScanState(log).checkpoint) }

  // ---- Made by the log ---------------------------------------------------------------------------

  /** The creations past the log's checkpoint made the records `b` to `m`. */
  ghost predicate Made(log: seq<CommittedTx>, r: seq<I2eRecord>, b: nat, m: nat) {
    Makes(PastNow(log), r, b, m) && OneZero(r, b, m)
  }

  /** For every prefix of the log, where its uncovered creations begin and end. */
  ghost predicate AllMade(log: seq<CommittedTx>, r: seq<I2eRecord>, bases: seq<nat>, marks: seq<nat>) {
    && |bases| == |marks| == |log| + 1 && marks[|log|] == |r|
    && (forall i, j :: 0 <= i <= j <= |log| ==> marks[i] <= marks[j])
    && forall i :: 0 <= i <= |log| ==> Made(log[..i], r, bases[i], marks[i])
  }

  /** What every operation keeps between the log and the id map. */
  ghost predicate NodesConsistent(log: seq<CommittedTx>, ids: Ids, bases: seq<nat>, marks: seq<nat>, nextTxid: u64, writer: Option<u64>) {
    && InOrder(log, nextTxid, writer) && Unique(ids.i2e) && Finds(ids) && AllMade(log, ids.i2e, bases, marks)
    && (ZeroBetween(ids.i2e, bases[|log|], |ids.i2e|) ==> 0 in ids.e2i)
  }

  ghost predicate NamesBelow(ops: seq<WalRecord>, n: nat) {
    forall k :: 0 <= k < |ops| && LabelChange(ops[k]) ==> ops[k].node < n
  }

  /** Each node's labels are its first label changed by what the checkpoint covered and what is past it. */
  ghost predicate Tracked(ids: Ids, covered: seq<WalRecord>, past: seq<WalRecord>) {
    && |ids.i2l| == |ids.i2e| && NamesBelow(covered + past, |ids.i2e|)
    && forall n :: 0 <= n < |ids.i2l| ==> ids.i2l[n] == Relabel([ids.i2e[n].labelId], covered + past, n)
  }

  lemma {:induction false} MakesLonger(ops: seq<WalRecord>, r: seq<I2eRecord>, b: nat, m: nat, r': seq<I2eRecord>)
    requires Makes(ops, r, b, m) && r <= r'
    ensures Makes(ops, r', b, m)
    decreases |ops|
  {
    if ops != [] { MakesLonger(ops[1..], r, if ops[0].CreateNode? then b + 1 else b, m, r'); }
  }

  lemma {:induction false} MakesShorter(ops: seq<WalRecord>, r: seq<I2eRecord>, b: nat, m: nat, n: nat)
    requires Makes(ops, r, b, m) && m <= n <= |r|
    ensures Makes(ops, r[..n], b, m)
    decreases |ops|
  {
    MakesRange(ops, r, b, m);
    if ops != [] {
      if ops[0].CreateNode? { MakesRange(ops[1..], r, b + 1, m); }
      MakesShorter(ops[1..], r, if ops[0].CreateNode? then b + 1 else b, m, n);
    }
  }

  lemma {:induction false} MakesSplit(x: seq<WalRecord>, y: seq<WalRecord>, r: seq<I2eRecord>, b: nat, m: nat) returns (mid: nat)
    requires Makes(x + y, r, b, m)
    ensures Makes(x, r, b, mid) && Makes(y, r, mid, m) && b <= mid
    decreases |x|
  {
    MakesRange(x + y, r, b, m);
    if x == [] {
      assert x + y == y;
      mid := b;
    } else {
      assert (x + y)[1..] == x[1..] + y;
      mid := MakesSplit(x[1..], y, r, if x[0].CreateNode? then b + 1 else b, m);
    }
  }

  lemma MadeLonger(log: seq<CommittedTx>, r: seq<I2eRecord>, b: nat, m: nat, r': seq<I2eRecord>)
    requires Made(log, r, b, m) && r <= r'
    ensures Made(log, r', b, m)
  {
    hide PastNow;
    MakesRange(PastNow(log), r, b, m);
    MakesLonger(PastNow(log), r, b, m, r');
  }

  lemma MadeShorter(log: seq<CommittedTx>, r: seq<I2eRecord>, b: nat, m: nat, n: nat)
    requires Made(log, r, b, m) && m <= n <= |r|
    ensures Made(log, r[..n], b, m)
  {
    hide PastNow;
    MakesShorter(PastNow(log), r, b, m, n);
  }

  lemma AllMadeSnoc(log: seq<CommittedTx>, tx: CommittedTx, r: seq<I2eRecord>, bases: seq<nat>, marks: seq<nat>, r': seq<I2eRecord>, b: nat)
    requires AllMade(log, r, bases, marks) && r <= r' && Made(log + [tx], r', b, |r'|)
    ensures AllMade(log + [tx], r', bases + [b], marks + [|r'|])
  {
    hide Made;
    var log', bases', marks' := log + [tx], bases + [b], marks + [|r'|];
    forall i | 0 <= i <= |log'| ensures Made(log'[..i], r', bases'[i], marks'[i]) && marks'[i] <= |r'| {
      if i <= |log| {
        assert log'[..i] == log[..i] && Made(log[..i], r, bases[i], marks[i]);
        MadeLonger(log[..i], r, bases[i], marks[i], r');
      } else {
        assert log'[..i] == log';
      }
    }
  }

  lemma AllMadeLengths(log: seq<CommittedTx>, r: seq<I2eRecord>, bases: seq<nat>, marks: seq<nat>)
    requires AllMade(log, r, bases, marks)
    ensures |bases| == |marks| == |log| + 1
  {
  }

  lemma AllMadeNow(log: seq<CommittedTx>, r: seq<I2eRecord>, bases: seq<nat>, marks: seq<nat>)
    requires AllMade(log, r, bases, marks)
    ensures Made(log, r, bases[|log|], |r|)
  {
    hide Made;
    assert log[..|log|] == log;
  }

  lemma AllMadeCut(log: seq<CommittedTx>, r: seq<I2eRecord>, bases: seq<nat>, marks: seq<nat>, n: nat)
    requires AllMade(log, r, bases, marks) && n <= |log|
    ensures marks[n] <= |r| && AllMade(log[..n], r[..marks[n]], bases[..n + 1], marks[..n + 1])
  {
    hide Made;
    assert marks[n] <= marks[|log|];
    forall i | 0 <= i <= n ensures Made(log[..n][..i], r[..marks[n]], bases[i], marks[i]) {
      assert log[..n][..i] == log[..i] && Made(log[..i], r, bases[i], marks[i]) && marks[i] <= marks[n];
      MadeShorter(log[..i], r, bases[i], marks[i], marks[n]);
    }
  }

  // ---- A commit --------------------------------------------------------------------------------------

  function NewRecords(created: seq<Created>): (rs: seq<I2eRecord>)
    ensures |rs| == |created|
    ensures forall i :: 0 <= i < |rs| ==> rs[i] == I2eRecord(created[i].externalId, created[i].labelId, 0)
  {
    seq(|created|, i requires 0 <= i < |created| => I2eRecord(created[i].externalId, created[i].labelId, 0))
  }

  lemma {:induction false} MakesNothing(changes: seq<WalRecord>, r: seq<I2eRecord>)
    requires ChangesOnly(changes)
    ensures Makes(changes, r, |r|, |r|)
    decreases |changes|
  {
    if changes != [] { MakesNothing(changes[1..], r); }
  }

  lemma {:induction false} MakesNew(created: seq<Created>, r: seq<I2eRecord>, i: nat)
    requires i <= |created| && |r| + |created| <= U32_MAX
    requires forall k :: 0 <= k < |created| ==> created[k].internalId == |r| + k
    ensures Makes(CreateRecords(created)[i..], r + NewRecords(created), |r| + i, |r| + |created|)
    decreases |created| - i
  {
    if i < |created| {
      MakesNew(created, r, i + 1);
      assert CreateRecords(created)[i..][1..] == CreateRecords(created)[i + 1..];
      assert (r + NewRecords(created))[|r| + i] == NewRecords(created)[i];
    }
  }

  lemma MakesWrites(ids: Ids, created: seq<Created>, changes: seq<WalRecord>)
    requires Reserved(ids, created) && ChangesOnly(changes)
    ensures var r' := ids.i2e + NewRecords(created);
            Makes(CreateRecords(created) + changes, r', |ids.i2e|, |r'|)
  {
    var r' := ids.i2e + NewRecords(created);
    MakesNew(created, ids.i2e, 0);
    assert CreateRecords(created)[0..] == CreateRecords(created);
    MakesNothing(changes, r');
    MakesConcat(CreateRecords(created), changes, r', |ids.i2e|, |r'|, |r'|);
  }

  lemma NewAt(r: seq<I2eRecord>, created: seq<Created>, i: nat)
    requires |r| <= i < |r| + |created|
    ensures (r + NewRecords(created))[i].externalId == created[i - |r|].externalId
  {
  }

  lemma ReservedUnique(ids: Ids, created: seq<Created>)
    requires Finds(ids) && Unique(ids.i2e) && Reserved(ids, created)
    ensures Unique(ids.i2e + NewRecords(created))
  {
    var r := ids.i2e;
    var r' := r + NewRecords(created);
    forall i, j | |r| <= i < j < |r'| ensures r'[i].externalId != r'[j].externalId {
      NewAt(r, created, i);
      NewAt(r, created, j);
    }
    forall i, j | 0 <= i < |r| <= j < |r'| && r'[i].externalId == r'[j].externalId ensures r'[i].externalId == 0 {
      NewAt(r, created, j);
      assert r'[i] == r[i];
    }
    assert forall i, j :: 0 <= i < j < |r| ==> r'[i] == r[i] && r'[j] == r[j];
  }

  lemma ReservedZero(ids: Ids, created: seq<Created>)
    requires Reserved(ids, created)
    ensures var r, r' := ids.i2e, ids.i2e + NewRecords(created);
            OneZero(r', |r|, |r'|) && (0 in ids.e2i ==> !ZeroBetween(r', |r|, |r'|))
  {
    var r, r' := ids.i2e, ids.i2e + NewRecords(created);
    forall i, j | |r| <= i < j < |r'| && r'[i].externalId == 0 ensures r'[j].externalId != 0 {
      NewAt(r, created, i);
      NewAt(r, created, j);
    }
    if 0 in ids.e2i {
      forall z | |r| <= z < |r'| ensures r'[z].externalId != 0 { NewAt(r, created, z); }
    }
  }

  /** Ids handed out under the write lock keep external ids apart. */
  lemma ReservedStage(ids: Ids, created: seq<Created>)
    requires Finds(ids) && Unique(ids.i2e) && Reserved(ids, created)
    ensures var r' := ids.i2e + NewRecords(created); Stage(ids, r', |ids.i2e|, |r'|, |ids.i2e|)
  {
    hide Unique, OneZero, ZeroBetween, NewRecords, Finds;
    var r := ids.i2e;
    var r' := r + NewRecords(created);
    ReservedUnique(ids, created);
    ReservedZero(ids, created);
    assert r'[..|r|] == r;
  }

  /** The id map after a transaction's creations and the label changes `ops` that went through. */
  ghost predicate Wrote(ids: Ids, created: seq<Created>, ops: seq<WalRecord>, ids': Ids) {
    var r' := ids.i2e + NewRecords(created);
    && Finds(ids') && Unique(r') && ids'.i2e == r' && OneZero(r', |ids.i2e|, |r'|)
    && (0 in ids'.e2i <==> 0 in ids.e2i || ZeroBetween(r', |ids.i2e|, |r'|))
    && (0 in ids.e2i ==> !ZeroBetween(r', |ids.i2e|, |r'|))
    && forall n :: 0 <= n < |ids'.i2l| ==> ids'.i2l[n] == Relabel(StartLabels(ids, r', n), ops, n)
  }

  lemma WritesApply(ids: Ids, created: seq<Created>, changes: seq<WalRecord>)
    requires Finds(ids) && Unique(ids.i2e) && Reserved(ids, created) && ChangesOnly(changes)
    requires ReplayOps(ids, CreateRecords(created) + changes).Ok?
    ensures Wrote(ids, created, CreateRecords(created) + changes, ReplayOps(ids, CreateRecords(created) + changes).value)
  {
    hide ReplayOps, Relabel, Makes;
    var ops, r := CreateRecords(created) + changes, ids.i2e;
    var r' := r + NewRecords(created);
    ReservedStage(ids, created);
    MakesWrites(ids, created, changes);
    ReplayIff(ids, ops, r', |r|, |r'|, |r|);
    assert r'[..|r'|] == r';
  }

  /** One more commit, whether or not its label changes all went through. */
  lemma CommitNodes(log: seq<CommittedTx>, ids: Ids, bases: seq<nat>, marks: seq<nat>, nextTxid: u64, tx: CommittedTx,
                    created: seq<Created>, changes: seq<WalRecord>, applied: seq<WalRecord>, ids': Ids)
    requires NodesConsistent(log, ids, bases, marks, nextTxid, Some(tx.txid)) && tx.txid < nextTxid
    requires Reserved(ids, created) && ChangesOnly(changes) && NodePart(tx.ops) == CreateRecords(created) + changes
    requires Wrote(ids, created, applied, ids')
    requires ScanState(log + [tx]).checkpoint == ScanState(log).checkpoint < tx.txid
    ensures PastNow(log + [tx]) == PastNow(log) + (CreateRecords(created) + changes)
    ensures NodesConsistent(log + [tx], ids', bases + [bases[|log|]], marks + [|ids'.i2e|], nextTxid, None)
  {
    hide ScanState, NodePart, Finds, InOrder, AllMade, Made, PastNow, Wrote, Unique, ZeroBetween, ChangesOnly;
    AllMadeLengths(log, ids.i2e, bases, marks);
    var b, r, r' := bases[|log|], ids.i2e, ids'.i2e;
    AllMadeNow(log, r, bases, marks);
    PastCommit(log, tx, CreateRecords(created) + changes);
    CommitMade(log, tx, ids, created, changes, applied, ids', b);
    AllMadeSnoc(log, tx, r, bases, marks, r', b);
    OrderSnoc(log, tx, nextTxid);
  }

  lemma PastCommit(log: seq<CommittedTx>, tx: CommittedTx, ops: seq<WalRecord>)
    requires NodePart(tx.ops) == ops && ScanState(log + [tx]).checkpoint == ScanState(log).checkpoint < tx.txid
    ensures PastNow(log + [tx]) == PastNow(log) + ops
  {
    hide ScanState, NodePart;
    PastSnoc(log, tx, ScanState(log).checkpoint);
  }

  lemma CommitMade(log: seq<CommittedTx>, tx: CommittedTx, ids: Ids, created: seq<Created>, changes: seq<WalRecord>,
                   applied: seq<WalRecord>, ids': Ids, b: nat)
    requires Made(log, ids.i2e, b, |ids.i2e|) && Reserved(ids, created) && ChangesOnly(changes)
    requires PastNow(log + [tx]) == PastNow(log) + (CreateRecords(created) + changes) && Wrote(ids, created, applied, ids')
    requires ZeroBetween(ids.i2e, b, |ids.i2e|) ==> 0 in ids.e2i
    ensures Finds(ids') && Unique(ids'.i2e) && ids.i2e <= ids'.i2e && Made(log + [tx], ids'.i2e, b, |ids'.i2e|)
    ensures ZeroBetween(ids'.i2e, b, |ids'.i2e|) ==> 0 in ids'.e2i
  {
    hide PastNow, Relabel, Finds, Unique, Reserved, ChangesOnly, ZeroBetween, Makes, OneZero;
    var r, r', ops := ids.i2e, ids'.i2e, CreateRecords(created) + changes;
    MakesRange(PastNow(log), r, b, |r|);
    MakesLonger(PastNow(log), r, b, |r|, r');
    MakesWrites(ids, created, changes);
    MakesConcat(PastNow(log), ops, r', b, |r|, |r'|);
    ZeroJoins(r, r', b);
  }

  lemma ZeroJoins(r: seq<I2eRecord>, r': seq<I2eRecord>, b: nat)
    requires r <= r' && b <= |r| && OneZero(r, b, |r|) && OneZero(r', |r|, |r'|)
    ensures ZeroBetween(r', b, |r'|) <==> ZeroBetween(r, b, |r|) || ZeroBetween(r', |r|, |r'|)
    ensures !(ZeroBetween(r, b, |r|) && ZeroBetween(r', |r|, |r'|)) ==> OneZero(r', b, |r'|)
  {
    if ZeroBetween(r', b, |r'|) {
      var z :| b <= z < |r'| <= |r'| && r'[z].externalId == 0;
      if z < |r| { assert r[z] == r'[z]; }
    }
    if ZeroBetween(r, b, |r|) {
      var z :| b <= z < |r| <= |r| && r[z].externalId == 0;
      assert r'[z] == r[z];
    }
    if !(ZeroBetween(r, b, |r|) && ZeroBetween(r', |r|, |r'|)) {
      forall i, j | b <= i < j < |r'| && r'[i].externalId == 0 ensures r'[j].externalId != 0 {
        if j < |r| { assert r[i] == r'[i] && r[j] == r'[j]; }
        if i < |r| && j >= |r| { assert r[i] == r'[i]; }
      }
    }
  }

  lemma OrderSnoc(log: seq<CommittedTx>, tx: CommittedTx, nextTxid: u64)
    requires InOrder(log, nextTxid, Some(tx.txid)) && tx.txid < nextTxid
    ensures InOrder(log + [tx], nextTxid, None)
  {
    hide NodePart;
    assert Some(tx.txid).value == tx.txid;
  }

  /** While nothing is refused the labels in memory are the ones the log tells. */
  lemma CommitTracked(ids: Ids, covered: seq<WalRecord>, past: seq<WalRecord>, created: seq<Created>, changes: seq<WalRecord>, ids': Ids)
    requires Tracked(ids, covered, past) && Wrote(ids, created, CreateRecords(created) + changes, ids')
    requires NamesBelow(changes, |ids'.i2e|)
    ensures Tracked(ids', covered, past + (CreateRecords(created) + changes))
  {
    hide Relabel, Finds, Unique;
    FindsLengths(ids');
    var ops, all := CreateRecords(created) + changes, covered + past;
    assert covered + (past + ops) == all + ops;
    forall n | 0 <= n < |ids'.i2l| ensures ids'.i2l[n] == Relabel([ids'.i2e[n].labelId], all + ops, n) {
      RelabelConcat([ids'.i2e[n].labelId], all, ops, n);
      if n < |ids.i2l| {
        assert ids'.i2e[n] == ids.i2e[n];
      } else {
        NamedNever([ids'.i2e[n].labelId], all, n);
      }
    }
    forall k | 0 <= k < |all + ops| && LabelChange((all + ops)[k]) ensures (all + ops)[k].node < |ids'.i2e| {
      if k < |all| {
        assert (all + ops)[k] == all[k];
      } else {
        var i := k - |all|;
        assert (all + ops)[k] == ops[i];
        if i >= |created| { assert ops[i] == changes[i - |created|]; }
      }
    }
  }

  lemma {:induction false} NamedNever(labels: seq<u32>, ops: seq<WalRecord>, n: nat)
    requires NamesBelow(ops, n)
    ensures Relabel(labels, ops, n) == labels
    decreases |ops|
  {
    if ops != [] {
      assert Changed(labels, ops[0], n) == labels;
      NamedNever(labels, ops[1..], n);
    }
  }

  // ---- Other transactions -------------------------------------------------------------------------------

  /** A transaction without node records, the checkpoint where it was. */
  lemma PlainNodes(log: seq<CommittedTx>, ids: Ids, bases: seq<nat>, marks: seq<nat>, nextTxid: u64, writer: Option<u64>,
                   tx: CommittedTx, later: u64)
    requires NodesConsistent(log, ids, bases, marks, nextTxid, writer) && NodePart(tx.ops) == [] && nextTxid <= later
    requires ScanState(log + [tx]).checkpoint == ScanState(log).checkpoint
    ensures PastNow(log + [tx]) == PastNow(log)
    ensures NodesConsistent(log + [tx], ids, bases + [bases[|log|]], marks + [|ids.i2e|], later, writer)
  {
    hide NodePart, Finds, Unique, ZeroBetween, AllMade, InOrder, PastNow, Makes, OneZero;
    AllMadeLengths(log, ids.i2e, bases, marks);
    PastPlain(log, tx);
    OrderPlain(log, tx, nextTxid, writer, later);
    AllMadeNow(log, ids.i2e, bases, marks);
    AllMadeSnoc(log, tx, ids.i2e, bases, marks, ids.i2e, bases[|log|]);
  }

  lemma PastPlain(log: seq<CommittedTx>, tx: CommittedTx)
    requires NodePart(tx.ops) == [] && ScanState(log + [tx]).checkpoint == ScanState(log).checkpoint
    ensures PastNow(log + [tx]) == PastNow(log)
  {
    hide ScanState, NodePart;
    PastSnoc(log, tx, ScanState(log).checkpoint);
    assert PastNow(log) + [] == PastNow(log);
  }

  lemma OrderPlain(log: seq<CommittedTx>, tx: CommittedTx, nextTxid: u64, writer: Option<u64>, later: u64)
    requires InOrder(log, nextTxid, writer) && NodePart(tx.ops) == [] && nextTxid <= later
    ensures InOrder(log + [tx], later, writer)
  {
    hide NodePart;
  }

  /** A checkpoint: the creations it covers leave the front. */
  lemma CompactNodes(log: seq<CommittedTx>, ids: Ids, bases: seq<nat>, marks: seq<nat>, nextTxid: u64, tx: CommittedTx,
                     upTo: u64, later: u64) returns (mid: nat)
    requires NodesConsistent(log, ids, bases, marks, nextTxid, None) && NodePart(tx.ops) == [] && nextTxid <= later
    requires ScanState(log + [tx]).checkpoint == upTo >= ScanState(log).checkpoint
    ensures PastNow(log) == CoveredNodes(log, ScanState(log).checkpoint, upTo) + PastNow(log + [tx])
    ensures bases[|log|] <= mid && NodesConsistent(log + [tx], ids, bases + [mid], marks + [|ids.i2e|], later, None)
  {
    hide ScanState, NodePart, Finds, Unique, AllMade, PastNodes, CoveredNodes, InOrder;
    AllMadeLengths(log, ids.i2e, bases, marks);
    var b, r := bases[|log|], ids.i2e;
    PastRaised(log, tx, upTo) by { OrderAscends(log, nextTxid, None); }
    OrderPlain(log, tx, nextTxid, None, later);
    AllMadeNow(log, r, bases, marks);
    mid := MakesSplit(CoveredNodes(log, ScanState(log).checkpoint, upTo), PastNow(log + [tx]), r, b, |r|);
    MakesRange(PastNow(log + [tx]), r, mid, |r|);
    assert ZeroBetween(r, mid, |r|) ==> ZeroBetween(r, b, |r|);
    AllMadeSnoc(log, tx, r, bases, marks, r, mid);
  }

  lemma OrderAscends(log: seq<CommittedTx>, nextTxid: u64, writer: Option<u64>)
    requires InOrder(log, nextTxid, writer)
    ensures Ascends(log)
  {
    hide NodePart;
  }

  lemma PastRaised(log: seq<CommittedTx>, tx: CommittedTx, upTo: u64)
    requires Ascends(log) && NodePart(tx.ops) == [] && ScanState(log + [tx]).checkpoint == upTo >= ScanState(log).checkpoint
    ensures PastNow(log) == CoveredNodes(log, ScanState(log).checkpoint, upTo) + PastNow(log + [tx])
  {
    hide ScanState, NodePart, Ascends;
    PastSnoc(log, tx, upTo);
    assert PastNodes(log, upTo) + [] == PastNodes(log, upTo);
    PastSplit(log, ScanState(log).checkpoint, upTo);
  }

  /** What a checkpoint covers stays in the account of the labels. */
  lemma CoverTracked(ids: Ids, covered: seq<WalRecord>, more: seq<WalRecord>, past: seq<WalRecord>)
    requires Tracked(ids, covered, more + past)
    ensures Tracked(ids, covered + more, past)
  {
    assert covered + more + past == covered + (more + past);
  }

  /** The rewritten log has no node records, and its checkpoint covers all that were made. */
  lemma RewriteNodes(log: seq<CommittedTx>, ids: Ids, bases: seq<nat>, marks: seq<nat>, nextTxid: u64, tx: CommittedTx, later: u64)
    requires NodesConsistent(log, ids, bases, marks, nextTxid, None) && NodePart(tx.ops) == [] && nextTxid <= later
    ensures var n := |ids.i2e|; PastNow([tx]) == [] && NodesConsistent([tx], ids, [n, n], [n, n], later, None)
  {
    hide NodePart, Finds, Unique, AllMade, InOrder, PastNow;
    var r := ids.i2e;
    NothingRewritten(tx, r);
    OrderSingle(tx, later);
  }

  lemma NothingRewritten(tx: CommittedTx, r: seq<I2eRecord>)
    requires NodePart(tx.ops) == []
    ensures PastNow([tx]) == [] && AllMade([tx], r, [|r|, |r|], [|r|, |r|])
  {
    hide ScanState, NodePart;
    assert [] + [tx] == [tx];
    PastSnoc([], tx, ScanState([tx]).checkpoint);
    assert PastNow([tx]) == [];
    forall i | 0 <= i <= 1 ensures Made([tx][..i], r, |r|, |r|) {
      assert [tx][..i] == if i == 0 then [] else [tx];
    }
  }

  lemma OrderSingle(tx: CommittedTx, later: u64)
    requires NodePart(tx.ops) == []
    ensures InOrder([tx], later, None)
  {
    hide NodePart;
  }

  lemma NoNodes()
    ensures NodesConsistent([], NoIds, [0], [0], 1, None) && Tracked(NoIds, [], [])
  {
    assert PastNow([]) == [];
    assert Made([], [], 0, 0);
  }

  // ---- Reopening ----------------------------------------------------------------------------------------

  /** Reopening meets no stored record with external id 0 again, and no label change of a node unknown by then. */
  ghost predicate Replays(past: seq<WalRecord>, r: seq<I2eRecord>, b: nat, m: nat, d: nat) {
    !ZeroBetween(r, b, Min(d, m)) && NamesNodes(past, b, d)
  }

  /**
   * The id map after a crash. With the log cut to `n` transactions and the first `d` records on disk, those under the
   * checkpoint among them, replay succeeds exactly under `Replays`. It then gives the records on disk or created by the
   * log, found by their external ids, with each node's labels as the log past the checkpoint leaves them.
   */
  lemma CrashRecoversNodes(log: seq<CommittedTx>, ids: Ids, bases: seq<nat>, marks: seq<nat>, nextTxid: u64, writer: Option<u64>, n: nat, d: nat)
    requires NodesConsistent(log, ids, bases, marks, nextTxid, writer) && n <= |log| && bases[n] <= d <= |ids.i2e|
    ensures var b, m, past := bases[n], marks[n], PastNow(log[..n]);
            var end := ReplayOps(Loaded(ids.i2e[..d]), past);
            && m <= |ids.i2e| && (end.Ok? <==> Replays(past, ids.i2e, b, m, d))
            && (end.Ok? ==>
                  && Finds(end.value) && end.value.i2e == ids.i2e[..Max(m, d)] && (0 in end.value.e2i <==> ZeroBetween(ids.i2e, d, m))
                  && forall k :: 0 <= k < |end.value.i2l| ==> end.value.i2l[k] == Relabel([ids.i2e[k].labelId], past, k))
  {
    hide ReplayOps, Loaded, Relabel, PastNow, ZeroBetween;
    assert Made(log[..n], ids.i2e, bases[n], marks[n]);
    RecoveredIds(ids.i2e, PastNow(log[..n]), bases[n], marks[n], d);
  }

  lemma {:induction false} NamesAreBelow(past: seq<WalRecord>, r: seq<I2eRecord>, b: nat, m: nat, d: nat)
    requires Makes(past, r, b, m) && NamesNodes(past, b, d) && d <= m
    ensures NamesBelow(past, m)
    decreases |past|
  {
    MakesRange(past, r, b, m);
    if past != [] {
      NamesAreBelow(past[1..], r, if past[0].CreateNode? then b + 1 else b, m, d);
      forall k | 0 <= k < |past| && LabelChange(past[k]) ensures past[k].node < m {
        if k > 0 { assert past[k] == past[1..][k - 1]; }
      }
    }
  }

  /** What reopening gives is consistent with the same log again. */
  lemma RestartNodes(log: seq<CommittedTx>, ids: Ids, bases: seq<nat>, marks: seq<nat>, nextTxid: u64, writer: Option<u64>, n: nat, d: nat, next: u64)
    requires NodesConsistent(log, ids, bases, marks, nextTxid, writer) && n <= |log| && bases[n] <= d <= marks[n] <= |ids.i2e|
    requires ScanState(log[..n]).maxTxid < next && Replays(PastNow(log[..n]), ids.i2e, bases[n], marks[n], d)
    ensures var end := ReplayOps(Loaded(ids.i2e[..d]), PastNow(log[..n]));
            && end.Ok? && |end.value.i2e| == marks[n] && Tracked(end.value, [], PastNow(log[..n]))
            && NodesConsistent(log[..n], end.value, bases[..n + 1], marks[..n + 1], next, None)
  {
    hide ReplayOps, Loaded, Relabel, PastNow, ScanState, NodePart, Finds, InOrder;
    FindsLengths(ids);
    var b, m, past := bases[n], marks[n], PastNow(log[..n]);
    CrashRecoversNodes(log, ids, bases, marks, nextTxid, writer, n, d);
    var end := ReplayOps(Loaded(ids.i2e[..d]), past).value;
    AllMadeCut(log, ids.i2e, bases, marks, n);
    assert Made(log[..n], ids.i2e, b, m);
    NamesAreBelow(past, ids.i2e, b, m, d);
    FindsLengths(end);
    assert [] + past == past;
    OrderCut(log, nextTxid, writer, n, next);
    assert ZeroBetween(end.i2e, b, m) ==> 0 in end.e2i by { ZeroFound(ids.i2e, b, m, d); }
  }

  lemma ZeroFound(r: seq<I2eRecord>, b: nat, m: nat, d: nat)
    requires b <= d <= m <= |r| && !ZeroBetween(r, b, Min(d, m))
    ensures ZeroBetween(r[..m], b, m) ==> ZeroBetween(r, d, m)
  {
    if ZeroBetween(r[..m], b, m) {
      var z :| b <= z < m <= |r[..m]| && r[..m][z].externalId == 0;
      assert r[z].externalId == 0;
    }
  }

  lemma OrderCut(log: seq<CommittedTx>, nextTxid: u64, writer: Option<u64>, n: nat, next: u64)
    requires InOrder(log, nextTxid, writer) && n <= |log| && ScanState(log[..n]).maxTxid < next
    ensures InOrder(log[..n], next, None)
  {
    hide NodePart;
    forall i | 0 <= i < n ensures log[..n][i].txid < next { LoggedBelow(log[..n], i); }
  }

  lemma {:induction false} LoggedBelow(log: seq<CommittedTx>, i: nat)
    requires i < |log|
    ensures log[i].txid <= ScanState(log).maxTxid
  {
    var n := |log| - 1;
    var st := ScanState(log[..n]);
    ScanKeepsMax(st.(maxTxid := Max(st.maxTxid, log[n].txid)), log[n].ops);
    if i < n { LoggedBelow(log[..n], i); }
  }

  /**
   * While nothing was refused, reopening without a crash in between gives a node the labels it had exactly when
   * the changes under the checkpoint net to its first label.
   */
  lemma ReopenedLabelsIff(ids: Ids, covered: seq<WalRecord>, past: seq<WalRecord>, n: nat)
    requires Tracked(ids, covered, past) && n < |ids.i2l|
    ensures Relabel([ids.i2e[n].labelId], past, n) == ids.i2l[n] <==> NetsToFirst(ids.i2e[n].labelId, covered, past, n)
  {
    hide Relabel, NetsToFirst;
    CoveredLabelsIff(ids.i2e[n].labelId, covered, past, n);
  }
}
