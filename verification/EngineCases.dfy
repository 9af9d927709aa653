/** Two short histories of the engine after which its store does not open again. */
module EngineCases {
  import opened Bytes
  import opened Wrappers
  import opened Graph
  import opened WalRecords
  import opened WalLog
  import opened MemTables
  import opened Pagers
  import opened IdMaps
  import opened IdMapPages
  import opened SegmentPages
  import opened Durability
  import opened NodeDurability
  import opened Engine

  lemma {:induction false} SizeOf<T>(s: seq<T>)
    ensures |set x | x in s| <= |s| && (s != [] ==> |set x | x in s| >= 1)
  {
    if s != [] {
      var n := |s| - 1;
      SizeOf(s[..n]);
      assert s == s[..n] + [s[n]];
      assert (set x | x in s) == (set x | x in s[..n]) + {s[n]};
    }
  }

  /** Nothing buffered, nothing logged but the node records. */
  lemma NothingListed(c: CommitLog)
    requires Lists(c, EmptyImage)
    ensures Records(c) == []
  {
    NothingCounted(c);
    EmptySeq(c.deadNodes);
    EmptySeq(c.deadEdges);
    EmptyTable(c.nodeSets, c.nodeRemovals, EmptyImage.nodeProps);
    EmptyTable(c.edgeSets, c.edgeRemovals, EmptyImage.edgeProps);
  }

  lemma EmptySeq<T>(s: seq<T>)
    requires (set x | x in s) == {}
    ensures s == []
  {
    SizeOf(s);
  }

  lemma EmptyTable<K>(sets: seq<PropSet<K>>, removals: seq<PropKey<K>>, t: PropTable<K>)
    requires ListsTable(sets, removals, t) && t == PropTable(map[], map[])
    ensures sets == [] && removals == []
  {
    assert AllSets(t) == {} && AllRemovals(t) == {};
    EmptySeq(sets);
    EmptySeq(removals);
  }

  lemma NothingCounted(c: CommitLog)
    requires Lists(c, EmptyImage)
    ensures c.edges == []
  {
    assert forall e: EdgeKey :: multiset(c.edges)[e] == EmptyImage.Count(e) == 0;
    assert multiset(c.edges) == multiset{};
    assert |c.edges| == |multiset(c.edges)|;
  }

  lemma NodeOnlyTx(txid: u64, nodeOps: seq<WalRecord>, c: CommitLog)
    requires Lists(c, EmptyImage) && NodeOps(nodeOps)
    ensures CommitTxOf(txid, nodeOps, c) == CommittedTx(txid, nodeOps) && ReadableTx(CommittedTx(txid, nodeOps))
  {
    hide Lists, Records;
    NothingListed(c);
    assert nodeOps + [] == nodeOps;
    forall i | 0 <= i < |nodeOps| ensures Storable(nodeOps[i]) { NodeOpStorable(nodeOps[i]); }
  }

  lemma NodeOpStorable(r: WalRecord)
    requires NodeOp(r)
    ensures Storable(r)
  {
  }

  /** A first transaction: all of it is past the checkpoint. */
  lemma FirstPast(txid: u64, nodeOps: seq<WalRecord>)
    requires txid > 0 && NodeOps(nodeOps)
    ensures PastNow([CommittedTx(txid, nodeOps)]) == nodeOps
  {
    var tx := CommittedTx(txid, nodeOps);
    assert [] + [tx] == [tx];
    ScanAfterPlain([], tx);
    PastSnoc([], tx, 0);
    NodePartAll(nodeOps);
    assert [] + nodeOps == nodeOps;
  }

  lemma FirstRoom(created: seq<Created>)
    requires |created| <= 512
    ensures HasRoom(None, {0, 1}, 0, created)
  {
    assert LeastFree({0, 1}, 2);
    assert Addressable(2, 0, |created|);
  }

  lemma {:induction false} MakesUnique(ops: seq<WalRecord>, r: seq<I2eRecord>, r': seq<I2eRecord>, b: nat, m: nat, m': nat)
    requires Makes(ops, r, b, m) && Makes(ops, r', b, m')
    ensures m == m' && m <= |r| && m' <= |r'| && forall i :: b <= i < m ==> r[i] == r'[i]
    decreases |ops|
  {
    MakesRange(ops, r, b, m);
    MakesRange(ops, r', b, m');
    if ops != [] {
      MakesUnique(ops[1..], r, r', if ops[0].CreateNode? then b + 1 else b, m, m');
      forall i | b <= i < m ensures r[i] == r'[i] { if i == b && ops[0].CreateNode? { assert r[b] == r'[b]; } }
    }
  }

  /** The records of a store follow from what its first transaction logged. */
  lemma FirstRecords(a: Account, ids: Ids, live: set<nat>, view: View, nextTxid: u64, tx: CommittedTx, created: seq<Created>, changes: seq<WalRecord>)
    requires Balanced(a, ids, live, view, nextTxid, None) && a.log == [tx] && |a.bases| == 2 && a.bases[1] == 0
    requires Reserved(NoIds, created) && ChangesOnly(changes) && PastNow([tx]) == Writes(created, changes)
    ensures ids.i2e == NewRecords(created) && |a.marks| == 2 && a.marks[1] == |ids.i2e|
  {
    hide Consistent, Tracked, InOrder, Finds, Unique, Published, PastNow, Makes;
    AllMadeNow(a.log, ids.i2e, a.bases, a.marks);
    MakesWrites(NoIds, created, changes);
    assert [] + NewRecords(created) == NewRecords(created);
    MakesUnique(Writes(created, changes), ids.i2e, NewRecords(created), 0, |ids.i2e|, |NewRecords(created)|);
  }

  lemma FirstAccount(tx: CommittedTx, run: Run, nodes: nat, published: bool)
    ensures var a := AfterCommit(NewAccount, tx, run, nodes, published);
            a.log == [tx] && a.bases == [0, 0] && a.marks == [0, nodes] && |a.history| == 2 && a.history[1].segments == []
  {
    hide Run.IsEmpty;
  }

  lemma FirstRecoverable(a: Account, r: seq<I2eRecord>, pages: seq<Page>, live: set<nat>, meta: Meta, past: seq<WalRecord>)
    requires |a.log| == 1 && a.bases == [0, 0] && a.marks == [0, |r|] && |a.history| == 2 && a.history[1].segments == []
    requires PastNow(a.log) == past
    ensures AllLoad(pages, live, a.history[1].segments)
    ensures Recoverable(a, r, 1, |r|, pages, live, meta) <==> Replays(past, r, 0, |r|, |r|)
  {
    hide PastNow, Replays;
    assert a.log[..1] == a.log;
  }

  /** A new store whose first transaction writes these nodes and labels, reopened after the process dies. */
  method CommitAndCrash(created: seq<Created>, changes: seq<WalRecord>) returns (done: Result<()>, r: Result<Opened>)
    requires Reserved(NoIds, created) && ChangesOnly(changes) && |created| <= 512
    ensures done.Ok? <==> KnowsNodes(0, created, changes)
    ensures r.Ok? <==> Replays(Writes(created, changes), NewRecords(created), 0, |created|, |created|)
  {
    hide Lists, Balanced, LoggableTx, ReadableTx, Reserved, ChangesOnly, KnowsNodes, Pager.Valid, IdMap.Valid, Recoverable, BroughtBack, Carries,
         AfterCommit, ReplayOps, Freeze, CommitTxOf, Writes, DiskHolds, Survivors, ReplayCommitted, Intact, HasRoom, AllLoad, Replays, PastNow,
         NodeOps, Exclusive, PublishRun;
    var e := new GraphEngine();
    var txid := e.BeginWrite();
    var mem := new MemTable();
    EmptyImageValid();
    WritesAreNodeOps(created, changes);
    forall c | Lists(c, EmptyImage) ensures LoggableTx(CommitTxOf(txid, Writes(created, changes), c)) {
      NodeOnlyTx(txid, Writes(created, changes), c);
    }
    ghost var c, tx, room;
    done, c, tx, room := e.Commit(txid, created, changes, mem, []);
    NodeOnlyTx(txid, Writes(created, changes), c);
    FirstRoom(created);
    FirstAccount(tx, Freeze(EmptyImage, txid), e.ids.i2eLen, done.Ok?);
    FirstPast(txid, Writes(created, changes));
    FirstRecords(e.acc, e.ids.Contents(), e.pager.live, e.CurrentView(), e.nextTxid, tx, created, changes);
    r := CrashNow(e, Writes(created, changes));
  }

  /** The process dies after its first transaction; log and pages stay as they are. */
  method CrashNow(e: GraphEngine, ghost past: seq<WalRecord>) returns (r: Result<Opened>)
    requires e.Valid() && |e.acc.log| == 1 && e.acc.bases == [0, 0] && e.acc.marks == [0, |e.ids.i2e|]
    requires |e.acc.history| == 2 && e.acc.history[1].segments == [] && PastNow(e.acc.log) == past
    modifies e.pager, e.pager.bits
    ensures r.Ok? <==> Replays(past, e.ids.i2e, 0, |e.ids.i2e|, |e.ids.i2e|)
  {
    hide Balanced, Pager.Valid, IdMap.Valid, Recoverable, BroughtBack, Carries, DiskHolds, Survivors, AllLoad, Replays, PastNow;
    ghost var d := |e.ids.i2e|;
    LiveDisk(e);
    CarriesStorable(e.wal.file, e.recs, e.acc.log);
    NothingLost(e.wal.file, e.recs, e.acc.log, |e.wal.file|);
    FirstRecoverable(e.acc, e.ids.i2e, e.pager.pages, e.pager.live, e.pager.meta, past);
    ghost var n, back;
    r, n, back := CrashAndReopen(e, |e.wal.file|, e.pager, d);
  }

  /** A node with external id 0 is committed, and the store does not open again. */
  method ZeroIdBlocksReopen(lid: u32) returns (done: Result<()>, r: Result<Opened>)
    ensures done.Ok? && r.Err?
  {
    hide Replays, Reserved, NamesNodes;
    var created := [Created(0, lid, 0)];
    assert Reserved(NoIds, created) by { FirstReserved(lid); }
    done, r := CommitAndCrash(created, []);
    ZeroMet(created);
  }

  lemma FirstReserved(lid: u32)
    ensures Reserved(NoIds, [Created(0, lid, 0)])
  {
  }

  lemma ZeroMet(created: seq<Created>)
    requires |created| == 1 && created[0].externalId == 0
    ensures !Replays(Writes(created, []), NewRecords(created), 0, 1, 1)
  {
    assert NewRecords(created)[0].externalId == 0;
    assert ZeroBetween(NewRecords(created), 0, 1);
  }

  /** A label change of a node that does not exist is refused after it was logged, and the store does not open again. */
  method RefusedChangeBlocksReopen(node: u32, lid: u32) returns (done: Result<()>, r: Result<Opened>)
    ensures done.Err? && r.Err?
  {
    hide Replays;
    var changes := [AddNodeLabel(node, lid)];
    done, r := CommitAndCrash([], changes);
    NodeUnknown(changes);
  }

  lemma NodeUnknown(changes: seq<WalRecord>)
    requires |changes| == 1 && LabelChange(changes[0])
    ensures !Replays(Writes([], changes), NewRecords([]), 0, 0, 0)
  {
    assert CreateRecords([]) == [];
    assert Writes([], changes) == changes;
  }
}
