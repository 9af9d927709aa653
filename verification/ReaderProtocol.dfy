/**
 * Lock-free readers against one writer at a time: every interleaving of commit and compaction
 * steps with the field-by-field loads of `begin_read`.
 */
module ReaderProtocol {
  import opened Wrappers
  import opened Graph
  import opened Csr
  import opened Compaction
  import opened CommitHistory
  import Neighbors

  /** A committed transaction: its run and the node-label vector once its nodes are applied. */
  datatype Tx = Tx(run: Run, nodes: seq<seq<nat>>)

  /** Where the holder of the write lock stands. */
  datatype Writer =
    | Idle
    | Logged(tx: Tx)
    | NodesOut(tx: Tx)
    | RootsStored
    | RunsCleared(next: seq<Segment>, folded: multiset<EdgeKey>)

  /** A moment at which the published runs and segments belong together, after `n` published commits. */
  datatype Moment = Moment(runs: seq<Tx>, segments: seq<Segment>, gen: nat, n: nat)

  /**
   * The published fields, and what happened so far: the commits published, the edges the store began with, what
   * each compaction folded, how many commits each property root has sunk, and whether every transaction used label ids
   * that existed.
   */
  datatype Shared = Shared(
    runs: seq<Tx>,
    segments: seq<Segment>,
    labels: nat,
    nodeLabels: seq<seq<nat>>,
    lastTxid: nat,
    clears: nat,
    publishes: nat,
    writer: Writer,
    moments: seq<Moment>,
    floors: seq<nat>,
    opens: seq<nat>,
    commits: seq<Tx>,
    base: seq<multiset<EdgeKey>>,
    starts: seq<nat>,
    folds: seq<multiset<EdgeKey>>,
    sunk: seq<nat>,
    known: bool)

  /** `begin_read` between two loads; the numbers say when each load happened. */
  datatype Reader =
    | Start
    | GotRuns(runs: seq<Tx>, at: nat, c: nat)
    | GotSegments(runs: seq<Tx>, at: nat, c: nat, segments: seq<Segment>, p: nat)
    | GotLabels(runs: seq<Tx>, at: nat, c: nat, segments: seq<Segment>, p: nat, labels: nat)
    | GotNodes(runs: seq<Tx>, at: nat, c: nat, segments: seq<Segment>, p: nat, labels: nat,
               nodeLabels: seq<seq<nat>>, labelsThen: nat)
    | Done(runs: seq<Tx>, at: nat, c: nat, segments: seq<Segment>, p: nat, labels: nat,
           nodeLabels: seq<seq<nat>>, labelsThen: nat, root: nat)

  datatype State = State(shared: Shared, readers: map<nat, Reader>)

  // ---- Steps --------------------------------------------------------------------------------

  function Runs(txs: seq<Tx>): (runs: seq<Run>)
    ensures |runs| == |txs| && forall i :: 0 <= i < |txs| ==> runs[i] == txs[i].run
  {
    seq(|txs|, i requires 0 <= i < |txs| => txs[i].run)
  }

  predicate IdsBelow(nodes: seq<seq<nat>>, labels: nat) {
    forall i, j :: 0 <= i < |nodes| && 0 <= j < |nodes[i]| ==> nodes[i][j] < labels
  }

  ghost predicate Init(s: State) {
    && s.shared.runs == [] && s.shared.writer == Idle && s.shared.clears == s.shared.publishes == 0
    && s.shared.known && IdsBelow(s.shared.nodeLabels, s.shared.labels)
    && s.shared.moments == [Moment([], s.shared.segments, 0, 0)]
    && s.shared.commits == [] && s.shared.starts == [0] && s.shared.folds == [] && s.shared.sunk == [0] && AllStored(s.shared.segments, s.shared.base)
    && s.shared.floors == [s.shared.lastTxid] && s.shared.opens == [0]
    && s.readers == map[]
  }

  /** The log holds the transaction; its nodes and labels are applied to the id map. Label ids are not checked. */
  ghost predicate LogTx(s: Shared, s': Shared, tx: Tx) {
    && s.writer.Idle? && tx.run.txid > s.lastTxid && tx.run.Mirrored() && |tx.nodes| >= |s.nodeLabels|
    && s' == s.(writer := Logged(tx), lastTxid := tx.run.txid, known := s.known && IdsBelow(tx.nodes, s.labels))
  }

  ghost predicate PublishNodes(s: Shared, s': Shared) {
    && s.writer.Logged?
    && s' == s.(nodeLabels := s.writer.tx.nodes, writer := NodesOut(s.writer.tx))
  }

  /** `publish_run`, skipped for an empty run. */
  ghost predicate PublishRun(s: Shared, s': Shared) {
    && s.writer.NodesOut?
    && s' == if s.writer.tx.run.IsEmpty() then s.(writer := Idle)
             else s.(runs := [s.writer.tx] + s.runs, writer := Idle, commits := s.commits + [s.writer.tx],
                     moments := s.moments + [Moment([s.writer.tx] + s.runs, s.segments, s.publishes, |s.commits| + 1)])
  }

  /** Compaction stores the root of the properties it sank from all published runs. */
  ghost predicate StoreRoots(s: Shared, s': Shared) {
    && s.writer.Idle? && s.runs != []
    && s' == s.(sunk := s.sunk + [|s.commits|], writer := RootsStored)
  }

  /** Then it clears the runs; `seg` holds what they fold to. */
  ghost predicate ClearRuns(s: Shared, s': Shared, seg: Segment, folded: multiset<EdgeKey>) {
    && s.writer.RootsStored? && s.runs != [] && Stores(seg, folded) && (forall e :: folded[e] == Folded(Runs(s.runs), 0, e))
    && s' == s.(runs := [], clears := s.clears + 1, writer := RunsCleared([seg] + s.segments, folded))
  }

  ghost predicate PublishSegments(s: Shared, s': Shared) {
    && s.writer.RunsCleared?
    && s' == s.(segments := s.writer.next, publishes := s.publishes + 1, writer := Idle,
                moments := s.moments + [Moment([], s.writer.next, s.publishes + 1, |s.commits|)],
                floors := s.floors + [s.lastTxid], opens := s.opens + [|s.moments|],
                starts := s.starts + [|s.commits|], folds := s.folds + [s.writer.folded])
  }

  /** A label is interned and published without the write lock. */
  ghost predicate PublishLabel(s: Shared, s': Shared) { s' == s.(labels := s.labels + 1) }

  ghost predicate WriterStep(s: Shared, s': Shared) {
    || (exists tx :: LogTx(s, s', tx))
    || PublishNodes(s, s') || PublishRun(s, s')
    || StoreRoots(s, s') || (exists seg, folded :: ClearRuns(s, s', seg, folded))
    || PublishSegments(s, s') || PublishLabel(s, s')
  }

  /** One load. */
  function Load(s: Shared, r: Reader): Reader
    requires s.moments != [] && s.sunk != []
  {
    match r
    case Start => GotRuns(s.runs, |s.moments| - 1, s.clears)
    case GotRuns(runs, at, c) => GotSegments(runs, at, c, s.segments, s.publishes)
    case GotSegments(runs, at, c, segments, p) => GotLabels(runs, at, c, segments, p, s.labels)
    case GotLabels(runs, at, c, segments, p, labels) =>
      GotNodes(runs, at, c, segments, p, labels, s.nodeLabels, s.labels)
    case GotNodes(runs, at, c, segments, p, labels, nodeLabels, labelsThen) =>
      Done(runs, at, c, segments, p, labels, nodeLabels, labelsThen, |s.sunk| - 1)
    case Done(_, _, _, _, _, _, _, _, _) => r
  }

  ghost predicate ReaderStep(s: State, s': State, id: nat) {
    && s.shared.moments != [] && s.shared.sunk != []
    && s' == s.(readers := s.readers[id := Load(s.shared, if id in s.readers then s.readers[id] else Start)])
  }

  ghost predicate Next(s: State, s': State) {
    || (WriterStep(s.shared, s'.shared) && s'.readers == s.readers)
    || (exists id :: ReaderStep(s, s', id))
  }

  ghost predicate Execution(t: seq<State>) {
    && t != [] && Init(t[0])
    && forall i :: 0 <= i < |t| - 1 ==> Next(t[i], t[i + 1])
  }

  // ---- What the published fields keep ------------------------------------------------------------

  ghost predicate DescendingTo(runs: seq<Tx>, top: nat) {
    && (forall i :: 0 <= i < |runs| ==> runs[i].run.txid <= top)
    && (forall i, j :: 0 <= i < j < |runs| ==> runs[j].run.txid < runs[i].run.txid)
  }

  ghost predicate Covered(runs: seq<Tx>, nodes: nat) {
    forall i :: 0 <= i < |runs| ==> |runs[i].nodes| <= nodes
  }

  ghost predicate Published(s: Shared) {
    && DescendingTo(s.runs, s.lastTxid) && Covered(s.runs, |s.nodeLabels|)
    && (s.known ==> IdsBelow(s.nodeLabels, s.labels))
    && s.clears == s.publishes + (if s.writer.RunsCleared? then 1 else 0)
  }

  /** The transaction in flight is newer than every published run. */
  ghost predicate InFlight(s: Shared) {
    match s.writer
    case Idle => true
    case Logged(tx) => Newest(s, tx) && |tx.nodes| >= |s.nodeLabels| && (s.known ==> IdsBelow(tx.nodes, s.labels))
    case NodesOut(tx) => Newest(s, tx) && |tx.nodes| <= |s.nodeLabels|
    case RootsStored => true
    case RunsCleared(next, _) => s.runs == [] && |next| == |s.segments| + 1
  }

  ghost predicate Newest(s: Shared, tx: Tx) {
    && tx.run.txid == s.lastTxid
    && forall i :: 0 <= i < |s.runs| ==> s.runs[i].run.txid < tx.run.txid
  }

  /** The last moment is the published pair, or the pair compaction is replacing. */
  ghost predicate Current(s: Shared) {
    && s.moments != []
    && var last := s.moments[|s.moments| - 1];
       && last.segments == s.segments && last.gen == s.publishes
       && if s.writer.RunsCleared? then last.runs != [] else last.runs == s.runs
  }

  /** Segments tell generations apart; within one generation runs only grow. */
  ghost predicate Generations(m: seq<Moment>) {
    forall i, j :: 0 <= i <= j < |m| ==>
      && m[i].gen <= m[j].gen && |m[j].segments| == |m[i].segments| + (m[j].gen - m[i].gen)
      && (m[i].gen == m[j].gen ==> m[i].segments == m[j].segments && |m[i].runs| <= |m[j].runs|)
  }

  /** Runs of generation `g` lie above the floor of `g`, runs of earlier generations do not. */
  ghost predicate Floored(m: seq<Moment>, floors: seq<nat>) {
    forall i, g, k :: 0 <= i < |m| && 0 <= g < |floors| && 0 <= k < |m[i].runs| ==>
      if m[i].gen >= g then floors[g] < m[i].runs[k].run.txid else m[i].runs[k].run.txid <= floors[g]
  }

  /** Each generation opens with no runs. */
  ghost predicate Opened(m: seq<Moment>, opens: seq<nat>) {
    forall g :: 0 <= g < |opens| ==> opens[g] < |m| && m[opens[g]].gen == g && m[opens[g]].runs == []
  }

  ghost predicate Bounded(s: Shared) {
    && |s.floors| == |s.opens| == s.publishes + 1
    && (forall g :: 0 <= g < |s.floors| ==> s.floors[g] <= s.lastTxid)
    && (s.writer.Logged? || s.writer.NodesOut? ==> forall g :: 0 <= g < |s.floors| ==> s.floors[g] < s.lastTxid)
    && (forall i, k :: 0 <= i < |s.moments| && 0 <= k < |s.moments[i].runs| ==> s.moments[i].runs[k].run.txid <= s.lastTxid)
  }

  ghost predicate SharedInv(s: Shared) {
    && Published(s) && InFlight(s) && Current(s) && Bounded(s)
    && Generations(s.moments) && Floored(s.moments, s.floors) && Opened(s.moments, s.opens)
  }

  // ---- What a reader holds -----------------------------------------------------------------------

  /** The runs were current at moment `at`, or were loaded while compaction had cleared them. */
  ghost predicate RunsAt(m: seq<Moment>, runs: seq<Tx>, at: nat, c: nat) {
    && at < |m|
    && ((m[at].gen == c && m[at].runs == runs) || (m[at].gen + 1 == c && runs == [] && m[at].runs != []))
  }

  ghost predicate SegmentsOf(m: seq<Moment>, segments: seq<Segment>, p: nat, at: nat) {
    exists k :: at <= k < |m| && m[k].gen == p && m[k].segments == segments
  }

  ghost predicate ReaderInv(s: Shared, r: Reader) {
    match r
    case Start => true
    case GotRuns(runs, at, c) => HoldsRuns(s, runs, at, c)
    case GotSegments(runs, at, c, segments, p) => HoldsRuns(s, runs, at, c) && HoldsSegments(s, at, segments, p)
    case GotLabels(runs, at, c, segments, p, labels) =>
      HoldsRuns(s, runs, at, c) && HoldsSegments(s, at, segments, p) && labels <= s.labels
    case GotNodes(runs, at, c, segments, p, labels, nodeLabels, labelsThen) =>
      HoldsRuns(s, runs, at, c) && HoldsSegments(s, at, segments, p) && HoldsLabels(s, runs, labels, nodeLabels, labelsThen)
    case Done(runs, at, c, segments, p, labels, nodeLabels, labelsThen, root) =>
      && HoldsRuns(s, runs, at, c) && HoldsSegments(s, at, segments, p) && HoldsLabels(s, runs, labels, nodeLabels, labelsThen)
      && c <= root < |s.sunk|
  }

  ghost predicate HoldsLabels(s: Shared, runs: seq<Tx>, labels: nat, nodeLabels: seq<seq<nat>>, labelsThen: nat) {
    Covered(runs, |nodeLabels|) && labels <= labelsThen && (s.known ==> IdsBelow(nodeLabels, labelsThen))
  }

  ghost predicate HoldsRuns(s: Shared, runs: seq<Tx>, at: nat, c: nat) {
    && RunsAt(s.moments, runs, at, c) && c <= s.clears
    && DescendingTo(runs, s.lastTxid) && Covered(runs, |s.nodeLabels|)
  }

  ghost predicate HoldsSegments(s: Shared, at: nat, segments: seq<Segment>, p: nat) {
    p <= s.publishes && SegmentsOf(s.moments, segments, p, at)
  }

  // ---- What the published fields stand for ----------------------------------------------------------

  ghost function Story(s: Shared): Chronicle { Chronicle(s.base, Runs(s.commits), s.starts, s.folds) }

  /** The moment holds the commits of its generation up to its own, over segments that store the earlier ones. */
  ghost predicate Tells(s: Shared, m: Moment) {
    && m.gen < |s.starts| == |s.folds| + 1 && s.starts[m.gen] <= m.n <= |s.commits|
    && m.runs == Latest(s.commits, s.starts[m.gen], m.n) && AllStored(m.segments, Story(s).Stored(m.gen))
  }

  /** The compaction under way folds the runs of the current generation. */
  ghost predicate Folding(s: Shared) {
    s.writer.RunsCleared? ==>
      && |s.starts| > 0 && s.writer.next != [] && s.writer.next == [s.writer.next[0]] + s.segments && Stores(s.writer.next[0], s.writer.folded)
      && (forall e :: s.writer.folded[e] == Folded(Latest(Runs(s.commits), s.starts[|s.starts| - 1], |s.commits|), 0, e))
  }

  ghost predicate Chronicled(s: Shared) {
    && Story(s).Valid() && |s.folds| == s.publishes && AllMirrored(Runs(s.commits)) && Folding(s)
    && (s.writer.Logged? || s.writer.NodesOut? ==> s.writer.tx.run.Mirrored())
    && (!s.writer.RunsCleared? ==> s.runs == Latest(s.commits, s.starts[s.publishes], |s.commits|))
    && AllStored(s.segments, Story(s).Stored(s.publishes))
    && forall i :: 0 <= i < |s.moments| ==> Tells(s, s.moments[i])
  }

  /** Root `g` holds the properties of every commit of the generations before `g`; it is stored before their runs go. */
  ghost predicate Sunken(s: Shared) {
    && |s.sunk| == s.publishes + (if s.writer.RootsStored? || s.writer.RunsCleared? then 2 else 1) && |s.starts| == s.publishes + 1
    && (forall g :: 0 <= g <= s.publishes ==> s.sunk[g] == s.starts[g])
    && (s.writer.RootsStored? || s.writer.RunsCleared? ==> s.sunk[s.publishes + 1] == |s.commits|)
    && (forall g, h :: 0 <= g <= h < |s.sunk| ==> s.sunk[g] <= s.sunk[h] <= |s.commits|)
    && (forall k :: 0 <= k < |s.moments| && s.moments[k].gen + 1 < |s.sunk| ==> s.moments[k].n <= s.sunk[s.moments[k].gen + 1])
  }

  ghost predicate Inv(s: State) {
    SharedInv(s.shared) && Chronicled(s.shared) && Sunken(s.shared) && forall id :: id in s.readers ==> ReaderInv(s.shared, s.readers[id])
  }

  // ---- Preservation --------------------------------------------------------------------------------

  lemma InitInv(s: State)
    requires Init(s)
    ensures Inv(s)
  {
    hide Stores;
    assert Story(s.shared).Stored(0) == s.shared.base;
  }

  lemma {:induction false} RunsLatest(txs: seq<Tx>, a: nat, b: nat)
    requires b <= |txs|
    ensures Runs(Latest(txs, a, b)) == Latest(Runs(txs), a, b)
  {
    if a < b {
      RunsLatest(txs, a, b - 1);
      assert Runs(Latest(txs, a, b)) == [txs[b - 1].run] + Runs(Latest(txs, a, b - 1));
    }
  }

  lemma {:induction false} StoredSame(h: Chronicle, h': Chronicle, g: nat)
    requires h.base == h'.base && h.folds <= h'.folds && g <= |h.folds|
    ensures h'.Stored(g) == h.Stored(g)
  {
    if g > 0 { StoredSame(h, h', g - 1); }
  }

  /** A longer history tells the same of an earlier moment. */
  lemma StillTells(s: Shared, s': Shared, m: Moment)
    requires Tells(s, m) && s.base == s'.base && s.folds <= s'.folds && s.commits <= s'.commits && s.starts <= s'.starts
    requires |s'.starts| == |s'.folds| + 1
    ensures Tells(s', m)
  {
    hide AllStored;
    StoredSame(Story(s), Story(s'), m.gen);
    LatestLonger(s.commits, s'.commits, s.starts[m.gen], m.n);
  }

  lemma LongerStory(h: Chronicle, h': Chronicle)
    requires h.Valid() && h'.base == h.base && h'.starts == h.starts && h'.folds == h.folds && h.commits <= h'.commits
    ensures h'.Valid()
  {
    hide Folded;
    forall g | 0 <= g < |h.folds| ensures h'.FoldedFrom(g) {
      assert h.FoldedFrom(g);
      LatestLonger(h.commits, h'.commits, h.starts[g], h.starts[g + 1]);
    }
  }

  lemma PublishRunTells(s: Shared, s': Shared)
    requires SharedInv(s) && Chronicled(s) && PublishRun(s, s')
    ensures Chronicled(s')
  {
    hide SharedInv, Run.IsEmpty, Run.Mirrored, AllStored, Chronicle.Valid, Tells, Stores, Folded;
    if !s.writer.tx.run.IsEmpty() {
      var next := Moment([s.writer.tx] + s.runs, s.segments, s.publishes, |s.commits| + 1);
      assert Runs(s'.commits) == Runs(s.commits) + [s.writer.tx.run];
      LongerStory(Story(s), Story(s'));
      StoredSame(Story(s), Story(s'), s.publishes);
      StartsWithin(s);
      LatestLonger(s.commits, s'.commits, s.starts[s.publishes], |s.commits|);
      assert Tells(s', next) by { NewTells(s', next); }
      forall i | 0 <= i < |s'.moments| ensures Tells(s', s'.moments[i]) {
        if i < |s.moments| { StillTells(s, s', s.moments[i]); }
      }
    } else {
      forall i | 0 <= i < |s'.moments| ensures Tells(s', s'.moments[i]) { SameTells(s, s', s.moments[i]); }
    }
  }

  lemma StartsWithin(s: Shared)
    requires Story(s).Valid() && |s.folds| == s.publishes
    ensures |s.starts| == s.publishes + 1 && s.starts[s.publishes] <= |s.commits|
  {
  }

  lemma NewTells(s: Shared, m: Moment)
    requires m.gen < |s.starts| == |s.folds| + 1 && s.starts[m.gen] <= m.n <= |s.commits|
    requires m.runs == Latest(s.commits, s.starts[m.gen], m.n) && AllStored(m.segments, Story(s).Stored(m.gen))
    ensures Tells(s, m)
  {
  }

  lemma PublishSegmentsTells(s: Shared, s': Shared)
    requires SharedInv(s) && Chronicled(s) && PublishSegments(s, s')
    ensures Chronicled(s')
  {
    hide SharedInv, Run.Mirrored, AllStored, Chronicle.Valid, Tells, Stores, Folded;
    var next := Moment([], s.writer.next, s.publishes + 1, |s.commits|);
    StartsWithin(s);
    assert s.runs == [] by { ClearedRuns(s); }
    FoldedStory(s, s');
    StoredSame(Story(s), Story(s'), s.publishes);
    assert Story(s').Stored(s'.publishes) == [s.writer.folded] + Story(s).Stored(s.publishes);
    StoredCons(s.writer.next[0], s.writer.folded, s.segments, Story(s).Stored(s.publishes));
    assert Tells(s', next) by { NewTells(s', next); }
    forall i | 0 <= i < |s'.moments| ensures Tells(s', s'.moments[i]) {
      if i < |s.moments| { StillTells(s, s', s.moments[i]); }
    }
  }

  lemma ClearedRuns(s: Shared)
    requires SharedInv(s) && s.writer.RunsCleared?
    ensures s.runs == []
  {
    hide Published, Current, Bounded, Generations, Floored, Opened;
  }

  lemma FoldedStory(s: Shared, s': Shared)
    requires Story(s).Valid() && |s.folds| == s.publishes && Folding(s) && PublishSegments(s, s')
    ensures Story(s').Valid()
  {
    hide Folded, Stores;
    var h, h' := Story(s), Story(s');
    forall g | 0 <= g < |h'.folds| ensures h'.FoldedFrom(g) {
      if g < |h.folds| { assert h.FoldedFrom(g); }
    }
  }

  lemma OtherStepsTell(s: Shared, s': Shared)
    requires SharedInv(s) && Chronicled(s)
    requires (exists tx :: LogTx(s, s', tx)) || PublishNodes(s, s') || StoreRoots(s, s')
             || (exists seg, folded :: ClearRuns(s, s', seg, folded)) || PublishLabel(s, s')
    ensures Chronicled(s')
  {
    hide SharedInv, Run.Mirrored, AllStored, Stores, Folded, Chronicle.Valid, Tells;
    assert Story(s') == Story(s);
    forall i | 0 <= i < |s'.moments| ensures Tells(s', s'.moments[i]) { SameTells(s, s', s.moments[i]); }
    StartsWithin(s);
    if seg, folded :| ClearRuns(s, s', seg, folded) { ClearFolds(s, s', seg, folded); }
  }

  lemma SameTells(s: Shared, s': Shared, m: Moment)
    requires Tells(s, m) && Story(s') == Story(s) && s.commits == s'.commits
    ensures Tells(s', m)
  {
    hide AllStored;
    assert s'.starts == Story(s').starts && s'.folds == Story(s').folds;
  }

  lemma ClearFolds(s: Shared, s': Shared, seg: Segment, folded: multiset<EdgeKey>)
    requires ClearRuns(s, s', seg, folded) && |s.starts| == s.publishes + 1 && s.starts[s.publishes] <= |s.commits|
    requires s.runs == Latest(s.commits, s.starts[s.publishes], |s.commits|)
    ensures Folding(s')
  {
    hide Folded, Stores;
    RunsLatest(s.commits, s.starts[s.publishes], |s.commits|);
    assert ([seg] + s.segments)[0] == seg;
  }

  /** Every writer step extends the history and keeps counters and vectors from shrinking. */
  ghost predicate Extends(s: Shared, s': Shared) {
    && s.moments <= s'.moments && s.clears <= s'.clears && s.publishes <= s'.publishes
    && s.labels <= s'.labels && s.lastTxid <= s'.lastTxid && s.sunk <= s'.sunk && |s.nodeLabels| <= |s'.nodeLabels| && (s'.known ==> s.known)
  }

  lemma PublishRunKeeps(s: Shared, s': Shared)
    requires SharedInv(s) && PublishRun(s, s')
    ensures SharedInv(s') && Extends(s, s')
  {
    hide Generations, Floored, Opened, Run.IsEmpty, IdsBelow;
    if !s.writer.tx.run.IsEmpty() {
      var next := Moment([s.writer.tx] + s.runs, s.segments, s.publishes, |s.commits| + 1);
      assert s'.moments == s.moments + [next];
      GenerationGrows(s.moments, next);
      FloorsHold(s, next);
      OpenedStill(s.moments, next, s.opens);
    }
  }

  lemma GenerationGrows(m: seq<Moment>, next: Moment)
    requires Generations(m) && m != []
    requires var last := m[|m| - 1]; next.gen == last.gen && next.segments == last.segments && |last.runs| <= |next.runs|
    ensures Generations(m + [next])
  {
  }

  lemma FloorsHold(s: Shared, next: Moment)
    requires Floored(s.moments, s.floors) && Current(s) && Bounded(s) && s.writer.NodesOut?
    requires s.writer.tx.run.txid == s.lastTxid
    requires next == Moment([s.writer.tx] + s.runs, s.segments, s.publishes, |s.commits| + 1)
    ensures Floored(s.moments + [next], s.floors)
  {
    var m, last := s.moments, s.moments[|s.moments| - 1];
    forall g, k | 0 <= g < |s.floors| && 0 <= k < |next.runs| ensures s.floors[g] < next.runs[k].run.txid {
      if k > 0 { assert next.runs[k] == last.runs[k - 1]; }
    }
  }

  lemma OpenedStill(m: seq<Moment>, next: Moment, opens: seq<nat>)
    requires Opened(m, opens)
    ensures Opened(m + [next], opens)
  {
  }

  lemma NewGeneration(m: seq<Moment>, next: Moment)
    requires Generations(m) && m != []
    requires var last := m[|m| - 1]; next.gen == last.gen + 1 && |next.segments| == |last.segments| + 1
    ensures Generations(m + [next]) && forall i :: 0 <= i < |m| ==> m[i].gen < next.gen
  {
    var all, last := m + [next], |m| - 1;
    forall i | 0 <= i < |m| ensures m[i].gen <= m[last].gen && |next.segments| == |m[i].segments| + (next.gen - m[i].gen) { }
  }

  lemma NewFloor(s: Shared, next: Moment)
    requires Floored(s.moments, s.floors) && Bounded(s) && next.runs == []
    requires forall i :: 0 <= i < |s.moments| ==> s.moments[i].gen < |s.floors|
    ensures Floored(s.moments + [next], s.floors + [s.lastTxid])
  {
  }

  lemma NewOpening(m: seq<Moment>, opens: seq<nat>, next: Moment)
    requires Opened(m, opens) && next.runs == [] && next.gen == |opens|
    ensures Opened(m + [next], opens + [|m|])
  {
  }

  lemma PublishSegmentsKeeps(s: Shared, s': Shared)
    requires SharedInv(s) && PublishSegments(s, s')
    ensures SharedInv(s') && Extends(s, s')
  {
    hide Generations, Floored, Opened, IdsBelow, DescendingTo, Covered;
    var next := Moment([], s.writer.next, s.publishes + 1, |s.commits|);
    NewGeneration(s.moments, next);
    NewFloor(s, next);
    NewOpening(s.moments, s.opens, next);
  }

  lemma OtherStepsKeep(s: Shared, s': Shared)
    requires SharedInv(s)
    requires (exists tx :: LogTx(s, s', tx)) || PublishNodes(s, s') || StoreRoots(s, s')
             || (exists seg, folded :: ClearRuns(s, s', seg, folded)) || PublishLabel(s, s')
    ensures SharedInv(s') && Extends(s, s')
  {
    hide SharedInv, Extends, LogTx, PublishNodes, StoreRoots, ClearRuns, PublishLabel;
    if tx :| LogTx(s, s', tx) {
      LogTxKeeps(s, s', tx);
    } else if seg, folded :| ClearRuns(s, s', seg, folded) {
      ClearRunsKeeps(s, s', seg, folded);
    } else {
      PlainStepKeeps(s, s');
    }
  }

  lemma LogTxKeeps(s: Shared, s': Shared, tx: Tx)
    requires SharedInv(s) && LogTx(s, s', tx)
    ensures SharedInv(s') && Extends(s, s')
  {
    hide Generations, Floored, Opened, Run.Mirrored;
  }

  lemma ClearRunsKeeps(s: Shared, s': Shared, seg: Segment, folded: multiset<EdgeKey>)
    requires SharedInv(s) && ClearRuns(s, s', seg, folded)
    ensures SharedInv(s') && Extends(s, s')
  {
    hide Generations, Floored, Opened, Stores, Folded, IdsBelow;
  }

  lemma PlainStepKeeps(s: Shared, s': Shared)
    requires SharedInv(s) && (PublishNodes(s, s') || StoreRoots(s, s') || PublishLabel(s, s'))
    ensures SharedInv(s') && Extends(s, s')
  {
    hide Generations, Floored, Opened;
  }

  lemma WriterKeeps(s: Shared, s': Shared)
    requires SharedInv(s) && Chronicled(s) && WriterStep(s, s')
    ensures SharedInv(s') && Chronicled(s') && Extends(s, s')
  {
    hide SharedInv, Chronicled, Extends, LogTx, PublishNodes, PublishRun, StoreRoots, ClearRuns, PublishSegments, PublishLabel;
    if PublishRun(s, s') {
      PublishRunKeeps(s, s');
      PublishRunTells(s, s');
    } else if PublishSegments(s, s') {
      PublishSegmentsKeeps(s, s');
      PublishSegmentsTells(s, s');
    } else {
      OtherStepsKeep(s, s');
      OtherStepsTell(s, s');
    }
  }

  lemma SunkenKept(s: Shared, s': Shared)
    requires SharedInv(s) && Chronicled(s) && Sunken(s) && WriterStep(s, s')
    ensures Sunken(s')
  {
    hide SharedInv, Chronicled, Sunken, LogTx, PublishNodes, PublishRun, StoreRoots, ClearRuns, PublishSegments, PublishLabel;
    if StoreRoots(s, s') {
      RootsSink(s, s');
    } else if PublishSegments(s, s') {
      SegmentsSink(s, s');
    } else if PublishRun(s, s') {
      RunSinks(s, s');
    } else if seg, folded :| ClearRuns(s, s', seg, folded) {
      ClearedSinks(s, s', seg, folded);
    } else {
      OthersSink(s, s');
    }
  }

  lemma RootsSink(s: Shared, s': Shared)
    requires Chronicled(s) && Sunken(s) && StoreRoots(s, s')
    ensures Sunken(s')
  {
    hide Chronicled;
    forall k | 0 <= k < |s'.moments| && s'.moments[k].gen + 1 < |s'.sunk| ensures s'.moments[k].n <= s'.sunk[s'.moments[k].gen + 1] {
      MomentWithin(s, k);
    }
  }

  lemma SegmentsSink(s: Shared, s': Shared)
    requires Sunken(s) && PublishSegments(s, s')
    ensures Sunken(s')
  {
  }

  lemma RunSinks(s: Shared, s': Shared)
    requires Sunken(s) && PublishRun(s, s')
    ensures Sunken(s')
  {
    hide Run.IsEmpty;
  }

  lemma ClearedSinks(s: Shared, s': Shared, seg: Segment, folded: multiset<EdgeKey>)
    requires Sunken(s) && ClearRuns(s, s', seg, folded)
    ensures Sunken(s')
  {
    hide Stores, Folded;
  }

  lemma OthersSink(s: Shared, s': Shared)
    requires Sunken(s) && ((exists tx :: LogTx(s, s', tx)) || PublishNodes(s, s') || PublishLabel(s, s'))
    ensures Sunken(s')
  {
    hide IdsBelow, Run.Mirrored;
  }

  lemma MomentWithin(s: Shared, k: nat)
    requires Chronicled(s) && k < |s.moments|
    ensures s.moments[k].n <= |s.commits| && s.moments[k].gen <= s.publishes
  {
    hide Chronicle.Valid, AllMirrored, AllStored, Folding;
    assert Tells(s, s.moments[k]);
  }

  lemma ReaderSurvives(s: Shared, s': Shared, r: Reader)
    requires ReaderInv(s, r) && Extends(s, s')
    ensures ReaderInv(s', r)
  {
  }

  lemma LoadKeeps(s: Shared, r: Reader)
    requires SharedInv(s) && Sunken(s) && ReaderInv(s, r)
    ensures ReaderInv(s, Load(s, r))
  {
  }

  lemma NextInv(s: State, s': State)
    requires Inv(s) && Next(s, s')
    ensures Inv(s')
  {
    hide SharedInv, Chronicled, Sunken, ReaderInv, WriterStep, Load, Extends;
    if WriterStep(s.shared, s'.shared) && s'.readers == s.readers {
      WriterKeeps(s.shared, s'.shared);
      SunkenKept(s.shared, s'.shared);
      forall id | id in s'.readers ensures ReaderInv(s'.shared, s'.readers[id]) {
        ReaderSurvives(s.shared, s'.shared, s.readers[id]);
      }
    } else {
      var id :| ReaderStep(s, s', id);
      var r := if id in s.readers then s.readers[id] else Start;
      StartInv(s.shared);
      LoadKeeps(s.shared, r);
    }
  }

  lemma StartInv(s: Shared)
    ensures ReaderInv(s, Start)
  {
  }

  lemma {:induction false} ExecutionInv(t: seq<State>, i: nat)
    requires Execution(t) && i < |t|
    ensures Inv(t[i])
  {
    hide Init, Next, Inv;
    if i == 0 { InitInv(t[0]); } else {
      ExecutionInv(t, i - 1);
      NextInv(t[i - 1], t[i]);
    }
  }

  // ---- What snapshots show -----------------------------------------------------------------------

  /** Some moment from index `from` on has exactly this pair. */
  ghost predicate Seen(m: seq<Moment>, from: nat, runs: seq<Tx>, segments: seq<Segment>) {
    exists k :: from <= k < |m| && m[k].runs == runs && m[k].segments == segments
  }

  /**
   * In every snapshot of every execution, runs descend and the node-label vector covers their nodes. Its label ids are
   * known if every transaction used known ones and no label was published between the two label loads.
   */
  lemma SnapshotCovers(t: seq<State>, i: nat, id: nat)
    requires Execution(t) && i < |t| && id in t[i].readers && t[i].readers[id].Done?
    ensures var r := t[i].readers[id];
            && (forall j :: 0 <= j < |r.runs| ==> |r.runs[j].nodes| <= |r.nodeLabels|)
            && (forall j, k :: 0 <= j < k < |r.runs| ==> r.runs[k].run.txid < r.runs[j].run.txid)
            && (t[i].shared.known && r.labels == r.labelsThen ==> IdsBelow(r.nodeLabels, r.labels))
  {
    hide Execution, SharedInv, Chronicled, Sunken, HoldsSegments, RunsAt, IdsBelow;
    ExecutionInv(t, i);
  }

  /**
   * The runs and segments of a snapshot belong to one moment of the commit history exactly when no
   * compaction published between the two loads, or the runs were empty. They belong to a moment no
   * older than the load exactly when, further, the runs were not loaded in the half-published
   * window of a compaction whose segments came too late.
   */
  lemma SnapshotIsMoment(t: seq<State>, i: nat, id: nat)
    requires Execution(t) && i < |t| && id in t[i].readers && t[i].readers[id].Done?
    ensures var r, m := t[i].readers[id], t[i].shared.moments;
            && (Seen(m, 0, r.runs, r.segments) <==> r.p <= r.c || r.runs == [])
            && (Seen(m, r.at, r.runs, r.segments) <==> r.p == r.c || (r.p > r.c && r.runs == []))
  {
    hide Execution;
    ExecutionInv(t, i);
    var r := t[i].readers[id];
    PairIsMoment(t[i].shared, r.runs, r.at, r.c, r.segments, r.p);
  }

  lemma PairIsMoment(s: Shared, runs: seq<Tx>, at: nat, c: nat, segments: seq<Segment>, p: nat)
    requires SharedInv(s) && HoldsRuns(s, runs, at, c) && HoldsSegments(s, at, segments, p)
    ensures Seen(s.moments, 0, runs, segments) <==> p <= c || runs == []
    ensures Seen(s.moments, at, runs, segments) <==> p == c || (p > c && runs == [])
  {
    hide Published, InFlight, Current, DescendingTo, Covered, Floored;
    var m := s.moments;
    var q :| at <= q < |m| && m[q].gen == p && m[q].segments == segments;
    var o := s.opens[p];
    assert m[o].segments == segments by { SameGeneration(m, o, q); }
    if p < c {
      forall k | at <= k < |m| && m[k].segments == segments ensures m[k].runs != [] { SameGeneration(m, k, q); }
    } else if p > c {
      SameGeneration(m, at, o);
      if runs != [] {
        forall k | 0 <= k < |m| && m[k].segments == segments ensures m[k].runs != runs {
          SameGeneration(m, k, q);
          RunsApart(s, at, k);
        }
      }
    } else {
      SameGeneration(m, at, q);
      SameGeneration(m, at, o);
    }
  }

  /** Equal segments mean the same generation, and the other way round. */
  lemma SameGeneration(m: seq<Moment>, i: nat, j: nat)
    requires Generations(m) && i < |m| && j < |m|
    ensures m[i].segments == m[j].segments <==> m[i].gen == m[j].gen
    ensures m[i].gen < m[j].gen ==> i < j
    ensures m[i].gen == m[j].gen && i <= j ==> |m[i].runs| <= |m[j].runs|
  {
  }

  /** A compaction separates the runs before it from the runs after it. */
  lemma RunsApart(s: Shared, i: nat, j: nat)
    requires Bounded(s) && Floored(s.moments, s.floors) && i < |s.moments| && j < |s.moments|
    requires s.moments[i].gen < s.moments[j].gen <= s.publishes && s.moments[i].runs != []
    ensures s.moments[i].runs != s.moments[j].runs
  {
    var a, b, g := s.moments[i].runs, s.moments[j].runs, s.moments[j].gen;
    assert a[0].run.txid <= s.floors[g];
    if b != [] { assert s.floors[g] < b[0].run.txid; }
  }

  lemma {:induction false} InLatest(txs: seq<Tx>, a: nat, b: nat, j: nat)
    requires a <= j < b <= |txs|
    ensures txs[j] in Latest(txs, a, b)
  {
    if j < b - 1 { InLatest(txs, a, b - 1, j); }
  }

  /**
   * Unlike edges, properties are never missed: every commit published before the runs were loaded is among the runs of the
   * snapshot or was sunk into the store its root names, half-published window or not.
   */
  lemma SnapshotKeepsProperties(t: seq<State>, i: nat, id: nat, j: nat)
    requires Execution(t) && i < |t| && id in t[i].readers && t[i].readers[id].Done?
    requires t[i].readers[id].at < |t[i].shared.moments| && j < t[i].shared.moments[t[i].readers[id].at].n
    ensures var r, s := t[i].readers[id], t[i].shared;
            j < |s.commits| && r.root < |s.sunk| && (s.commits[j] in r.runs || j < s.sunk[r.root])
  {
    hide Execution, Chronicle.Valid, AllMirrored, AllStored, Folding, SharedInv, HoldsSegments, HoldsLabels;
    ExecutionInv(t, i);
    var r, s := t[i].readers[id], t[i].shared;
    var m := s.moments[r.at];
    assert Tells(s, m);
    if m.gen == r.c && s.starts[r.c] <= j { InLatest(s.commits, s.starts[r.c], m.n, j); }
  }

  // ---- What snapshots tell of the commits -----------------------------------------------------------------

  /** Copies of `e` a snapshot's scan returns for a query. */
  ghost function SnapshotCount(r: Reader, q: Neighbors.Query, e: EdgeKey): nat
    requires r.Done? && Neighbors.Served(Runs(r.runs), r.segments, q)
  {
    multiset(Neighbors.Scan(Runs(r.runs), r.segments, q))[e]
  }

  /** Copies of `e` after the first `m.n` commits, with what the compactions before that moment changed. */
  ghost function CommitsTell(s: Shared, m: Moment, dir: Direction, e: EdgeKey): int
    requires Story(s).Valid() && Tells(s, m)
  {
    Shown(Latest(Runs(s.commits), 0, m.n), s.base, dir, e) + Story(s).Drift(m.gen, Runs(m.runs), dir, e)
  }

  lemma MomentTells(s: Shared, m: Moment, dir: Direction, e: EdgeKey)
    requires Story(s).Valid() && Tells(s, m)
    ensures Shown(Runs(m.runs), Story(s).Stored(m.gen), dir, e) == CommitsTell(s, m, dir, e)
  {
    hide Shown, AllStored, Chronicle.Drift, Chronicle.Stored;
    var h := Story(s);
    RunsLatest(s.commits, s.starts[m.gen], m.n);
    LatestSplit(h.commits, 0, s.starts[m.gen], m.n);
    ToldByCommits(h, m.gen, Runs(m.runs), dir, e);
  }

  lemma {:induction false} LatestMirrored(runs: seq<Run>, a: nat, b: nat)
    requires AllMirrored(runs) && b <= |runs|
    ensures AllMirrored(Latest(runs, a, b))
  {
    hide Run.Mirrored;
    if a < b { LatestMirrored(runs, a, b - 1); }
  }

  lemma MomentMirrored(s: Shared, m: Moment)
    requires AllMirrored(Runs(s.commits)) && Tells(s, m)
    ensures AllMirrored(Runs(m.runs))
  {
    hide AllMirrored, AllStored;
    RunsLatest(s.commits, s.starts[m.gen], m.n);
    LatestMirrored(Runs(s.commits), s.starts[m.gen], m.n);
  }

  /** Runs of one moment with segments of another: the copies a scan returns. */
  lemma PairCount(s: Shared, at: nat, k: nat, q: Neighbors.Query, e: EdgeKey)
    requires Chronicled(s) && at < |s.moments| && k < |s.moments| && Neighbors.Served(Runs(s.moments[at].runs), s.moments[k].segments, q)
    ensures s.moments[k].gen <= |s.folds|
    ensures multiset(Neighbors.Scan(Runs(s.moments[at].runs), s.moments[k].segments, q))[e]
         == if Asked(q, e) then Shown(Runs(s.moments[at].runs), Story(s).Stored(s.moments[k].gen), q.dir, e) else 0
  {
    hide AllMirrored, AllStored, Neighbors.Served, Neighbors.Scan, Shown, Chronicle.Valid, Folding, Chronicle.Stored;
    assert Tells(s, s.moments[at]) && Tells(s, s.moments[k]);
    MomentMirrored(s, s.moments[at]);
    ScanCounts(Runs(s.moments[at].runs), s.moments[k].segments, Story(s).Stored(s.moments[k].gen), q, e);
  }

  lemma AnyMoment(s: Shared, k: nat)
    requires Chronicled(s) && k < |s.moments|
    ensures Story(s).Valid() && Tells(s, s.moments[k])
  {
    hide Chronicle.Valid, Tells, AllMirrored, AllStored, Folding;
  }

  /**
   * Unless a compaction published between the two loads of a snapshot that holds runs, the snapshot tells exactly
   * the first `n` commits, for some `n`, with the change that compactions made: `n` is that of moment `k`. The moment is
   * no older than the load of the runs unless that load fell into the half-published window of a compaction whose
   * segments came too late.
   */
  lemma SnapshotTells(t: seq<State>, i: nat, id: nat) returns (k: nat)
    requires Execution(t) && i < |t| && id in t[i].readers && t[i].readers[id].Done?
    requires var r := t[i].readers[id]; r.p <= r.c || r.runs == []
    ensures var r, s := t[i].readers[id], t[i].shared;
            && k < |s.moments| && Story(s).Valid() && Tells(s, s.moments[k])
            && r.runs == s.moments[k].runs && r.segments == s.moments[k].segments && (r.p >= r.c ==> r.at <= k)
            && forall q, e :: Neighbors.Served(Runs(r.runs), r.segments, q) ==>
                 SnapshotCount(r, q, e) == if Asked(q, e) then CommitsTell(s, s.moments[k], q.dir, e) else 0
  {
    hide Execution, SharedInv, Chronicled, CommitsTell, Tells, Chronicle.Valid;
    ExecutionInv(t, i);
    SnapshotIsMoment(t, i, id);
    var r, s := t[i].readers[id], t[i].shared;
    if r.p >= r.c {
      k :| r.at <= k < |s.moments| && s.moments[k].runs == r.runs && s.moments[k].segments == r.segments;
    } else {
      k :| 0 <= k < |s.moments| && s.moments[k].runs == r.runs && s.moments[k].segments == r.segments;
    }
    AnyMoment(s, k);
    forall q, e | Neighbors.Served(Runs(r.runs), r.segments, q)
      ensures SnapshotCount(r, q, e) == if Asked(q, e) then CommitsTell(s, s.moments[k], q.dir, e) else 0
    {
      PairCount(s, k, k, q, e);
      MomentTells(s, s.moments[k], q.dir, e);
    }
  }

  /** The segments of a snapshot are those of a moment of generation `p`, at or after the load of its runs. */
  lemma SegmentsMoment(t: seq<State>, i: nat, id: nat) returns (k: nat)
    requires Execution(t) && i < |t| && id in t[i].readers && t[i].readers[id].Done?
    ensures var r, s := t[i].readers[id], t[i].shared;
            && Chronicled(s) && r.at <= k < |s.moments| && s.moments[k].gen == r.p <= |s.folds| && s.moments[k].segments == r.segments
            && s.moments[r.at].gen <= r.p && (s.moments[r.at].gen == r.c ==> s.moments[r.at].runs == r.runs)
            && (s.moments[r.at].gen == r.c || (s.moments[r.at].gen + 1 == r.c && r.runs == []))
  {
    hide Execution, Chronicled, Published, InFlight, Current, Floored, Opened, Bounded, DescendingTo, Covered, IdsBelow;
    ExecutionInv(t, i);
    var r, s := t[i].readers[id], t[i].shared;
    k :| r.at <= k < |s.moments| && s.moments[k].gen == r.p && s.moments[k].segments == r.segments;
    AnyMoment(s, k);
    TellsGen(s, s.moments[k]);
  }

  lemma TellsGen(s: Shared, m: Moment)
    requires Tells(s, m)
    ensures m.gen <= |s.folds|
  {
    hide AllStored;
  }

  /**
   * A snapshot whose runs were loaded outside the half-published window tells the commits up to that load, and besides,
   * once more, what the compactions published before its second load folded, unless its own runs hide it.
   */
  lemma SnapshotExcess(t: seq<State>, i: nat, id: nat, q: Neighbors.Query, e: EdgeKey)
    requires Execution(t) && i < |t| && id in t[i].readers && t[i].readers[id].Done?
    requires var r := t[i].readers[id]; Neighbors.Served(Runs(r.runs), r.segments, q) && r.at < |t[i].shared.moments| && t[i].shared.moments[r.at].gen == r.c
    ensures var r, s := t[i].readers[id], t[i].shared;
            && Story(s).Valid() && Tells(s, s.moments[r.at]) && r.c <= r.p <= |s.folds|
            && SnapshotCount(r, q, e) == if !Asked(q, e) then 0
                 else CommitsTell(s, s.moments[r.at], q.dir, e)
                      + if HiddenBy(Runs(r.runs), |r.runs|, e) then 0 else Story(s).FoldedBetween(r.c, r.p, e)
  {
    hide Execution, Chronicled, CommitsTell, Tells, Chronicle.Valid, Shown, HiddenBy, Neighbors.Served, Neighbors.Scan, Chronicle.Stored;
    var k := SegmentsMoment(t, i, id);
    var r, s := t[i].readers[id], t[i].shared;
    AnyMoment(s, r.at);
    PairCount(s, r.at, k, q, e);
    MomentTells(s, s.moments[r.at], q.dir, e);
    LaterSegments(Story(s), r.c, r.p, Runs(r.runs), q.dir, e);
  }

  /**
   * Such a snapshot tells exactly the commits up to the load of its runs if and only if no compaction published
   * between its loads folded an edge that its own runs do not hide.
   */
  lemma SnapshotExactIff(t: seq<State>, i: nat, id: nat)
    requires Execution(t) && i < |t| && id in t[i].readers && t[i].readers[id].Done?
    requires var r := t[i].readers[id]; r.at < |t[i].shared.moments| && t[i].shared.moments[r.at].gen == r.c
    ensures var r, s := t[i].readers[id], t[i].shared;
            && Story(s).Valid() && Tells(s, s.moments[r.at]) && r.c <= r.p <= |s.folds|
            && ((forall q, e :: Neighbors.Served(Runs(r.runs), r.segments, q) ==>
                   SnapshotCount(r, q, e) == if Asked(q, e) then CommitsTell(s, s.moments[r.at], q.dir, e) else 0)
                <==> (forall e :: HiddenBy(Runs(r.runs), |r.runs|, e) || Story(s).FoldedBetween(r.c, r.p, e) == 0))
  {
    hide Execution, Chronicled, CommitsTell, Tells, Chronicle.Valid, HiddenBy, Neighbors.Served, SnapshotCount, Chronicle.FoldedBetween;
    var r, s := t[i].readers[id], t[i].shared;
    var _ := SegmentsMoment(t, i, id);
    AnyMoment(s, r.at);
    forall e: EdgeKey
      ensures var q := Neighbors.Query(Outgoing, e.src, None); Neighbors.Served(Runs(r.runs), r.segments, q) && Asked(q, e)
    {
      OutgoingSafe(t, i, id, e);
    }
    forall q, e | Neighbors.Served(Runs(r.runs), r.segments, q)
      ensures SnapshotCount(r, q, e) == if !Asked(q, e) then 0
                else CommitsTell(s, s.moments[r.at], q.dir, e)
                     + if HiddenBy(Runs(r.runs), |r.runs|, e) then 0 else Story(s).FoldedBetween(r.c, r.p, e)
    {
      SnapshotExcess(t, i, id, q, e);
    }
    if forall q, e :: Neighbors.Served(Runs(r.runs), r.segments, q) ==>
         SnapshotCount(r, q, e) == if Asked(q, e) then CommitsTell(s, s.moments[r.at], q.dir, e) else 0
    {
      forall e ensures HiddenBy(Runs(r.runs), |r.runs|, e) || Story(s).FoldedBetween(r.c, r.p, e) == 0 {
        var q := Neighbors.Query(Outgoing, e.src, None);
        assert SnapshotCount(r, q, e) == CommitsTell(s, s.moments[r.at], q.dir, e);
      }
    }
  }

  /** An outgoing query never panics. */
  lemma OutgoingSafe(t: seq<State>, i: nat, id: nat, e: EdgeKey)
    requires Execution(t) && i < |t| && id in t[i].readers && t[i].readers[id].Done?
    ensures var q := Neighbors.Query(Outgoing, e.src, None); Neighbors.Served(Runs(t[i].readers[id].runs), t[i].readers[id].segments, q) && Asked(q, e)
  {
    hide Execution, Chronicled, Stores, Lookup;
    var q := Neighbors.Query(Outgoing, e.src, None);
    var k := SegmentsMoment(t, i, id);
    var s := t[i].shared;
    AnyMoment(s, k);
    var segs, stored := s.moments[k].segments, Story(s).Stored(s.moments[k].gen);
    forall j | 0 <= j < |segs| ensures Neighbors.SegmentEdges(segs[j], q).Some? {
      StoredLookup(segs[j], stored[j], Outgoing, e.src, None);
    }
  }

  // ---- Both failures happen -------------------------------------------------------------------------

  const Fresh := Shared([], [], 0, [], 0, 0, 0, Idle, [Moment([], [], 0, 0)], [0], [0], [], [], [0], [], [0], true)

  /** One committed transaction, published on a fresh store. */
  function OneCommit(tx: Tx): Shared {
    Fresh.(lastTxid := tx.run.txid, nodeLabels := tx.nodes, runs := [tx],
           moments := [Moment([], [], 0, 0), Moment([tx], [], 0, 1)], commits := [tx], known := IdsBelow(tx.nodes, 0))
  }

  lemma OneCommitReached(tx: Tx) returns (t: seq<State>)
    requires tx.run.txid > 0 && !tx.run.IsEmpty() && tx.run.Mirrored()
    ensures Execution(t) && t[|t| - 1] == State(OneCommit(tx), map[])
  {
    hide Run.IsEmpty, Run.Mirrored;
    var a := Fresh.(writer := Logged(tx), lastTxid := tx.run.txid, known := IdsBelow(tx.nodes, 0));
    var b := a.(nodeLabels := tx.nodes, writer := NodesOut(tx));
    assert LogTx(Fresh, a, tx);
    assert [tx] + b.runs == [tx] && [Moment([], [], 0, 0)] + [Moment([tx], [], 0, 1)] == OneCommit(tx).moments && [] + [tx] == [tx];
    assert PublishRun(b, OneCommit(tx));
    t := [State(Fresh, map[]), State(a, map[]), State(b, map[]), State(OneCommit(tx), map[])];
  }

  lemma Extend(t: seq<State>, s: State)
    requires Execution(t) && Next(t[|t| - 1], s)
    ensures Execution(t + [s])
  {
    hide Next, Init;
    var u := t + [s];
    forall i | 0 <= i < |u| - 1 ensures Next(u[i], u[i + 1]) {
      if i < |t| - 1 { assert Next(t[i], t[i + 1]); }
    }
  }

  /** The remaining loads of reader 0 with no writer step between them. */
  lemma FinishRead(t: seq<State>) returns (u: seq<State>)
    requires Execution(t) && 0 in t[|t| - 1].readers && t[|t| - 1].readers[0].GotRuns?
    requires t[|t| - 1].shared.moments != [] && t[|t| - 1].shared.sunk != []
    ensures Execution(u) && u[|u| - 1].shared == t[|t| - 1].shared
    ensures 0 in u[|u| - 1].readers && u[|u| - 1].readers[0].Done?
    ensures var r, d, s := t[|t| - 1].readers[0], u[|u| - 1].readers[0], t[|t| - 1].shared;
            d.runs == r.runs && d.at == r.at && d.c == r.c && d.segments == s.segments && d.p == s.publishes
  {
    hide Init;
    var s0 := t[|t| - 1];
    var s1 := s0.(readers := s0.readers[0 := Load(s0.shared, s0.readers[0])]);
    assert ReaderStep(s0, s1, 0);
    Extend(t, s1);
    var s2 := s1.(readers := s1.readers[0 := Load(s1.shared, s1.readers[0])]);
    assert ReaderStep(s1, s2, 0);
    Extend(t + [s1], s2);
    var s3 := s2.(readers := s2.readers[0 := Load(s2.shared, s2.readers[0])]);
    assert ReaderStep(s2, s3, 0);
    Extend(t + [s1] + [s2], s3);
    var s4 := s3.(readers := s3.readers[0 := Load(s3.shared, s3.readers[0])]);
    assert ReaderStep(s3, s4, 0);
    Extend(t + [s1] + [s2] + [s3], s4);
    u := t + [s1] + [s2] + [s3] + [s4];
  }

  /** What the only run folds to. */
  ghost predicate FoldsTo(tx: Tx, seg: Segment, folded: multiset<EdgeKey>) {
    tx.run.Mirrored() && Stores(seg, folded) && forall e :: folded[e] == Folded(Runs([tx]), 0, e)
  }

  /** Compaction of the only commit up to the cleared runs. */
  lemma ClearOne(t: seq<State>, tx: Tx, seg: Segment, folded: multiset<EdgeKey>, readers: map<nat, Reader>) returns (u: seq<State>, cleared: Shared)
    requires Execution(t) && t != [] && t[|t| - 1] == State(OneCommit(tx), readers) && FoldsTo(tx, seg, folded)
    ensures cleared == OneCommit(tx).(sunk := [0, 1], runs := [], clears := 1, writer := RunsCleared([seg], folded))
    ensures Execution(u) && u != [] && u[|u| - 1] == State(cleared, readers)
  {
    hide Execution, Stores, Folded, Run.Mirrored;
    var s := OneCommit(tx);
    var stored := s.(sunk := [0, 1], writer := RootsStored);
    assert [0] + [1] == [0, 1] && StoreRoots(s, stored);
    Extend(t, State(stored, readers));
    cleared := stored.(runs := [], clears := 1, writer := RunsCleared([seg], folded));
    assert [seg] + s.segments == [seg];
    assert ClearRuns(stored, cleared, seg, folded);
    Extend(t + [State(stored, readers)], State(cleared, readers));
    u := t + [State(stored, readers)] + [State(cleared, readers)];
  }

  /** A read inside the half-published window misses a transaction published before it began. */
  lemma HalfPublishedRead(tx: Tx, seg: Segment, folded: multiset<EdgeKey>) returns (t: seq<State>)
    requires tx.run.txid > 0 && !tx.run.IsEmpty() && FoldsTo(tx, seg, folded)
    ensures Execution(t) && 0 in t[|t| - 1].readers && t[|t| - 1].readers[0].Done?
    ensures var r, m := t[|t| - 1].readers[0], t[|t| - 1].shared.moments;
            r.runs == [] && r.segments == [] && r.at < |m| && m[r.at].runs == [tx]
  {
    hide Execution, Run.IsEmpty, Run.Mirrored, Stores, Folded;
    t := OneCommitReached(tx);
    NonEmpty(t);
    var cleared;
    t, cleared := ClearOne(t, tx, seg, folded, map[]);
    var s1 := State(cleared, map[0 := Load(cleared, Start)]);
    assert ReaderStep(State(cleared, map[]), s1, 0);
    Extend(t, s1);
    t := FinishRead(t + [s1]);
  }

  /** A read across a whole compaction counts every edge of a clean transaction twice: once in its run, once in the segment. */
  lemma DoubledRead(tx: Tx, seg: Segment, folded: multiset<EdgeKey>) returns (t: seq<State>)
    requires tx.run.txid > 0 && !tx.run.IsEmpty() && FoldsTo(tx, seg, folded) && tx.run.EdgeClean() && tx.run.NodeClean()
    ensures Execution(t) && 0 in t[|t| - 1].readers && t[|t| - 1].readers[0].Done?
    ensures t[|t| - 1].readers[0].runs == [tx] && t[|t| - 1].readers[0].segments == [seg]
    ensures forall e: EdgeKey ::
              var q := Neighbors.Query(Outgoing, e.src, None);
              Neighbors.NoPanic([seg], q) && SnapshotCount(t[|t| - 1].readers[0], q, e) == 2 * tx.run.Count(e)
  {
    hide Execution, Run.IsEmpty, Run.Mirrored, Stores, Folded, SnapshotCount, Run.Count, Run.EdgeClean, Run.NodeClean;
    t := OneCommitReached(tx);
    var s := OneCommit(tx);
    var readers := map[0 := Load(s, Start)];
    assert ReaderStep(State(s, map[]), State(s, readers), 0);
    Extend(t, State(s, readers));
    t := t + [State(s, readers)];
    var cleared;
    t, cleared := ClearOne(t, tx, seg, folded, readers);
    var swapped := cleared.(segments := [seg], publishes := 1, writer := Idle,
                            moments := cleared.moments + [Moment([], [seg], 1, 1)],
                            floors := cleared.floors + [cleared.lastTxid], opens := cleared.opens + [|cleared.moments|],
                            starts := cleared.starts + [1], folds := cleared.folds + [folded]);
    assert PublishSegments(cleared, swapped);
    Extend(t, State(swapped, readers));
    t := FinishRead(t + [State(swapped, readers)]);
    NonEmpty(t);
    var last := t[|t| - 1].readers[0];
    forall e: EdgeKey
      ensures var q := Neighbors.Query(Outgoing, e.src, None);
              Neighbors.NoPanic([seg], q) && SnapshotCount(last, q, e) == 2 * tx.run.Count(e)
    {
      CountedTwice(tx, seg, folded, last, e);
    }
  }

  lemma NonEmpty(t: seq<State>)
    requires Execution(t)
    ensures t != []
  {
    hide Init, Next;
  }

  lemma CountedTwice(tx: Tx, seg: Segment, folded: multiset<EdgeKey>, r: Reader, e: EdgeKey)
    requires FoldsTo(tx, seg, folded) && tx.run.EdgeClean() && tx.run.NodeClean() && r.Done? && r.runs == [tx] && r.segments == [seg]
    ensures var q := Neighbors.Query(Outgoing, e.src, None);
            Neighbors.NoPanic([seg], q) && SnapshotCount(r, q, e) == 2 * tx.run.Count(e)
  {
    hide Stores, Lookup, Neighbors.Scan, Run.Mirrored, Run.Count;
    var q := Neighbors.Query(Outgoing, e.src, None);
    StoredLookup(seg, folded, Outgoing, e.src, None);
    var runs, stored := Runs([tx]), [folded];
    ScanCounts(runs, [seg], stored, q, e);
    OneRunShows(tx.run, runs, stored, folded, e);
  }

  lemma OneRunShows(run: Run, runs: seq<Run>, stored: seq<multiset<EdgeKey>>, folded: multiset<EdgeKey>, e: EdgeKey)
    requires runs == [run] && stored == [folded] && folded[e] == Folded(runs, 0, e) && run.EdgeClean() && run.NodeClean()
    ensures Shown(runs, stored, Outgoing, e) == 2 * run.Count(e)
  {
    hide Run.Count, HiddenBy, RunsShow, Folded, Total;
    OneRunHidden(run, runs, e);
    OneRunCounts(run, runs, e);
    assert Total(stored, e) == folded[e] by { OneStored(folded, e); }
  }

  lemma OneStored(folded: multiset<EdgeKey>, e: EdgeKey)
    ensures Total([folded], e) == folded[e]
  {
    var stored := [folded];
    assert stored[1..] == [] && Total(stored[1..], e) == 0;
  }

  /** A single clean run hides an edge only if it does not hold it. */
  lemma OneRunHidden(run: Run, runs: seq<Run>, e: EdgeKey)
    requires runs == [run] && run.EdgeClean() && run.NodeClean()
    ensures !HiddenBy(runs, 0, e) && (HiddenBy(runs, 1, e) ==> run.Count(e) == 0) && (e.src in run.tombstonedNodes ==> run.Count(e) == 0)
  {
    hide Run.Count;
    assert Neighbors.DeadNodes(runs, 0) == {} && Neighbors.DeadEdges(runs, 0) == {};
    assert Neighbors.DeadNodes(runs, 1) == runs[0].tombstonedNodes && Neighbors.DeadEdges(runs, 1) == runs[0].tombstonedEdges;
  }

  lemma OneRunCounts(run: Run, runs: seq<Run>, e: EdgeKey)
    requires runs == [run] && !HiddenBy(runs, 0, e) && (HiddenBy(runs, 1, e) ==> run.Count(e) == 0)
    requires e.src in run.tombstonedNodes ==> run.Count(e) == 0
    ensures RunsShow(runs, 0, Outgoing, e) == run.Count(e) && Folded(runs, 0, e) == run.Count(e)
  {
    hide Run.Count, HiddenBy;
    assert RunsShow(runs, 1, Outgoing, e) == 0 && Folded(runs, 1, e) == 0;
    assert RunShows(runs, 0, Outgoing, e) == run.Count(e);
  }
}
