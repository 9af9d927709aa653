/** External and internal node ids: the in-memory maps, the paged records behind them, and recovery. */
module IdMaps {
  import opened Bytes
  import opened Wrappers
  import opened Sorting
  import opened WalRecords

  datatype I2eRecord = I2eRecord(externalId: u64, labelId: u32, flags: u32)

  /** The id map's contents. */
  datatype Ids = Ids(e2i: map<u64, u32>, i2l: seq<seq<u32>>, i2e: seq<I2eRecord>)

  const NoIds := Ids(map[], [], [])

  function NextInternalId(len: nat): u32 { if len < U32_MAX then len else U32_MAX }

  predicate LabelLe(a: u32, b: u32) { a <= b }

  /** `apply_create_node`. */
  function Create(ids: Ids, ext: u64, lid: u32, internal: u32): Result<Ids> {
    if internal != NextInternalId(|ids.i2e|) then Err(WalProtocol("non-dense internal id"))
    else if ext in ids.e2i then Err(WalProtocol("duplicate external id"))
    else Ok(Ids(ids.e2i[ext := internal], ids.i2l + [[lid]], ids.i2e + [I2eRecord(ext, lid, 0)]))
  }

  /** `apply_add_label`. */
  function AddLabel(ids: Ids, node: u32, lid: u32): Result<Ids> {
    if node >= |ids.i2l| then Err(WalProtocol("node not found"))
    else if lid in ids.i2l[node] then Ok(ids)
    else Ok(ids.(i2l := ids.i2l[node := Sort(ids.i2l[node] + [lid], LabelLe)]))
  }

  /** `apply_remove_label`. */
  function RemoveLabel(ids: Ids, node: u32, lid: u32): Result<Ids> {
    if node >= |ids.i2l| then Err(WalProtocol("node not found"))
    else Ok(ids.(i2l := ids.i2l[node := Without(ids.i2l[node], lid)]))
  }

  function Without(labels: seq<u32>, lid: u32): seq<u32> {
    if labels == [] then []
    else (if labels[0] == lid then [] else [labels[0]]) + Without(labels[1..], lid)
  }

  /** One record of the log, as replay applies it. */
  function ReplayOp(ids: Ids, op: WalRecord): Result<Ids> {
    match op
    case CreateNode(ext, lid, internal) =>
      if ext in ids.e2i then
        if ids.e2i[ext] != internal then Err(WalProtocol("external id remapped")) else Ok(ids)
      else Create(ids, ext, lid, internal)
    case AddNodeLabel(node, lid) => AddLabel(ids, node, lid)
    case RemoveNodeLabel(node, lid) => RemoveLabel(ids, node, lid)
    case _ => Ok(ids)
  }

  function ReplayOps(ids: Ids, ops: seq<WalRecord>): Result<Ids>
    decreases |ops|
  {
    if ops == [] then Ok(ids)
    else
      var next :- ReplayOp(ids, ops[0]);
      ReplayOps(next, ops[1..])
  }

  /** `load`: the maps rebuilt from the stored records; external id 0 is not indexed. */
  function Indexed(records: seq<I2eRecord>): map<u64, u32>
    requires |records| <= U32_MAX
  {
    if records == [] then map[]
    else
      var n := |records| - 1;
      var m := Indexed(records[..n]);
      if records[n].externalId != 0 then m[records[n].externalId := n] else m
  }

  function FirstLabels(records: seq<I2eRecord>): (i2l: seq<seq<u32>>)
    ensures |i2l| == |records| && forall i :: 0 <= i < |records| ==> i2l[i] == [records[i].labelId]
  {
    seq(|records|, i requires 0 <= i < |records| => [records[i].labelId])
  }

  function Loaded(records: seq<I2eRecord>): Ids
    requires |records| <= U32_MAX
  {
    Ids(Indexed(records), FirstLabels(records), records)
  }

  // ---- Replay over a map that is already ahead -----------------------------------------------

  /** Records only ever grow; what a successful replay adds has fresh external ids. */
  ghost predicate Appended(ids: Ids, final: Ids) {
    && |ids.i2l| == |ids.i2e| && |final.i2l| == |final.i2e| <= U32_MAX && ids.i2e <= final.i2e
    && (forall i :: |ids.i2e| <= i < |final.i2e| ==> final.i2e[i].externalId !in ids.e2i)
    && (forall i, j :: |ids.i2e| <= i < j < |final.i2e| ==> final.i2e[i].externalId != final.i2e[j].externalId)
  }

  lemma {:induction false} ReplayAppends(ids: Ids, ops: seq<WalRecord>)
    requires |ids.i2l| == |ids.i2e| && ReplayOps(ids, ops).Ok? && |ReplayOps(ids, ops).value.i2e| <= U32_MAX
    ensures Appended(ids, ReplayOps(ids, ops).value)
    decreases |ops|
  {
    if ops != [] {
      var next, final := ReplayOp(ids, ops[0]).value, ReplayOps(ids, ops).value;
      StepGrows(ids, ops[0]);
      ReplayAppends(next, ops[1..]);
      if |next.i2e| > |ids.i2e| {
        assert final.i2e[|ids.i2e|] == next.i2e[|ids.i2e|];
      }
    }
  }

  ghost predicate CreatesNext(ids: Ids, op: WalRecord, next: Ids) {
    && op.CreateNode? && op.externalId !in ids.e2i && |next.i2e| == |ids.i2e| + 1
    && next.i2e[|ids.i2e|].externalId == op.externalId && next.e2i == ids.e2i[op.externalId := op.internalId]
  }

  lemma StepGrows(ids: Ids, op: WalRecord)
    requires |ids.i2l| == |ids.i2e| && ReplayOp(ids, op).Ok?
    ensures var next := ReplayOp(ids, op).value;
            && |next.i2l| == |next.i2e| && ids.i2e <= next.i2e
            && (next.i2e == ids.i2e ==> next.e2i == ids.e2i)
            && (next.i2e != ids.i2e ==> CreatesNext(ids, op, next))
  {
    hide Sort, Without;
  }

  /** The records from `lo` to `hi` indexed on top of `m`, as `load` does it. */
  function Extended(m: map<u64, u32>, r: seq<I2eRecord>, lo: nat, hi: nat): map<u64, u32>
    requires hi <= |r| <= U32_MAX
  {
    if hi <= lo then m
    else
      var e := Extended(m, r, lo, hi - 1);
      if r[hi - 1].externalId != 0 then e[r[hi - 1].externalId := hi - 1] else e
  }

  lemma {:induction false} IndexedExtended(r: seq<I2eRecord>, lo: nat, hi: nat)
    requires lo <= hi <= |r| <= U32_MAX
    ensures Indexed(r[..hi]) == Extended(Indexed(r[..lo]), r, lo, hi)
    decreases hi
  {
    if lo < hi {
      IndexedExtended(r, lo, hi - 1);
      assert r[..hi][..hi - 1] == r[..hi - 1];
    }
  }

  lemma {:induction false} ExtendedShift(m: map<u64, u32>, r: seq<I2eRecord>, lo: nat, hi: nat)
    requires lo < hi <= |r| <= U32_MAX && r[lo].externalId != 0
    ensures Extended(m, r, lo, hi) == Extended(m[r[lo].externalId := lo], r, lo + 1, hi)
    decreases hi
  {
    if lo + 1 < hi { ExtendedShift(m, r, lo, hi - 1); }
  }

  lemma {:induction false} ExtendedAt(m: map<u64, u32>, r: seq<I2eRecord>, lo: nat, hi: nat, x: u64)
    requires hi <= |r| <= U32_MAX
    requires forall i :: lo <= i < hi ==> r[i].externalId != x || x == 0
    ensures (x in Extended(m, r, lo, hi) <==> x in m) && (x in m ==> Extended(m, r, lo, hi)[x] == m[x])
    decreases hi
  {
    if lo < hi { ExtendedAt(m, r, lo, hi - 1, x); }
  }

  /** `a` runs from the beginning; `c` started with the first `k` records of the outcome `r` on disk. */
  ghost predicate Ahead(a: Ids, c: Ids, r: seq<I2eRecord>, k: nat) {
    && k <= |r| <= U32_MAX && a.i2e <= r && |a.i2l| == |a.i2e| && |c.i2l| == |c.i2e|
    && c.i2e == r[..Max(k, |a.i2e|)] && c.e2i == Extended(a.e2i, r, |a.i2e|, k)
    && (forall n :: 0 <= n < |a.i2l| ==> c.i2l[n] == a.i2l[n])
    && (forall n :: |a.i2l| <= n < |c.i2l| ==> c.i2l[n] == [r[n].labelId])
  }

  ghost predicate ZeroBetween(r: seq<I2eRecord>, lo: nat, hi: nat) {
    exists z :: lo <= z < hi <= |r| && r[z].externalId == 0
  }

  const NonDense: Error := WalProtocol("non-dense internal id")

  /** A creation whose record is on disk already: skipped, unless its external id is 0. */
  lemma CreateOnDisk(a: Ids, c: Ids, op: WalRecord, final: Ids, k: nat)
    requires Ahead(a, c, final.i2e, k) && Appended(a, final) && op.CreateNode? && op.externalId !in a.e2i
    requires ReplayOp(a, op).Ok? && ReplayOp(a, op).value.i2e <= final.i2e && |a.i2e| < k
    ensures op.externalId != 0 ==> ReplayOp(c, op) == Ok(c) && Ahead(ReplayOp(a, op).value, c, final.i2e, k)
    ensures op.externalId == 0 ==> ReplayOp(c, op) == Err(NonDense) && ZeroBetween(final.i2e, |a.i2e|, k)
  {
    var r, m := final.i2e, |a.i2e|;
    var next := ReplayOp(a, op).value;
    assert r[m] == next.i2e[m];
    if op.externalId != 0 {
      ExtendedShift(a.e2i, r, m, k);
      ExtendedAt(a.e2i[op.externalId := m], r, m + 1, k, op.externalId);
    } else {
      ExtendedAt(a.e2i, r, m, k, 0);
    }
  }

  /** Any other record is replayed alike on both. */
  lemma OtherAlike(a: Ids, c: Ids, op: WalRecord, final: Ids, k: nat)
    requires Ahead(a, c, final.i2e, k) && Appended(a, final)
    requires ReplayOp(a, op).Ok? && ReplayOp(a, op).value.i2e <= final.i2e
    requires op.CreateNode? && op.externalId !in a.e2i ==> |a.i2e| >= k
    ensures ReplayOp(c, op).Ok? && Ahead(ReplayOp(a, op).value, ReplayOp(c, op).value, final.i2e, k)
  {
    hide Sort, Without, Extended;
    if op.CreateNode? && op.externalId in a.e2i {
      ExtendedAt(a.e2i, final.i2e, |a.i2e|, k, op.externalId);
    } else if op.CreateNode? {
      assert Extended(a.e2i, final.i2e, |a.i2e|, k) == a.e2i by { ExtendedNone(a.e2i, final.i2e, |a.i2e|, k); }
      assert c.i2e == a.i2e;
      ExtendedNone(ReplayOp(a, op).value.e2i, final.i2e, |a.i2e| + 1, k);
    }
  }

  lemma ExtendedNone(m: map<u64, u32>, r: seq<I2eRecord>, lo: nat, hi: nat)
    requires hi <= |r| <= U32_MAX && hi <= lo
    ensures Extended(m, r, lo, hi) == m
  {
  }

  lemma {:induction false} ReplayAhead(a: Ids, c: Ids, ops: seq<WalRecord>, final: Ids, k: nat)
    requires ReplayOps(a, ops) == Ok(final) && Ahead(a, c, final.i2e, k) && |final.i2e| <= U32_MAX
    ensures ReplayOps(c, ops) == if ZeroBetween(final.i2e, |a.i2e|, k) then Err(NonDense) else Ok(final)
    decreases |ops|
  {
    hide Ahead, ReplayOp, Appended, ZeroBetween;
    if ops == [] {
      AheadDone(a, c, k);
    } else {
      AheadLengths(a, c, final.i2e, k);
      ReplayAppends(a, ops);
      var next := ReplayOp(a, ops[0]).value;
      StepGrows(a, ops[0]);
      ReplayAppends(next, ops[1..]);
      AppendedPrefix(next, final);
      if ops[0].CreateNode? && ops[0].externalId !in a.e2i && |a.i2e| < k {
        CreateOnDisk(a, c, ops[0], final, k);
        CreatedNow(a, ops[0], final);
        if ops[0].externalId != 0 {
          ReplayAhead(next, c, ops[1..], final, k);
          NoZeroHere(final.i2e, |a.i2e|, k);
        }
      } else {
        OtherAlike(a, c, ops[0], final, k);
        ReplayAhead(next, ReplayOp(c, ops[0]).value, ops[1..], final, k);
        ZeroPast(a, ops[0], final, k);
      }
    }
  }

  lemma AheadDone(a: Ids, c: Ids, k: nat)
    requires Ahead(a, c, a.i2e, k)
    ensures c == a && !ZeroBetween(a.i2e, |a.i2e|, k)
  {
  }

  lemma AheadLengths(a: Ids, c: Ids, r: seq<I2eRecord>, k: nat)
    requires Ahead(a, c, r, k)
    ensures |a.i2l| == |a.i2e| && k <= |r|
  {
  }

  lemma AppendedPrefix(ids: Ids, final: Ids)
    requires Appended(ids, final)
    ensures ids.i2e <= final.i2e
  {
  }

  lemma CreatedNow(a: Ids, op: WalRecord, final: Ids)
    requires op.CreateNode? && op.externalId !in a.e2i && ReplayOp(a, op).Ok? && ReplayOp(a, op).value.i2e <= final.i2e
    ensures |ReplayOp(a, op).value.i2e| == |a.i2e| + 1 && |a.i2e| < |final.i2e|
    ensures final.i2e[|a.i2e|].externalId == op.externalId
  {
    assert final.i2e[|a.i2e|] == ReplayOp(a, op).value.i2e[|a.i2e|];
  }

  lemma NoZeroHere(r: seq<I2eRecord>, lo: nat, hi: nat)
    requires lo < |r| && r[lo].externalId != 0
    ensures ZeroBetween(r, lo, hi) <==> ZeroBetween(r, lo + 1, hi)
  {
  }

  lemma ZeroPast(a: Ids, op: WalRecord, final: Ids, k: nat)
    requires ReplayOp(a, op).Ok? && ReplayOp(a, op).value.i2e <= final.i2e && |a.i2l| == |a.i2e|
    requires op.CreateNode? && op.externalId !in a.e2i ==> |a.i2e| >= k
    ensures ZeroBetween(final.i2e, |ReplayOp(a, op).value.i2e|, k) <==> ZeroBetween(final.i2e, |a.i2e|, k)
  {
    StepGrows(a, op);
  }

  /**
   * Recovery is idempotent: let the log turn the stored records `old` into `final`. Replaying it over
   * any longer prefix of `final` that already reached the disk ends in `final` as well, exactly when
   * no record between has external id 0; otherwise the store no longer opens.
   */
  lemma RecoveryIdempotent(onDisk: seq<I2eRecord>, ops: seq<WalRecord>, k: nat)
    requires |onDisk| <= U32_MAX && ReplayOps(Loaded(onDisk), ops).Ok?
    requires |onDisk| <= k <= |ReplayOps(Loaded(onDisk), ops).value.i2e| <= U32_MAX
    ensures var final := ReplayOps(Loaded(onDisk), ops).value;
            ReplayOps(Loaded(final.i2e[..k]), ops)
            == if ZeroBetween(final.i2e, |onDisk|, k) then Err(NonDense) else Ok(final)
  {
    hide ReplayOp, ReplayOps, ZeroBetween;
    var a, final := Loaded(onDisk), ReplayOps(Loaded(onDisk), ops).value;
    ReplayAppends(a, ops);
    assert final.i2e[..|onDisk|] == onDisk;
    IndexedExtended(final.i2e, |onDisk|, k);
    ReplayAhead(a, Loaded(final.i2e[..k]), ops, final, k);
  }

  // ---- The labels of one node ---------------------------------------------------------------

  /** Sorted and without duplicates. */
  ghost predicate Ascending(labels: seq<u32>) { forall i, j :: 0 <= i < j < |labels| ==> labels[i] < labels[j] }

  lemma LabelOrder()
    ensures TotalOrder(LabelLe)
  {
  }

  /** Adding a label keeps the list sorted and duplicate-free and adds exactly that label. */
  lemma AddedLabels(labels: seq<u32>, lid: u32)
    requires Ascending(labels) && lid !in labels
    ensures var r := Sort(labels + [lid], LabelLe);
            Ascending(r) && forall l :: l in r <==> l in labels || l == lid
  {
    var all := labels + [lid];
    var r := Sort(all, LabelLe);
    LabelOrder();
    SortSorted(all, LabelLe);
    forall l ensures l in r <==> l in labels || l == lid { SameMembers(r, all, l); }
    forall i, j | 0 <= i < j < |r| ensures r[i] < r[j] {
      OnceEach(labels, lid, r[i]);
      if r[i] == r[j] { TwiceThere(r, i, j); }
    }
  }

  lemma SameMembers(a: seq<u32>, b: seq<u32>, l: u32)
    requires multiset(a) == multiset(b)
    ensures l in a <==> l in b
  {
    assert l in a <==> l in multiset(a);
  }

  lemma {:induction false} OnceEach(labels: seq<u32>, lid: u32, l: u32)
    requires Ascending(labels) && lid !in labels
    ensures multiset(labels + [lid])[l] <= 1
  {
    AscendingCount(labels, l);
    assert multiset(labels + [lid]) == multiset(labels) + multiset{lid};
    assert l == lid ==> multiset(labels)[l] == 0;
  }

  lemma {:induction false} AscendingCount(labels: seq<u32>, l: u32)
    requires Ascending(labels)
    ensures multiset(labels)[l] <= 1
  {
    if labels != [] {
      AscendingCount(labels[1..], l);
      assert labels == [labels[0]] + labels[1..];
      if l == labels[0] {
        assert l !in labels[1..];
        assert multiset(labels[1..])[l] == 0;
      }
    }
  }

  lemma TwiceThere(s: seq<u32>, i: nat, j: nat)
    requires i < j < |s| && s[i] == s[j]
    ensures multiset(s)[s[i]] >= 2
  {
    var front, back := s[..j], s[j..];
    assert s == front + back && s[i] in front && s[i] in back;
    assert multiset(s) == multiset(front) + multiset(back);
  }

  /** Removing a label removes exactly that label. */
  lemma {:induction false} RemovedLabels(labels: seq<u32>, lid: u32)
    requires Ascending(labels)
    ensures var r := Without(labels, lid);
            Ascending(r) && forall l :: l in r <==> l in labels && l != lid
  {
    if labels != [] {
      RemovedLabels(labels[1..], lid);
      var head, tail := labels[0], Without(labels[1..], lid);
      assert labels == [head] + labels[1..];
      forall l | l in tail ensures head < l { assert l in labels[1..]; }
      AscendingCons(head, tail);
    }
  }

  lemma AscendingCons(head: u32, tail: seq<u32>)
    requires Ascending(tail) && forall l :: l in tail ==> head < l
    ensures Ascending([head] + tail)
  {
    var all := [head] + tail;
    forall i, j | 0 <= i < j < |all| ensures all[i] < all[j] { assert all[j] == tail[j - 1] && all[j] in tail; }
  }

  lemma {:induction false} AscendingUnique(a: seq<u32>, b: seq<u32>)
    requires Ascending(a) && Ascending(b) && forall l :: l in a <==> l in b
    ensures a == b
  {
    if a == [] {
      assert forall i :: 0 <= i < |b| ==> b[i] in a;
    } else {
      assert a[0] in b && b != [] && b[0] in a;
      assert a[0] == b[0];
      assert a == [a[0]] + a[1..] && b == [b[0]] + b[1..];
      forall l ensures l in a[1..] <==> l in b[1..] {
        assert l in a <==> l == a[0] || l in a[1..];
        assert l in b <==> l == b[0] || l in b[1..];
      }
      AscendingUnique(a[1..], b[1..]);
    }
  }

  predicate LabelChange(op: WalRecord) { op.AddNodeLabel? || op.RemoveNodeLabel? }

  /** One record's effect on the labels of node `n`. */
  function Changed(labels: seq<u32>, op: WalRecord, n: nat): seq<u32> {
    match op
    case AddNodeLabel(node, lid) => if node != n || lid in labels then labels else Sort(labels + [lid], LabelLe)
    case RemoveNodeLabel(node, lid) => if node != n then labels else Without(labels, lid)
    case _ => labels
  }

  /** The labels of node `n` after all the records. */
  function Relabel(labels: seq<u32>, ops: seq<WalRecord>, n: nat): seq<u32>
    decreases |ops|
  {
    if ops == [] then labels else Relabel(Changed(labels, ops[0], n), ops[1..], n)
  }

  /** What the last change of label `l` on node `n` says. */
  function Settled(ops: seq<WalRecord>, n: nat, l: u32): Option<bool>
    decreases |ops|
  {
    if ops == [] then None
    else
      var later := Settled(ops[1..], n, l);
      if later.Some? then later
      else
        match ops[0]
        case AddNodeLabel(node, lid) => if node == n && lid == l then Some(true) else None
        case RemoveNodeLabel(node, lid) => if node == n && lid == l then Some(false) else None
        case _ => None
  }

  /** The last change of a label decides whether the node has it; without one it is as it was. */
  lemma {:induction false} RelabelMembers(labels: seq<u32>, ops: seq<WalRecord>, n: nat, l: u32)
    requires Ascending(labels)
    ensures Ascending(Relabel(labels, ops, n))
    ensures l in Relabel(labels, ops, n) <==>
              (var s := Settled(ops, n, l); if s.Some? then s.value else l in labels)
    decreases |ops|
  {
    hide Changed, Ascending;
    if ops != [] {
      ChangedMember(labels, ops[0], n, l);
      RelabelMembers(Changed(labels, ops[0], n), ops[1..], n, l);
    }
  }

  lemma ChangedMember(labels: seq<u32>, op: WalRecord, n: nat, l: u32)
    requires Ascending(labels)
    ensures Ascending(Changed(labels, op, n))
    ensures l in Changed(labels, op, n) <==>
              match op
              case AddNodeLabel(node, lid) => l in labels || (node == n && lid == l)
              case RemoveNodeLabel(node, lid) => l in labels && !(node == n && lid == l)
              case _ => l in labels
  {
    hide Sort, Without, Ascending;
    match op
    case AddNodeLabel(node, lid) => if node == n && lid !in labels { AddedLabels(labels, lid); }
    case RemoveNodeLabel(node, lid) => if node == n { RemovedLabels(labels, lid); }
    case _ =>
  }

  lemma {:induction false} RelabelConcat(labels: seq<u32>, a: seq<WalRecord>, b: seq<WalRecord>, n: nat)
    ensures Relabel(labels, a + b, n) == Relabel(Relabel(labels, a, n), b, n)
    decreases |a|
  {
    hide Changed;
    if a == [] {
      assert a + b == b;
    } else {
      assert (a + b)[1..] == a[1..] + b;
      RelabelConcat(Changed(labels, a[0], n), a[1..], b, n);
    }
  }

  /** The covered changes net to the first label, but for labels a later change settles anyway. */
  ghost predicate NetsToFirst(first: u32, covered: seq<WalRecord>, past: seq<WalRecord>, n: nat) {
    forall l: u32 :: Settled(past, n, l).None? ==> (l in Relabel([first], covered, n) <==> l == first)
  }

  /** Starting over from the first label gives the same labels exactly when the covered changes net to it. */
  lemma CoveredLabelsIff(first: u32, covered: seq<WalRecord>, past: seq<WalRecord>, n: nat)
    ensures Relabel([first], past, n) == Relabel([first], covered + past, n) <==> NetsToFirst(first, covered, past, n)
  {
    hide Relabel, Settled;
    var start := Relabel([first], covered, n);
    RelabelConcat([first], covered, past, n);
    RelabelMembers([first], covered, n, 0);
    var a, b := Relabel([first], past, n), Relabel(start, past, n);
    forall l: u32
      ensures Ascending(a) && Ascending(b)
      ensures (l in a <==> l in b) <==> (Settled(past, n, l).None? ==> (l in start <==> l == first))
    {
      RelabelMembers([first], past, n, l);
      RelabelMembers(start, past, n, l);
    }
    if NetsToFirst(first, covered, past, n) {
      assert forall l: u32 :: l in a <==> l in b;
      AscendingUnique(a, b);
    }
  }

  // ---- Exactly when replay succeeds, and what it gives ----------------------------------------

  /** The creations among the operations make exactly the records `b` to `m` of `r`, in order. */
  ghost predicate Makes(ops: seq<WalRecord>, r: seq<I2eRecord>, b: nat, m: nat)
    decreases |ops|
  {
    if ops == [] then b == m <= |r|
    else if ops[0].CreateNode? then
      && b < |r| && ops[0].internalId == b && r[b] == I2eRecord(ops[0].externalId, ops[0].labelId, 0)
      && Makes(ops[1..], r, b + 1, m)
    else Makes(ops[1..], r, b, m)
  }

  /** Every label change names one of the first `d` nodes or, counting from `b`, one created before it. */
  ghost predicate NamesNodes(ops: seq<WalRecord>, b: nat, d: nat)
    decreases |ops|
  {
    if ops == [] then true
    else if ops[0].CreateNode? then NamesNodes(ops[1..], b + 1, d)
    else (LabelChange(ops[0]) ==> ops[0].node < Max(b, d)) && NamesNodes(ops[1..], b, d)
  }

  /** External ids repeat for id 0 only. */
  ghost predicate Unique(r: seq<I2eRecord>) {
    forall i, j :: 0 <= i < j < |r| && r[i].externalId == r[j].externalId ==> r[i].externalId == 0
  }

  ghost predicate OneZero(r: seq<I2eRecord>, b: nat, m: nat) {
    forall i, j :: b <= i < j < m <= |r| && r[i].externalId == 0 ==> r[j].externalId != 0
  }

  /** The index finds every record, those with external id 0 excepted, and nothing else. */
  ghost predicate Finds(ids: Ids) {
    && |ids.i2l| == |ids.i2e| <= U32_MAX
    && (forall j :: 0 <= j < |ids.i2e| && ids.i2e[j].externalId != 0 ==>
          ids.i2e[j].externalId in ids.e2i && ids.e2i[ids.i2e[j].externalId] == j)
    && (forall x :: x in ids.e2i ==> ids.e2i[x] < |ids.i2e| && ids.i2e[ids.e2i[x]].externalId == x)
  }

  /** Replay has come to record `b` of `r`, over a map that held the first `d` of them. */
  ghost predicate Stage(c: Ids, r: seq<I2eRecord>, b: nat, m: nat, d: nat) {
    && b <= m <= |r| <= U32_MAX && d <= |r| && Unique(r) && OneZero(r, b, m)
    && Finds(c) && c.i2e == r[..Max(b, d)]
    && (0 in c.e2i ==> !ZeroBetween(r, b, m))
  }

  lemma StageStored(c: Ids, op: WalRecord, r: seq<I2eRecord>, b: nat, m: nat, d: nat)
    requires Stage(c, r, b, m, d) && b < m && b < d && op == CreateNode(r[b].externalId, r[b].labelId, b)
    ensures r[b].externalId != 0 ==> ReplayOp(c, op) == Ok(c) && Stage(c, r, b + 1, m, d)
    ensures r[b].externalId == 0 ==> ReplayOp(c, op).Err? && ZeroBetween(r, b, Min(d, m))
  {
    if r[b].externalId != 0 {
      assert c.i2e[b] == r[b];
    } else {
      assert ZeroBetween(r, b, m);
    }
  }

  lemma StageNew(c: Ids, op: WalRecord, r: seq<I2eRecord>, b: nat, m: nat, d: nat)
    requires Stage(c, r, b, m, d) && b < m && d <= b && op == CreateNode(r[b].externalId, r[b].labelId, b) && r[b].flags == 0
    ensures ReplayOp(c, op) == Ok(Ids(c.e2i[r[b].externalId := b], c.i2l + [[r[b].labelId]], c.i2e + [r[b]]))
    ensures Stage(ReplayOp(c, op).value, r, b + 1, m, d)
  {
    NewIsUnknown(c, r, b, m, d);
    var next := ReplayOp(c, op).value;
    assert next.i2e == r[..b + 1];
    FindsSnoc(c, r[b], b);
    assert ZeroBetween(r, b + 1, m) ==> ZeroBetween(r, b, m) && r[b].externalId != 0;
  }

  lemma NewIsUnknown(c: Ids, r: seq<I2eRecord>, b: nat, m: nat, d: nat)
    requires Stage(c, r, b, m, d) && b < m && d <= b
    ensures r[b].externalId !in c.e2i && |c.i2e| == b
  {
    forall x | x in c.e2i && x != 0 ensures x != r[b].externalId { assert r[c.e2i[x]] == c.i2e[c.e2i[x]]; }
    assert r[b].externalId == 0 ==> ZeroBetween(r, b, m);
  }

  lemma FindsSnoc(c: Ids, rec: I2eRecord, b: u32)
    requires Finds(c) && rec.externalId !in c.e2i && b == |c.i2e| < U32_MAX
    ensures Finds(Ids(c.e2i[rec.externalId := b], c.i2l + [[rec.labelId]], c.i2e + [rec]))
  {
  }

  lemma StageLabel(c: Ids, op: WalRecord, r: seq<I2eRecord>, b: nat, m: nat, d: nat)
    requires Stage(c, r, b, m, d) && !op.CreateNode?
    ensures ReplayOp(c, op).Ok? <==> (LabelChange(op) ==> op.node < Max(b, d))
    ensures ReplayOp(c, op).Ok? ==>
              var next := ReplayOp(c, op).value;
              && Stage(next, r, b, m, d) && next.i2e == c.i2e && next.e2i == c.e2i
              && forall n :: 0 <= n < |c.i2l| ==> next.i2l[n] == Changed(c.i2l[n], op, n)
  {
    hide Sort, Without;
  }

  /** Where the labels of node `n` start: in memory already, or with its record. */
  function StartLabels(c: Ids, r: seq<I2eRecord>, n: nat): seq<u32>
    requires n < |r|
  {
    if n < |c.i2l| then c.i2l[n] else [r[n].labelId]
  }

  /** What replay from this stage gives. */
  ghost predicate Given(c: Ids, ops: seq<WalRecord>, r: seq<I2eRecord>, b: nat, m: nat, d: nat, end: Ids)
    requires b <= m <= |r| && d <= |r|
  {
    && Finds(end) && end.i2e == r[..Max(m, d)]
    && (0 in end.e2i <==> 0 in c.e2i || ZeroBetween(r, Max(b, d), m))
    && forall n :: 0 <= n < |end.i2l| ==> end.i2l[n] == Relabel(StartLabels(c, r, n), ops, n)
  }

  /** Replay succeeds exactly when it meets no stored record with external id 0 and no change of an unknown node. */
  lemma {:induction false} ReplayIff(c: Ids, ops: seq<WalRecord>, r: seq<I2eRecord>, b: nat, m: nat, d: nat)
    requires Stage(c, r, b, m, d) && Makes(ops, r, b, m)
    ensures var end := ReplayOps(c, ops);
            && (end.Ok? <==> !ZeroBetween(r, b, Min(d, m)) && NamesNodes(ops, b, d))
            && (end.Ok? ==> Given(c, ops, r, b, m, d, end.value))
    decreases |ops|
  {
    hide Stage, ReplayOp, ZeroBetween, Given, Relabel;
    StageLengths(c, r, b, m, d);
    if ops == [] {
      StageDone(c, r, b, m, d);
    } else if ops[0].CreateNode? {
      MakesRange(ops[1..], r, b + 1, m);
      if b < d {
        StageStored(c, ops[0], r, b, m, d);
        if r[b].externalId != 0 {
          ReplayIff(c, ops[1..], r, b + 1, m, d);
          NoZeroAt(r, b, Min(d, m));
          GivenStored(c, ops, r, b, m, d);
        }
      } else {
        StageNew(c, ops[0], r, b, m, d);
        var next := ReplayOp(c, ops[0]).value;
        ReplayIff(next, ops[1..], r, b + 1, m, d);
        NoZeroPast(r, b, m, d);
        GivenNew(c, ops, next, r, b, m, d);
      }
    } else {
      StageLabel(c, ops[0], r, b, m, d);
      if ReplayOp(c, ops[0]).Ok? {
        var next := ReplayOp(c, ops[0]).value;
        StageLengths(next, r, b, m, d);
        ReplayIff(next, ops[1..], r, b, m, d);
        GivenLabel(c, ops, next, r, b, m, d);
      }
    }
  }

  lemma {:induction false} MakesRange(ops: seq<WalRecord>, r: seq<I2eRecord>, b: nat, m: nat)
    requires Makes(ops, r, b, m)
    ensures b <= m <= |r|
    decreases |ops|
  {
    if ops != [] { MakesRange(ops[1..], r, if ops[0].CreateNode? then b + 1 else b, m); }
  }

  lemma StageLengths(c: Ids, r: seq<I2eRecord>, b: nat, m: nat, d: nat)
    requires Stage(c, r, b, m, d)
    ensures b <= m <= |r| <= U32_MAX && d <= |r| && |c.i2l| == |c.i2e| == Max(b, d)
  {
  }

  lemma StageDone(c: Ids, r: seq<I2eRecord>, b: nat, m: nat, d: nat)
    requires Stage(c, r, b, m, d) && b == m
    ensures !ZeroBetween(r, b, Min(d, m)) && Given(c, [], r, b, m, d, c)
  {
  }

  lemma NoZeroAt(r: seq<I2eRecord>, lo: nat, hi: nat)
    requires lo < |r| && r[lo].externalId != 0
    ensures ZeroBetween(r, lo, hi) <==> ZeroBetween(r, lo + 1, hi)
  {
  }

  lemma NoZeroPast(r: seq<I2eRecord>, b: nat, m: nat, d: nat)
    requires d <= b
    ensures !ZeroBetween(r, b, Min(d, m)) && !ZeroBetween(r, b + 1, Min(d, m))
  {
  }

  lemma GivenStored(c: Ids, ops: seq<WalRecord>, r: seq<I2eRecord>, b: nat, m: nat, d: nat)
    requires ops != [] && ops[0].CreateNode? && b < m <= |r| && b < d <= |r|
    ensures forall end :: Given(c, ops[1..], r, b + 1, m, d, end) ==> Given(c, ops, r, b, m, d, end)
  {
    hide Finds, ZeroBetween;
  }

  lemma GivenNew(c: Ids, ops: seq<WalRecord>, next: Ids, r: seq<I2eRecord>, b: nat, m: nat, d: nat)
    requires ops != [] && ops[0].CreateNode? && d <= b < m <= |r| && |c.i2l| == b && b <= U32_MAX
    requires next.e2i == c.e2i[r[b].externalId := b] && next.i2l == c.i2l + [[r[b].labelId]]
    ensures forall end :: Given(next, ops[1..], r, b + 1, m, d, end) ==> Given(c, ops, r, b, m, d, end)
  {
    hide Finds;
    assert ZeroBetween(r, b, m) <==> r[b].externalId == 0 || ZeroBetween(r, b + 1, m);
    forall n | 0 <= n < |r| ensures StartLabels(next, r, n) == StartLabels(c, r, n) { }
  }

  lemma GivenLabel(c: Ids, ops: seq<WalRecord>, next: Ids, r: seq<I2eRecord>, b: nat, m: nat, d: nat)
    requires ops != [] && !ops[0].CreateNode? && b <= m <= |r| && d <= |r| && |next.i2l| == |c.i2l| == Max(b, d)
    requires next.e2i == c.e2i && (LabelChange(ops[0]) ==> ops[0].node < Max(b, d))
    requires forall n :: 0 <= n < |c.i2l| ==> next.i2l[n] == Changed(c.i2l[n], ops[0], n)
    ensures forall end :: Given(next, ops[1..], r, b, m, d, end) ==> Given(c, ops, r, b, m, d, end)
  {
    hide Finds, ZeroBetween, Sort, Without;
    forall n | 0 <= n < |r| ensures StartLabels(next, r, n) == Changed(StartLabels(c, r, n), ops[0], n) { }
  }

  lemma {:induction false} IndexedFinds(r: seq<I2eRecord>)
    requires Unique(r) && |r| <= U32_MAX
    ensures Finds(Loaded(r)) && 0 !in Loaded(r).e2i
  {
    if r != [] {
      var n := |r| - 1;
      IndexedFinds(r[..n]);
      var c := Loaded(r[..n]);
      forall x | x in c.e2i ensures x != r[n].externalId || x == 0 { assert r[c.e2i[x]] == c.i2e[c.e2i[x]]; }
      assert Loaded(r).i2e == c.i2e + [r[n]];
      if r[n].externalId != 0 { FindsSnoc(c, r[n], n); }
    }
  }

  lemma LoadedStage(r: seq<I2eRecord>, b: nat, m: nat, d: nat)
    requires Unique(r) && |r| <= U32_MAX && b <= d <= |r| && b <= m <= |r| && OneZero(r, b, m)
    ensures Stage(Loaded(r[..d]), r, b, m, d)
  {
    hide Indexed;
    assert Unique(r[..d]);
    IndexedFinds(r[..d]);
  }

  /**
   * Recovery of the id map, exactly. Let `past` be the operations past the checkpoint, whose creations made the
   * records `b` to `m`, and let the first `d` records be on disk, those before the checkpoint at least.
   * Replay succeeds exactly when no stored record it meets again has external id 0 and every label change names
   * a node that is stored or was created before it. It then gives all records on disk or created, found by their
   * external ids, and each node's labels as the changes in `past` leave them.
   */
  lemma RecoveredIds(r: seq<I2eRecord>, past: seq<WalRecord>, b: nat, m: nat, d: nat)
    requires Unique(r) && |r| <= U32_MAX && b <= d <= |r| && Makes(past, r, b, m) && OneZero(r, b, m)
    ensures b <= m <= |r|
    ensures var end := ReplayOps(Loaded(r[..d]), past);
            && (end.Ok? <==> !ZeroBetween(r, b, Min(d, m)) && NamesNodes(past, b, d))
            && (end.Ok? ==>
                  && Finds(end.value) && end.value.i2e == r[..Max(m, d)] && (0 in end.value.e2i <==> ZeroBetween(r, d, m))
                  && forall n :: 0 <= n < |end.value.i2l| ==> end.value.i2l[n] == Relabel([r[n].labelId], past, n))
  {
    hide ReplayOps, Indexed, ZeroBetween, Stage, Relabel, Unique;
    MakesRange(past, r, b, m);
    LoadedStage(r, b, m, d);
    LoadedZero(r[..d]);
    ReplayIff(Loaded(r[..d]), past, r, b, m, d);
  }

  lemma LoadedZero(r: seq<I2eRecord>)
    requires |r| <= U32_MAX
    ensures 0 !in Loaded(r).e2i
  {
    if r != [] { LoadedZero(r[..|r| - 1]); }
  }

  lemma SameIndex(a: Ids, b: Ids)
    requires Finds(a) && Finds(b) && a.i2e == b.i2e && OneZero(a.i2e, 0, |a.i2e|) && (0 in a.e2i <==> 0 in b.e2i)
    ensures a.e2i == b.e2i
  {
    forall x | x in a.e2i ensures x in b.e2i && b.e2i[x] == a.e2i[x] {
      assert a.i2e[a.e2i[x]].externalId == x;
      if x == 0 {
        assert b.i2e[b.e2i[x]].externalId == x;
        assert !(a.e2i[x] < b.e2i[x]) && !(b.e2i[x] < a.e2i[x]);
      }
    }
    forall x | x in b.e2i ensures x in a.e2i { assert b.i2e[b.e2i[x]].externalId == x; }
    assert a.e2i.Keys == b.e2i.Keys;
  }

  lemma {:induction false} NeverNamed(ops: seq<WalRecord>, r: seq<I2eRecord>, b: nat, m: nat, n: nat, labels: seq<u32>)
    requires Makes(ops, r, b, m) && NamesNodes(ops, b, 0) && m <= n
    ensures Relabel(labels, ops, n) == labels
    decreases |ops|
  {
    MakesRange(ops, r, b, m);
    if ops != [] { NeverNamed(ops[1..], r, if ops[0].CreateNode? then b + 1 else b, m, n, labels); }
  }

  lemma {:induction false} MakesConcat(a: seq<WalRecord>, x: seq<WalRecord>, r: seq<I2eRecord>, b: nat, mid: nat, m: nat)
    requires Makes(a, r, b, mid) && Makes(x, r, mid, m)
    ensures Makes(a + x, r, b, m)
    ensures forall d :: NamesNodes(a + x, b, d) <==> NamesNodes(a, b, d) && NamesNodes(x, mid, d)
    decreases |a|
  {
    if a == [] {
      assert a + x == x;
    } else {
      assert (a + x)[1..] == a[1..] + x;
      MakesConcat(a[1..], x, r, if a[0].CreateNode? then b + 1 else b, mid, m);
    }
  }

  /**
   * What a checkpoint costs. The log made all of `r`, the operations `covered` under the checkpoint the first `b`
   * records. Recovery from `d` stored records and the operations past the checkpoint gives the id map of
   * the running store exactly when no stored record has external id 0 and, node by node, the covered label changes
   * net to the first label.
   */
  lemma CheckpointRecoveryIff(r: seq<I2eRecord>, covered: seq<WalRecord>, past: seq<WalRecord>, b: nat, d: nat)
    requires Unique(r) && |r| <= U32_MAX && OneZero(r, 0, |r|) && b <= d <= |r|
    requires Makes(covered, r, 0, b) && Makes(past, r, b, |r|) && NamesNodes(covered + past, 0, 0)
    ensures ReplayOps(NoIds, covered + past).Ok?
    ensures ReplayOps(Loaded(r[..d]), past) == ReplayOps(NoIds, covered + past) <==>
              !ZeroBetween(r, 0, d) && forall n :: 0 <= n < b ==> NetsToFirst(r[n].labelId, covered, past, n)
  {
    hide ReplayOps, Loaded, Relabel, Unique, NetsToFirst, Finds, NamesNodes;
    var all, m := covered + past, |r|;
    MakesConcat(covered, past, r, 0, b, m);
    NothingLoaded(r);
    RecoveredIds(r, all, 0, m, 0);
    RecoveredIds(r, past, b, m, d);
    NamesMore(past, b, 0, d);
    var live, end := ReplayOps(NoIds, all).value, ReplayOps(Loaded(r[..d]), past);
    ZeroSplit(r, b, d, m);
    FindsLengths(live);
    forall n | 0 <= n < m
      ensures Relabel([r[n].labelId], past, n) == live.i2l[n] <==> (n < b ==> NetsToFirst(r[n].labelId, covered, past, n))
    {
      CoveredLabelsIff(r[n].labelId, covered, past, n);
      if n >= b {
        NeverNamed(covered, r, 0, b, n, [r[n].labelId]);
        RelabelConcat([r[n].labelId], covered, past, n);
      }
    }
    if end.Ok? {
      FindsLengths(end.value);
      if 0 in live.e2i <==> 0 in end.value.e2i { SameIndex(live, end.value); }
      if forall n :: 0 <= n < b ==> NetsToFirst(r[n].labelId, covered, past, n) { assert end.value.i2l == live.i2l; }
    }
  }

  lemma FindsLengths(ids: Ids)
    requires Finds(ids)
    ensures |ids.i2l| == |ids.i2e| <= U32_MAX
  {
  }

  lemma NothingLoaded(r: seq<I2eRecord>)
    ensures Loaded(r[..0]) == NoIds
  {
    assert FirstLabels([]) == [];
  }

  lemma {:induction false} NamesMore(ops: seq<WalRecord>, b: nat, d: nat, d': nat)
    requires NamesNodes(ops, b, d) && d <= d'
    ensures NamesNodes(ops, b, d')
    decreases |ops|
  {
    if ops != [] { NamesMore(ops[1..], if ops[0].CreateNode? then b + 1 else b, d, d'); }
  }

  /** A zero that replay meets again, or one loaded without an entry, makes the difference. */
  lemma ZeroSplit(r: seq<I2eRecord>, b: nat, d: nat, m: nat)
    requires b <= d <= m == |r| && OneZero(r, 0, m)
    ensures !ZeroBetween(r, 0, Min(0, m)) && (ZeroBetween(r, b, Min(d, m)) ==> ZeroBetween(r, 0, d))
    ensures (ZeroBetween(r, 0, m) <==> ZeroBetween(r, d, m)) <==> !ZeroBetween(r, 0, d)
  {
    if ZeroBetween(r, 0, d) {
      var z :| 0 <= z < d <= |r| && r[z].externalId == 0;
      assert ZeroBetween(r, 0, m);
    }
  }

  /** One added label under a checkpoint is such a loss. */
  lemma CoveredLabelIsLost(ext: u64, first: u32, lid: u32)
    requires ext != 0 && lid != first
    ensures var r, log := [I2eRecord(ext, first, 0)], [CreateNode(ext, first, 0), AddNodeLabel(0, lid)];
            && ReplayOps(NoIds, log).Ok? && ReplayOps(NoIds, log).value.i2e == r
            && ReplayOps(Loaded(r[..1]), []).Ok? && ReplayOps(Loaded(r[..1]), []) != ReplayOps(NoIds, log)
  {
    hide ReplayOps, Loaded, Relabel;
    var r, log := [I2eRecord(ext, first, 0)], [CreateNode(ext, first, 0), AddNodeLabel(0, lid)];
    assert log[1..] == [log[1]] && log[1..][1..] == [] && log + [] == log;
    MadeOne(r, log);
    NothingLoaded(r);
    RecoveredIds(r, log, 0, 1, 0);
    RecoveredIds(r, [], 1, 1, 1);
    CheckpointRecoveryIff(r, log, [], 1, 1);
    RelabelMembers([first], log, 0, lid);
    assert Settled([], 0, lid).None?;
    assert Settled(log[1..][1..], 0, lid).None?;
    assert Settled(log[1..], 0, lid) == Some(true);
    assert !NetsToFirst(r[0].labelId, log, [], 0);
  }

  lemma MadeOne(r: seq<I2eRecord>, log: seq<WalRecord>)
    requires |r| == 1 && |log| == 2 && log[0] == CreateNode(r[0].externalId, r[0].labelId, 0) && r[0].flags == 0
    requires log[1].AddNodeLabel? && log[1].node == 0
    ensures Makes(log, r, 0, 1) && NamesNodes(log, 0, 0) && Makes([], r, 1, 1)
  {
    assert log[1..][1..] == [];
    assert Makes(log[1..], r, 1, 1) && NamesNodes(log[1..], 1, 0);
  }

  // ---- Write transactions ---------------------------------------------------------------------

  datatype Created = Created(externalId: u64, labelId: u32, internalId: u32)

  /** What a write transaction may hold: dense internal ids, external ids new to the map and to each other. */
  ghost predicate Reserved(ids: Ids, created: seq<Created>) {
    && |ids.i2e| + |created| <= U32_MAX
    && (forall i :: 0 <= i < |created| ==> created[i].internalId == |ids.i2e| + i && created[i].externalId !in ids.e2i)
    && (forall i, j :: 0 <= i < j < |created| ==> created[i].externalId != created[j].externalId)
  }

  /** Node creation in a write transaction, under the write lock: the id map does not change meanwhile. */
  class NodeWriter {
    const ids: Ids
    var created: seq<Created>
    var createdExternalIds: set<u64>

    ghost predicate Valid()
      reads this
    {
      Reserved(ids, created) && createdExternalIds == set c | c in created :: c.externalId
    }

    constructor (ids: Ids)
      requires |ids.i2e| <= U32_MAX
      ensures Valid() && created == [] && this.ids == ids
    {
      this.ids := ids;
      created, createdExternalIds := [], {};
    }

    /** `create_node`. */
    method CreateNode(ext: u64, lid: u32) returns (r: Result<u32>)
      requires Valid() && |ids.i2e| + |created| < U32_MAX
      modifies this
      ensures Valid()
      ensures r.Ok? <==> ext !in ids.e2i && ext !in old(createdExternalIds)
      ensures r.Ok? ==> r.value == |ids.i2e| + |old(created)| && created == old(created) + [Created(ext, lid, r.value)]
      ensures r.Err? ==> created == old(created)
    {
      if ext in ids.e2i { return Err(WalProtocol("external id already exists")); }
      if ext in createdExternalIds { return Err(WalProtocol("duplicate external id in same tx")); }
      createdExternalIds := createdExternalIds + {ext};
      var internal := NextInternalId(|ids.i2e|) + |created|;
      var node := Created(ext, lid, internal);
      assert forall c :: c in created + [node] <==> c in created || c == node;
      created := created + [node];
      r := Ok(internal);
    }
  }

  function ApplyCreated(ids: Ids, created: seq<Created>): Result<Ids>
    decreases |created|
  {
    if created == [] then Ok(ids)
    else
      var next :- Create(ids, created[0].externalId, created[0].labelId, created[0].internalId);
      ApplyCreated(next, created[1..])
  }

  lemma ReservedStep(ids: Ids, created: seq<Created>)
    requires Reserved(ids, created) && created != []
    ensures var first := created[0];
            && Create(ids, first.externalId, first.labelId, first.internalId).Ok? && first.externalId !in ids.e2i
            && Reserved(Create(ids, first.externalId, first.labelId, first.internalId).value, created[1..])
  {
  }

  /** Ids handed out under the write lock never fail the density or duplicate checks at commit. */
  lemma {:induction false} ReservedApply(ids: Ids, created: seq<Created>)
    requires Reserved(ids, created)
    ensures ApplyCreated(ids, created).Ok? && |ApplyCreated(ids, created).value.i2e| == |ids.i2e| + |created|
    ensures |ids.i2l| == |ids.i2e| ==> |ApplyCreated(ids, created).value.i2l| == |ids.i2e| + |created|
    decreases |created|
  {
    if created != [] {
      var next := Create(ids, created[0].externalId, created[0].labelId, created[0].internalId).value;
      ReservedApply(next, created[1..]);
    }
  }

  // ---- What commit may log ----------------------------------------------------------------------

  function CreateRecords(created: seq<Created>): (ops: seq<WalRecord>)
    ensures |ops| == |created|
    ensures forall i :: 0 <= i < |ops| ==> ops[i] == CreateNode(created[i].externalId, created[i].labelId, created[i].internalId)
  {
    seq(|created|, i requires 0 <= i < |created| => CreateNode(created[i].externalId, created[i].labelId, created[i].internalId))
  }

  /** Logged creations replay as commit applied them. */
  lemma {:induction false} CreatedReplay(ids: Ids, created: seq<Created>)
    requires Reserved(ids, created)
    ensures ReplayOps(ids, CreateRecords(created)) == ApplyCreated(ids, created)
    decreases |created|
  {
    if created != [] {
      var next := Create(ids, created[0].externalId, created[0].labelId, created[0].internalId).value;
      assert CreateRecords(created)[1..] == CreateRecords(created[1..]);
      CreatedReplay(next, created[1..]);
    }
  }

  ghost predicate ChangesOnly(ops: seq<WalRecord>) { forall i :: 0 <= i < |ops| ==> LabelChange(ops[i]) }

  lemma {:induction false} ChangesIff(ids: Ids, changes: seq<WalRecord>)
    requires ChangesOnly(changes)
    ensures ReplayOps(ids, changes).Ok? <==> forall i :: 0 <= i < |changes| ==> changes[i].node < |ids.i2l|
    decreases |changes|
  {
    hide Sort, Without;
    if changes != [] {
      var next := ReplayOp(ids, changes[0]);
      if next.Ok? {
        ChangesIff(next.value, changes[1..]);
        assert forall i :: 1 <= i < |changes| ==> changes[i] == changes[1..][i - 1];
      }
    }
  }

  lemma {:induction false} ReplayConcat(ids: Ids, a: seq<WalRecord>, b: seq<WalRecord>)
    requires ReplayOps(ids, a).Ok?
    ensures ReplayOps(ids, a + b) == ReplayOps(ReplayOps(ids, a).value, b)
    decreases |a|
  {
    hide ReplayOp;
    if a == [] {
      assert a + b == b;
    } else {
      assert (a + b)[1..] == a[1..] + b;
      ReplayConcat(ReplayOp(ids, a[0]).value, a[1..], b);
    }
  }

  lemma ReplaySnoc(ids: Ids, ops: seq<WalRecord>, op: WalRecord)
    requires ReplayOps(ids, ops).Ok?
    ensures ReplayOps(ids, ops + [op]) == ReplayOp(ReplayOps(ids, ops).value, op)
  {
    hide ReplayOp;
    ReplayConcat(ids, ops, [op]);
    var mid := ReplayOps(ids, ops).value;
    var next := ReplayOp(mid, op);
    assert [op][1..] == [];
    if next.Ok? { assert ReplayOps(next.value, []) == next; }
  }

  /**
   * Label changes are logged unchecked. Over the map they were written against, a transaction's node records
   * replay exactly when every changed node existed or was created by the transaction.
   */
  lemma MissingNodePoisonsLog(ids: Ids, created: seq<Created>, changes: seq<WalRecord>)
    requires |ids.i2l| == |ids.i2e| && Reserved(ids, created) && ChangesOnly(changes)
    ensures ReplayOps(ids, CreateRecords(created) + changes).Ok? <==>
              forall i :: 0 <= i < |changes| ==> changes[i].node < |ids.i2e| + |created|
  {
    hide ReplayOps, ApplyCreated;
    ReservedApply(ids, created);
    CreatedReplay(ids, created);
    var made := ReplayOps(ids, CreateRecords(created)).value;
    ReplayConcat(ids, CreateRecords(created), changes);
    ChangesIff(made, changes);
  }
}
