/** The write buffer of one transaction: its operations, its frozen run, and replay of what commit logs. */
module MemTables {
  import opened Bytes
  import opened PropertyValues
  import opened Sorting
  import opened Graph
  import opened WalRecords

  /** The buffer's contents. */
  datatype Image = Image(
    out: map<NodeId, seq<EdgeKey>>,
    in_: map<NodeId, seq<EdgeKey>>,
    tombstonedNodes: set<NodeId>,
    tombstonedEdges: set<EdgeKey>,
    nodeProps: PropTable<NodeId>,
    edgeProps: PropTable<EdgeKey>)
  {
    ghost function Count(e: EdgeKey): nat { CountIn(out, e.src, e) }

    ghost predicate Valid() {
      && Pure(out, Outgoing) && Pure(in_, Incoming)
      && (forall e: EdgeKey :: CountIn(out, e.src, e) == CountIn(in_, e.dst, e))
      && nodeProps.Valid() && edgeProps.Valid()
    }
  }

  const EmptyImage := Image(map[], map[], {}, {}, PropTable(map[], map[]), PropTable(map[], map[]))

  // ---- Operations -------------------------------------------------------------

  /** Append `e` to the bucket of `n`. */
  function Push(m: map<NodeId, seq<EdgeKey>>, n: NodeId, e: EdgeKey): map<NodeId, seq<EdgeKey>> {
    m[n := Bucket(m, n) + [e]]
  }

  /** `s` without its elements in `dead`, in order. */
  function Keep(s: seq<EdgeKey>, dead: set<EdgeKey>): seq<EdgeKey> {
    if s == [] then [] else (if s[0] in dead then [] else [s[0]]) + Keep(s[1..], dead)
  }

  /** Drop every copy of `e` from the bucket of `n`, and the bucket itself once empty. */
  function Retain(m: map<NodeId, seq<EdgeKey>>, n: NodeId, e: EdgeKey): map<NodeId, seq<EdgeKey>> {
    if n !in m then m
    else
      var kept := Keep(m[n], {e});
      if kept == [] then m - {n} else m[n := kept]
  }

  function SetProp<K>(t: PropTable<K>, k: K, key: Utf8, v: PropertyValue): PropTable<K> {
    PropTable(
      t.values[k := t.Props(k)[key := v]],
      if k in t.removed then t.removed[k := t.removed[k] - {key}] else t.removed)
  }

  function RemoveProp<K>(t: PropTable<K>, k: K, key: Utf8): PropTable<K> {
    var values :=
      if k !in t.values then t.values
      else if t.values[k] - {key} == map[] then t.values - {k}
      else t.values[k := t.values[k] - {key}];
    PropTable(values, t.removed[k := t.RemovedKeys(k) + {key}])
  }

  /** One buffer operation, named by the log record that carries it. */
  function Apply(img: Image, r: WalRecord): Image {
    match r
    case CreateEdge(src, rel, dst) =>
      var e := EdgeKey(src, rel, dst);
      img.(out := Push(img.out, src, e), in_ := Push(img.in_, dst, e))
    case TombstoneNode(n) => img.(tombstonedNodes := img.tombstonedNodes + {n})
    case TombstoneEdge(src, rel, dst) =>
      var e := EdgeKey(src, rel, dst);
      img.(out := Retain(img.out, src, e), in_ := Retain(img.in_, dst, e),
           tombstonedEdges := img.tombstonedEdges + {e})
    case SetNodeProperty(n, key, v) => img.(nodeProps := SetProp(img.nodeProps, n, key, v))
    case RemoveNodeProperty(n, key) => img.(nodeProps := RemoveProp(img.nodeProps, n, key))
    case SetEdgeProperty(src, rel, dst, key, v) =>
      img.(edgeProps := SetProp(img.edgeProps, EdgeKey(src, rel, dst), key, v))
    case RemoveEdgeProperty(src, rel, dst, key) =>
      img.(edgeProps := RemoveProp(img.edgeProps, EdgeKey(src, rel, dst), key))
    case _ => img
  }

  function ApplyAll(recs: seq<WalRecord>, img: Image): Image
    decreases |recs|
  {
    if recs == [] then img else ApplyAll(recs[1..], Apply(img, recs[0]))
  }

  function SortBuckets(m: map<NodeId, seq<EdgeKey>>): map<NodeId, seq<EdgeKey>> {
    map n | n in m :: Sort(m[n], EdgeLe)
  }

  /** `freeze_into_run`. */
  function Freeze(img: Image, txid: u64): Run {
    Run(txid, SortBuckets(img.out), SortBuckets(img.in_),
        img.tombstonedNodes, img.tombstonedEdges, img.nodeProps, img.edgeProps)
  }

  // ---- Invariant ----------------------------------------------------------------

  lemma {:induction false} KeepCounts(s: seq<EdgeKey>, dead: set<EdgeKey>)
    ensures forall e :: multiset(Keep(s, dead))[e] == if e in dead then 0 else multiset(s)[e]
    ensures forall i :: 0 <= i < |Keep(s, dead)| ==> Keep(s, dead)[i] in s
  {
    if s != [] {
      KeepCounts(s[1..], dead);
      assert s == [s[0]] + s[1..];
    }
  }

  lemma {:induction false} KeepSorted(s: seq<EdgeKey>, dead: set<EdgeKey>)
    requires Sorted(s, EdgeLe)
    ensures Sorted(Keep(s, dead), EdgeLe)
  {
    if s != [] {
      KeepSorted(s[1..], dead);
      KeepCounts(s[1..], dead);
    }
  }

  lemma RetainCounts(m: map<NodeId, seq<EdgeKey>>, n: NodeId, e: EdgeKey)
    ensures forall x, y :: CountIn(Retain(m, n, e), x, y) == if x == n && y == e then 0 else CountIn(m, x, y)
  {
    KeepCounts(Bucket(m, n), {e});
    forall x, y ensures CountIn(Retain(m, n, e), x, y) == if x == n && y == e then 0 else CountIn(m, x, y) {
      assert Bucket(Retain(m, n, e), x) == if x == n then Keep(Bucket(m, n), {e}) else Bucket(m, x);
    }
  }

  lemma RetainPure(m: map<NodeId, seq<EdgeKey>>, n: NodeId, e: EdgeKey, dir: Direction)
    requires Pure(m, dir)
    ensures Pure(Retain(m, n, e), dir)
  {
    hide CountIn;
    RetainCounts(m, n, e);
  }

  lemma PushCounts(m: map<NodeId, seq<EdgeKey>>, n: NodeId, e: EdgeKey)
    ensures forall x, y :: CountIn(Push(m, n, e), x, y) == CountIn(m, x, y) + if x == n && y == e then 1 else 0
  {
    forall x, y ensures CountIn(Push(m, n, e), x, y) == CountIn(m, x, y) + if x == n && y == e then 1 else 0 {
      assert Bucket(Push(m, n, e), x) == if x == n then Bucket(m, n) + [e] else Bucket(m, x);
    }
  }

  lemma CreateKeeps(img: Image, e: EdgeKey)
    requires img.Valid()
    ensures var r := Apply(img, CreateEdge(e.src, e.rel, e.dst));
            r.Valid() && forall x: EdgeKey :: r.Count(x) == img.Count(x) + if x == e then 1 else 0
  {
    hide CountIn;
    PushCounts(img.out, e.src, e);
    PushCounts(img.in_, e.dst, e);
  }

  lemma TombstoneKeeps(img: Image, e: EdgeKey)
    requires img.Valid()
    ensures var r := Apply(img, TombstoneEdge(e.src, e.rel, e.dst));
            r.Valid() && forall x: EdgeKey :: r.Count(x) == if x == e then 0 else img.Count(x)
  {
    hide CountIn, Retain;
    RetainCounts(img.out, e.src, e);
    RetainCounts(img.in_, e.dst, e);
    RetainPure(img.out, e.src, e, Outgoing);
    RetainPure(img.in_, e.dst, e, Incoming);
  }

  lemma SetKeeps<K>(t: PropTable<K>, k: K, key: Utf8, v: PropertyValue)
    requires t.Valid()
    ensures SetProp(t, k, key, v).Valid()
  {
    assert key in SetProp(t, k, key, v).values[k];
  }

  lemma RemoveKeeps<K>(t: PropTable<K>, k: K, key: Utf8)
    requires t.Valid()
    ensures RemoveProp(t, k, key).Valid()
  {
    assert key in RemoveProp(t, k, key).removed[k];
  }

  lemma PropKeeps<K>(t: PropTable<K>, k: K, key: Utf8, v: PropertyValue)
    requires t.Valid()
    ensures SetProp(t, k, key, v).Valid() && RemoveProp(t, k, key).Valid()
  {
    hide SetProp, RemoveProp, PropTable.Valid;
    SetKeeps(t, k, key, v);
    RemoveKeeps(t, k, key);
  }

  /** Every operation keeps the buffer's invariant. */
  lemma ApplyKeeps(img: Image, r: WalRecord)
    requires img.Valid()
    ensures Apply(img, r).Valid()
  {
    hide SetProp, RemoveProp, Push, Retain, CountIn;
    match r
    case CreateEdge(src, rel, dst) => CreateKeeps(img, EdgeKey(src, rel, dst));
    case TombstoneEdge(src, rel, dst) => TombstoneKeeps(img, EdgeKey(src, rel, dst));
    case SetNodeProperty(n, key, v) => PropKeeps(img.nodeProps, n, key, v);
    case RemoveNodeProperty(n, key) => PropKeeps(img.nodeProps, n, key, Null);
    case SetEdgeProperty(src, rel, dst, key, v) => PropKeeps(img.edgeProps, EdgeKey(src, rel, dst), key, v);
    case RemoveEdgeProperty(src, rel, dst, key) => PropKeeps(img.edgeProps, EdgeKey(src, rel, dst), key, Null);
    case _ =>
  }

  lemma {:induction false} ApplyAllKeeps(recs: seq<WalRecord>, img: Image)
    requires img.Valid()
    ensures ApplyAll(recs, img).Valid()
    decreases |recs|
  {
    if recs != [] {
      ApplyKeeps(img, recs[0]);
      ApplyAllKeeps(recs[1..], Apply(img, recs[0]));
    }
  }

  /** A frozen run is mirrored and keeps the buffer's edge counts. */
  lemma FreezeMirrored(img: Image, txid: u64)
    requires img.Valid()
    ensures Freeze(img, txid).Mirrored()
    ensures forall e: EdgeKey :: Freeze(img, txid).Count(e) == img.Count(e)
  {
    hide CountIn;
    SortedBucketsPure(img.out, Outgoing);
    SortedBucketsPure(img.in_, Incoming);
  }

  lemma SortedBucketsPure(m: map<NodeId, seq<EdgeKey>>, dir: Direction)
    requires Pure(m, dir)
    ensures Pure(SortBuckets(m), dir)
    ensures forall n, e :: CountIn(SortBuckets(m), n, e) == CountIn(m, n, e)
  {
    forall n | n in m ensures Sort(m[n], EdgeLe) != [] {
      assert |multiset(Sort(m[n], EdgeLe))| == |multiset(m[n])|;
    }
    forall n, e ensures CountIn(SortBuckets(m), n, e) == CountIn(m, n, e) {
      assert multiset(Bucket(SortBuckets(m), n)) == multiset(Bucket(m, n));
    }
  }

  /** A frozen bucket lists its edges by source, then relationship type, then destination, each as often as it was buffered. */
  lemma FrozenOrder(img: Image, txid: u64, dir: Direction, n: NodeId, i: nat, j: nat)
    ensures var s := Freeze(img, txid).EdgesFor(dir, n);
            && multiset(s) == multiset(Bucket(if dir.Outgoing? then img.out else img.in_, n))
            && (i < j < |s| ==> || s[i].src < s[j].src
                                || (s[i].src == s[j].src && s[i].rel < s[j].rel)
                                || (s[i].src == s[j].src && s[i].rel == s[j].rel && s[i].dst <= s[j].dst))
  {
    EdgeOrders();
    SortSorted(Bucket(if dir.Outgoing? then img.out else img.in_, n), EdgeLe);
  }

  // ---- What commit logs ------------------------------------------------------------

  datatype PropSet<K> = PropSet(owner: K, key: Utf8, value: PropertyValue)
  datatype PropKey<K> = PropKey(owner: K, key: Utf8)

  /** The sections `commit` logs for a buffer, in its order; inside a section the order is free,
      as it is for the hash-map iterations of the source. */
  datatype CommitLog = CommitLog(
    edges: seq<EdgeKey>,
    deadNodes: seq<NodeId>,
    deadEdges: seq<EdgeKey>,
    nodeSets: seq<PropSet<NodeId>>,
    nodeRemovals: seq<PropKey<NodeId>>,
    edgeSets: seq<PropSet<EdgeKey>>,
    edgeRemovals: seq<PropKey<EdgeKey>>)

  ghost function AllSets<K>(t: PropTable<K>): set<PropSet<K>> {
    set k, key | k in t.values && key in t.values[k] :: PropSet(k, key, t.values[k][key])
  }

  ghost function AllRemovals<K>(t: PropTable<K>): set<PropKey<K>> {
    set k, key | k in t.removed && key in t.removed[k] :: PropKey(k, key)
  }

  ghost predicate ListsTable<K>(sets: seq<PropSet<K>>, removals: seq<PropKey<K>>, t: PropTable<K>) {
    (set s | s in sets) == AllSets(t) && (set r | r in removals) == AllRemovals(t)
  }

  /** The sections list exactly the buffer's contents. */
  ghost predicate Lists(c: CommitLog, img: Image) {
    && (forall e: EdgeKey :: multiset(c.edges)[e] == img.Count(e))
    && (set n | n in c.deadNodes) == img.tombstonedNodes
    && (set e | e in c.deadEdges) == img.tombstonedEdges
    && ListsTable(c.nodeSets, c.nodeRemovals, img.nodeProps)
    && ListsTable(c.edgeSets, c.edgeRemovals, img.edgeProps)
  }

  function Creates(es: seq<EdgeKey>): (rs: seq<WalRecord>)
    ensures forall i :: 0 <= i < |rs| ==> rs[i].CreateEdge?
  {
    if es == [] then [] else [CreateEdge(es[0].src, es[0].rel, es[0].dst)] + Creates(es[1..])
  }

  function NodeTombstones(ns: seq<NodeId>): (rs: seq<WalRecord>)
    ensures forall i :: 0 <= i < |rs| ==> rs[i].TombstoneNode?
  {
    if ns == [] then [] else [TombstoneNode(ns[0])] + NodeTombstones(ns[1..])
  }

  function EdgeTombstones(es: seq<EdgeKey>): (rs: seq<WalRecord>)
    ensures forall i :: 0 <= i < |rs| ==> rs[i].TombstoneEdge?
  {
    if es == [] then [] else [TombstoneEdge(es[0].src, es[0].rel, es[0].dst)] + EdgeTombstones(es[1..])
  }

  function NodeSets(ps: seq<PropSet<NodeId>>): (rs: seq<WalRecord>)
    ensures forall i :: 0 <= i < |rs| ==> rs[i].SetNodeProperty?
  {
    if ps == [] then [] else [SetNodeProperty(ps[0].owner, ps[0].key, ps[0].value)] + NodeSets(ps[1..])
  }

  function NodeRemovals(ps: seq<PropKey<NodeId>>): (rs: seq<WalRecord>)
    ensures forall i :: 0 <= i < |rs| ==> rs[i].RemoveNodeProperty?
  {
    if ps == [] then [] else [RemoveNodeProperty(ps[0].owner, ps[0].key)] + NodeRemovals(ps[1..])
  }

  function EdgeSets(ps: seq<PropSet<EdgeKey>>): (rs: seq<WalRecord>)
    ensures forall i :: 0 <= i < |rs| ==> rs[i].SetEdgeProperty?
  {
    if ps == [] then []
    else
      var o := ps[0].owner;
      [SetEdgeProperty(o.src, o.rel, o.dst, ps[0].key, ps[0].value)] + EdgeSets(ps[1..])
  }

  function EdgeRemovals(ps: seq<PropKey<EdgeKey>>): (rs: seq<WalRecord>)
    ensures forall i :: 0 <= i < |rs| ==> rs[i].RemoveEdgeProperty?
  {
    if ps == [] then []
    else
      var o := ps[0].owner;
      [RemoveEdgeProperty(o.src, o.rel, o.dst, ps[0].key)] + EdgeRemovals(ps[1..])
  }

  /** The graph records of one commit, section after section. */
  function Records(c: CommitLog): seq<WalRecord> {
    Creates(c.edges) + NodeTombstones(c.deadNodes) + EdgeTombstones(c.deadEdges)
    + NodeSets(c.nodeSets) + NodeRemovals(c.nodeRemovals)
    + EdgeSets(c.edgeSets) + EdgeRemovals(c.edgeRemovals)
  }

  // ---- Replaying it --------------------------------------------------------------------

  function SetAll<K>(t: PropTable<K>, ps: seq<PropSet<K>>): PropTable<K>
    decreases |ps|
  {
    if ps == [] then t else SetAll(SetProp(t, ps[0].owner, ps[0].key, ps[0].value), ps[1..])
  }

  function RemoveAll<K>(t: PropTable<K>, ps: seq<PropKey<K>>): PropTable<K>
    decreases |ps|
  {
    if ps == [] then t else RemoveAll(RemoveProp(t, ps[0].owner, ps[0].key), ps[1..])
  }

  lemma {:induction false} ApplyAllConcat(a: seq<WalRecord>, b: seq<WalRecord>, img: Image)
    ensures ApplyAll(a + b, img) == ApplyAll(b, ApplyAll(a, img))
    decreases |a|
  {
    hide Apply;
    if a == [] {
      assert a + b == b;
    } else {
      assert (a + b)[1..] == a[1..] + b;
      ApplyAllConcat(a[1..], b, Apply(img, a[0]));
    }
  }

  lemma ApplyNone(img: Image)
    ensures ApplyAll([], img) == img
  {
  }

  lemma ApplyFirst(r: WalRecord, rest: seq<WalRecord>, img: Image)
    ensures ApplyAll([r] + rest, img) == ApplyAll(rest, Apply(img, r))
  {
    hide Apply;
    assert ([r] + rest)[1..] == rest;
  }

  lemma {:induction false} ReplayCreates(es: seq<EdgeKey>, img: Image)
    requires img.Valid()
    ensures var r := ApplyAll(Creates(es), img);
            && r.Valid() && r == img.(out := r.out, in_ := r.in_)
            && forall e: EdgeKey :: r.Count(e) == img.Count(e) + multiset(es)[e]
    decreases |es|
  {
    hide CountIn, Push, ApplyAll;
    if es == [] {
      ApplyNone(img);
    } else {
      var first := CreateEdge(es[0].src, es[0].rel, es[0].dst);
      CreateKeeps(img, es[0]);
      ReplayCreates(es[1..], Apply(img, first));
      ApplyFirst(first, Creates(es[1..]), img);
      assert es == [es[0]] + es[1..];
    }
  }

  lemma {:induction false} ReplayNodeTombstones(ns: seq<NodeId>, img: Image)
    ensures ApplyAll(NodeTombstones(ns), img)
         == img.(tombstonedNodes := img.tombstonedNodes + set n | n in ns)
    decreases |ns|
  {
    if ns != [] {
      ReplayNodeTombstones(ns[1..], Apply(img, TombstoneNode(ns[0])));
      ApplyFirst(TombstoneNode(ns[0]), NodeTombstones(ns[1..]), img);
      assert (set n | n in ns) == {ns[0]} + set n | n in ns[1..];
    }
  }

  lemma {:induction false} ReplayEdgeTombstones(es: seq<EdgeKey>, img: Image)
    requires img.Valid()
    ensures var r := ApplyAll(EdgeTombstones(es), img);
            && r.Valid()
            && r == img.(out := r.out, in_ := r.in_, tombstonedEdges := img.tombstonedEdges + set e | e in es)
            && forall e: EdgeKey :: r.Count(e) == if e in es then 0 else img.Count(e)
    decreases |es|
  {
    hide CountIn, Retain, ApplyAll;
    if es == [] {
      ApplyNone(img);
    } else {
      var first := TombstoneEdge(es[0].src, es[0].rel, es[0].dst);
      TombstoneKeeps(img, es[0]);
      ReplayEdgeTombstones(es[1..], Apply(img, first));
      ApplyFirst(first, EdgeTombstones(es[1..]), img);
      assert (set e | e in es) == {es[0]} + set e | e in es[1..];
    }
  }

  lemma {:induction false} ReplayNodeSets(ps: seq<PropSet<NodeId>>, img: Image)
    ensures ApplyAll(NodeSets(ps), img) == img.(nodeProps := SetAll(img.nodeProps, ps))
    decreases |ps|
  {
    hide SetProp;
    if ps != [] {
      var first := SetNodeProperty(ps[0].owner, ps[0].key, ps[0].value);
      ReplayNodeSets(ps[1..], Apply(img, first));
      ApplyFirst(first, NodeSets(ps[1..]), img);
    }
  }

  lemma {:induction false} ReplayNodeRemovals(ps: seq<PropKey<NodeId>>, img: Image)
    ensures ApplyAll(NodeRemovals(ps), img) == img.(nodeProps := RemoveAll(img.nodeProps, ps))
    decreases |ps|
  {
    hide RemoveProp;
    if ps != [] {
      var first := RemoveNodeProperty(ps[0].owner, ps[0].key);
      ReplayNodeRemovals(ps[1..], Apply(img, first));
      ApplyFirst(first, NodeRemovals(ps[1..]), img);
    }
  }

  lemma {:induction false} ReplayEdgeSets(ps: seq<PropSet<EdgeKey>>, img: Image)
    ensures ApplyAll(EdgeSets(ps), img) == img.(edgeProps := SetAll(img.edgeProps, ps))
    decreases |ps|
  {
    hide SetProp;
    if ps != [] {
      var o := ps[0].owner;
      var first := SetEdgeProperty(o.src, o.rel, o.dst, ps[0].key, ps[0].value);
      ReplayEdgeSets(ps[1..], Apply(img, first));
      ApplyFirst(first, EdgeSets(ps[1..]), img);
    }
  }

  lemma {:induction false} ReplayEdgeRemovals(ps: seq<PropKey<EdgeKey>>, img: Image)
    ensures ApplyAll(EdgeRemovals(ps), img) == img.(edgeProps := RemoveAll(img.edgeProps, ps))
    decreases |ps|
  {
    hide RemoveProp;
    if ps != [] {
      var o := ps[0].owner;
      var first := RemoveEdgeProperty(o.src, o.rel, o.dst, ps[0].key);
      ReplayEdgeRemovals(ps[1..], Apply(img, first));
      ApplyFirst(first, EdgeRemovals(ps[1..]), img);
    }
  }

  // ---- Property tables ------------------------------------------------------------------

  /** Setting entries of `t` one by one onto part of `t` stays within `t` and adds each of them. */
  lemma {:induction false} SetAllWithin<K(!new)>(part: PropTable<K>, ps: seq<PropSet<K>>, t: PropTable<K>)
    requires part.removed == map[] && (forall k :: k in part.values ==> part.values[k] != map[])
    requires AllSets(part) <= AllSets(t) && (set p | p in ps) <= AllSets(t)
    ensures var r := SetAll(part, ps);
            && r.removed == map[] && (forall k :: k in r.values ==> r.values[k] != map[])
            && AllSets(r) == AllSets(part) + set p | p in ps
    decreases |ps|
  {
    if ps != [] {
      hide SetProp, AllSets;
      var p := ps[0];
      SetsCons(ps);
      SetOneWithin(part, p, t);
      SetAllWithin(SetProp(part, p.owner, p.key, p.value), ps[1..], t);
    }
  }

  lemma SetsCons<T>(ps: seq<T>)
    requires ps != []
    ensures (set q | q in ps) == {ps[0]} + set q | q in ps[1..]
  {
    assert ps == [ps[0]] + ps[1..];
  }

  lemma SetOneWithin<K>(part: PropTable<K>, p: PropSet<K>, t: PropTable<K>)
    requires part.removed == map[] && (forall k :: k in part.values ==> part.values[k] != map[])
    requires AllSets(part) <= AllSets(t) && p in AllSets(t)
    ensures var r := SetProp(part, p.owner, p.key, p.value);
            && r.removed == map[] && (forall k :: k in r.values ==> r.values[k] != map[])
            && AllSets(r) == AllSets(part) + {p}
  {
    var r := SetProp(part, p.owner, p.key, p.value);
    assert p.key in r.values[p.owner];
    forall q ensures q in AllSets(r) <==> q in AllSets(part) + {p} {
      if q.owner == p.owner && q.key == p.key && q in AllSets(part) {
        assert q in AllSets(t);
      }
      if q in AllSets(r) {
        assert q.owner in r.values && q.key in r.values[q.owner];
      }
      if q in AllSets(part) {
        assert q.owner in part.values && q.key in part.values[q.owner];
        assert q.owner in r.values && q.key in r.values[q.owner];
      }
    }
  }

  lemma ValuesFromSets<K>(a: PropTable<K>, b: PropTable<K>)
    requires AllSets(a) == AllSets(b)
    requires forall k :: k in a.values ==> a.values[k] != map[]
    requires forall k :: k in b.values ==> b.values[k] != map[]
    ensures a.values == b.values
  {
    forall k | k in a.values ensures k in b.values && a.values[k] == b.values[k] { OwnerFromSets(a, b, k); }
    forall k | k in b.values ensures k in a.values { OwnerFromSets(b, a, k); }
  }

  lemma OwnerFromSets<K>(a: PropTable<K>, b: PropTable<K>, k: K)
    requires AllSets(a) == AllSets(b) && k in a.values && a.values[k] != map[]
    ensures k in b.values && a.values[k] == b.values[k]
  {
    var some :| some in a.values[k];
    assert PropSet(k, some, a.values[k][some]) in AllSets(a);
    assert PropSet(k, some, a.values[k][some]) in AllSets(b);
    forall key ensures key in a.values[k] <==> key in b.values[k]
               ensures key in a.values[k] && key in b.values[k] ==> a.values[k][key] == b.values[k][key] {
      if key in a.values[k] { assert PropSet(k, key, a.values[k][key]) in AllSets(b); }
      if key in b.values[k] { assert PropSet(k, key, b.values[k][key]) in AllSets(a); }
    }
  }

  /** Removing keys that hold no value only records the removals. */
  lemma {:induction false} RemoveAllAbsent<K(!new)>(t: PropTable<K>, ps: seq<PropKey<K>>)
    requires forall k :: k in t.values ==> t.values[k] != map[]
    requires forall p :: p in ps && p.owner in t.values ==> p.key !in t.values[p.owner]
    ensures var r := RemoveAll(t, ps);
            && r.values == t.values
            && (ps != [] ==> r.removed != map[]) && (t.removed != map[] ==> r.removed != map[])
            && (ps == [] ==> r.removed == t.removed)
            && forall k :: r.RemovedKeys(k) == t.RemovedKeys(k) + OwnedKeys(ps, k)
    decreases |ps|
  {
    hide RemoveProp;
    if ps != [] {
      var p := ps[0];
      assert p in ps;
      RemoveOneAbsent(t, p);
      RemoveAllAbsent(RemoveProp(t, p.owner, p.key), ps[1..]);
      forall k ensures OwnedKeys(ps, k) == (if p.owner == k then {p.key} else {}) + OwnedKeys(ps[1..], k) {
      }
    }
  }

  ghost function OwnedKeys<K>(ps: seq<PropKey<K>>, k: K): set<Utf8> {
    set p | p in ps && p.owner == k :: p.key
  }

  lemma RemoveOneAbsent<K(!new)>(t: PropTable<K>, p: PropKey<K>)
    requires forall k :: k in t.values ==> t.values[k] != map[]
    requires p.owner in t.values ==> p.key !in t.values[p.owner]
    ensures var r := RemoveProp(t, p.owner, p.key);
            && r.values == t.values && r.removed != map[]
            && forall k :: r.RemovedKeys(k) == t.RemovedKeys(k) + if p.owner == k then {p.key} else {}
  {
    var r := RemoveProp(t, p.owner, p.key);
    if p.owner in t.values { assert t.values[p.owner] - {p.key} == t.values[p.owner]; }
    assert p.owner in r.removed;
  }

  /** Replaying a table's listed sets and removals rebuilds the table, in any listing order. */
  lemma ReplayTable<K(!new)>(t: PropTable<K>, sets: seq<PropSet<K>>, removals: seq<PropKey<K>>)
    requires t.Valid() && ListsTable(sets, removals, t)
    ensures SameProps(RemoveAll(SetAll(PropTable(map[], map[]), sets), removals), t)
  {
    var none: PropTable<K> := PropTable(map[], map[]);
    var mid := SetAll(none, sets);
    assert AllSets(none) == {};
    SetAllWithin(none, sets, t);
    ValuesFromSets(mid, t);
    forall p | p in removals && p.owner in mid.values ensures p.key !in mid.values[p.owner] {
      assert p in set q | q in removals;
      assert p in AllRemovals(t);
    }
    RemoveAllAbsent(mid, removals);
    var r := RemoveAll(mid, removals);
    forall k ensures r.RemovedKeys(k) == t.RemovedKeys(k) { RemovalKeys(t, removals, k); }
    if removals == [] {
      forall k | k in t.removed ensures t.removed[k] == {} { RemovalKeys(t, removals, k); }
    } else {
      assert removals[0] in set q | q in removals;
      assert removals[0] in AllRemovals(t);
    }
  }

  lemma RemovalKeys<K>(t: PropTable<K>, removals: seq<PropKey<K>>, k: K)
    requires (set r | r in removals) == AllRemovals(t)
    ensures OwnedKeys(removals, k) == t.RemovedKeys(k)
  {
    var keys := OwnedKeys(removals, k);
    forall key ensures key in keys <==> key in t.RemovedKeys(k) {
      if key in keys {
        var p :| p in removals && p.owner == k && p.key == key;
        assert p in set r | r in removals;
        assert p in AllRemovals(t);
      }
      if key in t.RemovedKeys(k) {
        assert PropKey(k, key) in AllRemovals(t);
        assert PropKey(k, key) in set r | r in removals;
      }
    }
  }

  // ---- Commit image against replay ---------------------------------------------------------

  function DropBuckets(m: map<NodeId, seq<EdgeKey>>, dead: set<EdgeKey>): map<NodeId, seq<EdgeKey>> {
    map n | n in m && Keep(m[n], dead) != [] :: Keep(m[n], dead)
  }

  /** The run without the edges its own edge tombstones name. */
  function DropOwn(run: Run): (d: Run)
    ensures d.txid == run.txid && d.tombstonedEdges == run.tombstonedEdges
  {
    run.(edgesBySrc := DropBuckets(run.edgesBySrc, run.tombstonedEdges),
         edgesByDst := DropBuckets(run.edgesByDst, run.tombstonedEdges))
  }

  function Replayed(c: CommitLog): Image { ApplyAll(Records(c), EmptyImage) }

  lemma EmptyImageValid()
    ensures EmptyImage.Valid() && forall e: EdgeKey :: EmptyImage.Count(e) == 0
  {
  }

  lemma ReplayEdgeSections(c: CommitLog, img: Image)
    requires img.Valid() && Lists(c, img)
    ensures var r := ApplyAll(Creates(c.edges) + NodeTombstones(c.deadNodes) + EdgeTombstones(c.deadEdges), EmptyImage);
            && r.Valid()
            && r == EmptyImage.(out := r.out, in_ := r.in_,
                                tombstonedNodes := img.tombstonedNodes, tombstonedEdges := img.tombstonedEdges)
            && forall e: EdgeKey :: r.Count(e) == if e in img.tombstonedEdges then 0 else img.Count(e)
  {
    hide ApplyAll, CountIn, ListsTable;
    EmptyImageValid();
    ApplyAllConcat(Creates(c.edges) + NodeTombstones(c.deadNodes), EdgeTombstones(c.deadEdges), EmptyImage);
    ApplyAllConcat(Creates(c.edges), NodeTombstones(c.deadNodes), EmptyImage);
    ReplayCreates(c.edges, EmptyImage);
    var a := ApplyAll(Creates(c.edges), EmptyImage);
    ReplayNodeTombstones(c.deadNodes, a);
    var b := a.(tombstonedNodes := img.tombstonedNodes);
    assert a.tombstonedNodes == {} && a.tombstonedEdges == {};
    assert ApplyAll(NodeTombstones(c.deadNodes), a) == b;
    assert forall e: EdgeKey :: b.Count(e) == a.Count(e);
    ReplayEdgeTombstones(c.deadEdges, b);
    assert forall e :: e in c.deadEdges <==> e in set x | x in c.deadEdges;
  }

  lemma ReplaySections(c: CommitLog, img: Image)
    requires img.Valid() && Lists(c, img)
    ensures var r := Replayed(c);
            && r.Valid()
            && r.tombstonedNodes == img.tombstonedNodes && r.tombstonedEdges == img.tombstonedEdges
            && SameProps(r.nodeProps, img.nodeProps) && SameProps(r.edgeProps, img.edgeProps)
            && forall e: EdgeKey :: r.Count(e) == if e in img.tombstonedEdges then 0 else img.Count(e)
  {
    hide ApplyAll, CountIn, ListsTable, SameProps;
    EmptyImageValid();
    ApplyAllKeeps(Records(c), EmptyImage);
    ReplayEdgeSections(c, img);
    var edges := Creates(c.edges) + NodeTombstones(c.deadNodes) + EdgeTombstones(c.deadEdges);
    var r0 := ApplyAll(edges, EmptyImage);
    var s1 := edges + NodeSets(c.nodeSets);
    var s2 := s1 + NodeRemovals(c.nodeRemovals);
    var s3 := s2 + EdgeSets(c.edgeSets);
    assert Records(c) == s3 + EdgeRemovals(c.edgeRemovals);
    ApplyAllConcat(edges, NodeSets(c.nodeSets), EmptyImage);
    ApplyAllConcat(s1, NodeRemovals(c.nodeRemovals), EmptyImage);
    ApplyAllConcat(s2, EdgeSets(c.edgeSets), EmptyImage);
    ApplyAllConcat(s3, EdgeRemovals(c.edgeRemovals), EmptyImage);
    ReplayNodeSets(c.nodeSets, r0);
    ReplayNodeRemovals(c.nodeRemovals, ApplyAll(s1, EmptyImage));
    ReplayEdgeSets(c.edgeSets, ApplyAll(s2, EmptyImage));
    ReplayEdgeRemovals(c.edgeRemovals, ApplyAll(s3, EmptyImage));
    ReplayTable(img.nodeProps, c.nodeSets, c.nodeRemovals);
    ReplayTable(img.edgeProps, c.edgeSets, c.edgeRemovals);
    assert forall e: EdgeKey :: Replayed(c).Count(e) == r0.Count(e);
  }

  ghost predicate CountsWithout(a: map<NodeId, seq<EdgeKey>>, b: map<NodeId, seq<EdgeKey>>, dead: set<EdgeKey>) {
    forall n, e :: CountIn(a, n, e) == if e in dead then 0 else CountIn(b, n, e)
  }

  lemma BucketWithout(a: map<NodeId, seq<EdgeKey>>, b: map<NodeId, seq<EdgeKey>>, dead: set<EdgeKey>, n: NodeId)
    requires CountsWithout(a, b, dead)
    ensures Sort(Bucket(a, n), EdgeLe) == Keep(Sort(Bucket(b, n), EdgeLe), dead)
  {
    var s, t := Sort(Bucket(a, n), EdgeLe), Sort(Bucket(b, n), EdgeLe);
    EdgeOrders();
    SortSorted(Bucket(a, n), EdgeLe);
    SortSorted(Bucket(b, n), EdgeLe);
    KeepSorted(t, dead);
    KeepCounts(t, dead);
    forall e ensures multiset(s)[e] == multiset(Keep(t, dead))[e] {
      assert CountIn(a, n, e) == if e in dead then 0 else CountIn(b, n, e);
    }
    SortedUnique(s, Keep(t, dead), EdgeLe);
  }

  lemma SortedWithout(a: map<NodeId, seq<EdgeKey>>, b: map<NodeId, seq<EdgeKey>>, dead: set<EdgeKey>)
    requires CountsWithout(a, b, dead)
    requires forall n :: n in a ==> a[n] != []
    ensures SortBuckets(a) == DropBuckets(SortBuckets(b), dead)
  {
    hide CountsWithout, Keep, Sort;
    var x, y := SortBuckets(a), DropBuckets(SortBuckets(b), dead);
    forall n ensures (n in x <==> n in y) && (n in x && n in y ==> x[n] == y[n]) {
      BucketWithout(a, b, dead, n);
      SortKeep0();
      assert |Sort(Bucket(a, n), EdgeLe)| == |Bucket(a, n)| by { SortLength(Bucket(a, n)); }
      if n !in b { assert Sort(Bucket(b, n), EdgeLe) == []; }
    }
  }

  lemma SortKeep0()
    ensures Sort<EdgeKey>([], EdgeLe) == [] && forall dead :: Keep([], dead) == []
  {
  }

  lemma SortLength(s: seq<EdgeKey>)
    ensures |Sort(s, EdgeLe)| == |s|
  {
    assert |multiset(Sort(s, EdgeLe))| == |multiset(s)|;
  }

  /** Counts of both adjacency maps follow from the edge counts. */
  lemma CountsFromEdges(r: Image, img: Image, dead: set<EdgeKey>)
    requires r.Valid() && img.Valid()
    requires forall e: EdgeKey :: r.Count(e) == if e in dead then 0 else img.Count(e)
    ensures CountsWithout(r.out, img.out, dead) && CountsWithout(r.in_, img.in_, dead)
  {
    hide CountIn;
    forall n, e
      ensures CountIn(r.out, n, e) == if e in dead then 0 else CountIn(img.out, n, e)
      ensures CountIn(r.in_, n, e) == if e in dead then 0 else CountIn(img.in_, n, e)
    {
      assert r.Count(e) == if e in dead then 0 else img.Count(e);
    }
  }

  /**
   * For every buffer and every listing order, replaying what commit logs gives the published run
   * minus exactly the edges named by the run's own edge tombstones.
   */
  lemma CommitReplay(img: Image, c: CommitLog, txid: u64)
    requires img.Valid() && Lists(c, img)
    ensures SameRun(Freeze(Replayed(c), txid), DropOwn(Freeze(img, txid)))
  {
    hide Lists, CountsWithout, SameProps, Replayed, SortBuckets, DropBuckets;
    var r := Replayed(c);
    ReplaySections(c, img);
    CountsFromEdges(r, img, img.tombstonedEdges);
    SortedWithout(r.out, img.out, img.tombstonedEdges);
    SortedWithout(r.in_, img.in_, img.tombstonedEdges);
  }

  lemma {:induction false} KeepAll(s: seq<EdgeKey>, dead: set<EdgeKey>)
    requires forall i :: 0 <= i < |s| ==> s[i] !in dead
    ensures Keep(s, dead) == s
  {
    if s != [] { KeepAll(s[1..], dead); }
  }

  lemma DropNothing(m: map<NodeId, seq<EdgeKey>>, dead: set<EdgeKey>)
    requires forall n :: n in m ==> m[n] != []
    requires forall n, e :: e in dead ==> CountIn(m, n, e) == 0
    ensures DropBuckets(m, dead) == m
  {
    forall n | n in m ensures Keep(m[n], dead) == m[n] {
      forall i | 0 <= i < |m[n]| ensures m[n][i] !in dead {
        assert m[n][i] in multiset(m[n]);
        assert CountIn(m, n, m[n][i]) > 0;
      }
      KeepAll(m[n], dead);
    }
  }

  lemma CleanDropsNothing(run: Run)
    requires run.Mirrored()
    ensures DropOwn(run) == run <==> run.EdgeClean()
  {
    var dead := run.tombstonedEdges;
    if run.EdgeClean() {
      forall n, e | e in dead
        ensures CountIn(run.edgesBySrc, n, e) == 0 && CountIn(run.edgesByDst, n, e) == 0
      {
        assert run.Count(e) == 0;
        assert CountIn(run.edgesBySrc, e.src, e) == CountIn(run.edgesByDst, e.dst, e);
      }
      DropNothing(run.edgesBySrc, dead);
      DropNothing(run.edgesByDst, dead);
    }
    if DropOwn(run) == run {
      forall e: EdgeKey | e in dead ensures run.Count(e) == 0 {
        if e.src in run.edgesBySrc { KeepCounts(run.edgesBySrc[e.src], dead); }
      }
    }
  }

  /** The replayed run is the published run exactly when no published edge is in its own tombstones. */
  lemma CommitReplayIff(img: Image, c: CommitLog, txid: u64)
    requires img.Valid() && Lists(c, img)
    ensures SameRun(Freeze(Replayed(c), txid), Freeze(img, txid)) <==> Freeze(img, txid).EdgeClean()
  {
    hide Lists, Replayed, SortBuckets, DropBuckets;
    CommitReplay(img, c, txid);
    FreezeMirrored(img, txid);
    CleanDropsNothing(Freeze(img, txid));
  }

  /** Deleting an edge and creating it again in one transaction publishes an edge that replay loses. */
  lemma RecreatedEdgeIsLost(e: EdgeKey)
    ensures var ops := [TombstoneEdge(e.src, e.rel, e.dst), CreateEdge(e.src, e.rel, e.dst)];
            var img := ApplyAll(ops, EmptyImage);
            && img.Valid() && img.Count(e) == 1
            && forall c :: Lists(c, img) ==> Replayed(c).Count(e) == 0
  {
    hide CountIn, Lists, Replayed;
    EmptyImageValid();
    var dead, live := TombstoneEdge(e.src, e.rel, e.dst), CreateEdge(e.src, e.rel, e.dst);
    TombstoneKeeps(EmptyImage, e);
    CreateKeeps(Apply(EmptyImage, dead), e);
    ApplyFirst(dead, [live], EmptyImage);
    ApplyFirst(live, [], Apply(EmptyImage, dead));
    assert [dead] + [live] == [dead, live] && [live] + [] == [live];
    var img := ApplyAll([dead, live], EmptyImage);
    ApplyNone(img);
    assert e in img.tombstonedEdges;
    forall c | Lists(c, img) ensures Replayed(c).Count(e) == 0 { ReplaySections(c, img); }
  }

  // ---- What a sequence of operations leaves in the buffer --------------------------------------

  lemma SetMarks<K>(t: PropTable<K>, k: K, key: Utf8, v: PropertyValue, k': K, key': Utf8)
    ensures SetProp(t, k, key, v).Marked(k', key') == if k' == k && key' == key then SetTo(v) else t.Marked(k', key')
  {
  }

  lemma RemoveMarks<K>(t: PropTable<K>, k: K, key: Utf8, k': K, key': Utf8)
    ensures RemoveProp(t, k, key).Marked(k', key') == if k' == k && key' == key then Gone else t.Marked(k', key')
  {
  }

  /** Copies of `e`: one per creation since it was last deleted. */
  function LiveCopies(ops: seq<WalRecord>, e: EdgeKey): nat {
    if ops == [] then 0
    else
      var front := LiveCopies(ops[..|ops| - 1], e);
      match ops[|ops| - 1]
      case CreateEdge(src, rel, dst) => if EdgeKey(src, rel, dst) == e then front + 1 else front
      case TombstoneEdge(src, rel, dst) => if EdgeKey(src, rel, dst) == e then 0 else front
      case _ => front
  }

  /** What the last operation on the node's property left. */
  function LastNodeMark(ops: seq<WalRecord>, n: NodeId, key: Utf8): Mark {
    if ops == [] then Unset
    else
      var front := LastNodeMark(ops[..|ops| - 1], n, key);
      match ops[|ops| - 1]
      case SetNodeProperty(n', key', v) => if n' == n && key' == key then SetTo(v) else front
      case RemoveNodeProperty(n', key') => if n' == n && key' == key then Gone else front
      case _ => front
  }

  function LastEdgeMark(ops: seq<WalRecord>, e: EdgeKey, key: Utf8): Mark {
    if ops == [] then Unset
    else
      var front := LastEdgeMark(ops[..|ops| - 1], e, key);
      match ops[|ops| - 1]
      case SetEdgeProperty(src, rel, dst, key', v) => if EdgeKey(src, rel, dst) == e && key' == key then SetTo(v) else front
      case RemoveEdgeProperty(src, rel, dst, key') => if EdgeKey(src, rel, dst) == e && key' == key then Gone else front
      case _ => front
  }

  lemma ApplySnoc(ops: seq<WalRecord>, img: Image)
    requires ops != []
    ensures var n := |ops| - 1; ApplyAll(ops, img) == Apply(ApplyAll(ops[..n], img), ops[n])
  {
    hide Apply;
    var n := |ops| - 1;
    assert ops == ops[..n] + [ops[n]] && [ops[n]][1..] == [];
    ApplyAllConcat(ops[..n], [ops[n]], img);
    ApplyNone(Apply(ApplyAll(ops[..n], img), ops[n]));
  }

  lemma CountStep(img: Image, r: WalRecord, e: EdgeKey)
    requires img.Valid()
    ensures Apply(img, r).Count(e) == match r
              case CreateEdge(src, rel, dst) => img.Count(e) + (if EdgeKey(src, rel, dst) == e then 1 else 0)
              case TombstoneEdge(src, rel, dst) => if EdgeKey(src, rel, dst) == e then 0 else img.Count(e)
              case _ => img.Count(e)
  {
    hide CountIn, Push, Retain;
    match r
    case CreateEdge(src, rel, dst) => CreateKeeps(img, EdgeKey(src, rel, dst));
    case TombstoneEdge(src, rel, dst) => TombstoneKeeps(img, EdgeKey(src, rel, dst));
    case _ =>
  }

  /** After any operations the buffer holds as many copies of an edge as were created since it was last deleted. */
  lemma {:induction false} BufferedEdges(ops: seq<WalRecord>, e: EdgeKey)
    ensures ApplyAll(ops, EmptyImage).Valid() && ApplyAll(ops, EmptyImage).Count(e) == LiveCopies(ops, e)
    ensures e in ApplyAll(ops, EmptyImage).tombstonedEdges <==> TombstoneEdge(e.src, e.rel, e.dst) in ops
  {
    hide CountIn, Apply, Image.Valid;
    EmptyImageValid();
    ApplyAllKeeps(ops, EmptyImage);
    if ops == [] {
      EmptyCount(e);
    } else {
      var n := |ops| - 1;
      ApplySnoc(ops, EmptyImage);
      BufferedEdges(ops[..n], e);
      CountStep(ApplyAll(ops[..n], EmptyImage), ops[n], e);
      DeadStep(ApplyAll(ops[..n], EmptyImage), ops[n], e);
      assert ops == ops[..n] + [ops[n]];
    }
  }

  lemma EmptyCount(e: EdgeKey)
    ensures EmptyImage.Count(e) == 0
  {
  }

  lemma DeadStep(img: Image, r: WalRecord, e: EdgeKey)
    ensures e in Apply(img, r).tombstonedEdges <==> e in img.tombstonedEdges || r == TombstoneEdge(e.src, e.rel, e.dst)
  {
  }

  lemma NodeMarkStep(img: Image, r: WalRecord, n: NodeId, key: Utf8)
    ensures Apply(img, r).nodeProps.Marked(n, key) == match r
              case SetNodeProperty(n', key', v) => if n' == n && key' == key then SetTo(v) else img.nodeProps.Marked(n, key)
              case RemoveNodeProperty(n', key') => if n' == n && key' == key then Gone else img.nodeProps.Marked(n, key)
              case _ => img.nodeProps.Marked(n, key)
  {
    hide SetProp, RemoveProp, PropTable.Marked;
    match r
    case SetNodeProperty(n', key', v) => SetMarks(img.nodeProps, n', key', v, n, key);
    case RemoveNodeProperty(n', key') => RemoveMarks(img.nodeProps, n', key', n, key);
    case _ =>
  }

  lemma DeadNodeStep(img: Image, r: WalRecord, n: NodeId)
    ensures n in Apply(img, r).tombstonedNodes <==> n in img.tombstonedNodes || r == TombstoneNode(n)
  {
  }

  /** The last operation on a node's property decides it; a node is tombstoned once any operation says so. */
  lemma {:induction false} BufferedNode(ops: seq<WalRecord>, n: NodeId, key: Utf8)
    ensures ApplyAll(ops, EmptyImage).nodeProps.Marked(n, key) == LastNodeMark(ops, n, key)
    ensures n in ApplyAll(ops, EmptyImage).tombstonedNodes <==> TombstoneNode(n) in ops
  {
    if ops != [] {
      hide Apply, PropTable.Marked;
      var k := |ops| - 1;
      ApplySnoc(ops, EmptyImage);
      BufferedNode(ops[..k], n, key);
      assert ops == ops[..k] + [ops[k]];
      NodeMarkStep(ApplyAll(ops[..k], EmptyImage), ops[k], n, key);
      DeadNodeStep(ApplyAll(ops[..k], EmptyImage), ops[k], n);
    }
  }

  lemma EdgeMarkStep(img: Image, r: WalRecord, e: EdgeKey, key: Utf8)
    ensures Apply(img, r).edgeProps.Marked(e, key) == match r
              case SetEdgeProperty(src, rel, dst, key', v) =>
                if EdgeKey(src, rel, dst) == e && key' == key then SetTo(v) else img.edgeProps.Marked(e, key)
              case RemoveEdgeProperty(src, rel, dst, key') =>
                if EdgeKey(src, rel, dst) == e && key' == key then Gone else img.edgeProps.Marked(e, key)
              case _ => img.edgeProps.Marked(e, key)
  {
    hide SetProp, RemoveProp, PropTable.Marked;
    match r
    case SetEdgeProperty(src, rel, dst, key', v) => SetMarks(img.edgeProps, EdgeKey(src, rel, dst), key', v, e, key);
    case RemoveEdgeProperty(src, rel, dst, key') => RemoveMarks(img.edgeProps, EdgeKey(src, rel, dst), key', e, key);
    case _ =>
  }

  /** Likewise for a property of an edge. */
  lemma {:induction false} BufferedEdgeProperty(ops: seq<WalRecord>, e: EdgeKey, key: Utf8)
    ensures ApplyAll(ops, EmptyImage).edgeProps.Marked(e, key) == LastEdgeMark(ops, e, key)
  {
    if ops != [] {
      hide Apply, PropTable.Marked;
      var k := |ops| - 1;
      ApplySnoc(ops, EmptyImage);
      BufferedEdgeProperty(ops[..k], e, key);
      EdgeMarkStep(ApplyAll(ops[..k], EmptyImage), ops[k], e, key);
    }
  }

  // ---- The run of a transaction in terms of its operations -----------------------------------------

  /** The run says exactly what the operations of its transaction say. */
  ghost predicate Tells(run: Run, txid: u64, ops: seq<WalRecord>) {
    && run.txid == txid && run.Mirrored() && run.nodeProps.Decided() && run.edgeProps.Decided()
    && (forall e: EdgeKey :: run.Count(e) == LiveCopies(ops, e))
    && (forall n: NodeId :: n in run.tombstonedNodes <==> TombstoneNode(n) in ops)
    && (forall e: EdgeKey :: e in run.tombstonedEdges <==> TombstoneEdge(e.src, e.rel, e.dst) in ops)
    && (forall n: NodeId, key: Utf8 :: run.nodeProps.Marked(n, key) == LastNodeMark(ops, n, key))
    && (forall e: EdgeKey, key: Utf8 :: run.edgeProps.Marked(e, key) == LastEdgeMark(ops, e, key))
  }

  /** `freeze_into_run` loses nothing of the transaction and adds nothing to it. */
  lemma FrozenTells(ops: seq<WalRecord>, txid: u64)
    ensures ApplyAll(ops, EmptyImage).Valid() && Tells(Freeze(ApplyAll(ops, EmptyImage), txid), txid, ops)
  {
    hide ApplyAll, SortBuckets, Run.Mirrored, Run.Count, PropTable.Marked, LiveCopies, LastNodeMark, LastEdgeMark;
    var img := ApplyAll(ops, EmptyImage);
    BufferedEdges(ops, EdgeKey(0, 0, 0));
    FreezeMirrored(img, txid);
    var run := Freeze(img, txid);
    forall e: EdgeKey
      ensures run.Count(e) == LiveCopies(ops, e) && (e in run.tombstonedEdges <==> TombstoneEdge(e.src, e.rel, e.dst) in ops)
    {
      BufferedEdges(ops, e);
    }
    forall n: NodeId, key: Utf8
      ensures run.nodeProps.Marked(n, key) == LastNodeMark(ops, n, key) && (n in run.tombstonedNodes <==> TombstoneNode(n) in ops)
    {
      BufferedNode(ops, n, key);
    }
    forall n: NodeId ensures n in run.tombstonedNodes <==> TombstoneNode(n) in ops { BufferedNode(ops, n, []); }
    forall e: EdgeKey, key: Utf8 ensures run.edgeProps.Marked(e, key) == LastEdgeMark(ops, e, key) { BufferedEdgeProperty(ops, e, key); }
  }

  /** The operations leave nothing behind: no edge, no tombstone, no property set or removed. */
  ghost predicate SaysNothing(ops: seq<WalRecord>) {
    && (forall e: EdgeKey :: LiveCopies(ops, e) == 0 && TombstoneEdge(e.src, e.rel, e.dst) !in ops)
    && (forall n: NodeId :: TombstoneNode(n) !in ops)
    && (forall n: NodeId, key: Utf8 :: LastNodeMark(ops, n, key) == Unset)
    && (forall e: EdgeKey, key: Utf8 :: LastEdgeMark(ops, e, key) == Unset)
  }

  /** A run is skipped as empty only if its transaction left nothing behind. */
  lemma EmptyIff(run: Run, txid: u64, ops: seq<WalRecord>)
    requires Tells(run, txid, ops) && run.nodeProps.Valid() && run.edgeProps.Valid()
    ensures run.IsEmpty() <==> SaysNothing(ops)
  {
    hide LiveCopies, LastNodeMark, LastEdgeMark;
    if run.IsEmpty() {
      forall e: EdgeKey ensures LiveCopies(ops, e) == 0 { assert run.Count(e) == 0; }
      forall n: NodeId, key: Utf8 ensures LastNodeMark(ops, n, key) == Unset { assert run.nodeProps.Marked(n, key) == Unset; }
      forall e: EdgeKey, key: Utf8 ensures LastEdgeMark(ops, e, key) == Unset { assert run.edgeProps.Marked(e, key) == Unset; }
    }
    if !run.IsEmpty() { NotEmptySays(run, txid, ops); }
  }

  /** The published runs after a transaction: its own run in front, or nothing new if it left nothing behind. */
  ghost predicate Publishes(before: seq<Run>, after: seq<Run>, txid: u64, ops: seq<WalRecord>) {
    if SaysNothing(ops) then after == before
    else after != [] && after[1..] == before && Tells(after[0], txid, ops)
  }

  lemma FrozenPublishes(before: seq<Run>, txid: u64, ops: seq<WalRecord>)
    ensures var run := Freeze(ApplyAll(ops, EmptyImage), txid);
            Publishes(before, if run.IsEmpty() then before else [run] + before, txid, ops)
  {
    hide Tells, SaysNothing, Run.IsEmpty, ApplyAll, SortBuckets;
    FrozenTells(ops, txid);
    EmptyIff(Freeze(ApplyAll(ops, EmptyImage), txid), txid, ops);
  }

  lemma NotEmptySays(run: Run, txid: u64, ops: seq<WalRecord>)
    requires Tells(run, txid, ops) && !run.IsEmpty() && run.nodeProps.Valid() && run.edgeProps.Valid()
    ensures !SaysNothing(ops)
  {
    hide LiveCopies, LastNodeMark, LastEdgeMark;
    BothOrNone(run);
    if run.edgesBySrc != map[] {
      var e := SomeEdge(run.edgesBySrc, Outgoing);
      assert LiveCopies(ops, e) == run.Count(e) > 0;
    } else if run.tombstonedNodes != {} {
      var n :| n in run.tombstonedNodes;
      assert TombstoneNode(n) in ops;
    } else if run.tombstonedEdges != {} {
      var e :| e in run.tombstonedEdges;
      assert TombstoneEdge(e.src, e.rel, e.dst) in ops;
    } else if !run.nodeProps.Empty() {
      var n, key := SomeMark(run.nodeProps);
      assert LastNodeMark(ops, n, key) != Unset;
    } else {
      var e, key := SomeMark(run.edgeProps);
      assert LastEdgeMark(ops, e, key) != Unset;
    }
  }

  lemma BothOrNone(run: Run)
    requires run.Mirrored()
    ensures run.edgesBySrc == map[] <==> run.edgesByDst == map[]
  {
    if run.edgesBySrc != map[] {
      var e := SomeEdge(run.edgesBySrc, Outgoing);
      assert CountIn(run.edgesByDst, e.dst, e) > 0;
    }
    if run.edgesByDst != map[] {
      var e := SomeEdge(run.edgesByDst, Incoming);
      assert CountIn(run.edgesBySrc, e.src, e) > 0;
    }
  }

  lemma SomeEdge(m: map<NodeId, seq<EdgeKey>>, dir: Direction) returns (e: EdgeKey)
    requires Pure(m, dir) && m != map[]
    ensures CountIn(m, dir.Pivot(e), e) > 0
  {
    var n :| n in m;
    e := m[n][0];
    assert CountIn(m, n, e) > 0;
  }

  lemma SomeMark<K(!new)>(t: PropTable<K>) returns (k: K, key: Utf8)
    requires t.Valid() && !t.Empty()
    ensures t.Marked(k, key) != Unset
  {
    if t.values != map[] {
      k :| k in t.values;
      key :| key in t.values[k];
    } else {
      k :| k in t.removed;
      key :| key in t.removed[k];
    }
  }

  // ---- The buffer as an object --------------------------------------------------------------

  class MemTable {
    var out: map<NodeId, seq<EdgeKey>>
    var in_: map<NodeId, seq<EdgeKey>>
    var tombstonedNodes: set<NodeId>
    var tombstonedEdges: set<EdgeKey>
    var nodeProps: PropTable<NodeId>
    var edgeProps: PropTable<EdgeKey>

    function Contents(): Image
      reads this
    {
      Image(out, in_, tombstonedNodes, tombstonedEdges, nodeProps, edgeProps)
    }

    constructor ()
      ensures Contents() == EmptyImage
    {
      out, in_ := map[], map[];
      tombstonedNodes, tombstonedEdges := {}, {};
      nodeProps, edgeProps := PropTable(map[], map[]), PropTable(map[], map[]);
    }

    method Create(src: NodeId, rel: u32, dst: NodeId)
      modifies this
      ensures Contents() == Apply(old(Contents()), CreateEdge(src, rel, dst))
    {
      var key := EdgeKey(src, rel, dst);
      out := out[src := (if src in out then out[src] else []) + [key]];
      in_ := in_[dst := (if dst in in_ then in_[dst] else []) + [key]];
    }

    method TombstoneOneNode(node: NodeId)
      modifies this
      ensures Contents() == Apply(old(Contents()), TombstoneNode(node))
    {
      tombstonedNodes := tombstonedNodes + {node};
    }

    method TombstoneOneEdge(src: NodeId, rel: u32, dst: NodeId)
      modifies this
      ensures Contents() == Apply(old(Contents()), TombstoneEdge(src, rel, dst))
    {
      var key := EdgeKey(src, rel, dst);
      if src in out {
        var edges := Keep(out[src], {key});
        out := if edges == [] then out - {src} else out[src := edges];
      }
      if dst in in_ {
        var edges := Keep(in_[dst], {key});
        in_ := if edges == [] then in_ - {dst} else in_[dst := edges];
      }
      tombstonedEdges := tombstonedEdges + {key};
    }

    /** `set_node_property`: a lookup now gives the value, a removal mark is gone, and every other property is as it was. */
    method SetNode(node: NodeId, key: Utf8, value: PropertyValue)
      modifies this`nodeProps
      ensures Contents() == Apply(old(Contents()), SetNodeProperty(node, key, value))
      ensures nodeProps.Marked(node, key) == SetTo(value)
      ensures forall o: NodeId, k: Utf8 :: o != node || k != key ==> nodeProps.Marked(o, k) == old(nodeProps).Marked(o, k)
      ensures old(nodeProps).Valid() ==> nodeProps.Valid()
    {
      hide SetProp, RemoveProp, PropTable.Marked, PropTable.Valid;
      nodeProps := SetProp(nodeProps, node, key, value);
      if old(nodeProps).Valid() { PropKeeps(old(nodeProps), node, key, value); }
      forall o: NodeId, k: Utf8 ensures nodeProps.Marked(o, k) == if o == node && k == key then SetTo(value) else old(nodeProps).Marked(o, k) {
        SetMarks(old(nodeProps), node, key, value, o, k);
      }
    }

    /** `remove_node_property`: a lookup now finds the key removed, and every other property is as it was. */
    method RemoveNode(node: NodeId, key: Utf8)
      modifies this`nodeProps
      ensures Contents() == Apply(old(Contents()), RemoveNodeProperty(node, key))
      ensures nodeProps.Marked(node, key) == Gone
      ensures forall o: NodeId, k: Utf8 :: o != node || k != key ==> nodeProps.Marked(o, k) == old(nodeProps).Marked(o, k)
      ensures old(nodeProps).Valid() ==> nodeProps.Valid()
    {
      hide SetProp, RemoveProp, PropTable.Marked, PropTable.Valid;
      nodeProps := RemoveProp(nodeProps, node, key);
      if old(nodeProps).Valid() { PropKeeps(old(nodeProps), node, key, Null); }
      forall o: NodeId, k: Utf8 ensures nodeProps.Marked(o, k) == if o == node && k == key then Gone else old(nodeProps).Marked(o, k) {
        RemoveMarks(old(nodeProps), node, key, o, k);
      }
    }

    /** `set_edge_property`: a lookup now gives the value, a removal mark is gone, and every other property is as it was. */
    method SetEdge(src: NodeId, rel: u32, dst: NodeId, key: Utf8, value: PropertyValue)
      modifies this`edgeProps
      ensures Contents() == Apply(old(Contents()), SetEdgeProperty(src, rel, dst, key, value))
      ensures edgeProps.Marked(EdgeKey(src, rel, dst), key) == SetTo(value)
      ensures forall o: EdgeKey, k: Utf8 :: o != EdgeKey(src, rel, dst) || k != key ==> edgeProps.Marked(o, k) == old(edgeProps).Marked(o, k)
      ensures old(edgeProps).Valid() ==> edgeProps.Valid()
    {
      hide SetProp, RemoveProp, PropTable.Marked, PropTable.Valid;
      edgeProps := SetProp(edgeProps, EdgeKey(src, rel, dst), key, value);
      if old(edgeProps).Valid() { PropKeeps(old(edgeProps), EdgeKey(src, rel, dst), key, value); }
      forall o: EdgeKey, k: Utf8 ensures edgeProps.Marked(o, k) == if o == EdgeKey(src, rel, dst) && k == key then SetTo(value) else old(edgeProps).Marked(o, k) {
        SetMarks(old(edgeProps), EdgeKey(src, rel, dst), key, value, o, k);
      }
    }

    /** `remove_edge_property`: a lookup now finds the key removed, and every other property is as it was. */
    method RemoveEdge(src: NodeId, rel: u32, dst: NodeId, key: Utf8)
      modifies this`edgeProps
      ensures Contents() == Apply(old(Contents()), RemoveEdgeProperty(src, rel, dst, key))
      ensures edgeProps.Marked(EdgeKey(src, rel, dst), key) == Gone
      ensures forall o: EdgeKey, k: Utf8 :: o != EdgeKey(src, rel, dst) || k != key ==> edgeProps.Marked(o, k) == old(edgeProps).Marked(o, k)
      ensures old(edgeProps).Valid() ==> edgeProps.Valid()
    {
      hide SetProp, RemoveProp, PropTable.Marked, PropTable.Valid;
      edgeProps := RemoveProp(edgeProps, EdgeKey(src, rel, dst), key);
      if old(edgeProps).Valid() { PropKeeps(old(edgeProps), EdgeKey(src, rel, dst), key, Null); }
      forall o: EdgeKey, k: Utf8 ensures edgeProps.Marked(o, k) == if o == EdgeKey(src, rel, dst) && k == key then Gone else old(edgeProps).Marked(o, k) {
        RemoveMarks(old(edgeProps), EdgeKey(src, rel, dst), key, o, k);
      }
    }

    /** The `*_for_wal` extractions and the run iterators that `commit` walks. */
    method ListForWal() returns (c: CommitLog)
      requires Contents().Valid()
      ensures Lists(c, Contents())
    {
      var edges := ListEdges(out);
      var deadNodes := ListSet(tombstonedNodes);
      var deadEdges := ListSet(tombstonedEdges);
      var nodeSets := ListSets(nodeProps);
      var nodeRemovals := ListRemovals(nodeProps);
      var edgeSets := ListSets(edgeProps);
      var edgeRemovals := ListRemovals(edgeProps);
      c := CommitLog(edges, deadNodes, deadEdges, nodeSets, nodeRemovals, edgeSets, edgeRemovals);
    }
  }

  method ListSet<T(==)>(s: set<T>) returns (q: seq<T>)
    ensures (set x | x in q) == s
  {
    var left := s;
    q := [];
    while left != {}
      invariant left <= s && (set x | x in q) == s - left
      decreases left
    {
      var x :| x in left;
      SeqUnion(q, [x]);
      left, q := left - {x}, q + [x];
    }
  }

  method ListSets<K(==)>(t: PropTable<K>) returns (ps: seq<PropSet<K>>)
    ensures (set p | p in ps) == AllSets(t)
  {
    var owners := t.values.Keys;
    ps := [];
    while owners != {}
      invariant owners <= t.values.Keys
      invariant (set p | p in ps) == set p | p in AllSets(t) && p.owner !in owners
      decreases owners
    {
      var k :| k in owners;
      var keys := ListSet(t.values[k].Keys);
      var some: seq<PropSet<K>> := seq(|keys|, i requires 0 <= i < |keys| =>
        assert keys[i] in set x | x in keys; PropSet(k, keys[i], t.values[k][keys[i]]));
      OwnerSets(t, k, keys, some);
      SeqUnion(ps, some);
      owners, ps := owners - {k}, ps + some;
    }
  }

  lemma OwnerSets<K>(t: PropTable<K>, k: K, keys: seq<Utf8>, some: seq<PropSet<K>>)
    requires k in t.values && (set x | x in keys) == t.values[k].Keys && |some| == |keys|
    requires forall i :: 0 <= i < |keys| ==> keys[i] in t.values[k] && some[i] == PropSet(k, keys[i], t.values[k][keys[i]])
    ensures (set p | p in some) == set p | p in AllSets(t) && p.owner == k
  {
    forall p | p in AllSets(t) && p.owner == k ensures p in some {
      assert p.key in set x | x in keys;
      var i :| 0 <= i < |keys| && keys[i] == p.key;
      assert some[i] == p;
    }
  }

  method ListRemovals<K(==)>(t: PropTable<K>) returns (ps: seq<PropKey<K>>)
    ensures (set p | p in ps) == AllRemovals(t)
  {
    var owners := t.removed.Keys;
    ps := [];
    while owners != {}
      invariant owners <= t.removed.Keys
      invariant (set p | p in ps) == set p | p in AllRemovals(t) && p.owner !in owners
      decreases owners
    {
      var k :| k in owners;
      var keys := ListSet(t.removed[k]);
      var some: seq<PropKey<K>> := seq(|keys|, i requires 0 <= i < |keys| => PropKey(k, keys[i]));
      OwnerRemovals(t, k, keys, some);
      SeqUnion(ps, some);
      owners, ps := owners - {k}, ps + some;
    }
  }

  lemma OwnerRemovals<K>(t: PropTable<K>, k: K, keys: seq<Utf8>, some: seq<PropKey<K>>)
    requires k in t.removed && (set x | x in keys) == t.removed[k] && |some| == |keys|
    requires forall i :: 0 <= i < |keys| ==> some[i] == PropKey(k, keys[i])
    ensures (set p | p in some) == set p | p in AllRemovals(t) && p.owner == k
  {
    forall p | p in some ensures p in AllRemovals(t) && p.owner == k {
      var i :| 0 <= i < |some| && some[i] == p;
      assert keys[i] in set x | x in keys;
    }
    forall p | p in AllRemovals(t) && p.owner == k ensures p in some {
      assert p.key in set x | x in keys;
      var i :| 0 <= i < |keys| && keys[i] == p.key;
      assert some[i] == p;
    }
  }

  lemma SeqUnion<T>(a: seq<T>, b: seq<T>)
    ensures (set x | x in a + b) == (set x | x in a) + set x | x in b
  {
  }

  /** `iter_edges`: every bucket in turn. */
  method ListEdges(m: map<NodeId, seq<EdgeKey>>) returns (es: seq<EdgeKey>)
    requires Pure(m, Outgoing)
    ensures forall e: EdgeKey :: multiset(es)[e] == CountIn(m, e.src, e)
  {
    var left := m.Keys;
    es := [];
    while left != {}
      invariant left <= m.Keys
      invariant forall e: EdgeKey :: multiset(es)[e] == if e.src in left then 0 else CountIn(m, e.src, e)
      decreases left
    {
      var n :| n in left;
      forall e: EdgeKey
        ensures multiset(m[n])[e] == if e.src == n then CountIn(m, e.src, e) else 0
      {
        assert CountIn(m, n, e) == multiset(m[n])[e];
      }
      left, es := left - {n}, es + m[n];
    }
  }
}
