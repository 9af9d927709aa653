/** Edges, immutable runs, and what a reader can see of a run. */
module Graph {
  import opened Bytes
  import opened PropertyValues
  import opened Sorting

  type NodeId = u32

  datatype EdgeKey = EdgeKey(src: NodeId, rel: u32, dst: NodeId)

  datatype Direction = Outgoing | Incoming {
    /** The endpoint a scan in this direction starts from. */
    function Pivot(e: EdgeKey): NodeId { if Outgoing? then e.src else e.dst }

    /** The endpoint at the other end. */
    function Far(e: EdgeKey): NodeId { if Outgoing? then e.dst else e.src }
  }

  /** The derived order on edge keys: source, then relationship type, then destination. */
  predicate EdgeLe(a: EdgeKey, b: EdgeKey) {
    a.src < b.src || (a.src == b.src && (a.rel < b.rel || (a.rel == b.rel && a.dst <= b.dst)))
  }

  /** The order of the reverse index: destination, relationship type, source. */
  predicate EdgeLeByDst(a: EdgeKey, b: EdgeKey) {
    a.dst < b.dst || (a.dst == b.dst && (a.rel < b.rel || (a.rel == b.rel && a.src <= b.src)))
  }

  lemma EdgeOrders()
    ensures TotalOrder(EdgeLe) && TotalOrder(EdgeLeByDst)
  {
  }

  /** What one transaction says about a property: nothing, a value, or that it is removed. */
  datatype Mark = Unset | SetTo(value: PropertyValue) | Gone

  /** Properties set and removed by one transaction, for owners of either kind (nodes or edges). */
  datatype PropTable<!K> = PropTable(values: map<K, map<Utf8, PropertyValue>>, removed: map<K, set<Utf8>>)
  {
    function Props(k: K): map<Utf8, PropertyValue> { if k in values then values[k] else map[] }

    function RemovedKeys(k: K): set<Utf8> { if k in removed then removed[k] else {} }

    function Marked(k: K, key: Utf8): Mark {
      if key in Props(k) then SetTo(Props(k)[key]) else if key in RemovedKeys(k) then Gone else Unset
    }

    predicate Empty() { values == map[] && removed == map[] }

    /** No key is both set and removed. */
    ghost predicate Decided() { forall k :: k in values ==> values[k].Keys !! RemovedKeys(k) }

    /** Kept by every operation: no empty value maps, no key both set and removed, and nothing
        recorded as removed without a removed or a set key to show for it. */
    ghost predicate Valid() {
      && (forall k :: k in values ==> values[k] != map[])
      && (forall k :: k in values && k in removed ==> values[k].Keys !! removed[k])
      && (forall k :: k in removed && removed[k] == {} ==> k in values)
    }
  }

  /** An immutable committed transaction image (`L0Run`). */
  datatype Run = Run(
    txid: u64,
    edgesBySrc: map<NodeId, seq<EdgeKey>>,
    edgesByDst: map<NodeId, seq<EdgeKey>>,
    tombstonedNodes: set<NodeId>,
    tombstonedEdges: set<EdgeKey>,
    nodeProps: PropTable<NodeId>,
    edgeProps: PropTable<EdgeKey>)
  {
    predicate IsEmpty() {
      && edgesBySrc == map[] && edgesByDst == map[]
      && tombstonedNodes == {} && tombstonedEdges == {}
      && nodeProps.Empty() && edgeProps.Empty()
    }

    function EdgesFor(dir: Direction, n: NodeId): seq<EdgeKey> {
      Bucket(if dir.Outgoing? then edgesBySrc else edgesByDst, n)
    }

    /** Copies of `e` in the run. */
    ghost function Count(e: EdgeKey): nat { CountIn(edgesBySrc, e.src, e) }

    /** Both adjacency maps hold the same edges, each under its own endpoint. */
    ghost predicate Mirrored() {
      && Pure(edgesBySrc, Outgoing) && Pure(edgesByDst, Incoming)
      && forall e: EdgeKey :: CountIn(edgesBySrc, e.src, e) == CountIn(edgesByDst, e.dst, e)
    }

    /** No edge of the run is tombstoned in the same run. */
    ghost predicate EdgeClean() { forall e: EdgeKey :: e in tombstonedEdges ==> Count(e) == 0 }

    /** No edge of the run has an endpoint tombstoned in the same run. */
    ghost predicate NodeClean() {
      forall e: EdgeKey :: e.src in tombstonedNodes || e.dst in tombstonedNodes ==> Count(e) == 0
    }
  }

  function Bucket(m: map<NodeId, seq<EdgeKey>>, n: NodeId): seq<EdgeKey> {
    if n in m then m[n] else []
  }

  /** Copies of `e` in the bucket of `n`. */
  ghost function CountIn(m: map<NodeId, seq<EdgeKey>>, n: NodeId, e: EdgeKey): nat {
    multiset(Bucket(m, n))[e]
  }

  /** Every bucket is non-empty and holds only edges of its own endpoint. */
  ghost predicate Pure(m: map<NodeId, seq<EdgeKey>>, dir: Direction) {
    && (forall n :: n in m ==> m[n] != [])
    && (forall n, e :: CountIn(m, n, e) > 0 ==> dir.Pivot(e) == n)
  }

  /** Two runs no reader can tell apart. */
  ghost predicate SameRun(a: Run, b: Run) {
    && a.txid == b.txid
    && a.edgesBySrc == b.edgesBySrc && a.edgesByDst == b.edgesByDst
    && a.tombstonedNodes == b.tombstonedNodes && a.tombstonedEdges == b.tombstonedEdges
    && SameProps(a.nodeProps, b.nodeProps) && SameProps(a.edgeProps, b.edgeProps)
  }

  ghost predicate SameProps<K(!new)>(a: PropTable<K>, b: PropTable<K>) {
    && a.values == b.values
    && a.Empty() == b.Empty()
    && forall k :: a.RemovedKeys(k) == b.RemovedKeys(k)
  }

  ghost predicate SameRuns(a: seq<Run>, b: seq<Run>) {
    |a| == |b| && forall i :: 0 <= i < |a| ==> SameRun(a[i], b[i])
  }
}
