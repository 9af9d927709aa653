/** When the node records of any log, whoever wrote it, replay over an id map, and what nodes they leave. */
module NodeReplay {
  import opened Bytes
  import opened Wrappers
  import opened WalRecords
  import opened IdMaps

  /** The external ids that records create. */
  ghost function Named(ops: seq<WalRecord>): set<u64> {
    set i | 0 <= i < |ops| && ops[i].CreateNode? :: ops[i].externalId
  }

  /** How many of them the map does not know. */
  ghost function Fresh(ids: Ids, ops: seq<WalRecord>): nat { |Named(ops) - ids.e2i.Keys| }

  /** Record `j` is the first that creates `x`. */
  ghost predicate First(ops: seq<WalRecord>, j: int, x: u64) {
    0 <= j < |ops| && ops[j].CreateNode? && ops[j].externalId == x && x !in Named(ops[..j])
  }

  /** The number the next node gets after `ops`. */
  ghost function Number(ids: Ids, ops: seq<WalRecord>): nat {
    if |ids.i2e| + Fresh(ids, ops) < 0xFFFF_FFFF then |ids.i2e| + Fresh(ids, ops) else 0xFFFF_FFFF
  }

  /**
   * Record `k` can be applied: a creation repeats what the map knows or what its first mention was given, which is the next
   * number then; a label change names a node there is by then.
   */
  ghost predicate Applies(ids: Ids, ops: seq<WalRecord>, k: int)
    requires 0 <= k < |ops|
  {
    match ops[k]
    case CreateNode(x, _, internal) =>
      if x in ids.e2i then ids.e2i[x] == internal
      else exists j :: j <= k && First(ops, j, x) && internal == Number(ids, ops[..j])
    case AddNodeLabel(node, _) => node < |ids.i2l| + Fresh(ids, ops[..k])
    case RemoveNodeLabel(node, _) => node < |ids.i2l| + Fresh(ids, ops[..k])
    case _ => true
  }

  /** The map after `ops`: what it knew, and one node more for each fresh external id, in the order of first mention. */
  ghost predicate Extended(ids: Ids, ops: seq<WalRecord>, c: Ids) {
    && c.e2i.Keys == ids.e2i.Keys + Named(ops)
    && (forall x :: x in ids.e2i ==> c.e2i[x] == ids.e2i[x])
    && (forall x, j :: First(ops, j, x) && x !in ids.e2i ==> c.e2i[x] == Number(ids, ops[..j]))
    && |c.i2l| == |ids.i2l| + Fresh(ids, ops) && |c.i2e| == |ids.i2e| + Fresh(ids, ops) && ids.i2e <= c.i2e
    && (forall x, j :: First(ops, j, x) && x !in ids.e2i ==>
          |ids.i2e| + Fresh(ids, ops[..j]) < |c.i2e| && c.i2e[|ids.i2e| + Fresh(ids, ops[..j])] == I2eRecord(x, ops[j].labelId, 0))
  }

  lemma NamedSnoc(ops: seq<WalRecord>, op: WalRecord)
    ensures Named(ops + [op]) == Named(ops) + if op.CreateNode? then {op.externalId} else {}
  {
    var more := ops + [op];
    forall x | x in Named(ops) ensures x in Named(more) {
      var i :| 0 <= i < |ops| && ops[i].CreateNode? && ops[i].externalId == x;
      assert more[i] == ops[i];
    }
    if op.CreateNode? { assert more[|ops|].externalId == op.externalId; }
    forall x | x in Named(more) ensures x in Named(ops) + if op.CreateNode? then {op.externalId} else {} {
      var i :| 0 <= i < |more| && more[i].CreateNode? && more[i].externalId == x;
      if i < |ops| { assert ops[i] == more[i]; }
    }
  }

  lemma FirstSnoc(ops: seq<WalRecord>, op: WalRecord, j: int, x: u64)
    ensures First(ops + [op], j, x) <==> First(ops, j, x) || (j == |ops| && op.CreateNode? && op.externalId == x && x !in Named(ops))
    ensures 0 <= j <= |ops| ==> (ops + [op])[..j] == ops[..j]
  {
    if 0 <= j <= |ops| { assert (ops + [op])[..j] == ops[..j]; }
    assert ops[..|ops|] == ops;
  }

  lemma {:induction false} FirstOf(ops: seq<WalRecord>, x: u64) returns (j: int)
    requires x in Named(ops)
    ensures First(ops, j, x)
  {
    var i :| 0 <= i < |ops| && ops[i].CreateNode? && ops[i].externalId == x;
    if x in Named(ops[..i]) {
      j := FirstOf(ops[..i], x);
      assert ops[..i][..j] == ops[..j];
    } else {
      j := i;
    }
  }

  lemma NotEarlier(ops: seq<WalRecord>, i: int, j: int, x: u64)
    requires First(ops, i, x) && 0 <= j <= |ops| && x !in Named(ops[..j])
    ensures j <= i
  {
    assert forall k :: 0 <= k < j ==> ops[..j][k] == ops[k];
  }

  lemma FirstOnce(ops: seq<WalRecord>, i: int, j: int, x: u64)
    requires First(ops, i, x) && First(ops, j, x)
    ensures i == j
  {
    NotEarlier(ops, i, j, x);
    NotEarlier(ops, j, i, x);
  }

  lemma FreshSnoc(ids: Ids, ops: seq<WalRecord>, op: WalRecord)
    ensures Fresh(ids, ops + [op]) == Fresh(ids, ops)
              + if op.CreateNode? && op.externalId !in ids.e2i && op.externalId !in Named(ops) then 1 else 0
  {
    hide Named;
    NamedSnoc(ops, op);
    if op.CreateNode? {
      OneMore(Named(ops), ids.e2i.Keys, op.externalId);
    } else {
      assert Named(ops + [op]) == Named(ops);
    }
  }

  lemma OneMore(named: set<u64>, known: set<u64>, x: u64)
    ensures |named + {x} - known| == |named - known| + if x !in known && x !in named then 1 else 0
  {
    if x !in known && x !in named {
      assert named + {x} - known == (named - known) + {x};
    } else {
      assert named + {x} - known == named - known;
    }
  }

  lemma AppliesSnoc(ids: Ids, ops: seq<WalRecord>, op: WalRecord)
    ensures forall k :: 0 <= k < |ops| ==> (Applies(ids, ops + [op], k) <==> Applies(ids, ops, k))
  {
    hide Number, Fresh;
    var more := ops + [op];
    forall k | 0 <= k < |ops| ensures Applies(ids, more, k) <==> Applies(ids, ops, k) {
      assert more[k] == ops[k] && more[..k] == ops[..k];
      if ops[k].CreateNode? {
        forall j | j <= k ensures (First(more, j, ops[k].externalId) <==> First(ops, j, ops[k].externalId)) && (0 <= j ==> more[..j] == ops[..j]) {
          FirstSnoc(ops, op, j, ops[k].externalId);
        }
      }
    }
  }

  /** One more record, over a map that is as it should be. */
  lemma StepDecides(ids: Ids, ops: seq<WalRecord>, op: WalRecord, c: Ids)
    requires |ids.i2l| == |ids.i2e| && Extended(ids, ops, c)
    ensures ReplayOp(c, op).Ok? <==> Applies(ids, ops + [op], |ops|)
  {
    hide Fresh;
    var more := ops + [op];
    assert more[..|ops|] == ops;
    if op.CreateNode? {
      var x := op.externalId;
      forall j ensures First(more, j, x) <==> First(ops, j, x) || (j == |ops| && x !in Named(ops)) { FirstSnoc(ops, op, j, x); }
      forall j | 0 <= j <= |ops| ensures more[..j] == ops[..j] { }
      if x in Named(ops) && x !in ids.e2i {
        var j := FirstOf(ops, x);
        forall i | First(more, i, x) ensures i == j { FirstOnce(ops, i, j, x); }
      }
    }
  }

  lemma StepExtends(ids: Ids, ops: seq<WalRecord>, op: WalRecord, c: Ids)
    requires |ids.i2l| == |ids.i2e| && Extended(ids, ops, c) && ReplayOp(c, op).Ok?
    ensures Extended(ids, ops + [op], ReplayOp(c, op).value)
  {
    hide Fresh, Named, First;
    var more, next := ops + [op], ReplayOp(c, op).value;
    NamedSnoc(ops, op);
    FreshSnoc(ids, ops, op);
    forall x, j | First(more, j, x) ensures First(ops, j, x) || (j == |ops| && op.CreateNode? && op.externalId == x && x !in Named(ops)) { FirstSnoc(ops, op, j, x); }
    forall x, j | First(more, j, x) ensures 0 <= j <= |ops| && more[..j] == ops[..j] && more[j].CreateNode? {
      FirstSnoc(ops, op, j, x);
      FirstAt(more, j, x);
    }
    forall x, j | First(ops, j, x) ensures 0 <= j < |ops| && more[j] == ops[j] && x in Named(ops) { FirstAt(ops, j, x); }
    assert more[..|ops|] == ops;
  }

  lemma FirstAt(ops: seq<WalRecord>, j: int, x: u64)
    requires First(ops, j, x)
    ensures 0 <= j < |ops| && ops[j].CreateNode? && ops[j].externalId == x && x in Named(ops)
  {
  }

  lemma NothingExtends(ids: Ids)
    requires |ids.i2l| == |ids.i2e|
    ensures Extended(ids, [], ids)
  {
    assert Named([]) == {};
    assert Named([]) - ids.e2i.Keys == {};
  }

  /** For every map and every log: replay succeeds exactly when each record can be applied, and then leaves exactly these nodes. */
  lemma {:induction false} ReplayDecides(ids: Ids, ops: seq<WalRecord>)
    requires |ids.i2l| == |ids.i2e|
    ensures ReplayOps(ids, ops).Ok? <==> forall k :: 0 <= k < |ops| ==> Applies(ids, ops, k)
    ensures ReplayOps(ids, ops).Ok? ==> Extended(ids, ops, ReplayOps(ids, ops).value)
  {
    hide Applies, Extended, ReplayOp, ReplayOps;
    if ops == [] {
      NothingExtends(ids);
      NothingReplays(ids);
    } else {
      var n := |ops| - 1;
      var front, op := ops[..n], ops[n];
      assert ops == front + [op];
      ReplayDecides(ids, front);
      AppliesSnoc(ids, front, op);
      FailureStays(ids, front, op);
      if ReplayOps(ids, front).Ok? {
        ReplaySnoc(ids, front, op);
        var c := ReplayOps(ids, front).value;
        StepDecides(ids, front, op, c);
        if ReplayOp(c, op).Ok? { StepExtends(ids, front, op, c); }
      }
    }
  }

  lemma {:induction false} FailureStays(ids: Ids, ops: seq<WalRecord>, op: WalRecord)
    ensures ReplayOps(ids, ops + [op]).Ok? ==> ReplayOps(ids, ops).Ok?
    decreases |ops|
  {
    hide ReplayOp;
    if ops != [] {
      assert (ops + [op])[1..] == ops[1..] + [op];
      if ReplayOp(ids, ops[0]).Ok? { FailureStays(ReplayOp(ids, ops[0]).value, ops[1..], op); }
    }
  }

  lemma NothingReplays(ids: Ids)
    ensures ReplayOps(ids, []) == Ok(ids)
  {
  }
}
