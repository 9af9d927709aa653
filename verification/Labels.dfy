/** The label interner and the replay of logged label definitions. */
module Labels {
  import opened Bytes
  import opened Wrappers
  import opened WalRecords
  import opened WalLog

  predicate Distinct(names: seq<Utf8>) {
    forall i, j :: 0 <= i < j < |names| ==> names[i] != names[j]
  }

  /** Names to ids and ids to names, kept inverse to each other. */
  class LabelInterner {
    var s2i: map<Utf8, nat>
    var i2s: seq<Utf8>

    ghost predicate Valid()
      reads this
    {
      && (forall i :: 0 <= i < |i2s| ==> i2s[i] in s2i && s2i[i2s[i]] == i)
      && (forall s :: s in s2i ==> s2i[s] < |i2s| && i2s[s2i[s]] == s)
    }

    constructor ()
      ensures Valid() && i2s == []
    {
      s2i, i2s := map[], [];
    }

    /** The existing id, or the next one for a new name; ids already handed out never change. */
    method GetOrCreate(name: Utf8) returns (id: nat)
      requires Valid()
      modifies this
      ensures Valid() && old(i2s) <= i2s && id < |i2s| && i2s[id] == name
      ensures name in old(i2s) ==> i2s == old(i2s)
      ensures name !in old(i2s) ==> id == |old(i2s)| && i2s == old(i2s) + [name]
    {
      if name in s2i { return s2i[name]; }
      id := |i2s|;
      s2i := s2i[name := id];
      i2s := i2s + [name];
    }

    method GetId(name: Utf8) returns (id: Option<nat>)
      requires Valid()
      ensures id.Some? <==> name in i2s
      ensures id.Some? ==> id.value < |i2s| && i2s[id.value] == name
    {
      if name in s2i { id := Some(s2i[name]); } else { id := None; }
    }
  }

  // ---- Replay -----------------------------------------------------------------------

  function IndexOf(names: seq<Utf8>, name: Utf8): (i: nat)
    requires name in names
    ensures i < |names| && names[i] == name
  {
    if names[0] == name then 0 else 1 + IndexOf(names[1..], name)
  }

  function Digits(n: nat): (d: seq<byte>)
    ensures forall i :: 0 <= i < |d| ==> d[i] <= 0x7F
  {
    (if n < 10 then [] else Digits(n / 10)) + [48 + n % 10]
  }

  lemma {:induction false} AsciiIsUtf8(b: seq<byte>)
    requires forall i :: 0 <= i < |b| ==> b[i] <= 0x7F
    ensures ValidUtf8(b)
  {
    if b != [] { AsciiIsUtf8(b[1..]); }
  }

  /** `__placeholder_` followed by the decimal id. */
  function Placeholder(id: nat): Utf8 {
    var text := [95, 95, 112, 108, 97, 99, 101, 104, 111, 108, 100, 101, 114, 95] + Digits(id);
    AsciiIsUtf8(text);
    text
  }

  /** The gap filler. Where the source would spin on a taken placeholder name for ever, an error stands for that. */
  function Fill(names: seq<Utf8>, id: nat): Result<seq<Utf8>>
    decreases id - |names|
  {
    if |names| >= id then Ok(names)
    else if Placeholder(|names|) in names then Err(StorageCorrupted("label replay does not terminate"))
    else Fill(names + [Placeholder(|names|)], id)
  }

  /** One `CreateLabel` record. */
  function ReplayLabel(names: seq<Utf8>, r: WalRecord): Result<seq<Utf8>> {
    if !r.CreateLabel? then Ok(names)
    else if r.name in names then
      if IndexOf(names, r.name) == r.labelId then Ok(names) else Err(WalProtocol("label id mismatch"))
    else
      var filled :- Fill(names, r.labelId);
      Ok(if r.name in filled then filled else filled + [r.name])
  }

  function ReplayLabelOps(names: seq<Utf8>, ops: seq<WalRecord>): Result<seq<Utf8>>
    decreases |ops|
  {
    if ops == [] then Ok(names)
    else
      var next :- ReplayLabel(names, ops[0]);
      ReplayLabelOps(next, ops[1..])
  }

  function ReplayLabels(names: seq<Utf8>, txs: seq<CommittedTx>): Result<seq<Utf8>>
    decreases |txs|
  {
    if txs == [] then Ok(names)
    else
      var next :- ReplayLabelOps(names, txs[0].ops);
      ReplayLabels(next, txs[1..])
  }

  lemma {:induction false} ReplayLabelsSnoc(names: seq<Utf8>, txs: seq<CommittedTx>, tx: CommittedTx)
    ensures ReplayLabels(names, txs + [tx]) ==
            (var r := ReplayLabels(names, txs); if r.Ok? then ReplayLabelOps(r.value, tx.ops) else r)
    decreases |txs|
  {
    if txs == [] {
      assert txs + [tx] == [tx] && [tx][1..] == [];
      var r := ReplayLabelOps(names, tx.ops);
      if r.Ok? { assert ReplayLabels(r.value, []) == Ok(r.value); }
    } else {
      assert (txs + [tx])[1..] == txs[1..] + [tx];
      var r := ReplayLabelOps(names, txs[0].ops);
      if r.Ok? { ReplayLabelsSnoc(r.value, txs[1..], tx); }
    }
  }

  lemma {:induction false} NoLabelOps(names: seq<Utf8>, ops: seq<WalRecord>)
    requires forall i :: 0 <= i < |ops| ==> !ops[i].CreateLabel?
    ensures ReplayLabelOps(names, ops) == Ok(names)
    decreases |ops|
  {
    if ops != [] { NoLabelOps(names, ops[1..]); }
  }

  /** The definitions `checkpoint_on_close` and the bulk loader write for an interner. */
  function Definitions(names: seq<Utf8>, from: nat): (ops: seq<WalRecord>)
    requires from <= |names| && |names| <= U32_MAX
    ensures |ops| == |names| - from
    ensures forall i :: 0 <= i < |ops| ==> ops[i] == CreateLabel(names[from + i], from + i)
    decreases |names| - from
  {
    if from == |names| then [] else [CreateLabel(names[from], from)] + Definitions(names, from + 1)
  }

  /** Replaying the written definitions rebuilds the interner. */
  lemma {:induction false} DefinitionsReplay(names: seq<Utf8>, from: nat, rest: seq<WalRecord>)
    requires Distinct(names) && from <= |names| && |names| <= U32_MAX
    ensures ReplayLabelOps(names[..from], Definitions(names, from) + rest) == ReplayLabelOps(names, rest)
    decreases |names| - from
  {
    if from == |names| {
      assert names[..from] == names && [] + rest == rest;
    } else {
      var ops := Definitions(names, from) + rest;
      assert names[from] !in names[..from];
      assert names[..from] + [names[from]] == names[..from + 1];
      assert ops[1..] == Definitions(names, from + 1) + rest;
      DefinitionsReplay(names, from + 1, rest);
    }
  }

  // ---- When filling a gap ends -----------------------------------------------------------

  lemma {:induction false} DigitsInjective(m: nat, n: nat)
    requires Digits(m) == Digits(n)
    ensures m == n
  {
    var a, b := Digits(m), Digits(n);
    assert a[|a| - 1] == 48 + m % 10 && b[|b| - 1] == 48 + n % 10;
    assert a[..|a| - 1] == (if m < 10 then [] else Digits(m / 10));
    assert b[..|b| - 1] == (if n < 10 then [] else Digits(n / 10));
    if m >= 10 && n >= 10 {
      DigitsInjective(m / 10, n / 10);
    } else {
      DigitsNonEmpty(m / 10);
      DigitsNonEmpty(n / 10);
    }
  }

  lemma DigitsNonEmpty(n: nat)
    ensures Digits(n) != []
  {
  }

  /** Different ids have different placeholder names. */
  lemma PlaceholderInjective(m: nat, n: nat)
    requires Placeholder(m) == Placeholder(n)
    ensures m == n
  {
    hide Digits;
    assert Placeholder(m)[14..] == Digits(m) && Placeholder(n)[14..] == Digits(n);
    DigitsInjective(m, n);
  }

  /** The table with placeholders up to `id`. */
  function Padded(names: seq<Utf8>, id: nat): (r: seq<Utf8>)
    ensures |r| == Max(|names|, id) && names <= r
    ensures forall j :: |names| <= j < |r| ==> r[j] == Placeholder(j)
  {
    names + seq<Utf8>(Max(|names|, id) - |names|, k requires 0 <= k => Placeholder(|names| + k))
  }

  ghost predicate GapFree(names: seq<Utf8>, id: nat) {
    forall j :: |names| <= j < id ==> Placeholder(j) !in names
  }

  lemma GapFreeStep(names: seq<Utf8>, id: nat)
    requires |names| < id
    ensures GapFree(names, id) <==> Placeholder(|names|) !in names && GapFree(names + [Placeholder(|names|)], id)
  {
    hide Placeholder;
    var n := |names|;
    forall j | n < j < id ensures Placeholder(j) in names + [Placeholder(n)] <==> Placeholder(j) in names {
      if Placeholder(j) == Placeholder(n) { PlaceholderInjective(j, n); }
    }
  }

  lemma PaddedStep(names: seq<Utf8>, id: nat)
    requires |names| < id
    ensures Padded(names + [Placeholder(|names|)], id) == Padded(names, id)
  {
    hide Placeholder;
  }

  /** The filler ends exactly when no placeholder it needs is a name already, and then pads the table. */
  lemma {:induction false} FillIff(names: seq<Utf8>, id: nat)
    ensures Fill(names, id).Ok? <==> GapFree(names, id)
    ensures Fill(names, id).Ok? ==> Fill(names, id).value == Padded(names, id)
    decreases id - |names|
  {
    if |names| < id {
      hide Placeholder, GapFree, Padded;
      GapFreeStep(names, id);
      PaddedStep(names, id);
      FillIff(names + [Placeholder(|names|)], id);
    }
  }

  /**
   * A label takes its id in memory before its definition is appended, so an append that fails leaves a
   * gap. The definitions in the log after interning `names`, where `ok` says which appends went through.
   */
  function LoggedDefinitions(names: seq<Utf8>, ok: seq<bool>): (ops: seq<WalRecord>)
    requires |names| == |ok| <= U32_MAX
  {
    if names == [] then []
    else
      var n := |names| - 1;
      LoggedDefinitions(names[..n], ok[..n]) + (if ok[n] then [CreateLabel(names[n], n)] else [])
  }

  /** Every logged name under its own id, placeholders in the gaps between. */
  function Patched(names: seq<Utf8>, ok: seq<bool>): (r: seq<Utf8>)
    requires |names| == |ok|
    ensures |r| <= |names|
  {
    if names == [] then []
    else
      var n := |names| - 1;
      var front := Patched(names[..n], ok[..n]);
      if ok[n] then Padded(front, n) + [names[n]] else front
  }

  lemma {:induction false} PatchedEnds(names: seq<Utf8>, ok: seq<bool>)
    requires |names| == |ok|
    ensures var r := Patched(names, ok);
            (r != [] ==> ok[|r| - 1]) && forall i :: |r| <= i < |ok| ==> !ok[i]
  {
    hide Placeholder;
    if names != [] {
      var n := |names| - 1;
      if !ok[n] {
        PatchedEnds(names[..n], ok[..n]);
        forall i | |Patched(names, ok)| <= i < |ok| ensures !ok[i] { if i < n { assert ok[..n][i] == ok[i]; } }
      } else {
        assert |Patched(names, ok)| == n + 1;
      }
    }
  }

  lemma {:induction false} PatchedAt(names: seq<Utf8>, ok: seq<bool>, i: nat)
    requires |names| == |ok| && i < |Patched(names, ok)|
    ensures Patched(names, ok)[i] == if ok[i] then names[i] else Placeholder(i)
  {
    hide Placeholder;
    var n := |names| - 1;
    var front := Patched(names[..n], ok[..n]);
    if i < |front| {
      PatchedAt(names[..n], ok[..n], i);
    } else {
      PatchedEnds(names[..n], ok[..n]);
      if i < n { assert ok[..n][i] == ok[i]; }
    }
  }

  /** No logged name is the placeholder of an unlogged id below a logged one. */
  ghost predicate NoPlaceholderName(names: seq<Utf8>, ok: seq<bool>)
    requires |names| == |ok|
  {
    forall i, j, k :: 0 <= i < |ok| && 0 <= j < k < |ok| && ok[i] && !ok[j] && ok[k] ==> names[i] != Placeholder(j)
  }

  lemma ClashFree(names: seq<Utf8>, ok: seq<bool>, i: nat, j: nat)
    requires |names| == |ok| && Distinct(names) && NoPlaceholderName(names, ok) && i < j < |Patched(names, ok)|
    ensures Patched(names, ok)[i] != Patched(names, ok)[j]
  {
    hide Placeholder, Patched;
    var k := |Patched(names, ok)| - 1;
    PatchedEnds(names, ok);
    PatchedAt(names, ok, i);
    PatchedAt(names, ok, j);
    if !ok[i] && !ok[j] && Placeholder(i) == Placeholder(j) { PlaceholderInjective(i, j); }
    assert ok[k] && (ok[i] ==> ok[j] || j < k);
  }

  lemma PatchedDistinctIff(names: seq<Utf8>, ok: seq<bool>)
    requires |names| == |ok| && Distinct(names)
    ensures Distinct(Patched(names, ok)) <==> NoPlaceholderName(names, ok)
  {
    hide Placeholder, Patched;
    var r := Patched(names, ok);
    if NoPlaceholderName(names, ok) {
      forall i, j | 0 <= i < j < |r| ensures r[i] != r[j] { ClashFree(names, ok, i, j); }
    }
    if Distinct(r) {
      PatchedEnds(names, ok);
      forall i, j, k | 0 <= i < |ok| && 0 <= j < k < |ok| && ok[i] && !ok[j] && ok[k] ensures names[i] != Placeholder(j) {
        PatchedAt(names, ok, i);
        PatchedAt(names, ok, j);
        assert i < j || j < i;
      }
    }
  }

  lemma {:induction false} ReplayLabelOpsConcat(names: seq<Utf8>, a: seq<WalRecord>, b: seq<WalRecord>)
    ensures ReplayLabelOps(names, a + b) ==
            (var r := ReplayLabelOps(names, a); if r.Ok? then ReplayLabelOps(r.value, b) else r)
    decreases |a|
  {
    hide ReplayLabel;
    if a == [] {
      assert a + b == b;
    } else {
      assert (a + b)[1..] == a[1..] + b;
      var r := ReplayLabel(names, a[0]);
      if r.Ok? { ReplayLabelOpsConcat(r.value, a[1..], b); }
    }
  }

  lemma ReplaySingle(names: seq<Utf8>, op: WalRecord)
    ensures ReplayLabelOps(names, [op]) == ReplayLabel(names, op)
  {
    hide ReplayLabel;
    var r := ReplayLabel(names, op);
    assert [op][1..] == [];
    if r.Ok? { assert ReplayLabelOps(r.value, []) == Ok(r.value); }
  }

  /** Replay never enters a name twice. */
  lemma ReplayLabelDistinct(names: seq<Utf8>, op: WalRecord)
    requires Distinct(names) && ReplayLabel(names, op).Ok?
    ensures Distinct(ReplayLabel(names, op).value)
  {
    hide Placeholder, IndexOf;
    if op.CreateLabel? && op.name !in names {
      FillIff(names, op.labelId);
      var filled := Padded(names, op.labelId);
      forall i, j | 0 <= i < j < |filled| ensures filled[i] != filled[j] {
        if i >= |names| && filled[i] == filled[j] { PlaceholderInjective(i, j); }
      }
    }
  }

  lemma {:induction false} ReplayDistinct(names: seq<Utf8>, ops: seq<WalRecord>)
    requires Distinct(names) && ReplayLabelOps(names, ops).Ok?
    ensures Distinct(ReplayLabelOps(names, ops).value)
    decreases |ops|
  {
    hide ReplayLabel, Distinct;
    if ops != [] {
      ReplayLabelDistinct(names, ops[0]);
      ReplayDistinct(ReplayLabel(names, ops[0]).value, ops[1..]);
    }
  }

  lemma ReplayNext(front: seq<Utf8>, name: Utf8, id: u32)
    requires |front| <= id && Distinct(Padded(front, id) + [name])
    ensures ReplayLabel(front, CreateLabel(name, id)) == Ok(Padded(front, id) + [name])
  {
    hide Placeholder, IndexOf;
    var padded := Padded(front, id);
    var all := padded + [name];
    forall k | 0 <= k < id ensures padded[k] != name { assert all[k] == padded[k] && all[id] == name; }
    forall k, j | 0 <= k < |front| && |front| <= j < id ensures front[k] != Placeholder(j) {
      assert all[k] == front[k] && all[j] == Placeholder(j);
    }
    FillIff(front, id);
  }

  lemma {:induction false} PatchedReplays(names: seq<Utf8>, ok: seq<bool>)
    requires |names| == |ok| <= U32_MAX && Distinct(Patched(names, ok))
    ensures ReplayLabelOps([], LoggedDefinitions(names, ok)) == Ok(Patched(names, ok))
  {
    hide Placeholder, ReplayLabel;
    if names != [] {
      var n := |names| - 1;
      var front := Patched(names[..n], ok[..n]);
      var ops := LoggedDefinitions(names[..n], ok[..n]);
      assert front <= Patched(names, ok);
      assert Distinct(front);
      PatchedReplays(names[..n], ok[..n]);
      if ok[n] {
        ReplayNext(front, names[n], n);
        ReplayLabelOpsConcat([], ops, [CreateLabel(names[n], n)]);
        ReplaySingle(front, CreateLabel(names[n], n));
      } else {
        assert ops + [] == ops;
      }
    }
  }

  /**
   * Whatever label appends failed, replay gives every logged name its own id exactly when no logged name
   * is the placeholder of an unlogged id below a logged one.
   */
  lemma GapReplayIff(names: seq<Utf8>, ok: seq<bool>)
    requires |names| == |ok| <= U32_MAX && Distinct(names)
    ensures ReplayLabelOps([], LoggedDefinitions(names, ok)) == Ok(Patched(names, ok)) <==> NoPlaceholderName(names, ok)
  {
    hide ReplayLabelOps, LoggedDefinitions, NoPlaceholderName;
    PatchedDistinctIff(names, ok);
    if Distinct(Patched(names, ok)) {
      PatchedReplays(names, ok);
    } else if ReplayLabelOps([], LoggedDefinitions(names, ok)) == Ok(Patched(names, ok)) {
      ReplayDistinct([], LoggedDefinitions(names, ok));
    }
  }

  lemma NoGap(names: seq<Utf8>)
    ensures Fill(names, |names|) == Ok(names)
  {
  }

  /** Labels `__placeholder_1`, one whose append fails, and one more: the log they leave never replays. */
  lemma TakenPlaceholder(txid: u64, lost: Utf8, last: Utf8)
    requires last != Placeholder(1)
    ensures var log := [CommittedTx(txid, LoggedDefinitions([Placeholder(1), lost, last], [true, false, true]))];
            ReplayLabels([], log) == Err(StorageCorrupted("label replay does not terminate"))
  {
    hide Placeholder, Fill;
    var names, ok := [Placeholder(1), lost, last], [true, false, true];
    assert names[..2][..1] == [Placeholder(1)] && ok[..2][..1] == [true] && names[..2][..1][..0] == [] && ok[..2][..1][..0] == [];
    var ops := [CreateLabel(Placeholder(1), 0), CreateLabel(last, 2)];
    assert LoggedDefinitions([Placeholder(1)], [true]) == [ops[0]];
    assert LoggedDefinitions(names[..2], ok[..2]) == [ops[0]] + [];
    assert LoggedDefinitions(names, ok) == ops;
    NoGap([]);
    assert [] + [Placeholder(1)] == [Placeholder(1)];
    assert ReplayLabel([Placeholder(1)], ops[1]) == Err(StorageCorrupted("label replay does not terminate")) by {
      TakenNow([Placeholder(1)], 2);
    }
    assert ops[1..] == [ops[1]];
    assert ReplayLabelOps([], ops) == ReplayLabelOps([Placeholder(1)], ops[1..]);
  }

  lemma TakenNow(names: seq<Utf8>, id: nat)
    requires |names| < id && Placeholder(|names|) in names
    ensures Fill(names, id) == Err(StorageCorrupted("label replay does not terminate"))
  {
    hide Placeholder;
  }

  // ---- The replay loops -------------------------------------------------------------------

  lemma IndexUnique(names: seq<Utf8>, name: Utf8, i: nat)
    requires Distinct(names) && i < |names| && names[i] == name
    ensures name in names && IndexOf(names, name) == i
  {
  }

  /** One record on the interner: it goes through exactly when the id is the name's own, or new with no placeholder taken. */
  method ReplayOne(interner: LabelInterner, r: WalRecord) returns (done: Result<()>)
    requires interner.Valid()
    modifies interner
    ensures interner.Valid()
    ensures var want := ReplayLabel(old(interner.i2s), r);
            if want.Ok? then done.Ok? && interner.i2s == want.value else done == Err(want.error)
    ensures r.CreateLabel? && r.name !in old(interner.i2s) ==> (done.Ok? <==> GapFree(old(interner.i2s), r.labelId))
    ensures r.CreateLabel? && r.name in old(interner.i2s) ==>
              (done.Ok? <==> r.labelId < |old(interner.i2s)| && old(interner.i2s)[r.labelId] == r.name)
  {
    hide Placeholder, IndexOf, GapFree;
    FillIff(interner.i2s, if r.CreateLabel? then r.labelId else 0);
    if !r.CreateLabel? { return Ok(()); }
    var existing := interner.GetId(r.name);
    if existing.Some? {
      IndexUnique(interner.i2s, r.name, existing.value);
      return if existing.value == r.labelId then Ok(()) else Err(WalProtocol("label id mismatch"));
    }
    ghost var start := interner.i2s;
    while |interner.i2s| < r.labelId
      invariant interner.Valid() && Fill(start, r.labelId) == Fill(interner.i2s, r.labelId)
      decreases r.labelId - |interner.i2s|
    {
      var taken := interner.GetId(Placeholder(|interner.i2s|));
      if taken.Some? { return Err(StorageCorrupted("label replay does not terminate")); }
      var _ := interner.GetOrCreate(Placeholder(|interner.i2s|));
    }
    var _ := interner.GetOrCreate(r.name);
    done := Ok(());
  }

  /** `replay_label_transactions` into a new interner. */
  method ReplayLabelTransactions(txs: seq<CommittedTx>) returns (r: Result<seq<Utf8>>)
    ensures r == ReplayLabels([], txs)
  {
    hide ReplayLabel;
    var interner := new LabelInterner();
    assert txs[0..] == txs;
    for i := 0 to |txs|
      invariant fresh(interner) && interner.Valid() && ReplayLabels([], txs) == ReplayLabels(interner.i2s, txs[i..])
    {
      assert txs[i..][1..] == txs[i + 1..];
      var ops := txs[i].ops;
      ghost var start := interner.i2s;
      assert ops[0..] == ops;
      for k := 0 to |ops|
        invariant fresh(interner) && interner.Valid() && ReplayLabelOps(start, ops) == ReplayLabelOps(interner.i2s, ops[k..])
      {
        assert ops[k..][1..] == ops[k + 1..];
        var done := ReplayOne(interner, ops[k]);
        if done.Err? { return Err(done.error); }
      }
    }
    r := Ok(interner.i2s);
  }
}
