/** Properties: runs overlaid newest first, the ordered property store behind them, and sinking. */
module Overlay {
  import opened Bytes
  import opened Wrappers
  import opened PropertyValues
  import opened Graph

  /** What carries properties. */
  datatype Owner = NodeOwner(node: NodeId) | EdgeOwner(edge: EdgeKey)

  type Props = map<Utf8, PropertyValue>

  function PropsIn(run: Run, o: Owner): Props {
    match o case NodeOwner(n) => run.nodeProps.Props(n) case EdgeOwner(e) => run.edgeProps.Props(e)
  }

  function RemovedIn(run: Run, o: Owner): set<Utf8> {
    match o case NodeOwner(n) => run.nodeProps.RemovedKeys(n) case EdgeOwner(e) => run.edgeProps.RemovedKeys(e)
  }

  function Get(m: Props, key: Utf8): Option<PropertyValue> { if key in m then Some(m[key]) else None }

  // ---- Runs -----------------------------------------------------------------------------------

  /** One transaction applied to a property map; a removal outranks a value set in the same run. */
  function Apply(m: Props, run: Run, o: Owner): Props { (m + PropsIn(run, o)) - RemovedIn(run, o) }

  /** The runs applied to `base`, oldest first; `runs` lists them newest first. */
  function Applied(base: Props, runs: seq<Run>, o: Owner): Props {
    if runs == [] then base else Apply(Applied(base, runs[1..], o), runs[0], o)
  }

  /** What the newest run that mentions the key says: a value, a removal, or nothing. */
  datatype Mention = Unmentioned | Removed | Set(value: PropertyValue)

  function Newest(runs: seq<Run>, o: Owner, key: Utf8): Mention {
    if runs == [] then Unmentioned
    else if key in RemovedIn(runs[0], o) then Removed
    else if key in PropsIn(runs[0], o) then Set(PropsIn(runs[0], o)[key])
    else Newest(runs[1..], o, key)
  }

  function MarkIn(run: Run, o: Owner, key: Utf8): Mark {
    match o case NodeOwner(n) => run.nodeProps.Marked(n, key) case EdgeOwner(e) => run.edgeProps.Marked(e, key)
  }

  /** The first run, newest first, that marks the key, and what it says. */
  function FirstMark(runs: seq<Run>, o: Owner, key: Utf8): Mark {
    if runs == [] then Unset
    else if MarkIn(runs[0], o, key) != Unset then MarkIn(runs[0], o, key)
    else FirstMark(runs[1..], o, key)
  }

  /** What a lookup makes of a mark. */
  function Told(mark: Mark): Option<PropertyValue> { match mark case SetTo(v) => Some(v) case Gone => None case Unset => None }

  ghost predicate DecidedTables(runs: seq<Run>) {
    forall i :: 0 <= i < |runs| ==> runs[i].nodeProps.Decided() && runs[i].edgeProps.Decided()
  }

  /** Where no run both sets and removes a key, the newest run that sets or removes the key decides. */
  lemma {:induction false} FirstDecides(runs: seq<Run>, o: Owner, key: Utf8)
    requires DecidedTables(runs)
    ensures Get(Applied(map[], runs, o), key) == Told(FirstMark(runs, o, key))
  {
    if runs != [] {
      assert DecidedTables(runs[1..]);
      FirstDecides(runs[1..], o, key);
      RunDecides(runs[0], o, key, Applied(map[], runs[1..], o));
    }
  }

  lemma RunDecides(run: Run, o: Owner, key: Utf8, m: Props)
    requires run.nodeProps.Decided() && run.edgeProps.Decided()
    ensures Get(Apply(m, run, o), key) == if MarkIn(run, o, key) != Unset then Told(MarkIn(run, o, key)) else Get(m, key)
    ensures MarkIn(run, o, key) == Gone <==> key in RemovedIn(run, o)
    ensures MarkIn(run, o, key).SetTo? <==> key in PropsIn(run, o)
    ensures MarkIn(run, o, key).SetTo? ==> MarkIn(run, o, key) == SetTo(PropsIn(run, o)[key])
  {
  }

  /** The newest mention is the first mark. */
  lemma {:induction false} NewestIsMark(runs: seq<Run>, o: Owner, key: Utf8)
    requires DecidedTables(runs)
    ensures Newest(runs, o, key) == match FirstMark(runs, o, key) case SetTo(v) => Set(v) case Gone => Removed case Unset => Unmentioned
  {
    hide PropsIn, RemovedIn, MarkIn;
    if runs != [] {
      assert DecidedTables(runs[1..]);
      NewestIsMark(runs[1..], o, key);
      RunDecides(runs[0], o, key, map[]);
    }
  }

  /** `node_property_from_runs` and its edge counterpart: an early-return search. */
  method PropertyFromRuns(runs: seq<Run>, o: Owner, key: Utf8) returns (r: Option<PropertyValue>)
    ensures r == Get(Applied(map[], runs, o), key)
    ensures DecidedTables(runs) ==> r == Told(FirstMark(runs, o, key))
  {
    hide DecidedTables, FirstMark;
    NewestIsApplied(map[], runs, o, key);
    if DecidedTables(runs) { FirstDecides(runs, o, key); }
    assert runs[0..] == runs;
    for i := 0 to |runs|
      invariant Newest(runs, o, key) == Newest(runs[i..], o, key)
    {
      assert runs[i..][1..] == runs[i + 1..];
      if key in RemovedIn(runs[i], o) { return None; }
      if key in PropsIn(runs[i], o) { return Some(PropsIn(runs[i], o)[key]); }
    }
    r := None;
  }

  /** Newest-first search finds what applying the runs oldest to newest leaves. */
  lemma {:induction false} NewestIsApplied(base: Props, runs: seq<Run>, o: Owner, key: Utf8)
    ensures Get(Applied(base, runs, o), key)
         == match Newest(runs, o, key) case Set(v) => Some(v) case Removed => None case Unmentioned => Get(base, key)
  {
    hide PropsIn, RemovedIn;
    if runs != [] { NewestIsApplied(base, runs[1..], o, key); }
  }

  /** What the runs before `i` settled, and what they put into the merged map. */
  ghost predicate Merging(runs: seq<Run>, i: nat, o: Owner, merged: Props, resolved: set<Utf8>)
    requires i <= |runs|
  {
    && (forall key :: key in resolved <==> Newest(runs[..i], o, key) != Unmentioned)
    && (forall key :: Get(merged, key) == match Newest(runs[..i], o, key) case Set(v) => Some(v) case _ => None)
  }

  lemma {:induction false} NewestSnoc(runs: seq<Run>, run: Run, o: Owner, key: Utf8)
    ensures Newest(runs + [run], o, key)
         == if Newest(runs, o, key) != Unmentioned then Newest(runs, o, key) else Newest([run], o, key)
  {
    hide PropsIn, RemovedIn;
    if runs == [] { assert runs + [run] == [run]; } else {
      assert (runs + [run])[1..] == runs[1..] + [run];
      NewestSnoc(runs[1..], run, o, key);
    }
  }

  /** `merge_node_properties_from_runs` and its edge counterpart. */
  method MergeFromRuns(runs: seq<Run>, o: Owner) returns (merged: Props)
    ensures merged == Applied(map[], runs, o)
    ensures DecidedTables(runs) ==> forall key: Utf8 :: Get(merged, key) == Told(FirstMark(runs, o, key))
  {
    hide DecidedTables, FirstMark;
    merged := map[];
    var resolved: set<Utf8> := {};
    for i := 0 to |runs|
      invariant Merging(runs, i, o, merged, resolved)
    {
      ghost var before, settled := merged, resolved;
      resolved := resolved + RemovedIn(runs[i], o);
      merged, resolved := MergeOne(PropsIn(runs[i], o), merged, resolved);
      MergeStep(runs, i, o, before, settled, merged, resolved);
    }
    assert runs[..|runs|] == runs;
    forall key: Utf8 ensures Get(merged, key) == Get(Applied(map[], runs, o), key) { NewestIsApplied(map[], runs, o, key); }
    SameProps(merged, Applied(map[], runs, o));
    if DecidedTables(runs) {
      forall key: Utf8 ensures Get(merged, key) == Told(FirstMark(runs, o, key)) { FirstDecides(runs, o, key); }
    }
  }

  lemma SameProps(a: Props, b: Props)
    requires forall key: Utf8 :: Get(a, key) == Get(b, key)
    ensures a == b
  {
    forall key: Utf8 ensures (key in a <==> key in b) && (key in a ==> a[key] == b[key]) {
      assert Get(a, key) == Get(b, key);
    }
  }

  /** The values of one run, entered where the key is not settled yet. */
  method MergeOne(props: Props, merged: Props, resolved: set<Utf8>) returns (m: Props, r: set<Utf8>)
    ensures r == resolved + props.Keys
    ensures forall key :: Get(m, key) == if key in props && key !in resolved then Some(props[key]) else Get(merged, key)
  {
    m, r := merged, resolved;
    var todo := props.Keys;
    while todo != {}
      invariant todo <= props.Keys && r == resolved + (props.Keys - todo)
      invariant forall key :: Get(m, key) ==
                  if key in props && key !in todo && key !in resolved then Some(props[key]) else Get(merged, key)
      decreases todo
    {
      var key :| key in todo;
      if key !in r { m := m[key := props[key]]; }
      r := r + {key};
      todo := todo - {key};
    }
  }

  lemma MergeStep(runs: seq<Run>, i: nat, o: Owner, before: Props, settled: set<Utf8>, merged: Props, resolved: set<Utf8>)
    requires i < |runs| && Merging(runs, i, o, before, settled)
    requires resolved == settled + RemovedIn(runs[i], o) + PropsIn(runs[i], o).Keys
    requires forall key :: Get(merged, key) ==
               if key in PropsIn(runs[i], o) && key !in settled + RemovedIn(runs[i], o) then Some(PropsIn(runs[i], o)[key])
               else Get(before, key)
    ensures Merging(runs, i + 1, o, merged, resolved)
  {
    hide PropsIn, RemovedIn;
    assert runs[..i + 1] == runs[..i] + [runs[i]];
    forall key: Utf8
      ensures key in resolved <==> Newest(runs[..i + 1], o, key) != Unmentioned
      ensures Get(merged, key) == match Newest(runs[..i + 1], o, key) case Set(v) => Some(v) case _ => None
    {
      NewestSnoc(runs[..i], runs[i], o, key);
      assert [runs[i]][1..] == [];
    }
  }

  // ---- Store keys --------------------------------------------------------------------------------

  /** Tag and owner, big-endian. */
  function Prefix(o: Owner): seq<byte> {
    match o
    case NodeOwner(n) => [0] + U32BytesBE(n)
    case EdgeOwner(e) => [1] + U32BytesBE(e.src) + U32BytesBE(e.rel) + U32BytesBE(e.dst)
  }

  type Name = k: Utf8 | |k| <= U32_MAX witness []

  function StoreKey(o: Owner, name: Name): seq<byte> { Prefix(o) + U32BytesBE(|name|) + name }

  lemma WordEqual(x: u32, y: u32)
    requires U32BytesBE(x) == U32BytesBE(y)
    ensures x == y
  {
    U32BERoundTrip(x);
    U32BERoundTrip(y);
  }

  /** A store key starts with an owner's prefix exactly when it is a key of that owner. */
  lemma PrefixIff(o: Owner, p: Owner, name: Name)
    ensures Prefix(o) <= StoreKey(p, name) <==> o == p
  {
    hide U32BytesBE;
    var a, b, k := Prefix(o), Prefix(p), StoreKey(p, name);
    assert k[..|b|] == b;
    if a <= k {
      assert a[0] == b[0];
      assert |a| == |b| && a == b;
      match o
      case NodeOwner(n) =>
        assert a[1..5] == U32BytesBE(n) && b[1..5] == U32BytesBE(p.node);
        WordEqual(n, p.node);
      case EdgeOwner(e) =>
        assert a[1..5] == U32BytesBE(e.src) && b[1..5] == U32BytesBE(p.edge.src);
        assert a[5..9] == U32BytesBE(e.rel) && b[5..9] == U32BytesBE(p.edge.rel);
        assert a[9..13] == U32BytesBE(e.dst) && b[9..13] == U32BytesBE(p.edge.dst);
        WordEqual(e.src, p.edge.src);
        WordEqual(e.rel, p.edge.rel);
        WordEqual(e.dst, p.edge.dst);
    }
  }

  /** Store keys are injective. */
  lemma StoreKeyInjective(o: Owner, name: Name, p: Owner, other: Name)
    requires StoreKey(o, name) == StoreKey(p, other)
    ensures o == p && name == other
  {
    hide Prefix, U32BytesBE;
    var k := StoreKey(o, name);
    assert Prefix(o) <= k;
    PrefixIff(o, p, other);
    var n := |Prefix(o)|;
    assert k[n + 4..] == name && k[n + 4..] == other;
  }

  // ---- The ordered store ----------------------------------------------------------------------------

  /** An entry as the tree's cursor yields it; its key bytes are those of owner and name. */
  datatype Slot = Slot(owner: Owner, name: Name, blob: u64) {
    function Key(): seq<byte> { StoreKey(owner, name) }
  }

  ghost predicate Ordered(store: seq<Slot>) {
    forall i, j :: 0 <= i <= j < |store| ==> !LexLess(store[j].Key(), store[i].Key())
  }

  /** The first entry whose key is not below `key`. */
  function LowerBound(store: seq<Slot>, key: seq<byte>): (r: nat)
    ensures r <= |store| && (forall i :: 0 <= i < r ==> LexLess(store[i].Key(), key))
    ensures r < |store| ==> !LexLess(store[r].Key(), key)
  {
    if store == [] || !LexLess(store[0].Key(), key) then 0 else 1 + LowerBound(store[1..], key)
  }

  predicate Matches(s: Slot, o: Owner, name: Name) { s.owner == o && s.name == name }

  /** The blob of the first entry for the key, and of the last: they differ only when the key repeats. */
  function FirstBlob(store: seq<Slot>, o: Owner, name: Name): Option<u64> {
    if store == [] then None
    else if Matches(store[0], o, name) then Some(store[0].blob)
    else FirstBlob(store[1..], o, name)
  }

  function LastBlob(store: seq<Slot>, o: Owner, name: Name): Option<u64> {
    if store == [] then None
    else
      var n := |store| - 1;
      if Matches(store[n], o, name) then Some(store[n].blob) else LastBlob(store[..n], o, name)
  }

  type Blobs = map<u64, PropertyValue>

  function Fetch(blobs: Blobs, blob: Option<u64>): Option<PropertyValue> {
    if blob.Some? && blob.value in blobs then Some(blobs[blob.value]) else None
  }

  /** `read_node_property_from_store`: position at the key and compare. */
  function ReadFromStore(store: seq<Slot>, blobs: Blobs, o: Owner, name: Name): Option<PropertyValue> {
    var i := LowerBound(store, StoreKey(o, name));
    if i < |store| && store[i].Key() == StoreKey(o, name) then Fetch(blobs, Some(store[i].blob)) else None
  }

  lemma {:induction false} FirstBlobAt(store: seq<Slot>, o: Owner, name: Name, i: nat)
    requires i <= |store| && (forall j :: 0 <= j < i ==> !Matches(store[j], o, name))
    requires i < |store| ==> Matches(store[i], o, name)
    ensures FirstBlob(store, o, name) == if i < |store| then Some(store[i].blob) else None
  {
    if store != [] && i != 0 { FirstBlobAt(store[1..], o, name, i - 1); }
  }

  lemma MatchIff(s: Slot, o: Owner, name: Name)
    ensures Matches(s, o, name) <==> s.Key() == StoreKey(o, name)
  {
    hide StoreKey;
    if s.Key() == StoreKey(o, name) { StoreKeyInjective(s.owner, s.name, o, name); }
  }

  /** In an ordered store the lower-bound read returns the first entry for the key. */
  lemma ReadIsFirst(store: seq<Slot>, blobs: Blobs, o: Owner, name: Name)
    requires Ordered(store)
    ensures ReadFromStore(store, blobs, o, name) == Fetch(blobs, FirstBlob(store, o, name))
  {
    hide StoreKey, LexLess, Matches;
    var k := StoreKey(o, name);
    var i := LowerBound(store, k);
    forall j | 0 <= j < |store| ensures Matches(store[j], o, name) ==> store[j].Key() == k && j >= i {
      MatchIff(store[j], o, name);
      LexIrreflexive(k);
    }
    if i < |store| && store[i].Key() == k {
      MatchIff(store[i], o, name);
      FirstBlobAt(store, o, name, i);
    } else {
      forall j | 0 <= j < |store| ensures !Matches(store[j], o, name) {
        MatchIff(store[j], o, name);
        if store[j].Key() == k {
          LexIrreflexive(k);
          BetweenKeys(store, i, j, k);
        }
      }
      FirstBlobAt(store, o, name, |store|);
    }
  }

  lemma BetweenKeys(store: seq<Slot>, i: nat, j: nat, k: seq<byte>)
    requires Ordered(store) && i <= j < |store| && store[j].Key() == k && !LexLess(store[i].Key(), k)
    ensures store[i].Key() == k
  {
    hide StoreKey;
    LexTotal(store[i].Key(), k);
  }

  // ---- Prefix scans ----------------------------------------------------------------------------------

  /** Entries of the owner whose name the map does not hold yet, in order. */
  function Wanted(store: seq<Slot>, o: Owner, props: Props): seq<Slot> {
    if store == [] then []
    else
      var n := |store| - 1;
      Wanted(store[..n], o, props) + if store[n].owner == o && store[n].name !in props then [store[n]] else []
  }

  /** The fetched values inserted in order; `None` when one does not decode. */
  function Filled(props: Props, slots: seq<Slot>, blobs: Blobs): Option<Props> {
    if slots == [] then Some(props)
    else
      var n := |slots| - 1;
      var m := Filled(props, slots[..n], blobs);
      if m.None? || slots[n].blob !in blobs then None else Some(m.value[slots[n].name := blobs[slots[n].blob]])
  }

  /** Between a prefix and a key that has it lie only keys that have it. */
  lemma {:induction false} Between(p: seq<byte>, b: seq<byte>, c: seq<byte>)
    requires !LexLess(b, p) && !LexLess(c, b) && p <= c
    ensures p <= b
    decreases |p|
  {
    if p != [] {
      assert p == [p[0]] + p[1..] && b != [];
      Between(p[1..], b[1..], c[1..]);
      assert b == [b[0]] + b[1..];
    }
  }

  lemma {:induction false} PrefixNotAbove(p: seq<byte>, k: seq<byte>)
    requires p <= k
    ensures !LexLess(k, p)
    decreases |p|
  {
    if p != [] { PrefixNotAbove(p[1..], k[1..]); }
  }

  /** No entry of the owner lies before the prefix's lower bound. */
  lemma NoneBefore(store: seq<Slot>, o: Owner, i: nat)
    requires i < LowerBound(store, Prefix(o))
    ensures store[i].owner != o
  {
    hide Prefix, LexLess;
    PrefixIff(o, store[i].owner, store[i].name);
    if Prefix(o) <= store[i].Key() { PrefixNotAbove(Prefix(o), store[i].Key()); }
  }

  /** No entry of the owner lies after the first entry past the bound without the prefix. */
  lemma NoneAfter(store: seq<Slot>, o: Owner, i: nat, j: nat)
    requires Ordered(store) && LowerBound(store, Prefix(o)) <= i <= j < |store| && !(Prefix(o) <= store[i].Key())
    ensures store[j].owner != o
  {
    hide Prefix, LexLess, StoreKey;
    PrefixIff(o, store[j].owner, store[j].name);
    var lb := LowerBound(store, Prefix(o));
    NotBelow(store, lb, i, Prefix(o));
    if Prefix(o) <= store[j].Key() { Between(Prefix(o), store[i].Key(), store[j].Key()); }
  }

  lemma NotBelow(store: seq<Slot>, lb: nat, i: nat, p: seq<byte>)
    requires Ordered(store) && lb <= i < |store| && !LexLess(store[lb].Key(), p)
    ensures !LexLess(store[i].Key(), p)
  {
    hide StoreKey;
    if LexLess(store[i].Key(), p) {
      LexTotal(p, store[lb].Key());
      if p != store[lb].Key() { LexTransitive(store[i].Key(), p, store[lb].Key()); }
    }
  }

  lemma {:induction false} WantedSame(store: seq<Slot>, o: Owner, props: Props, i: nat, j: nat)
    requires i <= j <= |store| && forall k :: i <= k < j ==> store[k].owner != o
    ensures Wanted(store[..j], o, props) == Wanted(store[..i], o, props)
    decreases j
  {
    if i < j {
      WantedSame(store, o, props, i, j - 1);
      assert store[..j][..j - 1] == store[..j - 1];
    }
  }

  lemma WantedNext(store: seq<Slot>, o: Owner, props: Props, i: nat)
    requires i < |store|
    ensures Wanted(store[..i + 1], o, props)
         == Wanted(store[..i], o, props) + if store[i].owner == o && store[i].name !in props then [store[i]] else []
  {
    assert store[..i + 1][..i] == store[..i];
  }

  /** The prefix scan: entries from the lower bound while the key has the prefix. */
  method ScanPrefix(store: seq<Slot>, o: Owner, props: Props) returns (toFetch: seq<Slot>)
    requires Ordered(store)
    ensures toFetch == Wanted(store, o, props)
  {
    hide Prefix, StoreKey, LexLess, Ordered, LowerBound, Wanted;
    var prefix := Prefix(o);
    var i := LowerBound(store, prefix);
    forall k | 0 <= k < i ensures store[k].owner != o { NoneBefore(store, o, k); }
    WantedSame(store, o, props, 0, i);
    WantedNothing(o, props);
    assert store[..0] == [] && store[..|store|] == store;
    toFetch := [];
    while i < |store|
      invariant LowerBound(store, prefix) <= i <= |store| && toFetch == Wanted(store[..i], o, props)
    {
      PrefixIff(o, store[i].owner, store[i].name);
      if !(prefix <= store[i].Key()) {
        forall k | i <= k < |store| ensures store[k].owner != o { NoneAfter(store, o, i, k); }
        WantedSame(store, o, props, i, |store|);
        return;
      }
      WantedNext(store, o, props, i);
      if store[i].name !in props { toFetch := toFetch + [store[i]]; }
      i := i + 1;
    }
  }

  lemma FilledNext(props: Props, slots: seq<Slot>, blobs: Blobs, k: nat)
    requires k < |slots|
    ensures var m := Filled(props, slots[..k], blobs);
            Filled(props, slots[..k + 1], blobs)
            == if m.None? || slots[k].blob !in blobs then None else Some(m.value[slots[k].name := blobs[slots[k].blob]])
  {
    assert slots[..k + 1][..k] == slots[..k];
  }

  lemma FilledNothing(props: Props, blobs: Blobs)
    ensures Filled(props, [], blobs) == Some(props)
  {
  }

  /** `extend_node_properties_from_store`: scan the prefix, then fetch. */
  method ExtendFromStore(store: seq<Slot>, blobs: Blobs, o: Owner, props: Props) returns (r: Option<Props>)
    requires Ordered(store)
    ensures r == Filled(props, Wanted(store, o, props), blobs)
  {
    hide Ordered, Wanted, Filled;
    var toFetch := ScanPrefix(store, o, props);
    var out := props;
    FilledNothing(props, blobs);
    assert toFetch[..0] == [] && toFetch[..|toFetch|] == toFetch;
    for k := 0 to |toFetch|
      invariant Filled(props, toFetch[..k], blobs) == Some(out)
    {
      FilledNext(props, toFetch, blobs, k);
      if toFetch[k].blob !in blobs {
        FilledStops(props, toFetch, blobs, k);
        return None;
      }
      out := out[toFetch[k].name := blobs[toFetch[k].blob]];
    }
    r := Some(out);
  }

  lemma {:induction false} FilledStops(props: Props, slots: seq<Slot>, blobs: Blobs, k: nat)
    requires k < |slots| && slots[k].blob !in blobs
    ensures Filled(props, slots, blobs).None?
  {
    if k < |slots| - 1 { FilledStops(props, slots[..|slots| - 1], blobs, k); }
  }

  lemma WantedNothing(o: Owner, props: Props)
    ensures Wanted([], o, props) == []
  {
  }

  lemma LastNext(store: seq<Slot>, o: Owner, name: Name, i: nat)
    requires i < |store|
    ensures LastBlob(store[..i + 1], o, name) == if Matches(store[i], o, name) then Some(store[i].blob) else LastBlob(store[..i], o, name)
  {
    assert store[..i + 1][..i] == store[..i];
  }

  lemma FilledSnoc(props: Props, slots: seq<Slot>, s: Slot, blobs: Blobs)
    requires Filled(props, slots, blobs).Some? && s.blob in blobs
    ensures Filled(props, slots + [s], blobs) == Some(Filled(props, slots, blobs).value[s.name := blobs[s.blob]])
  {
    assert (slots + [s])[..|slots|] == slots;
  }

  /** When every entry of the owner decodes, a name not in the map gets the value of its last entry. */
  lemma FilledIsLast(store: seq<Slot>, blobs: Blobs, o: Owner, props: Props, name: Name)
    requires forall i :: 0 <= i < |store| && store[i].owner == o ==> store[i].blob in blobs
    ensures var m := Filled(props, Wanted(store, o, props), blobs);
            && m.Some?
            && Get(m.value, name) == if name in props then Get(props, name) else Fetch(blobs, LastBlob(store, o, name))
  {
    hide Wanted, Filled, LastBlob;
    FilledUpTo(store, blobs, o, props, name, |store|);
    assert store[..|store|] == store;
  }

  lemma {:induction false} FilledUpTo(store: seq<Slot>, blobs: Blobs, o: Owner, props: Props, name: Name, n: nat)
    requires n <= |store| && forall i :: 0 <= i < |store| && store[i].owner == o ==> store[i].blob in blobs
    ensures var m := Filled(props, Wanted(store[..n], o, props), blobs);
            && m.Some?
            && Get(m.value, name) == if name in props then Get(props, name) else Fetch(blobs, LastBlob(store[..n], o, name))
  {
    hide Wanted, Filled;
    if n == 0 {
      WantedNothing(o, props);
      FilledNothing(props, blobs);
      assert store[..0] == [];
    } else {
      FilledUpTo(store, blobs, o, props, name, n - 1);
      WantedNext(store, o, props, n - 1);
      LastNext(store, o, name, n - 1);
      var w, s := Wanted(store[..n - 1], o, props), store[n - 1];
      if s.owner == o && s.name !in props { FilledSnoc(props, w, s, blobs); } else { assert w + [] == w; }
    }
  }

  // ---- The reader's view ---------------------------------------------------------------------------

  /** `node_property` and `edge_property`: the runs first, then the store. */
  function ApiPoint(runs: seq<Run>, store: seq<Slot>, blobs: Blobs, o: Owner, name: Name): Option<PropertyValue> {
    var v := Get(Applied(map[], runs, o), name);
    if v.Some? then v else ReadFromStore(store, blobs, o, name)
  }

  /** `node_properties` and `edge_properties`; `None` also when a blob does not decode. */
  function ApiMap(runs: seq<Run>, store: seq<Slot>, blobs: Blobs, o: Owner): Option<Props> {
    var props := Applied(map[], runs, o);
    var m := Filled(props, Wanted(store, o, props), blobs);
    if m.None? || m.value == map[] then None else m
  }

  function GetOpt(m: Option<Props>, name: Name): Option<PropertyValue> { if m.Some? then Get(m.value, name) else None }

  method PropertiesOf(runs: seq<Run>, store: seq<Slot>, blobs: Blobs, o: Owner) returns (r: Option<Props>)
    requires Ordered(store)
    ensures r == ApiMap(runs, store, blobs, o)
  {
    hide Applied, Wanted, Filled, Ordered;
    var props := MergeFromRuns(runs, o);
    var m := ExtendFromStore(store, blobs, o, props);
    if m.None? || m.value == map[] { return None; }
    r := m;
  }

  /**
   * Point and map lookups agree on a key exactly when the runs set it or its first and last store
   * entries hold the same value; with distinct store keys they always agree.
   */
  lemma PointAgreesWithMap(runs: seq<Run>, store: seq<Slot>, blobs: Blobs, o: Owner, name: Name)
    requires Ordered(store) && forall i :: 0 <= i < |store| && store[i].owner == o ==> store[i].blob in blobs
    ensures ApiPoint(runs, store, blobs, o, name) == GetOpt(ApiMap(runs, store, blobs, o), name) <==>
              name in Applied(map[], runs, o)
              || Fetch(blobs, FirstBlob(store, o, name)) == Fetch(blobs, LastBlob(store, o, name))
  {
    hide Applied, Wanted, Filled, ReadFromStore;
    ReadIsFirst(store, blobs, o, name);
    FilledIsLast(store, blobs, o, Applied(map[], runs, o), name);
  }

  ghost predicate DistinctKeys(store: seq<Slot>) {
    forall i, j :: 0 <= i < j < |store| ==> store[i].owner != store[j].owner || store[i].name != store[j].name
  }

  lemma {:induction false} DistinctFirstIsLast(store: seq<Slot>, o: Owner, name: Name)
    requires DistinctKeys(store)
    ensures FirstBlob(store, o, name) == LastBlob(store, o, name)
  {
    if i :| 0 <= i < |store| && Matches(store[i], o, name) {
      FirstBlobAt(store, o, name, i);
      LastBlobAt(store, o, name, i);
    } else {
      FirstBlobAt(store, o, name, |store|);
      NoLastBlob(store, o, name);
    }
  }

  lemma {:induction false} LastBlobAt(store: seq<Slot>, o: Owner, name: Name, i: nat)
    requires i < |store| && Matches(store[i], o, name) && forall j :: i < j < |store| ==> !Matches(store[j], o, name)
    ensures LastBlob(store, o, name) == Some(store[i].blob)
  {
    if i < |store| - 1 { LastBlobAt(store[..|store| - 1], o, name, i); }
  }

  lemma {:induction false} NoLastBlob(store: seq<Slot>, o: Owner, name: Name)
    requires forall j :: 0 <= j < |store| ==> !Matches(store[j], o, name)
    ensures LastBlob(store, o, name) == None
  {
    if store != [] { NoLastBlob(store[..|store| - 1], o, name); }
  }

  // ---- Removals and sinking ---------------------------------------------------------------------------

  /** The store as a map in effect, under the runs: what a lookup should see. */
  function Truth(runs: seq<Run>, stored: Option<PropertyValue>, o: Owner, name: Name): Option<PropertyValue> {
    match Newest(runs, o, name) case Set(v) => Some(v) case Removed => None case Unmentioned => stored
  }

  /** The lookup is right except for a key removed in the runs and still in the store. */
  lemma RemovedKeyResurfaces(runs: seq<Run>, store: seq<Slot>, blobs: Blobs, o: Owner, name: Name)
    ensures var stored := ReadFromStore(store, blobs, o, name);
            ApiPoint(runs, store, blobs, o, name) == Truth(runs, stored, o, name)
            <==> !(Newest(runs, o, name).Removed? && stored.Some?)
  {
    hide Applied, ReadFromStore;
    NewestIsApplied(map[], runs, o, name);
  }

  /** What compaction writes to the store for a key: the newest value, whatever was removed since. */
  function Sunk(runs: seq<Run>, o: Owner, name: Name): Option<PropertyValue> {
    if runs == [] then None
    else if name in PropsIn(runs[0], o) then Some(PropsIn(runs[0], o)[name])
    else Sunk(runs[1..], o, name)
  }

  /** Sinking takes the value of the first run, newest first, that sets the key, and nothing if none does. */
  lemma {:induction false} SunkMeans(runs: seq<Run>, o: Owner, name: Name, i: nat)
    requires DecidedTables(runs) && i <= |runs| && (forall j :: 0 <= j < i ==> !MarkIn(runs[j], o, name).SetTo?)
    requires i < |runs| ==> MarkIn(runs[i], o, name).SetTo?
    ensures Sunk(runs, o, name) == if i < |runs| then Told(MarkIn(runs[i], o, name)) else None
  {
    hide PropsIn, RemovedIn, MarkIn;
    if runs != [] {
      assert DecidedTables(runs[1..]);
      RunDecides(runs[0], o, name, map[]);
      if i > 0 {
        forall j | 0 <= j < i - 1 ensures !MarkIn(runs[1..][j], o, name).SetTo? { assert runs[1..][j] == runs[j + 1]; }
        SunkMeans(runs[1..], o, name, i - 1);
      }
    }
  }

  lemma {:induction false} SetIsSunk(runs: seq<Run>, o: Owner, name: Name)
    ensures Newest(runs, o, name).Set? ==> Sunk(runs, o, name) == Some(Newest(runs, o, name).value)
    ensures Newest(runs, o, name).Unmentioned? ==> Sunk(runs, o, name).None?
  {
    hide PropsIn, RemovedIn;
    if runs != [] { SetIsSunk(runs[1..], o, name); }
  }

  function Insert(store: seq<Slot>, s: Slot, i: nat): seq<Slot>
    requires i <= |store|
  {
    store[..i] + [s] + store[i..]
  }

  /** Where `BTree::insert` may put an entry: a leaf with room takes it in front of equal keys, a full one in front of any of them. */
  predicate Lands(store: seq<Slot>, s: Slot, i: nat) {
    var lb := LowerBound(store, s.Key());
    && lb <= i <= |store| && (forall j :: lb <= j < i ==> store[j].Key() == s.Key())
    && (i == lb || (i < |store| && store[i].Key() == s.Key()))
  }

  predicate InFront(store: seq<Slot>, s: Slot, i: nat) { i == LowerBound(store, s.Key()) }

  method Locate(store: seq<Slot>, s: Slot) returns (i: nat)
    ensures Lands(store, s, i)
  {
    var lb := LowerBound(store, s.Key());
    assert Lands(store, s, lb);
    i :| lb <= i <= |store| && Lands(store, s, i);
  }

  lemma InsertOrdered(store: seq<Slot>, s: Slot, at: nat)
    requires Ordered(store) && Lands(store, s, at)
    ensures Ordered(Insert(store, s, at))
  {
    hide StoreKey, LexLess, LowerBound;
    var lb, out := LowerBound(store, s.Key()), Insert(store, s, at);
    forall i, j | 0 <= i <= j < |out| ensures !LexLess(out[j].Key(), out[i].Key()) {
      LexIrreflexive(s.Key());
      if i < lb { BelowOnly(store[i].Key(), s.Key()); }
      if j == at && i < at {
        assert out[i] == store[i];
      } else if i == at && j > at {
        assert out[j] == store[j - 1];
        NotBelow(store, lb, j - 1, s.Key());
      } else if i != at && j != at {
        assert out[i] == store[if i < at then i else i - 1] && out[j] == store[if j < at then j else j - 1];
      }
    }
  }

  lemma BelowOnly(a: seq<byte>, b: seq<byte>)
    requires LexLess(a, b)
    ensures !LexLess(b, a)
  {
    if LexLess(b, a) {
      LexTransitive(a, b, a);
      LexIrreflexive(a);
    }
  }

  lemma FirstCons(s: Slot, rest: seq<Slot>, o: Owner, name: Name)
    ensures FirstBlob([s] + rest, o, name) == if Matches(s, o, name) then Some(s.blob) else FirstBlob(rest, o, name)
  {
    assert ([s] + rest)[1..] == rest;
  }

  lemma LastOne(s: Slot, o: Owner, name: Name)
    ensures LastBlob([s], o, name) == if Matches(s, o, name) then Some(s.blob) else None
  {
    assert [s][..0] == [];
  }

  /** A point read sees the inserted value exactly when it landed in front; every other key reads as before. */
  lemma InsertRead(store: seq<Slot>, s: Slot, i: nat, o: Owner, name: Name)
    requires Lands(store, s, i)
    ensures FirstBlob(Insert(store, s, i), o, name)
         == if Matches(s, o, name) && InFront(store, s, i) then Some(s.blob) else FirstBlob(store, o, name)
    ensures !InFront(store, s, i) ==> FirstBlob(store, s.owner, s.name).Some?
  {
    hide StoreKey, LexLess, LowerBound, Matches, FirstBlob;
    var a, b := store[..i], store[i..];
    assert store == a + b && Insert(store, s, i) == a + ([s] + b);
    FirstConcat(a, [s] + b, o, name);
    FirstConcat(a, b, o, name);
    FirstConcat(a, b, s.owner, s.name);
    FirstCons(s, b, o, name);
    MatchSelf(s, o, name);
    if InFront(store, s, i) {
      if Matches(s, o, name) {
        forall j | 0 <= j < i ensures !Matches(a[j], o, name) { BelowDiffers(store, s, j, o, name); }
        FirstBlobAt(a, o, name, i);
      }
    } else {
      var lb := LowerBound(store, s.Key());
      forall j | 0 <= j < lb ensures !Matches(a[j], s.owner, s.name) { BelowDiffers(store, s, j, s.owner, s.name); }
      MatchIff(store[lb], s.owner, s.name);
      FirstBlobAt(a, s.owner, s.name, lb);
    }
  }

  lemma MatchSelf(s: Slot, o: Owner, name: Name)
    ensures Matches(s, s.owner, s.name) && (Matches(s, o, name) ==> s.owner == o && s.name == name)
  {
  }

  lemma {:induction false} FirstConcat(a: seq<Slot>, b: seq<Slot>, o: Owner, name: Name)
    ensures FirstBlob(a + b, o, name) == if FirstBlob(a, o, name).Some? then FirstBlob(a, o, name) else FirstBlob(b, o, name)
  {
    hide Matches;
    if a == [] { assert a + b == b; } else {
      assert (a + b)[1..] == a[1..] + b;
      FirstConcat(a[1..], b, o, name);
    }
  }

  lemma {:induction false} LastConcat(a: seq<Slot>, b: seq<Slot>, o: Owner, name: Name)
    ensures LastBlob(a + b, o, name) == if LastBlob(b, o, name).Some? then LastBlob(b, o, name) else LastBlob(a, o, name)
  {
    hide Matches;
    if b == [] { assert a + b == a; } else {
      assert (a + b)[..|a + b| - 1] == a + b[..|b| - 1];
      LastConcat(a, b[..|b| - 1], o, name);
    }
  }

  lemma BelowDiffers(store: seq<Slot>, s: Slot, j: nat, o: Owner, name: Name)
    requires j < LowerBound(store, s.Key()) && Matches(s, o, name)
    ensures !Matches(store[j], o, name)
  {
    hide StoreKey, LexLess;
    LexIrreflexive(s.Key());
  }

  /** The last entry for a key the store holds stays the last. */
  lemma LastInserted(store: seq<Slot>, s: Slot, i: nat, o: Owner, name: Name)
    requires Lands(store, s, i) && LastBlob(store, o, name).Some?
    ensures LastBlob(Insert(store, s, i), o, name) == LastBlob(store, o, name)
  {
    hide LastBlob, Matches, LowerBound, StoreKey, LexLess;
    var a, b := store[..i], store[i..];
    assert store == a + b && Insert(store, s, i) == a + ([s] + b);
    LastConcat(a, b, o, name);
    LastConcat(a, [s] + b, o, name);
    LastConcat([s], b, o, name);
    LastOne(s, o, name);
    MatchSelf(s, o, name);
    if Matches(s, o, name) { HeldBehind(store, s, i, o, name); }
  }

  /** An equal key never lands behind all of its entries. */
  lemma HeldBehind(store: seq<Slot>, s: Slot, i: nat, o: Owner, name: Name)
    requires Lands(store, s, i) && LastBlob(store, o, name).Some? && s.owner == o && s.name == name
    ensures LastBlob(store[i..], o, name).Some?
  {
    hide LastBlob, Matches, LowerBound, StoreKey, LexLess;
    if InFront(store, s, i) {
      MatchSelf(s, o, name);
      forall j | 0 <= j < i ensures !Matches(store[..i][j], o, name) { BelowDiffers(store, s, j, o, name); }
      NoLastBlob(store[..i], o, name);
      assert store == store[..i] + store[i..];
      LastConcat(store[..i], store[i..], o, name);
    } else {
      MatchIff(store[i], o, name);
      assert store[i..][0] == store[i];
      SomeLastBlob(store[i..], o, name, 0);
    }
  }

  lemma {:induction false} SomeLastBlob(store: seq<Slot>, o: Owner, name: Name, i: nat)
    requires i < |store| && Matches(store[i], o, name)
    ensures LastBlob(store, o, name).Some?
  {
    hide Matches;
    if i < |store| - 1 { SomeLastBlob(store[..|store| - 1], o, name, i); }
  }

  // ---- Sinking -------------------------------------------------------------------------------------------

  type Sunken = map<(Owner, Utf8), PropertyValue>

  /** The values of one run by owner and key. */
  function Flat(run: Run): Sunken {
    (map n, k | n in run.nodeProps.values && k in run.nodeProps.values[n] :: (NodeOwner(n), k) := run.nodeProps.values[n][k])
    + (map e, k | e in run.edgeProps.values && k in run.edgeProps.values[e] :: (EdgeOwner(e), k) := run.edgeProps.values[e][k])
  }

  lemma FlatMeans(run: Run, o: Owner, key: Utf8)
    ensures (o, key) in Flat(run) <==> key in PropsIn(run, o)
    ensures (o, key) in Flat(run) ==> Flat(run)[(o, key)] == PropsIn(run, o)[key]
  {
  }

  ghost predicate Collected(runs: seq<Run>, m: Sunken) {
    forall o, name: Name :: (if (o, name) in m then Some(m[(o, name)]) else None) == Sunk(runs, o, name)
  }

  /** The sinking map: runs newest first, an entry kept once it is there. */
  method CollectSunk(runs: seq<Run>) returns (m: Sunken)
    ensures Collected(runs, m)
  {
    hide Flat;
    m := map[];
    for i := 0 to |runs|
      invariant Collected(runs[..i], m)
    {
      CollectStep(runs[..i], runs[i], m);
      assert runs[..i + 1] == runs[..i] + [runs[i]];
      m := Flat(runs[i]) + m;
    }
    assert runs[..|runs|] == runs;
  }

  lemma CollectStep(runs: seq<Run>, run: Run, m: Sunken)
    requires Collected(runs, m)
    ensures Collected(runs + [run], Flat(run) + m)
  {
    hide Flat, PropsIn;
    var out := Flat(run) + m;
    forall o, name: Name ensures (if (o, name) in out then Some(out[(o, name)]) else None) == Sunk(runs + [run], o, name) {
      assert (if (o, name) in m then Some(m[(o, name)]) else None) == Sunk(runs, o, name);
      SunkSnoc(runs, run, o, name);
      FlatMeans(run, o, name);
    }
  }

  lemma {:induction false} SunkSnoc(runs: seq<Run>, run: Run, o: Owner, name: Name)
    ensures Sunk(runs + [run], o, name)
         == if Sunk(runs, o, name).Some? then Sunk(runs, o, name)
            else if name in PropsIn(run, o) then Some(PropsIn(run, o)[name]) else None
  {
    hide PropsIn;
    if runs == [] {
      assert runs + [run] == [run] && [run][1..] == [];
    } else {
      assert (runs + [run])[1..] == runs[1..] + [run];
      SunkSnoc(runs[1..], run, o, name);
    }
  }

  /** The store's value for a key. */
  function Stored(store: seq<Slot>, blobs: Blobs, o: Owner, name: Name): Option<PropertyValue> {
    Fetch(blobs, FirstBlob(store, o, name))
  }

  /** Blob ids handed out for the sunk values are new and all different. */
  ghost predicate FreshIds(ids: map<(Owner, Utf8), u64>, store: seq<Slot>, blobs: Blobs) {
    && (forall k :: k in ids ==> ids[k] !in blobs && forall i :: 0 <= i < |store| ==> store[i].blob != ids[k])
    && (forall k, l :: k in ids && l in ids && k != l ==> ids[k] != ids[l])
  }

  lemma InsertFresh(store: seq<Slot>, s: Slot, at: nat, ids: map<(Owner, Utf8), u64>, blobs: Blobs, v: PropertyValue)
    requires at <= |store| && FreshIds(ids, store, blobs) && (s.owner, s.name) in ids && ids[(s.owner, s.name)] == s.blob
    ensures FreshIds(ids - {(s.owner, s.name)}, Insert(store, s, at), blobs[s.blob := v])
  {
    var out := Insert(store, s, at);
    forall i | 0 <= i < |out| ensures out[i] == s || exists j :: 0 <= j < |store| && store[j] == out[i] {
      if i < at { assert store[i] == out[i]; } else if i > at { assert store[i - 1] == out[i]; }
    }
  }

  lemma {:induction false} FirstFromStore(store: seq<Slot>, o: Owner, name: Name)
    ensures FirstBlob(store, o, name).Some? ==> exists i :: 0 <= i < |store| && store[i].blob == FirstBlob(store, o, name).value
  {
    if store != [] && !Matches(store[0], o, name) {
      FirstFromStore(store[1..], o, name);
      if FirstBlob(store, o, name).Some? {
        var i :| 0 <= i < |store[1..]| && store[1..][i].blob == FirstBlob(store, o, name).value;
        assert store[i + 1] == store[1..][i];
      }
    }
  }

  lemma InsertValue(store: seq<Slot>, s: Slot, i: nat, blobs: Blobs, v: PropertyValue, o: Owner, name: Name)
    requires Lands(store, s, i) && forall j :: 0 <= j < |store| ==> store[j].blob != s.blob
    ensures Stored(Insert(store, s, i), blobs[s.blob := v], o, name)
         == if Matches(s, o, name) && InFront(store, s, i) then Some(v) else Stored(store, blobs, o, name)
  {
    hide Insert, FirstBlob, Lands, InFront;
    assert i <= |store| by { LandsInside(store, s, i); }
    InsertRead(store, s, i, o, name);
    FirstFromStore(store, o, name);
  }

  lemma LandsInside(store: seq<Slot>, s: Slot, i: nat)
    requires Lands(store, s, i)
    ensures i <= |store|
  {
  }

  /** Sunk keys read as their values, except those in `but`, which read as before like every other key. */
  ghost predicate SinkState(sunk: Sunken, but: set<(Owner, Utf8)>, store: seq<Slot>, blobs: Blobs,
                            store': seq<Slot>, blobs': Blobs) {
    forall o, name: Name :: Stored(store', blobs', o, name)
      == if (o, name) in sunk && (o, name) !in but then Some(sunk[(o, name)]) else Stored(store, blobs, o, name)
  }

  lemma SinkStep(sunk: Sunken, but: set<(Owner, Utf8)>, store: seq<Slot>, blobs: Blobs, store': seq<Slot>,
                 blobs': Blobs, s: Slot, i: nat)
    requires SinkState(sunk, but, store, blobs, store', blobs') && (s.owner, s.name) in but && (s.owner, s.name) in sunk
    requires Lands(store', s, i) && forall j :: 0 <= j < |store'| ==> store'[j].blob != s.blob
    ensures SinkState(sunk, if InFront(store', s, i) then but - {(s.owner, s.name)} else but, store, blobs, Insert(store', s, i),
                      blobs'[s.blob := sunk[(s.owner, s.name)]])
  {
    hide Insert, Stored, Lands, InFront;
    LandsInside(store', s, i);
    var but' := if InFront(store', s, i) then but - {(s.owner, s.name)} else but;
    forall o, name: Name
      ensures Stored(Insert(store', s, i), blobs'[s.blob := sunk[(s.owner, s.name)]], o, name)
           == if (o, name) in sunk && (o, name) !in but' then Some(sunk[(o, name)]) else Stored(store, blobs, o, name)
    {
      InsertValue(store', s, i, blobs', sunk[(s.owner, s.name)], o, name);
    }
  }

  /** The keys still to be sunk are in the store exactly if they were before. */
  ghost predicate SameHeld(todo: set<(Owner, Utf8)>, store: seq<Slot>, store': seq<Slot>) {
    forall o, name: Name :: (o, name) in todo ==> FirstBlob(store', o, name) == FirstBlob(store, o, name)
  }

  lemma HeldStep(todo: set<(Owner, Utf8)>, store: seq<Slot>, store': seq<Slot>, s: Slot, i: nat)
    requires SameHeld(todo, store, store') && Lands(store', s, i) && (s.owner, s.name) in todo
    ensures SameHeld(todo - {(s.owner, s.name)}, store, Insert(store', s, i))
    ensures !InFront(store', s, i) ==> FirstBlob(store, s.owner, s.name).Some?
  {
    hide Insert, FirstBlob, Lands, InFront;
    LandsInside(store', s, i);
    InsertRead(store', s, i, s.owner, s.name);
    forall o, name: Name | (o, name) in todo - {(s.owner, s.name)}
      ensures FirstBlob(Insert(store', s, i), o, name) == FirstBlob(store, o, name)
    {
      InsertRead(store', s, i, o, name);
    }
  }

  /** Every key the store held keeps its last entry, the one the map lookup reads. */
  ghost predicate KeepsLast(store: seq<Slot>, store': seq<Slot>) {
    forall o, name: Name :: LastBlob(store, o, name).Some? ==> LastBlob(store', o, name) == LastBlob(store, o, name)
  }

  lemma LastStep(store: seq<Slot>, store': seq<Slot>, s: Slot, i: nat)
    requires KeepsLast(store, store') && Lands(store', s, i)
    ensures KeepsLast(store, Insert(store', s, i))
  {
    hide Insert, LastBlob, Lands;
    LandsInside(store', s, i);
    forall o, name: Name | LastBlob(store, o, name).Some? ensures LastBlob(Insert(store', s, i), o, name) == LastBlob(store, o, name) {
      LastInserted(store', s, i, o, name);
    }
  }

  /** Only keys the store held can land behind an entry of their own. */
  ghost predicate WereHeld(late: set<(Owner, Utf8)>, store: seq<Slot>) {
    forall o, name: Name :: (o, name) in late ==> FirstBlob(store, o, name).Some?
  }

  /**
   * The sinking loop: one blob and one insertion per value. `ids` are the page ids the blob store returned; `late` are
   * the keys that landed behind an older entry, which then hides the new value.
   */
  method SinkAll(sunk: Sunken, store: seq<Slot>, blobs: Blobs, ids: map<(Owner, Utf8), u64>)
    returns (store': seq<Slot>, blobs': Blobs, ghost late: set<(Owner, Utf8)>)
    requires Ordered(store) && ids.Keys == sunk.Keys && FreshIds(ids, store, blobs)
    requires forall k :: k in sunk ==> |k.1| <= U32_MAX
    ensures Ordered(store') && SinkState(sunk, late, store, blobs, store', blobs') && late <= sunk.Keys && WereHeld(late, store)
    ensures KeepsLast(store, store')
  {
    hide Insert, Ordered, SinkState, FreshIds, Lands, InFront, SameHeld, FirstBlob, KeepsLast;
    store', blobs', late := store, blobs, {};
    var todo := sunk.Keys;
    ghost var left := ids;
    SinkStart(sunk, store, blobs);
    while todo != {}
      invariant todo <= sunk.Keys && left.Keys == todo && (forall k :: k in left ==> left[k] == ids[k])
      invariant Ordered(store') && FreshIds(left, store', blobs') && SameHeld(todo, store, store')
      invariant SinkState(sunk, todo + late, store, blobs, store', blobs')
      invariant late <= sunk.Keys && late !! todo && WereHeld(late, store) && KeepsLast(store, store')
      decreases todo
    {
      var k :| k in todo;
      var s := Slot(k.0, k.1, ids[k]);
      var i := Locate(store', s);
      LandsInside(store', s, i);
      FreshMeans(left, store', blobs', k);
      SinkStep(sunk, todo + late, store, blobs, store', blobs', s, i);
      HeldStep(todo, store, store', s, i);
      LastStep(store, store', s, i);
      InsertFresh(store', s, i, left, blobs', sunk[k]);
      InsertOrdered(store', s, i);
      ghost var front := InFront(store', s, i);
      store', blobs' := Insert(store', s, i), blobs'[ids[k] := sunk[k]];
      if front {
        assert todo + late - {k} == todo - {k} + late;
      } else {
        assert todo + late == todo - {k} + (late + {k});
        late := late + {k};
      }
      todo := todo - {k};
      left := left - {k};
    }
    assert {} + late == late;
  }

  lemma SinkStart(sunk: Sunken, store: seq<Slot>, blobs: Blobs)
    ensures SinkState(sunk, sunk.Keys + {}, store, blobs, store, blobs) && SameHeld(sunk.Keys, store, store) && KeepsLast(store, store)
  {
  }

  lemma FreshMeans(ids: map<(Owner, Utf8), u64>, store: seq<Slot>, blobs: Blobs, k: (Owner, Utf8))
    requires FreshIds(ids, store, blobs) && k in ids
    ensures forall i :: 0 <= i < |store| ==> store[i].blob != ids[k]
  {
  }

  /**
   * A compaction that sinks the runs keeps a point lookup exactly when neither a removal with an older, different value
   * behind it is the key's newest mention, nor its newest value landed behind a different older entry.
   */
  lemma SinkPreservesIff(runs: seq<Run>, m: Sunken, late: set<(Owner, Utf8)>, store: seq<Slot>, blobs: Blobs, store': seq<Slot>,
                         blobs': Blobs, o: Owner, name: Name)
    requires Collected(runs, m) && Ordered(store) && Ordered(store') && SinkState(m, late, store, blobs, store', blobs')
    ensures ApiPoint([], store', blobs', o, name) == ApiPoint(runs, store, blobs, o, name)
            <==> Sunk(runs, o, name).None? || Sunk(runs, o, name) == ReadFromStore(store, blobs, o, name)
                 || (Newest(runs, o, name).Removed? <==> (o, name) in late)
  {
    hide ReadFromStore, Ordered;
    ReadIsFirst(store, blobs, o, name);
    ReadIsFirst(store', blobs', o, name);
    NewestIsApplied(map[], runs, o, name);
    SetIsSunk(runs, o, name);
    assert (if (o, name) in m then Some(m[(o, name)]) else None) == Sunk(runs, o, name);
    assert Stored(store', blobs', o, name)
        == if (o, name) in m && (o, name) !in late then Some(m[(o, name)]) else Stored(store, blobs, o, name);
  }

  /**
   * Sinking a key the store already holds: the map keeps the value it had, so after any number of compactions the one
   * sunk first; the point read sees the new value exactly when it landed in front of the older entries.
   */
  lemma ResunkKeyDiverges(store: seq<Slot>, s: Slot, i: nat, blobs: Blobs)
    requires Ordered(store) && Lands(store, s, i) && i <= |store| && LastBlob(store, s.owner, s.name).Some?
    requires forall j :: 0 <= j < |Insert(store, s, i)| && Insert(store, s, i)[j].owner == s.owner ==> Insert(store, s, i)[j].blob in blobs
    ensures ApiPoint([], Insert(store, s, i), blobs, s.owner, s.name)
         == Fetch(blobs, if InFront(store, s, i) then Some(s.blob) else FirstBlob(store, s.owner, s.name))
    ensures GetOpt(ApiMap([], Insert(store, s, i), blobs, s.owner), s.name) == Fetch(blobs, LastBlob(store, s.owner, s.name))
  {
    hide Insert, Ordered, ReadFromStore, FirstBlob, LastBlob, Wanted, Filled, Lands, InFront;
    InsertOrdered(store, s, i);
    InsertRead(store, s, i, s.owner, s.name);
    LastInserted(store, s, i, s.owner, s.name);
    ReadIsFirst(Insert(store, s, i), blobs, s.owner, s.name);
    FilledIsLast(Insert(store, s, i), blobs, s.owner, map[], s.name);
  }
}
