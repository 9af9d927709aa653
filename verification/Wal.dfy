/** The redo log as a byte sequence: framing, the record reader, replay, and truncation as the crash step. */
module WalLog {
  import opened Bytes
  import opened Wrappers
  import opened WalRecords

  const MAX_WAL_RECORD_LEN: u32 := 1024 * 1024

  /** The checksum is any function of the body: nothing below depends on which one. */
  const Crc32: seq<byte> -> u32

  datatype CommittedTx = CommittedTx(txid: u64, ops: seq<WalRecord>)

  // ---- Framing --------------------------------------------------------------

  /** What `append` accepts: the body length fits the 32-bit length field. */
  predicate Appendable(r: WalRecord) {
    EncodableRecord(r) && |EncodeBody(r)| <= U32_MAX
  }

  /** What `next_record` can read back. */
  predicate Storable(r: WalRecord): (ok: bool)
    ensures ok ==> Appendable(r)
  {
    EncodableRecord(r) && |EncodeBody(r)| <= MAX_WAL_RECORD_LEN
  }

  function Frame(r: WalRecord): (b: seq<byte>)
    requires Appendable(r)
    ensures |b| > 8
  {
    var body := EncodeBody(r);
    U32Bytes(|body|) + U32Bytes(Crc32(body)) + body
  }

  predicate AllAppendable(recs: seq<WalRecord>) { forall i :: 0 <= i < |recs| ==> Appendable(recs[i]) }

  predicate AllStorable(recs: seq<WalRecord>) { forall i :: 0 <= i < |recs| ==> Storable(recs[i]) }

  function Frames(recs: seq<WalRecord>): seq<byte>
    requires AllAppendable(recs)
  {
    if recs == [] then [] else Frame(recs[0]) + Frames(recs[1..])
  }

  // ---- Reading ----------------------------------------------------------------

  datatype Read = End | Record(record: WalRecord, size: nat)

  /** `WalReader::next_record` on the unread bytes: a short or checksum-failing record ends the log. */
  function NextRecord(b: seq<byte>): (r: Result<Read>)
    ensures r.Ok? && r.value.Record? ==> 8 <= r.value.size <= |b|
  {
    if |b| < 4 then Ok(End)
    else
      var len := W4(b, 0);
      if len > MAX_WAL_RECORD_LEN then Err(WalRecordTooLarge(len))
      else if |b| < 8 + len then Ok(End)
      else if Crc32(b[8..8 + len]) != W4(b, 4) then Ok(End)
      else
        var record :- DecodeBody(b[8..8 + len]);
        Ok(Record(record, 8 + len))
  }

  datatype Replay = Replay(current: Option<u64>, pending: seq<WalRecord>, done: seq<CommittedTx>)

  const Start := Replay(None, [], [])

  function Step(st: Replay, r: WalRecord): Result<Replay> {
    match r
    case BeginTx(txid) => Ok(Replay(Some(txid), [], st.done))
    case CommitTx(txid) =>
      if st.current != Some(txid) then Err(WalProtocol("CommitTx without matching BeginTx"))
      else Ok(Replay(None, [], st.done + [CommittedTx(txid, st.pending)]))
    case _ =>
      if st.current.None? then Err(WalProtocol("op outside tx"))
      else Ok(st.(pending := st.pending + [r]))
  }

  function Scan(b: seq<byte>, st: Replay): Result<Replay>
    decreases |b|
  {
    var next :- NextRecord(b);
    if next.End? then Ok(st)
    else
      var st' :- Step(st, next.record);
      Scan(b[next.size..], st')
  }

  /** `replay_committed`: the transactions whose commit record is readable. */
  function ReplayCommitted(b: seq<byte>): Result<seq<CommittedTx>> {
    var st :- Scan(b, Start);
    Ok(st.done)
  }

  function Steps(recs: seq<WalRecord>, st: Replay): Result<Replay>
    decreases |recs|
  {
    if recs == [] then Ok(st)
    else
      var st' :- Step(st, recs[0]);
      Steps(recs[1..], st')
  }

  // ---- Whole and torn frames ----------------------------------------------------

  lemma NextOfFrame(r: WalRecord, rest: seq<byte>)
    requires Storable(r)
    ensures NextRecord(Frame(r) + rest) == Ok(Record(r, |Frame(r)|))
  {
    hide EncodeBody, EncodableRecord, DecodeBody;
    FrameFields(r, rest);
    BodyRoundTrip(r);
  }

  lemma FrameFields(r: WalRecord, rest: seq<byte>)
    requires Appendable(r)
    ensures var b, body := Frame(r) + rest, EncodeBody(r);
            W4(b, 0) == |body| && W4(b, 4) == Crc32(body) && b[8..8 + |body|] == body
  {
    hide EncodeBody, EncodableRecord;
    var body := EncodeBody(r);
    var b := Frame(r) + rest;
    assert b == [] + U32Bytes(|body|) + (U32Bytes(Crc32(body)) + body + rest);
    Word4([], |body|, U32Bytes(Crc32(body)) + body + rest);
    assert b == U32Bytes(|body|) + U32Bytes(Crc32(body)) + (body + rest);
    Word4(U32Bytes(|body|), Crc32(body), body + rest);
  }

  /** A frame cut anywhere short of its end reads as the end of the log. */
  lemma TornFrame(r: WalRecord, k: nat)
    requires Storable(r) && k < |Frame(r)|
    ensures NextRecord(Frame(r)[..k]) == Ok(End)
  {
    var b := Frame(r)[..k];
    if k >= 4 {
      FrameFields(r, []);
      assert Frame(r) + [] == Frame(r);
      assert b[0..4] == Frame(r)[0..4];
    }
  }

  /** An oversized record is appended without complaint but ends every later replay in an error. */
  lemma OversizedFrame(r: WalRecord, rest: seq<byte>)
    requires Appendable(r) && !Storable(r)
    ensures NextRecord(Frame(r) + rest) == Err(WalRecordTooLarge(|EncodeBody(r)|))
  {
    FrameFields(r, rest);
  }

  lemma ScanEmpty(st: Replay)
    ensures Scan([], st) == Ok(st)
  {
  }

  lemma {:induction false} ScanFrames(recs: seq<WalRecord>, rest: seq<byte>, st: Replay)
    requires AllStorable(recs)
    ensures Scan(Frames(recs) + rest, st) ==
            (var st' := Steps(recs, st); if st'.Ok? then Scan(rest, st'.value) else st')
  {
    hide NextRecord, Appendable, Storable, Frame;
    if recs == [] {
      assert Frames(recs) + rest == rest;
    } else {
      var head, more := Frame(recs[0]), Frames(recs[1..]);
      assert Frames(recs) + rest == head + (more + rest);
      NextOfFrame(recs[0], more + rest);
      assert (head + (more + rest))[|head|..] == more + rest;
      var st' := Step(st, recs[0]);
      if st'.Ok? { ScanFrames(recs[1..], rest, st'.value); }
    }
  }

  // ---- Logs of whole transactions --------------------------------------------------

  predicate TxMarker(r: WalRecord) { r.BeginTx? || r.CommitTx? }

  function TxRecords(tx: CommittedTx): seq<WalRecord> {
    [BeginTx(tx.txid)] + tx.ops + [CommitTx(tx.txid)]
  }

  /** Ordinary records only, each accepted by `append`. */
  predicate LoggableTx(tx: CommittedTx) {
    AllAppendable(tx.ops) && forall i :: 0 <= i < |tx.ops| ==> !TxMarker(tx.ops[i])
  }

  predicate ReadableTx(tx: CommittedTx): (ok: bool)
    ensures ok ==> LoggableTx(tx)
  {
    LoggableTx(tx) && AllStorable(tx.ops)
  }

  lemma MarkersStorable(txid: u64)
    ensures Storable(BeginTx(txid)) && Storable(CommitTx(txid))
    ensures |EncodeBody(BeginTx(txid))| == 9 && |EncodeBody(CommitTx(txid))| == 9
  {
  }

  lemma TxAppendable(tx: CommittedTx)
    requires LoggableTx(tx)
    ensures AllAppendable(TxRecords(tx))
    ensures AllStorable(tx.ops) ==> AllStorable(TxRecords(tx))
  {
    hide Appendable, Storable, Frame;
    MarkersStorable(tx.txid);
  }

  function TxBytes(tx: CommittedTx): seq<byte>
    requires LoggableTx(tx)
  {
    TxAppendable(tx);
    Frames(TxRecords(tx))
  }

  lemma {:induction false} StepsConcat(a: seq<WalRecord>, b: seq<WalRecord>, st: Replay)
    ensures Steps(a + b, st) == (var m := Steps(a, st); if m.Ok? then Steps(b, m.value) else m)
  {
    if a == [] {
      assert a + b == b;
    } else {
      assert (a + b)[1..] == a[1..] + b;
      var st' := Step(st, a[0]);
      if st'.Ok? { StepsConcat(a[1..], b, st'.value); }
    }
  }

  lemma {:induction false} StepsOps(ops: seq<WalRecord>, st: Replay)
    requires st.current.Some? && forall i :: 0 <= i < |ops| ==> !TxMarker(ops[i])
    ensures Steps(ops, st) == Ok(st.(pending := st.pending + ops))
  {
    if ops == [] {
      assert st.pending + ops == st.pending;
    } else {
      StepsOps(ops[1..], st.(pending := st.pending + [ops[0]]));
      assert st.pending + [ops[0]] + ops[1..] == st.pending + ops;
    }
  }

  lemma StepsSingle(r: WalRecord, st: Replay)
    ensures Steps([r], st) == Step(st, r)
  {
    hide Step;
    var st' := Step(st, r);
    if st'.Ok? { assert Steps([r][1..], st'.value) == st'; }
  }

  /** From any state a whole transaction adds exactly itself. */
  lemma StepsTx(tx: CommittedTx, st: Replay)
    requires LoggableTx(tx)
    ensures Steps(TxRecords(tx), st) == Ok(Replay(None, [], st.done + [tx]))
  {
    hide Appendable, Storable, Frame, Steps;
    var begun := Replay(Some(tx.txid), [], st.done);
    var filled := begun.(pending := [] + tx.ops);
    assert [] + tx.ops == tx.ops;
    StepsSingle(BeginTx(tx.txid), st);
    StepsConcat([BeginTx(tx.txid)], tx.ops, st);
    StepsOps(tx.ops, begun);
    StepsConcat([BeginTx(tx.txid)] + tx.ops, [CommitTx(tx.txid)], st);
    StepsSingle(CommitTx(tx.txid), filled);
  }

  // ---- Logs of whole records, unfinished transactions included ----------------------------

  /** The committed transactions among the records. */
  function Done(recs: seq<WalRecord>): seq<CommittedTx>
    requires Steps(recs, Start).Ok?
  {
    Steps(recs, Start).value.done
  }

  /** The file holds these records, and they replay to these transactions. */
  ghost predicate Carries(file: seq<byte>, recs: seq<WalRecord>, log: seq<CommittedTx>) {
    AllStorable(recs) && file == Frames(recs) && Steps(recs, Start).Ok? && Done(recs) == log
  }

  // ---- Which records make a log -------------------------------------------------------------------------

  /** The transaction begun last, unless it is committed. */
  function OpenTx(recs: seq<WalRecord>): Option<u64> {
    if recs == [] then None
    else
      match recs[|recs| - 1]
      case BeginTx(txid) => Some(txid)
      case CommitTx(_) => None
      case _ => OpenTx(recs[..|recs| - 1])
  }

  /** The records after the last begin or commit. */
  function SinceMarker(recs: seq<WalRecord>): seq<WalRecord> {
    if recs == [] || recs[|recs| - 1].BeginTx? || recs[|recs| - 1].CommitTx? then []
    else SinceMarker(recs[..|recs| - 1]) + [recs[|recs| - 1]]
  }

  /** Every commit closes the transaction that is open, and every other record lies in one. */
  predicate WellBracketed(recs: seq<WalRecord>) {
    recs == []
    || (var front := recs[..|recs| - 1];
        && WellBracketed(front)
        && match recs[|recs| - 1]
           case BeginTx(_) => true
           case CommitTx(txid) => OpenTx(front) == Some(txid)
           case _ => OpenTx(front).Some?)
  }

  /** Each commit record with the records since its begin; what was begun and not committed is dropped. */
  function Harvest(recs: seq<WalRecord>): seq<CommittedTx> {
    if recs == [] then []
    else
      var front := recs[..|recs| - 1];
      match recs[|recs| - 1]
      case CommitTx(txid) => Harvest(front) + [CommittedTx(txid, SinceMarker(front))]
      case _ => Harvest(front)
  }

  /** Replay accepts exactly the well-bracketed records and returns exactly their transactions. */
  lemma {:induction false} BracketsIff(recs: seq<WalRecord>)
    ensures Steps(recs, Start).Ok? <==> WellBracketed(recs)
    ensures Steps(recs, Start).Ok? ==>
              var st := Steps(recs, Start).value;
              st.done == Harvest(recs) && st.current == OpenTx(recs) && (st.current.Some? ==> st.pending == SinceMarker(recs))
    decreases |recs|
  {
    if recs != [] {
      var n := |recs| - 1;
      var front, r := recs[..n], recs[n];
      assert recs == front + [r] && [r][1..] == [];
      BracketsIff(front);
      StepsConcat(front, [r], Start);
      if Steps(front, Start).Ok? { assert Steps([r], Steps(front, Start).value) == Step(Steps(front, Start).value, r); }
    }
  }

  /** How many records lie wholly within the first `k` bytes. */
  function WholeFrames(recs: seq<WalRecord>, k: nat): (j: nat)
    requires AllStorable(recs)
    ensures j <= |recs|
  {
    if recs == [] || k < |Frame(recs[0])| then 0 else 1 + WholeFrames(recs[1..], k - |Frame(recs[0])|)
  }

  lemma {:induction false} WholeFramesExact(recs: seq<WalRecord>, k: nat, j: nat)
    requires AllStorable(recs) && j <= |recs|
    ensures j <= WholeFrames(recs, k) <==> |Frames(recs[..j])| <= k
  {
    hide Appendable, Storable, Frame;
    if j != 0 {
      var first := |Frame(recs[0])|;
      assert recs[..j][1..] == recs[1..][..j - 1];
      if k >= first { WholeFramesExact(recs[1..], k - first, j - 1); }
    }
  }

  /** Cut anywhere, the reader takes exactly the whole frames. */
  lemma {:induction false} ScanCut(recs: seq<WalRecord>, k: nat, st: Replay)
    requires AllStorable(recs) && k <= |Frames(recs)|
    ensures Scan(Frames(recs)[..k], st) == Steps(recs[..WholeFrames(recs, k)], st)
  {
    hide NextRecord, Appendable, Storable, Frame;
    if recs == [] {
      assert Frames(recs)[..k] == [];
      ScanEmpty(st);
    } else {
      var head, more := Frame(recs[0]), Frames(recs[1..]);
      if k < |head| {
        assert Frames(recs)[..k] == head[..k];
        TornFrame(recs[0], k);
      } else {
        var left := k - |head|;
        var j := WholeFrames(recs[1..], left);
        assert Frames(recs)[..k] == head + more[..left];
        NextOfFrame(recs[0], more[..left]);
        assert (head + more[..left])[|head|..] == more[..left];
        assert recs[..j + 1][1..] == recs[1..][..j];
        var st' := Step(st, recs[0]);
        if st'.Ok? { ScanCut(recs[1..], left, st'.value); }
      }
    }
  }

  lemma {:induction false} StepsGrow(recs: seq<WalRecord>, st: Replay)
    requires Steps(recs, st).Ok?
    ensures st.done <= Steps(recs, st).value.done
    decreases |recs|
  {
    if recs != [] { StepsGrow(recs[1..], Step(st, recs[0]).value); }
  }

  /** A shorter log replays to a prefix of the transactions. */
  lemma DonePrefix(recs: seq<WalRecord>, j: nat)
    requires Steps(recs, Start).Ok? && j <= |recs|
    ensures Steps(recs[..j], Start).Ok? && Done(recs[..j]) <= Done(recs)
  {
    assert recs == recs[..j] + recs[j..];
    StepsConcat(recs[..j], recs[j..], Start);
    StepsGrow(recs[j..], Steps(recs[..j], Start).value);
  }

  function Commits(recs: seq<WalRecord>): nat {
    if recs == [] then 0 else (if recs[0].CommitTx? then 1 else 0) + Commits(recs[1..])
  }

  /** One committed transaction per commit record. */
  lemma {:induction false} DoneCounts(recs: seq<WalRecord>, st: Replay)
    requires Steps(recs, st).Ok?
    ensures |Steps(recs, st).value.done| == |st.done| + Commits(recs)
    decreases |recs|
  {
    if recs != [] { DoneCounts(recs[1..], Step(st, recs[0]).value); }
  }

  /** How many transactions a cut at byte `k` leaves: those whose commit frame survives whole. */
  function Survivors(recs: seq<WalRecord>, k: nat): nat
    requires AllStorable(recs)
  {
    Commits(recs[..WholeFrames(recs, k)])
  }

  /**
   * Crash consistency of the log: cut at any byte, replay returns exactly the transactions whose
   * commit frame survives whole, in order, with their records unchanged.
   */
  lemma TruncationRecoversPrefix(file: seq<byte>, recs: seq<WalRecord>, log: seq<CommittedTx>, k: nat)
    requires Carries(file, recs, log) && k <= |file|
    ensures Survivors(recs, k) <= |log| && ReplayCommitted(file[..k]) == Ok(log[..Survivors(recs, k)])
  {
    hide Scan, Storable, Appendable, Frame;
    var j := WholeFrames(recs, k);
    ScanCut(recs, k, Start);
    DonePrefix(recs, j);
    DoneCounts(recs[..j], Start);
    assert Done(recs[..j]) == log[..Commits(recs[..j])];
    assert Scan(file[..k], Start) == Steps(recs[..j], Start);
  }

  /** What survives a cut on a record boundary is again a log. */
  lemma BoundaryCarries(file: seq<byte>, recs: seq<WalRecord>, log: seq<CommittedTx>, j: nat)
    requires Carries(file, recs, log) && j <= |recs|
    ensures Commits(recs[..j]) <= |log| && Carries(Frames(recs[..j]), recs[..j], log[..Commits(recs[..j])])
  {
    hide Storable, Appendable, Frame;
    DonePrefix(recs, j);
    DoneCounts(recs[..j], Start);
  }

  /** The whole file replays to the whole log. */
  lemma WholeLog(file: seq<byte>, recs: seq<WalRecord>, log: seq<CommittedTx>)
    requires Carries(file, recs, log)
    ensures ReplayCommitted(file) == Ok(log)
  {
    hide Scan, Storable, Appendable, Frame;
    ScanFrames(recs, [], Start);
    assert Frames(recs) + [] == Frames(recs);
    ScanEmpty(Steps(recs, Start).value);
  }

  /** A transaction appended after any record boundary, an unfinished transaction included, is recovered. */
  lemma AppendCarries(file: seq<byte>, recs: seq<WalRecord>, log: seq<CommittedTx>, tx: CommittedTx)
    requires Carries(file, recs, log) && ReadableTx(tx)
    ensures Carries(file + TxBytes(tx), recs + TxRecords(tx), log + [tx])
  {
    hide Storable, Appendable, Frame;
    TxAppendable(tx);
    FramesConcat(recs, TxRecords(tx));
    StepsConcat(recs, TxRecords(tx), Start);
    StepsTx(tx, Steps(recs, Start).value);
  }

  lemma {:induction false} NoCommits(recs: seq<WalRecord>)
    requires forall i :: 0 <= i < |recs| ==> !recs[i].CommitTx?
    ensures Commits(recs) == 0
  {
    if recs != [] { NoCommits(recs[1..]); }
  }

  lemma {:induction false} CommitsConcat(a: seq<WalRecord>, b: seq<WalRecord>)
    ensures Commits(a + b) == Commits(a) + Commits(b)
  {
    if a == [] {
      assert a + b == b;
    } else {
      assert (a + b)[1..] == a[1..] + b;
      CommitsConcat(a[1..], b);
    }
  }

  /** Appending is all or nothing: cut anywhere inside the new bytes, replay gives the log without the transaction. */
  lemma AppendIsAtomic(file: seq<byte>, recs: seq<WalRecord>, log: seq<CommittedTx>, tx: CommittedTx, k: nat)
    requires Carries(file, recs, log) && ReadableTx(tx) && |file| <= k <= |file + TxBytes(tx)|
    ensures ReplayCommitted((file + TxBytes(tx))[..k]) == Ok(if k == |file + TxBytes(tx)| then log + [tx] else log)
  {
    hide Storable, Appendable, Frame, TxBytes, ReplayCommitted, Frames, Steps, WholeFrames;
    AppendCarries(file, recs, log, tx);
    var all, both := recs + TxRecords(tx), log + [tx];
    var whole := file + TxBytes(tx);
    if k == |whole| {
      assert whole[..k] == whole;
      WholeLog(whole, all, both);
    } else {
      TruncationRecoversPrefix(whole, all, both, k);
      AtomicSurvivors(file, recs, log, tx, k);
      assert both[..|log|] == log;
    }
  }

  lemma AtomicSurvivors(file: seq<byte>, recs: seq<WalRecord>, log: seq<CommittedTx>, tx: CommittedTx, k: nat)
    requires Carries(file, recs, log) && ReadableTx(tx) && |file| <= k < |file + TxBytes(tx)|
    requires Carries(file + TxBytes(tx), recs + TxRecords(tx), log + [tx])
    ensures Survivors(recs + TxRecords(tx), k) == |log|
  {
    hide Storable, Appendable, Frame, Frames, WholeFrames, Commits;
    var all, added := recs + TxRecords(tx), TxRecords(tx);
    var j := WholeFrames(all, k);
    assert all[..|recs|] == recs && all[..|all|] == all;
    WholeFramesExact(all, k, |recs|);
    WholeFramesExact(all, k, |all|);
    DoneCounts(recs, Start);
    assert all[..j] == recs + added[..j - |recs|];
    CommitsConcat(recs, added[..j - |recs|]);
    NoCommits(added[..j - |recs|]);
  }

  lemma EmptyCarries()
    ensures Carries([], [], [])
  {
  }

  /** The bytes start with a whole frame by their length field, and the checksum of what lies there fits by chance. */
  ghost predicate Collides(b: seq<byte>) {
    && |b| >= 8 && W4(b, 0) <= MAX_WAL_RECORD_LEN && |b| >= 8 + W4(b, 0)
    && Crc32(b[8..8 + W4(b, 0)]) == W4(b, 4)
  }

  /**
   * From a torn tail it is not. `open` keeps the tail and `append` writes after it: whatever record was
   * being written and wherever the crash cut it, everything appended from then on is lost, silently or
   * with an error from every later replay, unless the straddled bytes pass the checksum by chance.
   */
  lemma AppendAfterTornTail(file: seq<byte>, recs: seq<WalRecord>, log: seq<CommittedTx>,
                            r: WalRecord, k: nat, next: CommittedTx)
    requires Carries(file, recs, log) && ReadableTx(next) && Appendable(r) && k < |Frame(r)|
    requires k != 0 ==> !Collides(Frame(r)[..k] + TxBytes(next))
    ensures var b := Frame(r)[..k] + TxBytes(next);
            ReplayCommitted(file + b) ==
              if k == 0 then Ok(log + [next])
              else if W4(b, 0) > MAX_WAL_RECORD_LEN then Err(WalRecordTooLarge(W4(b, 0)))
              else Ok(log)
    ensures ReplayCommitted(file + (Frame(r)[..k] + TxBytes(next))) == Ok(log + [next]) <==> k == 0
  {
    hide Scan, NextRecord, Frame, ReadableTx, TxBytes, Storable, Appendable;
    var b, st := Frame(r)[..k] + TxBytes(next), Steps(recs, Start).value;
    BeginFrame(next);
    if k == 0 {
      assert b == TxBytes(next);
      AppendCarries(file, recs, log, next);
      WholeLog(file + b, recs + TxRecords(next), log + [next]);
    } else {
      ScanFrames(recs, b, Start);
      ScanTorn(b, st);
      assert |log + [next]| != |log|;
    }
  }

  lemma ScanTorn(b: seq<byte>, st: Replay)
    requires !Collides(b) && |b| >= 4
    ensures Scan(b, st) == if W4(b, 0) > MAX_WAL_RECORD_LEN then Err(WalRecordTooLarge(W4(b, 0))) else Ok(st)
  {
  }

  lemma BeginFrame(tx: CommittedTx)
    requires LoggableTx(tx)
    ensures |TxBytes(tx)| > 4
  {
    TxAppendable(tx);
  }

  lemma BeginFrameLength(txid: u64)
    ensures Appendable(BeginTx(txid)) && |Frame(BeginTx(txid))| == 17
    ensures Frame(BeginTx(txid))[..4] == [9, 0, 0, 0]
  {
    MarkersStorable(txid);
    var f := Frame(BeginTx(txid));
    assert f[..4] == U32Bytes(9);
    assert LE(9, 4) == [9] + LE(0, 3);
    assert LE(0, 3) == [0] + LE(0, 2);
    assert LE(0, 2) == [0] + LE(0, 1);
  }

  lemma TornThenBegin(torn: u64, next: CommittedTx)
    requires ReadableTx(next) && Appendable(BeginTx(torn)) && |Frame(BeginTx(torn))| == 17 && |TxBytes(next)| > 4
    ensures W4(Frame(BeginTx(torn))[..3] + TxBytes(next), 0) > MAX_WAL_RECORD_LEN
  {
    TxAppendable(next);
    BeginFrameLength(torn);
    BeginFrameLength(next.txid);
    var head := Frame(BeginTx(next.txid));
    var b := Frame(BeginTx(torn))[..3] + TxBytes(next);
    assert TxBytes(next)[0] == head[0] == head[..4][0];
    assert forall i :: 0 <= i < 3 ==> b[i] == Frame(BeginTx(torn))[..4][i];
    assert b[0..4] == [9, 0, 0, 9];
    var w: seq<byte> := [9, 0, 0, 9];
    assert w[1..] == [0, 0, 9] && w[1..][1..] == [0, 9] && w[1..][1..][1..] == [9];
    assert FromLE(w[1..][1..][1..]) == 9;
    assert FromLE(w) == 9 + 256 * (256 * (256 * 9));
  }

  /** Three bytes of a begin record are such a tail, whatever the checksum: the next commit makes the log unreadable. */
  lemma ThreeTornBytes(file: seq<byte>, recs: seq<WalRecord>, log: seq<CommittedTx>, torn: u64, next: CommittedTx)
    requires Carries(file, recs, log) && ReadableTx(next)
    ensures Appendable(BeginTx(torn)) && |Frame(BeginTx(torn))| == 17
    ensures ReplayCommitted(file + (Frame(BeginTx(torn))[..3] + TxBytes(next))).Err?
  {
    hide Scan, NextRecord, Frame, ReadableTx, LoggableTx, TxBytes, Storable, Appendable;
    BeginFrameLength(torn);
    BeginFrame(next);
    TornThenBegin(torn, next);
    AppendAfterTornTail(file, recs, log, BeginTx(torn), 3, next);
  }

  /** The bytes of a torn record that a cut at `k` leaves at the end of the file. */
  function TornTail(recs: seq<WalRecord>, k: nat): (tail: seq<byte>)
    requires AllStorable(recs) && k <= |Frames(recs)|
  {
    var j := WholeFrames(recs, k);
    WholeFramesExact(recs, k, j);
    Frames(recs)[|Frames(recs[..j])|..k]
  }

  lemma FramesFrom(recs: seq<WalRecord>, j: nat)
    requires AllAppendable(recs) && j < |recs|
    ensures AllAppendable(recs[j..]) && Frame(recs[j]) <= Frames(recs[j..])
    ensures |Frames(recs[..j + 1])| == |Frames(recs[..j])| + |Frame(recs[j])|
  {
    hide Storable, Appendable, Frame;
    assert recs[..j + 1] == recs[..j] + [recs[j]];
    FramesSnoc(recs[..j], recs[j]);
  }

  lemma Split(a: seq<byte>, b: seq<byte>, k: nat)
    requires |a| <= k <= |a| + |b|
    ensures (a + b)[..k] == a + b[..k - |a|] && (a + b)[|a|..k] == b[..k - |a|]
  {
  }

  lemma TornTailIsTorn(recs: seq<WalRecord>, k: nat)
    requires AllStorable(recs) && k <= |Frames(recs)|
    ensures var j, tail := WholeFrames(recs, k), TornTail(recs, k);
            && Frames(recs)[..k] == Frames(recs[..j]) + tail
            && (j == |recs| ==> tail == [])
            && (j < |recs| ==> |tail| < |Frame(recs[j])| && tail == Frame(recs[j])[..|tail|])
  {
    hide Storable, Appendable, Frame, Frames, WholeFrames;
    var j := WholeFrames(recs, k);
    WholeFramesExact(recs, k, j);
    assert recs[..j] + recs[j..] == recs;
    FramesConcat(recs[..j], recs[j..]);
    var front, back := Frames(recs[..j]), Frames(recs[j..]);
    Split(front, back, k);
    if j < |recs| {
      WholeFramesExact(recs, k, j + 1);
      FramesFrom(recs, j);
      Prefixes(Frame(recs[j]), back, k - |front|);
    } else {
      assert recs[..j] == recs;
    }
  }

  lemma Prefixes(a: seq<byte>, b: seq<byte>, n: nat)
    requires a <= b && n <= |a|
    ensures a[..n] == b[..n]
  {
  }

  /**
   * Crash at any byte, reopen, commit: the transaction is recovered with everything that survived exactly
   * when the crash left no torn record, chance checksums aside.
   */
  lemma CutThenAppendIff(file: seq<byte>, recs: seq<WalRecord>, log: seq<CommittedTx>, k: nat, next: CommittedTx)
    requires Carries(file, recs, log) && k <= |file| && ReadableTx(next)
    requires TornTail(recs, k) == [] || !Collides(TornTail(recs, k) + TxBytes(next))
    ensures Survivors(recs, k) <= |log|
    ensures ReplayCommitted(file[..k] + TxBytes(next)) == Ok(log[..Survivors(recs, k)] + [next]) <==> TornTail(recs, k) == []
  {
    hide Storable, Appendable, Frame, TxBytes, Collides, ReplayCommitted, ReadableTx, TornTail, WholeFrames, Frames, Commits;
    var j, tail := WholeFrames(recs, k), TornTail(recs, k);
    BoundaryCarries(file, recs, log, j);
    TornTailIsTorn(recs, k);
    var r, cut := if j < |recs| then recs[j] else BeginTx(0), |tail|;
    MarkersStorable(0);
    assert Frame(r)[..cut] == tail;
    AppendAfterTornTail(Frames(recs[..j]), recs[..j], log[..Survivors(recs, k)], r, cut, next);
    Associate(Frames(recs[..j]), tail, TxBytes(next));
  }

  lemma Associate(a: seq<byte>, b: seq<byte>, c: seq<byte>)
    ensures a + b + c == a + (b + c)
  {
  }

  /** A log that `append` accepted is readable exactly when every body is within the reader's limit. */
  lemma ReadableIff(recs: seq<WalRecord>)
    requires AllAppendable(recs) && Steps(recs, Start).Ok?
    ensures ReplayCommitted(Frames(recs)).Ok? <==> AllStorable(recs)
  {
    hide Scan, Storable, Appendable, Frame;
    if AllStorable(recs) {
      WholeLog(Frames(recs), recs, Done(recs));
    } else {
      ScanOversized(recs, [], Start);
      assert Frames(recs) + [] == Frames(recs);
    }
  }

  lemma {:induction false} FramesConcat(a: seq<WalRecord>, b: seq<WalRecord>)
    requires AllAppendable(a) && AllAppendable(b)
    ensures AllAppendable(a + b) && Frames(a + b) == Frames(a) + Frames(b)
  {
    hide Appendable, Storable, Frame;
    if a == [] {
      assert a + b == b;
    } else {
      assert (a + b)[1..] == a[1..] + b;
      FramesConcat(a[1..], b);
    }
  }

  lemma {:induction false} ScanOversized(recs: seq<WalRecord>, rest: seq<byte>, st: Replay)
    requires AllAppendable(recs) && !AllStorable(recs)
    ensures Scan(Frames(recs) + rest, st).Err?
  {
    hide NextRecord, Appendable, Storable, Frame;
    var head, more := Frame(recs[0]), Frames(recs[1..]) + rest;
    Associate(head, Frames(recs[1..]), rest);
    if Storable(recs[0]) {
      NextOfFrame(recs[0], more);
      assert (head + more)[|head|..] == more;
      var st' := Step(st, recs[0]);
      if st'.Ok? { ScanOversized(recs[1..], rest, st'.value); }
    } else {
      OversizedFrame(recs[0], more);
    }
  }

  /** A transaction with an oversized record makes the whole log unreadable. */
  lemma UnreadableTx(file: seq<byte>, recs: seq<WalRecord>, log: seq<CommittedTx>, tx: CommittedTx)
    requires Carries(file, recs, log) && LoggableTx(tx) && !ReadableTx(tx)
    ensures ReplayCommitted(file + TxBytes(tx)).Err?
  {
    hide Storable, Appendable, Frame, Scan;
    TxAppendable(tx);
    assert !AllStorable(TxRecords(tx)) by {
      var i :| 0 <= i < |tx.ops| && !Storable(tx.ops[i]);
      assert TxRecords(tx)[i + 1] == tx.ops[i];
    }
    ScanFrames(recs, TxBytes(tx), Start);
    ScanOversized(TxRecords(tx), [], Steps(recs, Start).value);
    assert TxBytes(tx) + [] == TxBytes(tx);
  }

  // ---- The log file as an object ------------------------------------------------------

  class Wal {
    /** The file's bytes. */
    var file: seq<byte>
    /** How many of them the last `fsync` made durable. */
    var synced: nat

    ghost predicate Valid()
      reads this
    {
      synced <= |file|
    }

    /** Whatever a crash now leaves of the file replays to these transactions. */
    ghost predicate Safe(log: seq<CommittedTx>)
      reads this
    {
      forall k :: synced <= k <= |file| ==> ReplayCommitted(file[..k]) == Ok(log)
    }

    constructor Open(bytes: seq<byte>)
      ensures Valid() && file == bytes && synced == |bytes|
    {
      file, synced := bytes, |bytes|;
    }

    /** `append`: one frame at the end of the file, and its offset. */
    method Append(record: WalRecord) returns (r: Result<nat>)
      requires Valid()
      modifies this`file
      ensures Valid()
      ensures Appendable(record) ==> r == Ok(|old(file)|) && file == old(file) + Frame(record)
      ensures !Appendable(record) ==> r.Err? && file == old(file)
    {
      if !Appendable(record) { return Err(WalRecordTooLarge(U32_MAX)); }
      r := Ok(|file|);
      file := file + Frame(record);
    }

    method Fsync()
      modifies this`synced
      ensures synced == |file| && Valid()
      ensures forall k :: synced <= k <= |file| ==> file[..k] == file
    {
      synced := |file|;
    }

    /** One whole transaction: begin, every operation, commit. */
    method AppendTx(tx: CommittedTx)
      requires Valid() && LoggableTx(tx)
      modifies this`file
      ensures Valid() && file == old(file) + TxBytes(tx)
    {
      hide Appendable, Storable, Frame;
      TxAppendable(tx);
      var recs := TxRecords(tx);
      FramesSnocInit(file);
      for i := 0 to |recs|
        invariant Valid() && file == old(file) + Frames(recs[..i])
      {
        FramesSnoc(recs[..i], recs[i]);
        assert recs[..i + 1] == recs[..i] + [recs[i]];
        Associate(old(file), Frames(recs[..i]), Frame(recs[i]));
        var _ := Append(recs[i]);
      }
      assert recs[..|recs|] == recs;
    }

    /**
     * One whole transaction and the `fsync` that makes it durable: no later crash can lose it. With a
     * record the reader refuses, no later replay succeeds.
     */
    method AppendDurably(tx: CommittedTx, ghost recs: seq<WalRecord>, ghost log: seq<CommittedTx>)
      requires Valid() && Carries(file, recs, log) && LoggableTx(tx)
      modifies this
      ensures Valid() && synced == |file| && file == old(file) + TxBytes(tx)
      ensures ReadableTx(tx) ==> Carries(file, recs + TxRecords(tx), log + [tx]) && Safe(log + [tx]) && ReplayCommitted(file) == Ok(log + [tx])
      ensures !ReadableTx(tx) ==> ReplayCommitted(file).Err?
    {
      hide LoggableTx, ReadableTx, TxBytes, Carries, ReplayCommitted;
      AppendTx(tx);
      Fsync();
      if ReadableTx(tx) {
        AppendCarries(old(file), recs, log, tx);
        WholeLog(file, recs + TxRecords(tx), log + [tx]);
      } else {
        UnreadableTx(old(file), recs, log, tx);
      }
    }

    /** `rewrite_as_snapshot`: a temporary file is written and made durable, then replaces the old one in one rename. */
    method RewriteAsSnapshot(tx: CommittedTx)
      requires Valid() && LoggableTx(tx)
      modifies this
      ensures Valid() && synced == |file| && file == TxBytes(tx)
      ensures ReadableTx(tx) ==> Carries(file, TxRecords(tx), [tx]) && Safe([tx])
      ensures !ReadableTx(tx) ==> ReplayCommitted(file).Err?
    {
      hide LoggableTx, ReadableTx, TxBytes, Carries, ReplayCommitted;
      EmptyCarries();
      var tmp := new Wal.Open([]);
      tmp.AppendDurably(tx, [], []);
      file, synced := tmp.file, tmp.synced;
      assert [] + TxBytes(tx) == TxBytes(tx) && [] + TxRecords(tx) == TxRecords(tx) && [] + [tx] == [tx];
    }

    /** `replay_committed_from_path`: the reader's offset and the open transaction as loop state. */
    method ReplayLog() returns (r: Result<seq<CommittedTx>>)
      ensures r == ReplayCommitted(file)
    {
      hide NextRecord;
      var offset: nat := 0;
      var current: Option<u64> := None;
      var pending: seq<WalRecord> := [];
      var out: seq<CommittedTx> := [];
      assert file[0..] == file;
      while true
        invariant offset <= |file|
        invariant Scan(file, Start) == Scan(file[offset..], Replay(current, pending, out))
        decreases |file| - offset
      {
        var next := NextRecord(file[offset..]);
        if next.Err? { return Err(next.error); }
        if next.value.End? { return Ok(out); }
        assert file[offset..][next.value.size..] == file[offset + next.value.size..];
        var record := next.value.record;
        match record {
        case BeginTx(txid) =>
          current, pending := Some(txid), [];
        case CommitTx(txid) =>
          if current != Some(txid) { return Err(WalProtocol("CommitTx without matching BeginTx")); }
          current, pending, out := None, [], out + [CommittedTx(txid, pending)];
        case _ =>
          if current.None? { return Err(WalProtocol("op outside tx")); }
          pending := pending + [record];
        }
        offset := offset + next.value.size;
      }
    }
  }

  lemma FramesSnocInit(b: seq<byte>)
    ensures b + Frames([]) == b
  {
  }

  lemma FramesSnoc(a: seq<WalRecord>, r: WalRecord)
    requires AllAppendable(a) && Appendable(r)
    ensures AllAppendable(a + [r]) && Frames(a + [r]) == Frames(a) + Frame(r)
  {
    hide Appendable, Storable, Frame;
    FramesConcat(a, [r]);
    assert Frames([r]) == Frame(r) + Frames([]);
  }
}
