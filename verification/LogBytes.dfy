/**
 Where a stop may fall in the bytes of the logs: each log is written by log::Writer as the contents of write
 batches, the stop cuts it at any byte behind what was synced, and recovery reads it with log::Reader.
 */
module LogBytes {
  import opened Keys
  import opened WriteQueue
  import opened Recovery
  import Coding
  import LogFormat
  import LogWriter
  import LogRoundTrip
  import Batches = WriteBatch

  /** The bytes of a log file. */
  function LogFileOf(payloads: seq<seq<bv8>>): seq<bv8> {
    LogWriter.Records(0, payloads)
  }

  function Contents(payload: seq<bv8>): (s: Coding.Bytes)
    ensures |s| == |payload|
  {
    seq(|payload|, i requires 0 <= i < |payload| => LogFormat.NatOf(payload[i]))
  }

  /** The payload is the batch that the record stands for. */
  ghost predicate Encodes(payload: seq<bv8>, r: LogRecord) {
    exists ops :: Batches.IsBatch(Contents(payload), r.sequence, ops) && Batches.RankedOps(ops) == r.ops
  }

  ghost predicate EncodesAll(payloads: seq<seq<bv8>>, records: seq<LogRecord>) {
    |payloads| == |records| && forall i :: 0 <= i < |records| ==> Encodes(payloads[i], records[i])
  }

  /** A byte position at which a stop may cut the log: not within what was synced. */
  ghost predicate MayCutAt(payloads: seq<seq<bv8>>, synced: nat, n: nat) {
    synced <= |payloads| && |LogFileOf(payloads[..synced])| <= n <= |LogFileOf(payloads)|
  }

  /** A record that is read back gives the operations that were logged, with their numbers. */
  lemma RecordComesBack(payload: seq<bv8>, r: LogRecord)
    requires Encodes(payload, r) && r.sequence <= MAX_SEQUENCE
    ensures |payload| >= Batches.HEADER
    ensures Batches.Sequence(Contents(payload)) == r.sequence
    ensures Batches.Outcome(Contents(payload)).1 == Batches.Ok
    ensures Batches.RankedOps(Batches.Outcome(Contents(payload)).0) == r.ops
  {
    hide Batches.EncodedOps, Batches.ParseAll, Batches.Outcome, Coding.Fixed64, Coding.Fixed32, Coding.DecodeFixed;
    var rep := Contents(payload);
    var ops :| Batches.IsBatch(rep, r.sequence, ops) && Batches.RankedOps(ops) == r.ops;
    Batches.BatchHeader(rep, r.sequence, ops);
    Batches.BatchRoundTrip(rep, r.sequence, ops, |rep|);
    Batches.SequenceReads(r.sequence);
    assert rep[..|rep|] == rep;
  }

  /**
   However the stop cuts the bytes of a log, reading it back gives its first records, whole and with nothing
   reported as corrupted, and all synced ones are among them.
   */
  lemma CutLogReplays(payloads: seq<seq<bv8>>, records: seq<LogRecord>, synced: nat, n: nat) returns (k: nat)
    requires EncodesAll(payloads, records) && MayCutAt(payloads, synced, n)
    ensures synced <= k <= |records| && EncodesAll(payloads[..k], records[..k])
    ensures var replay := LogRoundTrip.ReplayFrom(LogFileOf(payloads)[..n], 0);
            replay.records == payloads[..k] && replay.drops == []
    ensures k == |records| || n < |LogFileOf(payloads[..k + 1])|
  {
    hide LogWriter.Records, LogRoundTrip.Whole, LogRoundTrip.ReplayFrom, Encodes;
    k := LogRoundTrip.Whole(0, payloads, n);
    LogRoundTrip.WholeCounts(0, payloads, n, synced);
    if k < |payloads| {
      LogRoundTrip.WholeCounts(0, payloads, n, k + 1);
    }
    LogRoundTrip.TruncatedLogReplays(payloads, n);
  }

  /** Every number of records from the synced ones on is what some cut leaves. */
  lemma CutAfter(payloads: seq<seq<bv8>>, synced: nat, k: nat) returns (n: nat)
    requires synced <= k <= |payloads|
    ensures MayCutAt(payloads, synced, n)
    ensures LogRoundTrip.ReplayFrom(LogFileOf(payloads)[..n], 0).records == payloads[..k]
  {
    hide LogWriter.Records, LogRoundTrip.Whole, LogRoundTrip.ReplayFrom;
    n := |LogFileOf(payloads[..k])|;
    FileGrows(payloads, k, |payloads|);
    FileGrows(payloads, synced, k);
    assert payloads[..|payloads|] == payloads;
    LogRoundTrip.WholeCounts(0, payloads, n, k);
    if k < |payloads| {
      LogRoundTrip.WholeCounts(0, payloads, n, k + 1);
      FileGrows(payloads, k, k + 1);
    }
    LogRoundTrip.TruncatedLogReplays(payloads, n);
  }

  /** More records, more bytes. */
  lemma {:induction false} FileGrows(payloads: seq<seq<bv8>>, j: nat, k: nat)
    requires j <= k <= |payloads|
    ensures |LogFileOf(payloads[..j])| <= |LogFileOf(payloads[..k])|
    ensures j < k ==> |LogFileOf(payloads[..j])| < |LogFileOf(payloads[..k])|
    decreases k
  {
    hide LogWriter.Records, LogWriter.Record;
    if j < k {
      FileGrows(payloads, j, k - 1);
      assert payloads[..k] == payloads[..k - 1] + [payloads[k - 1]];
      LogWriter.RecordsAppend(0, payloads[..k - 1], payloads[k - 1]);
      RecordIsLong(|LogFileOf(payloads[..k - 1])|, payloads[k - 1]);
    }
  }

  lemma RecordIsLong(p: nat, data: seq<bv8>)
    ensures |LogWriter.Record(p, data, true)| > 0
  {
  }

  // ---- stops ---------------------------------------------------------------------------------------------

  /** The bytes of all logs, and where the stop cuts them. */
  ghost predicate MayCut(s: State, payloads: map<nat, seq<seq<bv8>>>, cuts: map<nat, nat>) {
    && payloads.Keys == cuts.Keys == s.logs.Keys
    && forall n :: n in s.logs ==>
         EncodesAll(payloads[n], s.logs[n]) && n in s.synced && MayCutAt(payloads[n], s.synced[n], cuts[n])
  }

  /** What log::Reader finds in the logs is what the records are. */
  ghost predicate ReadsAs(payloads: map<nat, seq<seq<bv8>>>, cuts: map<nat, nat>, kept: map<nat, seq<LogRecord>>) {
    && payloads.Keys == cuts.Keys == kept.Keys
    && forall n :: n in payloads ==>
         && cuts[n] <= |LogFileOf(payloads[n])|
         && var replay := LogRoundTrip.ReplayFrom(LogFileOf(payloads[n])[..cuts[n]], 0);
            replay.drops == [] && EncodesAll(replay.records, kept[n])
  }

  /** A stop in the middle of any bytes is one of the stops between records. */
  lemma CutIsStop(s: State, payloads: map<nat, seq<seq<bv8>>>, cuts: map<nat, nat>)
    returns (kept: map<nat, seq<LogRecord>>)
    requires MayCut(s, payloads, cuts)
    ensures Stopped(s, kept) && ReadsAs(payloads, cuts, kept)
  {
    hide LogFileOf, LogRoundTrip.ReplayFrom, LogRoundTrip.Whole, EncodesAll;
    forall n | n in s.logs
      ensures exists k: nat :: k <= |s.logs[n]| && IsCut(payloads[n], s.logs[n], s.synced[n], cuts[n], k)
    {
      var k := CutLogReplays(payloads[n], s.logs[n], s.synced[n], cuts[n]);
      assert IsCut(payloads[n], s.logs[n], s.synced[n], cuts[n], k);
    }
    kept := map n | n in s.logs ::
      var k: nat :| k <= |s.logs[n]| && IsCut(payloads[n], s.logs[n], s.synced[n], cuts[n], k); s.logs[n][..k];
    forall n | n in s.logs
      ensures kept[n] <= s.logs[n] && s.synced[n] <= |kept[n]|
      ensures cuts[n] <= |LogFileOf(payloads[n])|
      ensures var replay := LogRoundTrip.ReplayFrom(LogFileOf(payloads[n])[..cuts[n]], 0);
              replay.drops == [] && EncodesAll(replay.records, kept[n])
    {
      var k: nat :| k <= |s.logs[n]| && IsCut(payloads[n], s.logs[n], s.synced[n], cuts[n], k)
          && kept[n] == s.logs[n][..k];
    }
  }

  ghost predicate IsCut(payloads: seq<seq<bv8>>, records: seq<LogRecord>, synced: nat, n: nat, k: nat) {
    && synced <= k <= |records| && n <= |LogFileOf(payloads)|
    && var replay := LogRoundTrip.ReplayFrom(LogFileOf(payloads)[..n], 0);
       replay.drops == [] && EncodesAll(replay.records, records[..k])
  }
}
