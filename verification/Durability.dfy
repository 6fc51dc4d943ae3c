/**
 What a stop can lose (DBImpl::Write, MakeRoomForWrite, db/db_impl.cc).  Only a sync puts log records on
 disk for good; a stop may cut each log anywhere behind its synced records.
 */
module Durability {
  import opened Options
  import opened Keys
  import opened Files
  import opened Lsm
  import opened CompactionInputs
  import opened CompactionRules
  import opened Steps
  import opened Runs
  import opened WriteQueue
  import opened GroupCommit
  import opened Recovery

  // ---- synced records ------------------------------------------------------------------------------------

  /** The last sequence number of an acknowledged batch. */
  function Last(a: Ack): int {
    a.first + |BatchOps(a.writer)| - 1
  }

  predicate IsSyncWrite(a: Ack) {
    a.writer.sync && a.writer.batch.Some?
  }

  /** The operations of a log that have been synced. */
  function SyncedOps(s: State, n: nat): seq<Op> {
    if n in s.logs && n in s.synced && s.synced[n] <= |s.logs[n]| then LogOps(s.logs[n][..s.synced[n]]) else []
  }

  /** No batch straddles two logs. */
  predicate InOneLog(s: State, a: Ack) {
    && 0 < a.first && s.origin < a.first && Last(a) <= s.db.lastSequence
    && (Last(a) <= s.memBase || s.memBase < a.first)
    && (Last(a) <= s.immBase || s.immBase < a.first)
  }

  /** The batch has left the logs for the tables, or it is among the synced operations of its log. */
  predicate OnDisk(s: State, a: Ack) {
    || Last(a) <= Base(s)
    || (s.db.imm.Some? && Last(a) <= s.immBase + |SyncedOps(s, s.manifestLog)|)
    || (s.memBase < a.first && Last(a) <= s.memBase + |SyncedOps(s, s.logNumber)|)
  }

  ghost predicate SyncInv(s: State) {
    && s.origin <= s.immBase <= s.memBase
    && s.logNumber in s.logs && s.manifestLog in s.logs
    && (forall n :: n in s.logs ==> n in s.synced && s.synced[n] <= |s.logs[n]|)
    && (s.phase.Writing? && s.phase.stage.Inserting? && s.writers != [] && s.writers[0].sync ==>
          s.synced[s.logNumber] == |s.logs[s.logNumber]|)
    && (forall a <- s.acked :: InOneLog(s, a))
    && (forall a <- s.acked :: IsSyncWrite(a) ==> OnDisk(s, a))
  }

  /** More records, more operations. */
  lemma {:induction false} OpsGrow(records: seq<LogRecord>, j: nat, k: nat)
    requires j <= k <= |records|
    ensures LogOps(records[..j]) <= LogOps(records[..k])
  {
    hide LogOps;
    OpsCut(records[..k], j);
    assert records[..k][..j] == records[..j];
  }

  lemma SwitchKeepsSync(s: State, s': State)
    requires QInv(s) && SyncInv(s) && Step(s, Switch, s')
    ensures SyncInv(s')
  {
    hide Inv, QueueInv, PhaseInv, ManifestInv, LogOps, Backs, Applied, GroupOps, Tables, ValidLevels;
    LogFacts(s);
    assert SyncedOps(s', s'.manifestLog) == SyncedOps(s, s.logNumber);
    forall a | a in s.acked
      ensures InOneLog(s', a) && (IsSyncWrite(a) ==> OnDisk(s', a))
    {
      assert InOneLog(s, a);
    }
  }

  lemma AppendKeepsSync(s: State, s': State)
    requires QInv(s) && SyncInv(s) && Step(s, AppendLog, s')
    ensures SyncInv(s')
  {
    hide Inv, QueueInv, PhaseInv, ManifestInv, LogOps, Backs, Applied, GroupOps;
    var k := s.synced[s.logNumber];
    assert s'.logs[s.logNumber][..k] == s.logs[s.logNumber][..k];
    assert forall n :: n in s.logs ==> SyncedOps(s', n) == SyncedOps(s, n);
    forall a | a in s.acked
      ensures InOneLog(s', a) && (IsSyncWrite(a) ==> OnDisk(s', a))
    {
      assert InOneLog(s, a);
    }
  }

  lemma SyncKeepsSync(s: State, s': State)
    requires QInv(s) && SyncInv(s) && Step(s, SyncLog, s')
    ensures SyncInv(s')
  {
    hide Inv, QueueInv, PhaseInv, ManifestInv, LogOps, Backs, Applied, GroupOps;
    var records := s.logs[s.logNumber];
    OpsGrow(records, s.synced[s.logNumber], |records|);
    assert forall n :: n in s.logs && n != s.logNumber ==> SyncedOps(s', n) == SyncedOps(s, n);
    forall a | a in s.acked
      ensures InOneLog(s', a) && (IsSyncWrite(a) ==> OnDisk(s', a))
    {
      assert InOneLog(s, a);
    }
  }

  /** Where the batches of a group end. */
  lemma AckEnds(ws: seq<Writer>, last: nat, i: nat)
    requires i < |ws|
    ensures var a := Acks(ws, last)[i];
      last < a.first && Last(a) <= last + |GroupOps(ws)|
  {
    hide GroupOps, BatchOps;
    GroupGrows(ws, i);
    GroupOpsConcat(ws[..i + 1], ws[i + 1..]);
    assert ws == ws[..i + 1] + ws[i + 1..];
  }

  lemma FinishKeepsSync(s: State, s': State)
    requires QInv(s) && SyncInv(s) && Step(s, Finish, s')
    ensures SyncInv(s')
  {
    hide Inv, QueueInv, ManifestInv, LogOps, Backs, Applied, GroupOps, Acks;
    var ws, last := s.writers[..s.phase.group], s.db.lastSequence;
    LogFacts(s);
    var records := s.logs[s.logNumber];
    assert records[..|records|] == records;
    assert forall n :: n in s.logs ==> SyncedOps(s', n) == SyncedOps(s, n);
    forall a | a in s'.acked
      ensures InOneLog(s', a) && (IsSyncWrite(a) ==> OnDisk(s', a))
    {
      if a in s.acked {
        assert InOneLog(s, a);
      } else {
        var i :| 0 <= i < |ws| && Acks(ws, last)[i] == a;
        AckEnds(ws, last, i);
        AckIs(ws, last, i);
        if IsSyncWrite(a) {
          SyncWriterHasSyncLeader(s.writers, s.phase.group, i);
        }
      }
    }
  }

  lemma AckIs(ws: seq<Writer>, last: nat, i: nat)
    requires i < |ws|
    ensures Acks(ws, last)[i].writer == ws[i]
  {
  }

  lemma SkipKeepsSync(s: State, s': State)
    requires QInv(s) && SyncInv(s) && Step(s, Skip, s')
    ensures SyncInv(s')
  {
    hide Inv, PhaseInv, ManifestInv, LogOps, Backs, Applied, GroupOps;
    LogFacts(s);
    assert forall n :: n in s.logs ==> SyncedOps(s', n) == SyncedOps(s, n);
    forall a | a in s'.acked
      ensures InOneLog(s', a) && (IsSyncWrite(a) ==> OnDisk(s', a))
    {
      if a in s.acked {
        assert InOneLog(s, a);
      }
    }
  }

  lemma BackgroundKeepsSync(s: State, a: Action, s': State)
    requires QInv(s) && SyncInv(s) && Step(s, Background(a), s')
    ensures SyncInv(s')
  {
    hide QInv, Step, LogOps, Committed;
    BackgroundImm(s, a, s');
    LogFacts(s);
    assert forall n :: n in s.logs ==> SyncedOps(s', n) == SyncedOps(s, n);
    if s.db.imm.Some? {
      OldOpsSynced(s);
    }
    forall b | b in s.acked
      ensures InOneLog(s', b) && (IsSyncWrite(b) ==> OnDisk(s', b))
    {
      assert InOneLog(s, b);
    }
  }

  /** A background event leaves logs, queue and acknowledgements; a flush takes the old memtable. */
  lemma BackgroundImm(s: State, a: Action, s': State)
    requires QInv(s) && Step(s, Background(a), s')
    ensures LogInv(s) && s'.db.lastSequence == s.db.lastSequence
    ensures if a.FlushMemTable? then s.db.imm.Some? && s'.db.imm.None? else s'.db.imm == s.db.imm
    ensures s'.logs == s.logs && s'.synced == s.synced && s'.acked == s.acked && s'.logNumber == s.logNumber
    ensures s'.phase == s.phase && s'.writers == s.writers
    ensures s'.origin == s.origin && s'.immBase == s.immBase && s'.memBase == s.memBase
    ensures s'.manifestLog == if a.FlushMemTable? then s.logNumber else s.manifestLog
  {
    hide Inv, Chosen, Replaced, FileAdded, Sorted, Contents, QueueInv, PhaseInv, ManifestInv, LogInv;
  }

  /** What is synced of the old log is no more than the log. */
  lemma OldOpsSynced(s: State)
    requires LogInv(s) && s.db.imm.Some?
    ensures |SyncedOps(s, s.manifestLog)| <= |LogOps(s.logs[s.manifestLog])|
    ensures s.immBase + |LogOps(s.logs[s.manifestLog])| == s.memBase
  {
    hide LogOps, Backs;
    if s.manifestLog in s.synced && s.synced[s.manifestLog] <= |s.logs[s.manifestLog]| {
      OpsCut(s.logs[s.manifestLog], s.synced[s.manifestLog]);
    }
  }

  /** Events that touch neither logs nor acknowledgements. */
  lemma QuietKeepsSync(s: State, e: Event, s': State)
    requires QInv(s) && SyncInv(s) && Step(s, e, s')
    requires e.Arrive? || e.Lead? || e.InsertOp? || e.DeleteLog?
    ensures SyncInv(s')
  {
    hide Inv, QueueInv, ManifestInv, LogOps, Backs, Applied, GroupOps, IsGroup, AllJoin, Inserted;
    assert SyncedOps(s', s'.logNumber) == SyncedOps(s, s.logNumber);
    assert SyncedOps(s', s'.manifestLog) == SyncedOps(s, s.manifestLog);
    forall a | a in s.acked
      ensures InOneLog(s', a) && (IsSyncWrite(a) ==> OnDisk(s', a))
    {
      assert InOneLog(s, a);
    }
  }

  lemma StepKeepsSync(s: State, e: Event, s': State)
    requires QInv(s) && SyncInv(s) && Step(s, e, s')
    ensures SyncInv(s')
  {
    hide QInv, Step, SyncInv;
    match e
    case Switch => SwitchKeepsSync(s, s');
    case Skip => SkipKeepsSync(s, s');
    case AppendLog => AppendKeepsSync(s, s');
    case SyncLog => SyncKeepsSync(s, s');
    case Finish => FinishKeepsSync(s, s');
    case Background(a) => BackgroundKeepsSync(s, a, s');
    case _ => QuietKeepsSync(s, e, s');
  }

  lemma {:induction false} RunKeepsSync(states: seq<State>, events: seq<Event>, n: nat)
    requires Run(states, events) && n <= |events|
    ensures SyncInv(states[n])
  {
    hide QInv, Step, SyncInv;
    if n == 0 {
      OpenedSync(states[0]);
    } else {
      RunKeepsSync(states, events, n - 1);
      RunKeepsQInv(states, events, n - 1);
      StepKeepsSync(states[n - 1], events[n - 1], states[n]);
    }
  }

  lemma OpenedSync(s: State)
    requires Opened(s)
    ensures SyncInv(s)
  {
    hide Inv;
  }

  // ---- the logs hold the history -------------------------------------------------------------------------

  /** The logs of the two memtables hold the acknowledged operations that are not in tables. */
  ghost predicate HistoryInv(s: State)
    requires LogInv(s) && s.origin <= s.immBase <= s.memBase <= s.origin + |AckedOps(s)|
  {
    && LogOps(CommittedLog(s)) == AckedOps(s)[s.memBase - s.origin..]
    && (s.db.imm.Some? ==>
          LogOps(s.logs[s.manifestLog]) == AckedOps(s)[s.immBase - s.origin..s.memBase - s.origin])
  }

  lemma Bounds(s: State)
    requires QInv(s) && SyncInv(s)
    ensures LogInv(s) && s.origin <= s.immBase <= s.memBase <= s.db.lastSequence == s.origin + |AckedOps(s)|
    ensures s.origin <= Base(s) <= s.memBase
  {
    hide Inv, PhaseInv, ManifestInv, LogOps, Backs, AckedOps;
  }

  lemma FinishKeepsHistory(s: State, s': State)
    requires QInv(s) && SyncInv(s) && QInv(s') && SyncInv(s') && Step(s, Finish, s')
    requires LogInv(s) && s.origin <= s.immBase <= s.memBase <= s.origin + |AckedOps(s)| && HistoryInv(s)
    ensures LogInv(s') && s'.origin <= s'.immBase <= s'.memBase <= s'.origin + |AckedOps(s')| && HistoryInv(s')
  {
    hide Inv, QueueInv, PhaseInv, ManifestInv, LogOps, Backs, Applied, GroupOps, AckedOps, SyncInv;
    Bounds(s');
    FinishIsWriting(s, s');
    FinishKeepsInv(s, s');
    LogFacts(s);
    var records := s.logs[s.logNumber];
    assert CommittedLog(s') == records;
    assert (AckedOps(s) + s.phase.ops)[s.memBase - s.origin..] == AckedOps(s)[s.memBase - s.origin..] + s.phase.ops;
    if s.db.imm.Some? {
      assert (AckedOps(s) + s.phase.ops)[s.immBase - s.origin..s.memBase - s.origin]
          == AckedOps(s)[s.immBase - s.origin..s.memBase - s.origin];
    }
  }

  lemma SwitchKeepsHistory(s: State, s': State)
    requires QInv(s) && SyncInv(s) && QInv(s') && SyncInv(s') && Step(s, Switch, s')
    requires LogInv(s) && s.origin <= s.immBase <= s.memBase <= s.origin + |AckedOps(s)| && HistoryInv(s)
    ensures LogInv(s') && s'.origin <= s'.immBase <= s'.memBase <= s'.origin + |AckedOps(s')| && HistoryInv(s')
  {
    hide Inv, QueueInv, PhaseInv, ManifestInv, LogOps, Backs, Applied, GroupOps, AckedOps, SyncInv;
    Bounds(s);
    Bounds(s');
    StepRefines(s, Switch, s');
    EmptyLog(s.db.lastSequence);
    assert AckedOps(s) + [] == AckedOps(s);
    var n := s.db.lastSequence - s.origin;
    assert AckedOps(s)[n..] == [];
    assert AckedOps(s)[s.memBase - s.origin..n] == AckedOps(s)[s.memBase - s.origin..];
  }

  lemma OtherKeepsHistory(s: State, e: Event, s': State)
    requires QInv(s) && SyncInv(s) && QInv(s') && SyncInv(s') && Step(s, e, s') && !e.Finish? && !e.Switch?
    requires LogInv(s) && s.origin <= s.immBase <= s.memBase <= s.origin + |AckedOps(s)| && HistoryInv(s)
    ensures LogInv(s') && s'.origin <= s'.immBase <= s'.memBase <= s'.origin + |AckedOps(s')| && HistoryInv(s')
  {
    hide Inv, QueueInv, PhaseInv, ManifestInv, LogOps, Backs, Applied, GroupOps, AckedOps, SyncInv, Next, Inserted,
         IsGroup;
    Bounds(s');
    StepRefines(s, e, s');
    assert AckedOps(s) + [] == AckedOps(s);
    SameCommittedLog(s, e, s');
  }

  lemma SameCommittedLog(s: State, e: Event, s': State)
    requires QInv(s) && QInv(s') && Step(s, e, s') && !e.Finish? && !e.Switch?
    ensures CommittedLog(s') == CommittedLog(s) && s'.memBase == s.memBase && s'.immBase == s.immBase
              && s'.origin == s.origin
    ensures s'.db.imm.Some? ==>
              s.db.imm.Some? && s'.manifestLog == s.manifestLog && s'.logs[s.manifestLog] == s.logs[s.manifestLog]
  {
    hide QInv, Step;
    match e
    case Background(a) => BackgroundImm(s, a, s');
    case AppendLog => AppendedLog(s, s');
    case _ => SameLogs(s, e, s');
  }

  lemma AppendedLog(s: State, s': State)
    requires QInv(s) && Step(s, AppendLog, s')
    ensures CommittedLog(s') == CommittedLog(s) && s'.memBase == s.memBase && s'.immBase == s.immBase
              && s'.origin == s.origin
    ensures s'.db.imm.Some? ==>
              s.db.imm.Some? && s'.manifestLog == s.manifestLog && s'.logs[s.manifestLog] == s.logs[s.manifestLog]
  {
    hide Inv, QueueInv, ManifestInv, LogOps, Backs, Applied, GroupOps;
    var records := s.logs[s.logNumber];
    assert s'.logs[s.logNumber][..|records|] == records;
  }

  lemma SameLogs(s: State, e: Event, s': State)
    requires QInv(s) && QInv(s') && Step(s, e, s')
    requires e.Arrive? || e.Skip? || e.Lead? || e.SyncLog? || e.InsertOp? || e.DeleteLog?
    ensures CommittedLog(s') == CommittedLog(s) && s'.memBase == s.memBase && s'.immBase == s.immBase
              && s'.origin == s.origin
    ensures s'.db.imm.Some? ==>
              s.db.imm.Some? && s'.manifestLog == s.manifestLog && s'.logs[s.manifestLog] == s.logs[s.manifestLog]
  {
    hide Inv, QueueInv, PhaseInv, ManifestInv, LogOps, Backs, Applied, GroupOps, Inserted, IsGroup, AllJoin, Acks;
  }

  lemma {:induction false} RunKeepsHistory(states: seq<State>, events: seq<Event>, n: nat)
    requires Run(states, events) && n <= |events|
    ensures var s := states[n];
      QInv(s) && SyncInv(s) && LogInv(s) && s.origin <= s.immBase <= s.memBase <= s.origin + |AckedOps(s)|
        && HistoryInv(s)
  {
    hide QInv, Step, SyncInv, HistoryInv, LogInv, AckedOps;
    RunKeepsQInv(states, events, n);
    RunKeepsSync(states, events, n);
    Bounds(states[n]);
    if n == 0 {
      OpenedHistory(states[0]);
    } else {
      RunKeepsHistory(states, events, n - 1);
      var s, e, s' := states[n - 1], events[n - 1], states[n];
      assert Step(states[n - 1], events[n - 1], states[n - 1 + 1]);
      match e
      case Finish => FinishKeepsHistory(s, s');
      case Switch => SwitchKeepsHistory(s, s');
      case _ => OtherKeepsHistory(s, e, s');
    }
  }

  lemma OpenedHistory(s: State)
    requires Opened(s) && LogInv(s) && s.origin <= s.immBase <= s.memBase <= s.origin + |AckedOps(s)|
    ensures HistoryInv(s)
  {
    hide Inv;
  }

  // ---- what a stop leaves --------------------------------------------------------------------------------

  /** Everything written: what was acknowledged, and the group in flight once it is logged. */
  function AllWritten(s: State): seq<Op> {
    AckedOps(s) + InFlightOps(s)
  }

  /** How far the history reaches in the tables and in what is left of the old log ... */
  function Before(s: State, kept: map<nat, seq<LogRecord>>): int {
    Base(s) - s.origin + |KeptOld(s, kept)|
  }

  /** ... where it goes on in the new log ... */
  function After(s: State): int {
    s.memBase - s.origin
  }

  /** ... and where that ends. */
  function End(s: State, kept: map<nat, seq<LogRecord>>): int {
    s.memBase - s.origin + |KeptNew(s, kept)|
  }

  /** What is left of the logs is two stretches of the history. */
  lemma KeptIsHistory(s: State, kept: map<nat, seq<LogRecord>>)
    requires QInv(s) && SyncInv(s) && Stopped(s, kept)
    requires LogInv(s) && s.origin <= s.immBase <= s.memBase <= s.origin + |AckedOps(s)| && HistoryInv(s)
    ensures 0 <= Base(s) - s.origin <= Before(s, kept) <= After(s) <= End(s, kept) <= |AllWritten(s)|
    ensures KeptOld(s, kept) == AllWritten(s)[Base(s) - s.origin..Before(s, kept)]
    ensures KeptNew(s, kept) == AllWritten(s)[After(s)..End(s, kept)]
  {
    hide QInv, SyncInv, Stopped, LogOps, Backs, AckedOps, LogInv;
    Bounds(s);
    CommittedBounds(s);
    KeptFacts(s, kept);
    LogFacts(s);
    var h, all := AckedOps(s), AllWritten(s);
    assert all[s.memBase - s.origin..] == h[s.memBase - s.origin..] + InFlightOps(s);
    PrefixOfStretch(all, After(s), |all|, KeptNew(s, kept));
    if s.db.imm.Some? {
      assert all[s.immBase - s.origin..s.memBase - s.origin] == h[s.immBase - s.origin..s.memBase - s.origin];
      PrefixOfStretch(all, Base(s) - s.origin, After(s), KeptOld(s, kept));
    }
  }

  lemma PrefixOfStretch(all: seq<Op>, i: int, j: int, part: seq<Op>)
    requires 0 <= i <= j <= |all| && part <= all[i..j]
    ensures i + |part| <= j && part == all[i..i + |part|]
  {
  }

  /** The operations of an acknowledged batch in the history. */
  lemma BatchInHistory(s: State, a: Ack)
    requires QInv(s) && a in s.acked && s.origin < a.first && Last(a) <= s.db.lastSequence
    ensures Last(a) - s.origin <= |AckedOps(s)|
              && BatchOps(a.writer) == AckedOps(s)[a.first - 1 - s.origin..Last(a) - s.origin]
  {
    hide Inv, PhaseInv, LogInv, ManifestInv, GroupOps, BatchOps;
    var i: nat :| i < |s.acked| && s.acked[i] == a;
    var ws := AckedWriters(s.acked);
    GroupGrows(ws, i);
    GroupOpsConcat(ws[..i + 1], ws[i + 1..]);
    assert ws == ws[..i + 1] + ws[i + 1..];
    var x, y, z := GroupOps(ws[..i]), BatchOps(a.writer), GroupOps(ws[i + 1..]);
    assert AckedOps(s) == x + y + z;
    assert (x + y + z)[|x|..|x| + |y|] == y;
  }

  /** The operations of a batch are all in what is left of the old log ... */
  predicate InKeptOld(s: State, kept: map<nat, seq<LogRecord>>, a: Ack) {
    && s.db.imm.Some? && s.immBase < a.first && Last(a) - s.immBase <= |KeptOld(s, kept)|
    && BatchOps(a.writer) == KeptOld(s, kept)[a.first - 1 - s.immBase..Last(a) - s.immBase]
  }

  /** ... or in what is left of the new one. */
  predicate InKeptNew(s: State, kept: map<nat, seq<LogRecord>>, a: Ack) {
    && s.memBase < a.first && Last(a) - s.memBase <= |KeptNew(s, kept)|
    && BatchOps(a.writer) == KeptNew(s, kept)[a.first - 1 - s.memBase..Last(a) - s.memBase]
  }

  /** A batch that is a stretch of the history is in a part of the history that reaches around it. */
  lemma BatchInPart(all: seq<Op>, i: int, part: seq<Op>, a: Ack, origin: nat)
    requires 0 <= i && i + |part| <= |all| && part == all[i..i + |part|]
    requires origin < a.first && Last(a) - origin <= |all|
    requires BatchOps(a.writer) == all[a.first - 1 - origin..Last(a) - origin]
    requires i <= a.first - 1 - origin && Last(a) - origin <= i + |part|
    ensures BatchOps(a.writer) == part[a.first - 1 - origin - i..Last(a) - origin - i]
  {
    hide BatchOps;
    SubStretch(all, i, i + |part|, a.first - 1 - origin, Last(a) - origin);
  }

  /** The operations of an acknowledged batch in everything written. */
  lemma BatchInAll(s: State, a: Ack)
    requires QInv(s) && a in s.acked && s.origin < a.first && Last(a) <= s.db.lastSequence
    ensures Last(a) - s.origin <= |AllWritten(s)|
              && BatchOps(a.writer) == AllWritten(s)[a.first - 1 - s.origin..Last(a) - s.origin]
  {
    hide QInv, AckedOps, BatchOps, InFlightOps;
    BatchInHistory(s, a);
    InPrefix(AckedOps(s), InFlightOps(s), a.first - 1 - s.origin, Last(a) - s.origin);
  }

  lemma OnDiskIsKept(s: State, kept: map<nat, seq<LogRecord>>, a: Ack)
    requires QInv(s) && SyncInv(s) && Stopped(s, kept)
    requires LogInv(s) && s.origin <= s.immBase <= s.memBase <= s.origin + |AckedOps(s)| && HistoryInv(s)
    requires a in s.acked && InOneLog(s, a) && OnDisk(s, a) && Last(a) > Base(s)
    ensures InKeptOld(s, kept, a) || InKeptNew(s, kept, a)
  {
    hide QInv, SyncInv, Stopped, LogInv, HistoryInv, InKeptOld, InKeptNew, LogOps, AckedOps, SyncedOps, Last;
    if s.memBase < a.first {
      OnDiskIsKeptNew(s, kept, a);
    } else {
      OnDiskIsKeptOld(s, kept, a);
    }
  }

  lemma OnDiskIsKeptNew(s: State, kept: map<nat, seq<LogRecord>>, a: Ack)
    requires QInv(s) && SyncInv(s) && Stopped(s, kept)
    requires LogInv(s) && s.origin <= s.immBase <= s.memBase <= s.origin + |AckedOps(s)| && HistoryInv(s)
    requires a in s.acked && InOneLog(s, a) && OnDisk(s, a) && Last(a) > Base(s) && s.memBase < a.first
    ensures InKeptNew(s, kept, a)
  {
    hide QInv, SyncInv, Stopped, LogInv, HistoryInv, LogOps, AckedOps, BatchOps, KeptOld, KeptNew, SyncedOps,
         AllWritten, Last;
    KeptIsHistory(s, kept);
    BatchInAll(s, a);
    SyncedIsKept(s, kept);
    BatchInPart(AllWritten(s), After(s), KeptNew(s, kept), a, s.origin);
  }

  lemma OnDiskIsKeptOld(s: State, kept: map<nat, seq<LogRecord>>, a: Ack)
    requires QInv(s) && SyncInv(s) && Stopped(s, kept)
    requires LogInv(s) && s.origin <= s.immBase <= s.memBase <= s.origin + |AckedOps(s)| && HistoryInv(s)
    requires a in s.acked && InOneLog(s, a) && OnDisk(s, a) && Last(a) > Base(s) && a.first <= s.memBase
    ensures InKeptOld(s, kept, a)
  {
    hide QInv, SyncInv, Stopped, LogInv, HistoryInv, LogOps, AckedOps, BatchOps, KeptOld, KeptNew, SyncedOps,
         AllWritten, Last;
    KeptIsHistory(s, kept);
    BatchInAll(s, a);
    SyncedIsKept(s, kept);
    BatchInPart(AllWritten(s), Base(s) - s.origin, KeptOld(s, kept), a, s.origin);
  }

  /**
   Sync is honoured: whatever a stop leaves of the logs beyond what was synced, every batch that was
   acknowledged to a sync writer has gone to the tables, or all its operations are in a log that is recovered.
   */
  lemma SyncIsHonoured(states: seq<State>, events: seq<Event>, n: nat, kept: map<nat, seq<LogRecord>>, a: Ack)
    requires Run(states, events) && n <= |events| && Stopped(states[n], kept)
    requires a in states[n].acked && IsSyncWrite(a)
    ensures Last(a) <= Base(states[n]) || InKeptOld(states[n], kept, a) || InKeptNew(states[n], kept, a)
  {
    hide Step, Opened, QInv, Stopped, LogInv, HistoryInv, LogOps, AckedOps, BatchOps, KeptOld, KeptNew, SyncedOps;
    RunKeepsHistory(states, events, n);
    assert InOneLog(states[n], a) && OnDisk(states[n], a);
    if Last(a) > Base(states[n]) {
      OnDiskIsKept(states[n], kept, a);
    }
  }

  lemma SubStretch(all: seq<Op>, i: int, j: int, first: int, last: int)
    requires 0 <= i <= first <= last <= j <= |all|
    ensures all[i..j][first - i..last - i] == all[first..last]
  {
    forall k | 0 <= k < last - first
      ensures all[i..j][first - i..last - i][k] == all[first..last][k]
    {
      assert all[i..j][first - i + k] == all[first + k];
    }
  }

  lemma InPrefix(a: seq<Op>, b: seq<Op>, first: int, last: int)
    requires 0 <= first <= last <= |a|
    ensures (a + b)[first..last] == a[first..last]
  {
  }

  /** A stop keeps what was synced. */
  lemma SyncedIsKept(s: State, kept: map<nat, seq<LogRecord>>)
    requires SyncInv(s) && Stopped(s, kept)
    ensures |SyncedOps(s, s.logNumber)| <= |KeptNew(s, kept)|
    ensures s.db.imm.Some? ==> |SyncedOps(s, s.manifestLog)| <= |KeptOld(s, kept)|
  {
    hide LogOps;
    SyncedPart(s, kept, s.logNumber);
    SyncedPart(s, kept, s.manifestLog);
  }

  lemma SyncedPart(s: State, kept: map<nat, seq<LogRecord>>, n: nat)
    requires SyncInv(s) && Stopped(s, kept) && n in s.logs
    ensures n in kept && |SyncedOps(s, n)| <= |LogOps(kept[n])|
  {
    hide LogOps;
    var k := s.synced[n];
    assert kept[n][..k] == s.logs[n][..k];
    OpsCut(kept[n], k);
  }

  // ---- the gap -------------------------------------------------------------------------------------------

  /** The stop that leaves only what was synced. */
  function OnlySynced(s: State): map<nat, seq<LogRecord>> {
    map n | n in s.logs :: if n in s.synced && s.synced[n] <= |s.logs[n]| then s.logs[n][..s.synced[n]] else s.logs[n]
  }

  /** No stop can lose anything of the old log exactly when it is no longer needed, or all of it was synced. */
  lemma NothingLostIff(s: State)
    requires QInv(s) && SyncInv(s) && LogInv(s)
    ensures (forall kept :: Stopped(s, kept) ==> Before(s, kept) == After(s))
       <==> (s.db.imm.Some? ==> s.immBase + |SyncedOps(s, s.manifestLog)| == s.memBase)
  {
    hide QInv, LogInv, LogOps, Backs;
    if s.db.imm.Some? {
      OldOpsSynced(s);
      CommittedBounds(s);
      forall kept | Stopped(s, kept)
        ensures |SyncedOps(s, s.manifestLog)| <= |KeptOld(s, kept)| <= s.memBase - s.immBase
      {
        SyncedIsKept(s, kept);
        KeptFacts(s, kept);
      }
      var least := OnlySynced(s);
      assert Stopped(s, least);
      assert KeptOld(s, least) == SyncedOps(s, s.manifestLog);
    }
  }

  /** Something is lost, and something later is not. */
  predicate HasGap(s: State, kept: map<nat, seq<LogRecord>>) {
    Before(s, kept) < After(s) < End(s, kept)
  }

  /** The stop that leaves the new log whole and of the old one what was synced. */
  function OldOnlySynced(s: State): map<nat, seq<LogRecord>> {
    map n | n in s.logs :: if n == s.manifestLog && n in s.synced && s.synced[n] <= |s.logs[n]|
                           then s.logs[n][..s.synced[n]] else s.logs[n]
  }

  /**
   MakeRoomForWrite closes the old log without a sync, so operations of the new log may outlive earlier ones
   of the old log.  A stop can leave such a gap exactly when an old log that is still needed has an operation
   that was not synced, and the new log has one at all.
   */
  lemma GapIff(s: State)
    requires QInv(s) && SyncInv(s) && LogInv(s)
    ensures (exists kept :: Stopped(s, kept) && HasGap(s, kept))
       <==> s.db.imm.Some? && s.immBase + |SyncedOps(s, s.manifestLog)| < s.memBase && LogOps(s.logs[s.logNumber]) != []
  {
    hide QInv, LogInv, LogOps, Backs, CommittedLog;
    NothingLostIff(s);
    OldLogIsAnother(s);
    if s.db.imm.Some? {
      OldOpsSynced(s);
    }
    if s.db.imm.Some? && s.immBase + |SyncedOps(s, s.manifestLog)| < s.memBase && LogOps(s.logs[s.logNumber]) != [] {
      var kept := OldOnlySynced(s);
      assert Stopped(s, kept);
      assert KeptOld(s, kept) == SyncedOps(s, s.manifestLog);
      assert KeptNew(s, kept) == LogOps(s.logs[s.logNumber]);
      assert HasGap(s, kept);
    } else {
      forall kept | Stopped(s, kept)
        ensures !HasGap(s, kept)
      {
        KeptNewGrows(s, kept);
      }
    }
  }

  lemma OldLogIsAnother(s: State)
    requires LogInv(s)
    ensures s.db.imm.Some? ==> s.manifestLog != s.logNumber
  {
    hide LogOps, Backs;
  }

  /** A stop adds nothing to the new log. */
  lemma KeptNewGrows(s: State, kept: map<nat, seq<LogRecord>>)
    requires SyncInv(s) && Stopped(s, kept)
    ensures |KeptNew(s, kept)| <= |LogOps(s.logs[s.logNumber])|
  {
    hide LogOps;
    var records := s.logs[s.logNumber];
    assert kept[s.logNumber] == records[..|kept[s.logNumber]|];
    OpsCut(records, |kept[s.logNumber]|);
  }

  // ---- what a stop leaves to read ------------------------------------------------------------------------

  /** The database with nothing but its tables. */
  function TablesOnly(db: Db): Db {
    db.(mem := [], imm := None)
  }

  /**
   If the event installs a compaction, that drops no deletion marker over an older value that is live in the
   tables, even if a memtable hides it: a stop may lose the memtable.
   */
  ghost predicate HarmlessForTables(s: State, e: Event) {
    e.Background? ==> Harmless(TablesOnly(Committed(s)), e.action)
  }

  lemma TablesAlone(db: Db)
    requires Inv(db)
    ensures Inv(TablesOnly(db)) && All(TablesOnly(db)) == Tables(db.levels)
  {
    hide ValidLevels, LevelsInRecencyOrder, NumbersBelow, Tables, UniqueKeys;
    var none: seq<Entry> := [];
    assert EntrySet(none) == {};
    assert All(TablesOnly(db)) == Tables(db.levels);
    FewerUnique(All(db), Tables(db.levels));
  }

  /** What comes back in the database comes back in its tables. */
  lemma ComesBackInTables(db: Db, a: Action, i: nat)
    requires a.Compact? && a.level + 1 < |db.levels|
    requires Resurrects(Others(db, a.level, a.inputs0, a.inputs1), LeftBelow(db.levels, a.level, a.inputs1), a.input, i,
                        a.smallestSnapshot, db.levels, a.level)
    ensures Resurrects(Others(TablesOnly(db), a.level, a.inputs0, a.inputs1), LeftBelow(db.levels, a.level, a.inputs1),
                       a.input, i, a.smallestSnapshot, db.levels, a.level)
  {
    var all, tables := Others(db, a.level, a.inputs0, a.inputs1), Others(TablesOnly(db), a.level, a.inputs0, a.inputs1);
    var left, user := LeftBelow(db.levels, a.level, a.inputs1), a.input[i].key.user;
    LeftBelowIsOther(TablesOnly(db), a.level, a.inputs0, a.inputs1);
    assert tables <= all;
    hide Others, LeftBelow, Obsolete, Hidden;
    var o :| o in left && o.key.kind.Value? && o.key.sequence < a.input[i].key.sequence
             && Newest(all, user, a.smallestSnapshot, o);
    NewestOfFewer(all, tables, user, a.smallestSnapshot, o);
  }

  lemma NewestOfFewer(s: set<Entry>, t: set<Entry>, user: UserKey, snapshot: nat, e: Entry)
    requires Newest(s, user, snapshot, e) && t <= s && e in t
    ensures Newest(t, user, snapshot, e)
  {
    forall d | Visible(t, user, snapshot, d)
      ensures d.key.sequence <= e.key.sequence
    {
      assert Visible(s, user, snapshot, d);
    }
  }

  /** What is safe for the tables alone is safe for the database. */
  lemma HarmlessForTablesIsHarmless(s: State, e: Event)
    requires HarmlessForTables(s, e)
    ensures HarmlessEvent(s, e)
  {
    if e.Background? && e.action.Compact? && e.action.level + 1 < |s.db.levels| {
      var a, db := e.action, Committed(s);
      var others, left := Others(db, a.level, a.inputs0, a.inputs1), LeftBelow(db.levels, a.level, a.inputs1);
      hide Others, LeftBelow, Resurrects;
      forall i: nat
        ensures !Resurrects(others, left, a.input, i, a.smallestSnapshot, db.levels, a.level)
      {
        if Resurrects(others, left, a.input, i, a.smallestSnapshot, db.levels, a.level) {
          ComesBackInTables(db, a, i);
        }
      }
    }
  }

  /** The check on level+1 that makes a compaction harmless makes it so for the tables alone too. */
  lemma CleanIsHarmlessForTables(s: State, a: Action, s': State)
    requires QInv(s) && Step(s, Background(a), s') && a.Compact?
    ensures a.level + 1 < |s.db.levels|
    ensures EndsClean(s.db.levels[a.level + 1], a.inputs1) ==> HarmlessForTables(s, Background(a))
  {
    hide QueueInv, PhaseInv, ManifestInv, LogInv, Chosen, Replaced, Sorted, Contents, EndsClean, RecencyOrder, All,
         UniqueKeys, ValidLevels, NumbersBelow, ValidFiles, PairwiseApart, NumbersDiffer, SafeToDrop;
    if EndsClean(s.db.levels[a.level + 1], a.inputs1) {
      EndsCleanIsSafe(TablesOnly(Committed(s)), a.level, a.inputs0, a.inputs1, a.input, a.smallestSnapshot);
    }
  }

  /** A move or a compaction that is harmless for the tables keeps what they read. */
  lemma TablesStep(db: Db, a: Action, db': Db, user: UserKey)
    requires Inv(db) && Next(db, a, db') && (a.MoveFile? || a.Compact?) && Harmless(TablesOnly(db), a)
    ensures db'.lastSequence == db.lastSequence
    ensures View(Tables(db'.levels), user, db.lastSequence) == View(Tables(db.levels), user, db.lastSequence)
  {
    hide Inv, Chosen, Replaced, Sorted, Contents, All, View, Harmless, Tables;
    TablesAlone(db);
    NextKeepsInv(db, a, db');
    TablesAlone(db');
    NextReads(TablesOnly(db), a, TablesOnly(db'), user);
  }

  /** Bounds above all entries read alike. */
  lemma SameBeyond(all: set<Entry>, m: nat, n: nat, user: UserKey)
    requires UniqueKeys(all) && (forall e <- all :: e.key.sequence <= m && e.key.sequence <= n)
    ensures View(all, user, m) == View(all, user, n)
  {
    hide View, UniqueKeys;
    if m <= n {
      LaterReads(all, m, n, user);
    } else {
      LaterReads(all, n, m, user);
    }
  }

  lemma TablesBelow(s: State)
    requires QInv(s)
    ensures UniqueKeys(Tables(s.db.levels))
              && forall e <- Tables(s.db.levels) :: e.key.sequence <= Base(s) <= s.db.lastSequence
  {
    hide QueueInv, PhaseInv, LogInv, Tables, ValidLevels, RecencyOrder, NumbersBelow, UniqueKeys;
    FewerUnique(All(Committed(s)), Tables(s.db.levels));
  }

  /** The tables read as the history that has reached them. */
  ghost predicate TablesRead(s: State, user: UserKey, v: Option<seq<Byte>>)
    requires s.origin <= Base(s) <= s.origin + |AckedOps(s)|
  {
    View(Tables(s.db.levels), user, Base(s))
    == ValueAfter(AckedOps(s)[..Base(s) - s.origin], Base(s) - s.origin, user, v)
  }

  lemma BaseInHistory(s: State)
    requires QInv(s) && SyncInv(s)
    ensures s.origin <= Base(s) <= s.origin + |AckedOps(s)|
  {
    Bounds(s);
  }

  /** A flush moves the old log's operations from the log to the tables. */
  lemma FlushKeepsTablesRead(s: State, a: Action, s': State, user: UserKey, v: Option<seq<Byte>>)
    requires QInv(s) && SyncInv(s) && QInv(s') && SyncInv(s') && Step(s, Background(a), s') && a.FlushMemTable?
    requires LogInv(s) && s.origin <= s.immBase <= s.memBase <= s.origin + |AckedOps(s)| && HistoryInv(s)
    requires s.origin <= Base(s) <= s.origin + |AckedOps(s)| && TablesRead(s, user, v)
    ensures s'.origin <= Base(s') <= s'.origin + |AckedOps(s')| && TablesRead(s', user, v)
  {
    hide Inv, QueueInv, PhaseInv, ManifestInv, LogOps, Backs, AckedOps, SyncInv, View, ValueAfter, Tables, OpEntries,
         Next;
    Bounds(s);
    BackgroundImm(s, a, s');
    BaseInHistory(s');
    StepRefines(s, Background(a), s');
    assert AckedOps(s) + [] == AckedOps(s);
    var ops, h := LogOps(s.logs[s.manifestLog]), AckedOps(s);
    FlushedTables(s, a, s');
    LogFacts(s);
    TablesBelow(s);
    OpsOnTables(s, ops, user);
    var x, y := s.immBase - s.origin, s.memBase - s.origin;
    assert h[..y] == h[..x] + h[x..y];
    ValueAfterConcat(h[..x], h[x..y], y - x, user, v);
  }

  lemma OpsOnTables(s: State, ops: seq<Op>, user: UserKey)
    requires QInv(s)
    ensures View(Tables(s.db.levels) + OpEntries(ops, Base(s)), user, Base(s) + |ops|)
         == ValueAfter(ops, |ops|, user, View(Tables(s.db.levels), user, Base(s)))
  {
    hide QInv, View, Tables, UniqueKeys, BatchEntries, ValueAfter;
    TablesBelow(s);
    BatchIsSeen(Tables(s.db.levels), ops, Base(s), user, |ops|);
  }

  lemma FlushedTables(s: State, a: Action, s': State)
    requires QInv(s) && Step(s, Background(a), s') && a.FlushMemTable?
    ensures s.db.imm.Some? && Tables(s'.db.levels)
              == Tables(s.db.levels) + OpEntries(LogOps(s.logs[s.manifestLog]), s.immBase)
  {
    hide QueueInv, PhaseInv, ManifestInv, LogOps, Backs, OpEntries, Tables, Inv, FileAdded, ValidFile, ClearDownTo;
    BackedEntries(s.logs[s.manifestLog], s.immBase, s.db.imm.value);
    if s.db.imm.value != [] {
      AddedTables(s.db.levels, a.level, a.file, s'.db.levels);
    } else {
      var none: seq<Entry> := [];
      assert EntrySet(none) == {};
    }
  }

  lemma BackgroundNext(s: State, a: Action, s': State)
    requires QInv(s) && Step(s, Background(a), s')
    ensures Inv(Committed(s)) && Next(Committed(s), a, Committed(s')) && AckedOps(s') == AckedOps(s) + []
  {
    hide Inv, QueueInv, PhaseInv, ManifestInv, LogInv, AckedOps, Next;
    StepRefines(s, Background(a), s');
  }

  lemma CompactKeepsTablesRead(s: State, a: Action, s': State, user: UserKey, v: Option<seq<Byte>>)
    requires QInv(s) && SyncInv(s) && QInv(s') && SyncInv(s') && Step(s, Background(a), s')
               && (a.MoveFile? || a.Compact?)
    requires HarmlessForTables(s, Background(a))
    requires s.origin <= Base(s) <= s.origin + |AckedOps(s)| && TablesRead(s, user, v)
    ensures s'.origin <= Base(s') <= s'.origin + |AckedOps(s')| && TablesRead(s', user, v)
  {
    hide QInv, AckedOps, SyncInv, View, ValueAfter, Tables, Next, Harmless;
    hide Step, LogInv;
    BackgroundImm(s, a, s');
    BackgroundNext(s, a, s');
    BaseInHistory(s');
    assert AckedOps(s) + [] == AckedOps(s);
    TablesStep(Committed(s), a, Committed(s'), user);
    TablesBelow(s);
    TablesBelow(s');
    SameBeyond(Tables(s.db.levels), Base(s), s.db.lastSequence, user);
    SameBeyond(Tables(s'.db.levels), Base(s), s.db.lastSequence, user);
  }

  /** Such an event leaves the tables and their part of the history alone, and at most adds to the history. */
  lemma OtherLeavesTables(s: State, e: Event, s': State)
    requires QInv(s) && SyncInv(s) && QInv(s') && SyncInv(s') && Step(s, e, s')
    requires e.Background? ==> e.action.TakeSnapshot? || e.action.ReleaseSnapshot?
    ensures Base(s') == Base(s) && s'.origin == s.origin && s'.db.levels == s.db.levels && AckedOps(s) <= AckedOps(s')
  {
    hide Inv, QueueInv, PhaseInv, ManifestInv, LogInv, AckedOps, SyncInv, View, ValueAfter, Tables, Inserted, IsGroup;
    StepRefines(s, e, s');
    assert AckedOps(s) + [] == AckedOps(s);
  }

  lemma OtherKeepsTablesRead(s: State, e: Event, s': State, user: UserKey, v: Option<seq<Byte>>)
    requires QInv(s) && SyncInv(s) && QInv(s') && SyncInv(s') && Step(s, e, s')
    requires e.Background? ==> e.action.TakeSnapshot? || e.action.ReleaseSnapshot?
    requires s.origin <= Base(s) <= s.origin + |AckedOps(s)| && TablesRead(s, user, v)
    ensures s'.origin <= Base(s') <= s'.origin + |AckedOps(s')| && TablesRead(s', user, v)
  {
    hide QInv, AckedOps, SyncInv, View, ValueAfter, Tables, Step, Base;
    OtherLeavesTables(s, e, s');
    var n := Base(s) - s.origin;
    assert AckedOps(s')[..n] == AckedOps(s)[..n];
  }

  lemma {:induction false} RunKeepsTablesRead(states: seq<State>, events: seq<Event>, n: nat, user: UserKey)
    requires Run(states, events) && n <= |events|
    requires forall i: nat :: i < n ==> HarmlessForTables(states[i], events[i])
    ensures var s := states[n];
      && s.origin <= Base(s) <= s.origin + |AckedOps(s)|
      && TablesRead(s, user, View(All(states[0].db), user, states[0].db.lastSequence))
  {
    hide QInv, Step, SyncInv, HistoryInv, LogInv, AckedOps, TablesRead, View, HarmlessForTables;
    RunKeepsHistory(states, events, n);
    BaseInHistory(states[n]);
    var v := View(All(states[0].db), user, states[0].db.lastSequence);
    if n == 0 {
      OpenedTablesRead(states[0], user);
    } else {
      RunKeepsTablesRead(states, events, n - 1, user);
      RunKeepsHistory(states, events, n - 1);
      var s, e, s' := states[n - 1], events[n - 1], states[n];
      assert Step(states[n - 1], events[n - 1], states[n - 1 + 1]);
      if e.Background? && e.action.FlushMemTable? {
        FlushKeepsTablesRead(s, e.action, s', user, v);
      } else if e.Background? && (e.action.MoveFile? || e.action.Compact?) {
        CompactKeepsTablesRead(s, e.action, s', user, v);
      } else {
        if e.Background? {
          BackgroundActions(s, e, s');
        }
        OtherKeepsTablesRead(s, e, s', user, v);
      }
    }
  }

  lemma BackgroundActions(s: State, e: Event, s': State)
    requires Step(s, e, s') && e.Background?
    ensures var a := e.action;
      a.FlushMemTable? || a.MoveFile? || a.Compact? || a.TakeSnapshot? || a.ReleaseSnapshot?
  {
  }

  lemma OpenedTablesRead(s: State, user: UserKey)
    requires Opened(s) && s.origin <= Base(s) <= s.origin + |AckedOps(s)|
    ensures TablesRead(s, user, View(All(s.db), user, s.db.lastSequence))
  {
    hide Inv, View;
    var none: seq<Entry> := [];
    assert EntrySet(none) == {};
    assert All(s.db) == Tables(s.db.levels);
  }

  /** What recovery finds reads as the tables with the two stretches of operations on top. */
  lemma KeptReads(s: State, kept: map<nat, seq<LogRecord>>, user: UserKey)
    requires QInv(s) && SyncInv(s) && Stopped(s, kept)
    ensures var all, old_, new_ := RecoveredEntries(s, kept), KeptOld(s, kept), KeptNew(s, kept);
      && UniqueKeys(all) && (forall e <- all :: e.key.sequence <= s.memBase + |new_|)
      && View(all, user, s.memBase + |new_|)
         == ValueAfter(new_, |new_|, user, ValueAfter(old_, |old_|, user, View(Tables(s.db.levels), user, Base(s))))
  {
    hide QInv, SyncInv, Stopped, LogInv, View, Tables, UniqueKeys, BatchEntries, ValueAfter, KeptOld, KeptNew;
    Bounds(s);
    CommittedBounds(s);
    KeptFacts(s, kept);
    TablesBelow(s);
    var tables, old_, new_ := Tables(s.db.levels), KeptOld(s, kept), KeptNew(s, kept);
    OpsOnTables(s, old_, user);
    var some := tables + OpEntries(old_, Base(s));
    SomeKept(s, kept);
    NewEntriesKeepUnique(tables, old_, Base(s));
    BatchEntriesAre(old_, |old_|, Base(s) + 1);
    SameBeyond(some, Base(s) + |old_|, s.memBase, user);
    NewEntriesKeepUnique(some, new_, s.memBase);
    BatchEntriesAre(new_, |new_|, s.memBase + 1);
    BatchIsSeen(some, new_, s.memBase, user, |new_|);
  }

  lemma SomeKept(s: State, kept: map<nat, seq<LogRecord>>)
    ensures OpEntries(KeptOld(s, kept), Base(s)) == OpEntries(KeptOld(s, kept), s.immBase)
    ensures s.db.imm.None? ==> KeptOld(s, kept) == []
  {
    hide LogOps;
    NothingInLog(Base(s));
    NothingInLog(s.immBase);
  }

  /**
   After a stop at any moment of any run whose compactions are harmless for the tables, the database that
   Reopen gives reads as if exactly these operations of the history had been performed: all up to Before,
   and those from After to End.  By SyncIsHonoured no synced batch is lost; by GapIff the two stretches
   join unless the old log had an unsynced tail.
   */
  lemma AfterStop(states: seq<State>, events: seq<Event>, n: nat, kept: map<nat, seq<LogRecord>>, r: Db, user: UserKey)
    requires Run(states, events) && n <= |events| && Stopped(states[n], kept)
    requires forall i: nat :: i < n ==> HarmlessForTables(states[i], events[i])
    requires Inv(r) && All(r) == RecoveredEntries(states[n], kept)
    ensures var s := states[n];
      && 0 <= Before(s, kept) <= After(s) <= End(s, kept) <= |AllWritten(s)|
      && var ops := AllWritten(s)[..Before(s, kept)] + AllWritten(s)[After(s)..End(s, kept)];
         View(All(r), user, r.lastSequence)
         == ValueAfter(ops, |ops|, user, View(All(states[0].db), user, states[0].db.lastSequence))
  {
    hide Step, Opened, QInv, Stopped, SyncInv, LogInv, HistoryInv, AckedOps, View, All, Inv, ValueAfter, UniqueKeys,
         RecoveredEntries, KeptOld, KeptNew, HarmlessForTables;
    RunKeepsHistory(states, events, n);
    RunKeepsTablesRead(states, events, n, user);
    var s, v := states[n], View(All(states[0].db), user, states[0].db.lastSequence);
    var h, all := AckedOps(s), AllWritten(s);
    KeptIsHistory(s, kept);
    KeptReads(s, kept, user);
    UniqueBelow(r);
    SameBeyond(All(r), r.lastSequence, s.memBase + |KeptNew(s, kept)|, user);
    var b, x := Base(s) - s.origin, Before(s, kept);
    Bounds(s);
    assert all[..b] == h[..b];
    assert all[..x] == all[..b] + KeptOld(s, kept);
    ValueAfterConcat(all[..b], KeptOld(s, kept), |KeptOld(s, kept)|, user, v);
    ValueAfterConcat(all[..x], KeptNew(s, kept), |KeptNew(s, kept)|, user, v);
  }
}
