/**
 What every run of the write queue keeps: batches take effect whole, once and in the order in which
 they were queued, and each memtable is what replaying its log gives.
 */
module GroupCommit {
  import opened Options
  import opened Keys
  import opened Files
  import opened Lsm
  import opened Steps
  import opened CompactionInputs
  import opened Runs
  import opened VersionBuilder
  import opened WriteQueue

  // ---- logs ----------------------------------------------------------------------------------------------

  function LogOps(records: seq<LogRecord>): seq<Op> {
    if records == [] then [] else LogOps(records[..|records| - 1]) + records[|records| - 1].ops
  }

  /** The records carry on from sequence number `base` without a gap. */
  ghost predicate Numbered(records: seq<LogRecord>, base: nat) {
    forall i: nat :: i < |records| ==> records[i].sequence == base + |LogOps(records[..i])| + 1
  }

  function ReplayedLog(records: seq<LogRecord>, base: nat): seq<Entry> {
    Applied([], LogOps(records), |LogOps(records)|, base + 1)
  }

  /** Replaying the log gives the memtable. */
  ghost predicate Backs(records: seq<LogRecord>, base: nat, mem: seq<Entry>) {
    Numbered(records, base) && mem == ReplayedLog(records, base)
  }

  lemma LogGrows(records: seq<LogRecord>, r: LogRecord)
    ensures LogOps(records + [r]) == LogOps(records) + r.ops
  {
    assert (records + [r])[..|records|] == records;
  }

  lemma {:induction false} AppliedPrefix(mem: seq<Entry>, a: seq<Op>, b: seq<Op>, n: nat, first: nat)
    requires n <= |a|
    ensures Applied(mem, a + b, n, first) == Applied(mem, a, n, first)
  {
    hide Inserted;
    if n > 0 {
      AppliedPrefix(mem, a, b, n - 1, first);
    }
  }

  /** Two batches applied one after the other are their concatenation applied once. */
  lemma {:induction false} AppliedConcat(mem: seq<Entry>, a: seq<Op>, b: seq<Op>, n: nat, first: nat)
    requires n <= |b|
    ensures Applied(mem, a + b, |a| + n, first) == Applied(Applied(mem, a, |a|, first), b, n, first + |a|)
  {
    hide Inserted;
    if n > 0 {
      AppliedConcat(mem, a, b, n - 1, first);
    } else {
      AppliedPrefix(mem, a, b, |a|, first);
    }
  }

  lemma LoggedBatchBacks(records: seq<LogRecord>, base: nat, mem: seq<Entry>, ops: seq<Op>)
    requires Backs(records, base, mem)
    ensures var last := base + |LogOps(records)|;
            Backs(records + [LogRecord(last + 1, ops)], base, Applied(mem, ops, |ops|, last + 1))
  {
    hide Applied, LogOps;
    var last := base + |LogOps(records)|;
    var r := LogRecord(last + 1, ops);
    LogGrows(records, r);
    AppliedConcat([], LogOps(records), ops, |ops|, base + 1);
    forall i: nat | i < |records| + 1
      ensures (records + [r])[i].sequence == base + |LogOps((records + [r])[..i])| + 1
    {
      assert (records + [r])[..i] == records[..i];
      assert records[..|records|] == records;
    }
  }

  // ---- the invariant -------------------------------------------------------------------------------------

  function AckedWriters(acked: seq<Ack>): (ws: seq<Writer>)
    ensures |ws| == |acked|
  {
    seq(|acked|, i requires 0 <= i < |acked| => acked[i].writer)
  }

  function AckedOps(s: State): seq<Op> {
    GroupOps(AckedWriters(s.acked))
  }

  /** Writers are served in order, and their batches have consecutive sequence numbers. */
  ghost predicate QueueInv(s: State) {
    && s.arrived == AckedWriters(s.acked) + s.writers
    && s.db.lastSequence == s.origin + |AckedOps(s)|
    && (forall i: nat :: i < |s.acked| ==>
          s.acked[i].first == s.origin + |GroupOps(AckedWriters(s.acked)[..i])| + 1)
  }

  /** The group in flight, and how much of it the memtable holds. */
  ghost predicate PhaseInv(s: State) {
    s.phase.Writing? ==>
      && s.writers != [] && AllJoin(s.writers, s.phase.group)
      && s.phase.ops == GroupOps(s.writers[..s.phase.group])
      && s.db.lastSequence + |s.phase.ops| < MAX_SEQUENCE
      && var done := if s.phase.stage.Inserting? then s.phase.stage.done else 0;
         done <= |s.phase.ops| && s.db.mem == Applied(s.phase.before, s.phase.ops, done, s.db.lastSequence + 1)
  }

  ghost predicate InFlight(s: State) {
    s.phase.Writing? && !s.phase.stage.ToLog?
  }

  /** The records of finished groups in the current log. */
  ghost function CommittedLog(s: State): seq<LogRecord>
    requires s.logNumber in s.logs
    requires InFlight(s) ==> s.logs[s.logNumber] != []
  {
    var records := s.logs[s.logNumber];
    if InFlight(s) then records[..|records| - 1] else records
  }

  /** The sequence number that everything in the tables is at or below. */
  function Base(s: State): nat {
    if s.db.imm.Some? then s.immBase else s.memBase
  }

  /** The memtables are what their logs replay to, and only those logs are recovered. */
  ghost predicate LogInv(s: State) {
    && s.logNumber in s.logs
    && (InFlight(s) ==>
          s.logs[s.logNumber] != []
          && s.logs[s.logNumber][|s.logs[s.logNumber]| - 1] == LogRecord(s.db.lastSequence + 1, s.phase.ops))
    && Backs(CommittedLog(s), s.memBase, Committed(s).mem)
    && s.memBase + |LogOps(CommittedLog(s))| == s.db.lastSequence
    && (forall n :: n in s.logs ==> n < s.db.nextFile)
    && (forall n :: n in s.logs && n >= s.manifestLog ==> n == s.manifestLog || n == s.logNumber)
    && s.manifestLog in s.logs
    && (if s.db.imm.Some? then
          && s.manifestLog < s.logNumber
          && Backs(s.logs[s.manifestLog], s.immBase, s.db.imm.value)
          && s.immBase + |LogOps(s.logs[s.manifestLog])| == s.memBase
        else s.manifestLog == s.logNumber)
  }

  /** The manifest describes the tables and nothing newer than the database. */
  ghost predicate ManifestInv(s: State) {
    && (forall e :: e in Tables(s.db.levels) ==> e.key.sequence <= Base(s))
    && Base(s) <= s.manifestLast <= s.db.lastSequence
    && NumbersBelow(s.db.levels, s.manifestNext)
  }

  ghost predicate QInv(s: State) {
    && Inv(Committed(s))
    && QueueInv(s) && PhaseInv(s) && LogInv(s) && ManifestInv(s)
  }

  // ---- the queue -----------------------------------------------------------------------------------------

  lemma {:induction false} GroupOpsConcat(a: seq<Writer>, b: seq<Writer>)
    ensures GroupOps(a + b) == GroupOps(a) + GroupOps(b)
  {
    if b == [] {
      assert a + b == a;
    } else {
      var n := |b| - 1;
      assert (a + b)[..|a + b| - 1] == a + b[..n];
      GroupOpsConcat(a, b[..n]);
    }
  }

  lemma AckedGrows(acked: seq<Ack>, more: seq<Ack>, i: nat)
    requires i <= |more|
    ensures AckedWriters(acked + more) == AckedWriters(acked) + AckedWriters(more)
    ensures AckedWriters(acked + more)[..|acked| + i] == AckedWriters(acked) + AckedWriters(more)[..i]
  {
  }

  /** Serving the front `n` writers, whether together or alone, keeps the order and the numbering. */
  lemma ServedInOrder(s: State, more: seq<Ack>, n: nat, s': State)
    requires QueueInv(s) && n <= |s.writers| && AckedWriters(more) == s.writers[..n]
    requires forall i: nat :: i < n ==> more[i].first == s.db.lastSequence + |GroupOps(s.writers[..i])| + 1
    requires s'.writers == s.writers[n..] && s'.acked == s.acked + more
    requires s'.arrived == s.arrived && s'.origin == s.origin
    requires s'.db.lastSequence == s.db.lastSequence + |GroupOps(s.writers[..n])|
    ensures QueueInv(s')
    ensures AckedOps(s') == AckedOps(s) + GroupOps(s.writers[..n])
  {
    hide GroupOps, AckedWriters;
    AckedGrows(s.acked, more, 0);
    GroupOpsConcat(AckedWriters(s.acked), s.writers[..n]);
    assert s.writers == s.writers[..n] + s.writers[n..];
    forall i: nat | i < |s'.acked|
      ensures s'.acked[i].first == s.origin + |GroupOps(AckedWriters(s'.acked)[..i])| + 1
    {
      if i < |s.acked| {
        assert AckedWriters(s'.acked)[..i] == AckedWriters(s.acked)[..i];
      } else {
        var j := i - |s.acked|;
        AckedGrows(s.acked, more, j);
        assert AckedWriters(more)[..j] == s.writers[..j];
        GroupOpsConcat(AckedWriters(s.acked), s.writers[..j]);
      }
    }
  }

  lemma SyncWriterHasSyncLeader(ws: seq<Writer>, n: nat, i: nat)
    requires AllJoin(ws, n) && i < n && ws[i].sync
    ensures ws[0].sync
  {
    assert i > 0 ==> Joins(ws, i);
  }

  // ---- every event keeps the invariant -------------------------------------------------------------------

  lemma GroupStays(ws: seq<Writer>, w: Writer, n: nat)
    requires AllJoin(ws, n)
    ensures AllJoin(ws + [w], n) && (ws + [w])[..n] == ws[..n]
  {
    forall i: nat | 1 <= i < n
      ensures Joins(ws + [w], i)
    {
      assert Joins(ws, i);
      assert (ws + [w])[..i + 1] == ws[..i + 1];
    }
  }

  lemma ArriveKeepsInv(s: State, w: Writer, s': State)
    requires QInv(s) && Step(s, Arrive(w), s')
    ensures QInv(s')
  {
    hide Inv, Backs, ReplayedLog, GroupOps, Applied, LogOps, Tables, NumbersBelow, GroupSize, AllJoin;
    assert s'.arrived == AckedWriters(s'.acked) + s'.writers;
    if s.phase.Writing? {
      GroupStays(s.writers, w, s.phase.group);
    }
  }

  lemma SwitchKeepsQInv(s: State, s': State)
    requires QInv(s) && Step(s, Switch, s')
    ensures QInv(s')
  {
    hide Inv, ReplayedLog, GroupOps, Applied, LogOps, Tables, NumbersBelow, GroupSize, AllJoin, AckedWriters;
    NextKeepsInv(s.db, SwitchMemTable, s'.db);
    EmptyLog(s.db.lastSequence);
  }

  lemma EmptyLog(base: nat)
    ensures Backs([], base, []) && LogOps([]) == []
  {
  }

  lemma SkipKeepsInv(s: State, s': State)
    requires QInv(s) && Step(s, Skip, s')
    ensures QInv(s')
    ensures AckedOps(s') == AckedOps(s)
  {
    hide Inv, Backs, Applied, LogOps, Tables, NumbersBelow, GroupOps, AllJoin, AckedWriters, QueueInv, AckedOps;
    SkipKeepsQueue(s, s');
  }

  lemma SkipKeepsQueue(s: State, s': State)
    requires QueueInv(s) && Step(s, Skip, s')
    ensures QueueInv(s')
    ensures AckedOps(s') == AckedOps(s)
  {
    hide AckedWriters, GroupOps;
    var w := s.writers[0];
    var more := [Ack(w, s.db.lastSequence + 1)];
    OneAck(more[0]);
    GroupGrows(s.writers, 0);
    NoGroup(s.writers);
    assert s.writers[..1] == [w];
    assert AckedOps(s) + [] == AckedOps(s);
    ServedInOrder(s, more, 1, s');
  }

  lemma OneAck(a: Ack)
    ensures AckedWriters([a]) == [a.writer]
  {
  }

  lemma LeadKeepsInv(s: State, s': State)
    requires QInv(s) && Step(s, Lead, s')
    ensures QInv(s')
  {
    hide Inv, ReplayedLog, GroupOps, LogOps, Tables, NumbersBelow, GroupSize, AllJoin, AckedWriters;
  }

  lemma AppendKeepsInv(s: State, s': State)
    requires QInv(s) && Step(s, AppendLog, s')
    ensures QInv(s')
  {
    hide Inv, ReplayedLog, GroupOps, LogOps, Tables, NumbersBelow, GroupSize, AllJoin, AckedWriters, Backs;
    var records := s.logs[s.logNumber];
    var r := LogRecord(s.db.lastSequence + 1, s.phase.ops);
    assert (records + [r])[..|records|] == records;
  }

  lemma SyncKeepsInv(s: State, s': State)
    requires QInv(s) && Step(s, SyncLog, s')
    ensures QInv(s')
  {
    hide Inv, ReplayedLog, GroupOps, LogOps, Tables, NumbersBelow, GroupSize, AllJoin, AckedWriters, Backs;
  }

  lemma InsertKeepsInv(s: State, s': State)
    requires QInv(s) && Step(s, InsertOp, s')
    ensures QInv(s')
  {
    hide Inv, ReplayedLog, GroupOps, LogOps, Tables, NumbersBelow, GroupSize, AllJoin, AckedWriters, Backs, Inserted;
  }

  lemma FinishIsWriting(s: State, s': State)
    requires Step(s, Finish, s')
    ensures s.phase.Writing?
  {
  }

  lemma FinishKeepsInv(s: State, s': State)
    requires s.phase.Writing? && QInv(s) && Step(s, Finish, s')
    ensures QInv(s')
    ensures Next(Committed(s), Action.Write(s.phase.ops), Committed(s'))
    ensures AckedOps(s') == AckedOps(s) + s.phase.ops
  {
    hide Inv, Next, Step, Committed, AckedWriters, AckedOps, QueueInv, PhaseInv, LogInv, ManifestInv;
    FinishWrites(s, s');
    FinishKeepsQueue(s, s');
    FinishKeepsLog(s, s');
  }

  lemma FinishWrites(s: State, s': State)
    requires Inv(Committed(s)) && PhaseInv(s) && ManifestInv(s) && Step(s, Finish, s')
    ensures s.phase.Writing? && Next(Committed(s), Action.Write(s.phase.ops), Committed(s'))
    ensures Inv(Committed(s')) && PhaseInv(s') && ManifestInv(s')
  {
    hide Inv, Applied, GroupOps, AllJoin, Acks, Tables, NumbersBelow;
    NextKeepsInv(Committed(s), Action.Write(s.phase.ops), Committed(s'));
  }

  lemma FinishKeepsLog(s: State, s': State)
    requires LogInv(s) && PhaseInv(s) && Step(s, Finish, s')
    ensures LogInv(s')
  {
    hide GroupOps, LogOps, Applied, AllJoin, Acks, Backs;
    var records := s.logs[s.logNumber];
    LoggedBatchBacks(CommittedLog(s), s.memBase, s.phase.before, s.phase.ops);
    LogGrows(CommittedLog(s), records[|records| - 1]);
    assert records == CommittedLog(s) + [records[|records| - 1]];
  }

  lemma FinishKeepsQueue(s: State, s': State)
    requires QueueInv(s) && PhaseInv(s) && Step(s, Finish, s')
    ensures QueueInv(s')
    ensures AckedOps(s') == AckedOps(s) + s.phase.ops
  {
    hide GroupOps, Applied, AllJoin, AckedWriters;
    var n := s.phase.group;
    var more := Acks(s.writers[..n], s.db.lastSequence);
    AcksOf(s.writers[..n], s.db.lastSequence);
    forall i: nat | i < n
      ensures more[i].first == s.db.lastSequence + |GroupOps(s.writers[..i])| + 1
    {
      assert s.writers[..n][..i] == s.writers[..i];
    }
    ServedInOrder(s, more, n, s');
  }

  lemma AcksOf(ws: seq<Writer>, last: nat)
    ensures AckedWriters(Acks(ws, last)) == ws
  {
  }

  lemma DeleteLogKeepsInv(s: State, n: nat, s': State)
    requires QInv(s) && Step(s, DeleteLog(n), s')
    ensures QInv(s')
  {
    hide Inv, ReplayedLog, GroupOps, LogOps, Applied, Tables, NumbersBelow, GroupSize, AllJoin, AckedWriters, Backs;
  }

  lemma MovedTables(db: Db, level: nat, f: File, db': Db)
    requires Inv(db) && Moved(db, level, f, db')
    ensures Tables(db'.levels) <= Tables(db.levels)
  {
    hide Inv, Tables, Replaced, Chosen, GoodReplacement;
    MoveIsReplacement(db, level, f, db');
    ReplacedTables(db.levels, level, [f], [], [f], db'.levels);
  }

  /** A background step stores nothing new, and moves the immutable memtable to the tables. */
  lemma BackgroundTables(db: Db, a: Action, db': Db)
    requires Inv(db) && Next(db, a, db') && !a.Write? && !a.SwitchMemTable?
    ensures db'.mem == db.mem && db'.lastSequence == db.lastSequence && db.nextFile <= db'.nextFile
    ensures a.FlushMemTable? ==> db.imm.Some? && db'.imm.None? && Tables(db'.levels) <= Tables(db.levels) + Imm(db)
    ensures !a.FlushMemTable? ==> db'.imm == db.imm && Tables(db'.levels) <= Tables(db.levels)
    ensures a.TakeSnapshot? || a.ReleaseSnapshot? ==> db'.levels == db.levels && db'.nextFile == db.nextFile
    ensures a.MoveFile? || a.Compact? || a.FlushMemTable? ==> NumbersBelow(db'.levels, db'.nextFile)
  {
    hide RecencyOrder, Sorted, UniqueKeys, Tables, Replaced, Chosen, FileAdded, ClearDownTo, ValidFile, SafeToDrop;
    NextKeepsInv(db, a, db');
    match a
    case FlushMemTable(l, f) =>
      if db.imm.value != [] {
        AddedTables(db.levels, l, f, db'.levels);
      }
    case MoveFile(l, f) =>
      MovedTables(db, l, f, db');
    case Compact(l, in0, in1, input, smallest, outputs) =>
      CompactionRules.SurvivorsAreInput(input, smallest, db.levels, l);
      assert GoodReplacement(db.levels, l, in0, in1, outputs);
      ReplacedTables(db.levels, l, in0, in1, outputs, db'.levels);
    case TakeSnapshot =>
    case ReleaseSnapshot(i) =>
  }

  lemma EntriesOfImm(s: State, e: Entry)
    requires QInv(s) && e in Imm(s.db)
    ensures e.key.sequence <= s.memBase
  {
    hide Inv, QueueInv, PhaseInv, ManifestInv, LogOps, Applied;
    var records := s.logs[s.manifestLog];
    var ops := LogOps(records);
    assert Sorted([]);
    AppliedContents([], ops, |ops|, s.immBase + 1);
    BatchEntriesAre(ops, |ops|, s.immBase + 1);
  }

  lemma BackgroundKeepsInv(s: State, a: Action, s': State)
    requires QInv(s) && Step(s, Background(a), s')
    ensures QInv(s')
  {
    hide Inv, Next, GroupOps, LogOps, Applied, NumbersBelow, AllJoin, AckedWriters, Backs, Tables, Imm;
    NextKeepsInv(Committed(s), a, Committed(s'));
    BackgroundTables(Committed(s), a, Committed(s'));
    assert Imm(Committed(s)) == Imm(s.db) by { SameImm(s); }
    BackgroundKeepsManifest(s, a, s');
    hide ManifestInv;
  }

  lemma SameImm(s: State)
    ensures Imm(Committed(s)) == Imm(s.db)
  {
  }

  lemma BackgroundKeepsManifest(s: State, a: Action, s': State)
    requires QInv(s) && Step(s, Background(a), s')
    requires if s'.db.imm == s.db.imm then Tables(s'.db.levels) <= Tables(s.db.levels)
             else s.db.imm.Some? && s'.db.imm.None? && Tables(s'.db.levels) <= Tables(s.db.levels) + Imm(s.db)
    requires a.TakeSnapshot? || a.ReleaseSnapshot? ==> s'.db.levels == s.db.levels && s'.db.imm == s.db.imm
    requires a.MoveFile? || a.Compact? || a.FlushMemTable? ==> NumbersBelow(s'.db.levels, s'.db.nextFile)
    requires s'.db.lastSequence == s.db.lastSequence
    ensures ManifestInv(s')
  {
    hide Inv, Next, QueueInv, PhaseInv, LogOps, Applied, NumbersBelow, Backs, Tables, Imm;
    forall e | e in Tables(s'.db.levels)
      ensures e.key.sequence <= Base(s')
    {
      if e in Imm(s.db) {
        EntriesOfImm(s, e);
      }
    }
  }

  lemma StepKeepsInv(s: State, e: Event, s': State)
    requires QInv(s) && Step(s, e, s')
    ensures QInv(s')
  {
    hide QInv, Step;
    match e
    case Arrive(w) => ArriveKeepsInv(s, w, s');
    case Switch => SwitchKeepsQInv(s, s');
    case Skip => SkipKeepsInv(s, s');
    case Lead => LeadKeepsInv(s, s');
    case AppendLog => AppendKeepsInv(s, s');
    case SyncLog => SyncKeepsInv(s, s');
    case InsertOp => InsertKeepsInv(s, s');
    case Finish =>
      FinishIsWriting(s, s');
      FinishKeepsInv(s, s');
    case Background(a) => BackgroundKeepsInv(s, a, s');
    case DeleteLog(n) => DeleteLogKeepsInv(s, n, s');
  }

  // ---- the events refine the steps of the database -------------------------------------------------------

  /** What an event does to the database that readers see: nothing, or one step of module Runs. */
  ghost predicate Refined(s: State, e: Event, s': State) {
    match e
    case Switch => Next(Committed(s), SwitchMemTable, Committed(s'))
    case Finish => s.phase.Writing? && Next(Committed(s), Action.Write(s.phase.ops), Committed(s'))
    case Background(a) => Next(Committed(s), a, Committed(s'))
    case _ => Committed(s') == Committed(s)
  }

  /** What the event serves: the group in flight, when it is finished. */
  function ServedOps(s: State, e: Event): seq<Op> {
    if e.Finish? && s.phase.Writing? then s.phase.ops else []
  }

  /**
   A group commits in one step: until it is finished readers see nothing of it, then all of it, and it
   is the batches of the writers it serves, in the order in which these were queued.
   */
  lemma StepRefines(s: State, e: Event, s': State)
    requires QInv(s) && Step(s, e, s')
    ensures Refined(s, e, s')
    ensures AckedOps(s') == AckedOps(s) + ServedOps(s, e)
  {
    hide QInv, Step, AckedOps, Refined;
    assert AckedOps(s) + [] == AckedOps(s);
    match e
    case Finish =>
      FinishIsWriting(s, s');
      FinishRefines(s, s');
    case Skip => SkipRefines(s, s');
    case _ => OtherRefines(s, e, s');
  }

  lemma FinishRefines(s: State, s': State)
    requires s.phase.Writing? && QInv(s) && Step(s, Finish, s')
    ensures Refined(s, Finish, s') && AckedOps(s') == AckedOps(s) + s.phase.ops
  {
    hide QInv, Step, AckedOps, Next;
    FinishKeepsInv(s, s');
  }

  lemma SkipRefines(s: State, s': State)
    requires QInv(s) && Step(s, Skip, s')
    ensures Refined(s, Skip, s') && AckedOps(s') == AckedOps(s)
  {
    hide QInv, AckedOps;
    SkipKeepsInv(s, s');
  }

  lemma OtherRefines(s: State, e: Event, s': State)
    requires QInv(s) && Step(s, e, s') && !e.Finish? && !e.Skip?
    ensures Refined(s, e, s') && AckedOps(s') == AckedOps(s)
  {
    hide Inv, Next, QueueInv, PhaseInv, LogInv, ManifestInv, GroupOps, Applied, AckedWriters, Inserted, IsGroup;
  }

  lemma PartialBatch(db: Db, ops: seq<Op>, mem: seq<Entry>, user: UserKey, snapshot: nat)
    requires Inv(db) && db.lastSequence + |ops| < MAX_SEQUENCE
    requires mem == Applied(db.mem, ops, |ops|, db.lastSequence + 1) && snapshot <= db.lastSequence
    ensures View(All(db.(mem := mem)), user, snapshot) == View(All(db), user, snapshot)
  {
    hide View, BatchEntries, Applied, ValidLevels, RecencyOrder, Sorted, UniqueKeys, NumbersBelow, Tables;
    var db' := db.(mem := mem, lastSequence := db.lastSequence + |ops|);
    WrittenContents(db, ops, db');
    assert All(db') == All(db.(mem := mem));
    BatchIsInvisible(All(db), ops, db.lastSequence, user, snapshot);
  }

  /** A reader at any committed sequence number sees nothing of the group in flight. */
  lemma PartialGroupIsInvisible(s: State, user: UserKey, snapshot: nat)
    requires QInv(s) && snapshot <= s.db.lastSequence
    ensures View(All(s.db), user, snapshot) == View(All(Committed(s)), user, snapshot)
  {
    hide View, All, Applied, Inv, QueueInv, LogInv, ManifestInv, GroupOps, AllJoin;
    if s.phase.Writing? {
      var done := if s.phase.stage.Inserting? then s.phase.stage.done else 0;
      var ops := s.phase.ops[..done];
      assert s.phase.ops == ops + s.phase.ops[done..];
      AppliedPrefix(s.phase.before, ops, s.phase.ops[done..], done, s.db.lastSequence + 1);
      PartialBatch(Committed(s), ops, s.db.mem, user, snapshot);
    }
  }

  // ---- runs ----------------------------------------------------------------------------------------------

  /** A database opened with nothing in its memtables, and nobody waiting. */
  ghost predicate Opened(s: State) {
    && Inv(s.db) && s.db.mem == [] && s.db.imm.None?
    && s.writers == s.arrived == [] && s.acked == [] && s.phase.Waiting? && !s.switched
    && s.logs == map[s.logNumber := []] && s.synced == map[s.logNumber := 0] && s.logNumber < s.db.nextFile
    && s.manifestLog == s.logNumber && s.manifestLast == s.db.lastSequence && s.manifestNext == s.db.nextFile
    && s.origin == s.memBase == s.immBase == s.db.lastSequence
  }

  /** If the event installs a compaction, that drops no deletion marker over a live older value. */
  ghost predicate HarmlessEvent(s: State, e: Event) {
    e.Background? ==> Harmless(Committed(s), e.action)
  }

  ghost predicate Run(states: seq<State>, events: seq<Event>) {
    && |states| == |events| + 1
    && Opened(states[0])
    && forall i: nat :: i < |events| ==> Step(states[i], events[i], states[i + 1])
  }

  lemma OpenedInv(s: State)
    requires Opened(s)
    ensures QInv(s)
  {
    hide ValidLevels, RecencyOrder, UniqueKeys, Sorted;
    EmptyLog(s.db.lastSequence);
    assert forall e :: e in Tables(s.db.levels) ==> e in All(s.db);
  }

  lemma {:induction false} RunKeepsQInv(states: seq<State>, events: seq<Event>, n: nat)
    requires Run(states, events) && n <= |events|
    ensures QInv(states[n])
  {
    hide QInv, Step, Opened;
    if n == 0 {
      OpenedInv(states[0]);
    } else {
      RunKeepsQInv(states, events, n - 1);
      StepKeepsInv(states[n - 1], events[n - 1], states[n]);
    }
  }

  /**
   Over any interleaving of writers and harmless background work, a read at the last committed sequence number
   finds what the finished batches, each applied once and in the order in which they were queued, make
   of the database that was opened.
   */
  lemma {:induction false} ReadsSeeServedBatches(states: seq<State>, events: seq<Event>, n: nat, user: UserKey)
    requires Run(states, events) && n <= |events|
    requires forall i: nat :: i < n ==> HarmlessEvent(states[i], events[i])
    ensures AckedWriters(states[n].acked) <= states[n].arrived
    ensures View(All(states[n].db), user, states[n].db.lastSequence)
         == ValueAfter(AckedOps(states[n]), |AckedOps(states[n])|, user,
                       View(All(states[0].db), user, states[0].db.lastSequence))
  {
    hide Step, View, All, AckedOps, Opened, Inv, Committed, AckedWriters, PhaseInv, LogInv, ManifestInv, HarmlessEvent;
    RunKeepsQInv(states, events, n);
    PartialGroupIsInvisible(states[n], user, states[n].db.lastSequence);
    CommittedReads(states, events, n, user);
  }

  lemma {:induction false} CommittedReads(states: seq<State>, events: seq<Event>, n: nat, user: UserKey)
    requires Run(states, events) && n <= |events|
    requires forall i: nat :: i < n ==> HarmlessEvent(states[i], events[i])
    ensures View(All(Committed(states[n])), user, states[n].db.lastSequence)
         == ValueAfter(AckedOps(states[n]), |AckedOps(states[n])|, user,
                       View(All(states[0].db), user, states[0].db.lastSequence))
  {
    hide Step, View, All, Next, QInv, HarmlessEvent;
    if n == 0 {
      assert AckedOps(states[0]) == [];
    } else {
      var s, e, s' := states[n - 1], events[n - 1], states[n];
      CommittedReads(states, events, n - 1, user);
      RunKeepsQInv(states, events, n - 1);
      assert Step(states[n - 1], events[n - 1], states[n - 1 + 1]);
      StepReads(s, e, s', user, View(All(states[0].db), user, states[0].db.lastSequence));
    }
  }

  lemma StepReads(s: State, e: Event, s': State, user: UserKey, v: Option<seq<Byte>>)
    requires QInv(s) && Step(s, e, s') && HarmlessEvent(s, e)
    requires View(All(Committed(s)), user, s.db.lastSequence) == ValueAfter(AckedOps(s), |AckedOps(s)|, user, v)
    ensures View(All(Committed(s')), user, s'.db.lastSequence) == ValueAfter(AckedOps(s'), |AckedOps(s')|, user, v)
  {
    hide Step, View, All, Next, SafeToDrop, AckedOps, QueueInv, PhaseInv, LogInv, ManifestInv, Inv;
    StepRefines(s, e, s');
    assert AckedOps(s) + [] == AckedOps(s);
    match e
    case Switch => NextReads(Committed(s), SwitchMemTable, Committed(s'), user);
    case Finish =>
      NextReads(Committed(s), Action.Write(s.phase.ops), Committed(s'), user);
      ValueAfterConcat(AckedOps(s), s.phase.ops, |s.phase.ops|, user, v);
    case Background(a) =>
      NextReads(Committed(s), a, Committed(s'), user);
      NoOps(s, a, s');
    case _ =>
  }

  lemma NoOps(s: State, a: Action, s': State)
    requires Step(s, Background(a), s')
    ensures Runs.OpsOf(a) == []
  {
  }

  /** Whenever a writer waits, the queue can move, or the flush that a forced switch waits for can. */
  lemma QueueMoves(s: State) returns (e: Event, s': State)
    requires QInv(s) && s.writers != []
    requires s.db.lastSequence + |GroupOps(s.writers)| < MAX_SEQUENCE
    ensures Step(s, e, s') && !e.Arrive? && !e.DeleteLog?
    ensures e.Background? ==> e.action.FlushMemTable? && s.writers[0].batch.None? && !s.switched && s.db.imm.Some?
  {
    hide Step, QInv;
    if s.phase.Waiting? {
      e, s' := FrontStarts(s);
    } else {
      e, s' := FrontGoesOn(s);
    }
  }

  lemma FrontStarts(s: State) returns (e: Event, s': State)
    requires QInv(s) && s.phase.Waiting? && s.writers != []
    requires s.db.lastSequence + |GroupOps(s.writers)| < MAX_SEQUENCE
    ensures Step(s, e, s') && !e.Arrive? && !e.DeleteLog?
    ensures e.Background? ==> e.action.FlushMemTable? && s.writers[0].batch.None? && !s.switched && s.db.imm.Some?
  {
    hide GroupOps, Joins, QueueInv, LogInv, ManifestInv, Inv;
    if s.writers[0].batch.Some? {
      var n := GroupExists(s.writers, 1);
      e := Lead;
      assert s.writers == s.writers[..n] + s.writers[n..];
      GroupOpsConcat(s.writers[..n], s.writers[n..]);
      s' := s.(phase := Writing(n, GroupOps(s.writers[..n]), s.db.mem, ToLog));
    } else if s.switched {
      e := Skip;
      s' := s.(writers := s.writers[1..], switched := false,
               acked := s.acked + [Ack(s.writers[0], s.db.lastSequence + 1)]);
    } else if s.db.imm.None? {
      e := Switch;
      s' := s.(db := s.db.(mem := [], imm := Some(s.db.mem), nextFile := s.db.nextFile + 1), switched := true,
               logs := s.logs[s.db.nextFile := []], synced := s.synced[s.db.nextFile := 0], logNumber := s.db.nextFile,
               immBase := s.memBase, memBase := s.db.lastSequence);
    } else {
      var a, db' := FlushCanRun(s.db, s.db.nextFile, s.db.nextFile + 1);
      e := Background(a);
      s' := s.(db := db', manifestLog := s.logNumber, manifestLast := s.db.lastSequence, manifestNext := db'.nextFile);
    }
  }

  /** An immutable memtable can always be flushed to level 0, under any number from the counter on. */
  lemma FlushCanRun(db: Db, number: nat, next: nat) returns (a: Action, db': Db)
    requires Inv(db) && db.imm.Some? && db.nextFile <= number < next
    ensures a.FlushMemTable? && Next(db, a, db') && db'.mem == db.mem && db'.nextFile == next
    ensures db.imm.value != [] ==> a.file.number == number
  {
    hide Inv, ValidFile, InsertFile, InFileOrder;
    if db.imm.value == [] {
      var none := File(0, 0, SeekKey(0.0, 0), SeekKey(0.0, 0), []);
      a, db' := FlushMemTable(0, none), db.(imm := None, nextFile := next);
    } else {
      var es := db.imm.value;
      var f := File(number, 0, es[0].key, es[|es| - 1].key, es);
      FlushedIsValid(db, f);
      var fs := InsertFile(db.levels[0], f);
      AddedToLevel0(db.levels, f);
      a, db' := FlushMemTable(0, f), db.(imm := None, levels := db.levels[0 := fs], nextFile := next);
    }
  }

  lemma AddedToLevel0(levels: Levels, f: File)
    requires |levels| > 0 && forall l :: 0 <= l < |levels| ==> InFileOrder(levels[l])
    requires forall g :: g in levels[0] ==> g.number != f.number
    ensures FileAdded(levels, 0, f, levels[0 := InsertFile(levels[0], f)])
  {
    hide InFileOrder, InsertFile;
    InsertFileKeepsOrder(levels[0], f);
    var fs := InsertFile(levels[0], f);
    assert forall g :: g in fs <==> g in FileSet(fs);
    assert forall g :: g in levels[0] <==> g in FileSet(levels[0]);
  }

  lemma FlushedIsValid(db: Db, f: File)
    requires Inv(db) && db.imm.Some? && db.imm.value != []
    requires var es := db.imm.value; f == File(f.number, 0, es[0].key, es[|es| - 1].key, es) && db.nextFile <= f.number
    ensures forall l, g :: 0 <= l < |db.levels| && g in db.levels[l] ==> g.number != f.number
    ensures ValidFile(f) && |db.levels| == NUM_LEVELS && forall l :: 0 <= l < NUM_LEVELS ==> InFileOrder(db.levels[l])
  {
    hide RecencyOrder, UniqueKeys, Tables;
    forall e | e in f.entries
      ensures e.key.sequence < MAX_SEQUENCE
    {
      assert e in All(db);
    }
  }

  lemma FrontGoesOn(s: State) returns (e: Event, s': State)
    requires QInv(s) && s.phase.Writing?
    ensures Step(s, e, s') && !e.Arrive? && !e.Background? && !e.DeleteLog?
  {
    hide Inv, QueueInv, ManifestInv, GroupOps, Joins, Backs, LogOps, Applied, Inserted, Acks;
    var p, last := s.phase, s.db.lastSequence;
    if p.stage.ToLog? {
      e := AppendLog;
      s' := s.(logs := s.logs[s.logNumber := s.logs[s.logNumber] + [LogRecord(last + 1, p.ops)]],
               phase := p.(stage := if s.writers[0].sync then ToSync else Inserting(0)));
    } else if p.stage.ToSync? {
      e := SyncLog;
      s' := s.(synced := s.synced[s.logNumber := |s.logs[s.logNumber]|], phase := p.(stage := Inserting(0)));
    } else if p.stage.done < |p.ops| {
      e := InsertOp;
      var i := p.stage.done;
      s' := s.(db := s.db.(mem := Inserted(s.db.mem, EntryOf(p.ops[i], last + 1 + i))),
        phase := p.(stage := Inserting(i + 1)));
    } else {
      e := Finish;
      s' := s.(db := s.db.(lastSequence := last + |p.ops|), writers := s.writers[p.group..],
               acked := s.acked + Acks(s.writers[..p.group], last), phase := Waiting, switched := false);
    }
  }

  lemma GroupExists(ws: seq<Writer>, m: nat) returns (n: nat)
    requires AllJoin(ws, m)
    ensures IsGroup(ws, n)
    decreases |ws| - m
  {
    if m < |ws| && Joins(ws, m) {
      n := GroupExists(ws, m + 1);
    } else {
      n := m;
    }
  }
}
