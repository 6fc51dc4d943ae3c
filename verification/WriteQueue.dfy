/**
 The group-commit write queue (DBImpl::Write, BuildBatchGroup, db/db_impl.cc), with the write-ahead
 logs and the background steps that interleave with it.  Each event is what happens between two
 points where another thread can run.
 */
module WriteQueue {
  import opened Options
  import opened Keys
  import opened Lsm
  import opened Runs

  // ---- groups --------------------------------------------------------------------------------------------

  /** DBImpl::Writer; `size` is the byte size of its batch.  A null batch asks for a new memtable. */
  datatype Writer = Writer(batch: Option<seq<Op>>, size: nat, sync: bool)

  function BatchOps(w: Writer): seq<Op> {
    if w.batch.Some? then w.batch.value else []
  }

  function GroupOps(ws: seq<Writer>): seq<Op> {
    if ws == [] then [] else GroupOps(ws[..|ws| - 1]) + BatchOps(ws[|ws| - 1])
  }

  function GroupSize(ws: seq<Writer>): nat {
    if ws == [] then 0 else
      var w := ws[|ws| - 1];
      GroupSize(ws[..|ws| - 1]) + if w.batch.Some? then w.size else 0
  }

  /** A small write at the front is not slowed down by a large group. */
  function MaxGroupSize(first: Writer): nat {
    if first.size <= 131072 then first.size + 131072 else 1048576
  }

  /** The i-th waiting writer can be served by the one at the front if all before it are. */
  predicate Joins(ws: seq<Writer>, i: nat)
    requires i < |ws|
  {
    && (ws[i].sync ==> ws[0].sync)
    && (ws[i].batch.Some? ==> GroupSize(ws[..i + 1]) <= MaxGroupSize(ws[0]))
  }

  predicate AllJoin(ws: seq<Writer>, n: nat) {
    && 1 <= n <= |ws|
    && forall i: nat :: 1 <= i < n ==> Joins(ws, i)
  }

  /** The front `n` writers are served together: as many as can join. */
  predicate IsGroup(ws: seq<Writer>, n: nat) {
    AllJoin(ws, n) && (n < |ws| ==> !Joins(ws, n))
  }

  lemma GroupIsUnique(ws: seq<Writer>, m: nat, n: nat)
    requires IsGroup(ws, m) && IsGroup(ws, n)
    ensures m == n
  {
  }

  /**
   A group writes at most 128 KB more than a small first batch, and at most 1 MB unless its first batch alone is
   larger; no synced batch joins one that is not; and it ends only for one of these two reasons.
   */
  lemma GroupIsBounded(ws: seq<Writer>, n: nat)
    requires IsGroup(ws, n) && ws[0].batch.Some?
    ensures ws[0].size <= 0x2_0000 ==> GroupSize(ws[..n]) <= ws[0].size + 0x2_0000
    ensures GroupSize(ws[..n]) <= 0x10_0000 || GroupSize(ws[..n]) == ws[0].size
    ensures forall i :: 0 <= i < n && ws[i].sync ==> ws[0].sync
    ensures n < |ws| ==>
              || (ws[n].sync && !ws[0].sync)
              || (ws[n].batch.Some? && GroupSize(ws[..n]) + ws[n].size
                                       > if ws[0].size <= 0x2_0000 then ws[0].size + 0x2_0000 else 0x10_0000)
  {
    GroupStaysBelow(ws, n);
    forall i | 0 < i < n && ws[i].sync
      ensures ws[0].sync
    {
      assert Joins(ws, i);
    }
    if n < |ws| {
      GroupGrows(ws, n);
    }
  }

  lemma {:induction false} GroupStaysBelow(ws: seq<Writer>, n: nat)
    requires AllJoin(ws, n) && ws[0].batch.Some?
    ensures GroupSize(ws[..n]) == ws[0].size || GroupSize(ws[..n]) <= MaxGroupSize(ws[0])
  {
    if n == 1 {
      assert ws[..1] == [ws[0]] && [ws[0]][..0] == [];
    } else {
      GroupStaysBelow(ws, n - 1);
      GroupGrows(ws, n - 1);
      assert Joins(ws, n - 1);
    }
  }

  lemma GroupGrows(ws: seq<Writer>, i: nat)
    requires i < |ws|
    ensures GroupOps(ws[..i + 1]) == GroupOps(ws[..i]) + BatchOps(ws[i])
    ensures GroupSize(ws[..i + 1]) == GroupSize(ws[..i]) + if ws[i].batch.Some? then ws[i].size else 0
  {
    assert ws[..i + 1][..i] == ws[..i];
  }

  lemma NoGroup(ws: seq<Writer>)
    ensures GroupOps(ws[..0]) == [] && GroupSize(ws[..0]) == 0
  {
  }

  /** BuildBatchGroup: which writers the front one serves, and the batch it writes for them. */
  method BuildBatchGroup(writers: seq<Writer>) returns (n: nat, result: seq<Op>)
    requires writers != [] && writers[0].batch.Some?
    ensures IsGroup(writers, n) && result == GroupOps(writers[..n])
  {
    hide GroupOps, GroupSize;
    var first := writers[0];
    NoGroup(writers);
    result := first.batch.value;
    var size := first.size;
    var maxSize := 1048576;
    if size <= 131072 {
      maxSize := size + 131072;
    }
    GroupGrows(writers, 0);
    n := 1;
    while n < |writers|
      invariant 1 <= n <= |writers|
      invariant forall i: nat :: 1 <= i < n ==> Joins(writers, i)
      invariant result == GroupOps(writers[..n]) && size == GroupSize(writers[..n])
    {
      var w := writers[n];
      GroupGrows(writers, n);
      if w.sync && !first.sync {
        break;
      }
      if w.batch.Some? {
        size := size + w.size;
        if size > maxSize {
          break;
        }
        result := result + w.batch.value;
      }
      n := n + 1;
    }
  }

  // ---- the state -----------------------------------------------------------------------------------------

  /** A batch as it is logged: the sequence number of its first operation, and its operations. */
  datatype LogRecord = LogRecord(sequence: nat, ops: seq<Op>)

  /** How far the writer at the front is with its group; the mutex is free meanwhile. */
  datatype Stage = ToLog | ToSync | Inserting(done: nat)

  /**
   What the front writer is doing.  While it writes the group of the front `group` writers, `before` is
   the memtable without that group.
   */
  datatype Phase =
    | Waiting
    | Writing(group: nat, ops: seq<Op>, before: seq<Entry>, stage: Stage)

  /** A writer that was told OK, and the first sequence number of its batch. */
  datatype Ack = Ack(writer: Writer, first: nat)

  /**
   `db.mem` may hold part of the group in flight.  `switched` says that the front writer has started a
   memtable since it came to the front, as MakeRoomForWrite must if it is forced.  `synced` is how many
   records of each log a sync has put on disk.  `logNumber` is logfile_number_; `manifestLog`,
   `manifestLast` and `manifestNext` are the log number, last sequence and next file number that the
   manifest on disk names.  `origin`, `immBase` and `memBase` record the last sequence number when the
   database was opened and when the log of imm_ and that of mem_ were started.
   */
  datatype State = State(
    db: Db, writers: seq<Writer>, phase: Phase, switched: bool, arrived: seq<Writer>, acked: seq<Ack>,
    logs: map<nat, seq<LogRecord>>, synced: map<nat, nat>, logNumber: nat,
    manifestLog: nat, manifestLast: nat, manifestNext: nat,
    origin: nat, immBase: nat, memBase: nat)

  /** The database as the last finished group left it. */
  function Committed(s: State): Db {
    if s.phase.Writing? then s.db.(mem := s.phase.before) else s.db
  }

  // ---- events --------------------------------------------------------------------------------------------

  datatype Event =
    | Arrive(writer: Writer)        // Write queues itself
    | Switch                        // MakeRoomForWrite starts a memtable and a log
    | Skip                          // a null batch at the front is done, once it has forced a switch
    | Lead                          // BuildBatchGroup
    | AppendLog
    | SyncLog
    | InsertOp
    | Finish                        // SetLastSequence; the group's writers are done
    | Background(action: Action)    // a flush, move or compaction is installed; snapshots
    | DeleteLog(number: nat)        // DeleteObsoleteFiles

  ghost predicate Step(s: State, e: Event, s': State) {
    match e
    case Arrive(w) =>
      s' == s.(writers := s.writers + [w], arrived := s.arrived + [w])
    case Switch =>
      && s.phase.Waiting? && s.writers != []
      && Next(s.db, SwitchMemTable, s'.db) && s.db.nextFile <= s'.logNumber < s'.db.nextFile
      && s' == s.(db := s'.db, switched := true,
                  logs := s.logs[s'.logNumber := []], synced := s.synced[s'.logNumber := 0], logNumber := s'.logNumber,
                  immBase := s.memBase, memBase := s.db.lastSequence)
    case Skip =>
      && s.phase.Waiting? && s.writers != [] && s.writers[0].batch.None? && s.switched
      && s' == s.(writers := s.writers[1..], switched := false,
                  acked := s.acked + [Ack(s.writers[0], s.db.lastSequence + 1)])
    case Lead =>
      && s.phase.Waiting? && s.writers != [] && s.writers[0].batch.Some? && s'.phase.Writing?
      && IsGroup(s.writers, s'.phase.group)
      && s' == s.(phase := Writing(s'.phase.group, GroupOps(s.writers[..s'.phase.group]), s.db.mem, ToLog))
      && s.db.lastSequence + |s'.phase.ops| < MAX_SEQUENCE
    case AppendLog =>
      && s.phase.Writing? && s.phase.stage.ToLog? && s.logNumber in s.logs && s.writers != []
      && s' == s.(logs := s.logs[s.logNumber := s.logs[s.logNumber] + [LogRecord(s.db.lastSequence + 1, s.phase.ops)]],
                  phase := s.phase.(stage := if s.writers[0].sync then ToSync else Inserting(0)))
    case SyncLog =>
      && s.phase.Writing? && s.phase.stage.ToSync? && s.logNumber in s.logs
      && s' == s.(synced := s.synced[s.logNumber := |s.logs[s.logNumber]|],
                  phase := s.phase.(stage := Inserting(0)))
    case InsertOp =>
      && s.phase.Writing? && s.phase.stage.Inserting? && s.phase.stage.done < |s.phase.ops|
      && var i := s.phase.stage.done;
         s' == s.(db := s.db.(mem := Inserted(s.db.mem, EntryOf(s.phase.ops[i], s.db.lastSequence + 1 + i))),
                  phase := s.phase.(stage := Inserting(i + 1)))
    case Finish =>
      && s.phase.Writing? && s.phase.stage == Inserting(|s.phase.ops|) && 0 < s.phase.group <= |s.writers|
      && s' == s.(db := s.db.(lastSequence := s.db.lastSequence + |s.phase.ops|),
                  writers := s.writers[s.phase.group..],
                  acked := s.acked + Acks(s.writers[..s.phase.group], s.db.lastSequence),
                  phase := Waiting, switched := false)
    case Background(a) =>
      && (a.FlushMemTable? || a.MoveFile? || a.Compact? || a.TakeSnapshot? || a.ReleaseSnapshot?)
      && s'.db.mem == s.db.mem
      && Next(Committed(s), a, Committed(s'))
      && s' == (if a.TakeSnapshot? || a.ReleaseSnapshot? then s.(db := s'.db)
                else s.(db := s'.db,
                        manifestLog := if a.FlushMemTable? then s.logNumber else s.manifestLog,
                        manifestLast := s.db.lastSequence, manifestNext := s'.db.nextFile))
    case DeleteLog(n) =>
      && n < s.manifestLog
      && s' == s.(logs := map k | k in s.logs && k != n :: s.logs[k])
  }

  /** The writers of a group, each with the first of its sequence numbers. */
  function Acks(ws: seq<Writer>, last: nat): (r: seq<Ack>)
    ensures |r| == |ws|
  {
    seq(|ws|, i requires 0 <= i < |ws| => Ack(ws[i], last + |GroupOps(ws[..i])| + 1))
  }
}
