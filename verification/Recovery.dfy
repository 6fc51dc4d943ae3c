/**
 Opening a database after a crash (DBImpl::Recover, RecoverLogFile, db/db_impl.cc): the logs that the
 manifest does not make obsolete are replayed into memtables that become level-0 tables.
 */
module Recovery {
  import opened Options
  import opened Keys
  import opened Files
  import opened Lsm
  import opened Runs
  import opened DoCompaction
  import opened VersionBuilder
  import opened DbImpl
  import opened WriteQueue
  import opened GroupCommit

  // ---- one log -------------------------------------------------------------------------------------------

  /** The database during recovery, when everything up to `last` has been replayed. */
  function Recovering(mem: seq<Entry>, levels: Levels, last: nat, nextFile: nat): Db {
    Db(mem, None, levels, last, nextFile, [])
  }

  lemma HandedOver(db: Db)
    requires Inv(db) && db.imm.None?
    ensures Inv(db.(mem := [], imm := Some(db.mem))) && All(db.(mem := [], imm := Some(db.mem))) == All(db)
  {
    hide ValidLevels, LevelsInRecencyOrder, UniqueKeys, NumbersBelow;
    assert All(db.(mem := [], imm := Some(db.mem))) == All(db);
  }

  /** WriteLevel0Table without a base version: a memtable becomes a table of level 0. */
  method WriteLevel0Table(mem: seq<Entry>, levels: Levels, nextFile: nat, fileSize: nat, ghost last: nat)
    returns (levels': Levels, nextFile': nat)
    requires Inv(Recovering(mem, levels, last, nextFile))
    ensures Inv(Recovering([], levels', last, nextFile'))
    ensures All(Recovering([], levels', last, nextFile')) == All(Recovering(mem, levels, last, nextFile))
    ensures nextFile <= nextFile'
  {
    ghost var db := Recovering(mem, levels, last, nextFile);
    ghost var full := db.(mem := [], imm := Some(mem));
    HandedOver(db);
    nextFile' := nextFile + 1;
    if mem == [] {
      levels' := levels;
      ghost var none := File(0, 0, SeekKey(0.0, 0), SeekKey(0.0, 0), []);
      FlushKeepsInv(full, 0, none, Recovering([], levels', last, nextFile'));
    } else {
      var f := MakeFile(nextFile, fileSize, mem);
      FlushedFileIsValid(full, f);
      FlushIsInstallable(levels, 0, f);
      levels' := LogAndApply(levels, FileEdit({}, [(0, f)]));
      InstalledIsAdded(levels, 0, f, levels');
      FlushKeepsInv(full, 0, f, Recovering([], levels', last, nextFile'));
    }
  }

  lemma {:induction false} BatchPrefix(a: seq<Op>, b: seq<Op>, n: nat, first: nat)
    requires n <= |a|
    ensures BatchEntries(a + b, n, first) == BatchEntries(a, n, first)
  {
    if n > 0 {
      BatchPrefix(a, b, n - 1, first);
    }
  }

  lemma {:induction false} BatchConcat(a: seq<Op>, b: seq<Op>, n: nat, first: nat)
    requires n <= |b|
    ensures BatchEntries(a + b, |a| + n, first) == BatchEntries(a, |a|, first) + BatchEntries(b, n, first + |a|)
  {
    if n > 0 {
      BatchConcat(a, b, n - 1, first);
    } else {
      BatchPrefix(a, b, |a|, first);
    }
  }

  /** All entries of a list of operations numbered from `base` + 1. */
  ghost function OpEntries(ops: seq<Op>, base: nat): set<Entry> {
    BatchEntries(ops, |ops|, base + 1)
  }

  lemma OpEntriesConcat(a: seq<Op>, b: seq<Op>, base: nat)
    ensures OpEntries(a + b, base) == OpEntries(a, base) + OpEntries(b, base + |a|)
  {
    BatchConcat(a, b, |b|, base + 1);
  }

  lemma ReplayedRecord(db: Db, ops: seq<Op>, db': Db)
    requires Inv(db) && Written(db, ops, db')
    ensures Inv(db') && All(db') == All(db) + OpEntries(ops, db.lastSequence)
  {
    hide Inv, Written, All, BatchEntries;
    WriteKeepsInv(db, ops, db');
    WrittenContents(db, ops, db');
  }

  lemma LogPrefix(records: seq<LogRecord>, i: nat)
    requires i < |records|
    ensures LogOps(records[..i + 1]) == LogOps(records[..i]) + records[i].ops
    ensures |LogOps(records[..i + 1])| <= |LogOps(records)|
    decreases |records|
  {
    assert records[..i + 1][..i] == records[..i];
    if i + 1 < |records| {
      var n := |records| - 1;
      LogPrefix(records[..n], i);
      assert records[..n][..i + 1] == records[..i + 1];
    } else {
      assert records[..i + 1] == records;
    }
  }

  /**
   RecoverLogFile: replays the records of a log, which carry on from `base`.  When a memtable is full
   is left open.
   */
  method RecoverLogFile(records: seq<LogRecord>, levels: Levels, nextFile: nat, maxSequence: nat, ghost base: nat)
    returns (levels': Levels, nextFile': nat, maxSequence': nat)
    requires Numbered(records, base) && base + |LogOps(records)| < MAX_SEQUENCE
    requires Inv(Recovering([], levels, base, nextFile)) && maxSequence <= base
    ensures Inv(Recovering([], levels', base + |LogOps(records)|, nextFile'))
    ensures All(Recovering([], levels', base + |LogOps(records)|, nextFile'))
         == All(Recovering([], levels, base, nextFile)) + OpEntries(LogOps(records), base)
    ensures maxSequence' == if records == [] then maxSequence else base + |LogOps(records)|
    ensures nextFile <= nextFile'
  {
    hide Inv, All, LogOps, Applied, OpEntries;
    levels', nextFile', maxSequence' := levels, nextFile, maxSequence;
    var mem: Option<seq<Entry>> := None;
    ghost var start := All(Recovering([], levels, base, nextFile));
    NothingReplayed(records, base);
    var i := 0;
    while i < |records|
      invariant i <= |records|
      invariant var ops := LogOps(records[..i]);
        && |ops| <= |LogOps(records)|
        && var d := Recovering(if mem.Some? then mem.value else [], levels', base + |ops|, nextFile');
           Inv(d) && All(d) == start + OpEntries(ops, base)
      invariant maxSequence' == if i == 0 then maxSequence else base + |LogOps(records[..i])|
      invariant nextFile <= nextFile'
    {
      ghost var ops := LogOps(records[..i]);
      LogPrefix(records, i);
      var record := records[i];
      if mem.None? {
        mem := Some([]);
      }
      ghost var d := Recovering(mem.value, levels', base + |ops|, nextFile');
      mem := Some(Applied(mem.value, record.ops, |record.ops|, record.sequence));
      ghost var d' := Recovering(mem.value, levels', base + |ops| + |record.ops|, nextFile');
      ReplayedRecord(d, record.ops, d');
      OpEntriesConcat(ops, record.ops, base);
      var lastSeq := record.sequence + |record.ops| - 1;
      if lastSeq > maxSequence' {
        maxSequence' := lastSeq;
      }
      if * {
        var fileSize: nat := *;
        levels', nextFile' := WriteLevel0Table(mem.value, levels', nextFile', fileSize, base + |ops| + |record.ops|);
        mem := None;
      }
      i := i + 1;
    }
    assert records[..|records|] == records;
    if mem.Some? {
      var fileSize: nat := *;
      levels', nextFile' := WriteLevel0Table(mem.value, levels', nextFile', fileSize, base + |LogOps(records)|);
    }
  }

  lemma NothingReplayed(records: seq<LogRecord>, base: nat)
    ensures LogOps(records[..0]) == [] && OpEntries([], base) == {}
  {
  }

  // ---- all logs ------------------------------------------------------------------------------------------

  /** The entries in the logs of a directory listing that are numbered from `minLog`, each from its base. */
  ghost function ListedEntries(logs: map<nat, seq<LogRecord>>, listing: seq<nat>, minLog: nat, bases: map<nat, nat>)
    : set<Entry>
  {
    if listing == [] then {} else
      var n := listing[|listing| - 1];
      ListedEntries(logs, listing[..|listing| - 1], minLog, bases)
      + if n >= minLog && n in logs && n in bases then OpEntries(LogOps(logs[n]), bases[n]) else {}
  }

  /** The last sequence number in these logs, or `base` if they hold no record. */
  function Reach(logs: map<nat, seq<LogRecord>>, listing: seq<nat>, minLog: nat, bases: map<nat, nat>, base: nat): nat {
    if listing == [] then base else
      var n := listing[|listing| - 1];
      if n >= minLog && n in logs && n in bases && logs[n] != [] then bases[n] + |LogOps(logs[n])|
      else Reach(logs, listing[..|listing| - 1], minLog, bases, base)
  }

  /** Log `i` is numbered from its base, and that is not before the end of the logs before it. */
  ghost predicate Follows(logs: map<nat, seq<LogRecord>>, listing: seq<nat>, minLog: nat, bases: map<nat, nat>,
                          base: nat, i: nat)
    requires i < |listing|
  {
    var n := listing[i];
    n >= minLog ==>
      && n in logs && n in bases && Numbered(logs[n], bases[n])
      && Reach(logs, listing[..i], minLog, bases, base) <= bases[n] && bases[n] + |LogOps(logs[n])| < MAX_SEQUENCE
  }

  /** The logs come one after the other; a log may end before the next one begins. */
  ghost predicate Chained(logs: map<nat, seq<LogRecord>>, listing: seq<nat>, minLog: nat, bases: map<nat, nat>,
                          base: nat) {
    && (forall n :: n in listing ==> n in logs)
    && forall i: nat :: i < |listing| ==> Follows(logs, listing, minLog, bases, base, i)
  }

  /**
   Recover, after VersionSet::Recover has read the manifest: `listing` is the sorted list of the log
   files in the directory.
   */
  method Recover(levels: Levels, manifestLog: nat, manifestLast: nat, manifestNext: nat,
                 logs: map<nat, seq<LogRecord>>, listing: seq<nat>, ghost bases: map<nat, nat>, ghost base: nat)
    returns (r: Db)
    requires Inv(Recovering([], levels, base, manifestNext)) && base <= manifestLast < MAX_SEQUENCE
    requires Chained(logs, listing, manifestLog, bases, base)
    ensures Inv(r) && r.mem == [] && r.imm.None? && r.snapshots == []
    ensures All(r) == All(Recovering([], levels, base, manifestNext)) + ListedEntries(logs, listing, manifestLog, bases)
    ensures var replayed := Reach(logs, listing, manifestLog, bases, base);
            r.lastSequence == if manifestLast < replayed then replayed else manifestLast
    ensures manifestNext <= r.nextFile && forall n :: n in listing && n >= manifestLog ==> n < r.nextFile
  {
    hide Inv, All, LogOps, ListedEntries, OpEntries, Reach, Follows, Numbered;
    var current, nextFile := levels, manifestNext;
    var maxSequence: nat := 0;
    ghost var start := All(Recovering([], levels, base, manifestNext));
    NothingListed(logs, listing, manifestLog, bases, base);
    var i := 0;
    while i < |listing|
      invariant i <= |listing|
      invariant var last := Reach(logs, listing[..i], manifestLog, bases, base);
        && Inv(Recovering([], current, last, nextFile))
        && All(Recovering([], current, last, nextFile)) == start + ListedEntries(logs, listing[..i], manifestLog, bases)
        && maxSequence <= last < MAX_SEQUENCE && (maxSequence < last ==> last == base)
      invariant manifestNext <= nextFile
      invariant forall k :: 0 <= k < i && listing[k] >= manifestLog ==> listing[k] < nextFile
    {
      ghost var last := Reach(logs, listing[..i], manifestLog, bases, base);
      ListedPrefix(logs, listing, manifestLog, bases, base, i);
      if listing[i] >= manifestLog {
        LogFollows(logs, listing, manifestLog, bases, base, i);
        var records := logs[listing[i]];
        ghost var b := bases[listing[i]];
        ghost var all := All(Recovering([], current, last, nextFile));
        LaterSequence(current, last, b, nextFile);
        LogOfNothing(records, b);
        current, nextFile, maxSequence := RecoverLogFile(records, current, nextFile, maxSequence, b);
        // MarkFileNumberUsed
        if nextFile <= listing[i] {
          MoreNumbers(current, b + |LogOps(records)|, nextFile, listing[i] + 1);
          nextFile := listing[i] + 1;
        }
        if records == [] {
          assert all + {} == all;
          EarlierSequence(current, b, last, nextFile);
        }
      }
      i := i + 1;
    }
    assert listing[..|listing|] == listing;
    var lastSequence := manifestLast;
    if lastSequence < maxSequence {
      lastSequence := maxSequence;
    }
    r := Recovering([], current, lastSequence, nextFile);
    LaterSequence(current, Reach(logs, listing, manifestLog, bases, base), lastSequence, nextFile);
  }

  lemma NothingListed(logs: map<nat, seq<LogRecord>>, listing: seq<nat>, minLog: nat, bases: map<nat, nat>, base: nat)
    ensures ListedEntries(logs, listing[..0], minLog, bases) == {}
    ensures Reach(logs, listing[..0], minLog, bases, base) == base
  {
  }

  lemma LogOfNothing(records: seq<LogRecord>, base: nat)
    ensures records == [] ==> LogOps(records) == [] && OpEntries(LogOps(records), base) == {}
  {
  }

  lemma NothingInLog(base: nat)
    ensures LogOps([]) == [] && OpEntries([], base) == {}
  {
  }

  /** One log more. */
  lemma ListedPrefix(logs: map<nat, seq<LogRecord>>, listing: seq<nat>, minLog: nat, bases: map<nat, nat>, base: nat,
                     i: nat)
    requires i < |listing|
    ensures var n := listing[i];
      ListedEntries(logs, listing[..i + 1], minLog, bases)
      == ListedEntries(logs, listing[..i], minLog, bases)
         + if n >= minLog && n in logs && n in bases then OpEntries(LogOps(logs[n]), bases[n]) else {}
    ensures var n := listing[i];
      Reach(logs, listing[..i + 1], minLog, bases, base)
      == if n >= minLog && n in logs && n in bases && logs[n] != [] then bases[n] + |LogOps(logs[n])|
         else Reach(logs, listing[..i], minLog, bases, base)
  {
    hide LogOps, OpEntries;
    assert listing[..i + 1][..i] == listing[..i];
  }

  lemma LogFollows(logs: map<nat, seq<LogRecord>>, listing: seq<nat>, minLog: nat, bases: map<nat, nat>, base: nat,
                   i: nat)
    requires Chained(logs, listing, minLog, bases, base) && i < |listing| && listing[i] >= minLog
    ensures var n := listing[i];
      && n in logs && n in bases && Numbered(logs[n], bases[n])
      && Reach(logs, listing[..i], minLog, bases, base) <= bases[n] && bases[n] + |LogOps(logs[n])| < MAX_SEQUENCE
  {
    hide LogOps, Numbered, Reach;
    assert Follows(logs, listing, minLog, bases, base, i);
  }

  lemma MoreNumbers(levels: Levels, last: nat, n: nat, m: nat)
    requires Inv(Recovering([], levels, last, n)) && n <= m
    ensures Inv(Recovering([], levels, last, m))
    ensures All(Recovering([], levels, last, m)) == All(Recovering([], levels, last, n))
  {
    hide ValidLevels, LevelsInRecencyOrder, UniqueKeys, Tables, Newer;
    assert NumbersBelow(levels, m);
    assert All(Recovering([], levels, last, m)) == All(Recovering([], levels, last, n));
  }

  lemma LaterSequence(levels: Levels, last: nat, last': nat, n: nat)
    requires Inv(Recovering([], levels, last, n)) && last <= last' < MAX_SEQUENCE
    ensures Inv(Recovering([], levels, last', n))
    ensures All(Recovering([], levels, last', n)) == All(Recovering([], levels, last, n))
    ensures forall e <- All(Recovering([], levels, last, n)) :: e.key.sequence <= last
  {
    hide ValidLevels, LevelsInRecencyOrder, UniqueKeys, Tables, Newer, NumbersBelow;
    assert All(Recovering([], levels, last', n)) == All(Recovering([], levels, last, n));
  }

  lemma EarlierSequence(levels: Levels, last: nat, last': nat, n: nat)
    requires Inv(Recovering([], levels, last, n)) && last' <= last
    requires forall e <- All(Recovering([], levels, last, n)) :: e.key.sequence <= last'
    ensures Inv(Recovering([], levels, last', n))
    ensures All(Recovering([], levels, last', n)) == All(Recovering([], levels, last, n))
  {
    hide ValidLevels, LevelsInRecencyOrder, UniqueKeys, Tables, Newer, NumbersBelow;
    assert All(Recovering([], levels, last', n)) == All(Recovering([], levels, last, n));
  }

  // ---- a stop at any point of a run ----------------------------------------------------------------------

  /** A sorted directory listing of the log files. */
  ghost predicate Lists(listing: seq<nat>, logs: map<nat, seq<LogRecord>>) {
    && (forall n :: n in listing <==> n in logs)
    && (forall i, j :: 0 <= i < j < |listing| ==> listing[i] < listing[j])
  }

  /** What a stop leaves of the logs: of each a prefix, and at least the records that were synced. */
  ghost predicate Stopped(s: State, kept: map<nat, seq<LogRecord>>) {
    && kept.Keys == s.logs.Keys
    && forall n :: n in s.logs ==> kept[n] <= s.logs[n] && (n in s.synced ==> s.synced[n] <= |kept[n]|)
  }

  /** The sequence numbers that the logs of the two memtables carry on from. */
  function LogBases(s: State): map<nat, nat> {
    if s.db.imm.Some? then map[s.manifestLog := s.immBase, s.logNumber := s.memBase] else map[s.logNumber := s.memBase]
  }

  /** What is left of the operations in the log of the immutable memtable ... */
  function KeptOld(s: State, kept: map<nat, seq<LogRecord>>): seq<Op> {
    if s.db.imm.Some? && s.manifestLog in kept then LogOps(kept[s.manifestLog]) else []
  }

  /** ... and of those in the log of the memtable. */
  function KeptNew(s: State, kept: map<nat, seq<LogRecord>>): seq<Op> {
    if s.logNumber in kept then LogOps(kept[s.logNumber]) else []
  }

  /** What recovery finds after the stop. */
  ghost function RecoveredEntries(s: State, kept: map<nat, seq<LogRecord>>): set<Entry> {
    Tables(s.db.levels) + OpEntries(KeptOld(s, kept), s.immBase) + OpEntries(KeptNew(s, kept), s.memBase)
  }

  /** The last sequence number in what is left of the logs. */
  function KeptReach(s: State, kept: map<nat, seq<LogRecord>>): nat {
    if s.logNumber in kept && kept[s.logNumber] != [] then s.memBase + |KeptNew(s, kept)|
    else if s.db.imm.Some? && s.manifestLog in kept && kept[s.manifestLog] != [] then s.immBase + |KeptOld(s, kept)|
    else Base(s)
  }

  function InFlightOps(s: State): seq<Op> {
    if s.phase.Writing? && !s.phase.stage.ToLog? then s.phase.ops else []
  }

  /** Old logs add nothing. */
  lemma {:induction false} OldLogs(logs: map<nat, seq<LogRecord>>, listing: seq<nat>, minLog: nat, bases: map<nat, nat>,
                                   base: nat, k: nat)
    requires k <= |listing| && forall i :: 0 <= i < k ==> listing[i] < minLog
    ensures ListedEntries(logs, listing[..k], minLog, bases) == {}
    ensures Reach(logs, listing[..k], minLog, bases, base) == base
  {
    hide LogOps, OpEntries;
    if k > 0 {
      OldLogs(logs, listing, minLog, bases, base, k - 1);
      ListedPrefix(logs, listing, minLog, bases, base, k - 1);
    } else {
      NothingListed(logs, listing, minLog, bases, base);
    }
  }

  /** The listing ends in the one or two logs that are recovered. */
  lemma ListingEnds(s: State, listing: seq<nat>)
    requires LogInv(s) && Lists(listing, s.logs)
    ensures var m := |listing|;
      && m >= 1 && listing[m - 1] == s.logNumber
      && var k := if s.db.imm.Some? then m - 2 else m - 1;
         k >= 0 && (s.db.imm.Some? ==> listing[k] == s.manifestLog)
         && forall i :: 0 <= i < k ==> listing[i] < s.manifestLog
  {
    hide Backs, LogOps, CommittedLog;
    var m := |listing|;
    var j :| 0 <= j < m && listing[j] == s.logNumber;
    var h :| 0 <= h < m && listing[h] == s.manifestLog;
    assert listing[m - 1] in s.logs;
    assert listing[m - 1] == s.logNumber;
    forall i | 0 <= i < m && listing[i] >= s.manifestLog
      ensures i == h || i == j
    {
      assert listing[i] in listing;
    }
  }

  /** A prefix of a log is numbered like the log, and holds a prefix of its operations. */
  lemma LogCut(records: seq<LogRecord>, kept: seq<LogRecord>, base: nat)
    requires Numbered(records, base) && kept <= records
    ensures Numbered(kept, base) && LogOps(kept) <= LogOps(records)
  {
    hide LogOps;
    forall i: nat | i < |kept|
      ensures kept[i].sequence == base + |LogOps(kept[..i])| + 1
    {
      assert kept[..i] == records[..i];
    }
    assert kept == records[..|kept|];
    OpsCut(records, |kept|);
  }

  lemma {:induction false} OpsCut(records: seq<LogRecord>, k: nat)
    requires k <= |records|
    ensures LogOps(records[..k]) <= LogOps(records)
    decreases |records|
  {
    if k < |records| {
      var n := |records| - 1;
      OpsCut(records[..n], k);
      assert records[..n][..k] == records[..k];
    } else {
      assert records[..k] == records;
    }
  }

  /** The bounds of what a stop leaves. */
  lemma KeptFacts(s: State, kept: map<nat, seq<LogRecord>>)
    requires LogInv(s) && Stopped(s, kept) && s.db.lastSequence + |InFlightOps(s)| < MAX_SEQUENCE
    ensures s.logNumber in kept && Numbered(kept[s.logNumber], s.memBase)
    ensures s.memBase + |KeptNew(s, kept)| <= s.db.lastSequence + |InFlightOps(s)|
    ensures KeptNew(s, kept) <= LogOps(s.logs[s.logNumber])
    ensures s.db.imm.Some? ==>
      && s.manifestLog < s.logNumber && s.manifestLog in kept && Numbered(kept[s.manifestLog], s.immBase)
      && KeptOld(s, kept) <= LogOps(s.logs[s.manifestLog]) && s.immBase + |KeptOld(s, kept)| <= s.memBase
    ensures s.db.imm.None? ==> s.manifestLog == s.logNumber
    ensures s.memBase <= s.db.lastSequence
  {
    hide LogOps, Numbered, Backs;
    LogFacts(s);
    LogCut(s.logs[s.logNumber], kept[s.logNumber], s.memBase);
    if s.db.imm.Some? {
      LogCut(s.logs[s.manifestLog], kept[s.manifestLog], s.immBase);
    }
  }

  /** A listing whose old part, up to `k`, is not recovered, followed by one log. */
  lemma OneLog(logs: map<nat, seq<LogRecord>>, listing: seq<nat>, minLog: nat, bases: map<nat, nat>, base: nat, k: nat)
    requires k < |listing| && forall i :: 0 <= i < k ==> listing[i] < minLog
    requires var n := listing[k];
      && n >= minLog && n in logs && n in bases && Numbered(logs[n], bases[n])
      && base <= bases[n] && bases[n] + |LogOps(logs[n])| < MAX_SEQUENCE
    ensures forall i: nat :: i <= k ==> Follows(logs, listing, minLog, bases, base, i)
    ensures ListedEntries(logs, listing[..k + 1], minLog, bases)
              == OpEntries(LogOps(logs[listing[k]]), bases[listing[k]])
    ensures Reach(logs, listing[..k + 1], minLog, bases, base)
         == if logs[listing[k]] != [] then bases[listing[k]] + |LogOps(logs[listing[k]])| else base
  {
    hide LogOps, Numbered, ListedEntries, Reach, OpEntries;
    OldLogs(logs, listing, minLog, bases, base, k);
    ListedPrefix(logs, listing, minLog, bases, base, k);
  }

  /** ... or by two. */
  lemma TwoLogs(logs: map<nat, seq<LogRecord>>, listing: seq<nat>, minLog: nat, bases: map<nat, nat>, base: nat, k: nat)
    requires k + 1 < |listing| && forall i :: 0 <= i < k ==> listing[i] < minLog
    requires var n, m := listing[k], listing[k + 1];
      && n >= minLog && n in logs && n in bases && Numbered(logs[n], bases[n])
      && m >= minLog && m in logs && m in bases && Numbered(logs[m], bases[m])
      && base <= bases[n] && bases[n] + |LogOps(logs[n])| <= bases[m] && bases[m] + |LogOps(logs[m])| < MAX_SEQUENCE
    ensures forall i: nat :: i <= k + 1 ==> Follows(logs, listing, minLog, bases, base, i)
    ensures ListedEntries(logs, listing[..k + 2], minLog, bases)
         == OpEntries(LogOps(logs[listing[k]]), bases[listing[k]])
           + OpEntries(LogOps(logs[listing[k + 1]]), bases[listing[k + 1]])
    ensures Reach(logs, listing[..k + 2], minLog, bases, base)
         == if logs[listing[k + 1]] != [] then bases[listing[k + 1]] + |LogOps(logs[listing[k + 1]])|
            else if logs[listing[k]] != [] then bases[listing[k]] + |LogOps(logs[listing[k]])| else base
  {
    hide LogOps, Numbered, ListedEntries, Reach, OpEntries;
    OneLog(logs, listing, minLog, bases, base, k);
    ListedPrefix(logs, listing, minLog, bases, base, k + 1);
  }

  /** What Recover is given after a stop, and what it makes of it. */
  lemma KeptLogsAre(s: State, kept: map<nat, seq<LogRecord>>, listing: seq<nat>)
    requires LogInv(s) && Stopped(s, kept) && Lists(listing, s.logs)
    requires s.db.lastSequence + |InFlightOps(s)| < MAX_SEQUENCE
    ensures Chained(kept, listing, s.manifestLog, LogBases(s), Base(s))
    ensures ListedEntries(kept, listing, s.manifestLog, LogBases(s))
         == OpEntries(KeptOld(s, kept), s.immBase) + OpEntries(KeptNew(s, kept), s.memBase)
    ensures Reach(kept, listing, s.manifestLog, LogBases(s), Base(s)) == KeptReach(s, kept)
  {
    hide LogOps, Numbered, LogInv, ListedEntries, Reach, OpEntries, InFlightOps, Follows, Stopped, Lists, LogBases;
    ListingEnds(s, listing);
    KeptFacts(s, kept);
    NothingInLog(s.immBase);
    ListedAreKept(s, kept, listing);
    BasesAre(s);
    var m := |listing|;
    assert listing[..m] == listing;
    if s.db.imm.Some? {
      TwoLogs(kept, listing, s.manifestLog, LogBases(s), Base(s), m - 2);
    } else {
      OneLog(kept, listing, s.manifestLog, LogBases(s), Base(s), m - 1);
    }
  }

  lemma ListedAreKept(s: State, kept: map<nat, seq<LogRecord>>, listing: seq<nat>)
    requires Stopped(s, kept) && Lists(listing, s.logs)
    ensures forall n :: n in listing ==> n in kept
  {
  }

  lemma BasesAre(s: State)
    ensures s.logNumber in LogBases(s) && LogBases(s)[s.logNumber] == s.memBase
    ensures s.db.imm.Some? && s.manifestLog != s.logNumber ==>
              s.manifestLog in LogBases(s) && LogBases(s)[s.manifestLog] == s.immBase
  {
  }

  lemma LogFacts(s: State)
    requires LogInv(s)
    ensures s.manifestLog <= s.logNumber && s.logNumber in s.logs && s.manifestLog in s.logs
    ensures Numbered(s.logs[s.logNumber], s.memBase)
    ensures s.db.imm.Some? ==> Numbered(s.logs[s.manifestLog], s.immBase)
    ensures s.db.imm.Some? ==> s.immBase + |LogOps(s.logs[s.manifestLog])| == s.memBase
    ensures LogOps(s.logs[s.logNumber]) == LogOps(CommittedLog(s)) + InFlightOps(s)
  {
    hide LogOps, Applied;
    var records := s.logs[s.logNumber];
    if InFlight(s) {
      var r := LogRecord(s.db.lastSequence + 1, s.phase.ops);
      assert records == CommittedLog(s) + [r];
      LogGrows(CommittedLog(s), r);
      LoggedBatchBacks(CommittedLog(s), s.memBase, Committed(s).mem, s.phase.ops);
    } else {
      assert LogOps(records) + [] == LogOps(records);
    }
  }

  /** A memtable holds exactly the entries of its log. */
  lemma BackedEntries(records: seq<LogRecord>, base: nat, mem: seq<Entry>)
    requires Backs(records, base, mem)
    ensures EntrySet(mem) == OpEntries(LogOps(records), base)
  {
    hide LogOps, Applied;
    var none: seq<Entry> := [];
    AppliedContents(none, LogOps(records), |LogOps(records)|, base + 1);
  }

  /** If the stop loses nothing, recovery finds what was committed, and a group in flight that was logged. */
  lemma LoggedEntries(s: State)
    requires LogInv(s)
    ensures RecoveredEntries(s, s.logs) == All(Committed(s)) + OpEntries(InFlightOps(s), s.db.lastSequence)
    ensures s.memBase + |KeptNew(s, s.logs)| == s.db.lastSequence + |InFlightOps(s)|
  {
    hide LogOps, OpEntries, Tables, EntrySet, Backs;
    LogFacts(s);
    NothingInLog(s.immBase);
    OpEntriesConcat(LogOps(CommittedLog(s)), InFlightOps(s), s.memBase);
    BackedEntries(CommittedLog(s), s.memBase, Committed(s).mem);
    if s.db.imm.Some? {
      BackedEntries(s.logs[s.manifestLog], s.immBase, s.db.imm.value);
    }
  }

  lemma ManifestIsConsistent(s: State)
    requires QInv(s)
    ensures Inv(Recovering([], s.db.levels, Base(s), s.manifestNext))
    ensures All(Recovering([], s.db.levels, Base(s), s.manifestNext)) == Tables(s.db.levels)
  {
    hide ValidLevels, LevelsInRecencyOrder, Tables, NumbersBelow, QueueInv, PhaseInv, UniqueKeys, LogOps, Backs;
    var r := Recovering([], s.db.levels, Base(s), s.manifestNext);
    assert EntrySet([]) == {};
    assert All(r) == Tables(s.db.levels);
    FewerUnique(All(Committed(s)), All(r));
  }

  lemma FewerUnique(s: set<Entry>, t: set<Entry>)
    requires UniqueKeys(s) && t <= s
    ensures UniqueKeys(t)
  {
  }

  /**
   Opening after a stop at any moment: whatever the stop leaves of the logs beyond what was synced, the
   database holds the tables and exactly the operations that are left.
   */
  method Reopen(s: State, kept: map<nat, seq<LogRecord>>, listing: seq<nat>) returns (r: Db)
    requires QInv(s) && Stopped(s, kept) && Lists(listing, s.logs)
    ensures Inv(r) && r.mem == [] && r.imm.None? && r.snapshots == []
    ensures All(r) == RecoveredEntries(s, kept)
    ensures r.lastSequence == if s.manifestLast < KeptReach(s, kept) then KeptReach(s, kept) else s.manifestLast
    ensures forall n :: n in s.logs && n >= s.manifestLog ==> n < r.nextFile
  {
    hide Inv, All, OpEntries, LogInv, Chained, ListedEntries, QueueInv, KeptOld, KeptNew, KeptReach, Stopped, Reach;
    ManifestIsConsistent(s);
    CommittedBounds(s);
    KeptLogsAre(s, kept, listing);
    r := Recover(s.db.levels, s.manifestLog, s.manifestLast, s.manifestNext, kept, listing, LogBases(s), Base(s));
  }

  lemma CommittedBounds(s: State)
    requires QInv(s)
    ensures s.db.lastSequence + |InFlightOps(s)| < MAX_SEQUENCE
  {
  }

  /** If the stop loses nothing, the group in flight is seen as if it had been written, if it was logged. */
  lemma InFlightIsSeen(s: State, user: UserKey)
    requires QInv(s)
    ensures View(RecoveredEntries(s, s.logs), user, s.db.lastSequence + |InFlightOps(s)|)
         == ValueAfter(InFlightOps(s), |InFlightOps(s)|, user, View(All(Committed(s)), user, s.db.lastSequence))
  {
    hide View, All, ValidLevels, RecoveredEntries, RecencyOrder, UniqueKeys, QueueInv, PhaseInv, LogInv, ManifestInv,
         BatchEntries;
    LoggedEntries(s);
    BatchIsSeen(All(Committed(s)), InFlightOps(s), s.db.lastSequence, user, |InFlightOps(s)|);
  }
}
