/**
 One pass of DeleteObsoleteFiles over the directory (db/db_impl.cc) is the collection of tables that the life
 of the versions asks for, and the deletion of logs that the write queue allows.
 */
module Collection {
  import opened Options
  import opened ObsoleteFiles
  import Queue = WriteQueue

  // ---- the directory -------------------------------------------------------------------------------------

  /** The numbers of the files of a type among the names. */
  ghost function NumbersOf(names: set<FileName>, t: FileType): set<nat> {
    set f | f in names && f.parsed.Some? && f.parsed.value.0 == t :: f.parsed.value.1
  }

  ghost function NameSet(names: seq<FileName>): set<FileName> {
    set f | f in names
  }

  /** The names that are left. */
  ghost function Left(filenames: seq<FileName>, deleted: seq<FileName>): set<FileName> {
    NameSet(filenames) - NameSet(deleted)
  }

  lemma TablesLeft(filenames: seq<FileName>, deleted: seq<FileName>, live: set<nat>, logNumber: nat,
                   prevLogNumber: nat, manifestNumber: nat)
    requires IsDeletion(filenames, deleted, live, logNumber, prevLogNumber, manifestNumber)
    ensures NumbersOf(Left(filenames, deleted), TableFile) == NumbersOf(NameSet(filenames), TableFile) * live
  {
    forall n | n in NumbersOf(NameSet(filenames), TableFile) && n in live
      ensures n in NumbersOf(Left(filenames, deleted), TableFile)
    {
      var f :| f in filenames && f.parsed == Some((TableFile, n));
      assert f in Left(filenames, deleted);
    }
  }

  /**
   What the pass leaves of the other files: the current manifest and newer ones, the temporary files being
   written, and all of CURRENT, the lock, the information logs and the names that are none of the database's.
   */
  lemma OthersLeft(filenames: seq<FileName>, deleted: seq<FileName>, live: set<nat>, logNumber: nat,
                   prevLogNumber: nat, manifestNumber: nat, f: FileName)
    requires IsDeletion(filenames, deleted, live, logNumber, prevLogNumber, manifestNumber) && f in filenames
    ensures f.parsed.None? ==> f in Left(filenames, deleted)
    ensures f.parsed.Some? && f.parsed.value.0 in {CurrentFile, DBLockFile, InfoLogFile} ==>
              f in Left(filenames, deleted)
    ensures f.parsed.Some? && f.parsed.value.0 == DescriptorFile ==>
              (f in Left(filenames, deleted) <==> f.parsed.value.1 >= manifestNumber)
    ensures f.parsed.Some? && f.parsed.value.0 == TempFile ==>
              (f in Left(filenames, deleted) <==> f.parsed.value.1 in live)
  {
    assert f in Left(filenames, deleted) <==> f !in deleted;
  }

  // ---- tables --------------------------------------------------------------------------------------------

  /** The state whose live files the pass at the event sees: a finished compaction lets go of its files first. */
  ghost function Released(s: State, e: Event): State {
    if e.EndCompaction? && s.job.Compacting? && s.job.input in s.versions && s.versions[s.job.input].refs >= 1 then
      s.(pending := s.pending - s.job.outputs, versions := Unref(s.versions, s.job.input), job := NoJob)
    else s.(flush := NoFlush)
  }

  ghost predicate CollectsNow(s: State, e: Event) {
    || (e.CollectAfterFlush? && s.flush.Collecting?)
    || (e.EndCompaction? && s.flush.NoFlush? && s.job.Compacting? && s.job.installed
        && s.job.input in s.versions && s.versions[s.job.input].refs >= 1)
  }

  /**
   If the names in the directory are those of the tables on disk, what the pass leaves of them is what the
   event leaves of the tables.
   */
  lemma PassIsCollection(s: State, e: Event, filenames: seq<FileName>, deleted: seq<FileName>, logNumber: nat,
                         prevLogNumber: nat, manifestNumber: nat)
    requires CollectsNow(s, e) && NumbersOf(NameSet(filenames), TableFile) == s.tables
    requires IsDeletion(filenames, deleted, Live(Released(s, e)), logNumber, prevLogNumber, manifestNumber)
    ensures Step(s, e, Released(s, e).(tables := NumbersOf(Left(filenames, deleted), TableFile)))
  {
    hide Live, Unref;
    TablesLeft(filenames, deleted, Live(Released(s, e)), logNumber, prevLogNumber, manifestNumber);
    if e.CollectAfterFlush? {
      SameLive(s, Released(s, e));
    }
  }

  lemma SameLive(s: State, t: State)
    requires s.pending == t.pending && s.versions == t.versions
    ensures Live(s) == Live(t)
  {
  }

  /**
   After the pass, over any run: the tables in the directory are all those that a version somebody holds
   names, and no others but pending outputs.
   */
  lemma NothingElseIsLeft(states: seq<State>, events: seq<Event>, n: nat, filenames: seq<FileName>,
                          deleted: seq<FileName>, logNumber: nat, prevLogNumber: nat, manifestNumber: nat)
    requires Run(states, events) && n <= |events| && states[n].flush.Collecting?
    requires NumbersOf(NameSet(filenames), TableFile) == states[n].tables
    requires IsDeletion(filenames, deleted, Live(states[n]), logNumber, prevLogNumber, manifestNumber)
    ensures var s, left := states[n], NumbersOf(Left(filenames, deleted), TableFile);
      && (forall v :: v in s.versions ==> s.versions[v].files <= left)
      && (forall f :: f in left ==> f in s.pending || exists v :: v in s.versions && f in s.versions[v].files)
      && (s.job.Compacting? && !s.job.installed ==> s.job.outputs <= left)
  {
    hide Step;
    RunKeepsInv(states, events, n);
    TablesLeft(filenames, deleted, Live(states[n]), logNumber, prevLogNumber, manifestNumber);
    var s := states[n];
    forall v | v in s.versions
      ensures s.versions[v].files <= s.tables * Live(s)
    {
      assert TablesOf(s, v);
    }
  }

  // ---- logs ----------------------------------------------------------------------------------------------

  /** The log numbers among the names, in their order. */
  function LogNumbers(names: seq<FileName>): seq<nat> {
    if names == [] then [] else
      var f := names[|names| - 1];
      LogNumbers(names[..|names| - 1])
      + if f.parsed.Some? && f.parsed.value.0.LogFile? then [f.parsed.value.1] else []
  }

  lemma {:induction false} LogNumbersAre(names: seq<FileName>, n: nat)
    ensures n in LogNumbers(names) <==> n in NumbersOf(NameSet(names), LogFile)
  {
    if names != [] {
      var rest, f := names[..|names| - 1], names[|names| - 1];
      LogNumbersAre(rest, n);
      assert NameSet(names) == NameSet(rest) + {f} by {
        assert names == rest + [f];
      }
    }
  }

  /** The write queue after the first `k` of the logs have been deleted. */
  ghost function Without(q: Queue.State, numbers: seq<nat>, k: nat): Queue.State
    requires k <= |numbers|
  {
    q.(logs := map n | n in q.logs && n !in numbers[..k] :: q.logs[n])
  }

  /**
   The deletions of the pass are DeleteLog events of the write queue, one after the other, and leave the
   logs that the pass leaves; those with numbers from the manifest's log number on are among them.
   */
  lemma PassDeletesLogs(q: Queue.State, filenames: seq<FileName>, deleted: seq<FileName>, live: set<nat>,
                        prevLogNumber: nat, manifestNumber: nat)
    requires NumbersOf(NameSet(filenames), LogFile) == q.logs.Keys
    requires IsDeletion(filenames, deleted, live, q.manifestLog, prevLogNumber, manifestNumber)
    ensures var numbers := LogNumbers(deleted);
      && Without(q, numbers, 0) == q
      && (forall k: nat :: k < |numbers| ==>
            Queue.Step(Without(q, numbers, k), Queue.DeleteLog(numbers[k]), Without(q, numbers, k + 1)))
      && var q' := Without(q, numbers, |numbers|);
         && q'.logs.Keys == NumbersOf(Left(filenames, deleted), LogFile)
         && forall n :: n in q.logs && n >= q.manifestLog ==> n in q'.logs && q'.logs[n] == q.logs[n]
  {
    hide IsDeletion, NumbersOf, Left, LogNumbers, Without;
    var numbers := LogNumbers(deleted);
    forall n: nat
      ensures n in numbers ==> n < q.manifestLog
      ensures n in NumbersOf(Left(filenames, deleted), LogFile) <==> n in q.logs && n !in numbers
    {
      LogNumbersAre(deleted, n);
      LogIsDeleted(filenames, deleted, live, q.manifestLog, prevLogNumber, manifestNumber, n);
    }
    forall k: nat | k < |numbers|
      ensures Queue.Step(Without(q, numbers, k), Queue.DeleteLog(numbers[k]), Without(q, numbers, k + 1))
    {
      assert numbers[k] in numbers;
      OneDeletion(q, numbers, k);
    }
    WithoutAll(q, numbers);
  }

  lemma OneDeletion(q: Queue.State, numbers: seq<nat>, k: nat)
    requires k < |numbers| && numbers[k] < q.manifestLog
    ensures Queue.Step(Without(q, numbers, k), Queue.DeleteLog(numbers[k]), Without(q, numbers, k + 1))
  {
    assert numbers[..k + 1] == numbers[..k] + [numbers[k]];
  }

  lemma WithoutAll(q: Queue.State, numbers: seq<nat>)
    ensures Without(q, numbers, 0) == q
    ensures Without(q, numbers, |numbers|).logs == map n | n in q.logs && n !in numbers :: q.logs[n]
  {
    assert numbers[..|numbers|] == numbers;
  }

  lemma LogIsDeleted(filenames: seq<FileName>, deleted: seq<FileName>, live: set<nat>, logNumber: nat,
                     prevLogNumber: nat, manifestNumber: nat, n: nat)
    requires IsDeletion(filenames, deleted, live, logNumber, prevLogNumber, manifestNumber)
    ensures n in NumbersOf(NameSet(deleted), LogFile)
       <==> n in NumbersOf(NameSet(filenames), LogFile) && n < logNumber && n != prevLogNumber
    ensures n in NumbersOf(Left(filenames, deleted), LogFile)
       <==> n in NumbersOf(NameSet(filenames), LogFile) && (n >= logNumber || n == prevLogNumber)
  {
    if n in NumbersOf(NameSet(filenames), LogFile) {
      var f :| f in filenames && f.parsed == Some((LogFile, n));
      assert f in deleted || f in Left(filenames, deleted);
    }
  }
}
