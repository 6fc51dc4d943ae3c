/**
 The write queue with its logs and database, and the versions with their table files, as one system with one
 counter of file numbers (db/db_impl.cc, VersionSet::NewFileNumber).
 */
module Storage {
  import opened Options
  import opened Keys
  import opened Files
  import opened Lsm
  import opened Steps
  import opened Runs
  import opened CompactionInputs
  import opened MidFlush
  import opened Collection
  import Group = GroupCommit
  import Life = ObsoleteFiles

  // ---- the system ----------------------------------------------------------------------------------------

  datatype System = System(queue: Queue.State, files: Life.State)

  ghost function FileNumbers(fs: seq<File>): set<nat> {
    set f | f in fs :: f.number
  }

  /** The numbers of the tables of the database. */
  ghost function Numbers(levels: Levels): set<nat> {
    set l, f | 0 <= l < |levels| && f in levels[l] :: f.number
  }

  datatype Event =
    | OfQueue(event: Queue.Event)                  // the queue moves
    | NewLog                                       // a memtable and a log are started
    | OfFiles(step: Life.Event)                    // versions are held and let go, tables are written and removed
    | Install(step: Life.Event, action: Action)    // LogAndApply: a new version with new levels

  /** What is installed is the table that was built, or the outputs in place of the inputs. */
  ghost predicate Installs(s: System, e: Life.Event, a: Action) {
    match e
    case InstallFlush => a.FlushMemTable? && s.files.flush.Built?
         && (s.files.flush.file.Some? ==> a.file.number == s.files.flush.file.value)
    case MoveFile => a.MoveFile?
    case InstallCompaction =>
      a.Compact? && s.files.job.Compacting? && FileNumbers(a.inputs0 + a.inputs1) == s.files.job.inputs
      && FileNumbers(a.outputs) == s.files.job.outputs
    case _ => false
  }

  ghost predicate Step(s: System, e: Event, s': System) {
    match e
    case OfQueue(event) =>
      && !event.Switch? && (event.Background? ==> event.action.TakeSnapshot? || event.action.ReleaseSnapshot?)
      && Queue.Step(s.queue, event, s'.queue) && s'.files == s.files
    case NewLog =>
      && Queue.Step(s.queue, Queue.Switch, s'.queue)
      && s'.queue.logNumber == s.files.nextFile && s'.queue.db.nextFile == s.files.nextFile + 1
      && s'.files == s.files.(nextFile := s.files.nextFile + 1)
    case OfFiles(step) =>
      && !step.InstallFlush? && !step.MoveFile? && !step.InstallCompaction?
      && Life.Step(s.files, step, s'.files) && s'.queue == s.queue
      && (step.StartFlush? ==> s.queue.db.imm.Some?)
      && (step.FinishTable? ==> (step.empty <==> s.queue.db.imm == Some([])))
    case Install(step, action) =>
      && Installs(s, step, action)
      && Life.Step(s.files, step, s'.files) && Queue.Step(s.queue, Queue.Background(action), s'.queue)
      && s'.queue.db.nextFile == s.files.nextFile
  }

  // ---- the invariant -------------------------------------------------------------------------------------

  /** The table being built is for the immutable memtable, and its number is its own. */
  ghost predicate FlushLinked(s: System) {
    && (s.files.flush.Building? ==>
          s.queue.db.imm.Some? && s.queue.db.nextFile <= s.files.flush.number && s.files.flush.number !in s.queue.logs)
    && (s.files.flush.Built? ==>
          && s.queue.db.imm.Some? && (s.files.flush.file.None? <==> s.queue.db.imm == Some([]))
          && s.queue.db.nextFile < s.files.nextFile
          && (s.files.flush.file.Some? ==>
                s.queue.db.nextFile <= s.files.flush.file.value && s.files.flush.file.value !in s.queue.logs))
  }

  /** One counter; the current version is the levels of the database; no number names both a log and a live table. */
  ghost predicate Linked(s: System) {
    && s.queue.db.nextFile <= s.files.nextFile
    && s.files.current in s.files.versions && s.files.versions[s.files.current].files == Numbers(s.queue.db.levels)
    && FlushLinked(s)
    && s.queue.logs.Keys !! Life.Live(s.files)
  }

  ghost predicate SystemInv(s: System) {
    Group.QInv(s.queue) && Life.Inv(s.files) && Linked(s)
  }

  // ---- the numbers of the levels -------------------------------------------------------------------------

  lemma NumbersOfAdded(levels: Levels, l: nat, f: File, levels': Levels)
    requires FileAdded(levels, l, f, levels')
    ensures Numbers(levels') == Numbers(levels) + {f.number}
  {
    hide InFileOrder;
    forall n
      ensures n in Numbers(levels') <==> n in Numbers(levels) + {f.number}
    {
      if n in Numbers(levels) {
        var k, g :| 0 <= k < |levels| && g in levels[k] && g.number == n;
        assert g in levels'[k];
      }
      assert f in levels'[l];
    }
  }

  /** A file of the new levels is an output, or was there and is no input. */
  lemma NumberAfter(levels: Levels, level: nat, in0: seq<File>, in1: seq<File>, outputs: seq<File>, levels': Levels,
                    n: nat)
    requires Replaced(levels, level, in0, in1, outputs, levels') && NumbersUnique(levels) && n in Numbers(levels')
    requires (forall f :: f in in0 ==> f in levels[level]) && forall f :: f in in1 ==> f in levels[level + 1]
    ensures n in FileNumbers(outputs) || (n in Numbers(levels) && n !in FileNumbers(in0 + in1))
  {
    hide InFileOrder, NumbersUnique, IsKept;
    var l, f :| 0 <= l < |levels'| && f in levels'[l] && f.number == n;
    if !(l == level + 1 && f in outputs) {
      KeptIsNoInput(levels, level, in0, in1, l, f);
    }
  }

  lemma NumberBefore(levels: Levels, level: nat, in0: seq<File>, in1: seq<File>, outputs: seq<File>, levels': Levels,
                     n: nat)
    requires Replaced(levels, level, in0, in1, outputs, levels')
    requires n in FileNumbers(outputs) || (n in Numbers(levels) && n !in FileNumbers(in0 + in1))
    ensures n in Numbers(levels')
  {
    hide InFileOrder, IsKept;
    if n in FileNumbers(outputs) {
      var f :| f in outputs && f.number == n;
      assert f in levels'[level + 1];
    } else {
      var l, f :| 0 <= l < |levels| && f in levels[l] && f.number == n;
      NoInputIsKept(level, in0, in1, l, f);
      assert f in levels'[l];
    }
  }

  lemma NumbersOfReplaced(levels: Levels, level: nat, in0: seq<File>, in1: seq<File>, outputs: seq<File>,
                          levels': Levels)
    requires Replaced(levels, level, in0, in1, outputs, levels') && NumbersUnique(levels)
    requires (forall f :: f in in0 ==> f in levels[level]) && forall f :: f in in1 ==> f in levels[level + 1]
    ensures Numbers(levels') == Numbers(levels) - FileNumbers(in0 + in1) + FileNumbers(outputs)
  {
    hide Replaced, NumbersUnique, Numbers, FileNumbers;
    forall n: nat
      ensures n in Numbers(levels') <==> n in Numbers(levels) - FileNumbers(in0 + in1) + FileNumbers(outputs)
    {
      if n in Numbers(levels') {
        NumberAfter(levels, level, in0, in1, outputs, levels', n);
      } else if n in FileNumbers(outputs) || (n in Numbers(levels) && n !in FileNumbers(in0 + in1)) {
        NumberBefore(levels, level, in0, in1, outputs, levels', n);
      }
    }
  }

  lemma NoInputIsKept(level: nat, in0: seq<File>, in1: seq<File>, l: nat, f: File)
    requires f.number !in FileNumbers(in0 + in1)
    ensures IsKept(level, in0, in1, l, f)
  {
    assert f in in0 || f in in1 ==> f in in0 + in1;
  }

  lemma KeptIsNoInput(levels: Levels, level: nat, in0: seq<File>, in1: seq<File>, l: nat, f: File)
    requires NumbersUnique(levels) && level + 1 < |levels| && l < |levels| && f in levels[l]
               && IsKept(level, in0, in1, l, f)
    requires (forall g :: g in in0 ==> g in levels[level]) && forall g :: g in in1 ==> g in levels[level + 1]
    ensures f.number !in FileNumbers(in0 + in1)
  {
    assert forall g :: g in in0 + in1 ==> g in in0 || g in in1;
  }

  // ---- every event keeps it ------------------------------------------------------------------------------

  lemma SnapshotEventIs(q: Queue.State, a: Action, q': Queue.State)
    requires Queue.Step(q, Queue.Background(a), q') && (a.TakeSnapshot? || a.ReleaseSnapshot?)
    ensures q'.db.levels == q.db.levels && q'.db.imm == q.db.imm && q'.db.nextFile == q.db.nextFile && q'.logs == q.logs
  {
    hide Flushed, Moved, Compacted, Switched, Queue.IsGroup;
    assert q'.db.levels == Queue.Committed(q').levels == Queue.Committed(q).levels == q.db.levels;
  }

  /** The events of the queue alone leave tables, the immutable memtable and numbers as they are. */
  lemma QueueEventIs(q: Queue.State, e: Queue.Event, q': Queue.State)
    requires Queue.Step(q, e, q') && !e.Switch?
               && (e.Background? ==> e.action.TakeSnapshot? || e.action.ReleaseSnapshot?)
    ensures q'.db.levels == q.db.levels && q'.db.imm == q.db.imm && q'.db.nextFile == q.db.nextFile
    ensures q'.logs.Keys <= q.logs.Keys
  {
    hide Inv, Inserted, Queue.GroupOps, Queue.IsGroup, Next, Queue.Acks, EntryOf;
    if e.Background? {
      SnapshotEventIs(q, e.action, q');
    }
  }

  lemma QueueKeepsLinked(s: System, e: Queue.Event, s': System)
    requires SystemInv(s) && Step(s, OfQueue(e), s')
    ensures Linked(s')
  {
    hide Queue.Step, Group.QInv, Life.Inv, Life.Live, Numbers;
    QueueEventIs(s.queue, e, s'.queue);
  }

  lemma SwitchIs(q: Queue.State, q': Queue.State)
    requires Queue.Step(q, Queue.Switch, q')
    ensures q.db.imm.None? && q'.db.levels == q.db.levels && q'.db.imm.Some?
              && q'.logs.Keys == q.logs.Keys + {q'.logNumber}
  {
    hide Inserted, Queue.GroupOps, Queue.IsGroup;
  }

  lemma NewLogKeepsLinked(s: System, s': System)
    requires SystemInv(s) && Step(s, NewLog, s')
    ensures Linked(s')
  {
    hide Queue.Step, Group.QInv, Life.Inv, Life.Live, Numbers;
    SwitchIs(s.queue, s'.queue);
    NextIsNew(s.files);
    SameLive(s.files, s'.files);
  }

  lemma NextIsNew(s: Life.State)
    requires Life.Inv(s)
    ensures s.nextFile !in Life.Live(s) && s.nextFile !in s.pending
  {
    forall v: nat | v in s.versions
      ensures s.nextFile !in s.versions[v].files
    {
      assert Life.TablesOf(s, v);
    }
  }

  lemma NewLogKeepsLife(s: Life.State)
    requires Life.Inv(s)
    ensures Life.Inv(s.(nextFile := s.nextFile + 1))
  {
    hide Life.Holders;
    var t := s.(nextFile := s.nextFile + 1);
    forall v: nat
      ensures Life.Counted(t, v) && Life.TablesOf(t, v)
    {
      assert Life.Counted(s, v) && Life.TablesOf(s, v);
      SameHolders(s, t, v);
    }
  }

  lemma SameHolders(s: Life.State, t: Life.State, v: nat)
    requires s.current == t.current && s.readers == t.readers && s.job == t.job
    ensures Life.Holders(s, v) == Life.Holders(t, v)
  {
  }

  /** Holding versions and writing tables: at most the next number becomes live. */
  lemma FilesEventIs(s: Life.State, e: Life.Event, s': Life.State)
    requires Life.Inv(s) && Life.Step(s, e, s') && !e.InstallFlush? && !e.MoveFile? && !e.InstallCompaction?
    ensures s'.current == s.current && s.current in s.versions && s.current in s'.versions
    ensures s'.versions[s.current].files == s.versions[s.current].files
    ensures Life.Live(s') <= Life.Live(s) + {s.nextFile} && s.nextFile <= s'.nextFile
  {
    assert Life.Counted(s, s.current);
    if e.ReaderUnrefs? {
      Life.UnrefCounts(s.versions, e.version, s.current);
    } else if e.EndCompaction? {
      Life.UnrefCounts(s.versions, s.job.input, s.current);
    }
    forall f | f in Life.Live(s')
      ensures f in Life.Live(s) + {s.nextFile}
    {
      if f !in s'.pending {
        var v :| v in s'.versions && f in s'.versions[v].files;
        assert v in s.versions && s.versions[v].files == s'.versions[v].files;
      }
    }
  }

  lemma LogsAreBelow(q: Queue.State, n: nat)
    requires Group.QInv(q) && q.db.nextFile <= n
    ensures n !in q.logs
  {
  }

  lemma CurrentIsHeld(s: Life.State)
    requires Life.Inv(s)
    ensures s.current in s.versions && s.versions[s.current].refs >= 1
    ensures s.flush.Building? ==> s.flush.number < s.nextFile
    ensures s.flush.Built? && s.flush.file.Some? ==> s.flush.file.value < s.nextFile
  {
    assert Life.Counted(s, s.current);
  }

  lemma FilesKeepLinked(s: System, e: Life.Event, s': System)
    requires SystemInv(s) && Step(s, OfFiles(e), s')
    ensures Linked(s')
  {
    hide Group.QInv, Life.Inv, Life.Live, Numbers, Life.Unref;
    FilesEventIs(s.files, e, s'.files);
    CurrentIsHeld(s.files);
    LogsAreBelow(s.queue, s.files.nextFile);
  }

  lemma ActionTaken(q: Queue.State, a: Action, q': Queue.State)
    requires Queue.Step(q, Queue.Background(a), q') && (a.FlushMemTable? || a.MoveFile? || a.Compact?)
    ensures Next(Queue.Committed(q), a, Queue.Committed(q')) && q'.logs == q.logs
    ensures Queue.Committed(q').levels == q'.db.levels
  {
    hide Next, Queue.IsGroup;
  }

  lemma FlushedNumbers(db: Db, l: nat, f: File, db': Db)
    requires Flushed(db, l, f, db')
    ensures Numbers(db'.levels) == Numbers(db.levels) + if db.imm == Some([]) then {} else {f.number}
  {
    hide Numbers, FileAdded, ValidFile, ClearDownTo;
    if db.imm != Some([]) {
      NumbersOfAdded(db.levels, l, f, db'.levels);
    }
  }

  lemma MovedNumbers(db: Db, level: nat, f: File, db': Db)
    requires Moved(db, level, f, db') && NumbersUnique(db.levels)
    ensures Numbers(db'.levels) == Numbers(db.levels)
  {
    hide Numbers, FileNumbers, Replaced, Chosen, NumbersUnique;
    ChosenAreStored(db.levels[level], db.levels[level + 1], [f], []);
    assert f in [f];
    NumbersOfReplaced(db.levels, level, [f], [], [f], db'.levels);
    assert [f] + [] == [f];
    MovedNumber(db.levels, level, f);
  }

  lemma CompactedNumbers(db: Db, a: Action, db': Db)
    requires a.Compact? && NumbersUnique(db.levels)
    requires Compacted(db, a.level, a.inputs0, a.inputs1, a.input, a.smallestSnapshot, a.outputs, db')
    ensures Numbers(db'.levels) == Numbers(db.levels) - FileNumbers(a.inputs0 + a.inputs1) + FileNumbers(a.outputs)
  {
    hide Numbers, FileNumbers, Replaced, Chosen, NumbersUnique, Contents, Sorted, EntrySet;
    ChosenAreStored(db.levels[a.level], db.levels[a.level + 1], a.inputs0, a.inputs1);
    NumbersOfReplaced(db.levels, a.level, a.inputs0, a.inputs1, a.outputs, db'.levels);
  }

  /** What an installation makes of the levels and of the version. */
  lemma InstalledNumbers(s: System, e: Life.Event, a: Action, s': System)
    requires SystemInv(s) && Step(s, Install(e, a), s')
    ensures s'.files.current in s'.files.versions
              && s'.files.versions[s'.files.current].files == Numbers(s'.queue.db.levels)
    ensures s'.queue.logs == s.queue.logs
  {
    hide Numbers, FileNumbers, Flushed, Moved, Compacted, Switched, Group.QInv, Queue.Step, Life.Inv, Life.Step,
         Life.Live, NumbersUnique;
    NewVersion(s.files, e, s'.files);
    LevelsOf(s.queue);
    ActionTaken(s.queue, a, s'.queue);
    var db, db' := Queue.Committed(s.queue), Queue.Committed(s'.queue);
    match e
    case InstallFlush => FlushedNumbers(db, a.level, a.file, db');
    case MoveFile => MovedNumbers(db, a.level, a.file, db');
    case InstallCompaction => CompactedNumbers(db, a, db');
    case _ =>
  }

  lemma LevelsOf(q: Queue.State)
    requires Group.QInv(q)
    ensures NumbersUnique(q.db.levels) && Queue.Committed(q).levels == q.db.levels && Queue.Committed(q).imm == q.db.imm
  {
  }

  lemma MovedNumber(levels: Levels, level: nat, f: File)
    requires level < |levels| && f in levels[level]
    ensures Numbers(levels) - FileNumbers([f]) + FileNumbers([f]) == Numbers(levels)
  {
    assert f.number in Numbers(levels);
  }

  /** The new current version. */
  lemma NewVersion(s: Life.State, e: Life.Event, s': Life.State)
    requires Life.Inv(s) && Life.Step(s, e, s') && (e.InstallFlush? || e.MoveFile? || e.InstallCompaction?)
    ensures s.current in s.versions && s'.current in s'.versions
    ensures s'.versions[s'.current].files
         == match e
            case InstallFlush => s.versions[s.current].files + (if s.flush.file.Some? then {s.flush.file.value} else {})
            case InstallCompaction => s.versions[s.current].files - s.job.inputs + s.job.outputs
            case MoveFile => s.versions[s.current].files
            case _ => {}
    ensures s'.nextFile == s.nextFile && s'.pending == s.pending
    ensures forall v :: v in s'.versions && v != s'.current ==>
              v in s.versions && s'.versions[v].files == s.versions[v].files
    ensures s'.flush == if e.InstallFlush? then Life.Collecting else s.flush
  {
    hide Life.Unref;
    assert Life.Counted(s, s.current) && Life.Counted(s, s.nextVersion);
    var files := match e
                 case InstallFlush => s.versions[s.current].files + (if s.flush.file.Some? then {s.flush.file.value}
                      else {})
                 case InstallCompaction => s.versions[s.current].files - s.job.inputs + s.job.outputs
                 case MoveFile => s.versions[s.current].files
                 case _ => {};
    var versions := s.versions[s.nextVersion := Life.Version(files, 1)];
    forall v: nat
      ensures v != s.current ==> (v in s'.versions <==> v in versions)
      ensures v != s.current && v in versions ==> s'.versions[v] == versions[v]
      ensures v == s.current && v in s'.versions ==> s'.versions[v].files == s.versions[v].files
    {
      Life.UnrefCounts(versions, s.current, v);
    }
  }

  /** What is live after an installation was live, or is the table that was built. */
  lemma NewLive(s: Life.State, e: Life.Event, s': Life.State)
    requires Life.Inv(s) && Life.Step(s, e, s') && (e.InstallFlush? || e.MoveFile? || e.InstallCompaction?)
    ensures e.InstallFlush? ==> s.flush.Built?
    ensures Life.Live(s') <= Life.Live(s) + if e.InstallFlush? && s.flush.file.Some? then {s.flush.file.value} else {}
  {
    hide Life.Unref, Life.Step, Life.Counted, Life.TablesOf;
    NewVersion(s, e, s');
    OutputsPending(s, e, s');
    forall f | f in Life.Live(s') && f !in s.pending
      ensures f in Life.Live(s) || (e.InstallFlush? && s.flush.file == Some(f))
    {
      var v :| v in s'.versions && f in s'.versions[v].files;
      if v == s'.current {
        assert f in s.versions[s.current].files || (e.InstallFlush? && s.flush.file == Some(f));
      }
    }
  }

  lemma OutputsPending(s: Life.State, e: Life.Event, s': Life.State)
    requires Life.Inv(s) && Life.Step(s, e, s')
    ensures e.InstallFlush? ==> s.flush.Built?
    ensures e.InstallCompaction? ==> s.job.Compacting? && s.job.outputs <= s.pending
  {
  }

  lemma InstallKeepsLinked(s: System, e: Life.Event, a: Action, s': System)
    requires SystemInv(s) && Step(s, Install(e, a), s')
    ensures Linked(s')
  {
    hide Group.QInv, Numbers, Queue.Step, Life.Live;
    InstalledNumbers(s, e, a, s');
    NewVersion(s.files, e, s'.files);
    NewLive(s.files, e, s'.files);
  }

  lemma StepKeepsInv(s: System, e: Event, s': System)
    requires SystemInv(s) && Step(s, e, s')
    ensures SystemInv(s')
  {
    hide Group.QInv, Life.Inv, Linked, Queue.Step, Life.Step;
    match e
    case OfQueue(event) =>
      Group.StepKeepsInv(s.queue, event, s'.queue);
      QueueKeepsLinked(s, event, s');
    case NewLog =>
      Group.StepKeepsInv(s.queue, Queue.Switch, s'.queue);
      NewLogKeepsLife(s.files);
      NewLogKeepsLinked(s, s');
    case OfFiles(step) =>
      Life.StepKeepsInv(s.files, step, s'.files);
      FilesKeepLinked(s, step, s');
    case Install(step, action) =>
      Group.StepKeepsInv(s.queue, Queue.Background(action), s'.queue);
      Life.StepKeepsInv(s.files, step, s'.files);
      InstallKeepsLinked(s, step, action, s');
  }

  // ---- runs ----------------------------------------------------------------------------------------------

  /** A database just opened: its one version is the levels that were recovered. */
  ghost predicate Opened(s: System) {
    && Group.Opened(s.queue) && Life.Opened(s.files)
    && s.queue.db.nextFile <= s.files.nextFile
    && s.files.versions[s.files.current].files == Numbers(s.queue.db.levels)
    && s.queue.logs.Keys !! Life.Live(s.files)
  }

  ghost predicate Run(states: seq<System>, events: seq<Event>) {
    && |states| == |events| + 1
    && Opened(states[0])
    && forall i: nat :: i < |events| ==> Step(states[i], events[i], states[i + 1])
  }

  lemma OpenedInv(s: System)
    requires Opened(s)
    ensures SystemInv(s)
  {
    hide Group.Opened, Group.QInv, Life.Live, Numbers;
    Group.OpenedInv(s.queue);
    assert forall v: nat :: Life.Counted(s.files, v) && Life.TablesOf(s.files, v);
  }

  lemma {:induction false} RunKeepsInv(states: seq<System>, events: seq<Event>, n: nat)
    requires Run(states, events) && n <= |events|
    ensures SystemInv(states[n])
  {
    hide Step, SystemInv, Opened;
    if n == 0 {
      OpenedInv(states[0]);
    } else {
      RunKeepsInv(states, events, n - 1);
      StepKeepsInv(states[n - 1], events[n - 1], states[n]);
    }
  }

  /** The queue of a system goes through a run of the queue. */
  lemma {:induction false} QueueRuns(states: seq<System>, events: seq<Event>, n: nat)
    returns (queues: seq<Queue.State>, own: seq<Queue.Event>)
    requires Run(states, events) && n <= |events|
    ensures Group.Run(queues, own) && queues[0] == states[0].queue && queues[|own|] == states[n].queue
  {
    hide Step, Group.Opened, Life.Opened;
    if n == 0 {
      queues, own := [states[0].queue], [];
    } else {
      queues, own := QueueRuns(states, events, n - 1);
      var q, q' := states[n - 1].queue, states[n].queue;
      assert Step(states[n - 1], events[n - 1], states[n]);
      if !events[n - 1].OfFiles? {
        var e := QueueEvent(events[n - 1]);
        QueueSteps(states[n - 1], events[n - 1], states[n]);
        var queues', own' := queues + [q'], own + [e];
        forall i: nat | i < |own'|
          ensures Queue.Step(queues'[i], own'[i], queues'[i + 1])
        {
          assert i < |own| ==> Queue.Step(queues[i], own[i], queues[i + 1]);
        }
        queues, own := queues', own';
      } else {
        FilesOnly(states[n - 1], events[n - 1], states[n]);
      }
    }
  }

  function QueueEvent(e: Event): Queue.Event {
    match e
    case OfQueue(event) => event
    case Install(step, action) => Queue.Background(action)
    case _ => Queue.Switch
  }

  lemma QueueSteps(s: System, e: Event, s': System)
    requires Step(s, e, s') && !e.OfFiles?
    ensures Queue.Step(s.queue, QueueEvent(e), s'.queue)
  {
    hide Queue.Step, Life.Step;
  }

  lemma FilesOnly(s: System, e: Event, s': System)
    requires Step(s, e, s') && e.OfFiles?
    ensures s'.queue == s.queue
  {
    hide Queue.Step, Life.Step;
  }

  /** A table that was built can be installed, whatever the writers and readers have done meanwhile. */
  lemma BuiltTableInstalls(s: System) returns (a: Action, s': System)
    requires SystemInv(s) && s.files.flush.Built?
    ensures Step(s, Install(Life.InstallFlush, a), s')
  {
    hide Next, Inv, Life.Inv, Life.Live, Numbers, Group.QueueInv, Group.PhaseInv, Group.LogInv, Group.ManifestInv;
    CurrentIsHeld(s.files);
    var n := if s.files.flush.file.Some? then s.files.flush.file.value else s.queue.db.nextFile;
    var db';
    a, db' := Group.FlushCanRun(Queue.Committed(s.queue), n, s.files.nextFile);
    var q := s.queue;
    var q' := q.(db := db'.(mem := q.db.mem), manifestLog := q.logNumber, manifestLast := q.db.lastSequence,
        manifestNext := db'.nextFile);
    assert Queue.Committed(q') == db';
    var files := s.files.versions[s.files.current].files + if s.files.flush.file.Some? then {s.files.flush.file.value}
        else {};
    var versions := s.files.versions[s.files.nextVersion := Life.Version(files, 1)];
    s' := System(q', s.files.(versions := Life.Unref(versions, s.files.current), current := s.files.nextVersion,
                              nextVersion := s.files.nextVersion + 1, flush := Life.Collecting));
  }

  // ---- what is needed ------------------------------------------------------------------------------------

  /**
   What a read or a recovery may need: the tables of the database, those of the versions that readers hold and
   of a compaction under way, and the logs of the two memtables.
   */
  ghost predicate HasNeeded(s: System, tables: set<nat>, logs: set<nat>) {
    && Numbers(s.queue.db.levels) <= tables
    && (forall v :: v in s.files.readers ==> v in s.files.versions && s.files.versions[v].files <= tables)
    && (s.files.job.Compacting? ==>
       s.files.job.inputs <= tables && (!s.files.job.installed ==> s.files.job.outputs <= tables))
    && s.queue.manifestLog in logs && s.queue.logNumber in logs
    && (s.queue.db.imm.Some? ==> s.queue.manifestLog in s.queue.logs && s.queue.manifestLog < s.queue.logNumber
                                 && Group.Backs(s.queue.logs[s.queue.manifestLog], s.queue.immBase,
                                    s.queue.db.imm.value))
  }

  /**
   In every state of every run everything that is needed is there, and no number is that of both a log and a
   live table.
   */
  lemma NothingNeededIsLost(states: seq<System>, events: seq<Event>, n: nat)
    requires Run(states, events) && n <= |events|
    ensures HasNeeded(states[n], states[n].files.tables, states[n].queue.logs.Keys)
    ensures states[n].queue.logs.Keys !! Life.Live(states[n].files)
    ensures states[n].files.nextFile !in Life.Live(states[n].files) && states[n].files.nextFile !in states[n].queue.logs
  {
    hide Opened, Step, HasNeeded, Life.Live, Group.QInv, Life.Inv;
    RunKeepsInv(states, events, n);
    var s := states[n];
    InvHasNeeded(s, s.queue.logs.Keys);
    NextIsNew(s.files);
    LogsAreBelow(s.queue, s.files.nextFile);
  }

  lemma VersionsAreOnDisk(s: Life.State)
    requires Life.Inv(s)
    ensures s.current in s.versions && forall v: nat :: v in s.versions ==> s.versions[v].files <= s.tables
    ensures forall v: nat :: v in s.readers ==> v in s.versions
  {
    assert Life.Counted(s, s.current);
    forall v: nat
      ensures v in s.versions ==> s.versions[v].files <= s.tables
      ensures v in s.readers ==> v in s.versions
    {
      assert Life.Counted(s, v) && Life.TablesOf(s, v);
    }
  }

  /** The manifest in use, CURRENT, the lock and files that are being written are left; old manifests are not. */
  ghost predicate MetaFilesLeft(filenames: seq<Life.FileName>, left: set<Life.FileName>, live: set<nat>,
                                manifestNumber: nat) {
    && (forall f :: f in left ==> f in filenames)
    && (forall f :: f in filenames && f.parsed.None? ==> f in left)
    && (forall f :: f in filenames && f.parsed.Some? ==>
          match f.parsed.value
          case (DescriptorFile, n) => f in left <==> n >= manifestNumber
          case (TempFile, n) => f in left <==> n in live
          case (LogFile, _) => true
          case (TableFile, _) => true
          case (_, _) => f in left)
  }

  lemma PassLeavesMetaFiles(filenames: seq<Life.FileName>, deleted: seq<Life.FileName>, live: set<nat>, logNumber: nat,
                            prevLogNumber: nat, manifestNumber: nat)
    requires Life.IsDeletion(filenames, deleted, live, logNumber, prevLogNumber, manifestNumber)
    ensures MetaFilesLeft(filenames, Left(filenames, deleted), live, manifestNumber)
  {
    hide Life.IsDeletion;
    forall f | f in filenames
      ensures f.parsed.None? ==> f in Left(filenames, deleted)
      ensures f.parsed.Some? && f.parsed.value.0 in {Life.CurrentFile, Life.DBLockFile, Life.InfoLogFile} ==>
                f in Left(filenames, deleted)
      ensures f.parsed.Some? && f.parsed.value.0 == Life.DescriptorFile ==>
                (f in Left(filenames, deleted) <==> f.parsed.value.1 >= manifestNumber)
      ensures f.parsed.Some? && f.parsed.value.0 == Life.TempFile ==>
                (f in Left(filenames, deleted) <==> f.parsed.value.1 in live)
    {
      OthersLeft(filenames, deleted, live, logNumber, prevLogNumber, manifestNumber, f);
    }
  }

  /**
   A pass of DeleteObsoleteFiles over the directory, wherever a run has come to: what it leaves still has
   everything that is needed.
   */
  lemma PassLeavesNeeded(states: seq<System>, events: seq<Event>, n: nat, e: Life.Event, filenames: seq<Life.FileName>,
                         deleted: seq<Life.FileName>, prevLogNumber: nat, manifestNumber: nat)
    requires Run(states, events) && n <= |events| && CollectsNow(states[n].files, e)
    requires NumbersOf(NameSet(filenames), Life.TableFile) == states[n].files.tables
    requires NumbersOf(NameSet(filenames), Life.LogFile) == states[n].queue.logs.Keys
    requires Life.IsDeletion(filenames, deleted, Life.Live(Released(states[n].files, e)), states[n].queue.manifestLog,
               prevLogNumber, manifestNumber)
    ensures var left := Left(filenames, deleted);
            var after := Released(states[n].files, e).(tables := NumbersOf(left, Life.TableFile));
            HasNeeded(System(states[n].queue, after), NumbersOf(left, Life.TableFile), NumbersOf(left, Life.LogFile))
    ensures MetaFilesLeft(filenames, Left(filenames, deleted), Life.Live(Released(states[n].files, e)), manifestNumber)
  {
    hide MetaFilesLeft, Opened, SystemInv, Life.IsDeletion, NumbersOf, Left, Life.Live, Released, CollectsNow, Step,
         HasNeeded;
    RunKeepsInv(states, events, n);
    PassKeepsNeeded(states[n], e, filenames, deleted, prevLogNumber, manifestNumber);
    PassLeavesMetaFiles(filenames, deleted, Life.Live(Released(states[n].files, e)), states[n].queue.manifestLog,
                        prevLogNumber, manifestNumber);
  }

  lemma PassKeepsNeeded(s: System, e: Life.Event, filenames: seq<Life.FileName>, deleted: seq<Life.FileName>,
                        prevLogNumber: nat, manifestNumber: nat)
    requires SystemInv(s) && CollectsNow(s.files, e)
    requires NumbersOf(NameSet(filenames), Life.TableFile) == s.files.tables
    requires NumbersOf(NameSet(filenames), Life.LogFile) == s.queue.logs.Keys
    requires Life.IsDeletion(filenames, deleted, Life.Live(Released(s.files, e)), s.queue.manifestLog, prevLogNumber,
               manifestNumber)
    ensures var left := Left(filenames, deleted);
            var after := Released(s.files, e).(tables := NumbersOf(left, Life.TableFile));
            HasNeeded(System(s.queue, after), NumbersOf(left, Life.TableFile), NumbersOf(left, Life.LogFile))
  {
    hide SystemInv, Life.IsDeletion, NumbersOf, Left, Life.Live, Released, CollectsNow, Life.Step, Queue.Step,
         LogNumbers, Collection.Without, HasNeeded;
    var left := Left(filenames, deleted);
    var t := System(s.queue, Released(s.files, e).(tables := NumbersOf(left, Life.TableFile)));
    PassIsCollection(s.files, e, filenames, deleted, s.queue.manifestLog, prevLogNumber, manifestNumber);
    PassIsEvent(s.files, e);
    assert Step(s, OfFiles(e), t);
    StepKeepsInv(s, OfFiles(e), t);
    PassDeletesLogs(s.queue, filenames, deleted, Life.Live(Released(s.files, e)), prevLogNumber, manifestNumber);
    InvHasNeeded(t, NumbersOf(left, Life.LogFile));
  }

  lemma PassIsEvent(s: Life.State, e: Life.Event)
    requires CollectsNow(s, e)
    ensures e.CollectAfterFlush? || e.EndCompaction?
  {
  }

  lemma InvHasNeeded(s: System, logs: set<nat>)
    requires SystemInv(s) && forall n :: n in s.queue.logs && n >= s.queue.manifestLog ==> n in logs
    ensures HasNeeded(s, s.files.tables, logs)
  {
    hide Group.Backs, Numbers, Inv, Life.Live;
    VersionsAreOnDisk(s.files);
    LogsAre(s.queue);
  }

  lemma LogsAre(q: Queue.State)
    requires Group.QInv(q)
    ensures q.manifestLog in q.logs && q.logNumber in q.logs && q.manifestLog <= q.logNumber
    ensures q.db.imm.Some? ==>
              q.manifestLog < q.logNumber && Group.Backs(q.logs[q.manifestLog], q.immBase, q.db.imm.value)
  {
    hide Group.Backs, Inv;
  }
}
