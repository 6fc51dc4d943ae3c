/**
 The life of table files: live versions and their reference counts (Version::Ref and Unref,
 AddLiveFiles, db/version_set.cc), pending_outputs_, and DeleteObsoleteFiles (db/db_impl.cc), with
 readers that hold versions while the background thread installs and removes files.
 */
module ObsoleteFiles {
  import opened Options

  // ---- the directory -------------------------------------------------------------------------------------

  datatype FileType = LogFile | DBLockFile | TableFile | DescriptorFile | CurrentFile | TempFile | InfoLogFile

  /** A name in the directory; `parsed` is what ParseFileName makes of it. */
  datatype FileName = FileName(name: string, parsed: Option<(FileType, nat)>)

  /** What DeleteObsoleteFiles may not remove. */
  predicate Needed(f: FileName, live: set<nat>, logNumber: nat, prevLogNumber: nat, manifestNumber: nat) {
    match f.parsed
    case None => true
    case Some((LogFile, n)) => n >= logNumber || n == prevLogNumber
    case Some((DescriptorFile, n)) => n >= manifestNumber
    case Some((TableFile, n)) => n in live
    case Some((TempFile, n)) => n in live
    case Some((_, _)) => true
  }

  /** Exactly the names that are not needed are deleted. */
  ghost predicate IsDeletion(filenames: seq<FileName>, deleted: seq<FileName>, live: set<nat>, logNumber: nat,
                             prevLogNumber: nat, manifestNumber: nat) {
    forall f :: f in deleted <==> f in filenames && !Needed(f, live, logNumber, prevLogNumber, manifestNumber)
  }

  /** After a background error nothing is deleted: a new version may or may not have been committed. */
  method DeleteObsoleteFiles(bgError: bool, filenames: seq<FileName>, live: set<nat>, logNumber: nat,
                             prevLogNumber: nat, manifestNumber: nat) returns (deleted: seq<FileName>)
    ensures bgError ==> deleted == []
    ensures !bgError ==> IsDeletion(filenames, deleted, live, logNumber, prevLogNumber, manifestNumber)
  {
    deleted := [];
    if bgError {
      return;
    }
    for i := 0 to |filenames|
      invariant forall f :: f in deleted <==>
        f in filenames[..i] && !Needed(f, live, logNumber, prevLogNumber, manifestNumber)
    {
      var f := filenames[i];
      if f.parsed.Some? {
        var (t, number) := f.parsed.value;
        var keep := true;
        match t {
          case LogFile => keep := number >= logNumber || number == prevLogNumber;
          case DescriptorFile => keep := number >= manifestNumber;
          case TableFile => keep := number in live;
          case TempFile => keep := number in live;
          case CurrentFile => keep := true;
          case DBLockFile => keep := true;
          case InfoLogFile => keep := true;
        }
        if !keep {
          deleted := deleted + [f];
        }
      }
    }
  }

  // ---- the state -----------------------------------------------------------------------------------------

  /** A version in the list of live versions. */
  datatype Version = Version(files: set<nat>, refs: nat)

  /** CompactMemTable: the table is being built; built and to be installed; installed, with a collection to follow. */
  datatype Flush = NoFlush | Building(number: nat) | Built(file: Option<nat>) | Collecting

  /** A compaction of the background thread, which holds its input version. */
  datatype Job = NoJob | Compacting(input: nat, inputs: set<nat>, outputs: set<nat>, installed: bool)

  /** `tables` are the table files on disk; `readers` are the versions that iterators and reads hold. */
  datatype State = State(
    tables: set<nat>, pending: set<nat>, versions: map<nat, Version>, current: nat, readers: multiset<nat>,
    nextFile: nat, nextVersion: nat, flush: Flush, job: Job)

  function Ref(versions: map<nat, Version>, v: nat): map<nat, Version>
    requires v in versions
  {
    versions[v := Version(versions[v].files, versions[v].refs + 1)]
  }

  /** The last reference takes the version off the list. */
  function Unref(versions: map<nat, Version>, v: nat): map<nat, Version>
    requires v in versions && versions[v].refs >= 1
  {
    if versions[v].refs == 1 then versions - {v}
    else versions[v := Version(versions[v].files, versions[v].refs - 1)]
  }

  /** AddLiveFiles on top of pending_outputs_. */
  ghost function Live(s: State): set<nat> {
    s.pending + set v, f | v in s.versions && f in s.versions[v].files :: f
  }

  /** AppendVersion: a new current version; the old one loses the reference of the version set. */
  ghost predicate Installs(s: State, files: set<nat>, s': State) {
    && s.current in s.versions && s.versions[s.current].refs >= 1
    && s'.nextVersion == s.nextVersion + 1 && s'.current == s.nextVersion
    && s'.versions == Unref(s.versions[s.nextVersion := Version(files, 1)], s.current)
  }

  datatype Event =
    | ReaderRefs
    | ReaderUnrefs(version: nat)
    | StartFlush
    | FinishTable(empty: bool)
    | InstallFlush
    | CollectAfterFlush
    | MoveFile
    | StartCompaction(inputs: set<nat>)
    | OpenOutput
    | InstallCompaction
    | EndCompaction

  ghost predicate Step(s: State, e: Event, s': State) {
    match e
    case ReaderRefs =>
      s.current in s.versions
      && s' == s.(versions := Ref(s.versions, s.current), readers := s.readers + multiset{s.current})
    case ReaderUnrefs(v) =>
      && v in s.readers && v in s.versions && s.versions[v].refs >= 1
      && s' == s.(versions := Unref(s.versions, v), readers := s.readers - multiset{v})
    // A memtable may be flushed in the middle of a compaction, by the same thread.
    case StartFlush =>
      && s.flush.NoFlush? && (s.job.Compacting? ==> !s.job.installed)
      && s' == s.(nextFile := s.nextFile + 1, pending := s.pending + {s.nextFile}, flush := Building(s.nextFile))
    case FinishTable(empty) =>
      && s.flush.Building?
      && s' == s.(tables := if empty then s.tables - {s.flush.number} else s.tables + {s.flush.number},
                  pending := s.pending - {s.flush.number},
                  flush := Built(if empty then None else Some(s.flush.number)))
    case InstallFlush =>
      && s.flush.Built? && s.current in s.versions
      && Installs(s, s.versions[s.current].files + (if s.flush.file.Some? then {s.flush.file.value} else {}), s')
      && s' == s.(versions := s'.versions, current := s'.current, nextVersion := s'.nextVersion, flush := Collecting)
    case CollectAfterFlush =>
      && s.flush.Collecting?
      && s' == s.(tables := s.tables * Live(s), flush := NoFlush)
    case MoveFile =>
      && s.flush.NoFlush? && s.job.NoJob? && s.current in s.versions
      && Installs(s, s.versions[s.current].files, s')
      && s' == s.(versions := s'.versions, current := s'.current, nextVersion := s'.nextVersion)
    case StartCompaction(inputs) =>
      && s.flush.NoFlush? && s.job.NoJob? && s.current in s.versions && inputs <= s.versions[s.current].files
      && s' == s.(versions := Ref(s.versions, s.current), job := Compacting(s.current, inputs, {}, false))
    case OpenOutput =>
      && s.flush.NoFlush? && s.job.Compacting? && !s.job.installed
      && s' == s.(nextFile := s.nextFile + 1, pending := s.pending + {s.nextFile}, tables := s.tables + {s.nextFile},
                  job := s.job.(outputs := s.job.outputs + {s.nextFile}))
    case InstallCompaction =>
      && s.flush.NoFlush? && s.job.Compacting? && !s.job.installed && s.current in s.versions
      && Installs(s, s.versions[s.current].files - s.job.inputs + s.job.outputs, s')
      && s' == s.(versions := s'.versions, current := s'.current, nextVersion := s'.nextVersion,
                  job := s.job.(installed := true))
    // CleanupCompaction, ReleaseInputs and DeleteObsoleteFiles, under one hold of the mutex.
    case EndCompaction =>
      && s.flush.NoFlush? && s.job.Compacting? && s.job.installed
      && s.job.input in s.versions && s.versions[s.job.input].refs >= 1
      && var t := s.(pending := s.pending - s.job.outputs, versions := Unref(s.versions, s.job.input), job := NoJob);
         s' == t.(tables := t.tables * Live(t))
  }

  // ---- the invariant -------------------------------------------------------------------------------------

  /** How many hold a version: the version set, readers, and a compaction. */
  function Holders(s: State, v: nat): nat {
    (if v == s.current then 1 else 0) + s.readers[v] + (if s.job.Compacting? && v == s.job.input then 1 else 0)
  }

  /** A version is live exactly while someone holds it, and counts its holders. */
  ghost predicate Counted(s: State, v: nat) {
    && (v in s.versions <==> Holders(s, v) > 0)
    && (v in s.versions ==> s.versions[v].refs == Holders(s, v) && v < s.nextVersion)
  }

  ghost predicate TablesOf(s: State, v: nat) {
    v in s.versions ==>
      && s.versions[v].files <= s.tables
      && (forall f :: f in s.versions[v].files ==> f < s.nextFile)
      && (s.flush.Building? ==> s.flush.number !in s.versions[v].files)
  }

  ghost predicate FlushInv(s: State) {
    && (s.flush.Building? ==> s.flush.number < s.nextFile)
    && (s.flush.Built? && s.flush.file.Some? ==> s.flush.file.value in s.tables && s.flush.file.value < s.nextFile)
  }

  ghost predicate JobInv(s: State) {
    s.job.Compacting? ==>
      && s.job.input in s.versions && s.job.inputs <= s.versions[s.job.input].files
      && (forall f :: f in s.job.outputs ==> f < s.nextFile)
      && (!s.job.installed ==> s.job.outputs <= s.tables * s.pending)
      && (s.job.installed ==> s.flush.NoFlush?)
      && (s.flush.Building? ==> s.flush.number !in s.job.outputs)
  }

  ghost predicate Inv(s: State) {
    && (forall v: nat :: Counted(s, v))
    && (forall v: nat :: TablesOf(s, v))
    && (forall f :: f in s.pending ==> f < s.nextFile)
    && FlushInv(s) && JobInv(s)
  }

  /** Dropping one holder of a version keeps the counts right. */
  lemma UnrefCounts(versions: map<nat, Version>, v: nat, w: nat)
    requires v in versions && versions[v].refs >= 1
    ensures w != v ==> (w in Unref(versions, v) <==> w in versions)
    ensures w != v && w in versions ==> Unref(versions, v)[w] == versions[w]
    ensures v in Unref(versions, v) <==> versions[v].refs > 1
    ensures v in Unref(versions, v) ==> Unref(versions, v)[v] == Version(versions[v].files, versions[v].refs - 1)
  {
  }

  lemma StepKeepsInv(s: State, e: Event, s': State)
    requires Inv(s) && Step(s, e, s')
    ensures Inv(s')
  {
    hide Inv, Step;
    match e
    case ReaderRefs => HoldKeepsInv(s, e, s');
    case StartCompaction(inputs) => HoldKeepsInv(s, e, s');
    case ReaderUnrefs(v) => UnrefKeepsInv(s, v, s');
    case InstallFlush => InstallKeepsInv(s, e, s');
    case MoveFile => InstallKeepsInv(s, e, s');
    case InstallCompaction => InstallKeepsInv(s, e, s');
    case EndCompaction => EndKeepsInv(s, s');
    case _ => FilesKeepInv(s, e, s');
  }

  lemma HoldKeepsInv(s: State, e: Event, s': State)
    requires Inv(s) && Step(s, e, s') && (e.ReaderRefs? || e.StartCompaction?)
    ensures Inv(s')
  {
    assert Counted(s, s.current) && TablesOf(s, s.current);
    forall w: nat
      ensures Counted(s', w) && TablesOf(s', w)
    {
      assert Counted(s, w) && TablesOf(s, w);
    }
  }

  lemma UnrefKeepsInv(s: State, v: nat, s': State)
    requires Inv(s) && Step(s, ReaderUnrefs(v), s')
    ensures Inv(s')
  {
    hide Unref;
    forall w: nat
      ensures Counted(s', w) && TablesOf(s', w)
    {
      assert Counted(s, w) && TablesOf(s, w);
      UnrefCounts(s.versions, v, w);
    }
    if s.job.Compacting? {
      assert Counted(s', s.job.input);
      UnrefCounts(s.versions, v, s.job.input);
    }
  }

  lemma InstallKeepsInv(s: State, e: Event, s': State)
    requires Inv(s) && Step(s, e, s') && (e.InstallFlush? || e.MoveFile? || e.InstallCompaction?)
    ensures Inv(s')
  {
    hide Unref;
    var files := s.versions[s.current].files;
    if e.InstallFlush? {
      files := files + if s.flush.file.Some? then {s.flush.file.value} else {};
    } else if e.InstallCompaction? {
      files := files - s.job.inputs + s.job.outputs;
    }
    assert Counted(s, s.current) && TablesOf(s, s.current) && Counted(s, s.nextVersion);
    forall w: nat
      ensures Counted(s', w) && TablesOf(s', w)
    {
      assert Counted(s, w) && TablesOf(s, w);
      UnrefCounts(s.versions[s.nextVersion := Version(files, 1)], s.current, w);
    }
    if s.job.Compacting? {
      assert Counted(s, s.job.input) && Counted(s', s.job.input);
      UnrefCounts(s.versions[s.nextVersion := Version(files, 1)], s.current, s.job.input);
    }
  }

  lemma EndKeepsInv(s: State, s': State)
    requires Inv(s) && Step(s, EndCompaction, s')
    ensures Inv(s')
  {
    hide Unref;
    forall w: nat
      ensures Counted(s', w) && TablesOf(s', w)
    {
      assert Counted(s, w) && TablesOf(s, w);
      UnrefCounts(s.versions, s.job.input, w);
    }
  }

  lemma FilesKeepInv(s: State, e: Event, s': State)
    requires Inv(s) && Step(s, e, s')
    requires e.StartFlush? || e.FinishTable? || e.CollectAfterFlush? || e.OpenOutput?
    ensures Inv(s')
  {
    forall w: nat
      ensures Counted(s', w) && TablesOf(s', w)
    {
      assert Counted(s, w) && TablesOf(s, w);
    }
  }

  // ---- runs ----------------------------------------------------------------------------------------------

  /** A database just opened: one version, nothing pending. */
  ghost predicate Opened(s: State) {
    && s.versions.Keys == {s.current} && s.versions[s.current].refs == 1 && s.current < s.nextVersion
    && s.versions[s.current].files <= s.tables && (forall f :: f in s.versions[s.current].files ==> f < s.nextFile)
    && s.pending == {} && s.readers == multiset{} && s.flush.NoFlush? && s.job.NoJob?
  }

  ghost predicate Run(states: seq<State>, events: seq<Event>) {
    && |states| == |events| + 1
    && Opened(states[0])
    && forall i: nat :: i < |events| ==> Step(states[i], events[i], states[i + 1])
  }

  lemma {:induction false} RunKeepsInv(states: seq<State>, events: seq<Event>, n: nat)
    requires Run(states, events) && n <= |events|
    ensures Inv(states[n])
  {
    hide Step;
    if n == 0 {
      assert forall v: nat :: Counted(states[0], v) && TablesOf(states[0], v);
    } else {
      RunKeepsInv(states, events, n - 1);
      StepKeepsInv(states[n - 1], events[n - 1], states[n]);
    }
  }

  /**
   Over any run, whatever a reader or the running compaction holds stays readable: its version is live
   and every table of it is on disk; so are the finished outputs of a compaction that are not installed.
   */
  lemma NothingNeededIsRemoved(states: seq<State>, events: seq<Event>, n: nat, v: nat)
    requires Run(states, events) && n <= |events|
    ensures var s := states[n];
      && (v in s.readers || v == s.current ==> v in s.versions && s.versions[v].files <= s.tables)
      && (s.job.Compacting? ==> s.job.input in s.versions && s.job.inputs <= s.tables)
      && (s.job.Compacting? && !s.job.installed ==> s.job.outputs <= s.tables)
  {
    RunKeepsInv(states, events, n);
    var s := states[n];
    assert Counted(s, v) && TablesOf(s, v);
    if s.job.Compacting? {
      assert TablesOf(s, s.job.input);
    }
  }

  /** A new table never gets the name of one that is live or pending. */
  lemma NewTablesAreNew(states: seq<State>, events: seq<Event>, n: nat)
    requires Run(states, events) && n <= |events|
    ensures states[n].nextFile !in Live(states[n])
  {
    RunKeepsInv(states, events, n);
    var s := states[n];
    forall v: nat | v in s.versions
      ensures s.nextFile !in s.versions[v].files
    {
      assert TablesOf(s, v);
    }
  }
}
