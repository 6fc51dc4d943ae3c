/**
 The database object (DBImpl, db/db_impl.cc): its methods carry out the steps of module Runs.
 */
module DbImpl {
  import opened Options
  import opened Keys
  import opened Files
  import opened Lsm
  import opened CompactionInputs
  import opened CompactionDrops
  import opened CompactionRules
  import opened Steps
  import opened Runs
  import opened Lookup
  import opened VersionBuilder
  import opened DoCompaction

  // ---- edits and the steps they make ----------------------------------------------------------------

  ghost predicate Installed(levels: Levels, edit: FileEdit, levels': Levels) {
    && |levels| == |levels'| == NUM_LEVELS
    && forall l :: 0 <= l < NUM_LEVELS ==>
         InFileOrder(levels'[l]) && FileSet(levels'[l]) == Saved(FileSet(levels[l]), Merge(NOTHING, edit, l))
  }

  /** An edit may be installed: its additions are new to their levels. */
  ghost predicate Installable(levels: Levels, edit: FileEdit) {
    && LevelsInRange(edit) && NoRepeats(edit.added)
    && forall l :: 0 <= l < |levels| ==> Numbers(AddedAt(edit, l)) !! Numbers(FileSet(levels[l]))
  }

  function Tagged(level: nat, fs: seq<File>): seq<(nat, File)> {
    seq(|fs|, i requires 0 <= i < |fs| => (level, fs[i]))
  }

  function NumbersAt(level: nat, fs: seq<File>): set<(nat, nat)> {
    set f | f in fs :: (level, f.number)
  }

  /** AddInputDeletions, and the outputs added to level+1 (InstallCompactionResults). */
  function CompactionEdit(level: nat, inputs0: seq<File>, inputs1: seq<File>, outputs: seq<File>): FileEdit {
    FileEdit(NumbersAt(level, inputs0) + NumbersAt(level + 1, inputs1), Tagged(level + 1, outputs))
  }

  lemma TaggedAt(level: nat, fs: seq<File>, l: nat)
    ensures AddedIn(Tagged(level, fs), l) == if l == level then FileSet(fs) else {}
  {
    var xs := Tagged(level, fs);
    forall f | f in FileSet(fs) && l == level
      ensures f in AddedIn(xs, l)
    {
      var i :| 0 <= i < |fs| && fs[i] == f;
      assert xs[i] == (l, f);
    }
  }

  lemma NumbersAtIn(level: nat, inputs0: seq<File>, inputs1: seq<File>, l: nat)
    ensures DeletedIn(NumbersAt(level, inputs0) + NumbersAt(level + 1, inputs1), l)
         == if l == level then Numbers(FileSet(inputs0)) else if l == level + 1 then Numbers(FileSet(inputs1)) else {}
  {
    var ds := NumbersAt(level, inputs0) + NumbersAt(level + 1, inputs1);
    forall n | l == level && n in Numbers(FileSet(inputs0))
      ensures n in DeletedIn(ds, l)
    {
      var f :| f in inputs0 && f.number == n;
      assert (l, n) in ds;
    }
    forall n | l == level + 1 && n in Numbers(FileSet(inputs1))
      ensures n in DeletedIn(ds, l)
    {
      var f :| f in inputs1 && f.number == n;
      assert (l, n) in ds;
    }
    forall n | n in DeletedIn(ds, l)
      ensures l == level || l == level + 1
      ensures l == level ==> n in Numbers(FileSet(inputs0))
      ensures l == level + 1 ==> n in Numbers(FileSet(inputs1))
    {
      var d :| d in ds && d.0 == l && d.1 == n;
      if l == level {
        var f :| f in inputs0 && (level, f.number) == d;
        assert f in FileSet(inputs0);
      } else {
        var f :| f in inputs1 && (level + 1, f.number) == d;
        assert f in FileSet(inputs1);
      }
    }
  }

  lemma NumberOf(fs: seq<File>, chosen: seq<File>, f: File)
    requires NumbersDiffer(fs) && f in fs && forall g :: g in chosen ==> g in fs
    ensures f.number in Numbers(FileSet(chosen)) <==> f in chosen
  {
    if f in chosen {
      assert f in FileSet(chosen);
    }
  }

  lemma FreshNumbers(fs: seq<File>, outputs: seq<File>, n: nat)
    requires forall f :: f in fs ==> f.number < n
    requires forall f :: f in outputs ==> f.number >= n
    ensures Numbers(FileSet(outputs)) !! Numbers(FileSet(fs))
  {
  }

  /** Installing a compaction's edit replaces its inputs by its outputs. */
  lemma InstalledIsReplaced(levels: Levels, level: nat, inputs0: seq<File>, inputs1: seq<File>, outputs: seq<File>,
                            levels': Levels)
    requires |levels| == NUM_LEVELS && level + 1 < NUM_LEVELS && NumbersUnique(levels)
    requires forall f :: f in inputs0 ==> f in levels[level]
    requires forall f :: f in inputs1 ==> f in levels[level + 1]
    requires Numbers(FileSet(outputs)) !! Numbers(FileSet(levels[level + 1]))
    requires Installed(levels, CompactionEdit(level, inputs0, inputs1, outputs), levels')
    ensures Replaced(levels, level, inputs0, inputs1, outputs, levels')
  {
    hide Installed, InFileOrder, IsKept, NumbersUnique, Numbers, FileSet, CompactionEdit;
    InstalledInOrder(levels, CompactionEdit(level, inputs0, inputs1, outputs), levels');
    forall l, f {:trigger f in levels'[l]} {:trigger f in levels[l]} | 0 <= l < |levels|
      ensures f in levels'[l] <==> || (f in levels[l] && IsKept(level, inputs0, inputs1, l, f))
                                   || (l == level + 1 && f in outputs)
    {
      ReplacedAt(levels, level, inputs0, inputs1, outputs, levels', l, f);
    }
  }

  lemma InstalledInOrder(levels: Levels, edit: FileEdit, levels': Levels)
    requires Installed(levels, edit, levels')
    ensures |levels'| == |levels| && forall l :: 0 <= l < |levels'| ==> InFileOrder(levels'[l])
  {
  }

  lemma ReplacedAt(levels: Levels, level: nat, inputs0: seq<File>, inputs1: seq<File>, outputs: seq<File>,
                   levels': Levels, l: nat, f: File)
    requires |levels| == NUM_LEVELS && level + 1 < NUM_LEVELS && NumbersUnique(levels)
    requires forall g :: g in inputs0 ==> g in levels[level]
    requires forall g :: g in inputs1 ==> g in levels[level + 1]
    requires Numbers(FileSet(outputs)) !! Numbers(FileSet(levels[level + 1]))
    requires Installed(levels, CompactionEdit(level, inputs0, inputs1, outputs), levels')
    requires l < NUM_LEVELS
    ensures f in levels'[l] <==> (f in levels[l] && IsKept(level, inputs0, inputs1, l, f))
                                 || (l == level + 1 && f in outputs)
  {
    var edit := CompactionEdit(level, inputs0, inputs1, outputs);
    TaggedAt(level + 1, outputs, l);
    NumbersAtIn(level, inputs0, inputs1, l);
    var p := Merge(NOTHING, edit, l);
    assert f in levels'[l] <==> f in FileSet(levels'[l]);
    assert f in levels'[l] <==> f in Saved(FileSet(levels[l]), p);
    if f in levels[l] {
      if l == level {
        NumberOf(levels[l], inputs0, f);
      } else if l == level + 1 {
        NumberOf(levels[l], inputs1, f);
        assert f.number in Numbers(FileSet(levels[l]));
      }
    } else if l == level + 1 && f in outputs {
      assert f.number in Numbers(FileSet(outputs));
    }
  }

  lemma InstalledIsAdded(levels: Levels, l: nat, f: File, levels': Levels)
    requires |levels| == NUM_LEVELS && l < NUM_LEVELS
    requires Installed(levels, FileEdit({}, [(l, f)]), levels')
    ensures FileAdded(levels, l, f, levels')
  {
    var edit := FileEdit({}, [(l, f)]);
    forall k, g | 0 <= k < NUM_LEVELS
      ensures g in levels'[k] <==> g in levels[k] || (k == l && g == f)
    {
      assert (l, f) in edit.added;
      assert AddedAt(edit, k) == if k == l then {f} else {};
      assert DeletedAt(edit, k) == {};
      assert g in levels'[k] <==> g in FileSet(levels'[k]);
    }
  }

  // ---- the object -----------------------------------------------------------------------------------------

  /** LogAndApply: one edit through a builder on the current version. */
  method LogAndApply(levels: Levels, edit: FileEdit) returns (v: Levels)
    requires |levels| == NUM_LEVELS && (forall l :: 0 <= l < NUM_LEVELS ==> InFileOrder(levels[l]))
    requires Installable(levels, edit)
    ensures Installed(levels, edit, v)
  {
    var builder := new Builder(levels);
    forall l | 0 <= l < NUM_LEVELS
      ensures Numbers(FileSet(builder.added[l])) == {}
    {
      assert FileSet(builder.added[l]) == builder.PendingAt(l).added;
    }
    builder.Apply(edit);
    v := [];
    for l := 0 to NUM_LEVELS
      invariant |v| == l
      invariant builder.Valid() && builder.base == levels
      invariant forall k :: 0 <= k < NUM_LEVELS ==> builder.PendingAt(k) == Merge(NOTHING, edit, k)
      invariant forall k :: 0 <= k < l ==>
        InFileOrder(v[k]) && FileSet(v[k]) == Saved(FileSet(levels[k]), Merge(NOTHING, edit, k))
    {
      var files := builder.SaveLevel(l);
      v := v + [files];
    }
  }

  class DBImpl {
    var mem: seq<Entry>
    var imm: Option<seq<Entry>>
    var current: Levels
    var lastSequence: nat
    var nextFile: nat
    var snapshots: seq<nat>

    ghost function State(): Db
      reads this
    {
      Db(mem, imm, current, lastSequence, nextFile, snapshots)
    }

    ghost predicate Valid()
      reads this
    {
      Inv(State())
    }

    /** A new database. */
    constructor ()
      ensures Valid() && State() == Db([], None, seq(NUM_LEVELS, _ => []), 0, 2, [])
    {
      hide Inv;
      mem, imm, current := [], None, seq(NUM_LEVELS, _ => []);
      lastSequence, nextFile, snapshots := 0, 2, [];
      new;
      NothingStored(State());
    }

    /** DBImpl::Get: memtable, immutable memtable, then the current version. */
    method Get(key: UserKey, snapshot: Option<nat>) returns (value: Option<seq<Byte>>)
      requires Valid()
      ensures value == View(All(State()), key, if snapshot.Some? then snapshot.value else lastSequence)
    {
      var s := if snapshot.Some? then snapshot.value else lastSequence;
      ghost var inMem, inImm: Option<Entry>, inTables: Option<Entry> := SeekIn(mem, key, s), None, None;
      var r := SeekIn(mem, key, s);
      SeekFindsNewest(mem, key, s);
      if r.None? && imm.Some? {
        r := SeekIn(imm.value, key, s);
        SeekFindsNewest(imm.value, key, s);
        inImm := r;
      }
      if r.None? {
        r := VersionGet(current, key, s);
        inTables := r;
      }
      ThreeLayers(State(), key, s, inMem, inImm, inTables);
      LookupIsView(All(State()), key, s, r);
      value := ValueOf(r);
    }

    /** DBImpl::Write for one batch. */
    method Write(ops: seq<Op>)
      requires Valid() && lastSequence + |ops| < MAX_SEQUENCE
      modifies this
      ensures Valid() && Next(old(State()), Action.Write(ops), State())
    {
      hide Inv, Inserted;
      ghost var before := State();
      var i := 0;
      while i < |ops|
        invariant i <= |ops|
        invariant State() == before.(mem := Applied(before.mem, ops, i, before.lastSequence + 1))
      {
        mem := Inserted(mem, EntryOf(ops[i], lastSequence + 1 + i));
        i := i + 1;
      }
      lastSequence := lastSequence + |ops|;
      WriteKeepsInv(before, ops, State());
    }

    /** The memtable switch of MakeRoomForWrite, once imm_ is free. */
    method SwitchToNewMemTable()
      requires Valid() && imm.None?
      modifies this
      ensures Valid() && Next(old(State()), SwitchMemTable, State())
    {
      nextFile := nextFile + 1;
      imm := Some(mem);
      mem := [];
      SwitchKeepsInv(old(State()), State());
    }

    /** CompactMemTable, with WriteLevel0Table. */
    method CompactMemTable(fileSize: nat, maxOverlap: nat)
      requires Valid() && imm.Some?
      modifies this
      ensures Valid()
      ensures exists l, f :: Next(old(State()), FlushMemTable(l, f), State())
                && (old(imm.value) != [] ==> IsPicked(old(current), f.smallest.user, f.largest.user, maxOverlap, l))
    {
      hide IsPicked, Installed, ClearDownTo, ValidFile;
      ghost var before := State();
      var number := nextFile;
      nextFile := nextFile + 1;
      var es := imm.value;
      if es != [] {
        var f := MakeFile(number, fileSize, es);
        FlushedFileIsValid(before, f);
        var level := PickLevelForMemTableOutput(current, f.smallest.user, f.largest.user, maxOverlap);
        PickedLevelIsClear(current, level, maxOverlap, f);
        var edit := FileEdit({}, [(level, f)]);
        FlushIsInstallable(current, level, f);
        current := LogAndApply(current, edit);
        InstalledIsAdded(before.levels, level, f, current);
        imm := None;
        assert Flushed(before, level, f, State());
        FlushKeepsInv(before, level, f, State());
        assert Next(before, FlushMemTable(level, f), State());
      } else {
        imm := None;
        var none := File(0, 0, SeekKey(0.0, 0), SeekKey(0.0, 0), []);
        assert Flushed(before, 0, none, State());
        FlushKeepsInv(before, 0, none, State());
        assert Next(before, FlushMemTable(0, none), State());
      }
    }

    method GetSnapshot() returns (s: nat)
      requires Valid()
      modifies this`snapshots
      ensures Valid() && s == lastSequence && Next(old(State()), TakeSnapshot, State())
    {
      s := lastSequence;
      snapshots := snapshots + [s];
      SnapshotTaken(old(State()), State());
    }

    method ReleaseSnapshotAt(i: nat)
      requires Valid() && i < |snapshots|
      modifies this`snapshots
      ensures Valid() && Next(old(State()), ReleaseSnapshot(i), State())
    {
      snapshots := snapshots[..i] + snapshots[i + 1..];
      SnapshotReleased(old(State()), i, State());
    }

    /**
     BackgroundCompaction: from starting inputs (PickCompaction, CompactRange) either a trivial move or a
     compaction down to the oldest live snapshot.  A manual compaction is never a move.
     */
    method BackgroundCompaction(level: nat, start: seq<File>, manual: bool, expandedLimit: nat, maxOverlap: nat)
      returns (moved: bool, in0: seq<File>, in1: seq<File>)
      requires Valid() && level + 1 < NUM_LEVELS
      requires |current| == NUM_LEVELS && StartingInputs(level, current[level], start)
      modifies this
      ensures Valid()
      ensures Completed(old(current), level, start, expandedLimit, in0, in1)
      ensures moved <==> !manual && LiesAlone(old(current), level, in0, in1, maxOverlap)
      ensures moved ==> Next(old(State()), MoveFile(level, in0[0]), State())
      ensures !moved ==> exists input, outputs ::
        && CompactionStep(old(State()), level, in0, in1, input, outputs, State())
        && SparesGrandparents(old(current), level, in0, in1, outputs, maxOverlap)
    {
      hide StartingInputs, Chosen, Inv, Next, CompactionStep, ValidLevels, Contents, Extended, Suggested, Widens,
           OverlappingHull, MeetingHull, LargestOf, TotalFileSize, CompactionEdit, CompletedBy, LiesAlone, Meeting,
           AllOverlapLittle;
      ghost var before := State();
      CompactionCanStart(before, level);
      var c := new Compaction(level, current);
      c.inputs0 := start;
      var pointer;
      ghost var base0, base1, wider;
      pointer, base0, base1, wider := c.SetupOtherInputs(expandedLimit);
      in0, in1 := c.inputs0, c.inputs1;
      GrandparentsDecide(current, level, in0, in1, c.grandparents, maxOverlap);
      moved := !manual && |in0| == 1 && |in1| == 0 && TotalFileSize(c.grandparents) <= maxOverlap;
      if moved {
        MoveIsInstallable(before, level, in0, in1);
        current := LogAndApply(current, CompactionEdit(level, in0, in1, in0));
        MoveIsStep(before, level, in0, in1, State());
      } else {
        ghost var input, outputs := CompactAndInstall(c, maxOverlap);
        assert SparesGrandparents(before.levels, level, in0, in1, outputs, maxOverlap);
      }
    }

    /** The rest of BackgroundCompaction: DoCompactionWork and InstallCompactionResults. */
    method CompactAndInstall(c: Compaction, maxOverlap: nat) returns (ghost input: seq<Entry>, ghost outputs: seq<File>)
      requires Valid() && c.Valid() && c.levels == current && |current| == NUM_LEVELS
      requires Chosen(current[c.level], current[c.level + 1], c.inputs0, c.inputs1)
      requires forall k :: 0 <= k < NUM_LEVELS ==> c.levelPtrs[k] == 0
      requires c.grandparentIndex == c.overlappedBytes == 0 && !c.seenKey
      modifies this, c
      ensures Valid()
      ensures CompactionStep(old(State()), c.level, old(c.inputs0), old(c.inputs1), input, outputs, State())
      ensures AllOverlapLittle(old(c.grandparents), outputs, maxOverlap)
    {
      hide Chosen, Inv, Compacted, Replaced, CompactionStep, AllOverlapLittle;
      ghost var before := State();
      CompactionCanStart(before, c.level);
      var level, in0, in1 := c.level, c.inputs0, c.inputs1;
      var merged := MergedInput(in0 + in1);
      input := merged;
      CompactionInput(before, level, in0, in1);
      var smallest := if snapshots == [] then lastSequence else snapshots[0];
      var files := DoCompactionWork(c, merged, smallest, nextFile, maxOverlap);
      outputs := files;
      nextFile := nextFile + |files|;
      CompactionIsInstallable(before, level, in0, in1, files);
      current := LogAndApply(current, CompactionEdit(level, in0, in1, files));
      CompactionIsStep(before, level, in0, in1, input, smallest, outputs, State());
      CleanCompactionStep(before, level, in0, in1, input, outputs, State());
    }
  }

  /** No output overlaps too much of what the inputs meet in level+2. */
  ghost predicate SparesGrandparents(levels: Levels, level: nat, in0: seq<File>, in1: seq<File>, outputs: seq<File>,
                                     maxOverlap: nat) {
    level + 2 < |levels| ==> exists grandparents ::
      && OverlappingHull(level + 2, levels[level + 2], in0 + in1, grandparents)
      && AllOverlapLittle(grandparents, outputs, maxOverlap)
  }

  /**
   A compaction down to the oldest live snapshot is a step of the database, and a harmless one if level+1
   ends clean after inputs_[1]; its outputs are lean.
   */
  ghost predicate CompactionStep(db: Db, level: nat, in0: seq<File>, in1: seq<File>, input: seq<Entry>,
                                 outputs: seq<File>, db': Db) {
    var a := Compact(level, in0, in1, input, OldestSnapshot(db), outputs);
    && Next(db, a, db')
    && (level + 1 < |db.levels| && EndsClean(db.levels[level + 1], in1) ==> Harmless(db, a))
    && IsLean(db, level, Contents(in0) + Contents(in1), Contents(outputs))
  }

  lemma CleanCompactionStep(db: Db, level: nat, in0: seq<File>, in1: seq<File>, input: seq<Entry>,
                            outputs: seq<File>, db': Db)
    requires Inv(db) && Compacted(db, level, in0, in1, input, OldestSnapshot(db), outputs, db')
    ensures CompactionStep(db, level, in0, in1, input, outputs, db')
  {
    hide LevelsInRecencyOrder, Sorted, UniqueKeys, NumbersBelow, Tables, Chosen, Replaced, Contents, SafeToDrop,
         EndsClean, IsLean, IsFloor;
    OldestIsFloor(db);
    CompactionIsLean(db, level, in0, in1, input, OldestSnapshot(db));
    if EndsClean(db.levels[level + 1], in1) {
      EndsCleanIsSafe(db, level, in0, in1, input, OldestSnapshot(db));
    }
  }

  /**
   After such a step two versions of a key in the outputs are there for a snapshot between them; without snapshots
   a key has one entry in the outputs, and a deletion marker only if a deeper level may hold the key.
   */
  lemma CompactionKeepsNoMore(db: Db, level: nat, in0: seq<File>, in1: seq<File>, input: seq<Entry>,
                              outputs: seq<File>, db': Db, d: Entry, e: Entry)
    requires Inv(db) && CompactionStep(db, level, in0, in1, input, outputs, db')
    requires d in Contents(outputs) && e in Contents(outputs) && d.key.user == e.key.user
    ensures d.key.sequence < e.key.sequence ==> exists s :: s in db.snapshots && s < e.key.sequence
    ensures db.snapshots == [] ==> d == e
    ensures db.snapshots == [] && e.key.kind.Deletion? ==>
              exists l, f :: level + 2 <= l < |db.levels| && f in db.levels[l]
                             && f.smallest.user <= e.key.user <= f.largest.user
  {
    hide Inv, Contents, IsLean, Chosen, Sorted, Replaced, ValidFiles, PairwiseApart, NumbersDiffer, NewNumbers,
         Survivors, Harmless, EndsClean, UniqueKeys, IsFloor;
    var inputs := Contents(in0) + Contents(in1);
    OldestIsFloor(db);
    CompactionIsLean(db, level, in0, in1, input, OldestSnapshot(db));
    if d.key.sequence < e.key.sequence {
      VersionsAreNeeded(db, level, inputs, Contents(outputs), d, e);
    }
    if db.snapshots == [] {
      OneVersionWithoutSnapshots(db, level, inputs, Contents(outputs), e);
    }
  }

  /** The smallest snapshot a compaction must keep. */
  function OldestSnapshot(db: Db): nat {
    if db.snapshots == [] then db.lastSequence else db.snapshots[0]
  }

  lemma CompactionCanStart(db: Db, level: nat)
    requires Inv(db) && level + 1 < NUM_LEVELS
    ensures ValidLevels(db.levels) && |db.levels| == NUM_LEVELS && UniqueKeys(Contents(db.levels[level]))
    ensures forall l :: 0 <= l < NUM_LEVELS ==> InFileOrder(db.levels[l])
    ensures OldestSnapshot(db) < MAX_SEQUENCE
  {
    OldestIsSmallest(db);
    hide LevelsInRecencyOrder, NumbersBelow, Sorted, Newer;
    forall e | e in Contents(db.levels[level])
      ensures e in All(db)
    {
      var f :| f in db.levels[level] && e in f.entries;
      assert e in Tables(db.levels);
    }
  }

  lemma MoveIsInstallable(db: Db, level: nat, in0: seq<File>, in1: seq<File>)
    requires Inv(db) && level + 1 < NUM_LEVELS == |db.levels| && |in0| == 1 && in1 == []
    requires Chosen(db.levels[level], db.levels[level + 1], in0, in1)
    ensures Installable(db.levels, CompactionEdit(level, in0, in1, in0))
    ensures Numbers(FileSet(in0)) !! Numbers(FileSet(db.levels[level + 1]))
  {
    MeetingMembersOf(db.levels[level + 1], in0, in1);
    assert NumbersUnique(db.levels) by { InvNumbers(db); }
    hide Inv, Chosen;
    var edit := CompactionEdit(level, in0, in1, in0);
    assert in0[0] in in0;
    forall f | f in in0
      ensures f in db.levels[level]
    {
      ChosenIsStored(db.levels[level], db.levels[level + 1], in0, in1, f);
    }
    MovedNumbersApart(db.levels, level, in0);
    EditIsInstallable(db.levels, level, in0, in1, in0);
  }

  lemma InvNumbers(db: Db)
    requires Inv(db)
    ensures |db.levels| == NUM_LEVELS && NumbersUnique(db.levels) && NumbersBelow(db.levels, db.nextFile)
  {
  }

  lemma ChosenIsStored(upper: seq<File>, lower: seq<File>, in0: seq<File>, in1: seq<File>, f: File)
    requires Chosen(upper, lower, in0, in1)
    ensures f in in0 ==> f in upper
    ensures f in in1 ==> f in lower
  {
    MeetingMembersOf(lower, in0, in1);
  }

  lemma MovedNumbersApart(levels: Levels, level: nat, fs: seq<File>)
    requires level + 1 < |levels| && NumbersUnique(levels) && forall f :: f in fs ==> f in levels[level]
    ensures Numbers(FileSet(fs)) !! Numbers(FileSet(levels[level + 1]))
  {
  }

  /** Additions to one level, with numbers that differ from it and each other. */
  lemma EditIsInstallable(levels: Levels, level: nat, in0: seq<File>, in1: seq<File>, outputs: seq<File>)
    requires level + 1 < NUM_LEVELS == |levels|
    requires Numbers(FileSet(outputs)) !! Numbers(FileSet(levels[level + 1]))
    requires forall i, j :: 0 <= i < j < |outputs| ==> outputs[i].number != outputs[j].number
    ensures Installable(levels, CompactionEdit(level, in0, in1, outputs))
  {
    var edit := CompactionEdit(level, in0, in1, outputs);
    forall l | 0 <= l < NUM_LEVELS
      ensures Numbers(AddedAt(edit, l)) !! Numbers(FileSet(levels[l]))
    {
      TaggedAt(level + 1, outputs, l);
    }
  }

  lemma MoveIsStep(db: Db, level: nat, in0: seq<File>, in1: seq<File>, db': Db)
    requires Inv(db) && level + 1 < NUM_LEVELS == |db.levels| && |in0| == 1 && in1 == []
    requires Chosen(db.levels[level], db.levels[level + 1], in0, in1)
    requires Numbers(FileSet(in0)) !! Numbers(FileSet(db.levels[level + 1]))
    requires Installed(db.levels, CompactionEdit(level, in0, in1, in0), db'.levels)
    requires db' == db.(levels := db'.levels)
    ensures Next(db, MoveFile(level, in0[0]), db')
    ensures Inv(db')
  {
    hide Inv, Chosen, Replaced, Installed;
    var f := in0[0];
    assert in0 == [f];
    EditIsReplacement(db, level, in0, in1, in0, db'.levels);
    assert Moved(db, level, f, db');
    MoveKeepsInv(db, level, f, db');
  }

  lemma CompactionInput(db: Db, level: nat, in0: seq<File>, in1: seq<File>)
    requires Inv(db) && level + 1 < NUM_LEVELS == |db.levels|
    requires Chosen(db.levels[level], db.levels[level + 1], in0, in1)
    ensures GoodInput(MergedInput(in0 + in1))
    ensures EntrySet(MergedInput(in0 + in1)) == Contents(in0) + Contents(in1)
  {
    hide LevelsInRecencyOrder, Newer, NumbersBelow, Chosen, ValidLevels, Sorted;
    InputsAreDistinct(db, level, in0, in1);
    MergedInputIsSorted(in0 + in1);
    ContentsOfBoth(in0, in1);
    AllBefore(db, level, in0, in1);
    var input := MergedInput(in0 + in1);
    forall i | 0 <= i < |input|
      ensures input[i].key.sequence < MAX_SEQUENCE
    {
      assert input[i] in EntrySet(input);
    }
  }

  lemma ContentsOfBoth(a: seq<File>, b: seq<File>)
    ensures Contents(a + b) == Contents(a) + Contents(b)
  {
  }

  /** Two stored files hold distinct keys. */
  lemma StoredAreDistinct(levels: Levels, k: nat, l: nat, f: File, g: File)
    requires ValidLevels(levels) && LevelsInRecencyOrder(levels)
    requires k <= l < |levels| && f in levels[k] && g in levels[l] && (k == l ==> f != g)
    ensures DistinctKeys(f.entries, g.entries)
  {
    forall d, e | d in f.entries && e in g.entries
      ensures d.key != e.key
    {
      assert d in EntrySet(f.entries) && e in EntrySet(g.entries);
      if k < l {
        assert FileNewer(f, g);
      } else if k > 0 {
        FileBounds(f);
        FileBounds(g);
        assert Apart(f, g);
      } else if f.number > g.number {
        assert FileNewer(f, g);
      } else {
        assert f.number != g.number;
        assert FileNewer(g, f);
      }
    }
  }

  lemma InputsAreDistinct(db: Db, level: nat, in0: seq<File>, in1: seq<File>)
    requires Inv(db) && level + 1 < NUM_LEVELS == |db.levels|
    requires Chosen(db.levels[level], db.levels[level + 1], in0, in1)
    ensures FilesDistinct(in0 + in1)
    ensures forall i :: 0 <= i < |in0 + in1| ==> Sorted((in0 + in1)[i].entries)
  {
    var fs := in0 + in1;
    Inputs1AreDistinct(db.levels[level], db.levels[level + 1], in0, in1);
    InvLevels(db);
    hide Inv, ValidLevels, LevelsInRecencyOrder, NoOlderLeft, MeetingHull;
    forall i | 0 <= i < |fs|
      ensures fs[i] in db.levels[if i < |in0| then level else level + 1]
      ensures Sorted(fs[i].entries)
    {
      ChosenIsStored(db.levels[level], db.levels[level + 1], in0, in1, fs[i]);
      StoredIsSorted(db.levels, if i < |in0| then level else level + 1, fs[i]);
    }
    forall i, j | 0 <= i < j < |fs|
      ensures DistinctKeys(fs[i].entries, fs[j].entries)
    {
      StoredAreDistinct(db.levels, if i < |in0| then level else level + 1,
                        if j < |in0| then level else level + 1, fs[i], fs[j]);
    }
  }

  lemma InvLevels(db: Db)
    requires Inv(db)
    ensures ValidLevels(db.levels) && LevelsInRecencyOrder(db.levels)
  {
  }

  lemma StoredIsSorted(levels: Levels, l: nat, f: File)
    requires ValidLevels(levels) && l < |levels| && f in levels[l]
    ensures Sorted(f.entries)
  {
    assert ValidFiles(levels[l]);
  }

  lemma Inputs1AreDistinct(upper: seq<File>, lower: seq<File>, in0: seq<File>, in1: seq<File>)
    requires Chosen(upper, lower, in0, in1) && InFileOrder(lower)
    ensures Distinct(in1)
  {
    var lo, hi :| HullOf(in0, lo, hi) && in1 == Meeting(lower, Some(lo), Some(hi));
    LevelIsDistinct(lower);
    MeetingIsDistinct(lower, |lower|, Some(lo), Some(hi));
  }

  lemma CompactionIsInstallable(db: Db, level: nat, in0: seq<File>, in1: seq<File>, outputs: seq<File>)
    requires Inv(db) && level + 1 < NUM_LEVELS == |db.levels| && NumberedFrom(outputs, db.nextFile)
    ensures Installable(db.levels, CompactionEdit(level, in0, in1, outputs))
    ensures Numbers(FileSet(outputs)) !! Numbers(FileSet(db.levels[level + 1]))
  {
    InvNumbers(db);
    hide Inv;
    FreshNumbers(db.levels[level + 1], outputs, db.nextFile);
    EditIsInstallable(db.levels, level, in0, in1, outputs);
  }

  lemma CompactionIsStep(db: Db, level: nat, in0: seq<File>, in1: seq<File>, input: seq<Entry>, smallest: nat,
                         outputs: seq<File>, db': Db)
    requires Inv(db) && level + 1 < NUM_LEVELS == |db.levels|
    requires Chosen(db.levels[level], db.levels[level + 1], in0, in1)
    requires GoodInput(input) && EntrySet(input) == Contents(in0) + Contents(in1)
    requires smallest == OldestSnapshot(db)
    requires Joined(outputs) == Survivors(input, |input|, smallest, db.levels, level)
    requires ValidFiles(outputs) && SortedLevel(outputs) && NumberedFrom(outputs, db.nextFile)
    requires Numbers(FileSet(outputs)) !! Numbers(FileSet(db.levels[level + 1]))
    requires Installed(db.levels, CompactionEdit(level, in0, in1, outputs), db'.levels)
    requires db' == db.(levels := db'.levels, nextFile := db.nextFile + |outputs|)
    ensures Compacted(db, level, in0, in1, input, smallest, outputs, db')
    ensures Inv(db')
  {
    hide Inv, Chosen, Replaced, Installed, Sorted, UniqueKeys, SortedLevel, Survivors, ValidFiles, PairwiseApart,
      NumbersDiffer, NumberedFrom, Joined, Contents, Numbers;
    OldestIsSmallest(db);
    EditIsReplacement(db, level, in0, in1, outputs, db'.levels);
    OutputFacts(outputs, db.nextFile);
    InvNumbers(db);
    LaterNumbersAreNew(db.levels, db.nextFile, outputs);
    assert Compacted(db, level, in0, in1, input, smallest, outputs, db');
    CompactionKeepsInv(db, level, in0, in1, input, smallest, outputs, db');
  }

  lemma EditIsReplacement(db: Db, level: nat, in0: seq<File>, in1: seq<File>, outputs: seq<File>, levels': Levels)
    requires Inv(db) && level + 1 < NUM_LEVELS == |db.levels|
    requires Chosen(db.levels[level], db.levels[level + 1], in0, in1)
    requires Numbers(FileSet(outputs)) !! Numbers(FileSet(db.levels[level + 1]))
    requires Installed(db.levels, CompactionEdit(level, in0, in1, outputs), levels')
    ensures Replaced(db.levels, level, in0, in1, outputs, levels')
  {
    InvNumbers(db);
    hide Inv, Chosen, Replaced, Installed;
    forall g
      ensures (g in in0 ==> g in db.levels[level]) && (g in in1 ==> g in db.levels[level + 1])
    {
      ChosenIsStored(db.levels[level], db.levels[level + 1], in0, in1, g);
    }
    InstalledIsReplaced(db.levels, level, in0, in1, outputs, levels');
  }

  lemma OutputFacts(outputs: seq<File>, first: nat)
    requires SortedLevel(outputs) && NumberedFrom(outputs, first)
    ensures PairwiseApart(outputs) && NumbersDiffer(outputs)
    ensures forall f <- outputs :: first <= f.number < first + |outputs|
    ensures Contents(outputs) == EntrySet(Joined(outputs))
  {
    SortedIsApart(outputs);
    JoinedIs(outputs);
  }

  lemma OldestIsSmallest(db: Db)
    requires Inv(db)
    ensures OldestSnapshot(db) <= db.lastSequence && forall s <- db.snapshots :: OldestSnapshot(db) <= s
  {
    hide ValidLevels, RecencyOrder, NumbersBelow, Sorted, UniqueKeys, All;
    if db.snapshots != [] {
      assert db.snapshots[0] in db.snapshots;
      forall s | s in db.snapshots
        ensures db.snapshots[0] <= s
      {
        var i :| 0 <= i < |db.snapshots| && db.snapshots[i] == s;
      }
    }
  }

  /** No snapshot allows a higher floor. */
  lemma OldestIsFloor(db: Db)
    requires Inv(db)
    ensures IsFloor(db, OldestSnapshot(db))
  {
    OldestIsSmallest(db);
    hide Inv;
    if db.snapshots != [] {
      assert db.snapshots[0] in db.snapshots;
    }
  }

  lemma ThreeLayers(db: Db, user: UserKey, s: nat, inMem: Option<Entry>, inImm: Option<Entry>, inTables: Option<Entry>)
    requires Inv(db)
    requires IsLookup(EntrySet(db.mem), user, s, inMem)
    requires inMem.None? ==> IsLookup(Imm(db), user, s, inImm)
    requires inMem.None? && inImm.None? ==> IsLookup(Tables(db.levels), user, s, inTables)
    ensures IsLookup(All(db), user, s, if inMem.Some? then inMem else if inImm.Some? then inImm else inTables)
  {
    hide ValidLevels, LevelsInRecencyOrder, Sorted, NumbersBelow, UniqueKeys, Tables, EntrySet, IsLookup;
    if inMem.None? {
      LookupFallsThrough(Imm(db), Tables(db.levels), user, s, inImm, inTables);
    }
    var below := if inImm.Some? then inImm else inTables;
    NewerThanBoth(EntrySet(db.mem), Imm(db), Tables(db.levels));
    LookupFallsThrough(EntrySet(db.mem), Imm(db) + Tables(db.levels), user, s, inMem, below);
    assert All(db) == EntrySet(db.mem) + (Imm(db) + Tables(db.levels));
  }

  lemma NewerThanBoth(s: set<Entry>, t: set<Entry>, u: set<Entry>)
    requires Newer(s, t) && Newer(s, u)
    ensures Newer(s, t + u)
  {
  }

  lemma FlushedFileIsValid(db: Db, f: File)
    requires Inv(db) && db.imm.Some? && db.imm.value != [] && f == MakeFile(f.number, f.size, db.imm.value)
    ensures ValidFile(f)
  {
    hide ValidLevels, RecencyOrder, NumbersBelow, UniqueKeys, Tables;
    forall e | e in f.entries
      ensures e.key.sequence < MAX_SEQUENCE
    {
      assert e in All(db);
    }
  }

  lemma FlushIsInstallable(levels: Levels, l: nat, f: File)
    requires |levels| == NUM_LEVELS && l < NUM_LEVELS && NumbersBelow(levels, f.number)
    ensures Installable(levels, FileEdit({}, [(l, f)]))
  {
    var edit := FileEdit({}, [(l, f)]);
    forall k | 0 <= k < NUM_LEVELS
      ensures Numbers(AddedAt(edit, k)) !! Numbers(FileSet(levels[k]))
    {
      assert forall g :: g in AddedAt(edit, k) ==> g == f;
      assert forall g :: g in FileSet(levels[k]) ==> g.number < f.number;
    }
  }
}
