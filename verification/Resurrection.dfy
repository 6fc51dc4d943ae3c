/**
 A run from an empty database in which a compaction brings a deleted key back.  User key 2 comes to straddle
 two files of level 2, and the last compaction takes only the first as an input, because SetupOtherInputs
 runs the boundary search for inputs_[0] alone.
 */
module Resurrection {
  import opened Options
  import opened Keys
  import opened Files
  import opened Lsm
  import opened CompactionInputs
  import opened CompactionRules
  import opened Steps
  import opened Runs
  import opened DoCompaction
  import BlockBuilder
  import Coding

  // ---- what is written -----------------------------------------------------------------------------------

  /** The values of key 1, of key 2 and of key 1 rewritten, and the sizes of the tables in their order. */
  datatype Params = Params(one: seq<Byte>, two: seq<Byte>, newOne: seq<Byte>,
                           both: nat, marker: nat, first: nat, second: nat, upper: nat, output: nat)

  function One(p: Params): Entry { Entry(InternalKey(1.0, 1, Value), p.one) }
  function Two(p: Params): Entry { Entry(InternalKey(2.0, 2, Value), p.two) }
  const TWO_DELETED := Entry(InternalKey(2.0, 3, Deletion), [])
  function NewOne(p: Params): Entry { Entry(InternalKey(1.0, 4, Value), p.newOne) }

  function Table(number: nat, size: nat, entries: seq<Entry>): File
    requires entries != []
  {
    File(number, size, entries[0].key, entries[|entries| - 1].key, entries)
  }

  /** Both keys, as first flushed; the deletion of key 2. */
  function Both(p: Params): File { Table(3, p.both, [One(p), Two(p)]) }
  function Marker(p: Params): File { Table(5, p.marker, [TWO_DELETED]) }
  /** The first compaction keeps the deleted value for a snapshot, and cuts its output between the two. */
  function First(p: Params): File { Table(6, p.first, [One(p), TWO_DELETED]) }
  function Second(p: Params): File { Table(7, p.second, [Two(p)]) }
  /** Key 1 rewritten, and what the second compaction makes of it. */
  function Upper(p: Params): File { Table(9, p.upper, [NewOne(p)]) }
  function Output(p: Params): File { Table(10, p.output, [NewOne(p)]) }

  function Input1(p: Params): seq<Entry> { [One(p), TWO_DELETED, Two(p)] }
  function Input2(p: Params): seq<Entry> { [NewOne(p), One(p), TWO_DELETED] }

  /** Files in levels 1 and 2 only. */
  function TwoLevels(one: seq<File>, two: seq<File>): (levels: Levels)
    ensures |levels| == NUM_LEVELS
  {
    [[], one, two, [], [], [], []]
  }

  // ---- the run -------------------------------------------------------------------------------------------

  function Actions(p: Params): (r: seq<Action>)
    ensures |r| == 13
  {
    [Write([Put(1.0, p.one), Put(2.0, p.two)]),
     TakeSnapshot,
     SwitchMemTable,
     FlushMemTable(2, Both(p)),
     Write([Op.Delete(2.0)]),
     SwitchMemTable,
     FlushMemTable(1, Marker(p)),
     Compact(1, [Marker(p)], [Both(p)], Input1(p), 2, [First(p), Second(p)]),
     ReleaseSnapshot(0),
     Write([Put(1.0, p.newOne)]),
     SwitchMemTable,
     FlushMemTable(1, Upper(p)),
     Compact(1, [Upper(p)], [First(p)], Input2(p), 4, [Output(p)])]
  }

  function States(p: Params): (r: seq<Db>)
    ensures |r| == 14
  {
    [Db([], None, TwoLevels([], []), 0, 2, []),
     Db([One(p), Two(p)], None, TwoLevels([], []), 2, 2, []),
     Db([One(p), Two(p)], None, TwoLevels([], []), 2, 2, [2]),
     Db([], Some([One(p), Two(p)]), TwoLevels([], []), 2, 3, [2]),
     Db([], None, TwoLevels([], [Both(p)]), 2, 4, [2]),
     Db([TWO_DELETED], None, TwoLevels([], [Both(p)]), 3, 4, [2]),
     Db([], Some([TWO_DELETED]), TwoLevels([], [Both(p)]), 3, 5, [2]),
     Db([], None, TwoLevels([Marker(p)], [Both(p)]), 3, 6, [2]),
     Db([], None, TwoLevels([], [First(p), Second(p)]), 3, 8, [2]),
     Db([], None, TwoLevels([], [First(p), Second(p)]), 3, 8, []),
     Db([NewOne(p)], None, TwoLevels([], [First(p), Second(p)]), 4, 8, []),
     Db([], Some([NewOne(p)]), TwoLevels([], [First(p), Second(p)]), 4, 9, []),
     Db([], None, TwoLevels([Upper(p)], [First(p), Second(p)]), 4, 10, []),
     Db([], None, TwoLevels([], [Output(p), Second(p)]), 4, 11, [])]
  }

  // ---- files and levels ----------------------------------------------------------------------------------

  lemma FilesAreValid(p: Params)
    ensures ValidFile(Both(p)) && ValidFile(Marker(p)) && ValidFile(First(p)) && ValidFile(Second(p))
              && ValidFile(Upper(p)) && ValidFile(Output(p))
    ensures Apart(First(p), Second(p)) && Apart(Second(p), First(p)) && FileOrder(First(p), Second(p))
              && FileOrder(Output(p), Second(p))
  {
  }

  lemma OneByOne(one: seq<File>, two: seq<File>, l: nat)
    requires l < NUM_LEVELS
    ensures TwoLevels(one, two)[l] == if l == 1 then one else if l == 2 then two else []
  {
  }

  lemma InOrder(one: seq<File>, two: seq<File>)
    requires InFileOrder(one) && InFileOrder(two)
    ensures forall l :: 0 <= l < NUM_LEVELS ==> InFileOrder(TwoLevels(one, two)[l])
  {
    hide InFileOrder, TwoLevels;
    var none: seq<File> := [];
    assert InFileOrder(none) by {
      NothingInOrder();
    }
    forall l | 0 <= l < NUM_LEVELS
      ensures InFileOrder(TwoLevels(one, two)[l])
    {
      OneByOne(one, two, l);
    }
  }

  lemma NothingInOrder()
    ensures InFileOrder([])
  {
  }

  lemma OneFileInOrder(f: File)
    ensures InFileOrder([f])
  {
  }

  /** A file is added to one of the two levels. */
  lemma Adds(one: seq<File>, two: seq<File>, l: nat, f: File, one': seq<File>, two': seq<File>)
    requires InFileOrder(one') && InFileOrder(two') && (l == 1 || l == 2)
    requires one' == (if l == 1 then one + [f] else one) && two' == if l == 2 then two + [f] else two
    requires ClearLevel(one, f) && (l == 2 ==> ClearLevel(two, f))
    ensures FileAdded(TwoLevels(one, two), l, f, TwoLevels(one', two')) && ClearDownTo(TwoLevels(one, two), l, f)
  {
    hide InFileOrder, TwoLevels;
    InOrder(one', two');
    forall k | 0 <= k < NUM_LEVELS
      ensures forall g :: g in TwoLevels(one', two')[k] <==> g in TwoLevels(one, two)[k] || (k == l && g == f)
      ensures k <= l ==> ClearLevel(TwoLevels(one, two)[k], f)
    {
      OneByOne(one, two, k);
      OneByOne(one', two', k);
    }
  }

  /** Inputs of levels 1 and 2 are replaced by outputs in level 2. */
  lemma Replaces(in0: File, in1: File, rest: seq<File>, outputs: seq<File>)
    requires InFileOrder(outputs + rest) && in1 !in rest
    ensures Replaced(TwoLevels([in0], [in1] + rest), 1, [in0], [in1], outputs, TwoLevels([], outputs + rest))
  {
    hide InFileOrder, TwoLevels;
    NothingInOrder();
    InOrder([], outputs + rest);
    forall l | 0 <= l < NUM_LEVELS
      ensures forall f :: f in TwoLevels([], outputs + rest)[l]
                          <==> (f in TwoLevels([in0], [in1] + rest)[l] && IsKept(1, [in0], [in1], l, f))
                               || (l == 2 && f in outputs)
    {
      OneByOne([in0], [in1] + rest, l);
      OneByOne([], outputs + rest, l);
    }
  }

  /** The file of level 1 goes together with the first file of level 2 alone. */
  lemma ChoosesFirst(in0: File, in1: File, rest: seq<File>)
    requires RangeMeets(in1, Some(in0.smallest.user), Some(in0.largest.user))
    requires |rest| <= 1 && (rest != [] ==> !RangeMeets(rest[0], Some(in0.smallest.user), Some(in0.largest.user)))
    ensures Chosen([in0], [in1] + rest, [in0], [in1])
  {
    var lower, lo, hi := [in1] + rest, in0.smallest.user, in0.largest.user;
    assert in0 in [in0] && HullOf([in0], lo, hi);
    assert MeetingUpTo(lower, 0, Some(lo), Some(hi)) == [];
    assert MeetingUpTo(lower, 1, Some(lo), Some(hi)) == [] + [in1];
    assert Meeting(lower, Some(lo), Some(hi)) == [in1];
  }

  // ---- the steps -----------------------------------------------------------------------------------------

  lemma OneApplied(op: Op, first: nat)
    ensures Applied([], [op], 1, first) == [EntryOf(op, first)]
  {
    assert Applied([], [op], 0, first) == [];
  }

  lemma BothApplied(p: Params)
    ensures Applied([], [Put(1.0, p.one), Put(2.0, p.two)], 2, 1) == [One(p), Two(p)]
  {
    var ops := [Put(1.0, p.one), Put(2.0, p.two)];
    assert Applied([], ops, 0, 1) == [];
    assert Applied([], ops, 1, 1) == [One(p)];
    assert LowerBound([One(p)], Two(p).key) == 1;
    assert [One(p)][..1] + [Two(p)] + [One(p)][1..] == [One(p), Two(p)];
  }

  lemma Writes(p: Params)
    ensures Next(States(p)[0], Actions(p)[0], States(p)[1]) && Next(States(p)[4], Actions(p)[4], States(p)[5])
    ensures Next(States(p)[9], Actions(p)[9], States(p)[10])
  {
    hide Applied, TwoLevels;
    BothApplied(p);
    OneApplied(Op.Delete(2.0), 3);
    OneApplied(Put(1.0, p.newOne), 4);
  }

  lemma SnapshotsAndSwitches(p: Params)
    ensures Next(States(p)[1], Actions(p)[1], States(p)[2]) && Next(States(p)[8], Actions(p)[8], States(p)[9])
    ensures Next(States(p)[2], Actions(p)[2], States(p)[3]) && Next(States(p)[5], Actions(p)[5], States(p)[6])
    ensures Next(States(p)[10], Actions(p)[10], States(p)[11])
  {
    hide TwoLevels;
  }

  /** A table is flushed to one of the two levels. */
  lemma FlushStep(db: Db, l: nat, f: File, db': Db)
    requires db.imm == Some(f.entries) && ValidFile(f) && f.number == db.nextFile
    requires ClearDownTo(db.levels, l, f) && FileAdded(db.levels, l, f, db'.levels)
    requires db' == db.(imm := None, levels := db'.levels, nextFile := db.nextFile + 1)
    ensures Next(db, FlushMemTable(l, f), db')
  {
  }

  lemma FirstInOrder(p: Params)
    ensures InFileOrder([First(p), Second(p)])
    ensures ClearLevel([], Both(p)) && ClearLevel([], Marker(p)) && ClearLevel([], Upper(p))
  {
  }

  lemma Flushes(p: Params)
    ensures Next(States(p)[3], Actions(p)[3], States(p)[4]) && Next(States(p)[6], Actions(p)[6], States(p)[7])
    ensures Next(States(p)[11], Actions(p)[11], States(p)[12])
  {
    hide TwoLevels, ValidFile, FileAdded, ClearDownTo, ClearLevel, InFileOrder, Apart, FileOrder, Next;
    FilesAreValid(p);
    OneFileInOrder(Both(p));
    OneFileInOrder(Marker(p));
    OneFileInOrder(Upper(p));
    NothingInOrder();
    FirstInOrder(p);
    Adds([], [], 2, Both(p), [], [Both(p)]);
    FlushStep(States(p)[3], 2, Both(p), States(p)[4]);
    Adds([], [Both(p)], 1, Marker(p), [Marker(p)], [Both(p)]);
    FlushStep(States(p)[6], 1, Marker(p), States(p)[7]);
    Adds([], [First(p), Second(p)], 1, Upper(p), [Upper(p)], [First(p), Second(p)]);
    FlushStep(States(p)[11], 1, Upper(p), States(p)[12]);
  }

  lemma MeetsOne(f: File, lo: UserKey, hi: UserKey)
    ensures Meets([f], lo, hi) <==> RangeMeets(f, Some(lo), Some(hi))
    ensures !Meets([], lo, hi)
  {
    assert f in [f];
  }

  lemma Overlap(p: Params, fs: seq<File>, lo: UserKey, hi: UserKey)
    requires fs == [] || fs == [Both(p)] || (fs == [First(p), Second(p)] && hi == 1.0)
    ensures TotalFileSize(Meeting(fs, Some(lo), Some(hi))) <= if fs == [Both(p)] then p.both else p.first
  {
    assert MeetingUpTo(fs, 0, Some(lo), Some(hi)) == [];
    if fs == [Both(p)] {
      assert Meeting(fs, Some(lo), Some(hi)) <= [Both(p)];
    } else if fs != [] {
      assert MeetingUpTo(fs, 1, Some(lo), Some(hi)) <= [First(p)];
      assert !RangeMeets(Second(p), Some(lo), Some(hi));
      assert Meeting(fs, Some(lo), Some(hi)) <= [First(p)];
    }
  }

  lemma PickedTwo(p: Params, maxOverlap: nat)
    ensures IsPicked(TwoLevels([], []), 1.0, 2.0, maxOverlap, 2)
  {
    hide Meets, RangeMeets;
    MeetsOne(Both(p), 1.0, 2.0);
    assert Meeting([], Some(1.0), Some(2.0)) == [];
  }

  lemma PickedOne(p: Params, two: seq<File>, lo: UserKey, hi: UserKey, maxOverlap: nat)
    requires p.both <= maxOverlap && p.first <= maxOverlap
    requires (two == [Both(p)] || (two == [First(p), Second(p)] && hi == 1.0)) && Meets(two, lo, hi)
    ensures IsPicked(TwoLevels([], two), lo, hi, maxOverlap, 1)
  {
    hide Meeting, Meets, RangeMeets, TotalFileSize;
    Overlap(p, two, lo, hi);
    MeetsOne(Both(p), lo, hi);
  }

  ghost predicate FlushIsPicked(db: Db, lo: UserKey, hi: UserKey, maxOverlap: nat, level: nat) {
    |db.levels| == NUM_LEVELS && IsPicked(db.levels, lo, hi, maxOverlap, level)
  }

  /** Each table goes to the level that PickLevelForMemTableOutput picks. */
  lemma LevelsArePicked(p: Params, maxOverlap: nat)
    requires p.both <= maxOverlap && p.first <= maxOverlap
    ensures FlushIsPicked(States(p)[3], 1.0, 2.0, maxOverlap, 2)
    ensures FlushIsPicked(States(p)[6], 2.0, 2.0, maxOverlap, 1)
    ensures FlushIsPicked(States(p)[11], 1.0, 1.0, maxOverlap, 1)
  {
    hide IsPicked, TwoLevels;
    PickedTwo(p, maxOverlap);
    MeetsOne(Both(p), 2.0, 2.0);
    PickedOne(p, [Both(p)], 2.0, 2.0, maxOverlap);
    assert First(p) in [First(p), Second(p)] && RangeMeets(First(p), Some(1.0), Some(1.0));
    PickedOne(p, [First(p), Second(p)], 1.0, 1.0, maxOverlap);
  }

  lemma TwoTables(f: File, g: File)
    ensures Contents([f]) == EntrySet(f.entries) && Contents([f, g]) == EntrySet(f.entries) + EntrySet(g.entries)
  {
    ContentsCons(f, [g]);
    ContentsCons(g, []);
    ContentsCons(f, []);
    assert Contents([]) == {};
    assert [f] + [g] == [f, g] && [g] + [] == [g] && [f] + [] == [f];
  }

  /** Nothing is dropped while the snapshot is held. */
  lemma FirstSurvivors(p: Params, levels: Levels)
    ensures Survivors(Input1(p), 3, 2, levels, 1) == Input1(p)
  {
    assert forall i: nat :: i < 3 ==> !Hidden(Input1(p), i, 2);
    assert Survivors(Input1(p), 0, 2, levels, 1) == [];
    assert Survivors(Input1(p), 1, 2, levels, 1) == [One(p)];
    assert Survivors(Input1(p), 2, 2, levels, 1) == [One(p), TWO_DELETED];
  }

  lemma FirstOutputs(p: Params)
    ensures ValidFiles([First(p), Second(p)]) && PairwiseApart([First(p), Second(p)])
              && NumbersDiffer([First(p), Second(p)])
    ensures InFileOrder([First(p), Second(p)]) && Contents([First(p), Second(p)]) == EntrySet(Input1(p))
  {
    hide ValidFile, Apart, FileOrder, Contents;
    FilesAreValid(p);
    TwoTables(First(p), Second(p));
  }

  lemma FirstInput(p: Params)
    ensures Sorted(Input1(p)) && EntrySet(Input1(p)) == Contents([Marker(p)]) + Contents([Both(p)])
  {
    hide Contents;
    TwoTables(Marker(p), Marker(p));
    TwoTables(Both(p), Both(p));
  }

  lemma NewInTwoLevels(one: seq<File>, two: seq<File>, outputs: seq<File>)
    requires forall f, g :: f in outputs && (g in one || g in two) ==> f.number != g.number
    ensures NewNumbers(TwoLevels(one, two), outputs)
  {
    hide TwoLevels;
    forall f, l, g | f in outputs && 0 <= l < NUM_LEVELS && g in TwoLevels(one, two)[l]
      ensures f.number != g.number
    {
      OneByOne(one, two, l);
    }
  }

  lemma FirstCompaction(p: Params)
    ensures Next(States(p)[7], Actions(p)[7], States(p)[8])
  {
    hide TwoLevels, ValidFiles, PairwiseApart, NumbersDiffer, InFileOrder, Replaced, Chosen, Contents, EntrySet,
         Survivors, Sorted;
    FirstOutputs(p);
    FirstInput(p);
    ChoosesFirst(Marker(p), Both(p), []);
    assert [Both(p)] + [] == [Both(p)] && [First(p), Second(p)] + [] == [First(p), Second(p)];
    Replaces(Marker(p), Both(p), [], [First(p), Second(p)]);
    FirstSurvivors(p, States(p)[7].levels);
    NewInTwoLevels([Marker(p)], [Both(p)], [First(p), Second(p)]);
    OneByOne([Marker(p)], [Both(p)], 1);
    OneByOne([Marker(p)], [Both(p)], 2);
  }

  lemma SecondSurvivors(p: Params, levels: Levels)
    requires levels == States(p)[12].levels
    ensures Survivors(Input2(p), 3, 4, levels, 1) == [NewOne(p)]
    ensures !Hidden(Input2(p), 2, 4) && Obsolete(Input2(p)[2], 4, levels, 1)
  {
    assert IsBase(levels, 1, 2.0);
    assert Hidden(Input2(p), 1, 4) by {
      assert Input2(p)[0].key.user == Input2(p)[1].key.user;
    }
    assert !Hidden(Input2(p), 0, 4);
    assert Survivors(Input2(p), 0, 4, levels, 1) == [];
    assert Survivors(Input2(p), 1, 4, levels, 1) == [NewOne(p)];
    assert Survivors(Input2(p), 2, 4, levels, 1) == [NewOne(p)];
  }

  lemma SecondOutputs(p: Params)
    ensures ValidFiles([Output(p)]) && PairwiseApart([Output(p)]) && NumbersDiffer([Output(p)])
    ensures InFileOrder([Output(p), Second(p)]) && Contents([Output(p)]) == EntrySet([NewOne(p)])
  {
    hide ValidFile, Apart, FileOrder, Contents;
    FilesAreValid(p);
    TwoTables(Output(p), Output(p));
  }

  lemma SecondInput(p: Params)
    ensures Sorted(Input2(p)) && EntrySet(Input2(p)) == Contents([Upper(p)]) + Contents([First(p)])
  {
    hide Contents;
    TwoTables(Upper(p), Upper(p));
    TwoTables(First(p), First(p));
  }

  lemma SecondCompaction(p: Params)
    ensures Next(States(p)[12], Actions(p)[12], States(p)[13])
  {
    hide TwoLevels, ValidFiles, PairwiseApart, NumbersDiffer, InFileOrder, Replaced, Chosen, Contents, EntrySet,
         Survivors, Sorted;
    SecondOutputs(p);
    SecondInput(p);
    ChoosesFirst(Upper(p), First(p), [Second(p)]);
    assert [First(p)] + [Second(p)] == [First(p), Second(p)] && [Output(p)] + [Second(p)] == [Output(p), Second(p)];
    Replaces(Upper(p), First(p), [Second(p)], [Output(p)]);
    SecondSurvivors(p, States(p)[12].levels);
    NewInTwoLevels([Upper(p)], [First(p), Second(p)], [Output(p)]);
    OneByOne([Upper(p)], [First(p), Second(p)], 1);
    OneByOne([Upper(p)], [First(p), Second(p)], 2);
  }

  lemma EmptyDatabase(p: Params)
    ensures Inv(States(p)[0]) && All(States(p)[0]) == {}
  {
    hide TwoLevels, Inv, All;
    forall l | 0 <= l < NUM_LEVELS
      ensures TwoLevels([], [])[l] == []
    {
      OneByOne([], [], l);
    }
    NothingStored(States(p)[0]);
  }

  lemma IsExecution(p: Params)
    ensures Execution(States(p), Actions(p))
  {
    hide Inv, Next, TwoLevels;
    EmptyDatabase(p);
    Writes(p);
    SnapshotsAndSwitches(p);
    Flushes(p);
    FirstCompaction(p);
    SecondCompaction(p);
    assert |States(p)| == 14 && |Actions(p)| == 13;
    forall i: nat | i < |Actions(p)|
      ensures Next(States(p)[i], Actions(p)[i], States(p)[i + 1])
    {
      assert i == 0 || i == 1 || i == 2 || i == 3 || i == 4 || i == 5 || i == 6 || i == 7 || i == 8 || i == 9 || i == 10
             || i == 11
          || i == 12;
    }
  }

  // ---- where the output is cut ---------------------------------------------------------------------------

  lemma {:induction false} VarintGrows(n: nat)
    ensures |Coding.Varint(n)| <= |Coding.Varint(n + 1)| <= |Coding.Varint(n)| + 1
  {
    if n >= 127 && n % 128 == 127 {
      VarintGrows(n / 128);
    }
  }

  /** BlockBuilder::CurrentSizeEstimate for a block whose entries take `n` bytes, with its one restart point. */
  function SizeEstimate(n: nat): nat {
    n + 4 + 4
  }

  /**
   Whatever the limits on blocks and files, if a block is as large as a file may get: there is a value of
   key 1 that leaves the first data block of the output just short of its limit, so that nothing is written,
   while the deletion marker of key 2 fills it.  Then TableBuilder flushes the block, the file has reached its
   limit, and DoCompactionWork cuts the output before the value of key 2.
   */
  lemma CutIsMade(blockSize: nat, maxFileSize: nat, one: seq<Byte>, two: seq<Byte>, shared: nat)
    returns (value: seq<Byte>)
    requires maxFileSize <= blockSize && shared <= |two|
    requires SizeEstimate(|BlockBuilder.Encoded(0, BlockBuilder.Pair(one, []))|) < blockSize
    ensures var before := |BlockBuilder.Encoded(0, BlockBuilder.Pair(one, value))|;
            var marker := |BlockBuilder.Encoded(shared, BlockBuilder.Pair(two, []))|;
            SizeEstimate(before) < blockSize && maxFileSize <= blockSize <= SizeEstimate(before + marker)
  {
    hide Coding.Varint;
    value := [];
    while SizeEstimate(|BlockBuilder.Encoded(0, BlockBuilder.Pair(one, value + [0]))|) < blockSize
      invariant SizeEstimate(|BlockBuilder.Encoded(0, BlockBuilder.Pair(one, value))|) < blockSize
      decreases blockSize - |value|
    {
      value := value + [0];
    }
    VarintGrows(|value|);
    BlockBuilder.EncodedIsLong(shared, BlockBuilder.Pair(two, []));
  }

  // ---- what is read --------------------------------------------------------------------------------------

  lemma TablesOf(one: seq<File>, two: seq<File>)
    ensures Tables(TwoLevels(one, two)) == Contents(one) + Contents(two)
  {
    forall e
      ensures e in Tables(TwoLevels(one, two)) <==> e in Contents(one) + Contents(two)
    {
      if e in Contents(one) {
        assert TwoLevels(one, two)[1] == one;
      }
      if e in Contents(two) {
        assert TwoLevels(one, two)[2] == two;
      }
      if e in Tables(TwoLevels(one, two)) {
        var l, f :| 0 <= l < NUM_LEVELS && f in TwoLevels(one, two)[l] && e in f.entries;
        OneByOne(one, two, l);
      }
    }
  }

  lemma LastEntries(p: Params)
    ensures All(States(p)[12]) == {NewOne(p), One(p), TWO_DELETED, Two(p)}
    ensures All(States(p)[13]) == {NewOne(p), Two(p)}
  {
    hide TwoLevels, Contents, Tables;
    TablesOf([Upper(p)], [First(p), Second(p)]);
    TablesOf([], [Output(p), Second(p)]);
    TwoTables(Upper(p), Upper(p));
    TwoTables(First(p), Second(p));
    TwoTables(Output(p), Second(p));
    assert Contents([]) == {} by {
      NoContents();
    }
    var none: seq<Entry> := [];
    assert EntrySet(none) == {};
  }

  /** Key 2 reads as deleted before the last compaction, and as its old value after it. */
  lemma LastReads(p: Params)
    ensures View(All(States(p)[12]), 2.0, 4) == None && View(All(States(p)[13]), 2.0, 4) == Some(p.two)
  {
    hide View, All;
    LastEntries(p);
    var before, after := {NewOne(p), One(p), TWO_DELETED, Two(p)}, {NewOne(p), Two(p)};
    assert UniqueKeys(before) && UniqueKeys(after);
    assert Newest(before, 2.0, 4, TWO_DELETED) && Newest(after, 2.0, 4, Two(p));
    ViewOfNewest(before, 2.0, 4, TWO_DELETED);
    ViewOfNewest(after, 2.0, 4, Two(p));
  }

  lemma FirstIsHarmless(p: Params)
    ensures Harmless(States(p)[7], Actions(p)[7])
  {
    hide TwoLevels, Others, LeftBelow, IsBase, Newest;
    assert forall i :: 0 <= i < 3 ==> !Obsolete(Input1(p)[i], 2, States(p)[7].levels, 1);
  }

  lemma LastIsNotHarmless(p: Params)
    ensures !Harmless(States(p)[12], Actions(p)[12])
  {
    hide Inv, Next, View, All, Harmless, TwoLevels;
    IsExecution(p);
    RunKeepsInv(States(p), Actions(p), 12);
    LastReads(p);
    assert !ReadsAgree(All(States(p)[13]), All(States(p)[12]), 2.0, 4);
    assert !KeepsReads(States(p)[12], 4, States(p)[13]);
    StepIsFaithfulIff(States(p)[12], Actions(p)[12], States(p)[13]);
  }

  /**
   The run is one that the code can take: every table goes where PickLevelForMemTableOutput puts it, the
   inputs are those that SetupOtherInputs chooses, and by CutIsMade there are values for which the output is
   cut where it is cut here.  Before the last compaction key 2 reads as deleted, after
   it as its old value, at the very same sequence number.
   */
  lemma DeletedKeyComesBack(p: Params, maxOverlap: nat)
    requires p.both <= maxOverlap && p.first <= maxOverlap
    ensures Execution(States(p), Actions(p)) && All(States(p)[0]) == {}
    ensures FlushIsPicked(States(p)[3], 1.0, 2.0, maxOverlap, 2)
    ensures FlushIsPicked(States(p)[6], 2.0, 2.0, maxOverlap, 1)
    ensures FlushIsPicked(States(p)[11], 1.0, 1.0, maxOverlap, 1)
    ensures States(p)[12].lastSequence == States(p)[13].lastSequence == 4
    ensures View(All(States(p)[12]), 2.0, 4) == None && View(All(States(p)[13]), 2.0, 4) == Some(p.two)
    ensures forall i: nat :: i < |Actions(p)| ==> (HarmlessAt(States(p), Actions(p), i) <==> i != 12)
  {
    hide Execution, Inv, View, FlushIsPicked, All, Harmless, TwoLevels;
    IsExecution(p);
    EmptyDatabase(p);
    LevelsArePicked(p, maxOverlap);
    LastReads(p);
    OnlyLastIsNotHarmless(p);
  }

  lemma OnlyLastIsNotHarmless(p: Params)
    ensures forall i: nat :: i < |Actions(p)| ==> (HarmlessAt(States(p), Actions(p), i) <==> i != 12)
  {
    hide Harmless, TwoLevels;
    FirstIsHarmless(p);
    LastIsNotHarmless(p);
    forall i: nat | i < |Actions(p)| && i != 7 && i != 12
      ensures HarmlessAt(States(p), Actions(p), i)
    {
      OnlyTwoCompact(p, i);
    }
  }

  lemma OnlyTwoCompact(p: Params, i: nat)
    requires i < |Actions(p)| && i != 7 && i != 12
    ensures Harmless(States(p)[i], Actions(p)[i])
  {
    hide TwoLevels, SafeToDrop;
    assert i == 0 || i == 1 || i == 2 || i == 3 || i == 4 || i == 5 || i == 6 || i == 8 || i == 9 || i == 10 || i == 11;
  }
}
