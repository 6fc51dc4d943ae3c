/**
 A manual compaction with a gap between its inputs, and a flush into the gap while it runs
 (db/db_impl.cc:908-917): the flushed key is stored and yet no read finds it.
 */
module GapFlush {
  import opened Options
  import opened Keys
  import opened Files
  import opened Lsm
  import opened CompactionInputs
  import opened CompactionRules
  import opened Steps
  import opened Runs
  import opened DoCompaction
  import opened Lookup
  import opened Resurrection

  // ---- the database --------------------------------------------------------------------------------------

  function Stored(user: UserKey, sequence: nat): Entry {
    Entry(InternalKey(user, sequence, Value), [])
  }

  /** Two tables in level 2, two more that these kept in level 1, and the memtable that is flushed last. */
  function OneAndTwo(): File { Table(3, 1, [Stored(1.0, 1), Stored(2.0, 2)]) }
  function NineAndTen(): File { Table(5, 1, [Stored(9.0, 3), Stored(10.0, 4)]) }
  function OneAndThree(): File { Table(7, 1, [Stored(1.0, 5), Stored(3.0, 6)]) }
  function EightAndTen(): File { Table(9, 1, [Stored(8.0, 7), Stored(10.0, 8)]) }
  function Five(value: seq<Byte>): Entry { Entry(InternalKey(5.0, 9, Value), value) }
  function Late(value: seq<Byte>): File { Table(12, 1, [Five(value)]) }

  function In0(): seq<File> { [OneAndThree(), EightAndTen()] }
  function In1(): seq<File> { [OneAndTwo(), NineAndTen()] }

  /** Number 11 is taken by the compaction's output before 12 goes to the flush. */
  function Start(value: seq<Byte>): Db {
    Db([], Some([Five(value)]), TwoLevels(In0(), In1()), 9, 11, [])
  }

  function Midway(value: seq<Byte>): Db {
    Db([], None, TwoLevels(In0(), [OneAndTwo(), Late(value), NineAndTen()]), 9, 13, [])
  }

  /** What the compaction reads, and the one table it makes of it. */
  function Input(): seq<Entry> {
    [Stored(1.0, 5), Stored(1.0, 1), Stored(2.0, 2), Stored(3.0, 6), Stored(8.0, 7), Stored(9.0, 3), Stored(10.0, 8),
     Stored(10.0, 4)]
  }
  function Kept(): seq<Entry> {
    [Stored(1.0, 5), Stored(2.0, 2), Stored(3.0, 6), Stored(8.0, 7), Stored(9.0, 3), Stored(10.0, 8)]
  }
  function Whole(): File { Table(11, 1, Kept()) }

  function Installed(value: seq<Byte>): Db {
    Db([], None, TwoLevels([], [Whole(), Late(value)]), 9, 13, [])
  }

  // ---- the state is a good one ---------------------------------------------------------------------------

  lemma TablesAreValid(value: seq<Byte>)
    ensures ValidFile(OneAndTwo()) && ValidFile(NineAndTen()) && ValidFile(OneAndThree()) && ValidFile(EightAndTen())
    ensures ValidFile(Late(value))
  {
  }

  lemma WholeIsValid()
    ensures ValidFile(Whole())
  {
  }

  lemma TwoInOrder(f: File, g: File)
    requires Before(f.largest, g.smallest) && Before(f.smallest, g.smallest) && f.number != g.number
    ensures InFileOrder([f, g]) && PairwiseApart([f, g]) && NumbersDiffer([f, g])
  {
  }

  function Numbered(n: nat): File {
    if n == 3 then OneAndTwo() else if n == 5 then NineAndTen() else if n == 7 then OneAndThree() else EightAndTen()
  }

  lemma WhatIsStored(l: nat, f: File)
    requires l < NUM_LEVELS && f in TwoLevels(In0(), In1())[l]
    ensures f == Numbered(f.number) && f.number < 11 && l == if f.number < 6 then 2 else 1
  {
    hide TwoLevels;
    OneByOne(In0(), In1(), l);
  }

  lemma NumbersAreUnique()
    ensures NumbersUnique(TwoLevels(In0(), In1())) && NumbersBelow(TwoLevels(In0(), In1()), 11)
  {
    hide TwoLevels, Numbered, In0, In1;
    var levels := TwoLevels(In0(), In1());
    forall l, f: File | 0 <= l < NUM_LEVELS && f in levels[l]
      ensures f == Numbered(f.number) && f.number < 11 && l == if f.number < 6 then 2 else 1
    {
      WhatIsStored(l, f);
    }
  }

  lemma LevelsAreValid()
    ensures ValidLevels(TwoLevels(In0(), In1())) && NumbersBelow(TwoLevels(In0(), In1()), 11)
  {
    hide TwoLevels, ValidFile, InFileOrder, PairwiseApart, NumbersUnique, NumbersBelow;
    TablesAreValid([]);
    AreInOrder();
    InOrder(In0(), In1());
    NumbersAreUnique();
    NoneApart();
    forall l | 0 <= l < NUM_LEVELS
      ensures ValidFiles(TwoLevels(In0(), In1())[l]) && PairwiseApart(TwoLevels(In0(), In1())[l])
    {
      OneByOne(In0(), In1(), l);
    }
  }

  lemma NoneApart()
    ensures PairwiseApart([])
  {
  }

  lemma AreInOrder()
    ensures InFileOrder(In0()) && PairwiseApart(In0()) && InFileOrder(In1()) && PairwiseApart(In1())
  {
    TwoInOrder(OneAndThree(), EightAndTen());
    TwoInOrder(OneAndTwo(), NineAndTen());
  }

  lemma ContentsAre()
    ensures Contents(In0()) == {Stored(1.0, 5), Stored(3.0, 6), Stored(8.0, 7), Stored(10.0, 8)}
    ensures Contents(In1()) == {Stored(1.0, 1), Stored(2.0, 2), Stored(9.0, 3), Stored(10.0, 4)}
  {
    hide Contents;
    TwoTables(OneAndThree(), EightAndTen());
    TwoTables(OneAndTwo(), NineAndTen());
  }

  lemma UpperIsNewer(f: File, g: File)
    requires f in In0() && g in In1()
    ensures FileNewer(f, g)
  {
  }

  lemma LevelsInOrder()
    ensures LevelsInRecencyOrder(TwoLevels(In0(), In1()))
  {
    hide TwoLevels, FileNewer, In0, In1;
    var levels := TwoLevels(In0(), In1());
    forall k, l, f, g | 0 <= k < l < NUM_LEVELS && f in levels[k] && g in levels[l]
      ensures FileNewer(f, g)
    {
      OneByOne(In0(), In1(), k);
      OneByOne(In0(), In1(), l);
      UpperIsNewer(f, g);
    }
    OneByOne(In0(), In1(), 0);
  }

  lemma AllEntries(value: seq<Byte>)
    ensures EntrySet(Start(value).mem) == {} && Imm(Start(value)) == {Five(value)}
    ensures Tables(Start(value).levels) == Contents(In0()) + Contents(In1())
  {
    hide TwoLevels, Contents, Tables;
    TablesOf(In0(), In1());
    var imm := [Five(value)];
    assert EntrySet(imm) == {Five(value)};
    var none: seq<Entry> := [];
    assert EntrySet(none) == {};
  }

  /** Every sequence number is used once. */
  lemma EntriesAreUnique(value: seq<Byte>)
    ensures UniqueKeys(All(Start(value))) && forall e <- All(Start(value)) :: e.key.sequence <= 9
    ensures Five(value) in All(Start(value))
  {
    hide Contents, Tables, Start;
    AllEntries(value);
    ContentsAre();
    var all := All(Start(value));
    assert forall d, e :: d in all && e in all && d.key.sequence == e.key.sequence ==> d == e;
  }

  lemma EntriesInOrder(value: seq<Byte>)
    ensures RecencyOrder(Start(value))
  {
    hide Contents, Tables, LevelsInRecencyOrder;
    AllEntries(value);
    ContentsAre();
    LevelsInOrder();
  }

  lemma StartIsGood(value: seq<Byte>)
    ensures Inv(Start(value))
  {
    hide TwoLevels, ValidLevels, NumbersBelow, RecencyOrder, UniqueKeys, All;
    LevelsAreValid();
    EntriesAreUnique(value);
    EntriesInOrder(value);
  }

  // ---- the choices ---------------------------------------------------------------------------------------

  /** CompactRange over everything takes both files of level 1. */
  lemma RangeIsTaken(limit: nat)
    requires 1 < limit
    ensures CutAt(Meeting(In0(), None, None), In0(), limit)
  {
    var a, b := OneAndThree(), EightAndTen();
    assert MeetingUpTo(In0(), 0, None, None) == [] && MeetingUpTo(In0(), 1, None, None) == [a];
    assert Meeting(In0(), None, None) == In0();
    assert TotalFileSize(In0()[..1]) == 1 by {
      assert In0()[..1] == [a];
    }
  }

  lemma HullIs()
    ensures HullOf(In0(), 1.0, 10.0) && Distinct(In0())
  {
    assert OneAndThree() in In0() && EightAndTen() in In0();
  }

  lemma BothMeet()
    ensures Meeting(In1(), Some(1.0), Some(10.0)) == In1()
  {
    assert MeetingUpTo(In1(), 0, Some(1.0), Some(10.0)) == [];
    assert MeetingUpTo(In1(), 1, Some(1.0), Some(10.0)) == [OneAndTwo()];
  }

  /** SetupOtherInputs takes both of level 2. */
  lemma InputsAreChosen()
    ensures Chosen(In0(), In1(), In0(), In1())
  {
    hide HullOf, Meeting, Distinct;
    HullIs();
    BothMeet();
  }

  /** The table of key 5 meets nothing and goes to level 2. */
  lemma LateIsPicked(maxOverlap: nat)
    ensures IsPicked(TwoLevels(In0(), In1()), 5.0, 5.0, maxOverlap, 2)
  {
    assert MeetingUpTo(In1(), 0, Some(5.0), Some(5.0)) == [] && MeetingUpTo(In1(), 1, Some(5.0), Some(5.0)) == [];
    assert Meeting(In1(), Some(5.0), Some(5.0)) == [] && Meeting([], Some(5.0), Some(5.0)) == [];
  }

  lemma LateIsFlushed(value: seq<Byte>)
    ensures Next(Start(value), FlushMemTable(2, Late(value)), Midway(value))
  {
    hide TwoLevels, ValidFile, InFileOrder, Before;
    TablesAreValid(value);
    AreInOrder();
    ThreeInOrder(value);
    var one, two, two' := In0(), In1(), [OneAndTwo(), Late(value), NineAndTen()];
    InOrder(one, two');
    var levels, levels' := TwoLevels(one, two), TwoLevels(one, two');
    forall k | 0 <= k < NUM_LEVELS
      ensures forall g :: g in levels'[k] <==> g in levels[k] || (k == 2 && g == Late(value))
      ensures ClearLevel(levels[k], Late(value))
    {
      OneByOne(one, two, k);
      OneByOne(one, two', k);
    }
  }

  lemma ThreeInOrder(value: seq<Byte>)
    ensures InFileOrder([OneAndTwo(), Late(value), NineAndTen()])
  {
  }

  // ---- the compaction ------------------------------------------------------------------------------------

  lemma SomeAreHidden(i: nat)
    requires i < 8
    ensures Hidden(Input(), i, 9) <==> i == 1 || i == 7
  {
    assert Input()[0].key.user == Input()[1].key.user && Input()[6].key.user == Input()[7].key.user;
  }

  lemma KeptAre(levels: Levels, n: nat)
    requires n <= 8
    ensures |Survivors(Input(), n, 9, levels, 1)| == if n == 0 then 0 else if n == 1 then 1 else if n < 8 then n - 1
              else 6
    ensures Survivors(Input(), n, 9, levels, 1) <= Kept()
  {
    hide Hidden;
    if n > 0 {
      KeptAre(levels, n - 1);
      SomeAreHidden(n - 1);
    }
  }

  lemma InputIs(levels: Levels)
    ensures Sorted(Input()) && EntrySet(Input()) == Contents(In0()) + Contents(In1())
    ensures Survivors(Input(), 8, 9, levels, 1) == Kept()
  {
    hide Contents, Survivors;
    ContentsAre();
    KeptAre(levels, 8);
  }

  lemma WholeIsInstalled(value: seq<Byte>)
    ensures Replaced(Midway(value).levels, 1, In0(), In1(), [Whole()], Installed(value).levels)
    ensures Contents([Whole()]) == EntrySet(Kept())
  {
    hide TwoLevels, InFileOrder;
    TwoTables(Whole(), Whole());
    WholeThenLate(value);
    NothingInOrder();
    InOrder([], [Whole(), Late(value)]);
    var two := [OneAndTwo(), Late(value), NineAndTen()];
    forall l | 0 <= l < NUM_LEVELS
      ensures forall f :: f in TwoLevels([], [Whole(), Late(value)])[l]
                          <==> (f in TwoLevels(In0(), two)[l] && IsKept(1, In0(), In1(), l, f))
                               || (l == 2 && f in [Whole()])
    {
      OneByOne(In0(), two, l);
      OneByOne([], [Whole(), Late(value)], l);
    }
  }

  lemma WholeThenLate(value: seq<Byte>)
    ensures InFileOrder([Whole(), Late(value)])
  {
  }

  // ---- the lost key --------------------------------------------------------------------------------------

  lemma FiveIsStored(value: seq<Byte>)
    ensures View(All(Start(value)), 5.0, 9) == Some(value) && View(All(Installed(value)), 5.0, 9) == Some(value)
  {
    hide TwoLevels, View, Contents, Tables, Start, UniqueKeys;
    EntriesAreUnique(value);
    assert Newest(All(Start(value)), 5.0, 9, Five(value));
    ViewOfNewest(All(Start(value)), 5.0, 9, Five(value));
    StillStored(value);
    ViewOfNewest(All(Installed(value)), 5.0, 9, Five(value));
  }

  lemma EntriesAfter(value: seq<Byte>)
    ensures All(Installed(value)) == EntrySet(Kept()) + {Five(value)}
  {
    hide TwoLevels, Contents, Tables;
    TablesOf([], [Whole(), Late(value)]);
    TwoTables(Whole(), Late(value));
    NoContents();
    var none: seq<Entry> := [];
    assert EntrySet(none) == {};
  }

  lemma StillStored(value: seq<Byte>)
    ensures UniqueKeys(All(Installed(value))) && Newest(All(Installed(value)), 5.0, 9, Five(value))
  {
    hide All, Start, Installed, Kept, EntrySet;
    EntriesAfter(value);
    EntriesAreUnique(value);
    KeptWasStored(value);
  }

  lemma KeptWasStored(value: seq<Byte>)
    ensures EntrySet(Kept()) <= All(Start(value))
  {
    hide Contents, Tables, Start;
    AllEntries(value);
    ContentsAre();
  }

  lemma SearchMissesFive(value: seq<Byte>)
    ensures forall f <- [Whole(), Late(value)] :: !Before(f.largest, SeekKey(5.0, 9))
    ensures Whole().smallest.user <= 5.0 && SeekIn(Whole().entries, 5.0, 9) == None
  {
    var k := LowerBound(Kept(), SeekKey(5.0, 9));
    assert Kept()[2].key.user == 3.0 && Kept()[3].key.user == 8.0;
  }

  lemma LevelsAre(value: seq<Byte>)
    ensures Start(value).levels == TwoLevels(In0(), In1())
              && |Start(value).levels| == |Installed(value).levels| == NUM_LEVELS
    ensures Start(value).levels[1] == In0() && Start(value).levels[2] == In1()
    ensures Installed(value).levels[2] == [Whole(), Late(value)]
  {
    hide TwoLevels, In0, In1, Whole, Late;
    OneByOne(In0(), In1(), 1);
    OneByOne(In0(), In1(), 2);
    OneByOne([], [Whole(), Late(value)], 2);
  }

  /**
   CompactRange over everything compacts level 1, whose files leave a gap.  The memtable with key 5 is flushed
   while the compaction runs, goes where PickLevelForMemTableOutput puts it, and that is into the gap.  The
   compaction then installs one table around it.  Key 5 is stored before and after, but both tables of level 2
   end at or after it, so the search in the level settles on the first one and finds nothing.
   */
  lemma FlushedKeyIsLost(value: seq<Byte>, limit: nat, maxOverlap: nat)
    requires 1 < limit
    ensures Inv(Start(value)) && |Start(value).levels| == |Installed(value).levels| == NUM_LEVELS
    ensures Start(value).levels[1] == In0() && Start(value).levels[2] == In1()
    ensures CutAt(Meeting(In0(), None, None), In0(), limit) && Chosen(In0(), In1(), In0(), In1())
    ensures Sorted(Input()) && EntrySet(Input()) == Contents(In0()) + Contents(In1()) && ValidFile(Whole())
    ensures Survivors(Input(), 8, 9, Start(value).levels, 1) == Kept() && Contents([Whole()]) == EntrySet(Kept())
    ensures IsPicked(Start(value).levels, 5.0, 5.0, maxOverlap, 2)
    ensures Next(Start(value), FlushMemTable(2, Late(value)), Midway(value))
    ensures Replaced(Midway(value).levels, 1, In0(), In1(), [Whole()], Installed(value).levels)
    ensures View(All(Start(value)), 5.0, 9) == Some(value) && View(All(Installed(value)), 5.0, 9) == Some(value)
    ensures Installed(value).levels[2] == [Whole(), Late(value)]
    ensures forall f <- Installed(value).levels[2] :: !Before(f.largest, SeekKey(5.0, 9))
    ensures Whole().smallest.user <= 5.0 && SeekIn(Whole().entries, 5.0, 9) == None
  {
    hide Inv, Next, View, All, IsPicked, Chosen, CutAt, Survivors, Sorted, Contents, Replaced, Meeting, EntrySet, Start,
         Midway, Installed, In0, In1, Input, Kept, TwoLevels;
    StartIsGood(value);
    RangeIsTaken(limit);
    InputsAreChosen();
    LevelsAre(value);
    InputIs(Start(value).levels);
    WholeIsValid();
    WholeIsInstalled(value);
    LateIsPicked(maxOverlap);
    LateIsFlushed(value);
    FiveIsStored(value);
    SearchMissesFive(value);
  }
}
