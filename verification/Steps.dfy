/**
 The steps that change the stored tables, and what each keeps (db/db_impl.cc, db/version_set.cc).
 */
module Steps {
  import opened Options
  import opened Keys
  import opened Files
  import opened Lsm
  import opened CompactionInputs
  import opened CompactionRules

  // ---- replacing inputs by outputs ---------------------------------------------------------------

  predicate IsKept(level: nat, inputs0: seq<File>, inputs1: seq<File>, l: nat, f: File) {
    !(l == level && f in inputs0) && !(l == level + 1 && f in inputs1)
  }

  /** `levels'` is `levels` with `inputs0` and `inputs1` taken out and `outputs` put into level+1. */
  ghost predicate Replaced(levels: Levels, level: nat, inputs0: seq<File>, inputs1: seq<File>,
                           outputs: seq<File>, levels': Levels) {
    && level + 1 < |levels| == |levels'|
    && (forall l :: 0 <= l < |levels'| ==> InFileOrder(levels'[l]))
    && (forall l, f {:trigger f in levels'[l]} {:trigger f in levels[l]} :: 0 <= l < |levels| ==>
          (f in levels'[l] <==> || (f in levels[l] && IsKept(level, inputs0, inputs1, l, f))
                                || (l == level + 1 && f in outputs)))
  }

  /** Inputs chosen by SetupOtherInputs together with outputs made only of their entries. */
  ghost predicate GoodReplacement(levels: Levels, level: nat, inputs0: seq<File>, inputs1: seq<File>,
                                  outputs: seq<File>) {
    && ValidLevels(levels) && level + 1 < NUM_LEVELS
    && Chosen(levels[level], levels[level + 1], inputs0, inputs1)
    && ValidFiles(outputs) && PairwiseApart(outputs) && NumbersDiffer(outputs)
    && (forall f, l, g :: f in outputs && 0 <= l < |levels| && g in levels[l] && IsKept(level, inputs0, inputs1, l, g)
                          ==> f.number != g.number)
    && Contents(outputs) <= Contents(inputs0) + Contents(inputs1)
  }

  /** An input entry lies to the same side of a file of level+1 that misses the inputs' hull. */
  lemma EntryIsAside(lower: seq<File>, h: File, e: Entry, lo: UserKey, hi: UserKey, g: File)
    requires ValidFile(h) && e in h.entries && ValidFile(g)
    requires (lo <= h.smallest.user && h.largest.user <= hi)
          || (RangeMeets(h, Some(lo), Some(hi)) && Apart(g, h))
    ensures g.largest.user < lo ==> Before(g.largest, e.key)
    ensures hi < g.smallest.user ==> Before(e.key, g.smallest)
  {
    FileBounds(g);
    FileBounds(h);
  }

  /** A file of level+1 that is not an input lies wholly to one side of all input entries. */
  lemma LeftoverIsAside(upper: seq<File>, lower: seq<File>, inputs0: seq<File>, inputs1: seq<File>, g: File)
    requires ValidFiles(upper) && ValidFiles(lower) && PairwiseApart(lower)
    requires Chosen(upper, lower, inputs0, inputs1)
    requires g in lower && g !in inputs1
    ensures (forall e :: e in Contents(inputs0) + Contents(inputs1) ==> Before(g.largest, e.key))
         || (forall e :: e in Contents(inputs0) + Contents(inputs1) ==> Before(e.key, g.smallest))
  {
    var lo, hi :| HullOf(inputs0, lo, hi) && inputs1 == Meeting(lower, Some(lo), Some(hi));
    MeetingMembers(lower, Some(lo), Some(hi));
    assert g.largest.user < lo || hi < g.smallest.user;
    assert ValidFile(g);
    hide MeetingUpTo, NoOlderLeft;
    forall e | e in Contents(inputs0) + Contents(inputs1)
      ensures g.largest.user < lo ==> Before(g.largest, e.key)
      ensures hi < g.smallest.user ==> Before(e.key, g.smallest)
    {
      var h :| (h in inputs0 || h in inputs1) && e in h.entries;
      assert ValidFile(h);
      hide ValidFile;
      EntryIsAside(lower, h, e, lo, hi, g);
    }
  }

  lemma OutputIsApart(levels: Levels, level: nat, inputs0: seq<File>, inputs1: seq<File>, outputs: seq<File>,
                      o: File, g: File)
    requires GoodReplacement(levels, level, inputs0, inputs1, outputs)
    requires o in outputs && g in levels[level + 1] && g !in inputs1
    ensures Apart(o, g)
  {
    LeftoverIsAside(levels[level], levels[level + 1], inputs0, inputs1, g);
    assert ValidFile(o);
    assert o.entries[0] in o.entries && o.entries[|o.entries| - 1] in o.entries;
    assert o.entries[0] in Contents(outputs) && o.entries[|o.entries| - 1] in Contents(outputs);
  }

  lemma ReplacedNumbersUnique(levels: Levels, level: nat, inputs0: seq<File>, inputs1: seq<File>,
                              outputs: seq<File>, levels': Levels)
    requires GoodReplacement(levels, level, inputs0, inputs1, outputs)
    requires Replaced(levels, level, inputs0, inputs1, outputs, levels')
    ensures NumbersUnique(levels')
  {
    hide InFileOrder, ValidFiles, PairwiseApart, Chosen, Contents;
    forall k, l, f, g | 0 <= k < |levels'| && 0 <= l < |levels'| && f in levels'[k] && g in levels'[l]
                        && f.number == g.number
      ensures k == l && f == g
    {
      if f in levels[k] && g in levels[l] && IsKept(level, inputs0, inputs1, k, f)
         && IsKept(level, inputs0, inputs1, l, g) {
      } else {
        assert (k == level + 1 && f in outputs) || (l == level + 1 && g in outputs);
      }
    }
  }

  /** The replacement keeps every level valid. */
  lemma ReplacedIsValid(levels: Levels, level: nat, inputs0: seq<File>, inputs1: seq<File>, outputs: seq<File>,
                        levels': Levels)
    requires GoodReplacement(levels, level, inputs0, inputs1, outputs)
    requires Replaced(levels, level, inputs0, inputs1, outputs, levels')
    ensures ValidLevels(levels')
  {
    forall l | 0 <= l < NUM_LEVELS
      ensures ValidFiles(levels'[l])
    {
      assert ValidFiles(levels[l]);
    }
    ReplacedNumbersUnique(levels, level, inputs0, inputs1, outputs, levels');
    forall l, f, g | 1 <= l < NUM_LEVELS && f in levels'[l] && g in levels'[l] && f != g
      ensures Apart(f, g)
    {
      assert PairwiseApart(levels[l]);
      if l == level + 1 && (f in outputs || g in outputs) && !(f in outputs && g in outputs) {
        if f in outputs {
          OutputIsApart(levels, level, inputs0, inputs1, outputs, f, g);
        } else {
          OutputIsApart(levels, level, inputs0, inputs1, outputs, g, f);
        }
      }
    }
  }

  /** Where an output entry came from. */
  lemma OutputSource(inputs0: seq<File>, inputs1: seq<File>, outputs: seq<File>, o: File, e: Entry)
    returns (h: File)
    requires Contents(outputs) <= Contents(inputs0) + Contents(inputs1)
    requires o in outputs && e in o.entries
    ensures (h in inputs0 || h in inputs1) && e in h.entries
  {
    assert e in Contents(outputs);
    h :| (h in inputs0 || h in inputs1) && e in h.entries;
  }

  lemma OutputBelow(levels: Levels, level: nat, inputs0: seq<File>, inputs1: seq<File>, outputs: seq<File>,
                    k: nat, f: File, o: File)
    requires GoodReplacement(levels, level, inputs0, inputs1, outputs) && LevelsInRecencyOrder(levels)
    requires k <= level && f in levels[k] && (k == level ==> f !in inputs0) && o in outputs
    ensures FileNewer(f, o)
  {
    MeetingMembersOf(levels[level + 1], inputs0, inputs1);
    forall d, e | d in EntrySet(f.entries) && e in EntrySet(o.entries) && d.key.user == e.key.user
      ensures d.key.sequence > e.key.sequence
    {
      var h := OutputSource(inputs0, inputs1, outputs, o, e);
      assert FileNewer(f, h);
      assert e in EntrySet(h.entries);
    }
  }

  lemma OutputAbove(levels: Levels, level: nat, inputs0: seq<File>, inputs1: seq<File>, outputs: seq<File>,
                    l: nat, o: File, g: File)
    requires GoodReplacement(levels, level, inputs0, inputs1, outputs) && LevelsInRecencyOrder(levels)
    requires level + 1 < l < NUM_LEVELS && g in levels[l] && o in outputs
    ensures FileNewer(o, g)
  {
    MeetingMembersOf(levels[level + 1], inputs0, inputs1);
    forall d, e | d in EntrySet(o.entries) && e in EntrySet(g.entries) && d.key.user == e.key.user
      ensures d.key.sequence > e.key.sequence
    {
      var h := OutputSource(inputs0, inputs1, outputs, o, d);
      assert FileNewer(h, g);
      assert d in EntrySet(h.entries);
    }
  }

  lemma MeetingMembersOf(lower: seq<File>, inputs0: seq<File>, inputs1: seq<File>)
    requires MeetingHull(lower, inputs0, inputs1)
    ensures forall f :: f in inputs1 ==> f in lower
  {
    var lo, hi :| HullOf(inputs0, lo, hi) && inputs1 == Meeting(lower, Some(lo), Some(hi));
    MeetingMembers(lower, Some(lo), Some(hi));
  }

  lemma KeptFile(levels: Levels, level: nat, inputs0: seq<File>, inputs1: seq<File>, outputs: seq<File>,
                 levels': Levels, l: nat, f: File)
    requires Replaced(levels, level, inputs0, inputs1, outputs, levels')
    requires l < |levels| && f in levels'[l] && !(l == level + 1 && f in outputs)
    ensures f in levels[l] && (l == level ==> f !in inputs0) && (l == level + 1 ==> f !in inputs1)
  {
  }

  /** The replacement keeps deeper levels older. */
  lemma ReplacedKeepsRecency(levels: Levels, level: nat, inputs0: seq<File>, inputs1: seq<File>,
                             outputs: seq<File>, levels': Levels)
    requires GoodReplacement(levels, level, inputs0, inputs1, outputs) && LevelsInRecencyOrder(levels)
    requires Replaced(levels, level, inputs0, inputs1, outputs, levels')
    ensures LevelsInRecencyOrder(levels')
  {
    forall k, l, f, g | 0 <= k < l < |levels'| && f in levels'[k] && g in levels'[l]
      ensures FileNewer(f, g)
    {
      if l == level + 1 && g in outputs {
        OutputBelow(levels, level, inputs0, inputs1, outputs, k, f, g);
      } else if k == level + 1 && f in outputs {
        OutputAbove(levels, level, inputs0, inputs1, outputs, l, f, g);
      } else {
        KeptFile(levels, level, inputs0, inputs1, outputs, levels', k, f);
        KeptFile(levels, level, inputs0, inputs1, outputs, levels', l, g);
      }
    }
  }

  lemma ReplacedTables(levels: Levels, level: nat, inputs0: seq<File>, inputs1: seq<File>, outputs: seq<File>,
                       levels': Levels)
    requires GoodReplacement(levels, level, inputs0, inputs1, outputs)
    requires Replaced(levels, level, inputs0, inputs1, outputs, levels')
    ensures Tables(levels') <= Tables(levels)
  {
    MeetingMembersOf(levels[level + 1], inputs0, inputs1);
    forall e | e in Tables(levels')
      ensures e in Tables(levels)
    {
      var l, f :| 0 <= l < |levels'| && f in levels'[l] && e in f.entries;
      if l == level + 1 && f in outputs {
        var h := OutputSource(inputs0, inputs1, outputs, f, e);
        assert h in levels[level] || h in levels[level + 1];
      }
    }
  }

  lemma ReplacedNumbers(levels: Levels, level: nat, inputs0: seq<File>, inputs1: seq<File>, outputs: seq<File>,
                        levels': Levels, n: nat)
    requires Replaced(levels, level, inputs0, inputs1, outputs, levels')
    requires NumbersBelow(levels, n) && forall f :: f in outputs ==> f.number < n
    ensures NumbersBelow(levels', n)
  {
    forall l, f | 0 <= l < |levels'| && f in levels'[l]
      ensures f.number < n
    {
      if !(l == level + 1 && f in outputs) {
        KeptFile(levels, level, inputs0, inputs1, outputs, levels', l, f);
      }
    }
  }

  /** Fewer entries, in the same order, keep the rest of the invariant. */
  lemma FewerTablesKeepInv(db: Db, db': Db)
    requires Inv(db)
    requires db' == db.(levels := db'.levels, nextFile := db'.nextFile)
    requires ValidLevels(db'.levels) && LevelsInRecencyOrder(db'.levels)
    requires Tables(db'.levels) <= Tables(db.levels) && NumbersBelow(db'.levels, db'.nextFile)
    ensures Inv(db')
  {
    hide ValidLevels, LevelsInRecencyOrder, NumbersBelow, Sorted, Tables;
    assert All(db') <= All(db);
  }

  /** A trivial move or a compaction keeps the invariant. */
  lemma ReplacementKeepsInv(db: Db, level: nat, inputs0: seq<File>, inputs1: seq<File>, outputs: seq<File>, db': Db)
    requires Inv(db)
    requires GoodReplacement(db.levels, level, inputs0, inputs1, outputs)
    requires Replaced(db.levels, level, inputs0, inputs1, outputs, db'.levels)
    requires db' == db.(levels := db'.levels, nextFile := db'.nextFile) && db.nextFile <= db'.nextFile
    requires forall f :: f in outputs ==> f.number < db'.nextFile
    ensures Inv(db')
  {
    hide ValidLevels, LevelsInRecencyOrder, Sorted, GoodReplacement, Replaced, UniqueKeys, Newer;
    ReplacedIsValid(db.levels, level, inputs0, inputs1, outputs, db'.levels);
    ReplacedKeepsRecency(db.levels, level, inputs0, inputs1, outputs, db'.levels);
    ReplacedTables(db.levels, level, inputs0, inputs1, outputs, db'.levels);
    ReplacedNumbers(db.levels, level, inputs0, inputs1, outputs, db'.levels, db'.nextFile);
    FewerTablesKeepInv(db, db');
  }

  // ---- what a compaction does to reads --------------------------------------------------------------

  ghost function KeptTables(levels: Levels, level: nat, inputs0: seq<File>, inputs1: seq<File>): set<Entry> {
    set l, f, e | 0 <= l < |levels| && f in levels[l] && IsKept(level, inputs0, inputs1, l, f)
                  && e in f.entries :: e
  }

  /** Everything in the database that is not an input of the compaction. */
  ghost function Others(db: Db, level: nat, inputs0: seq<File>, inputs1: seq<File>): set<Entry> {
    EntrySet(db.mem) + Imm(db) + KeptTables(db.levels, level, inputs0, inputs1)
  }

  /** The part of level+1 that is not an input. */
  ghost function LeftBelow(levels: Levels, level: nat, inputs1: seq<File>): set<Entry>
    requires level + 1 < |levels|
  {
    set f, e | f in levels[level + 1] && f !in inputs1 && e in f.entries :: e
  }

  lemma TablesBefore(levels: Levels, level: nat, inputs0: seq<File>, inputs1: seq<File>)
    requires level + 1 < |levels| && (forall f :: f in inputs0 ==> f in levels[level])
    requires forall f :: f in inputs1 ==> f in levels[level + 1]
    ensures Tables(levels) == KeptTables(levels, level, inputs0, inputs1) + (Contents(inputs0) + Contents(inputs1))
  {
    var kept, taken := KeptTables(levels, level, inputs0, inputs1), Contents(inputs0) + Contents(inputs1);
    forall e | e in taken
      ensures e in Tables(levels)
    {
      var f :| (f in inputs0 || f in inputs1) && e in f.entries;
      assert f in levels[level] || f in levels[level + 1];
    }
    forall e | e in Tables(levels)
      ensures e in kept + taken
    {
      var l, f :| 0 <= l < |levels| && f in levels[l] && e in f.entries;
      if IsKept(level, inputs0, inputs1, l, f) {
        assert e in kept;
      }
    }
  }

  lemma TablesAfter(levels: Levels, level: nat, inputs0: seq<File>, inputs1: seq<File>, outputs: seq<File>,
                    levels': Levels)
    requires Replaced(levels, level, inputs0, inputs1, outputs, levels')
    ensures Tables(levels') == KeptTables(levels, level, inputs0, inputs1) + Contents(outputs)
  {
    var kept := KeptTables(levels, level, inputs0, inputs1);
    forall e | e in kept + Contents(outputs)
      ensures e in Tables(levels')
    {
      if e in kept {
        var l, f :| 0 <= l < |levels| && f in levels[l] && IsKept(level, inputs0, inputs1, l, f) && e in f.entries;
        assert f in levels'[l];
      } else {
        var f :| f in outputs && e in f.entries;
        assert f in levels'[level + 1];
      }
    }
    forall e | e in Tables(levels')
      ensures e in kept + Contents(outputs)
    {
      var l, f :| 0 <= l < |levels'| && f in levels'[l] && e in f.entries;
      if f in levels[l] && IsKept(level, inputs0, inputs1, l, f) {
        assert e in kept;
      }
    }
  }

  /** Entry `o` of a kept file against entry `t` of an input: never equal, and older only further down. */
  lemma KeptAgainstInput(levels: Levels, level: nat, inputs0: seq<File>, inputs1: seq<File>,
                         l: nat, g: File, o: Entry, h: File, t: Entry)
    requires ValidLevels(levels) && LevelsInRecencyOrder(levels) && level + 1 < NUM_LEVELS
    requires Chosen(levels[level], levels[level + 1], inputs0, inputs1)
    requires l < NUM_LEVELS && g in levels[l] && IsKept(level, inputs0, inputs1, l, g) && o in g.entries
    requires (h in inputs0 || h in inputs1) && t in h.entries
    ensures o != t
    ensures o.key.user == t.key.user && o.key.sequence < t.key.sequence ==>
              l == level + 1 || !IsBase(levels, level, t.key.user)
  {
    MeetingMembersOf(levels[level + 1], inputs0, inputs1);
    assert o in EntrySet(g.entries) && t in EntrySet(h.entries);
    if l <= level {
      assert FileNewer(g, h);
    } else if l == level + 1 {
      LeftoverIsAside(levels[level], levels[level + 1], inputs0, inputs1, g);
      assert t in Contents(inputs0) + Contents(inputs1);
      FileBounds(g);
    } else {
      assert FileNewer(h, g);
      FileBounds(g);
      if o.key.user == t.key.user {
        assert Covers(g, t.key.user);
      }
    }
  }

  lemma OtherAgainstInput(db: Db, level: nat, inputs0: seq<File>, inputs1: seq<File>, o: Entry, t: Entry)
    requires level + 1 < NUM_LEVELS == |db.levels| && Inv(db)
    requires Chosen(db.levels[level], db.levels[level + 1], inputs0, inputs1)
    requires o in Others(db, level, inputs0, inputs1) && t in Contents(inputs0) + Contents(inputs1)
    ensures o != t
    ensures o.key.user == t.key.user && o.key.sequence < t.key.sequence ==>
              o in LeftBelow(db.levels, level, inputs1) || !IsBase(db.levels, level, t.key.user)
  {
    hide Sorted, ValidLevels, LevelsInRecencyOrder, Chosen;
    var h :| (h in inputs0 || h in inputs1) && t in h.entries;
    if o in KeptTables(db.levels, level, inputs0, inputs1) {
      var l, g :| 0 <= l < |db.levels| && g in db.levels[l] && IsKept(level, inputs0, inputs1, l, g) && o in g.entries;
      KeptAgainstInput(db.levels, level, inputs0, inputs1, l, g, o, h, t);
    } else {
      InputsAreStored(db.levels, level, inputs0, inputs1, h, t);
      assert t in Tables(db.levels);
    }
  }

  lemma InputsAreStored(levels: Levels, level: nat, inputs0: seq<File>, inputs1: seq<File>, h: File, t: Entry)
    requires level + 1 < |levels| && Chosen(levels[level], levels[level + 1], inputs0, inputs1)
    requires (h in inputs0 || h in inputs1) && t in h.entries
    ensures t in Tables(levels)
  {
    MeetingMembersOf(levels[level + 1], inputs0, inputs1);
    assert h in levels[level] || h in levels[level + 1];
  }

  lemma LeftBelowIsKept(levels: Levels, level: nat, inputs0: seq<File>, inputs1: seq<File>)
    requires level + 1 < |levels|
    ensures LeftBelow(levels, level, inputs1) <= KeptTables(levels, level, inputs0, inputs1)
  {
    forall e | e in LeftBelow(levels, level, inputs1)
      ensures e in KeptTables(levels, level, inputs0, inputs1)
    {
      var f :| f in levels[level + 1] && f !in inputs1 && e in f.entries;
      assert IsKept(level, inputs0, inputs1, level + 1, f);
    }
  }

  lemma AllBefore(db: Db, level: nat, inputs0: seq<File>, inputs1: seq<File>)
    requires level + 1 < |db.levels|
    requires Chosen(db.levels[level], db.levels[level + 1], inputs0, inputs1)
    ensures All(db) == Others(db, level, inputs0, inputs1) + (Contents(inputs0) + Contents(inputs1))
  {
    MeetingMembersOf(db.levels[level + 1], inputs0, inputs1);
    TablesBefore(db.levels, level, inputs0, inputs1);
    hide Tables, KeptTables, Contents;
  }

  lemma AllAfter(db: Db, level: nat, inputs0: seq<File>, inputs1: seq<File>, outputs: seq<File>, db': Db)
    requires Replaced(db.levels, level, inputs0, inputs1, outputs, db'.levels)
    requires db'.mem == db.mem && db'.imm == db.imm
    ensures All(db') == Others(db, level, inputs0, inputs1) + Contents(outputs)
  {
    TablesAfter(db.levels, level, inputs0, inputs1, outputs, db'.levels);
    hide Tables, KeptTables, Contents;
  }

  lemma LeftBelowIsOther(db: Db, level: nat, inputs0: seq<File>, inputs1: seq<File>)
    requires level + 1 < |db.levels|
    ensures LeftBelow(db.levels, level, inputs1) <= Others(db, level, inputs0, inputs1)
  {
    LeftBelowIsKept(db.levels, level, inputs0, inputs1);
  }

  lemma OthersAgainstInputs(db: Db, level: nat, inputs0: seq<File>, inputs1: seq<File>)
    requires level + 1 < NUM_LEVELS == |db.levels| && Inv(db)
    requires Chosen(db.levels[level], db.levels[level + 1], inputs0, inputs1)
    ensures forall t, o :: t in Contents(inputs0) + Contents(inputs1) && o in Others(db, level, inputs0, inputs1) ==>
      && o != t
      && (o.key.user == t.key.user && o.key.sequence < t.key.sequence ==>
            o in LeftBelow(db.levels, level, inputs1) || !IsBase(db.levels, level, t.key.user))
  {
    hide Inv, Chosen, Others, Contents, LeftBelow, IsBase;
    forall t, o | t in Contents(inputs0) + Contents(inputs1) && o in Others(db, level, inputs0, inputs1)
      ensures o != t
      ensures o.key.user == t.key.user && o.key.sequence < t.key.sequence ==>
                o in LeftBelow(db.levels, level, inputs1) || !IsBase(db.levels, level, t.key.user)
    {
      OtherAgainstInput(db, level, inputs0, inputs1, o, t);
    }
  }

  /** The entries around a compaction lie as `Surroundings` asks. */
  lemma CompactionSurroundings(db: Db, level: nat, inputs0: seq<File>, inputs1: seq<File>, input: seq<Entry>)
    requires level + 1 < NUM_LEVELS == |db.levels| && Inv(db)
    requires Chosen(db.levels[level], db.levels[level + 1], inputs0, inputs1)
    requires Sorted(input) && EntrySet(input) == Contents(inputs0) + Contents(inputs1)
    ensures Surroundings(Others(db, level, inputs0, inputs1), LeftBelow(db.levels, level, inputs1), input,
                         db.levels, level)
  {
    hide Sorted, ValidLevels, RecencyOrder, Chosen, All, Others, LeftBelow, Contents, IsBase, EntrySet, NumbersBelow;
    AllBefore(db, level, inputs0, inputs1);
    LeftBelowIsOther(db, level, inputs0, inputs1);
    OthersAgainstInputs(db, level, inputs0, inputs1);
  }

  /** No obsolete deletion marker would be dropped over a live older value left in level+1. */
  ghost predicate SafeToDrop(db: Db, level: nat, inputs0: seq<File>, inputs1: seq<File>, input: seq<Entry>,
                             smallestSnapshot: nat)
    requires level + 1 < |db.levels|
  {
    forall i :: !Resurrects(Others(db, level, inputs0, inputs1), LeftBelow(db.levels, level, inputs1), input, i,
                            smallestSnapshot, db.levels, level)
  }

  ghost predicate ReadsUnchanged(db: Db, db': Db, from: nat) {
    forall user, s :: from <= s ==> ReadsAgree(All(db'), All(db), user, s)
  }

  /**
   Compaction preserves meaning, exactly when it does: reads of every key at every snapshot from the
   smallest live one on are unchanged if and only if the drop is safe.
   */
  lemma CompactionPreservesReadsIff(db: Db, level: nat, inputs0: seq<File>, inputs1: seq<File>, input: seq<Entry>,
                                    smallestSnapshot: nat, outputs: seq<File>, db': Db)
    requires level + 1 < NUM_LEVELS == |db.levels| && Inv(db)
    requires Chosen(db.levels[level], db.levels[level + 1], inputs0, inputs1)
    requires Sorted(input) && EntrySet(input) == Contents(inputs0) + Contents(inputs1)
    requires Contents(outputs) == EntrySet(Survivors(input, |input|, smallestSnapshot, db.levels, level))
    requires Replaced(db.levels, level, inputs0, inputs1, outputs, db'.levels)
    requires db'.mem == db.mem && db'.imm == db.imm
    ensures ReadsUnchanged(db, db', smallestSnapshot)
       <==> SafeToDrop(db, level, inputs0, inputs1, input, smallestSnapshot)
  {
    var others, left := Others(db, level, inputs0, inputs1), LeftBelow(db.levels, level, inputs1);
    hide Inv, Replaced, Chosen, Sorted, Others, LeftBelow, Contents, All;
    CompactionSurroundings(db, level, inputs0, inputs1, input);
    AllBefore(db, level, inputs0, inputs1);
    AllAfter(db, level, inputs0, inputs1, outputs, db');
    DropIsInvisibleIff(others, left, input, smallestSnapshot, db.levels, level);
  }

  // ---- when the drop is safe ------------------------------------------------------------------------

  /** A file left in level+1 that holds an older version of an input key continues the last user key. */
  lemma OlderLeftIsBoundary(levels: Levels, level: nat, inputs0: seq<File>, inputs1: seq<File>,
                            key: InternalKey, g: File, o: Entry, t: Entry)
    requires level + 1 < NUM_LEVELS == |levels| && ValidLevels(levels)
    requires Chosen(levels[level], levels[level + 1], inputs0, inputs1)
    requires g in levels[level + 1] && g !in inputs1 && o in g.entries
    requires t in Contents(inputs0) + Contents(inputs1)
    requires o.key.user == t.key.user && Before(t.key, o.key)
    requires LargestOf(inputs1, key)
    ensures IsBoundary(g, key)
  {
    hide NoOlderLeft, MeetingHull, NumbersUnique, InFileOrder, PairwiseApart, MeetingUpTo;
    LeftoverIsAside(levels[level], levels[level + 1], inputs0, inputs1, g);
    FileBounds(g);
    OlderLeftIsNotHull(levels[level], levels[level + 1], inputs0, inputs1, g, o, t);
    var h :| h in inputs1 && t in h.entries;
    var k :| k in inputs1 && k.largest == key;
    MeetingMembersOf(levels[level + 1], inputs0, inputs1);
    FileBounds(h);
    FileBounds(k);
    assert !Before(key, h.largest);
    assert k.entries[|k.entries| - 1] in k.entries;
    assert k.entries[|k.entries| - 1] in Contents(inputs1);
  }

  lemma OlderLeftIsNotHull(upper: seq<File>, lower: seq<File>, inputs0: seq<File>, inputs1: seq<File>,
                           g: File, o: Entry, t: Entry)
    requires ValidFiles(upper) && ValidFiles(lower) && Chosen(upper, lower, inputs0, inputs1)
    requires g in lower && g !in inputs1 && o in g.entries
    requires t in Contents(inputs0) + Contents(inputs1) && o.key.user == t.key.user
    ensures t in Contents(inputs1)
  {
    var lo, hi :| HullOf(inputs0, lo, hi) && inputs1 == Meeting(lower, Some(lo), Some(hi));
    MeetingMembers(lower, Some(lo), Some(hi));
    FileBounds(g);
    if t in Contents(inputs0) {
      var f :| f in inputs0 && t in f.entries;
      FileBounds(f);
      assert false;
    }
  }

  lemma {:induction false} LargestExists(fs: seq<File>) returns (key: InternalKey)
    requires fs != []
    ensures LargestOf(fs, key)
  {
    if |fs| == 1 {
      key := fs[0].largest;
    } else {
      var n := |fs| - 1;
      key := LargestExists(fs[..n]);
      assert fs == fs[..n] + [fs[n]];
      if Before(key, fs[n].largest) {
        key := fs[n].largest;
      }
    }
  }

  /** No file of level+1 continues the last user key of `inputs1`. */
  ghost predicate EndsClean(lower: seq<File>, inputs1: seq<File>) {
    forall key :: LargestOf(inputs1, key) ==> NoBoundary(lower, key)
  }

  /**
   It is enough that level+1 ends clean after inputs_[1]: what the boundary search would establish, had
   SetupOtherInputs run it for inputs_[1] as it does for inputs_[0].
   */
  lemma EndsCleanIsSafe(db: Db, level: nat, inputs0: seq<File>, inputs1: seq<File>, input: seq<Entry>,
                        smallestSnapshot: nat)
    requires level + 1 < NUM_LEVELS == |db.levels| && ValidLevels(db.levels)
    requires Chosen(db.levels[level], db.levels[level + 1], inputs0, inputs1)
    requires EntrySet(input) == Contents(inputs0) + Contents(inputs1)
    requires EndsClean(db.levels[level + 1], inputs1)
    ensures SafeToDrop(db, level, inputs0, inputs1, input, smallestSnapshot)
  {
    hide ValidLevels, Chosen, Others, Contents, Obsolete, Hidden, LargestOf, Newest;
    var others, left := Others(db, level, inputs0, inputs1), LeftBelow(db.levels, level, inputs1);
    if i: nat :| Resurrects(others, left, input, i, smallestSnapshot, db.levels, level) {
      var t := input[i];
      assert t in EntrySet(input);
      var o :| o in left && o.key.kind.Value? && o.key.sequence < t.key.sequence
               && Newest(others, t.key.user, smallestSnapshot, o);
      OlderLeftEndsUnclean(db.levels, level, inputs0, inputs1, o, t) by {
        assert o.key.user == t.key.user by { NewestUser(others, t.key.user, smallestSnapshot, o); }
      }
      assert false;
    }
  }

  lemma NewestUser(s: set<Entry>, user: UserKey, snapshot: nat, e: Entry)
    requires Newest(s, user, snapshot, e)
    ensures e.key.user == user
  {
  }

  lemma OlderLeftEndsUnclean(levels: Levels, level: nat, inputs0: seq<File>, inputs1: seq<File>, o: Entry, t: Entry)
    requires level + 1 < NUM_LEVELS == |levels| && ValidLevels(levels)
    requires Chosen(levels[level], levels[level + 1], inputs0, inputs1)
    requires o in LeftBelow(levels, level, inputs1) && t in Contents(inputs0) + Contents(inputs1)
    requires o.key.user == t.key.user && o.key.sequence < t.key.sequence
    ensures !EndsClean(levels[level + 1], inputs1)
  {
    var g :| g in levels[level + 1] && g !in inputs1 && o in g.entries;
    OlderLeftIsNotHull(levels[level], levels[level + 1], inputs0, inputs1, g, o, t);
    var key := LargestExists(inputs1);
    OlderLeftIsBoundary(levels, level, inputs0, inputs1, key, g, o, t);
  }
}
