/**
 Writes, memtable switches, flushes, moves and compactions as steps of one database, and what holds
 over every run (db/db_impl.cc).
 */
module Runs {
  import opened Options
  import opened Keys
  import opened Files
  import opened Lsm
  import opened CompactionInputs
  import opened CompactionRules
  import opened Steps

  // ---- writes ----------------------------------------------------------------------------------------

  /** One record of a WriteBatch. */
  datatype Op = Put(key: UserKey, value: seq<Byte>) | Delete(key: UserKey)

  /** MemTableInserter: the entry an operation becomes at a sequence number. */
  function EntryOf(op: Op, sequence: nat): Entry {
    match op
    case Put(key, value) => Entry(InternalKey(key, sequence, Value), value)
    case Delete(key) => Entry(InternalKey(key, sequence, Deletion), [])
  }

  function Inserted(mem: seq<Entry>, e: Entry): seq<Entry> {
    var k := LowerBound(mem, e.key);
    mem[..k] + [e] + mem[k..]
  }

  /** The memtable after the first `n` operations of a batch numbered from `first`. */
  function Applied(mem: seq<Entry>, ops: seq<Op>, n: nat, first: nat): seq<Entry>
    requires n <= |ops|
  {
    if n == 0 then mem else Inserted(Applied(mem, ops, n - 1, first), EntryOf(ops[n - 1], first + n - 1))
  }

  /** What the first `n` operations make of a key's value. */
  function ValueAfter(ops: seq<Op>, n: nat, user: UserKey, old_: Option<seq<Byte>>): Option<seq<Byte>>
    requires n <= |ops|
  {
    if n == 0 then old_
    else if ops[n - 1].key != user then ValueAfter(ops, n - 1, user, old_)
    else if ops[n - 1].Put? then Some(ops[n - 1].value)
    else None
  }

  /** A newer entry goes strictly between the entries around its insertion point. */
  lemma InsertionPoint(mem: seq<Entry>, e: Entry)
    requires Sorted(mem) && forall i :: 0 <= i < |mem| ==> mem[i].key.sequence < e.key.sequence
    ensures var k := LowerBound(mem, e.key);
      && (forall i :: 0 <= i < k ==> Before(mem[i].key, e.key))
      && (forall i :: k <= i < |mem| ==> Before(e.key, mem[i].key))
  {
    var k := LowerBound(mem, e.key);
    forall i | k <= i < |mem|
      ensures Before(e.key, mem[i].key)
    {
      assert k < i ==> Before(mem[k].key, mem[i].key);
    }
  }

  lemma InsertedIsSorted(mem: seq<Entry>, e: Entry)
    requires Sorted(mem) && forall i :: 0 <= i < |mem| ==> mem[i].key.sequence < e.key.sequence
    ensures Sorted(Inserted(mem, e))
  {
    InsertionPoint(mem, e);
    var k, r := LowerBound(mem, e.key), Inserted(mem, e);
    hide LowerBound, Before;
    forall i, j | 0 <= i < j < |r|
      ensures Before(r[i].key, r[j].key)
    {
      assert r[i] == if i < k then mem[i] else if i == k then e else mem[i - 1];
      assert r[j] == if j < k then mem[j] else if j == k then e else mem[j - 1];
    }
  }

  lemma InsertedContents(mem: seq<Entry>, e: Entry)
    ensures EntrySet(Inserted(mem, e)) == EntrySet(mem) + {e}
  {
    var k := LowerBound(mem, e.key);
    assert mem == mem[..k] + mem[k..];
  }

  ghost function BatchEntries(ops: seq<Op>, n: nat, first: nat): set<Entry>
    requires n <= |ops|
  {
    if n == 0 then {} else BatchEntries(ops, n - 1, first) + {EntryOf(ops[n - 1], first + n - 1)}
  }

  ghost predicate OfBatch(ops: seq<Op>, n: nat, first: nat, e: Entry)
    requires n <= |ops|
  {
    exists i :: 0 <= i < n && e == EntryOf(ops[i], first + i)
  }

  lemma OneMoreOfBatch(ops: seq<Op>, n: nat, first: nat, e: Entry)
    requires n < |ops|
    ensures OfBatch(ops, n + 1, first, e) <==> OfBatch(ops, n, first, e) || e == EntryOf(ops[n], first + n)
  {
    hide EntryOf;
  }

  lemma OfBatchIsNumbered(ops: seq<Op>, n: nat, first: nat, e: Entry)
    requires n <= |ops| && OfBatch(ops, n, first, e)
    ensures first <= e.key.sequence < first + n
  {
  }

  lemma {:induction false} BatchEntriesAre(ops: seq<Op>, n: nat, first: nat)
    requires n <= |ops|
    ensures forall e :: e in BatchEntries(ops, n, first) <==> OfBatch(ops, n, first, e)
    ensures forall e :: e in BatchEntries(ops, n, first) ==> first <= e.key.sequence < first + n
  {
    hide OfBatch, EntryOf;
    if n == 0 {
      NothingOfBatch(ops, first);
    } else {
      BatchEntriesAre(ops, n - 1, first);
    }
    forall e
      ensures e in BatchEntries(ops, n, first) <==> OfBatch(ops, n, first, e)
      ensures OfBatch(ops, n, first, e) ==> first <= e.key.sequence < first + n
    {
      if n > 0 {
        OneMoreOfBatch(ops, n - 1, first, e);
      }
      if OfBatch(ops, n, first, e) {
        OfBatchIsNumbered(ops, n, first, e);
      }
    }
  }

  lemma NothingOfBatch(ops: seq<Op>, first: nat)
    ensures forall e :: !OfBatch(ops, 0, first, e)
  {
  }

  /** One operation more in the memtable. */
  lemma InsertedNewest(before: seq<Entry>, e: Entry)
    requires Sorted(before) && forall d <- EntrySet(before) :: d.key.sequence < e.key.sequence
    ensures Sorted(Inserted(before, e)) && EntrySet(Inserted(before, e)) == EntrySet(before) + {e}
  {
    hide Inserted, Sorted;
    forall i | 0 <= i < |before|
      ensures before[i].key.sequence < e.key.sequence
    {
      assert before[i] in EntrySet(before);
    }
    InsertedIsSorted(before, e);
    InsertedContents(before, e);
  }

  lemma {:induction false} AppliedContents(mem: seq<Entry>, ops: seq<Op>, n: nat, first: nat)
    requires n <= |ops| && Sorted(mem) && forall d :: d in EntrySet(mem) ==> d.key.sequence < first
    ensures Sorted(Applied(mem, ops, n, first))
    ensures EntrySet(Applied(mem, ops, n, first)) == EntrySet(mem) + BatchEntries(ops, n, first)
  {
    hide OfBatch, Inserted, Sorted, EntrySet;
    if n > 0 {
      AppliedContents(mem, ops, n - 1, first);
      BatchEntriesAre(ops, n - 1, first);
      InsertedNewest(Applied(mem, ops, n - 1, first), EntryOf(ops[n - 1], first + n - 1));
    }
  }

  /** WriteBatchInternal::InsertInto at last_sequence_ + 1, then SetLastSequence. */
  ghost predicate Written(db: Db, ops: seq<Op>, db': Db) {
    && db.lastSequence + |ops| < MAX_SEQUENCE
    && db' == db.(mem := Applied(db.mem, ops, |ops|, db.lastSequence + 1),
                  lastSequence := db.lastSequence + |ops|)
  }

  lemma WrittenContents(db: Db, ops: seq<Op>, db': Db)
    requires Inv(db) && Written(db, ops, db')
    ensures Sorted(db'.mem)
    ensures EntrySet(db'.mem) == EntrySet(db.mem) + BatchEntries(ops, |ops|, db.lastSequence + 1)
    ensures All(db') == All(db) + BatchEntries(ops, |ops|, db.lastSequence + 1)
  {
    hide Tables, ValidLevels, RecencyOrder, UniqueKeys, NumbersBelow, Applied, BatchEntries, Sorted, EntrySet;
    assert forall d :: d in EntrySet(db.mem) ==> d in All(db);
    AppliedContents(db.mem, ops, |ops|, db.lastSequence + 1);
  }

  /** Entries newer than everything stored, added to the newest layer. */
  lemma NewEntriesKeepOrder(mem: set<Entry>, older: set<Entry>, batch: set<Entry>, last: nat)
    requires Newer(mem, older) && forall e :: e in older ==> e.key.sequence <= last
    requires forall e :: e in batch ==> e.key.sequence > last
    ensures Newer(mem + batch, older)
  {
  }

  lemma NewEntriesKeepUnique(all: set<Entry>, ops: seq<Op>, last: nat)
    requires UniqueKeys(all) && forall e :: e in all ==> e.key.sequence <= last
    ensures UniqueKeys(all + BatchEntries(ops, |ops|, last + 1))
  {
    BatchEntriesAre(ops, |ops|, last + 1);
  }

  lemma WriteKeepsOrder(db: Db, ops: seq<Op>, db': Db)
    requires Inv(db) && Written(db, ops, db')
    ensures RecencyOrder(db')
  {
    var batch := BatchEntries(ops, |ops|, db.lastSequence + 1);
    WrittenContents(db, ops, db');
    BatchEntriesAre(ops, |ops|, db.lastSequence + 1);
    hide ValidLevels, LevelsInRecencyOrder, NumbersBelow, Sorted, Tables, EntrySet, UniqueKeys, BatchEntries, OfBatch;
    assert forall e :: e in Imm(db) || e in Tables(db.levels) ==> e in All(db);
    NewEntriesKeepOrder(EntrySet(db.mem), Imm(db), batch, db.lastSequence);
    NewEntriesKeepOrder(EntrySet(db.mem), Tables(db.levels), batch, db.lastSequence);
    hide Newer;
  }

  lemma WriteKeepsInv(db: Db, ops: seq<Op>, db': Db)
    requires Inv(db) && Written(db, ops, db')
    ensures Inv(db')
  {
    hide ValidLevels, RecencyOrder, NumbersBelow, Sorted, All, UniqueKeys, BatchEntries, Applied;
    WrittenContents(db, ops, db');
    BatchEntriesAre(ops, |ops|, db.lastSequence + 1);
    NewEntriesKeepUnique(All(db), ops, db.lastSequence);
    WriteKeepsOrder(db, ops, db');
  }

  lemma SameVisibleAt(s: set<Entry>, n: nat, t: set<Entry>, m: nat, user: UserKey)
    requires UniqueKeys(s) && UniqueKeys(t)
    requires forall e :: Visible(s, user, n, e) <==> Visible(t, user, m, e)
    ensures View(s, user, n) == View(t, user, m)
  {
    if d :| Visible(s, user, n, d) {
      var e := NewestExists(s, user, n, d);
      ViewOfNewest(s, user, n, e);
      assert Newest(t, user, m, e);
      ViewOfNewest(t, user, m, e);
    }
  }

  /** The only entry with the n-th new sequence number is the n-th operation's. */
  lemma NthIsOp(all: set<Entry>, ops: seq<Op>, last: nat, n: nat, d: Entry)
    requires forall e :: e in all ==> e.key.sequence <= last
    requires 0 < n <= |ops| && d in all + BatchEntries(ops, |ops|, last + 1) && d.key.sequence == last + n
    ensures d == EntryOf(ops[n - 1], last + n)
  {
    BatchEntriesAre(ops, |ops|, last + 1);
    assert OfBatch(ops, |ops|, last + 1, d);
  }

  lemma NthOpIsNewest(all: set<Entry>, ops: seq<Op>, last: nat, n: nat)
    requires UniqueKeys(all) && forall e :: e in all ==> e.key.sequence <= last
    requires 0 < n <= |ops|
    ensures View(all + BatchEntries(ops, |ops|, last + 1), ops[n - 1].key, last + n)
         == if ops[n - 1].Put? then Some(ops[n - 1].value) else None
  {
    var now, e := all + BatchEntries(ops, |ops|, last + 1), EntryOf(ops[n - 1], last + n);
    BatchEntriesAre(ops, |ops|, last + 1);
    assert OfBatch(ops, |ops|, last + 1, e);
    hide OfBatch, View;
    assert Newest(now, ops[n - 1].key, last + n, e);
    NewEntriesKeepUnique(all, ops, last);
    ViewOfNewest(now, ops[n - 1].key, last + n, e);
  }

  /** The read at the n-th new sequence number, given the one before it. */
  lemma OneMoreOp(all: set<Entry>, ops: seq<Op>, last: nat, user: UserKey, n: nat)
    requires UniqueKeys(all) && forall e :: e in all ==> e.key.sequence <= last
    requires 0 < n <= |ops|
    ensures var now := all + BatchEntries(ops, |ops|, last + 1);
      View(now, user, last + n)
      == if ops[n - 1].key != user then View(now, user, last + n - 1)
         else if ops[n - 1].Put? then Some(ops[n - 1].value) else None
  {
    hide UniqueKeys, View, BatchEntries;
    if ops[n - 1].key == user {
      NthOpIsNewest(all, ops, last, n);
    } else {
      var now, s, t := all + BatchEntries(ops, |ops|, last + 1), last + n, last + n - 1;
      forall d | Visible(now, user, s, d)
        ensures Visible(now, user, t, d)
      {
        if d.key.sequence == s {
          NthIsOp(all, ops, last, n, d);
        }
      }
      NewEntriesKeepUnique(all, ops, last);
      SameVisibleAt(now, s, now, t, user);
    }
  }

  lemma BatchIsInvisible(all: set<Entry>, ops: seq<Op>, last: nat, user: UserKey, s: nat)
    requires UniqueKeys(all) && forall e :: e in all ==> e.key.sequence <= last
    requires s <= last
    ensures View(all + BatchEntries(ops, |ops|, last + 1), user, s) == View(all, user, s)
  {
    var now := all + BatchEntries(ops, |ops|, last + 1);
    NewEntriesKeepUnique(all, ops, last);
    BatchEntriesAre(ops, |ops|, last + 1);
    hide OfBatch, BatchEntries;
    SameVisibleAt(now, s, all, s, user);
  }

  lemma {:induction false} BatchIsSeen(all: set<Entry>, ops: seq<Op>, last: nat, user: UserKey, n: nat)
    requires UniqueKeys(all) && (forall e :: e in all ==> e.key.sequence <= last)
    requires n <= |ops|
    ensures View(all + BatchEntries(ops, |ops|, last + 1), user, last + n)
         == ValueAfter(ops, n, user, View(all, user, last))
  {
    hide View, UniqueKeys;
    if n == 0 {
      BatchIsInvisible(all, ops, last, user, last);
    } else {
      OneMoreOp(all, ops, last, user, n);
      BatchIsSeen(all, ops, last, user, n - 1);
    }
  }

  /**
   What a write does to reads: nothing at the old snapshots, and at the sequence number of its n-th
   operation exactly the effect of the first n operations in order.
   */
  lemma WriteIsSeen(db: Db, ops: seq<Op>, db': Db, user: UserKey)
    requires Inv(db) && Written(db, ops, db')
    ensures forall s :: 0 <= s <= db.lastSequence ==> ReadsAgree(All(db'), All(db), user, s)
    ensures forall n :: 0 <= n <= |ops| ==>
      View(All(db'), user, db.lastSequence + n)
      == ValueAfter(ops, n, user, View(All(db), user, db.lastSequence))
  {
    hide Inv, Written, View, All, ReadsAgree, ValueAfter;
    forall s: nat | s <= db.lastSequence
      ensures ReadsAgree(All(db'), All(db), user, s)
    {
      WriteIsInvisible(db, ops, db', user, s);
    }
    forall n: nat | n <= |ops|
      ensures View(All(db'), user, db.lastSequence + n)
           == ValueAfter(ops, n, user, View(All(db), user, db.lastSequence))
    {
      NthOpIsSeen(db, ops, db', user, n);
    }
  }

  lemma UniqueBelow(db: Db)
    requires Inv(db)
    ensures UniqueKeys(All(db)) && forall e :: e in All(db) ==> e.key.sequence <= db.lastSequence
  {
    hide ValidLevels, RecencyOrder, NumbersBelow, Sorted, All, UniqueKeys;
  }

  lemma WriteIsInvisible(db: Db, ops: seq<Op>, db': Db, user: UserKey, s: nat)
    requires Inv(db) && Written(db, ops, db') && s <= db.lastSequence
    ensures ReadsAgree(All(db'), All(db), user, s)
  {
    hide Inv, Written, View, All, UniqueKeys, BatchEntries;
    WrittenContents(db, ops, db');
    UniqueBelow(db);
    BatchIsInvisible(All(db), ops, db.lastSequence, user, s);
  }

  lemma NthOpIsSeen(db: Db, ops: seq<Op>, db': Db, user: UserKey, n: nat)
    requires Inv(db) && Written(db, ops, db') && n <= |ops|
    ensures View(All(db'), user, db.lastSequence + n)
         == ValueAfter(ops, n, user, View(All(db), user, db.lastSequence))
  {
    hide Inv, View, All, UniqueKeys, BatchEntries, ValueAfter;
    WrittenContents(db, ops, db');
    UniqueBelow(db);
    BatchIsSeen(All(db), ops, db.lastSequence, user, n);
  }

  // ---- flushes ------------------------------------------------------------------------------------------

  /** `levels'` is `levels` with `f` put into level `l`. */
  ghost predicate FileAdded(levels: Levels, l: nat, f: File, levels': Levels) {
    && l < |levels| == |levels'|
    && (forall k :: 0 <= k < |levels'| ==> InFileOrder(levels'[k]))
    && (forall k, g {:trigger g in levels'[k]} {:trigger g in levels[k]} :: 0 <= k < |levels| ==>
          (g in levels'[k] <==> g in levels[k] || (k == l && g == f)))
  }

  ghost predicate ClearLevel(fs: seq<File>, f: File) {
    forall g :: g in fs ==> !RangeMeets(g, Some(f.smallest.user), Some(f.largest.user))
  }

  /** No file in levels 0..l meets the user-key range of `f`. */
  ghost predicate ClearDownTo(levels: Levels, l: nat, f: File) {
    forall k :: 0 <= k <= l < |levels| ==> ClearLevel(levels[k], f)
  }

  /**
   CompactMemTable: the immutable memtable becomes a table, if it is not empty.  The counter of file numbers
   may have moved on further, for outputs of a compaction that are open meanwhile.
   */
  ghost predicate Flushed(db: Db, l: nat, f: File, db': Db) {
    && db.imm.Some? && db.nextFile < db'.nextFile
    && db' == db.(imm := None, levels := db'.levels, nextFile := db'.nextFile)
    && (if db.imm.value == [] then db'.levels == db.levels else
          && ValidFile(f) && db.nextFile <= f.number < db'.nextFile && f.entries == db.imm.value
          && (l > 0 ==> ClearDownTo(db.levels, l, f))
          && FileAdded(db.levels, l, f, db'.levels))
  }

  lemma AddedTables(levels: Levels, l: nat, f: File, levels': Levels)
    requires FileAdded(levels, l, f, levels')
    ensures Tables(levels') == Tables(levels) + EntrySet(f.entries)
  {
    forall e | e in Tables(levels)
      ensures e in Tables(levels')
    {
      var k, g :| 0 <= k < |levels| && g in levels[k] && e in g.entries;
      assert g in levels'[k];
    }
    forall e | e in Tables(levels')
      ensures e in Tables(levels) + EntrySet(f.entries)
    {
      var k, g :| 0 <= k < |levels'| && g in levels'[k] && e in g.entries;
      assert g in levels[k] || g == f;
    }
    forall e | e in EntrySet(f.entries)
      ensures e in Tables(levels')
    {
      assert f in levels'[l];
    }
  }

  lemma AddedNumbersUnique(levels: Levels, l: nat, f: File, levels': Levels, n: nat)
    requires NumbersUnique(levels) && NumbersBelow(levels, n) && n <= f.number
    requires FileAdded(levels, l, f, levels')
    ensures NumbersUnique(levels') && NumbersBelow(levels', f.number + 1)
  {
    forall k, m, g, h | 0 <= k < |levels'| && 0 <= m < |levels'| && g in levels'[k] && h in levels'[m]
                        && g.number == h.number
      ensures k == m && g == h
    {
      assert g in levels[k] || (k == l && g == f);
      assert h in levels[m] || (m == l && h == f);
    }
  }

  lemma AddedIsApart(levels: Levels, l: nat, f: File, levels': Levels, k: nat, g: File, h: File)
    requires 1 <= k < |levels| && ValidFiles(levels[k]) && PairwiseApart(levels[k])
    requires ValidFile(f) && (l > 0 ==> ClearDownTo(levels, l, f)) && FileAdded(levels, l, f, levels')
    requires g in levels'[k] && h in levels'[k] && g != h
    ensures Apart(g, h)
  {
    assert g in levels[k] || (k == l && g == f);
    assert h in levels[k] || (k == l && h == f);
    if !(g in levels[k] && h in levels[k]) {
      assert ClearLevel(levels[k], f);
    }
  }

  lemma AddedIsValid(levels: Levels, l: nat, f: File, levels': Levels, n: nat)
    requires ValidLevels(levels) && NumbersBelow(levels, n)
    requires ValidFile(f) && n <= f.number && (l > 0 ==> ClearDownTo(levels, l, f))
    requires FileAdded(levels, l, f, levels')
    ensures ValidLevels(levels') && NumbersBelow(levels', f.number + 1)
  {
    hide ValidFile, ClearDownTo, NumbersUnique, NumbersBelow, Apart, InFileOrder;
    AddedNumbersUnique(levels, l, f, levels', n);
    forall k | 0 <= k < NUM_LEVELS
      ensures ValidFiles(levels'[k])
    {
      assert ValidFiles(levels[k]);
    }
    forall k, g, h | 1 <= k < NUM_LEVELS && g in levels'[k] && h in levels'[k] && g != h
      ensures Apart(g, h)
    {
      assert PairwiseApart(levels[k]);
      AddedIsApart(levels, l, f, levels', k, g, h);
    }
  }

  lemma NewerThanTable(newer: set<Entry>, levels: Levels, k: nat, g: File)
    requires Newer(newer, Tables(levels)) && k < |levels| && g in levels[k]
    ensures Newer(newer, EntrySet(g.entries))
  {
    forall e | e in EntrySet(g.entries)
      ensures e in Tables(levels)
    {
    }
  }

  lemma AddedAgainst(levels: Levels, l: nat, f: File, levels': Levels, k: nat, m: nat, g: File, h: File)
    requires ValidLevels(levels) && LevelsInRecencyOrder(levels)
    requires ValidFile(f) && (l > 0 ==> ClearDownTo(levels, l, f))
    requires Newer(EntrySet(f.entries), Tables(levels))
    requires FileAdded(levels, l, f, levels')
    requires k < m < |levels| && g in levels'[k] && h in levels'[m]
    ensures FileNewer(g, h)
  {
    assert g in levels[k] || (k == l && g == f);
    assert h in levels[m] || (m == l && h == f);
    if g in levels[k] && h in levels[m] {
    } else if g in levels[k] {
      assert ValidFiles(levels[k]) && ClearLevel(levels[k], f);
      UsersApart(g, f);
    } else {
      NewerThanTable(EntrySet(f.entries), levels, m, h);
    }
  }

  lemma AddedKeepsRecency(levels: Levels, l: nat, f: File, levels': Levels, n: nat)
    requires ValidLevels(levels) && LevelsInRecencyOrder(levels) && NumbersBelow(levels, n)
    requires ValidFile(f) && n <= f.number && (l > 0 ==> ClearDownTo(levels, l, f))
    requires Newer(EntrySet(f.entries), Tables(levels))
    requires FileAdded(levels, l, f, levels')
    ensures LevelsInRecencyOrder(levels')
  {
    hide ValidLevels, ValidFile, ClearDownTo, Newer, Tables, FileNewer;
    forall k, m, g, h | 0 <= k < m < |levels'| && g in levels'[k] && h in levels'[m]
      ensures FileNewer(g, h)
    {
      AddedAgainst(levels, l, f, levels', k, m, g, h);
    }
    forall g, h | g in levels'[0] && h in levels'[0] && g.number > h.number
      ensures FileNewer(g, h)
    {
      AddedInLevel0(levels, l, f, levels', n, g, h);
    }
  }

  lemma AddedInLevel0(levels: Levels, l: nat, f: File, levels': Levels, n: nat, g: File, h: File)
    requires LevelsInRecencyOrder(levels) && NumbersBelow(levels, n) && n <= f.number
    requires Newer(EntrySet(f.entries), Tables(levels))
    requires FileAdded(levels, l, f, levels')
    requires g in levels'[0] && h in levels'[0] && g.number > h.number
    ensures FileNewer(g, h)
  {
    assert g in levels[0] || (l == 0 && g == f);
    assert h in levels[0] || (l == 0 && h == f);
    if g !in levels[0] {
      NewerThanTable(EntrySet(f.entries), levels, 0, h);
    }
  }

  /** A new table with the entries of the immutable memtable, in its place. */
  lemma TableForImm(db: Db, db': Db)
    requires Inv(db) && db.imm.Some?
    requires db' == db.(imm := None, levels := db'.levels, nextFile := db'.nextFile)
    requires ValidLevels(db'.levels) && LevelsInRecencyOrder(db'.levels) && NumbersBelow(db'.levels, db'.nextFile)
    requires Tables(db'.levels) == Tables(db.levels) + EntrySet(db.imm.value)
    ensures Inv(db') && All(db') == All(db)
  {
    hide ValidLevels, LevelsInRecencyOrder, NumbersBelow, Sorted, Tables, UniqueKeys, EntrySet;
    assert All(db') == All(db);
  }

  lemma NumbersStayBelow(levels: Levels, n: nat, m: nat)
    requires NumbersBelow(levels, n) && n <= m
    ensures NumbersBelow(levels, m)
  {
  }

  /** A flush keeps the invariant and stores exactly the same entries. */
  lemma FlushKeepsInv(db: Db, l: nat, f: File, db': Db)
    requires Inv(db) && Flushed(db, l, f, db')
    ensures Inv(db') && All(db') == All(db)
  {
    hide ValidLevels, LevelsInRecencyOrder, NumbersBelow, Sorted, Tables, FileAdded, ClearDownTo, ValidFile, UniqueKeys,
         Newer, All;
    if db.imm.value != [] {
      AddedIsValid(db.levels, l, f, db'.levels, db.nextFile);
      AddedKeepsRecency(db.levels, l, f, db'.levels, db.nextFile);
      AddedTables(db.levels, l, f, db'.levels);
      NumbersStayBelow(db'.levels, f.number + 1, db'.nextFile);
    } else {
      NumbersStayBelow(db.levels, db.nextFile, db'.nextFile);
      assert EntrySet(db.imm.value) == {};
    }
    TableForImm(db, db');
  }

  /** MakeRoomForWrite: the memtable becomes immutable and a new one starts, with a new log. */
  ghost predicate Switched(db: Db, db': Db) {
    && db.imm.None? && db.nextFile < db'.nextFile
    && db' == db.(mem := [], imm := Some(db.mem), nextFile := db'.nextFile)
  }

  lemma SwitchKeepsInv(db: Db, db': Db)
    requires Inv(db) && Switched(db, db')
    ensures Inv(db') && All(db') == All(db)
  {
    hide ValidLevels, LevelsInRecencyOrder, Tables;
  }

  // ---- moves and compactions ----------------------------------------------------------------------------

  /** A trivial move (BackgroundCompaction): one file goes down a level unchanged. */
  ghost predicate Moved(db: Db, level: nat, f: File, db': Db) {
    && level + 1 < NUM_LEVELS == |db.levels|
    && Chosen(db.levels[level], db.levels[level + 1], [f], [])
    && Replaced(db.levels, level, [f], [], [f], db'.levels)
    && db.nextFile <= db'.nextFile
    && db' == db.(levels := db'.levels, nextFile := db'.nextFile)
  }

  lemma MoveKeepsInv(db: Db, level: nat, f: File, db': Db)
    requires Inv(db) && Moved(db, level, f, db')
    ensures Inv(db') && All(db') == All(db)
  {
    hide Inv, All, Replaced, Chosen, GoodReplacement, Contents;
    MoveIsReplacement(db, level, f, db');
    ReplacementKeepsInv(db, level, [f], [], [f], db');
    AllBefore(db, level, [f], []);
    AllAfter(db, level, [f], [], [f], db');
    NoContents();
  }

  lemma NoContents()
    ensures Contents([]) == {}
  {
  }

  lemma MoveIsReplacement(db: Db, level: nat, f: File, db': Db)
    requires Inv(db) && Moved(db, level, f, db')
    ensures GoodReplacement(db.levels, level, [f], [], [f])
    ensures Replaced(db.levels, level, [f], [], [f], db'.levels)
    ensures db' == db.(levels := db'.levels, nextFile := db'.nextFile) && db.nextFile <= db'.nextFile
    ensures f in db.levels[level] && f.number < db.nextFile
  {
    hide Tables, LevelsInRecencyOrder, UniqueKeys, Sorted, Replaced, RecencyOrder;
    assert f in [f];
    assert Contents([f]) <= Contents([f]) + Contents([]);
  }

  /** No stored file has the number of an output. */
  ghost predicate NewNumbers(levels: Levels, outputs: seq<File>) {
    forall f, l, g :: f in outputs && 0 <= l < |levels| && g in levels[l] ==> f.number != g.number
  }

  lemma LaterNumbersAreNew(levels: Levels, n: nat, outputs: seq<File>)
    requires NumbersBelow(levels, n) && forall f <- outputs :: n <= f.number
    ensures NewNumbers(levels, outputs)
  {
  }

  /**
   DoCompactionWork and InstallCompactionResults.  The outputs got their numbers while the compaction ran;
   other files may have got theirs since.
   */
  ghost predicate Compacted(db: Db, level: nat, inputs0: seq<File>, inputs1: seq<File>, input: seq<Entry>,
                            smallestSnapshot: nat, outputs: seq<File>, db': Db) {
    && level + 1 < NUM_LEVELS == |db.levels|
    && Chosen(db.levels[level], db.levels[level + 1], inputs0, inputs1)
    && Sorted(input) && EntrySet(input) == Contents(inputs0) + Contents(inputs1)
    && smallestSnapshot <= db.lastSequence && (forall s <- db.snapshots :: smallestSnapshot <= s)
    && ValidFiles(outputs) && PairwiseApart(outputs) && NumbersDiffer(outputs)
    && (forall f <- outputs :: f.number < db'.nextFile) && NewNumbers(db.levels, outputs)
    && Contents(outputs) == EntrySet(Survivors(input, |input|, smallestSnapshot, db.levels, level))
    && Replaced(db.levels, level, inputs0, inputs1, outputs, db'.levels)
    && db.nextFile <= db'.nextFile
    && db' == db.(levels := db'.levels, nextFile := db'.nextFile)
  }

  lemma CompactionKeepsInv(db: Db, level: nat, inputs0: seq<File>, inputs1: seq<File>, input: seq<Entry>,
                           smallestSnapshot: nat, outputs: seq<File>, db': Db)
    requires Inv(db) && Compacted(db, level, inputs0, inputs1, input, smallestSnapshot, outputs, db')
    ensures Inv(db')
  {
    SurvivorsAreInput(input, smallestSnapshot, db.levels, level);
    assert GoodReplacement(db.levels, level, inputs0, inputs1, outputs);
    ReplacementKeepsInv(db, level, inputs0, inputs1, outputs, db');
  }

  // ---- runs -------------------------------------------------------------------------------------------------

  datatype Action =
    | Write(ops: seq<Op>)
    | SwitchMemTable
    | FlushMemTable(level: nat, file: File)
    | MoveFile(level: nat, file: File)
    | Compact(level: nat, inputs0: seq<File>, inputs1: seq<File>, input: seq<Entry>,
              smallestSnapshot: nat, outputs: seq<File>)
    | TakeSnapshot
    | ReleaseSnapshot(index: nat)

  /** One serialised step of the database. */
  ghost predicate Next(db: Db, a: Action, db': Db) {
    match a
    case Write(ops) => Written(db, ops, db')
    case SwitchMemTable => Switched(db, db')
    case FlushMemTable(l, f) => Flushed(db, l, f, db')
    case MoveFile(l, f) => Moved(db, l, f, db')
    case Compact(l, in0, in1, input, smallest, outputs) =>
      Compacted(db, l, in0, in1, input, smallest, outputs, db')
    case TakeSnapshot => db' == db.(snapshots := db.snapshots + [db.lastSequence])
    case ReleaseSnapshot(i) =>
      i < |db.snapshots| && db' == db.(snapshots := db.snapshots[..i] + db.snapshots[i + 1..])
  }

  lemma NextKeepsInv(db: Db, a: Action, db': Db)
    requires Inv(db) && Next(db, a, db')
    ensures Inv(db')
  {
    hide ValidLevels, RecencyOrder, Sorted, Written, Switched, Flushed, Moved, Compacted, All, NumbersBelow, UniqueKeys,
         SafeToDrop;
    match a
    case Write(ops) => WriteKeepsInv(db, ops, db');
    case SwitchMemTable => SwitchKeepsInv(db, db');
    case FlushMemTable(l, f) => FlushKeepsInv(db, l, f, db');
    case MoveFile(l, f) => MoveKeepsInv(db, l, f, db');
    case Compact(l, in0, in1, input, smallest, outputs) =>
      CompactionKeepsInv(db, l, in0, in1, input, smallest, outputs, db');
    case TakeSnapshot => SnapshotTaken(db, db');
    case ReleaseSnapshot(i) => SnapshotReleased(db, i, db');
  }

  lemma SnapshotsKeepInv(db: Db, db': Db)
    requires Inv(db) && db' == db.(snapshots := db'.snapshots)
    requires forall s :: s in db'.snapshots ==> s <= db.lastSequence
    requires forall i, j :: 0 <= i < j < |db'.snapshots| ==> db'.snapshots[i] <= db'.snapshots[j]
    ensures Inv(db') && All(db') == All(db)
  {
    hide ValidLevels, Sorted, NumbersBelow, UniqueKeys, Tables, Newer, LevelsInRecencyOrder;
    assert All(db') == All(db);
  }

  lemma SnapshotTaken(db: Db, db': Db)
    requires Inv(db) && db' == db.(snapshots := db.snapshots + [db.lastSequence])
    ensures Inv(db') && All(db') == All(db)
  {
    hide ValidLevels, RecencyOrder, Sorted, NumbersBelow, UniqueKeys, All;
    assert forall i :: 0 <= i < |db.snapshots| ==> db.snapshots[i] in db.snapshots;
    SnapshotsKeepInv(db, db');
  }

  lemma SnapshotReleased(db: Db, i: nat, db': Db)
    requires Inv(db) && i < |db.snapshots|
    requires db' == db.(snapshots := db.snapshots[..i] + db.snapshots[i + 1..])
    ensures Inv(db') && All(db') == All(db)
  {
    hide ValidLevels, RecencyOrder, Sorted, NumbersBelow, UniqueKeys, All;
    forall k | 0 <= k < |db'.snapshots|
      ensures db'.snapshots[k] == db.snapshots[if k < i then k else k + 1]
      ensures db'.snapshots[k] <= db.lastSequence
    {
      assert db.snapshots[if k < i then k else k + 1] in db.snapshots;
    }
    SnapshotsKeepInv(db, db');
  }

  /** The operations an action performs. */
  function OpsOf(a: Action): seq<Op> {
    if a.Write? then a.ops else []
  }

  /** If the step is a compaction, it drops no deletion marker over a live older value. */
  ghost predicate Harmless(db: Db, a: Action) {
    a.Compact? && a.level + 1 < |db.levels| ==>
      SafeToDrop(db, a.level, a.inputs0, a.inputs1, a.input, a.smallestSnapshot)
  }

  /** The least snapshot whose reads a step has to keep. */
  function Floor(a: Action): nat {
    if a.Compact? then a.smallestSnapshot else 0
  }

  /** Every read from `floor` on is kept. */
  ghost predicate KeepsReads(db: Db, floor: nat, db': Db) {
    forall user: UserKey, s: nat :: floor <= s <= db.lastSequence ==> ReadsAgree(All(db'), All(db), user, s)
  }

  /** The latest state changes by these operations. */
  ghost predicate AppliesOps(db: Db, ops: seq<Op>, db': Db) {
    forall user: UserKey :: View(All(db'), user, db'.lastSequence)
                         == ValueAfter(ops, |ops|, user, View(All(db), user, db.lastSequence))
  }

  /** Every read that the step has to keep is kept; the latest state changes only by the step's own writes. */
  ghost predicate Faithful(db: Db, a: Action, db': Db) {
    KeepsReads(db, Floor(a), db') && AppliesOps(db, OpsOf(a), db')
  }

  /** A step keeps what it has to keep exactly when it is harmless; only a compaction can fail to be. */
  lemma StepIsFaithfulIff(db: Db, a: Action, db': Db)
    requires Inv(db) && Next(db, a, db')
    ensures Faithful(db, a, db') <==> Harmless(db, a)
  {
    hide Inv, Written, Switched, Flushed, Moved, Compacted, All, SafeToDrop, KeepsReads, AppliesOps;
    if a.Compact? {
      CompactionIsFaithfulIff(db, a, db');
    } else if a.Write? {
      WriteIsFaithful(db, a.ops, db');
    } else {
      QuietStep(db, a, db');
      SameReads(db, Floor(a), db');
    }
  }

  lemma SameReads(db: Db, floor: nat, db': Db)
    requires All(db') == All(db) && db'.lastSequence == db.lastSequence
    ensures KeepsReads(db, floor, db') && AppliesOps(db, [], db')
  {
    hide All, View;
  }

  /** Switches, flushes, moves and snapshots store what was stored. */
  lemma QuietStep(db: Db, a: Action, db': Db)
    requires Inv(db) && Next(db, a, db') && !a.Compact? && !a.Write?
    ensures All(db') == All(db) && db'.lastSequence == db.lastSequence
  {
    hide Inv, Switched, Flushed, Moved, All;
    match a
    case SwitchMemTable => SwitchReads(db, db');
    case FlushMemTable(l, f) => FlushReads(db, l, f, db');
    case MoveFile(l, f) => MoveReads(db, l, f, db');
    case TakeSnapshot => SnapshotTaken(db, db');
    case ReleaseSnapshot(i) => SnapshotReleased(db, i, db');
  }

  lemma WriteIsFaithful(db: Db, ops: seq<Op>, db': Db)
    requires Inv(db) && Written(db, ops, db')
    ensures KeepsReads(db, 0, db') && AppliesOps(db, ops, db')
  {
    hide Inv, All, View, ReadsAgree, ValueAfter;
    forall user: UserKey, s: nat | s <= db.lastSequence
      ensures ReadsAgree(All(db'), All(db), user, s)
    {
      WriteIsSeen(db, ops, db', user);
    }
    forall user: UserKey
      ensures View(All(db'), user, db'.lastSequence)
           == ValueAfter(ops, |ops|, user, View(All(db), user, db.lastSequence))
    {
      WriteIsSeen(db, ops, db', user);
    }
  }

  /** Beyond the last sequence number every read is the latest one. */
  lemma LaterReads(all: set<Entry>, last: nat, s: nat, user: UserKey)
    requires UniqueKeys(all) && (forall e :: e in all ==> e.key.sequence <= last) && last <= s
    ensures View(all, user, s) == View(all, user, last)
  {
    hide View, UniqueKeys;
    SameVisibleAt(all, s, all, last, user);
  }

  /** Reads kept up to the last sequence number are kept beyond it. */
  lemma KeptForever(db: Db, floor: nat, db': Db)
    requires Inv(db) && Inv(db') && db'.lastSequence == db.lastSequence && floor <= db.lastSequence
    ensures ReadsUnchanged(db, db', floor) <==> KeepsReads(db, floor, db')
    ensures KeepsReads(db, floor, db') ==> AppliesOps(db, [], db')
  {
    hide Inv, All, View, UniqueKeys;
    UniqueBelow(db);
    UniqueBelow(db');
    if KeepsReads(db, floor, db') {
      forall user: UserKey, s: nat | floor <= s
        ensures ReadsAgree(All(db'), All(db), user, s)
      {
        assert ReadsAgree(All(db'), All(db), user, db.lastSequence);
        if s > db.lastSequence {
          LaterReads(All(db), db.lastSequence, s, user);
          LaterReads(All(db'), db.lastSequence, s, user);
        }
      }
      forall user: UserKey
        ensures View(All(db'), user, db'.lastSequence)
             == ValueAfter([], 0, user, View(All(db), user, db.lastSequence))
      {
        assert ReadsAgree(All(db'), All(db), user, db.lastSequence);
      }
    }
  }

  lemma CompactionIsFaithfulIff(db: Db, a: Action, db': Db)
    requires Inv(db) && a.Compact? && Next(db, a, db')
    ensures Faithful(db, a, db') <==> Harmless(db, a)
  {
    hide Inv, Chosen, Sorted, Replaced, SafeToDrop, All, Contents, KeepsReads, AppliesOps, ReadsUnchanged;
    CompactionPreservesReadsIff(db, a.level, a.inputs0, a.inputs1, a.input, a.smallestSnapshot, a.outputs, db');
    NextKeepsInv(db, a, db');
    KeptForever(db, a.smallestSnapshot, db');
  }

  /**
   No harmless step changes what a live snapshot reads; the latest state changes only by the step's own
   writes.
   */
  lemma NextReads(db: Db, a: Action, db': Db, user: UserKey)
    requires Inv(db) && Next(db, a, db') && Harmless(db, a)
    ensures forall s :: s in db.snapshots ==> ReadsAgree(All(db'), All(db), user, s)
    ensures View(All(db'), user, db'.lastSequence)
         == ValueAfter(OpsOf(a), |OpsOf(a)|, user, View(All(db), user, db.lastSequence))
  {
    hide ValidLevels, RecencyOrder, Sorted, Written, Switched, Flushed, Moved, All, NumbersBelow, UniqueKeys, Harmless,
         View, ReadsAgree, ValueAfter, Chosen, Contents, Replaced;
    StepIsFaithfulIff(db, a, db');
  }

  lemma SwitchReads(db: Db, db': Db)
    requires Inv(db) && Switched(db, db')
    ensures All(db') == All(db) && db'.lastSequence == db.lastSequence
  {
    SwitchKeepsInv(db, db');
  }

  lemma FlushReads(db: Db, l: nat, f: File, db': Db)
    requires Inv(db) && Flushed(db, l, f, db')
    ensures All(db') == All(db) && db'.lastSequence == db.lastSequence
  {
    FlushKeepsInv(db, l, f, db');
  }

  lemma MoveReads(db: Db, l: nat, f: File, db': Db)
    requires Inv(db) && Moved(db, l, f, db')
    ensures All(db') == All(db) && db'.lastSequence == db.lastSequence
  {
    MoveKeepsInv(db, l, f, db');
  }

  ghost predicate Execution(states: seq<Db>, actions: seq<Action>) {
    && |states| == |actions| + 1
    && Inv(states[0])
    && forall i :: 0 <= i < |actions| ==> Next(states[i], actions[i], states[i + 1])
  }

  lemma {:induction false} RunKeepsInv(states: seq<Db>, actions: seq<Action>, n: nat)
    requires Execution(states, actions) && n <= |actions|
    ensures Inv(states[n])
  {
    if n > 0 {
      RunKeepsInv(states, actions, n - 1);
      NextKeepsInv(states[n - 1], actions[n - 1], states[n]);
    }
  }

  ghost predicate FaithfulAt(states: seq<Db>, actions: seq<Action>, i: nat)
    requires |states| == |actions| + 1 && i < |actions|
  {
    Faithful(states[i], actions[i], states[i + 1])
  }

  ghost predicate HarmlessAt(states: seq<Db>, actions: seq<Action>, i: nat)
    requires |states| == |actions| + 1 && i < |actions|
  {
    Harmless(states[i], actions[i])
  }

  /** Every step of a run keeps what it has to keep if and only if every compaction in it is harmless. */
  lemma RunIsFaithfulIff(states: seq<Db>, actions: seq<Action>)
    requires Execution(states, actions)
    ensures (forall i: nat :: i < |actions| ==> FaithfulAt(states, actions, i))
       <==> (forall i: nat :: i < |actions| ==> HarmlessAt(states, actions, i))
  {
    hide Inv, Next, Faithful, Harmless;
    forall i: nat | i < |actions|
      ensures FaithfulAt(states, actions, i) <==> HarmlessAt(states, actions, i)
    {
      RunKeepsInv(states, actions, i);
      StepIsFaithfulIff(states[i], actions[i], states[i + 1]);
    }
  }

  /** Over any run of harmless steps, a snapshot reads the same for as long as it is held. */
  lemma {:induction false} SnapshotIsStable(states: seq<Db>, actions: seq<Action>, start: nat, end: nat, s: nat,
                                            user: UserKey)
    requires Execution(states, actions) && start <= end <= |actions|
    requires forall i :: start <= i < end ==> s in states[i].snapshots && Harmless(states[i], actions[i])
    ensures View(All(states[end]), user, s) == View(All(states[start]), user, s)
    decreases end
  {
    hide Inv, Next, View, All, Harmless;
    if start < end {
      SnapshotIsStable(states, actions, start, end - 1, s, user);
      RunKeepsInv(states, actions, end - 1);
      NextReads(states[end - 1], actions[end - 1], states[end], user);
    }
  }

  /** All operations of the first `n` actions, in order. */
  function History(actions: seq<Action>, n: nat): seq<Op>
    requires n <= |actions|
  {
    if n == 0 then [] else History(actions, n - 1) + OpsOf(actions[n - 1])
  }

  lemma {:induction false} ValueAfterConcat(a: seq<Op>, b: seq<Op>, n: nat, user: UserKey, v: Option<seq<Byte>>)
    requires n <= |b|
    ensures ValueAfter(a + b, |a| + n, user, v) == ValueAfter(b, n, user, ValueAfter(a, |a|, user, v))
  {
    if n > 0 {
      ValueAfterConcat(a, b, n - 1, user, v);
    } else {
      ValueAfterPrefix(a, b, |a|, user, v);
    }
  }

  lemma {:induction false} ValueAfterPrefix(a: seq<Op>, b: seq<Op>, n: nat, user: UserKey, v: Option<seq<Byte>>)
    requires n <= |a|
    ensures ValueAfter(a + b, n, user, v) == ValueAfter(a, n, user, v)
  {
    if n > 0 {
      ValueAfterPrefix(a, b, n - 1, user, v);
    }
  }

  /**
   Over any run of writes, switches, flushes, moves and harmless compactions, the latest value of every
   key is what the written operations, applied in order to a plain map, make it.
   */
  lemma {:induction false} DatabaseIsMap(states: seq<Db>, actions: seq<Action>, n: nat, user: UserKey)
    requires Execution(states, actions) && n <= |actions|
    requires forall i :: 0 <= i < n ==> Harmless(states[i], actions[i])
    ensures View(All(states[n]), user, states[n].lastSequence)
         == ValueAfter(History(actions, n), |History(actions, n)|, user,
                       View(All(states[0]), user, states[0].lastSequence))
  {
    hide Inv, Next, View, All, Harmless;
    if n > 0 {
      DatabaseIsMap(states, actions, n - 1, user);
      RunKeepsInv(states, actions, n - 1);
      NextReads(states[n - 1], actions[n - 1], states[n], user);
      ValueAfterConcat(History(actions, n - 1), OpsOf(actions[n - 1]), |OpsOf(actions[n - 1])|, user,
                       View(All(states[0]), user, states[0].lastSequence));
    }
  }
}
