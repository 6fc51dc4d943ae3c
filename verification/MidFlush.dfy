/**
 A flush in the middle of a compaction (db/db_impl.cc:908-917): DoCompactionWork writes the immutable memtable
 out when there is one, at the level that the version of that moment allows, while the compaction goes on with
 the inputs it chose before.
 */
module MidFlush {
  import opened Options
  import opened Keys
  import opened Files
  import opened Lsm
  import opened CompactionInputs
  import opened CompactionRules
  import opened Steps
  import opened Runs
  import opened VersionBuilder

  // ---- no gaps -------------------------------------------------------------------------------------------

  ghost predicate Covered(fs: seq<File>, x: UserKey) {
    exists f :: f in fs && Covers(f, x)
  }

  /** Every user key between two files is covered by one. */
  ghost predicate Solid(fs: seq<File>) {
    forall f, g, x: UserKey :: f in fs && g in fs && f.smallest.user <= x <= g.largest.user ==> Covered(fs, x)
  }

  lemma OneIsSolid(f: File)
    ensures Solid([f])
  {
    forall g, h, x: UserKey | g in [f] && h in [f] && g.smallest.user <= x <= h.largest.user
      ensures Covered([f], x)
    {
      assert Covers(f, x);
    }
  }

  lemma SameCover(a: seq<File>, b: seq<File>)
    requires FileSet(a) == FileSet(b) && Solid(a)
    ensures Solid(b)
  {
    forall f, g, x: UserKey | f in b && g in b && f.smallest.user <= x <= g.largest.user
      ensures Covered(b, x)
    {
      assert f in FileSet(b) && g in FileSet(b);
      assert Covered(a, x);
      var h :| h in a && Covers(h, x);
      assert h in FileSet(a);
    }
  }

  /** Files that meet the hull of a list without gaps leave none either. */
  lemma MeetingIsSolid(a: seq<File>, lo: UserKey, hi: UserKey, b: seq<File>)
    requires HullOf(a, lo, hi) && Solid(a)
    requires Ordered(b) && forall h :: h in b ==> RangeMeets(h, Some(lo), Some(hi))
    ensures Solid(a + b)
  {
    var first :| first in a && first.smallest.user == lo;
    var last :| last in a && last.largest.user == hi;
    forall f, g, x: UserKey | f in a + b && g in a + b && f.smallest.user <= x <= g.largest.user
      ensures Covered(a + b, x)
    {
      if lo <= x <= hi {
        assert Covered(a, x);
        var h :| h in a && Covers(h, x);
        assert h in a + b;
      } else if x < lo {
        assert Covers(f, x);
      } else {
        assert Covers(g, x);
      }
    }
  }

  ghost predicate Ordered(fs: seq<File>) {
    forall f :: f in fs ==> f.smallest.user <= f.largest.user
  }

  /** The boundary search only adds files that touch the ones before them. */
  lemma {:induction false} ChainIsSolid(upper: seq<File>, a: seq<File>, key: InternalKey, added: seq<File>)
    requires ValidFiles(upper) && Solid(a) && BoundaryChain(upper, key, added)
    requires (exists g :: g in a && g.largest.user == key.user) && Ordered(a)
    ensures Solid(a + added)
    decreases |added|
  {
    hide ValidFile;
    if added == [] {
      assert a + [] == a;
    } else {
      var f, g :| f == added[0] && g in a && g.largest.user == key.user;
      FileBounds(f);
      TouchingIsSolid(a, g, f);
      ChainIsSolid(upper, a + [f], f.largest, added[1..]);
      assert (a + [f]) + added[1..] == a + added;
    }
  }

  lemma TouchingIsSolid(a: seq<File>, g: File, f: File)
    requires Solid(a) && Ordered(a) && g in a && f.smallest.user == g.largest.user <= f.largest.user
    ensures Solid(a + [f])
  {
    forall s, t, x: UserKey | s in a + [f] && t in a + [f] && s.smallest.user <= x <= t.largest.user
      ensures Covered(a + [f], x)
    {
      if Covers(f, x) {
        assert f in a + [f];
      } else {
        if x < f.smallest.user {
          assert s in a && x <= g.largest.user;
          assert Covered(a, x);
        } else {
          assert t in a;
          if s in a {
            assert Covered(a, x);
          } else {
            assert g.smallest.user <= x <= t.largest.user;
            assert Covered(a, x);
          }
        }
        var h :| h in a && Covers(h, x);
        assert h in a + [f];
      }
    }
  }

  /** At level 0: the least closed set around a range, with what the range was taken from. */
  lemma LeastIsSolid(upper: seq<File>, a: seq<File>, lo: UserKey, hi: UserKey, r: seq<File>)
    requires ValidFiles(upper) && HullOf(a, lo, hi) && Solid(a) && LeastClosed(upper, Some(lo), Some(hi), r)
    requires (forall f :: f in r ==> f in upper) && Ordered(a)
    ensures Solid(a + r)
  {
    hide ValidFile;
    var first :| first in a && first.smallest.user == lo;
    var last :| last in a && last.largest.user == hi;
    forall f, g, x: UserKey | f in a + r && g in a + r && f.smallest.user <= x <= g.largest.user
      ensures Covered(a + r, x)
    {
      if lo <= x <= hi {
        assert Covered(a, x);
        var h :| h in a && Covers(h, x);
        assert h in a + r;
      } else {
        SomeCovers(upper, a, lo, hi, r, f, g, x);
        var h :| h in r && Covers(h, x);
        assert h in a + r;
      }
    }
  }

  lemma SomeCovers(upper: seq<File>, a: seq<File>, lo: UserKey, hi: UserKey, r: seq<File>, f: File, g: File, x: UserKey)
    requires ValidFiles(upper) && HullOf(a, lo, hi) && Ordered(a) && LeastClosed(upper, Some(lo), Some(hi), r)
    requires forall h :: h in r ==> h in upper
    requires f in a + r && g in a + r && f.smallest.user <= x <= g.largest.user && !(lo <= x <= hi)
    ensures exists h :: h in r && Covers(h, x)
  {
    hide ValidFile, LeastClosed;
    if forall h :: h in r ==> !Covers(h, x) {
      NoFarFile(upper, lo, hi, r, x);
      assert false;
    }
  }

  /** A key outside the range that no file of the least closed set covers has none of them on its far side. */
  lemma NoFarFile(upper: seq<File>, lo: UserKey, hi: UserKey, r: seq<File>, x: UserKey)
    requires ValidFiles(upper) && LeastClosed(upper, Some(lo), Some(hi), r) && !(lo <= x <= hi) && lo <= hi
    requires forall h :: h in r ==> h in upper && !Covers(h, x)
    ensures forall h :: h in r ==> if x < lo then h.smallest.user > x else h.largest.user < x
  {
    hide ValidFile;
    forall h | h in r
      ensures h.smallest.user <= h.largest.user
    {
      FileBounds(h);
    }
    var far := if x < lo then set h | h in r && h.smallest.user > x else set h | h in r && h.largest.user < x;
    FarIsClosed(upper, lo, hi, r, x, far);
  }

  lemma FarIsClosed(upper: seq<File>, lo: UserKey, hi: UserKey, r: seq<File>, x: UserKey, far: set<File>)
    requires ValidFiles(upper) && OverlapClosed(upper, Some(lo), Some(hi), FileSet(r)) && !(lo <= x <= hi) && lo <= hi
    requires forall h :: h in r ==> h.smallest.user <= h.largest.user && !(h.smallest.user <= x <= h.largest.user)
    requires far == if x < lo then set h | h in r && h.smallest.user > x else set h | h in r && h.largest.user < x
    ensures OverlapClosed(upper, Some(lo), Some(hi), far)
  {
    hide ValidFile;
    forall f | f in upper && (RangeMeets(f, Some(lo), Some(hi)) || exists g :: g in far && FilesMeet(f, g))
      ensures f in far
    {
      if !RangeMeets(f, Some(lo), Some(hi)) {
        var g :| g in far && FilesMeet(f, g);
        assert g in FileSet(r);
      }
      assert f in FileSet(r);
    }
  }

  // ---- picked inputs leave no gap ------------------------------------------------------------------------

  lemma HullExists(fs: seq<File>) returns (lo: UserKey, hi: UserKey)
    requires fs != [] && Ordered(fs)
    ensures HullOf(fs, lo, hi) && lo <= hi
    decreases |fs|
  {
    var f := fs[|fs| - 1];
    lo, hi := f.smallest.user, f.largest.user;
    assert f in fs;
    if |fs| > 1 {
      var rest := fs[..|fs| - 1];
      assert fs == rest + [f];
      var lo', hi' := HullExists(rest);
      var first :| first in rest && first.smallest.user == lo';
      var last :| last in rest && last.largest.user == hi';
      lo := if lo' < lo then lo' else lo;
      hi := if hi < hi' then hi' else hi;
    }
  }

  lemma AreOrdered(upper: seq<File>, fs: seq<File>)
    requires ValidFiles(upper) && forall f :: f in fs ==> f in upper
    ensures Ordered(fs)
  {
    hide ValidFile;
    forall f | f in fs
      ensures f.smallest.user <= f.largest.user
    {
      FileBounds(f);
    }
  }

  /** Where PickCompaction starts. */
  lemma StartIsSolid(level: nat, upper: seq<File>, i: nat, start: seq<File>)
    requires ValidFiles(upper) && StartsAt(level, upper, i, start) && forall f :: f in start ==> f in upper
    ensures Solid(start)
  {
    hide LeastClosed, ValidFile;
    var f := upper[i];
    OneIsSolid(f);
    if level == 0 {
      FileBounds(f);
      assert f in [f];
      assert HullOf([f], f.smallest.user, f.largest.user);
      LeastIsSolid(upper, [f], f.smallest.user, f.largest.user, start);
      SameCover([f] + start, start);
    }
  }

  /** What the boundary search adds to part of a list. */
  lemma ExtendedIsSolid(upper: seq<File>, a: seq<File>, files: seq<File>, r: seq<File>)
    requires ValidFiles(upper) && Solid(a) && Ordered(a) && Extended(upper, files, r) && forall f :: f in files ==>
               f in a
    ensures Solid(a + r)
  {
    hide ValidFile, BoundaryChain;
    var added, key :| r == files + added && LargestOf(files, key) && BoundaryChain(upper, key, added);
    ChainIsSolid(upper, a, key, added);
    SameCover(a + added, a + r);
  }

  lemma {:induction false} ChainIsStored(upper: seq<File>, key: InternalKey, added: seq<File>)
    requires BoundaryChain(upper, key, added)
    ensures forall f :: f in added ==> f in upper
    decreases |added|
  {
    if added != [] {
      ChainIsStored(upper, added[0].largest, added[1..]);
    }
  }

  lemma ExtendedIsStored(upper: seq<File>, files: seq<File>, r: seq<File>)
    requires Extended(upper, files, r) && forall f :: f in files ==> f in upper
    ensures forall f :: f in r ==> f in upper
    ensures forall f :: f in files ==> f in r
  {
    hide BoundaryChain;
    var added, key :| r == files + added && LargestOf(files, key) && BoundaryChain(upper, key, added);
    ChainIsStored(upper, key, added);
  }

  /** The files of the next level that meet the hull. */
  lemma HullIsSolid(lower: seq<File>, in0: seq<File>, in1: seq<File>, a: seq<File>)
    requires ValidFiles(lower) && MeetingHull(lower, in0, in1) && Solid(a) && Ordered(a)
    requires a != [] && forall f :: f in in0 ==> f in a
    ensures Solid(a + in1) && forall f :: f in in1 ==> f in lower
  {
    hide Meeting, ValidFile;
    var lo, hi :| HullOf(in0, lo, hi) && in1 == Meeting(lower, Some(lo), Some(hi));
    MeetingMembers(lower, Some(lo), Some(hi));
    AreOrdered(lower, in1);
    var lo', hi' := HullExists(a);
    MeetingIsSolid(a, lo', hi', in1);
  }

  /** The inputs before any widening. */
  lemma BaseIsSolid(level: nat, upper: seq<File>, lower: seq<File>, i: nat, start: seq<File>, base0: seq<File>,
                    base1: seq<File>)
    requires ValidFiles(upper) && ValidFiles(lower)
    requires StartsAt(level, upper, i, start) && forall f :: f in start ==> f in upper
    requires Extended(upper, start, base0) && MeetingHull(lower, base0, base1)
    ensures Solid(base0 + base1) && Ordered(base0 + base1) && base0 != []
    ensures (forall f :: f in base0 ==> f in upper) && forall f :: f in base1 ==> f in lower
  {
    hide ValidFile, StartsAt, Extended, MeetingHull, Solid;
    SomeStart(level, upper, i, start);
    StartIsSolid(level, upper, i, start);
    ExtendedIsStored(upper, start, base0);
    AreOrdered(upper, start);
    AreOrdered(upper, base0);
    assert start[0] in base0;
    ExtendedIsSolid(upper, start, start, base0);
    assert FileSet(start + base0) == FileSet(base0);
    SameCover(start + base0, base0);
    HullIsSolid(lower, base0, base1, base0);
    AreOrdered(lower, base1);
  }

  lemma SomeStart(level: nat, upper: seq<File>, i: nat, start: seq<File>)
    requires StartsAt(level, upper, i, start)
    ensures start != []
  {
  }

  /** The overlapping files that suggest wider inputs, together with the inputs they come from. */
  lemma OverlapIsSolid(level: nat, upper: seq<File>, a: seq<File>, overlapping: seq<File>)
    requires ValidFiles(upper) && a != [] && Solid(a) && Ordered(a) && OverlappingHull(level, upper, a, overlapping)
    requires forall f :: f in overlapping ==> f in upper
    ensures Solid(a + overlapping)
    ensures forall f :: f in a && f in upper ==> f in overlapping
  {
    hide Meeting, ValidFile;
    var lo, hi :| HullOf(a, lo, hi)
      && (level > 0 ==> overlapping == Meeting(upper, Some(lo), Some(hi)))
      && (level == 0 ==> LeastClosed(upper, Some(lo), Some(hi), overlapping));
    MeetingMembers(upper, Some(lo), Some(hi));
    AreOrdered(upper, overlapping);
    if level > 0 {
      MeetingIsSolid(a, lo, hi, overlapping);
    } else {
      LeastIsSolid(upper, a, lo, hi, overlapping);
    }
    forall f | f in a && f in upper
      ensures f in overlapping
    {
      assert RangeMeets(f, Some(lo), Some(hi));
      assert level == 0 ==> f in FileSet(overlapping);
    }
  }

  /** The inputs after widening. */
  lemma WiderIsSolid(level: nat, upper: seq<File>, lower: seq<File>, base0: seq<File>, base1: seq<File>,
                     wider: seq<File>, in1: seq<File>)
    requires ValidFiles(upper) && ValidFiles(lower) && Solid(base0 + base1) && Ordered(base0 + base1) && base0 != []
    requires (forall f :: f in base0 ==> f in upper) && forall f :: f in base1 ==> f in lower
    requires Suggested(level, upper, base0, base1, wider) && (forall f :: f in wider ==> f in upper)
    requires MeetingHull(lower, base0, base1) && MeetingHull(lower, wider, in1)
    ensures Solid(wider + in1)
  {
    hide ValidFile, Extended, MeetingHull, Solid, OverlappingHull;
    var overlapping :| OverlappingHull(level, upper, base0 + base1, overlapping) && Extended(upper, overlapping, wider);
    InExtended(upper, overlapping, wider);
    var a := base0 + base1;
    OverlapIsSolid(level, upper, a, overlapping);
    AreOrdered(upper, overlapping);
    AreOrdered(upper, wider);
    var b := a + overlapping;
    ExtendedIsSolid(upper, b, overlapping, wider);
    var c := b + wider;
    HullIsSolid(lower, wider, in1, c);
    HullGrows(lower, base0, base1, wider, in1);
    assert FileSet(c + in1) == FileSet(wider + in1);
    SameCover(c + in1, wider + in1);
  }

  lemma InExtended(upper: seq<File>, files: seq<File>, r: seq<File>)
    requires Extended(upper, files, r)
    ensures forall f :: f in files ==> f in r
  {
  }

  lemma HullGrows(lower: seq<File>, in0: seq<File>, in1: seq<File>, wider: seq<File>, wider1: seq<File>)
    requires MeetingHull(lower, in0, in1) && MeetingHull(lower, wider, wider1) && forall f :: f in in0 ==> f in wider
    ensures forall f :: f in in1 ==> f in wider1
  {
    hide Meeting;
    var lo, hi :| HullOf(in0, lo, hi) && in1 == Meeting(lower, Some(lo), Some(hi));
    var lo', hi' :| HullOf(wider, lo', hi') && wider1 == Meeting(lower, Some(lo'), Some(hi'));
    MeetingMembers(lower, Some(lo), Some(hi));
    MeetingMembers(lower, Some(lo'), Some(hi'));
  }

  /**
   Inputs that PickCompaction starts and SetupOtherInputs completes leave no gap: every user key of their hull
   lies within one of them.
   */
  lemma PickedInputsAreSolid(level: nat, upper: seq<File>, lower: seq<File>, i: nat, start: seq<File>, base0: seq<File>,
                             base1: seq<File>, wider: seq<File>, limit: nat, in0: seq<File>, in1: seq<File>)
    requires ValidFiles(upper) && ValidFiles(lower)
    requires StartsAt(level, upper, i, start) && forall f :: f in start ==> f in upper
    requires Extended(upper, start, base0) && MeetingHull(lower, base0, base1)
    requires base1 != [] ==> Suggested(level, upper, base0, base1, wider)
    requires if base1 != [] && Widens(lower, base0, base1, wider, limit) then in0 == wider
             else in0 == base0 && in1 == base1
    requires Chosen(upper, lower, in0, in1)
    ensures Solid(in0 + in1)
  {
    hide ValidFile, StartsAt, Extended, MeetingHull, Suggested, Widens, Solid, NoOlderLeft, Distinct;
    BaseIsSolid(level, upper, lower, i, start, base0, base1);
    if base1 != [] && Widens(lower, base0, base1, wider, limit) {
      WiderIsSolid(level, upper, lower, base0, base1, wider, in1);
    }
  }

  // ---- flushing beside a compaction ----------------------------------------------------------------------

  /** The user-key range of `f` reaches into the hull of inputs_[0]. */
  ghost predicate InHull(in0: seq<File>, f: File) {
    exists lo, hi :: HullOf(in0, lo, hi) && RangeMeets(f, Some(lo), Some(hi))
  }

  /** The flush puts a table into level+1, in a gap between the inputs. */
  ghost predicate FlushesIntoGap(db: Db, level: nat, in0: seq<File>, a: Action) {
    a.FlushMemTable? && db.imm.Some? && db.imm.value != [] && a.level == level + 1 && InHull(in0, a.file)
  }

  /** Inputs without gaps leave no room for the table of a flush that has nothing beside it. */
  lemma SolidHasNoGap(levels: Levels, level: nat, in0: seq<File>, in1: seq<File>, f: File)
    requires level + 1 < |levels| && Solid(in0 + in1) && ValidFiles(levels[level]) && f.smallest.user <= f.largest.user
    requires (forall g :: g in in0 ==> g in levels[level]) && forall g :: g in in1 ==> g in levels[level + 1]
    requires ClearDownTo(levels, level + 1, f)
    ensures !InHull(in0, f)
  {
    hide ValidFile, Solid, InHull;
    assert ClearLevel(levels[level], f) && ClearLevel(levels[level + 1], f);
    if InHull(in0, f) {
      SolidMeets(levels[level], in0, in1, f);
      assert false;
    }
  }

  lemma SolidMeets(upper: seq<File>, in0: seq<File>, in1: seq<File>, f: File)
    requires ValidFiles(upper) && (forall g :: g in in0 ==> g in upper)
    requires Solid(in0 + in1) && f.smallest.user <= f.largest.user && InHull(in0, f)
    ensures exists h :: (h in in0 || h in in1) && RangeMeets(h, Some(f.smallest.user), Some(f.largest.user))
  {
    hide ValidFile;
    var lo, hi :| HullOf(in0, lo, hi) && RangeMeets(f, Some(lo), Some(hi));
    var first :| first in in0 && first.smallest.user == lo;
    var last :| last in in0 && last.largest.user == hi;
    FileBounds(first);
    if f.smallest.user <= first.largest.user {
      assert RangeMeets(first, Some(f.smallest.user), Some(f.largest.user));
    } else {
      assert first in in0 + in1 && last in in0 + in1;
      assert Covered(in0 + in1, f.smallest.user);
      var h :| h in in0 + in1 && Covers(h, f.smallest.user);
      assert RangeMeets(h, Some(f.smallest.user), Some(f.largest.user));
    }
  }

  lemma {:induction false} MeetingInOrder(fs: seq<File>, n: nat, begin: Option<UserKey>, end: Option<UserKey>)
    requires InFileOrder(fs) && n <= |fs|
    ensures InFileOrder(MeetingUpTo(fs, n, begin, end))
  {
    hide FileOrder;
    if n > 0 {
      MeetingInOrder(fs, n - 1, begin, end);
      MeetingUpToMembers(fs, n - 1, begin, end);
      var rest := MeetingUpTo(fs, n - 1, begin, end);
      forall i | 0 <= i < |rest|
        ensures FileOrder(rest[i], fs[n - 1])
      {
        assert rest[i] in fs[..n - 1];
        var j :| 0 <= j < n - 1 && fs[j] == rest[i];
      }
    }
  }

  /** A level that gets no new file, or one that does not meet the range, has the same files in the range. */
  lemma SameMeeting(fs: seq<File>, fs': seq<File>, f: File, lo: UserKey, hi: UserKey)
    requires InFileOrder(fs) && InFileOrder(fs') && !RangeMeets(f, Some(lo), Some(hi))
    requires forall g :: g in fs' <==> g in fs || g == f
    ensures Meeting(fs', Some(lo), Some(hi)) == Meeting(fs, Some(lo), Some(hi))
  {
    hide InFileOrder, MeetingUpTo;
    MeetingInOrder(fs, |fs|, Some(lo), Some(hi));
    MeetingInOrder(fs', |fs'|, Some(lo), Some(hi));
    MeetingMembers(fs, Some(lo), Some(hi));
    MeetingMembers(fs', Some(lo), Some(hi));
    OrderDeterminesList(Meeting(fs', Some(lo), Some(hi)), Meeting(fs, Some(lo), Some(hi)));
  }

  lemma SameList(fs: seq<File>, fs': seq<File>)
    requires InFileOrder(fs) && InFileOrder(fs') && forall g :: g in fs' <==> g in fs
    ensures fs' == fs
  {
    OrderDeterminesList(fs', fs);
  }

  /** A flush that stays out of the gaps leaves the inputs those that SetupOtherInputs would choose. */
  lemma FlushKeepsChosen(db: Db, k: nat, f: File, db': Db, level: nat, in0: seq<File>, in1: seq<File>)
    requires Inv(db) && Flushed(db, k, f, db') && db.imm.value != [] && level + 1 < NUM_LEVELS
    requires |db.levels| == NUM_LEVELS && Chosen(db.levels[level], db.levels[level + 1], in0, in1)
    requires !(k == level + 1 && InHull(in0, f))
    ensures |db'.levels| == NUM_LEVELS && Chosen(db'.levels[level], db'.levels[level + 1], in0, in1)
  {
    hide ValidFile, Sorted, UniqueKeys, NumbersBelow, HullOf, Newer, Tables, Meeting, InFileOrder, ClearDownTo,
         NumbersUnique;
    assert InFileOrder(db.levels[level + 1]) && InFileOrder(db'.levels[level + 1]);
    var lo, hi :| HullOf(in0, lo, hi) && in1 == Meeting(db.levels[level + 1], Some(lo), Some(hi));
    if k == level + 1 {
      SameMeeting(db.levels[level + 1], db'.levels[level + 1], f, lo, hi);
    } else {
      SameList(db.levels[level + 1], db'.levels[level + 1]);
    }
    forall h, g | h in in0 && g in db'.levels[level] && g !in in0
      ensures FileNewer(g, h)
    {
      if g !in db.levels[level] {
        NewerThanTable(EntrySet(f.entries), db.levels, level, h);
      }
    }
  }

  lemma {:induction false} SameSurvivors(input: seq<Entry>, n: nat, smallest: nat, levels: Levels, levels': Levels,
                                         level: nat)
    requires n <= |input|
    requires forall i :: 0 <= i < |input| ==>
               (IsBase(levels', level, input[i].key.user) <==> IsBase(levels, level, input[i].key.user))
    ensures Survivors(input, n, smallest, levels', level) == Survivors(input, n, smallest, levels, level)
  {
    hide IsBase, Hidden;
    if n > 0 {
      SameSurvivors(input, n - 1, smallest, levels, levels', level);
    }
  }

  /** Below the inputs the flush covers none of their keys. */
  lemma FlushKeepsBase(levels: Levels, k: nat, f: File, levels': Levels, level: nat, in0: seq<File>, in1: seq<File>,
                       e: Entry)
    requires level + 1 < |levels| && FileAdded(levels, k, f, levels') && (k > 0 ==> ClearDownTo(levels, k, f))
    requires ValidFiles(levels[level]) && ValidFiles(levels[level + 1])
    requires (forall g :: g in in0 ==> g in levels[level]) && forall g :: g in in1 ==> g in levels[level + 1]
    requires e in Contents(in0) + Contents(in1)
    ensures IsBase(levels', level, e.key.user) <==> IsBase(levels, level, e.key.user)
  {
    hide ValidFile, InFileOrder;
    var h :| (h in in0 || h in in1) && e in h.entries;
    FileBounds(h);
    if level + 2 <= k {
      assert ClearLevel(levels[level], f) && ClearLevel(levels[level + 1], f);
      assert !Covers(f, e.key.user);
    }
    forall l | level + 2 <= l < |levels|
      ensures NoneCovers(levels'[l], e.key.user) <==> NoneCovers(levels[l], e.key.user)
    {
      assert forall g :: g in levels[l] ==> g in levels'[l];
    }
  }

  // ---- a compaction under way ----------------------------------------------------------------------------

  /** The choice that a running compaction has made, and what it will keep of its input. */
  datatype Running = Running(level: nat, inputs0: seq<File>, inputs1: seq<File>, input: seq<Entry>,
                             smallestSnapshot: nat, kept: seq<Entry>)

  /** What the compaction has decided is still what it would decide now. */
  ghost predicate UpToDate(db: Db, c: Running) {
    && c.level + 1 < NUM_LEVELS == |db.levels|
    && Chosen(db.levels[c.level], db.levels[c.level + 1], c.inputs0, c.inputs1)
    && Sorted(c.input) && EntrySet(c.input) == Contents(c.inputs0) + Contents(c.inputs1)
    && c.smallestSnapshot <= db.lastSequence && (forall s <- db.snapshots :: c.smallestSnapshot <= s)
    && c.kept == Survivors(c.input, |c.input|, c.smallestSnapshot, db.levels, c.level)
  }

  /** What goes on beside a compaction: everything but another compaction or move. */
  predicate Beside(a: Action) {
    !a.Compact? && !a.MoveFile?
  }

  lemma FlushKeepsUpToDate(db: Db, k: nat, f: File, db': Db, c: Running)
    requires Inv(db) && Flushed(db, k, f, db') && UpToDate(db, c)
    requires !FlushesIntoGap(db, c.level, c.inputs0, FlushMemTable(k, f))
    ensures UpToDate(db', c)
  {
    hide ValidFile, Sorted, UniqueKeys, NumbersBelow, RecencyOrder, Survivors, ClearDownTo, FileAdded, InHull,
         NumbersUnique, InFileOrder, PairwiseApart, Chosen, Contents;
    if db.imm.value != [] {
      FlushKeepsChosen(db, k, f, db', c.level, c.inputs0, c.inputs1);
      FlushKeepsKept(db.levels, k, f, db'.levels, c.level, c.inputs0, c.inputs1, c.input, c.smallestSnapshot);
    }
  }

  lemma FlushKeepsKept(levels: Levels, k: nat, f: File, levels': Levels, level: nat, in0: seq<File>, in1: seq<File>,
                       input: seq<Entry>, smallest: nat)
    requires level + 1 < |levels| && FileAdded(levels, k, f, levels') && (k > 0 ==> ClearDownTo(levels, k, f))
    requires ValidFiles(levels[level]) && ValidFiles(levels[level + 1])
    requires Chosen(levels[level], levels[level + 1], in0, in1) && EntrySet(input) == Contents(in0) + Contents(in1)
    ensures Survivors(input, |input|, smallest, levels', level) == Survivors(input, |input|, smallest, levels, level)
  {
    hide ValidFiles, Chosen, Survivors, ClearDownTo, FileAdded, Contents, IsBase;
    ChosenAreStored(levels[level], levels[level + 1], in0, in1);
    forall i | 0 <= i < |input|
      ensures IsBase(levels', level, input[i].key.user) <==> IsBase(levels, level, input[i].key.user)
    {
      assert input[i] in EntrySet(input);
      FlushKeepsBase(levels, k, f, levels', level, in0, in1, input[i]);
    }
    SameSurvivors(input, |input|, smallest, levels, levels', level);
  }

  lemma ChosenAreStored(upper: seq<File>, lower: seq<File>, in0: seq<File>, in1: seq<File>)
    requires Chosen(upper, lower, in0, in1)
    ensures (forall f :: f in in0 ==> f in upper) && forall f :: f in in1 ==> f in lower
  {
    hide Meeting;
    var lo, hi :| HullOf(in0, lo, hi) && in1 == Meeting(lower, Some(lo), Some(hi));
    MeetingMembers(lower, Some(lo), Some(hi));
  }

  lemma StepKeepsUpToDate(db: Db, a: Action, db': Db, c: Running)
    requires Inv(db) && Next(db, a, db') && Beside(a) && UpToDate(db, c) && !FlushesIntoGap(db, c.level, c.inputs0, a)
    ensures UpToDate(db', c)
  {
    hide Inv, Chosen, Sorted, Survivors, Flushed, Contents, Applied;
    if a.FlushMemTable? {
      FlushKeepsUpToDate(db, a.level, a.file, db', c);
    } else {
      assert forall s :: s in db'.snapshots ==> s in db.snapshots || s == db.lastSequence;
    }
  }

  ghost predicate BesideAt(states: seq<Db>, actions: seq<Action>, c: Running, i: nat)
    requires i < |states| && i < |actions|
  {
    Beside(actions[i]) && !FlushesIntoGap(states[i], c.level, c.inputs0, actions[i])
  }

  /**
   A compaction that runs while batches are written, memtables switched and flushed, and snapshots come and go:
   if no flush falls into a gap of its inputs, what it installs in the end is one compaction step after all of
   them, so that serialising the two loses nothing.
   */
  lemma {:induction false} CompactionSpans(states: seq<Db>, actions: seq<Action>, c: Running)
    requires Execution(states, actions) && UpToDate(states[0], c)
    requires forall i: nat :: i < |actions| ==> BesideAt(states, actions, c, i)
    ensures UpToDate(states[|actions|], c)
    decreases |actions|
  {
    hide Next, Inv, UpToDate;
    if |actions| > 0 {
      var n := |actions| - 1;
      var states', actions' := states[..n + 1], actions[..n];
      forall i: nat | i < n
        ensures Next(states'[i], actions'[i], states'[i + 1]) && BesideAt(states', actions', c, i)
      {
        assert Next(states[i], actions[i], states[i + 1]) && BesideAt(states, actions, c, i);
      }
      CompactionSpans(states', actions', c);
      RunKeepsInv(states, actions, n);
      assert BesideAt(states, actions, c, n);
      StepKeepsUpToDate(states[n], actions[n], states[n + 1], c);
    }
  }

  /** InstallCompactionResults in a state in which the compaction is up to date. */
  lemma InstallIsStep(db: Db, c: Running, outputs: seq<File>, db': Db)
    requires UpToDate(db, c)
    requires ValidFiles(outputs) && PairwiseApart(outputs) && NumbersDiffer(outputs) && NewNumbers(db.levels, outputs)
    requires Contents(outputs) == EntrySet(c.kept)
               && Replaced(db.levels, c.level, c.inputs0, c.inputs1, outputs, db'.levels)
    requires db.nextFile <= db'.nextFile && db' == db.(levels := db'.levels, nextFile := db'.nextFile)
    requires forall f <- outputs :: f.number < db'.nextFile
    ensures Next(db, Compact(c.level, c.inputs0, c.inputs1, c.input, c.smallestSnapshot, outputs), db')
  {
    hide Chosen, Sorted, Survivors, Contents, Replaced, ValidFiles, PairwiseApart, NumbersDiffer;
  }

  lemma BesidesSolid(db: Db, a: Action, db': Db, c: Running)
    requires Inv(db) && Next(db, a, db') && UpToDate(db, c) && Solid(c.inputs0 + c.inputs1)
    ensures !FlushesIntoGap(db, c.level, c.inputs0, a)
  {
    hide ValidFile, Sorted, Survivors, Contents, Solid, NoOlderLeft, MeetingHull, RecencyOrder, UniqueKeys, InHull,
         FileAdded, ClearDownTo, Applied, Replaced, NumbersUnique;
    if a.FlushMemTable? && db.imm.Some? && db.imm.value != [] && a.level == c.level + 1 {
      ChosenAreStored(db.levels[c.level], db.levels[c.level + 1], c.inputs0, c.inputs1);
      FileBounds(a.file);
      SolidHasNoGap(db.levels, c.level, c.inputs0, c.inputs1, a.file);
    }
  }

  /** For inputs without gaps, as PickCompaction gives them, no flush is in the way. */
  lemma {:induction false} PickedCompactionSpans(states: seq<Db>, actions: seq<Action>, c: Running)
    requires Execution(states, actions) && UpToDate(states[0], c) && Solid(c.inputs0 + c.inputs1)
    requires forall i: nat :: i < |actions| ==> Beside(actions[i])
    ensures UpToDate(states[|actions|], c)
    decreases |actions|
  {
    hide Next, Inv, UpToDate, Solid;
    if |actions| > 0 {
      var n := |actions| - 1;
      var states', actions' := states[..n + 1], actions[..n];
      forall i: nat | i < n
        ensures Next(states'[i], actions'[i], states'[i + 1])
      {
        assert Next(states[i], actions[i], states[i + 1]);
      }
      PickedCompactionSpans(states', actions', c);
      RunKeepsInv(states, actions, n);
      BesidesSolid(states[n], actions[n], states[n + 1], c);
      StepKeepsUpToDate(states[n], actions[n], states[n + 1], c);
    }
  }

  // ---- a flush into a gap --------------------------------------------------------------------------------

  /** Tables with new numbers that hold nothing but entries of the inputs. */
  ghost predicate MadeOf(levels: Levels, in0: seq<File>, in1: seq<File>, outputs: seq<File>) {
    && ValidFiles(outputs) && PairwiseApart(outputs) && NumbersDiffer(outputs) && NewNumbers(levels, outputs)
    && Contents(outputs) <= Contents(in0) + Contents(in1)
  }

  /** Whatever the compaction makes of its inputs, installing it gives valid levels. */
  ghost predicate InstallsSafely(levels: Levels, level: nat, in0: seq<File>, in1: seq<File>) {
    forall outputs, levels' :: MadeOf(levels, in0, in1, outputs) && Replaced(levels, level, in0, in1, outputs, levels')
                               ==> ValidLevels(levels')
  }

  /** A level without the files that are dropped from it. */
  function Without(fs: seq<File>, drop: seq<File>): seq<File> {
    if fs == [] then [] else (if fs[0] in drop then [] else [fs[0]]) + Without(fs[1..], drop)
  }

  lemma {:induction false} WithoutIs(fs: seq<File>, drop: seq<File>)
    requires InFileOrder(fs)
    ensures forall f :: f in Without(fs, drop) <==> f in fs && f !in drop
    ensures InFileOrder(Without(fs, drop))
  {
    hide FileOrder;
    if fs != [] {
      WithoutIs(fs[1..], drop);
      var rest := Without(fs[1..], drop);
      assert fs == [fs[0]] + fs[1..];
      forall i | 0 <= i < |rest|
        ensures FileOrder(fs[0], rest[i])
      {
        assert rest[i] in fs[1..];
        var j :| 0 <= j < |fs| - 1 && fs[1..][j] == rest[i];
        assert FileOrder(fs[0], fs[j + 1]);
      }
    }
  }

  /** The table of the flush lies strictly between two files of inputs_[0]. */
  lemma BetweenTwo(upper: seq<File>, in0: seq<File>, f: File) returns (p: File, q: File)
    requires ValidFiles(upper) && (forall g :: g in in0 ==> g in upper) && ClearLevel(upper, f)
    requires f.smallest.user <= f.largest.user && InHull(in0, f)
    ensures p in in0 && q in in0 && p.smallest.user < f.smallest.user && f.largest.user < q.largest.user
  {
    hide ValidFile;
    var lo, hi :| HullOf(in0, lo, hi) && RangeMeets(f, Some(lo), Some(hi));
    p :| p in in0 && p.smallest.user == lo;
    q :| q in in0 && q.largest.user == hi;
    FileBounds(p);
    FileBounds(q);
  }

  /** One output with the first entry of one input and the last of another. */
  function Spanning(number: nat, p: File, q: File): File
    requires p.entries != [] && q.entries != []
  {
    File(number, 1, p.smallest, q.largest, [p.entries[0], q.entries[|q.entries| - 1]])
  }

  lemma SpanningIsMade(levels: Levels, n: nat, in0: seq<File>, in1: seq<File>, p: File, q: File)
    requires ValidFile(p) && ValidFile(q) && p in in0 && q in in0 && p.smallest.user < q.largest.user
    requires NumbersBelow(levels, n)
    ensures MadeOf(levels, in0, in1, [Spanning(n, p, q)])
  {
    var o := Spanning(n, p, q);
    assert ValidFile(o);
    forall e | e in Contents([o])
      ensures e in Contents(in0)
    {
      assert e in p.entries || e in q.entries;
    }
  }

  /** The levels with one output in the place of the inputs. */
  function Replacing(levels: Levels, level: nat, in0: seq<File>, in1: seq<File>, o: File): Levels
    requires level + 1 < |levels|
  {
    levels[level := Without(levels[level], in0)][level + 1 := InsertFile(Without(levels[level + 1], in1), o)]
  }

  lemma ReplacingIs(levels: Levels, level: nat, in0: seq<File>, in1: seq<File>, o: File)
    requires level + 1 < |levels| && (forall l :: 0 <= l < |levels| ==> InFileOrder(levels[l]))
    requires forall g :: g in levels[level + 1] ==> g.number != o.number
    ensures Replaced(levels, level, in0, in1, [o], Replacing(levels, level, in0, in1, o))
  {
    hide InFileOrder, InsertFile, Without;
    WithoutIs(levels[level], in0);
    WithoutIs(levels[level + 1], in1);
    var rest := Without(levels[level + 1], in1);
    InsertFileKeepsOrder(rest, o);
    assert forall g :: g in InsertFile(rest, o) <==> g in FileSet(InsertFile(rest, o));
    assert forall g :: g in rest <==> g in FileSet(rest);
  }

  /** A table in a gap overlaps such an output. */
  lemma GapBreaks(levels: Levels, level: nat, in0: seq<File>, in1: seq<File>, n: nat, f: File, p: File, q: File)
    requires level + 1 < NUM_LEVELS == |levels| && ValidLevels(levels) && NumbersBelow(levels, n)
    requires f in levels[level + 1] && f !in in1 && f.smallest.user <= f.largest.user
    requires p in in0 && q in in0 && ValidFile(p) && ValidFile(q)
    requires p.smallest.user < f.smallest.user && f.largest.user < q.largest.user
    ensures !InstallsSafely(levels, level, in0, in1)
  {
    hide InFileOrder, MadeOf, Replaced, NumbersUnique;
    var o := Spanning(n, p, q);
    SpanningIsMade(levels, n, in0, in1, p, q);
    ReplacingIs(levels, level, in0, in1, o);
    var levels' := Replacing(levels, level, in0, in1, o);
    InBothReplaced(levels, level, in0, in1, o, levels', f);
    assert !Apart(o, f);
    assert !PairwiseApart(levels'[level + 1]);
    assert !ValidLevels(levels');
  }

  lemma InBothReplaced(levels: Levels, level: nat, in0: seq<File>, in1: seq<File>, o: File, levels': Levels, f: File)
    requires Replaced(levels, level, in0, in1, [o], levels') && f in levels[level + 1] && f !in in1
    ensures f in levels'[level + 1] && o in levels'[level + 1]
  {
    hide InFileOrder;
  }

  /**
   After a flush in the middle of a compaction the levels stay valid whatever the compaction installs, if and
   only if the flush did not put its table into level+1 within the hull of inputs_[0]: a check on the ranges of
   files that can be made before the table is written.
   */
  lemma FlushIsSafeIff(db: Db, k: nat, f: File, db': Db, level: nat, in0: seq<File>, in1: seq<File>)
    requires Inv(db) && Flushed(db, k, f, db') && db.imm.value != [] && level + 1 < NUM_LEVELS
    requires |db.levels| == NUM_LEVELS && Chosen(db.levels[level], db.levels[level + 1], in0, in1)
    ensures |db'.levels| == NUM_LEVELS
    ensures InstallsSafely(db'.levels, level, in0, in1) <==> !(k == level + 1 && InHull(in0, f))
  {
    hide ValidFile, Sorted, UniqueKeys, RecencyOrder, HullOf, Tables, Meeting, InFileOrder, InHull, MadeOf, Replaced,
         InstallsSafely, Chosen, ClearDownTo, NumbersUnique, PairwiseApart;
    FlushKeepsInv(db, k, f, db');
    if k == level + 1 && InHull(in0, f) {
      FileBounds(f);
      ChosenAreStored(db.levels[level], db.levels[level + 1], in0, in1);
      ClearAt(db.levels, k, f, level);
      var p, q := BetweenTwo(db.levels[level], in0, f);
      NewFileIsNoInput(db, f, in1, level + 1);
      GapBreaks(db'.levels, level, in0, in1, db'.nextFile, f, p, q);
    } else {
      FlushKeepsChosen(db, k, f, db', level, in0, in1);
      ChosenInstallsSafely(db'.levels, level, in0, in1);
    }
  }

  lemma ClearAt(levels: Levels, k: nat, f: File, l: nat)
    requires l <= k < |levels| && ClearDownTo(levels, k, f)
    ensures ClearLevel(levels[l], f)
  {
  }

  lemma NewFileIsNoInput(db: Db, f: File, in1: seq<File>, l: nat)
    requires NumbersBelow(db.levels, db.nextFile) && db.nextFile <= f.number && l < |db.levels|
    requires forall g :: g in in1 ==> g in db.levels[l]
    ensures f !in in1
  {
  }

  lemma MadeIsGood(levels: Levels, level: nat, in0: seq<File>, in1: seq<File>, outputs: seq<File>)
    requires ValidLevels(levels) && level + 1 < NUM_LEVELS == |levels|
               && Chosen(levels[level], levels[level + 1], in0, in1)
    requires MadeOf(levels, in0, in1, outputs)
    ensures GoodReplacement(levels, level, in0, in1, outputs)
  {
    hide ValidFiles, InFileOrder, Chosen, NumbersUnique, PairwiseApart, Contents, NumbersDiffer;
  }

  lemma ChosenInstallsSafely(levels: Levels, level: nat, in0: seq<File>, in1: seq<File>)
    requires ValidLevels(levels) && level + 1 < NUM_LEVELS == |levels|
               && Chosen(levels[level], levels[level + 1], in0, in1)
    ensures InstallsSafely(levels, level, in0, in1)
  {
    hide Chosen, Replaced, MadeOf, GoodReplacement, ValidLevels;
    forall outputs, levels' | MadeOf(levels, in0, in1, outputs) && Replaced(levels, level, in0, in1, outputs, levels')
      ensures ValidLevels(levels')
    {
      MadeIsGood(levels, level, in0, in1, outputs);
      ReplacedIsValid(levels, level, in0, in1, outputs, levels');
    }
  }
}
