/**
 Point lookups (MemTable::Get, Version::Get): the first hit, searching from the newest layer down, is the
 newest version the reader may see.
 */
module Lookup {
  import opened Options
  import opened Keys
  import opened Files
  import opened Lsm

  /** Seek to (user, snapshot) in one sorted run and check the user key. */
  function SeekIn(es: seq<Entry>, user: UserKey, snapshot: nat): Option<Entry> {
    var k := LowerBound(es, SeekKey(user, snapshot));
    if k < |es| && es[k].key.user == user then Some(es[k]) else None
  }

  /** `r` is the newest version of `user` in `s` at `snapshot`, if there is one. */
  ghost predicate IsLookup(s: set<Entry>, user: UserKey, snapshot: nat, r: Option<Entry>) {
    && (r.None? ==> forall d :: !Visible(s, user, snapshot, d))
    && (r.Some? ==> Newest(s, user, snapshot, r.value))
  }

  lemma SeekFindsNewest(es: seq<Entry>, user: UserKey, snapshot: nat)
    requires Sorted(es)
    ensures IsLookup(EntrySet(es), user, snapshot, SeekIn(es, user, snapshot))
  {
    var k := LowerBound(es, SeekKey(user, snapshot));
    forall d | Visible(EntrySet(es), user, snapshot, d)
      ensures k < |es| && es[k].key.user == user && d.key.sequence <= es[k].key.sequence
    {
      var i :| 0 <= i < |es| && es[i] == d;
      assert k <= i;
      assert k < i ==> Before(es[k].key, es[i].key);
    }
  }

  /** A lookup that starts with a newer layer and falls through to an older one. */
  lemma LookupFallsThrough(s: set<Entry>, t: set<Entry>, user: UserKey, snapshot: nat,
                           r: Option<Entry>, q: Option<Entry>)
    requires Newer(s, t) && IsLookup(s, user, snapshot, r) && (r.None? ==> IsLookup(t, user, snapshot, q))
    ensures IsLookup(s + t, user, snapshot, if r.Some? then r else q)
  {
    if r.Some? {
      NewestOfUnion(s, t, user, snapshot, r.value);
    } else if q.Some? {
      NewestOfUnion(t, s, user, snapshot, q.value);
    } else {
      forall d
        ensures !Visible(s + t, user, snapshot, d)
      {
        assert !Visible(s, user, snapshot, d) && !Visible(t, user, snapshot, d);
      }
    }
  }

  // ---- one level above 0 -----------------------------------------------------------------------------

  /** An entry of another file of the level against the one file that is searched. */
  lemma OneFileSuffices(fs: seq<File>, index: nat, m: nat, user: UserKey, snapshot: nat, d: Entry)
    requires SortedLevel(fs)
    requires index <= |fs| && m < |fs|
    requires forall i :: 0 <= i < index ==> Before(fs[i].largest, SeekKey(user, snapshot))
    requires index < |fs| ==> !Before(fs[index].largest, SeekKey(user, snapshot))
    requires Visible(EntrySet(fs[m].entries), user, snapshot, d)
    ensures index < |fs| && fs[index].smallest.user <= user
    ensures m == index
      || exists e :: Visible(EntrySet(fs[index].entries), user, snapshot, e) && d.key.sequence <= e.key.sequence
  {
    FileBounds(fs[m]);
    assert index <= m;
    FileBounds(fs[index]);
    var f := fs[index];
    var last := f.entries[|f.entries| - 1];
    if index < m {
      assert Before(f.largest, fs[m].smallest);
      assert Visible(EntrySet(f.entries), user, snapshot, last);
    }
  }

  lemma OneFileDecides(fs: seq<File>, index: nat, user: UserKey, snapshot: nat, r: Option<Entry>)
    requires SortedLevel(fs) && index <= |fs|
    requires forall i :: 0 <= i < index ==> Before(fs[i].largest, SeekKey(user, snapshot))
    requires index < |fs| ==> !Before(fs[index].largest, SeekKey(user, snapshot))
    requires if index < |fs| && fs[index].smallest.user <= user
      then IsLookup(EntrySet(fs[index].entries), user, snapshot, r) else r.None?
    ensures IsLookup(Contents(fs), user, snapshot, r)
  {
    hide SortedLevel, ValidFiles;
    forall d | Visible(Contents(fs), user, snapshot, d)
      ensures r.Some? && d.key.sequence <= r.value.key.sequence
    {
      var f :| f in fs && d in f.entries;
      var m :| 0 <= m < |fs| && fs[m] == f;
      assert Visible(EntrySet(fs[m].entries), user, snapshot, d);
      OneFileSuffices(fs, index, m, user, snapshot, d);
      if m != index {
        var e :| Visible(EntrySet(fs[index].entries), user, snapshot, e) && d.key.sequence <= e.key.sequence;
      }
    }
  }

  /** The lookup in one sorted level: the first file that ends at or after the target. */
  method LevelGet(fs: seq<File>, user: UserKey, snapshot: nat) returns (r: Option<Entry>)
    requires SortedLevel(fs)
    ensures IsLookup(Contents(fs), user, snapshot, r)
  {
    hide Contents, IsLookup, EntrySet;
    var index := FindFile(fs, SeekKey(user, snapshot));
    r := None;
    if index < |fs| && fs[index].smallest.user <= user {
      assert ValidFile(fs[index]);
      r := SeekIn(fs[index].entries, user, snapshot);
      SeekFindsNewest(fs[index].entries, user, snapshot);
    }
    OneFileDecides(fs, index, user, snapshot, r);
  }

  // ---- level 0 ------------------------------------------------------------------------------------------

  function InsertNewest(f: File, fs: seq<File>): seq<File> {
    if fs == [] || f.number >= fs[0].number then [f] + fs else [fs[0]] + InsertNewest(f, fs[1..])
  }

  /** std::sort with NewestFirst. */
  function SortNewestFirst(fs: seq<File>): seq<File> {
    if fs == [] then [] else InsertNewest(fs[0], SortNewestFirst(fs[1..]))
  }

  ghost predicate NewestFirst(fs: seq<File>) {
    forall i, j :: 0 <= i < j < |fs| ==> fs[i].number >= fs[j].number
  }

  lemma {:induction false} InsertNewestIsSorted(f: File, fs: seq<File>)
    requires NewestFirst(fs)
    ensures NewestFirst(InsertNewest(f, fs))
    ensures forall g :: g in InsertNewest(f, fs) <==> g == f || g in fs
  {
    if fs == [] || f.number >= fs[0].number {
    } else {
      InsertNewestIsSorted(f, fs[1..]);
      assert fs == [fs[0]] + fs[1..];
      var rest := InsertNewest(f, fs[1..]);
      assert forall i :: 0 <= i < |rest| ==> rest[i] in rest;
    }
  }

  lemma {:induction false} SortNewestFirstIsSorted(fs: seq<File>)
    ensures NewestFirst(SortNewestFirst(fs))
    ensures forall g :: g in SortNewestFirst(fs) <==> g in fs
  {
    if fs != [] {
      SortNewestFirstIsSorted(fs[1..]);
      InsertNewestIsSorted(fs[0], SortNewestFirst(fs[1..]));
      assert fs == [fs[0]] + fs[1..];
    }
  }

  /** The lookup in level 0: every file covering the user key, newest file first. */
  method Level0Get(fs: seq<File>, user: UserKey, snapshot: nat) returns (r: Option<Entry>)
    requires ValidFiles(fs) && NumbersDiffer(fs)
    requires NewerByNumber(fs)
    ensures IsLookup(Contents(fs), user, snapshot, r)
  {
    var tmp := [];
    for i := 0 to |fs|
      invariant forall f :: f in tmp <==> f in fs[..i] && Covers(f, user)
    {
      if Covers(fs[i], user) {
        tmp := tmp + [fs[i]];
      }
    }
    assert fs[..|fs|] == fs;
    SortNewestFirstIsSorted(tmp);
    tmp := SortNewestFirst(tmp);
    r := None;
    for i := 0 to |tmp|
      invariant forall j :: 0 <= j < i ==> IsLookup(EntrySet(tmp[j].entries), user, snapshot, None)
    {
      assert tmp[i] in tmp && ValidFile(tmp[i]);
      r := SeekIn(tmp[i].entries, user, snapshot);
      SeekFindsNewest(tmp[i].entries, user, snapshot);
      if r.Some? {
        Level0Hit(fs, tmp, i, user, snapshot, r.value);
        return;
      }
    }
    Level0Miss(fs, tmp, user, snapshot);
    r := None;
  }

  lemma Level0Miss(fs: seq<File>, tmp: seq<File>, user: UserKey, snapshot: nat)
    requires ValidFiles(fs) && forall f :: f in tmp <==> f in fs && Covers(f, user)
    requires forall j :: 0 <= j < |tmp| ==> IsLookup(EntrySet(tmp[j].entries), user, snapshot, None)
    ensures IsLookup(Contents(fs), user, snapshot, None)
  {
    if d :| Visible(Contents(fs), user, snapshot, d) {
      var j := CoveringFile(fs, tmp, user, snapshot, d);
      assert false;
    }
  }

  lemma CoveringFile(fs: seq<File>, tmp: seq<File>, user: UserKey, snapshot: nat, d: Entry) returns (j: nat)
    requires ValidFiles(fs) && forall f :: f in tmp <==> f in fs && Covers(f, user)
    requires Visible(Contents(fs), user, snapshot, d)
    ensures j < |tmp| && Visible(EntrySet(tmp[j].entries), user, snapshot, d)
  {
    var f :| f in fs && d in f.entries;
    FileBounds(f);
    assert f in tmp;
    j :| 0 <= j < |tmp| && tmp[j] == f;
  }

  lemma Level0Hit(fs: seq<File>, tmp: seq<File>, i: nat, user: UserKey, snapshot: nat, e: Entry)
    requires ValidFiles(fs) && NumbersDiffer(fs) && NewestFirst(tmp)
    requires forall f :: f in tmp <==> f in fs && Covers(f, user)
    requires NewerByNumber(fs)
    requires i < |tmp| && Newest(EntrySet(tmp[i].entries), user, snapshot, e)
    requires forall j :: 0 <= j < i ==> IsLookup(EntrySet(tmp[j].entries), user, snapshot, None)
    ensures Newest(Contents(fs), user, snapshot, e)
  {
    assert tmp[i] in tmp;
    forall d | Visible(Contents(fs), user, snapshot, d)
      ensures d.key.sequence <= e.key.sequence
    {
      var j := CoveringFile(fs, tmp, user, snapshot, d);
      assert tmp[j] in tmp;
      if tmp[j] != tmp[i] {
        assert FileNewer(tmp[i], tmp[j]);
      }
    }
  }

  // ---- all levels -------------------------------------------------------------------------------------------

  ghost function TablesUpTo(levels: Levels, n: nat): set<Entry>
    requires n <= |levels|
  {
    if n == 0 then {} else TablesUpTo(levels, n - 1) + Contents(levels[n - 1])
  }

  lemma {:induction false} TablesUpToAre(levels: Levels, n: nat)
    requires n <= |levels|
    ensures forall e :: e in TablesUpTo(levels, n) <==>
      exists l, f :: 0 <= l < n && f in levels[l] && e in f.entries
  {
    if n > 0 {
      TablesUpToAre(levels, n - 1);
    }
  }

  lemma NextLevelIsOlder(levels: Levels, n: nat)
    requires n < |levels| && LevelsInRecencyOrder(levels)
    ensures Newer(TablesUpTo(levels, n), Contents(levels[n]))
  {
    TablesUpToAre(levels, n);
    forall d, e | d in TablesUpTo(levels, n) && e in Contents(levels[n]) && d.key.user == e.key.user
      ensures d.key.sequence > e.key.sequence
    {
      var l, f :| 0 <= l < n && f in levels[l] && d in f.entries;
      var g :| g in levels[n] && e in g.entries;
      assert FileNewer(f, g);
    }
  }

  /** A hit in the levels searched so far is a hit in all of them. */
  lemma LevelHitIsFinal(levels: Levels, n: nat, user: UserKey, snapshot: nat, e: Entry)
    requires n <= |levels| && LevelsInRecencyOrder(levels)
    requires Newest(TablesUpTo(levels, n), user, snapshot, e)
    ensures Newest(Tables(levels), user, snapshot, e)
  {
    TablesUpToAre(levels, n);
    var k, f :| 0 <= k < n && f in levels[k] && e in f.entries;
    forall d | Visible(Tables(levels), user, snapshot, d)
      ensures d.key.sequence <= e.key.sequence
    {
      var l, g :| 0 <= l < |levels| && g in levels[l] && d in g.entries;
      if l < n {
        assert d in TablesUpTo(levels, n);
        assert Visible(TablesUpTo(levels, n), user, snapshot, d);
      } else {
        assert FileNewer(f, g);
      }
    }
  }

  ghost predicate NewerByNumber(fs: seq<File>) {
    forall f, g :: f in fs && g in fs && f.number > g.number ==> FileNewer(f, g)
  }

  lemma OneLevel(levels: Levels, l: nat)
    requires l < NUM_LEVELS == |levels| && ValidLevels(levels) && LevelsInRecencyOrder(levels)
    ensures ValidFiles(levels[l]) && NumbersDiffer(levels[l])
    ensures if l == 0 then NewerByNumber(levels[l]) else SortedLevel(levels[l])
  {
    if l > 0 {
      OrderedApartIsSorted(levels[l]);
    }
  }

  lemma NothingUpTo(levels: Levels, n: nat, user: UserKey, snapshot: nat, r: Option<Entry>)
    requires n < |levels| && LevelsInRecencyOrder(levels)
    requires IsLookup(TablesUpTo(levels, n), user, snapshot, None)
    requires IsLookup(Contents(levels[n]), user, snapshot, r)
    ensures IsLookup(TablesUpTo(levels, n + 1), user, snapshot, r)
  {
    NextLevelIsOlder(levels, n);
    LookupFallsThrough(TablesUpTo(levels, n), Contents(levels[n]), user, snapshot, None, r);
  }

  lemma HitIsLookup(levels: Levels, n: nat, user: UserKey, snapshot: nat, r: Option<Entry>)
    requires n <= |levels| && LevelsInRecencyOrder(levels)
    requires IsLookup(TablesUpTo(levels, n), user, snapshot, r) && (r.Some? || n == |levels|)
    ensures IsLookup(Tables(levels), user, snapshot, r)
  {
    if r.Some? {
      LevelHitIsFinal(levels, n, user, snapshot, r.value);
    } else {
      TablesUpToAre(levels, n);
      assert TablesUpTo(levels, n) == Tables(levels);
    }
  }

  /** Version::Get. */
  method VersionGet(levels: Levels, user: UserKey, snapshot: nat) returns (r: Option<Entry>)
    requires NUM_LEVELS == |levels| && ValidLevels(levels) && LevelsInRecencyOrder(levels)
    ensures IsLookup(Tables(levels), user, snapshot, r)
  {
    hide ValidLevels, LevelsInRecencyOrder, Tables, Contents, SortedLevel, ValidFiles;
    for level := 0 to NUM_LEVELS
      invariant IsLookup(TablesUpTo(levels, level), user, snapshot, None)
    {
      var fs := levels[level];
      OneLevel(levels, level);
      r := None;
      if fs != [] {
        if level == 0 {
          r := Level0Get(fs, user, snapshot);
        } else {
          r := LevelGet(fs, user, snapshot);
        }
      } else {
        EmptyLevel(fs, user, snapshot);
      }
      NothingUpTo(levels, level, user, snapshot, r);
      if r.Some? {
        HitIsLookup(levels, level + 1, user, snapshot, r);
        return;
      }
    }
    r := None;
    HitIsLookup(levels, NUM_LEVELS, user, snapshot, r);
  }

  lemma EmptyLevel(fs: seq<File>, user: UserKey, snapshot: nat)
    requires fs == []
    ensures IsLookup(Contents(fs), user, snapshot, None)
  {
  }

  /** What a lookup returns to the caller. */
  function ValueOf(r: Option<Entry>): Option<seq<Byte>> {
    if r.Some? && r.value.key.kind.Value? then Some(r.value.value) else None
  }

  lemma LookupIsView(s: set<Entry>, user: UserKey, snapshot: nat, r: Option<Entry>)
    requires UniqueKeys(s) && IsLookup(s, user, snapshot, r)
    ensures ValueOf(r) == View(s, user, snapshot)
  {
    if r.Some? {
      ViewOfNewest(s, user, snapshot, r.value);
    }
  }
}
