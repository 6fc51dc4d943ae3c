/**
 The iterators of a database stacked (DBImpl::NewInternalIterator, Version::AddIterators): what DBIter shows is
 what reads of the memtables and tables at the snapshot give.
 */
module DbIterators {
  import opened Options
  import opened Keys
  import opened Files
  import opened Lsm
  import opened DoCompaction
  import opened Cursors
  import opened TwoLevel
  import opened Merger
  import opened DbIter

  // ---- the runs of a database ----------------------------------------------------------------------------

  function FileRuns(fs: seq<File>): (r: seq<seq<Entry>>)
    ensures |r| == |fs| && forall i :: 0 <= i < |r| ==> r[i] == fs[i].entries
  {
    seq(|fs|, i requires 0 <= i < |fs| => fs[i].entries)
  }

  /** The concatenating iterator of a level. */
  function LevelRun(fs: seq<File>): seq<Entry> {
    Concat(FileRuns(fs))
  }

  /** One run for each level from 1 up to `n` that has files. */
  function DeeperRuns(levels: Levels, n: nat): seq<seq<Entry>>
    requires n <= |levels|
  {
    if n <= 1 then [] else
      DeeperRuns(levels, n - 1) + if levels[n - 1] == [] then [] else [LevelRun(levels[n - 1])]
  }

  function MemRuns(db: Db): seq<seq<Entry>> {
    [db.mem] + if db.imm.Some? then [db.imm.value] else []
  }

  /** The memtables, every file of level 0, and one run for each deeper level. */
  function RunsOf(db: Db): seq<seq<Entry>>
    requires |db.levels| > 0
  {
    MemRuns(db) + FileRuns(db.levels[0]) + DeeperRuns(db.levels, |db.levels|)
  }

  ghost function Union(runs: seq<seq<Entry>>): set<Entry> {
    set i, e | 0 <= i < |runs| && e in runs[i] :: e
  }

  lemma UnionGrows(runs: seq<seq<Entry>>, r: seq<Entry>)
    ensures Union(runs + [r]) == Union(runs) + EntrySet(r)
  {
    var more := runs + [r];
    forall e
      ensures e in Union(more) <==> e in Union(runs) + EntrySet(r)
    {
      if e in Union(runs) {
        var i :| 0 <= i < |runs| && e in runs[i];
        assert more[i] == runs[i];
      }
      if e in r {
        assert more[|runs|] == r;
      }
      if e in Union(more) {
        var i :| 0 <= i < |more| && e in more[i];
        assert i < |runs| ==> runs[i] == more[i];
      }
    }
  }

  // ---- distinct keys -------------------------------------------------------------------------------------

  /** No version of a key is in both. */
  ghost predicate VersionsDiffer(s: set<Entry>, t: set<Entry>) {
    forall d, e :: d in s && e in t && d.key.user == e.key.user ==> d.key.sequence != e.key.sequence
  }

  lemma NewerDiffers(s: set<Entry>, t: set<Entry>)
    requires Newer(s, t) || Newer(t, s)
    ensures VersionsDiffer(s, t)
  {
  }

  /** One more run. */
  lemma OneMoreRun(runs: seq<seq<Entry>>, r: seq<Entry>)
    requires GoodRuns(runs) && Sorted(r) && VersionsDiffer(Union(runs), EntrySet(r))
    ensures GoodRuns(runs + [r]) && Union(runs + [r]) == Union(runs) + EntrySet(r)
  {
    hide Sorted;
    UnionGrows(runs, r);
    var more: seq<seq<Entry>> := runs + [r];
    forall i: nat, j: nat, a: nat, b: nat | i < |more| && j < |more| && i != j && a < |more[i]| && b < |more[j]|
      ensures Strict(more[i][a].key, more[j][b].key)
    {
      if i < |runs| && j < |runs| {
        assert Strict(runs[i][a].key, runs[j][b].key);
      } else {
        var k, c, d := if i < |runs| then i else j, if i < |runs| then a else b, if i < |runs| then b else a;
        assert more[k] == runs[k] && more[|runs|] == r;
        assert runs[k][c] in runs[k] && r[d] in EntrySet(r);
        assert runs[k][c] in Union(runs);
        assert VersionsDiffer(Union(runs), EntrySet(r));
      }
    }
  }

  lemma MemRunsAreGood(db: Db)
    requires Sorted(db.mem) && (db.imm.Some? ==> Sorted(db.imm.value)) && Newer(EntrySet(db.mem), Imm(db))
    ensures GoodRuns(MemRuns(db)) && Union(MemRuns(db)) == EntrySet(db.mem) + Imm(db)
  {
    hide Sorted, GoodRuns;
    NoRuns();
    OneMoreRun([], db.mem);
    assert [] + [db.mem] == [db.mem];
    if db.imm.Some? {
      NewerDiffers(EntrySet(db.mem), EntrySet(db.imm.value));
      OneMoreRun([db.mem], db.imm.value);
    } else {
      assert [db.mem] + [] == [db.mem];
    }
  }

  lemma NoRuns()
    ensures GoodRuns([]) && Union([]) == {}
  {
  }

  // ---- level 0 -------------------------------------------------------------------------------------------

  /** Of two files of level 0 one is newer. */
  lemma Level0Differs(levels: Levels, i: nat, j: nat)
    requires |levels| > 0 && LevelsInRecencyOrder(levels) && NumbersUnique(levels) && i < j < |levels[0]|
    requires levels[0][i] != levels[0][j]
    ensures VersionsDiffer(EntrySet(levels[0][i].entries), EntrySet(levels[0][j].entries))
  {
    hide Newer;
    var f, g := levels[0][i], levels[0][j];
    assert f in levels[0] && g in levels[0] && f.number != g.number;
    assert FileNewer(f, g) || FileNewer(g, f);
    NewerDiffers(EntrySet(f.entries), EntrySet(g.entries));
  }

  lemma {:induction false} Level0RunsAreGood(runs: seq<seq<Entry>>, levels: Levels, n: nat)
    requires |levels| > 0 && n <= |levels[0]| && LevelsInRecencyOrder(levels) && NumbersUnique(levels)
    requires ValidFiles(levels[0]) && InFileOrder(levels[0])
    requires GoodRuns(runs) && Newer(Union(runs), Tables(levels))
    ensures GoodRuns(runs + FileRuns(levels[0][..n]))
    ensures Union(runs + FileRuns(levels[0][..n])) == Union(runs) + Contents(levels[0][..n])
  {
    hide LevelsInRecencyOrder, NumbersUnique, InFileOrder, Newer, GoodRuns, Tables, Union, ValidFile, Contents, Sorted,
         EntrySet;
    var fs := levels[0];
    if n == 0 {
      NoFileRuns(runs);
    } else {
      Level0RunsAreGood(runs, levels, n - 1);
      var f := fs[n - 1];
      var before := runs + FileRuns(fs[..n - 1]);
      assert fs[..n] == fs[..n - 1] + [f];
      assert runs + FileRuns(fs[..n]) == before + [f.entries];
      NewFileDiffers(runs, levels, n - 1);
      assert Sorted(f.entries) by {
        FileIsSorted(f);
      }
      OneMoreRun(before, f.entries);
      ContentsOneMore(fs[..n - 1], f);
    }
  }

  lemma NoFileRuns(runs: seq<seq<Entry>>)
    ensures runs + FileRuns([]) == runs && Contents([]) == {}
  {
  }

  lemma FileIsSorted(f: File)
    requires ValidFile(f)
    ensures Sorted(f.entries)
  {
  }

  lemma ContentsOneMore(fs: seq<File>, f: File)
    ensures Contents(fs + [f]) == Contents(fs) + EntrySet(f.entries)
  {
    forall e | e in Contents(fs) + EntrySet(f.entries)
      ensures e in Contents(fs + [f])
    {
      assert f in fs + [f];
      if e in Contents(fs) {
        var g :| g in fs && e in g.entries;
        assert g in fs + [f];
      }
    }
  }

  lemma NewFileDiffers(runs: seq<seq<Entry>>, levels: Levels, n: nat)
    requires |levels| > 0 && n < |levels[0]| && LevelsInRecencyOrder(levels) && NumbersUnique(levels)
               && InFileOrder(levels[0])
    requires Newer(Union(runs), Tables(levels))
    ensures VersionsDiffer(Union(runs) + Contents(levels[0][..n]), EntrySet(levels[0][n].entries))
  {
    hide LevelsInRecencyOrder, NumbersUnique, Union, InFileOrder;
    var fs, f := levels[0], levels[0][n];
    forall d, e | d in Union(runs) + Contents(fs[..n]) && e in EntrySet(f.entries) && d.key.user == e.key.user
      ensures d.key.sequence != e.key.sequence
    {
      assert e in Tables(levels);
      if d in Contents(fs[..n]) {
        var g :| g in fs[..n] && d in g.entries;
        var i :| 0 <= i < n && fs[..n][i] == g;
        OrderMeansDifferent(fs, i, n);
        Level0Differs(levels, i, n);
        assert d in EntrySet(fs[i].entries);
      }
    }
  }

  lemma OrderMeansDifferent(fs: seq<File>, i: nat, j: nat)
    requires InFileOrder(fs) && i < j < |fs|
    ensures fs[i] != fs[j]
  {
    assert FileOrder(fs[i], fs[j]);
  }

  // ---- deeper levels -------------------------------------------------------------------------------------

  /** A sorted level is the blocks of a two-level iterator whose index keys are the files' last keys. */
  lemma LevelIsTwoLevel(fs: seq<File>, index: seq<Entry>)
    requires SortedLevel(fs) && |index| == |fs| && forall i :: 0 <= i < |fs| ==> index[i].key == fs[i].largest
    ensures SoundIndex(index, FileRuns(fs))
  {
    hide ValidFile;
    forall i, p | 0 <= i < |fs| && 0 <= p < |fs[i].entries|
      ensures !Before(fs[i].largest, fs[i].entries[p].key) && !Before(fs[i].entries[p].key, fs[i].smallest)
    {
      WithinFile(fs[i], p);
    }
    forall i, j, p | 0 <= i < j < |fs| && 0 <= p < |fs[j].entries|
      ensures Before(index[i].key, fs[j].entries[p].key)
    {
      assert Before(fs[i].largest, fs[j].smallest);
      WithinFile(fs[j], p);
    }
  }

  lemma WithinFile(f: File, p: nat)
    requires ValidFile(f) && p < |f.entries|
    ensures !Before(f.largest, f.entries[p].key) && !Before(f.entries[p].key, f.smallest)
  {
    assert p > 0 ==> Before(f.entries[0].key, f.entries[p].key);
    assert p < |f.entries| - 1 ==> Before(f.entries[p].key, f.entries[|f.entries| - 1].key);
  }

  lemma LevelRunIsSorted(fs: seq<File>)
    requires SortedLevel(fs)
    ensures Sorted(LevelRun(fs)) && EntrySet(LevelRun(fs)) == Contents(fs)
  {
    hide ValidFile, Start, Concat;
    var runs := FileRuns(fs);
    forall a: nat, b: nat | a < b < |LevelRun(fs)|
      ensures Before(LevelRun(fs)[a].key, LevelRun(fs)[b].key)
    {
      var i, p := FromConcat(runs, a);
      var j, q := FromConcat(runs, b);
      if i == j {
        FileIsSorted(fs[i]);
      } else {
        if j < i {
          NextStart(runs, j);
          StartsAscend(runs, j + 1, i);
        }
        assert Before(fs[i].largest, fs[j].smallest);
        WithinFile(fs[i], p);
        WithinFile(fs[j], q);
      }
    }
    forall e | e in Contents(fs)
      ensures e in LevelRun(fs)
    {
      var f :| f in fs && e in f.entries;
      var i, p :| 0 <= i < |fs| && fs[i] == f && 0 <= p < |f.entries| && f.entries[p] == e;
      InConcat(runs, i, p);
    }
    forall a: nat | a < |LevelRun(fs)|
      ensures LevelRun(fs)[a] in Contents(fs)
    {
      var i, p := FromConcat(runs, a);
      assert fs[i] in fs && LevelRun(fs)[a] in fs[i].entries;
    }
  }

  lemma NewLevelDiffers(mem: set<Entry>, levels: Levels, n: nat)
    requires n < |levels| && LevelsInRecencyOrder(levels) && Newer(mem, Tables(levels))
    ensures VersionsDiffer(mem + Tables(levels[..n]), Contents(levels[n]))
  {
    hide LevelsInRecencyOrder;
    forall d, e | d in mem + Tables(levels[..n]) && e in Contents(levels[n]) && d.key.user == e.key.user
      ensures d.key.sequence != e.key.sequence
    {
      var g :| g in levels[n] && e in g.entries;
      assert e in Tables(levels);
      if d in Tables(levels[..n]) {
        var k, f :| 0 <= k < n && f in levels[..n][k] && d in f.entries;
        DeeperIsOlder(levels, k, n, f, g);
        assert d in EntrySet(f.entries) && e in EntrySet(g.entries);
      }
    }
  }

  lemma DeeperIsOlder(levels: Levels, k: nat, l: nat, f: File, g: File)
    requires LevelsInRecencyOrder(levels) && k < l < |levels| && f in levels[k] && g in levels[l]
    ensures FileNewer(f, g)
  {
  }

  lemma TablesOneMore(levels: Levels, n: nat)
    requires n < |levels|
    ensures Tables(levels[..n + 1]) == Tables(levels[..n]) + Contents(levels[n])
  {
    forall e
      ensures e in Tables(levels[..n + 1]) <==> e in Tables(levels[..n]) + Contents(levels[n])
    {
      if e in Tables(levels[..n + 1]) {
        var l, f :| 0 <= l < n + 1 && f in levels[..n + 1][l] && e in f.entries;
        assert l < n ==> levels[..n][l] == levels[l];
      }
      if e in Tables(levels[..n]) {
        var l, f :| 0 <= l < n && f in levels[..n][l] && e in f.entries;
        assert levels[..n + 1][l] == levels[l];
      }
      if e in Contents(levels[n]) {
        assert levels[..n + 1][n] == levels[n];
      }
    }
  }

  /** The runs of levels 0 up to `n`, behind those of the memtables. */
  lemma {:induction false} DeeperRunsAreGood(runs: seq<seq<Entry>>, levels: Levels, n: nat)
    requires 1 <= n <= NUM_LEVELS && ValidLevels(levels) && LevelsInRecencyOrder(levels)
    requires GoodRuns(runs) && Newer(Union(runs), Tables(levels))
    ensures var all := runs + FileRuns(levels[0]) + DeeperRuns(levels, n);
            GoodRuns(all) && Union(all) == Union(runs) + Tables(levels[..n])
  {
    hide LevelsInRecencyOrder, NumbersUnique, InFileOrder, Newer, GoodRuns, Tables, Union, ValidFile, Contents, Sorted,
         EntrySet, PairwiseApart, LevelRun;
    if n == 1 {
      Level0RunsAreGood(runs, levels, |levels[0]|);
      assert levels[0][..|levels[0]|] == levels[0];
      TablesOneMore(levels, 0);
      NoTables(levels);
      assert runs + FileRuns(levels[0]) + [] == runs + FileRuns(levels[0]);
    } else {
      DeeperRunsAreGood(runs, levels, n - 1);
      OneMoreLevel(Union(runs), runs + FileRuns(levels[0]) + DeeperRuns(levels, n - 1), levels, n - 1);
      assert runs + FileRuns(levels[0]) + DeeperRuns(levels, n)
          == runs + FileRuns(levels[0]) + DeeperRuns(levels, n - 1) + if levels[n - 1] == [] then []
            else [LevelRun(levels[n - 1])];
    }
  }

  /** The run of level `n`, if it has files. */
  lemma OneMoreLevel(mem: set<Entry>, before: seq<seq<Entry>>, levels: Levels, n: nat)
    requires 1 <= n < NUM_LEVELS && ValidLevels(levels) && LevelsInRecencyOrder(levels) && Newer(mem, Tables(levels))
    requires GoodRuns(before) && Union(before) == mem + Tables(levels[..n])
    ensures var all := before + if levels[n] == [] then [] else [LevelRun(levels[n])];
            GoodRuns(all) && Union(all) == mem + Tables(levels[..n + 1])
  {
    hide LevelsInRecencyOrder, NumbersUnique, InFileOrder, Newer, GoodRuns, Tables, Union, ValidFile, Contents, Sorted,
         EntrySet, PairwiseApart, LevelRun;
    TablesOneMore(levels, n);
    if levels[n] == [] {
      NoFileRuns([]);
      assert before + [] == before;
    } else {
      OrderedApartIsSorted(levels[n]);
      LevelRunIsSorted(levels[n]);
      NewLevelDiffers(mem, levels, n);
      OneMoreRun(before, LevelRun(levels[n]));
    }
  }

  lemma NoTables(levels: Levels)
    ensures Tables(levels[..0]) == {}
  {
  }

  /** Every run is sorted, no key is in two, and together they hold what the database holds. */
  lemma RunsAreGood(db: Db)
    requires Inv(db)
    ensures |db.levels| > 0 && GoodRuns(RunsOf(db)) && Union(RunsOf(db)) == All(db)
  {
    hide LevelsInRecencyOrder, NumbersUnique, GoodRuns, Tables, Union, Sorted, EntrySet, NumbersBelow, UniqueKeys;
    MemRunsAreGood(db);
    assert Newer(Union(MemRuns(db)), Tables(db.levels));
    DeeperRunsAreGood(MemRuns(db), db.levels, NUM_LEVELS);
    assert db.levels[..NUM_LEVELS] == db.levels;
  }

  // ---- the merging iterator as a cursor ------------------------------------------------------------------

  /** All runs in one, in key order. */
  function Merged(runs: seq<seq<Entry>>): seq<Entry> {
    if runs == [] then [] else MergeRuns(Merged(runs[..|runs| - 1]), runs[|runs| - 1])
  }

  lemma {:induction false} MergedIsSorted(runs: seq<seq<Entry>>)
    requires GoodRuns(runs)
    ensures Sorted(Merged(runs)) && EntrySet(Merged(runs)) == Union(runs)
  {
    hide Sorted;
    if runs == [] {
      NoRuns();
      NoEntries();
    } else {
      var n := |runs| - 1;
      assert runs == runs[..n] + [runs[n]];
      MergedIsSorted(runs[..n]);
      UnionGrows(runs[..n], runs[n]);
      LastIsDistinct(runs);
      MergeRunsIsSorted(Merged(runs[..n]), runs[n]);
    }
  }

  lemma NoEntries()
    ensures Sorted([]) && EntrySet([]) == {}
  {
  }

  lemma LastIsDistinct(runs: seq<seq<Entry>>)
    requires GoodRuns(runs) && runs != [] && EntrySet(Merged(runs[..|runs| - 1])) == Union(runs[..|runs| - 1])
    ensures DistinctKeys(Merged(runs[..|runs| - 1]), runs[|runs| - 1])
  {
    hide Sorted, Merged;
    var n := |runs| - 1;
    forall d, e | d in Merged(runs[..n]) && e in runs[n]
      ensures d.key != e.key
    {
      assert d in Union(runs[..n]);
      var i: nat :| i < n && d in runs[..n][i];
      var a: nat :| a < |runs[i]| && runs[i][a] == d;
      var b: nat :| b < |runs[n]| && runs[n][b] == e;
      assert Strict(runs[i][a].key, runs[n][b].key);
    }
  }

  /** The key at a position, if it is not the end. */
  function KeyAt(es: seq<Entry>, i: nat): Option<InternalKey> {
    if i < |es| then Some(es[i].key) else None
  }

  lemma PresentIs(runs: seq<seq<Entry>>, es: seq<Entry>, k: InternalKey)
    requires EntrySet(es) == Union(runs)
    ensures Present(runs, k) <==> exists i: nat :: i < |es| && es[i].key == k
  {
    if Present(runs, k) {
      var i, j :| 0 <= i < |runs| && 0 <= j < |runs[i]| && runs[i][j].key == k;
      assert runs[i][j] in runs[i];
      assert runs[i][j] in EntrySet(es);
    }
    if i: nat :| i < |es| && es[i].key == k {
      assert es[i] in EntrySet(es);
      var a, j :| 0 <= a < |runs| && 0 <= j < |runs[a]| && runs[a][j] == es[i];
    }
  }

  /** `p` splits `es` at `t`: what LeastFrom looks for is at `p`. */
  lemma LeastIsAt(runs: seq<seq<Entry>>, es: seq<Entry>, t: Option<InternalKey>, strict: bool, p: nat,
                  k: Option<InternalKey>)
    requires Sorted(es) && EntrySet(es) == Union(runs) && Splits(es, p, t, strict)
    ensures LeastFrom(runs, t, strict, k) <==> k == KeyAt(es, p)
  {
    hide From;
    forall j | Present(runs, j)
      ensures exists i: nat :: i < |es| && es[i].key == j
    {
      PresentIs(runs, es, j);
    }
    if p < |es| {
      PresentIs(runs, es, es[p].key);
    }
  }

  lemma GreatestIsAt(runs: seq<seq<Entry>>, es: seq<Entry>, t: Option<InternalKey>, p: nat, k: Option<InternalKey>)
    requires Sorted(es) && EntrySet(es) == Union(runs) && EndsBefore(es, p, t)
    ensures GreatestBefore(runs, t, k) <==> k == KeyAt(es, p)
  {
    hide UpTo;
    forall j | Present(runs, j)
      ensures exists i: nat :: i < |es| && es[i].key == j
    {
      PresentIs(runs, es, j);
    }
    if p < |es| {
      PresentIs(runs, es, es[p].key);
    }
  }

  /** Before and after the key at `i`. */
  lemma AroundKey(es: seq<Entry>, i: nat)
    requires Sorted(es) && i < |es|
    ensures Splits(es, i + 1, Some(es[i].key), true)
    ensures EndsBefore(es, if i == 0 then |es| else i - 1, Some(es[i].key))
  {
  }

  /**
   The merging iterator moves as a cursor over the merge: each of its moves, as its methods state them, ends at
   the key at which the cursor's move ends.
   */
  lemma MergerIsCursor(runs: seq<seq<Entry>>, es: seq<Entry>, t: InternalKey, i: nat, k: Option<InternalKey>)
    requires Sorted(es) && EntrySet(es) == Union(runs)
    ensures LeastFrom(runs, None, false, k) <==> k == KeyAt(es, 0)
    ensures GreatestBefore(runs, None, k) <==> k == KeyAt(es, if es == [] then 0 else |es| - 1)
    ensures LeastFrom(runs, Some(t), false, k) <==> k == KeyAt(es, LowerBound(es, t))
    ensures i < |es| ==> (LeastFrom(runs, Some(es[i].key), true, k) <==> k == KeyAt(es, i + 1))
    ensures i < |es| ==> (GreatestBefore(runs, Some(es[i].key), k) <==> k == KeyAt(es, if i == 0 then |es| else i - 1))
  {
    hide LeastFrom, GreatestBefore, LowerBound, KeyAt, Sorted, EntrySet, Union;
    LeastIsAt(runs, es, None, false, 0, k);
    GreatestIsAt(runs, es, None, if es == [] then 0 else |es| - 1, k);
    LowerBoundSplits(es, t);
    LeastIsAt(runs, es, Some(t), false, LowerBound(es, t), k);
    if i < |es| {
      AroundKey(es, i);
      LeastIsAt(runs, es, Some(es[i].key), true, i + 1, k);
      GreatestIsAt(runs, es, Some(es[i].key), if i == 0 then |es| else i - 1, k);
    }
  }

  // ---- what an iterator shows ----------------------------------------------------------------------------

  /**
   An iterator of the database at a snapshot: the merge of its runs holds what the database holds, and the
   entries that DBIter shows of it are the keys with a value at the snapshot, each once, ascending and with the
   value that a read gives.
   */
  lemma IteratorShowsView(db: Db, snapshot: nat, user: UserKey)
    requires Inv(db)
    ensures |db.levels| > 0 && GoodRuns(RunsOf(db))
    ensures var es, read := Merged(RunsOf(db)), View(All(db), user, snapshot);
      && Sorted(es) && EntrySet(es) == All(db)
      && (read.None? ==> forall i: nat :: Shown(es, snapshot, i) ==> es[i].key.user != user)
      && (read.Some? ==> exists i: nat :: Shown(es, snapshot, i) && es[i].key.user == user && es[i].value == read.value)
      && forall i: nat, j: nat :: Shown(es, snapshot, i) && Shown(es, snapshot, j) && i < j ==>
           es[i].key.user < es[j].key.user
  {
    hide Shown, View, RunsOf, Merged, GoodRuns, Sorted, All, Union, ValidLevels, RecencyOrder, NumbersBelow;
    RunsAreGood(db);
    MergedIsSorted(RunsOf(db));
    ShownIsView(Merged(RunsOf(db)), snapshot, user);
  }

  lemma RunsGrow(list: seq<Cursor>, c: Cursor)
    ensures MergingIterator.Runs(list + [c]) == MergingIterator.Runs(list) + [c.entries]
  {
  }

  /** Version::AddIterators: every file of level 0, and one iterator for each deeper level that has files. */
  method AddIterators(levels: Levels, list: seq<Cursor>) returns (r: seq<Cursor>)
    requires |levels| > 0 && forall c <- list :: c.Ok()
    requires forall i, j :: 0 <= i < j < |list| ==> list[i] != list[j]
    ensures MergingIterator.Runs(r) == MergingIterator.Runs(list) + FileRuns(levels[0]) + DeeperRuns(levels, |levels|)
    ensures forall c <- r :: c.Ok() && (c in list || fresh(c))
    ensures forall i, j :: 0 <= i < j < |r| ==> r[i] != r[j]
  {
    hide LevelRun;
    r := list;
    ghost var given := MergingIterator.Runs(list);
    for i := 0 to |levels[0]|
      invariant MergingIterator.Runs(r) == given + FileRuns(levels[0][..i])
      invariant (forall c <- r :: c.Ok() && (c in list || fresh(c))) && forall i, j :: 0 <= i < j < |r| ==> r[i] != r[j]
    {
      var c := new Cursor(levels[0][i].entries);
      RunsGrow(r, c);
      assert FileRuns(levels[0][..i + 1]) == FileRuns(levels[0][..i]) + [c.entries];
      r := r + [c];
    }
    assert levels[0][..|levels[0]|] == levels[0];
    for level := 1 to |levels|
      invariant MergingIterator.Runs(r) == given + FileRuns(levels[0]) + DeeperRuns(levels, level)
      invariant (forall c <- r :: c.Ok() && (c in list || fresh(c))) && forall i, j :: 0 <= i < j < |r| ==> r[i] != r[j]
    {
      if levels[level] != [] {
        var c := new Cursor(LevelRun(levels[level]));
        RunsGrow(r, c);
        r := r + [c];
      }
    }
  }

  /** DBImpl::NewInternalIterator: a merging iterator over the memtables and the tables. */
  method NewInternalIterator(db: Db) returns (r: MergingIterator)
    requires Inv(db)
    ensures |db.levels| > 0 && fresh(r) && r.At(None) && r.runs == RunsOf(db)
  {
    hide Inv, GoodRuns, DeeperRuns, Concat;
    RunsAreGood(db);
    var c := new Cursor(db.mem);
    var list := [c];
    if db.imm.Some? {
      c := new Cursor(db.imm.value);
      list := list + [c];
    }
    assert MergingIterator.Runs(list) == MemRuns(db);
    list := AddIterators(db.levels, list);
    r := new MergingIterator(list);
  }
}
