/**
 The compaction loop (DBImpl::DoCompactionWork) and the choice of a level for a flushed memtable.
 */
module DoCompaction {
  import opened Options
  import opened Keys
  import opened Files
  import opened Lsm
  import opened CompactionInputs
  import opened CompactionRules
  import opened Runs

  // ---- PickLevelForMemTableOutput --------------------------------------------------------------------

  ghost predicate Meets(fs: seq<File>, lo: UserKey, hi: UserKey) {
    exists f :: f in fs && RangeMeets(f, Some(lo), Some(hi))
  }

  /** A new file may go below level `k`: nothing beside it there, and little overlap one further down. */
  ghost predicate MayDescend(levels: Levels, k: nat, lo: UserKey, hi: UserKey, maxOverlap: nat)
    requires k + 2 < |levels|
  {
    && !Meets(levels[k + 1], lo, hi)
    && TotalFileSize(Meeting(levels[k + 2], Some(lo), Some(hi))) <= maxOverlap
  }

  lemma OneLevelValid(levels: Levels, l: nat)
    requires l < NUM_LEVELS == |levels| && ValidLevels(levels)
    ensures ValidFiles(levels[l]) && (l > 0 ==> SortedLevel(levels[l]))
  {
    if l > 0 {
      OrderedApartIsSorted(levels[l]);
    }
  }

  /** As deep as a table may go, at most to level 2, unless level 0 is met. */
  ghost predicate IsPicked(levels: Levels, lo: UserKey, hi: UserKey, maxOverlap: nat, level: nat)
    requires |levels| == NUM_LEVELS
  {
    && level <= MAX_MEM_COMPACT_LEVEL
    && (level > 0 ==> !Meets(levels[0], lo, hi))
    && (forall k :: 0 <= k < level ==> MayDescend(levels, k, lo, hi, maxOverlap))
    && (level < MAX_MEM_COMPACT_LEVEL ==>
          (level == 0 && Meets(levels[0], lo, hi)) || !MayDescend(levels, level, lo, hi, maxOverlap))
  }

  /** PickLevelForMemTableOutput: as deep as it may go, at most to level 2, unless level 0 is met. */
  method PickLevelForMemTableOutput(levels: Levels, lo: UserKey, hi: UserKey, maxOverlap: nat)
    returns (level: nat)
    requires |levels| == NUM_LEVELS && ValidLevels(levels)
    ensures IsPicked(levels, lo, hi, maxOverlap, level)
  {
    hide ValidLevels, SortedLevel, ValidFiles, MeetingUpTo;
    level := 0;
    OneLevelValid(levels, 0);
    var overlap := SomeFileOverlapsRange(false, levels[0], Some(lo), Some(hi));
    if !overlap {
      while level < MAX_MEM_COMPACT_LEVEL
        invariant level <= MAX_MEM_COMPACT_LEVEL
        invariant forall k :: 0 <= k < level ==> MayDescend(levels, k, lo, hi, maxOverlap)
      {
        OneLevelValid(levels, level + 1);
        OneLevelValid(levels, level + 2);
        overlap := SomeFileOverlapsRange(true, levels[level + 1], Some(lo), Some(hi));
        if overlap {
          break;
        }
        if level + 2 < NUM_LEVELS {
          var start, limit := InternalKey(lo, MAX_SEQUENCE, Value), InternalKey(hi, 0, Deletion);
          var overlaps := GetOverlappingInputs(level + 2, levels[level + 2], Some(start), Some(limit));
          if TotalFileSize(overlaps) > maxOverlap {
            break;
          }
        }
        level := level + 1;
      }
    }
  }

  /** So nothing in levels 0..level meets a flushed file that is not put into level 0. */
  lemma PickedLevelIsClear(levels: Levels, level: nat, maxOverlap: nat, f: File)
    requires |levels| == NUM_LEVELS && IsPicked(levels, f.smallest.user, f.largest.user, maxOverlap, level)
    ensures level <= MAX_MEM_COMPACT_LEVEL
    ensures level > 0 ==> ClearDownTo(levels, level, f)
  {
    forall k | 0 <= k <= level && level > 0
      ensures ClearLevel(levels[k], f)
    {
      assert k > 0 ==> MayDescend(levels, k - 1, f.smallest.user, f.largest.user, maxOverlap);
    }
  }

  /**
   No deeper level up to 2 would do: if no file of levels 0 to `other` meets the range, and what meets it one level
   below each step is small, `other` is no deeper than the level picked.
   */
  lemma PickedLevelIsDeepest(levels: Levels, lo: UserKey, hi: UserKey, maxOverlap: nat, level: nat, other: nat)
    requires |levels| == NUM_LEVELS && IsPicked(levels, lo, hi, maxOverlap, level) && other <= 2
    requires forall k, f :: 0 <= k <= other && f in levels[k] ==> f.largest.user < lo || hi < f.smallest.user
    requires forall l :: 2 <= l < other + 2 ==> TotalFileSize(Meeting(levels[l], Some(lo), Some(hi))) <= maxOverlap
    ensures other <= level
  {
    if level < other {
      MayGoOn(levels, lo, hi, maxOverlap, level, other);
    }
  }

  lemma MayGoOn(levels: Levels, lo: UserKey, hi: UserKey, maxOverlap: nat, k: nat, other: nat)
    requires |levels| == NUM_LEVELS && k < other <= 2
    requires forall k, f :: 0 <= k <= other && f in levels[k] ==> f.largest.user < lo || hi < f.smallest.user
    requires forall l :: 2 <= l < other + 2 ==> TotalFileSize(Meeting(levels[l], Some(lo), Some(hi))) <= maxOverlap
    ensures !Meets(levels[0], lo, hi) && MayDescend(levels, k, lo, hi, maxOverlap)
  {
    hide MeetingUpTo;
  }

  // ---- the merged input --------------------------------------------------------------------------------

  /** What the input iterator yields: the entries of all runs in key order. */
  function MergeRuns(a: seq<Entry>, b: seq<Entry>): seq<Entry> {
    if a == [] then b
    else if b == [] then a
    else if Before(b[0].key, a[0].key) then [b[0]] + MergeRuns(a, b[1..])
    else [a[0]] + MergeRuns(a[1..], b)
  }

  ghost predicate StartsAfter(es: seq<Entry>, k: InternalKey) {
    forall e :: e in es ==> Before(k, e.key)
  }

  lemma ConsIsSorted(e: Entry, es: seq<Entry>)
    requires Sorted(es) && StartsAfter(es, e.key)
    ensures Sorted([e] + es)
  {
    assert forall i :: 0 <= i < |es| ==> es[i] in es;
  }

  lemma TailStartsAfter(es: seq<Entry>)
    requires Sorted(es) && es != []
    ensures Sorted(es[1..]) && StartsAfter(es[1..], es[0].key)
    ensures forall e :: e in es <==> e == es[0] || e in es[1..]
  {
    assert es == [es[0]] + es[1..];
    forall e | e in es[1..]
      ensures Before(es[0].key, e.key)
    {
      var i :| 0 <= i < |es[1..]| && es[1..][i] == e;
    }
  }

  ghost predicate DistinctKeys(a: seq<Entry>, b: seq<Entry>) {
    forall d, e :: d in a && e in b ==> d.key != e.key
  }

  lemma {:induction false} MergeRunsIsSorted(a: seq<Entry>, b: seq<Entry>)
    requires Sorted(a) && Sorted(b) && DistinctKeys(a, b)
    ensures Sorted(MergeRuns(a, b))
    ensures forall e :: e in MergeRuns(a, b) <==> e in a || e in b
  {
    if a != [] && b != [] {
      TailStartsAfter(a);
      TailStartsAfter(b);
      assert a[0].key != b[0].key;
      if Before(b[0].key, a[0].key) {
        MergeRunsIsSorted(a, b[1..]);
        assert StartsAfter(MergeRuns(a, b[1..]), b[0].key);
        ConsIsSorted(b[0], MergeRuns(a, b[1..]));
      } else {
        MergeRunsIsSorted(a[1..], b);
        assert StartsAfter(MergeRuns(a[1..], b), a[0].key);
        ConsIsSorted(a[0], MergeRuns(a[1..], b));
      }
    }
  }

  function MergedInput(fs: seq<File>): seq<Entry> {
    if fs == [] then [] else MergeRuns(fs[0].entries, MergedInput(fs[1..]))
  }

  /** Distinct files of the inputs hold distinct internal keys. */
  ghost predicate FilesDistinct(fs: seq<File>) {
    forall i, j :: 0 <= i < j < |fs| ==> DistinctKeys(fs[i].entries, fs[j].entries)
  }

  lemma ContentsCons(f: File, fs: seq<File>)
    ensures Contents([f] + fs) == EntrySet(f.entries) + Contents(fs)
  {
    forall e | e in EntrySet(f.entries) + Contents(fs)
      ensures e in Contents([f] + fs)
    {
      assert f in [f] + fs;
      if e in Contents(fs) {
        var g :| g in fs && e in g.entries;
        assert g in [f] + fs;
      }
    }
  }

  lemma RestIsDistinct(fs: seq<File>)
    requires fs != [] && FilesDistinct(fs)
    ensures FilesDistinct(fs[1..])
    ensures forall d, e :: d in fs[0].entries && e in Contents(fs[1..]) ==> d.key != e.key
  {
    forall i, j | 0 <= i < j < |fs[1..]|
      ensures DistinctKeys(fs[1..][i].entries, fs[1..][j].entries)
    {
      assert DistinctKeys(fs[i + 1].entries, fs[j + 1].entries);
    }
    forall d, e | d in fs[0].entries && e in Contents(fs[1..])
      ensures d.key != e.key
    {
      var f :| f in fs[1..] && e in f.entries;
      var j :| 0 <= j < |fs[1..]| && fs[1..][j] == f;
      assert DistinctKeys(fs[0].entries, fs[j + 1].entries);
    }
  }

  lemma {:induction false} MergedInputIsSorted(fs: seq<File>)
    requires (forall i :: 0 <= i < |fs| ==> Sorted(fs[i].entries)) && FilesDistinct(fs)
    ensures Sorted(MergedInput(fs))
    ensures EntrySet(MergedInput(fs)) == Contents(fs)
  {
    if fs != [] {
      var rest := MergedInput(fs[1..]);
      RestIsDistinct(fs);
      hide FilesDistinct, Sorted, MergeRuns, Contents;
      MergedInputIsSorted(fs[1..]);
      assert [fs[0]] + fs[1..] == fs;
      ContentsCons(fs[0], fs[1..]);
      MergeIsUnion(fs[0].entries, rest) by {
        assert forall e :: e in rest ==> e in EntrySet(rest);
      }
    } else {
      assert MergedInput(fs) == [];
    }
  }

  lemma MergeIsUnion(a: seq<Entry>, b: seq<Entry>)
    requires Sorted(a) && Sorted(b) && DistinctKeys(a, b)
    ensures Sorted(MergeRuns(a, b)) && EntrySet(MergeRuns(a, b)) == EntrySet(a) + EntrySet(b)
  {
    MergeRunsIsSorted(a, b);
  }

  // ---- the outputs ------------------------------------------------------------------------------------------

  ghost function Joined(fs: seq<File>): seq<Entry> {
    if fs == [] then [] else Joined(fs[..|fs| - 1]) + fs[|fs| - 1].entries
  }

  /** FinishCompactionOutputFile: a table with the entries added so far. */
  function MakeFile(number: nat, size: nat, entries: seq<Entry>): File
    requires entries != []
  {
    File(number, size, entries[0].key, entries[|entries| - 1].key, entries)
  }

  lemma JoinedSnoc(fs: seq<File>, f: File)
    ensures Joined(fs + [f]) == Joined(fs) + f.entries
  {
    assert (fs + [f])[..|fs|] == fs;
  }

  lemma SortedParts(a: seq<Entry>, b: seq<Entry>)
    requires Sorted(a + b)
    ensures Sorted(a) && Sorted(b)
    ensures forall d, e :: d in a && e in b ==> Before(d.key, e.key)
  {
    assert forall i :: 0 <= i < |a| ==> (a + b)[i] == a[i];
    assert forall i :: 0 <= i < |b| ==> (a + b)[|a| + i] == b[i];
    forall d, e | d in a && e in b
      ensures Before(d.key, e.key)
    {
      var i :| 0 <= i < |a| && a[i] == d;
      var j :| 0 <= j < |b| && b[j] == e;
      assert (a + b)[i] == d && (a + b)[|a| + j] == e;
    }
  }

  lemma {:induction false} JoinedHas(fs: seq<File>, f: File, e: Entry)
    requires f in fs && e in f.entries
    ensures e in Joined(fs)
  {
    var n := |fs| - 1;
    assert fs == fs[..n] + [fs[n]];
    if f != fs[n] {
      JoinedHas(fs[..n], f, e);
    }
  }

  lemma {:induction false} JoinedIs(fs: seq<File>)
    ensures EntrySet(Joined(fs)) == Contents(fs)
  {
    if fs != [] {
      var n := |fs| - 1;
      JoinedIs(fs[..n]);
      assert fs == fs[..n] + [fs[n]];
      forall e | e in Contents(fs)
        ensures e in Joined(fs)
      {
        var f :| f in fs && e in f.entries;
        JoinedHas(fs, f, e);
      }
      forall e | e in Joined(fs)
        ensures e in Contents(fs)
      {
        if e !in fs[n].entries {
          assert e in EntrySet(Joined(fs[..n]));
          var f :| f in fs[..n] && e in f.entries;
          assert f in fs;
        } else {
          assert fs[n] in fs;
        }
      }
    }
  }

  /** Consecutive pieces of a sorted run are a sorted level. */
  lemma {:induction false} PiecesAreSorted(fs: seq<File>)
    requires ValidFiles(fs) && Sorted(Joined(fs))
    ensures SortedLevel(fs)
  {
    if fs != [] {
      var n := |fs| - 1;
      assert fs == fs[..n] + [fs[n]];
      SortedParts(Joined(fs[..n]), fs[n].entries);
      PiecesAreSorted(fs[..n]);
      forall i | 0 <= i < n
        ensures Before(fs[i].largest, fs[n].smallest)
      {
        var f, g := fs[..n][i], fs[n];
        assert f in fs && g in fs;
        JoinedHas(fs[..n], f, f.entries[|f.entries| - 1]);
        assert g.entries[0] in g.entries;
      }
    }
  }

  lemma SortedIsApart(fs: seq<File>)
    requires SortedLevel(fs)
    ensures PairwiseApart(fs) && InFileOrder(fs)
  {
    forall i, j | 0 <= i < j < |fs|
      ensures FileOrder(fs[i], fs[j])
    {
      FileBounds(fs[i]);
      assert Before(fs[i].largest, fs[j].smallest);
    }
  }

  ghost predicate NumberedFrom(fs: seq<File>, first: nat) {
    forall i :: 0 <= i < |fs| ==> fs[i].number == first + i
  }

  /** Rule (A) looks only at the entry just before. */
  lemma HiddenByPrevious(input: seq<Entry>, i: nat, smallestSnapshot: nat)
    requires Sorted(input) && UniqueKeys(EntrySet(input)) && i < |input|
    ensures Hidden(input, i, smallestSnapshot) <==>
      i > 0 && input[i - 1].key.user == input[i].key.user && input[i - 1].key.sequence <= smallestSnapshot
  {
    VersionsDescend(input);
    forall j | 0 <= j < i && input[j].key.user == input[i].key.user
      ensures input[i - 1].key.user == input[i].key.user
      ensures input[i - 1].key.sequence <= input[j].key.sequence
    {
      assert j < i - 1 ==> Before(input[j].key, input[i - 1].key);
      assert Before(input[i - 1].key, input[i].key);
    }
  }

  /** The entries a compaction may read: in key order, no duplicates, sequence numbers in range. */
  ghost predicate GoodInput(input: seq<Entry>) {
    && Sorted(input) && UniqueKeys(EntrySet(input))
    && forall i :: 0 <= i < |input| ==> input[i].key.sequence < MAX_SEQUENCE
  }

  /** The loop's has_current_user_key, current_user_key and last_sequence_for_key. */
  datatype Last = Last(has: bool, user: UserKey, sequence: nat)

  ghost predicate LastIsPrevious(input: seq<Entry>, i: nat, last: Last)
    requires i <= |input|
  {
    && (last.has <==> i > 0)
    && (i > 0 ==> last.user == input[i - 1].key.user && last.sequence == input[i - 1].key.sequence)
  }

  lemma DropDecision(input: seq<Entry>, i: nat, last: Last, smallestSnapshot: nat, levels: Levels, level: nat,
                     base: bool, drop: bool)
    requires GoodInput(input) && i < |input| && smallestSnapshot < MAX_SEQUENCE
    requires LastIsPrevious(input, i, last)
    requires base ==> IsBase(levels, level, input[i].key.user)
    requires var sequence := if !last.has || input[i].key.user != last.user then MAX_SEQUENCE else last.sequence;
      if sequence <= smallestSnapshot then drop
      else if input[i].key.kind.Deletion? && input[i].key.sequence <= smallestSnapshot then
        drop == base && (base == IsBase(levels, level, input[i].key.user))
      else !drop
    ensures drop == Dropped(input, i, smallestSnapshot, levels, level)
  {
    HiddenByPrevious(input, i, smallestSnapshot);
  }

  /** The drop rules for one entry, as the loop applies them; only a deletion marker asks for the deeper levels. */
  method ShouldDrop(c: Compaction, ghost input: seq<Entry>, ghost i: nat, e: Entry, last: Last, smallestSnapshot: nat)
    returns (drop: bool)
    requires c.Valid() && GoodInput(input) && i < |input| && e == input[i] && smallestSnapshot < MAX_SEQUENCE
    requires LastIsPrevious(input, i, last) && c.PtrsBehind(e.key.user)
    modifies c`levelPtrs
    ensures c.Valid() && c.PtrsBehind(e.key.user)
    ensures drop == Dropped(input, i, smallestSnapshot, c.levels, c.level)
  {
    hide ValidLevels, IsBase, Dropped, GoodInput;
    drop := false;
    var base := false;
    var sequence := if !last.has || e.key.user != last.user then MAX_SEQUENCE else last.sequence;
    if sequence <= smallestSnapshot {
      drop := true;
    } else if e.key.kind.Deletion? && e.key.sequence <= smallestSnapshot {
      base := c.IsBaseLevelForKey(e.key.user);
      drop := base;
    }
    DropDecision(input, i, last, smallestSnapshot, c.levels, c.level, base, drop);
  }

  /** The joined outputs and the entries of the open one are the survivors so far. */
  lemma OneMoreSurvivor(joined: seq<Entry>, builder: seq<Entry>, input: seq<Entry>, i: nat, smallestSnapshot: nat,
                        levels: Levels, level: nat, drop: bool)
    requires i < |input| && drop == Dropped(input, i, smallestSnapshot, levels, level)
    requires joined + builder == Survivors(input, i, smallestSnapshot, levels, level)
    ensures joined + (if drop then builder else builder + [input[i]])
         == Survivors(input, i + 1, smallestSnapshot, levels, level)
  {
    hide Dropped;
  }

  /**
   DoCompactionWork.  Output files are cut wherever ShouldStopBefore or the size limit says (the size
   limit is left open here); their entries, joined, are exactly the survivors of the drop rules.
   */
  // ---- where outputs are cut -----------------------------------------------------------------------------

  /** The output at hand began at most `bytes` bytes of grandparents ago, and all its keys are behind `index`. */
  ghost predicate Open(grandparents: seq<File>, builder: seq<Entry>, index: nat, bytes: nat) {
    builder != [] ==>
      var first := EndedBefore(grandparents, builder[0].key);
      && first <= EndedBefore(grandparents, builder[|builder| - 1].key) <= index
      && SizesBetween(grandparents, first, index) <= bytes
  }

  ghost predicate AllOverlapLittle(grandparents: seq<File>, outputs: seq<File>, limit: nat) {
    forall f <- outputs :: OverlapsLittle(grandparents, f, limit)
  }

  lemma OpenMoves(grandparents: seq<File>, builder: seq<Entry>, index: nat, next: nat, bytes: nat)
    requires Open(grandparents, builder, index, bytes) && index <= next
    ensures Open(grandparents, builder, next, bytes + SizesBetween(grandparents, index, next))
  {
    hide EndedBefore;
    if builder != [] {
      SizesAdd(grandparents, EndedBefore(grandparents, builder[0].key), index, next);
    }
  }

  lemma OpenAdds(grandparents: seq<File>, builder: seq<Entry>, e: Entry, index: nat, bytes: nat)
    requires Open(grandparents, builder, index, bytes) && index == EndedBefore(grandparents, e.key)
    ensures Open(grandparents, builder + [e], index, bytes)
  {
    hide EndedBefore;
  }

  lemma OutputOverlapsLittle(grandparents: seq<File>, builder: seq<Entry>, index: nat, bytes: nat, limit: nat,
                             outputs: seq<File>, r: seq<File>)
    requires Open(grandparents, builder, index, bytes) && bytes <= limit
    requires AllOverlapLittle(grandparents, outputs, limit)
    requires builder != [] && |r| == |outputs| + 1 && r[..|outputs|] == outputs
    requires r[|outputs|].smallest == builder[0].key && r[|outputs|].largest == builder[|builder| - 1].key
    ensures AllOverlapLittle(grandparents, r, limit)
  {
    hide EndedBefore;
    SizesAdd(grandparents, EndedBefore(grandparents, builder[0].key),
             EndedBefore(grandparents, builder[|builder| - 1].key), index);
    assert r == outputs + [r[|outputs|]];
  }

  /** Where ShouldStopBefore leaves its index. */
  lemma IndexIsEnded(fs: seq<File>, i: nat, j: nat, previous: Option<InternalKey>, key: InternalKey)
    requires i == if previous.Some? then EndedBefore(fs, previous.value) else 0
    requires previous.Some? ==> Before(previous.value, key)
    requires i <= j <= |fs| && (j < |fs| ==> !Before(fs[j].largest, key))
    requires forall k :: i <= k < j ==> Before(fs[k].largest, key)
    ensures j == EndedBefore(fs, key)
  {
    forall k | 0 <= k < i
      ensures Before(fs[k].largest, key)
    {
      assert Before(fs[k].largest, previous.value);
    }
  }

  /** Outputs and the builder when `n` entries of the input have been handled, and what counts the overlap by then. */
  ghost predicate Cut(grandparents: seq<File>, input: seq<Entry>, n: nat, index: nat, bytes: nat, seenKey: bool,
                      outputs: seq<File>, builder: seq<Entry>, firstNumber: nat, limit: nat)
    requires n <= |input|
  {
    && AreTables(outputs) && NumberedFrom(outputs, firstNumber) && AllOverlapLittle(grandparents, outputs, limit)
    && bytes <= limit && (seenKey <==> n > 0) && (n == 0 ==> builder == [])
    && index == (if n > 0 then EndedBefore(grandparents, input[n - 1].key) else 0)
    && Open(grandparents, builder, index, bytes)
  }

  /** The output at hand is closed if it would overlap too much of the grandparents. */
  method StopBefore(c: Compaction, ghost input: seq<Entry>, ghost i: nat, e: Entry, outputs: seq<File>,
                    builder: seq<Entry>, firstNumber: nat, maxOverlap: nat)
    returns (r: seq<File>, b: seq<Entry>)
    requires c.Valid() && GoodInput(input) && i < |input| && e == input[i]
    requires Cut(c.grandparents, input, i, c.grandparentIndex, c.overlappedBytes, c.seenKey, outputs, builder,
                 firstNumber, maxOverlap)
    modifies c`grandparentIndex, c`seenKey, c`overlappedBytes
    ensures Joined(r) + b == Joined(outputs) + builder
    ensures AreTables(r) && NumberedFrom(r, firstNumber) && AllOverlapLittle(c.grandparents, r, maxOverlap)
    ensures c.overlappedBytes <= maxOverlap && c.seenKey
    ensures c.grandparentIndex == EndedBefore(c.grandparents, e.key)
    ensures Open(c.grandparents, b, c.grandparentIndex, c.overlappedBytes)
  {
    hide ValidLevels, Before, GoodInput, AreTables, NumberedFrom, Joined, SizesBetween, EndedBefore, Open,
         AllOverlapLittle;
    NothingOpen(c.grandparents, maxOverlap);
    r, b := outputs, builder;
    ghost var index, bytes := c.grandparentIndex, c.overlappedBytes;
    var stop := c.ShouldStopBefore(e.key, maxOverlap);
    StoppedAt(input, i, c.grandparents, index, c.grandparentIndex);
    if stop && builder != [] {
      r := FinishOutput(outputs, builder, firstNumber);
      OutputOverlapsLittle(c.grandparents, builder, index, bytes, maxOverlap, outputs, r);
      b := [];
    } else if builder != [] {
      OpenMoves(c.grandparents, builder, index, c.grandparentIndex, bytes);
    }
  }

  /** An entry goes to the output at hand, which is closed if it is big enough. */
  method AddToOutput(e: Entry, outputs: seq<File>, builder: seq<Entry>, firstNumber: nat,
                     ghost grandparents: seq<File>, ghost index: nat, ghost bytes: nat, ghost limit: nat)
    returns (r: seq<File>, b: seq<Entry>)
    requires AreTables(outputs) && NumberedFrom(outputs, firstNumber) && AllOverlapLittle(grandparents, outputs, limit)
    requires bytes <= limit && index == EndedBefore(grandparents, e.key) && Open(grandparents, builder, index, bytes)
    ensures Joined(r) + b == Joined(outputs) + (builder + [e])
    ensures AreTables(r) && NumberedFrom(r, firstNumber) && AllOverlapLittle(grandparents, r, limit)
    ensures Open(grandparents, b, index, bytes)
  {
    hide AreTables, NumberedFrom, Joined, SizesBetween, EndedBefore, Open, AllOverlapLittle;
    NothingOpen(grandparents, limit);
    OpenAdds(grandparents, builder, e, index, bytes);
    r, b := outputs, builder + [e];
    var full: bool := *;
    if full {
      r := FinishOutput(outputs, b, firstNumber);
      OutputOverlapsLittle(grandparents, b, index, bytes, limit, outputs, r);
      b := [];
    }
  }

  /**
   The loop of DoCompactionWork: the outputs hold the survivors in order, and none of them overlaps too much of
   level+2.
   */
  method DoCompactionWork(c: Compaction, input: seq<Entry>, smallestSnapshot: nat, firstNumber: nat, maxOverlap: nat)
    returns (outputs: seq<File>)
    requires c.Valid() && (forall k :: 0 <= k < NUM_LEVELS ==> c.levelPtrs[k] == 0)
    requires c.grandparentIndex == c.overlappedBytes == 0 && !c.seenKey
    requires GoodInput(input) && smallestSnapshot < MAX_SEQUENCE
    modifies c
    ensures Joined(outputs) == Survivors(input, |input|, smallestSnapshot, c.levels, c.level)
    ensures ValidFiles(outputs) && SortedLevel(outputs) && NumberedFrom(outputs, firstNumber)
    ensures c.grandparents == old(c.grandparents) && AllOverlapLittle(c.grandparents, outputs, maxOverlap)
  {
    hide ValidLevels, IsBase, Dropped, Before, GoodInput, ValidFiles, SortedLevel, AreTables, NumberedFrom, Joined,
         Survivors, SizesBetween, EndedBefore, Open, AllOverlapLittle;
    NothingOpen(c.grandparents, maxOverlap);
    outputs := [];
    NoOutputsYet(firstNumber);
    var builder: seq<Entry> := [];
    NoSurvivorsYet(input, smallestSnapshot, c.levels, c.level);
    var last := Last(false, 0.0, 0);
    for i := 0 to |input|
      invariant c.Valid() && c.grandparents == old(c.grandparents)
      invariant i < |input| ==> c.PtrsBehind(input[i].key.user)
      invariant LastIsPrevious(input, i, last)
      invariant Joined(outputs) + builder == Survivors(input, i, smallestSnapshot, c.levels, c.level)
      invariant Cut(c.grandparents, input, i, c.grandparentIndex, c.overlappedBytes, c.seenKey, outputs, builder,
                    firstNumber, maxOverlap)
    {
      var e := input[i];
      outputs, builder := StopBefore(c, input, i, e, outputs, builder, firstNumber, maxOverlap);
      var drop := ShouldDrop(c, input, i, e, last, smallestSnapshot);
      OneMoreSurvivor(Joined(outputs), builder, input, i, smallestSnapshot, c.levels, c.level, drop);
      last := Last(true, e.key.user, e.key.sequence);
      if !drop {
        outputs, builder := AddToOutput(e, outputs, builder, firstNumber, c.grandparents, c.grandparentIndex,
          c.overlappedBytes, maxOverlap);
      }
      if i + 1 < |input| {
        StaysBehind(c, input, i);
      }
    }
    if builder != [] {
      ghost var before := outputs;
      outputs := FinishOutput(outputs, builder, firstNumber);
      OutputOverlapsLittle(c.grandparents, builder, c.grandparentIndex, c.overlappedBytes, maxOverlap, before, outputs);
    }
    assert Joined(outputs) == Survivors(input, |input|, smallestSnapshot, c.levels, c.level);
    OutputsAreValid(outputs, input, smallestSnapshot, c.levels, c.level);
  }

  lemma NoSurvivorsYet(input: seq<Entry>, smallestSnapshot: nat, levels: Levels, level: nat)
    ensures Survivors(input, 0, smallestSnapshot, levels, level) == []
  {
  }

  ghost predicate IsTable(f: File) {
    && f.entries != []
    && f.smallest == f.entries[0].key && f.largest == f.entries[|f.entries| - 1].key
  }

  ghost predicate AreTables(fs: seq<File>) {
    forall f :: f in fs ==> IsTable(f)
  }

  lemma NothingOpen(grandparents: seq<File>, limit: nat)
    ensures AllOverlapLittle(grandparents, [], limit)
    ensures forall index, bytes :: Open(grandparents, [], index, bytes)
  {
  }

  lemma StoppedAt(input: seq<Entry>, i: nat, grandparents: seq<File>, index: nat, next: nat)
    requires GoodInput(input) && i < |input|
    requires index == if i > 0 then EndedBefore(grandparents, input[i - 1].key) else 0
    requires index <= next && (next == index || next <= |grandparents|)
    requires next < |grandparents| ==> !Before(grandparents[next].largest, input[i].key)
    requires forall k :: index <= k < next && k < |grandparents| ==> Before(grandparents[k].largest, input[i].key)
    ensures next == EndedBefore(grandparents, input[i].key)
  {
    if i > 0 {
      IndexIsEnded(grandparents, index, next, Some(input[i - 1].key), input[i].key);
    } else {
      IndexIsEnded(grandparents, index, next, None, input[i].key);
    }
  }

  method FinishOutput(outputs: seq<File>, builder: seq<Entry>, firstNumber: nat) returns (r: seq<File>)
    requires builder != []
    requires AreTables(outputs) && NumberedFrom(outputs, firstNumber)
    ensures AreTables(r)
    ensures NumberedFrom(r, firstNumber)
    ensures Joined(r) == Joined(outputs) + builder
    ensures |r| == |outputs| + 1 && r[..|outputs|] == outputs
    ensures r[|outputs|].smallest == builder[0].key && r[|outputs|].largest == builder[|builder| - 1].key
  {
    var size: nat := *;
    var f := MakeFile(firstNumber + |outputs|, size, builder);
    JoinedSnoc(outputs, f);
    r := outputs + [f];
  }

  lemma NoOutputsYet(firstNumber: nat)
    ensures AreTables([]) && NumberedFrom([], firstNumber) && Joined([]) == []
  {
  }

  /** The moving pointers stay behind the next input key. */
  lemma StaysBehind(c: Compaction, input: seq<Entry>, i: nat)
    requires c.Valid() && i + 1 < |input| && GoodInput(input)
    requires c.PtrsBehind(input[i].key.user)
    ensures c.PtrsBehind(input[i + 1].key.user)
  {
    assert Before(input[i].key, input[i + 1].key);
  }

  lemma OutputsAreValid(outputs: seq<File>, input: seq<Entry>, smallestSnapshot: nat, levels: Levels, level: nat)
    requires AreTables(outputs) && GoodInput(input)
    requires Joined(outputs) == Survivors(input, |input|, smallestSnapshot, levels, level)
    ensures ValidFiles(outputs) && SortedLevel(outputs)
  {
    SurvivorsAre(input, |input|, smallestSnapshot, levels, level);
    forall f | f in outputs
      ensures ValidFile(f)
    {
      PieceIsSorted(outputs, f);
      forall e | e in f.entries
        ensures e.key.sequence < MAX_SEQUENCE
      {
        JoinedHas(outputs, f, e);
      }
    }
    PiecesAreSorted(outputs);
  }

  lemma {:induction false} PieceIsSorted(fs: seq<File>, f: File)
    requires Sorted(Joined(fs)) && f in fs
    ensures Sorted(f.entries)
  {
    var n := |fs| - 1;
    assert fs == fs[..n] + [fs[n]];
    SortedParts(Joined(fs[..n]), fs[n].entries);
    if f != fs[n] {
      PieceIsSorted(fs[..n], f);
    }
  }
}
