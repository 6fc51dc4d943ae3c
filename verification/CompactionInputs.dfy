/**
 Choosing the inputs of a compaction (db/version_set.cc:1017-1036 and 1250-1478).
 */
module CompactionInputs {
  import opened Options
  import opened Keys
  import opened Files
  import opened Lsm

  function TotalFileSize(fs: seq<File>): nat {
    if fs == [] then 0 else TotalFileSize(fs[..|fs| - 1]) + fs[|fs| - 1].size
  }

  // ---- contiguous runs -------------------------------------------------------------------------

  /** What the runs below use of a sorted level: its key ranges, in order. */
  ghost predicate RangesInOrder(fs: seq<File>) {
    && (forall i :: 0 <= i < |fs| ==> !Before(fs[i].largest, fs[i].smallest))
    && forall i, j :: 0 <= i < j < |fs| ==> Before(fs[i].largest, fs[j].smallest)
  }

  lemma SortedLevelRanges(fs: seq<File>)
    requires SortedLevel(fs)
    ensures RangesInOrder(fs)
  {
    forall i | 0 <= i < |fs|
      ensures !Before(fs[i].largest, fs[i].smallest)
    {
      FileBounds(fs[i]);
    }
  }

  /** Where a range starts and stops meeting the files of a level. */
  ghost predicate MeetsExactly(fs: seq<File>, i: nat, j: nat, begin: Option<UserKey>, end: Option<UserKey>) {
    && i <= j <= |fs|
    && forall k :: 0 <= k < |fs| ==> (RangeMeets(fs[k], begin, end) <==> i <= k < j)
  }

  lemma {:induction false} MeetingIsSlice(fs: seq<File>, n: nat, i: nat, j: nat,
                                          begin: Option<UserKey>, end: Option<UserKey>)
    requires n <= |fs| && MeetsExactly(fs, i, j, begin, end)
    ensures MeetingUpTo(fs, n, begin, end) == if n <= i then [] else fs[i..if n <= j then n else j]
  {
    if n > 0 {
      MeetingIsSlice(fs, n - 1, i, j, begin, end);
    }
  }

  /** The files of a sorted level that meet a range are a contiguous run. */
  lemma MeetingIsRun(fs: seq<File>, begin: Option<UserKey>, end: Option<UserKey>) returns (i: nat, j: nat)
    requires RangesInOrder(fs)
    ensures MeetsExactly(fs, i, j, begin, end)
    ensures Meeting(fs, begin, end) == fs[i..j]
  {
    i := 0;
    while i < |fs| && begin.Some? && fs[i].largest.user < begin.value
      invariant i <= |fs|
      invariant forall k :: 0 <= k < i ==> !RangeMeets(fs[k], begin, end)
    {
      i := i + 1;
    }
    j := i;
    while j < |fs| && !(end.Some? && fs[j].smallest.user > end.value)
      invariant i <= j <= |fs|
      invariant forall k :: i <= k < j ==> RangeMeets(fs[k], begin, end)
    {
      assert i < j ==> Before(fs[i].largest, fs[j].smallest);
      j := j + 1;
    }
    forall k | j <= k < |fs|
      ensures !RangeMeets(fs[k], begin, end)
    {
      assert j < k ==> Before(fs[j].largest, fs[k].smallest);
    }
    MeetingIsSlice(fs, |fs|, i, j, begin, end);
  }

  /** No file is listed twice. */
  ghost predicate Distinct(fs: seq<File>) {
    forall i, j :: 0 <= i < j < |fs| ==> fs[i] != fs[j]
  }

  lemma {:induction false} MeetingIsDistinct(fs: seq<File>, n: nat, begin: Option<UserKey>, end: Option<UserKey>)
    requires n <= |fs| && Distinct(fs)
    ensures Distinct(MeetingUpTo(fs, n, begin, end))
  {
    if n > 0 {
      MeetingIsDistinct(fs, n - 1, begin, end);
      MeetingUpToMembers(fs, n - 1, begin, end);
      var rest := MeetingUpTo(fs, n - 1, begin, end);
      assert forall i :: 0 <= i < |rest| ==> rest[i] in rest;
      assert forall i :: 0 <= i < n - 1 ==> fs[i] != fs[n - 1];
    }
  }

  lemma LevelIsDistinct(fs: seq<File>)
    requires InFileOrder(fs)
    ensures Distinct(fs)
  {
    forall i, j | 0 <= i < j < |fs|
      ensures fs[i] != fs[j]
    {
      assert FileOrder(fs[i], fs[j]);
    }
  }

  // ---- GetRange ----------------------------------------------------------------------------------

  /** The greatest key of a list of files (FindLargestKey). */
  ghost predicate LargestOf(fs: seq<File>, key: InternalKey) {
    && (exists f :: f in fs && f.largest == key)
    && forall f <- fs :: !Before(key, f.largest)
  }

  ghost predicate SmallestOf(fs: seq<File>, key: InternalKey) {
    && (exists f :: f in fs && f.smallest == key)
    && forall f <- fs :: !Before(f.smallest, key)
  }

  /** The user-key range of a list of files. */
  ghost predicate HullOf(fs: seq<File>, lo: UserKey, hi: UserKey) {
    && (exists f :: f in fs && f.smallest.user == lo)
    && (exists f :: f in fs && f.largest.user == hi)
    && forall f :: f in fs ==> lo <= f.smallest.user && f.largest.user <= hi
  }

  /** GetRange: the least and the greatest key over a non-empty list of files. */
  method GetRange(fs: seq<File>) returns (smallest: InternalKey, largest: InternalKey)
    requires fs != []
    ensures SmallestOf(fs, smallest) && LargestOf(fs, largest)
    ensures HullOf(fs, smallest.user, largest.user)
  {
    smallest, largest := fs[0].smallest, fs[0].largest;
    for i := 1 to |fs|
      invariant exists f :: f in fs && f.smallest == smallest
      invariant exists f :: f in fs && f.largest == largest
      invariant forall k :: 0 <= k < i ==> !Before(fs[k].smallest, smallest) && !Before(largest, fs[k].largest)
    {
      if Before(fs[i].smallest, smallest) {
        smallest := fs[i].smallest;
      }
      if Before(largest, fs[i].largest) {
        largest := fs[i].largest;
      }
    }
  }

  // ---- boundary files -----------------------------------------------------------------------------

  /** `f` begins with the user key that `key` ends with, after it: older versions of that key. */
  predicate IsBoundary(f: File, key: InternalKey) {
    Before(key, f.smallest) && f.smallest.user == key.user
  }

  ghost predicate SmallestBoundary(fs: seq<File>, key: InternalKey, f: File) {
    && f in fs && IsBoundary(f, key)
    && forall g :: g in fs && IsBoundary(g, key) ==> !Before(g.smallest, f.smallest)
  }

  ghost predicate NoBoundary(fs: seq<File>, key: InternalKey) {
    forall f :: f in fs ==> !IsBoundary(f, key)
  }

  method FindSmallestBoundaryFile(fs: seq<File>, key: InternalKey) returns (r: Option<File>)
    ensures r.None? ==> NoBoundary(fs, key)
    ensures r.Some? ==> SmallestBoundary(fs, key, r.value)
  {
    r := None;
    for i := 0 to |fs|
      invariant r.None? ==> forall k :: 0 <= k < i ==> !IsBoundary(fs[k], key)
      invariant r.Some? ==> r.value in fs && IsBoundary(r.value, key)
      invariant r.Some? ==> forall k :: 0 <= k < i && IsBoundary(fs[k], key) ==>
                  !Before(fs[k].smallest, r.value.smallest)
    {
      if IsBoundary(fs[i], key) {
        if r.None? || Before(fs[i].smallest, r.value.smallest) {
          r := Some(fs[i]);
        }
      }
    }
  }

  /** `added` is what the boundary search appends, starting from the largest key `key`. */
  ghost predicate BoundaryChain(fs: seq<File>, key: InternalKey, added: seq<File>)
    decreases |added|
  {
    if added == [] then NoBoundary(fs, key)
    else SmallestBoundary(fs, key, added[0]) && BoundaryChain(fs, added[0].largest, added[1..])
  }

  /** How many files begin after `key`; the boundary search terminates because this falls. */
  ghost function BeginAfter(fs: seq<File>, key: InternalKey): nat {
    if fs == [] then 0 else
      BeginAfter(fs[1..], key) + if Before(key, fs[0].smallest) then 1 else 0
  }

  lemma {:induction false} BeginAfterFalls(fs: seq<File>, key: InternalKey, f: File)
    requires !Before(f.largest, key)
    ensures BeginAfter(fs, f.largest) <= BeginAfter(fs, key)
    ensures f in fs && Before(key, f.smallest) && !Before(f.largest, f.smallest) ==>
              BeginAfter(fs, f.largest) < BeginAfter(fs, key)
  {
    if fs != [] {
      BeginAfterFalls(fs[1..], key, f);
    }
  }

  /** Any chain from `key` on completes the search that has added `added` since `first`. */
  ghost predicate OnTheWay(fs: seq<File>, first: InternalKey, added: seq<File>, key: InternalKey) {
    forall rest :: BoundaryChain(fs, key, rest) ==> BoundaryChain(fs, first, added + rest)
  }

  lemma WayStarts(fs: seq<File>, first: InternalKey)
    ensures OnTheWay(fs, first, [], first)
  {
    assert forall rest: seq<File> :: [] + rest == rest;
  }

  lemma WayGoesOn(fs: seq<File>, first: InternalKey, added: seq<File>, key: InternalKey, f: File)
    requires OnTheWay(fs, first, added, key) && SmallestBoundary(fs, key, f)
    ensures OnTheWay(fs, first, added + [f], f.largest)
  {
    hide SmallestBoundary;
    forall rest | BoundaryChain(fs, f.largest, rest)
      ensures BoundaryChain(fs, first, (added + [f]) + rest)
    {
      assert BoundaryChain(fs, key, [f] + rest);
      assert (added + [f]) + rest == added + ([f] + rest);
    }
  }

  lemma WayEnds(fs: seq<File>, first: InternalKey, added: seq<File>, key: InternalKey)
    requires OnTheWay(fs, first, added, key) && NoBoundary(fs, key)
    ensures BoundaryChain(fs, first, added)
  {
    assert BoundaryChain(fs, key, []);
    assert added + [] == added;
  }

  /** AddBoundaryInputs: keep adding the file that continues the last user key. */
  method AddBoundaryInputs(fs: seq<File>, files: seq<File>) returns (r: seq<File>, ghost added: seq<File>)
    requires ValidFiles(fs)
    ensures r == files + added
    ensures files == [] ==> r == []
    ensures files != [] ==> exists key :: LargestOf(files, key) && BoundaryChain(fs, key, added)
  {
    r, added := files, [];
    if files == [] {
      return;
    }
    var _, largestKey := GetRange(files);
    ghost var first := largestKey;
    assert LargestOf(files, first);
    WayStarts(fs, first);
    hide OnTheWay, BoundaryChain, LargestOf, SmallestBoundary, NoBoundary, BeginAfter;
    var searching := true;
    while searching
      invariant r == files + added
      invariant searching ==> OnTheWay(fs, first, added, largestKey)
      invariant !searching ==> BoundaryChain(fs, first, added)
      decreases searching, BeginAfter(fs, largestKey)
    {
      var found := FindSmallestBoundaryFile(fs, largestKey);
      if found.Some? {
        var f := found.value;
        BoundaryRises(fs, largestKey, f);
        WayGoesOn(fs, first, added, largestKey, f);
        r := r + [f];
        added := added + [f];
        largestKey := f.largest;
      } else {
        WayEnds(fs, first, added, largestKey);
        searching := false;
      }
    }
  }

  lemma BoundaryRises(fs: seq<File>, key: InternalKey, f: File)
    requires ValidFiles(fs) && SmallestBoundary(fs, key, f)
    ensures BeginAfter(fs, f.largest) < BeginAfter(fs, key)
  {
    FileBounds(f);
    BeginAfterFalls(fs, key, f);
  }

  /** The run ends where the next file does not continue the last user key. */
  ghost predicate RunEnds(fs: seq<File>, j: nat) {
    0 < j <= |fs| && (j < |fs| ==> fs[j].smallest.user != fs[j - 1].largest.user)
  }

  /** On a sorted level the boundary search extends a run to the right, as far as its last user key. */
  lemma {:induction false} BoundaryExtendsRun(fs: seq<File>, j: nat, added: seq<File>) returns (k: nat)
    requires RangesInOrder(fs) && 0 < j <= |fs|
    requires BoundaryChain(fs, fs[j - 1].largest, added)
    ensures j <= k <= |fs| && added == fs[j..k] && RunEnds(fs, k)
    decreases |added|
  {
    var key := fs[j - 1].largest;
    forall m | 0 <= m < j
      ensures !IsBoundary(fs[m], key)
    {
      assert m < j - 1 ==> Before(fs[m].largest, fs[j - 1].smallest);
    }
    if added == [] {
      assert j < |fs| ==> Before(fs[j - 1].largest, fs[j].smallest) && !IsBoundary(fs[j], key);
      k := j;
    } else {
      var m :| 0 <= m < |fs| && fs[m] == added[0];
      assert Before(fs[j - 1].largest, fs[j].smallest);
      if m > j {
        assert Before(fs[j].largest, fs[m].smallest);
        assert IsBoundary(fs[j], key);
      }
      k := BoundaryExtendsRun(fs, j + 1, added[1..]);
    }
  }

  /** On an overlap-closed part of level 0 it adds nothing. */
  lemma ClosedHasNoBoundary(fs: seq<File>, files: seq<File>, b: Option<UserKey>, e: Option<UserKey>, key: InternalKey,
                            added: seq<File>)
    requires ValidFiles(fs) && files != [] && forall f <- files :: f in fs
    requires OverlapClosed(fs, b, e, FileSet(files))
    requires LargestOf(files, key) && BoundaryChain(fs, key, added)
    ensures added == []
  {
    forall f | f in fs { FileBounds(f); }
    var g :| g in files && g.largest == key;
    if added != [] {
      var f := added[0];
      assert FilesMeet(f, g);
    }
  }

  // ---- the chosen inputs -----------------------------------------------------------------------------

  ghost predicate Closed(upper: seq<File>, inputs: seq<File>) {
    exists b: Option<UserKey>, e: Option<UserKey> :: OverlapClosed(upper, b, e, FileSet(inputs))
  }

  ghost predicate IsRun(upper: seq<File>, inputs: seq<File>) {
    exists i, j :: 0 <= i < j <= |upper| && inputs == upper[i..j]
  }

  /** What PickCompaction and CompactRange start from: a run, or at level 0 an overlap-closed set. */
  ghost predicate StartingInputs(level: nat, upper: seq<File>, inputs: seq<File>) {
    && inputs != [] && Distinct(inputs)
    && (forall f :: f in inputs ==> f in upper)
    && (level == 0 ==> Closed(upper, inputs))
    && (level > 0 ==> IsRun(upper, inputs))
  }

  /** No file of the level outside `inputs` holds an older version of a user key in `inputs`. */
  ghost predicate NoOlderLeft(upper: seq<File>, inputs: seq<File>) {
    forall f, g :: f in inputs && g in upper && g !in inputs ==> FileNewer(g, f)
  }

  ghost predicate MeetingHull(lower: seq<File>, inputs0: seq<File>, inputs1: seq<File>) {
    exists lo, hi :: HullOf(inputs0, lo, hi) && inputs1 == Meeting(lower, Some(lo), Some(hi))
  }

  /** What SetupOtherInputs guarantees about inputs_[0] and inputs_[1]. */
  ghost predicate Chosen(upper: seq<File>, lower: seq<File>, inputs0: seq<File>, inputs1: seq<File>) {
    && inputs0 != [] && Distinct(inputs0)
    && (forall f :: f in inputs0 ==> f in upper)
    && NoOlderLeft(upper, inputs0)
    && MeetingHull(lower, inputs0, inputs1)
  }

  lemma ChosenIsNotEmpty(upper: seq<File>, lower: seq<File>, inputs0: seq<File>, inputs1: seq<File>)
    requires Chosen(upper, lower, inputs0, inputs1)
    ensures inputs0 != []
  {
  }

  lemma ChosenMeets(upper: seq<File>, lower: seq<File>, inputs0: seq<File>, inputs1: seq<File>)
    requires Chosen(upper, lower, inputs0, inputs1)
    ensures MeetingHull(lower, inputs0, inputs1)
  {
  }

  /** `r` is `files` with what the boundary search adds to it. */
  ghost predicate Extended(fs: seq<File>, files: seq<File>, r: seq<File>) {
    exists added, key :: r == files + added && LargestOf(files, key) && BoundaryChain(fs, key, added)
  }

  /** `inputs` is the least set that holds the files meeting the range and is closed under overlap. */
  ghost predicate LeastClosed(upper: seq<File>, begin: Option<UserKey>, end: Option<UserKey>, inputs: seq<File>) {
    && OverlapClosed(upper, begin, end, FileSet(inputs))
    && forall chosen: set<File> :: OverlapClosed(upper, begin, end, chosen) ==> forall f :: f in inputs ==> f in chosen
  }

  lemma IsLeastClosed(upper: seq<File>, begin: Option<UserKey>, end: Option<UserKey>, inputs: seq<File>)
    requires OverlapClosed(upper, begin, end, FileSet(inputs))
    requires forall chosen: set<File> :: OverlapClosed(upper, begin, end, chosen) ==> forall f :: f in inputs ==>
               f in chosen
    ensures LeastClosed(upper, begin, end, inputs)
  {
  }

  /** What GetOverlappingInputs gives for the user-key range of `files`. */
  ghost predicate OverlappingHull(level: nat, fs: seq<File>, files: seq<File>, r: seq<File>) {
    exists lo, hi ::
      && HullOf(files, lo, hi)
      && (level > 0 ==> r == Meeting(fs, Some(lo), Some(hi)))
      && (level == 0 ==> LeastClosed(fs, Some(lo), Some(hi), r))
  }

  /** The wider inputs_[0] that the files of level+1 suggest: all that meets them, and its boundary files. */
  ghost predicate Suggested(level: nat, upper: seq<File>, base0: seq<File>, base1: seq<File>, wider: seq<File>) {
    exists overlapping :: OverlappingHull(level, upper, base0 + base1, overlapping)
      && Extended(upper, overlapping, wider)
  }

  /** inputs_[0] is widened if that adds files to it, but none to inputs_[1], and the total stays below the limit. */
  ghost predicate Widens(lower: seq<File>, base0: seq<File>, base1: seq<File>, wider: seq<File>, limit: nat) {
    && |wider| > |base0| && TotalFileSize(base1) + TotalFileSize(wider) < limit
    && exists in1 :: MeetingHull(lower, wider, in1) && |in1| == |base1|
  }

  /** Boundary files first, and the files of level+1 that the result meets; then the wider inputs if they widen. */
  ghost predicate CompletedBy(levels: Levels, level: nat, start: seq<File>, limit: nat, in0: seq<File>, in1: seq<File>,
                              base0: seq<File>, base1: seq<File>, wider: seq<File>)
    requires level + 1 < |levels|
  {
    && Extended(levels[level], start, base0) && MeetingHull(levels[level + 1], base0, base1)
    && (base1 != [] ==> Suggested(level, levels[level], base0, base1, wider))
    && if base1 != [] && Widens(levels[level + 1], base0, base1, wider, limit)
       then in0 == wider && MeetingHull(levels[level + 1], wider, in1)
       else in0 == base0 && in1 == base1
  }

  /** The inputs that SetupOtherInputs makes of `start`. */
  ghost predicate Completed(levels: Levels, level: nat, start: seq<File>, limit: nat, in0: seq<File>, in1: seq<File>)
    requires level + 1 < |levels|
  {
    exists base0, base1, wider :: CompletedBy(levels, level, start, limit, in0, in1, base0, base1, wider)
  }

  /** IsTrivialMove: one file that meets none of level+1 and not too much of level+2. */
  ghost predicate LiesAlone(levels: Levels, level: nat, in0: seq<File>, in1: seq<File>, maxOverlap: nat) {
    && |in0| == 1 && in1 == []
    && (level + 2 < |levels| ==>
          var grandparents := Meeting(levels[level + 2], Some(in0[0].smallest.user), Some(in0[0].largest.user));
          TotalFileSize(grandparents) <= maxOverlap)
  }

  lemma {:induction false} TotalIsSum(a: seq<File>, b: seq<File>)
    ensures TotalFileSize(a + b) == TotalFileSize(a) + TotalFileSize(b)
    ensures |b| == 1 ==> TotalFileSize(b) == b[0].size
  {
    if b == [] {
      assert a + b == a;
    } else {
      var n := |b| - 1;
      TotalIsSum(a, b[..n]);
      assert (a + b)[..|a + b| - 1] == a + b[..n];
    }
  }

  /** The grandparents decide, as IsTrivialMove asks, whether a single input lies alone. */
  lemma GrandparentsDecide(levels: Levels, level: nat, in0: seq<File>, in1: seq<File>, grandparents: seq<File>,
                           maxOverlap: nat)
    requires level + 1 < |levels|
    requires if level + 2 < |levels| then OverlappingHull(level + 2, levels[level + 2], in0 + in1, grandparents)
             else grandparents == []
    ensures LiesAlone(levels, level, in0, in1, maxOverlap)
       <==> |in0| == 1 && |in1| == 0 && TotalFileSize(grandparents) <= maxOverlap
  {
    hide Meeting;
    if |in0| == 1 && |in1| == 0 && level + 2 < |levels| {
      assert in0 + in1 == [in0[0]];
      var lo, hi :| HullOf([in0[0]], lo, hi) && grandparents == Meeting(levels[level + 2], Some(lo), Some(hi));
    }
  }

  lemma MeetingHullIsUnique(lower: seq<File>, inputs0: seq<File>, a: seq<File>, b: seq<File>)
    requires MeetingHull(lower, inputs0, a) && MeetingHull(lower, inputs0, b)
    ensures a == b
  {
    hide Meeting;
    var lo, hi :| HullOf(inputs0, lo, hi) && a == Meeting(lower, Some(lo), Some(hi));
    var lo', hi' :| HullOf(inputs0, lo', hi') && b == Meeting(lower, Some(lo'), Some(hi'));
    assert lo == lo' && hi == hi';
  }

  lemma DecidesToWiden(lower: seq<File>, base0: seq<File>, base1: seq<File>, wider: seq<File>, limit: nat,
                       in1: seq<File>)
    requires MeetingHull(lower, wider, in1)
    ensures Widens(lower, base0, base1, wider, limit)
       <==> |wider| > |base0| && TotalFileSize(base1) + TotalFileSize(wider) < limit && |in1| == |base1|
  {
    hide MeetingHull;
    if Widens(lower, base0, base1, wider, limit) {
      var b :| MeetingHull(lower, wider, b) && |b| == |base1|;
      MeetingHullIsUnique(lower, wider, in1, b);
    }
  }

  lemma ClosedLeavesNothing(upper: seq<File>, inputs: seq<File>)
    requires ValidFiles(upper) && forall f :: f in inputs ==> f in upper
    requires Closed(upper, inputs)
    ensures NoOlderLeft(upper, inputs)
  {
    forall f, g | f in inputs && g in upper && g !in inputs
      ensures FileNewer(g, f)
    {
      FileBounds(f);
      FileBounds(g);
      assert !FilesMeet(g, f);
    }
  }

  /** Of two files of a sorted level the earlier one holds the newer versions of a shared user key. */
  lemma EarlierIsNewer(f: File, g: File)
    requires ValidFile(f) && ValidFile(g) && Before(f.largest, g.smallest)
    requires UniqueKeys(EntrySet(f.entries) + EntrySet(g.entries))
    ensures FileNewer(f, g)
  {
    FileBounds(f);
    FileBounds(g);
    forall x, y | x in EntrySet(f.entries) && y in EntrySet(g.entries) && x.key.user == y.key.user
      ensures x.key.sequence > y.key.sequence
    {
      assert x in EntrySet(f.entries) + EntrySet(g.entries) && y in EntrySet(f.entries) + EntrySet(g.entries);
      assert Before(x.key, y.key);
    }
  }

  lemma UsersApart(f: File, g: File)
    requires ValidFile(f) && ValidFile(g)
    requires f.largest.user < g.smallest.user || g.largest.user < f.smallest.user
    ensures FileNewer(f, g)
  {
    FileBounds(f);
    FileBounds(g);
  }

  /** Past the end of a run no file shares a user key with a file of the run. */
  lemma PastTheRun(upper: seq<File>, n: nat, k: nat, m: nat)
    requires ValidFiles(upper) && RangesInOrder(upper) && n < k <= m < |upper| && RunEnds(upper, k)
    ensures FileNewer(upper[m], upper[n])
  {
    hide FileNewer;
    assert k < m ==> Before(upper[k].largest, upper[m].smallest);
    assert n < k - 1 ==> Before(upper[n].largest, upper[k - 1].smallest);
    assert Before(upper[k - 1].largest, upper[k].smallest);
    UsersApart(upper[m], upper[n]);
  }

  lemma BeforeTheRun(upper: seq<File>, m: nat, n: nat)
    requires ValidFiles(upper) && RangesInOrder(upper) && UniqueKeys(Contents(upper)) && m < n < |upper|
    ensures FileNewer(upper[m], upper[n])
  {
    hide FileNewer, ValidFile;
    var g, f := upper[m], upper[n];
    assert EntrySet(f.entries) <= Contents(upper) && EntrySet(g.entries) <= Contents(upper);
    EarlierIsNewer(g, f);
  }

  lemma RunLeavesNoOlder(upper: seq<File>, i: nat, k: nat)
    requires ValidFiles(upper) && RangesInOrder(upper) && UniqueKeys(Contents(upper))
    requires i < k <= |upper| && RunEnds(upper, k)
    ensures NoOlderLeft(upper, upper[i..k])
  {
    hide FileNewer, ValidFiles, RangesInOrder, UniqueKeys, RunEnds, Contents;
    forall f, g | f in upper[i..k] && g in upper && g !in upper[i..k]
      ensures FileNewer(g, f)
    {
      var n :| i <= n < k && upper[n] == f;
      var m :| 0 <= m < |upper| && upper[m] == g;
      if k <= m {
        PastTheRun(upper, n, k, m);
      } else {
        assert m < i;
        BeforeTheRun(upper, m, n);
      }
    }
  }

  lemma LastIsLargest(upper: seq<File>, i: nat, j: nat, key: InternalKey)
    requires RangesInOrder(upper) && i < j <= |upper| && LargestOf(upper[i..j], key)
    ensures key == upper[j - 1].largest
  {
    var run := upper[i..j];
    var n :| 0 <= n < |run| && run[n].largest == key;
    var last := upper[j - 1];
    assert upper[i + n].largest == key && run[|run| - 1] == last;
    assert i + n < j - 1 ==> Before(key, last.smallest);
  }

  lemma BoundaryRun(upper: seq<File>, i: nat, j: nat, added: seq<File>, key: InternalKey) returns (k: nat)
    requires RangesInOrder(upper) && i < j <= |upper|
    requires LargestOf(upper[i..j], key) && BoundaryChain(upper, key, added)
    ensures i < k <= |upper| && RunEnds(upper, k) && upper[i..j] + added == upper[i..k]
  {
    LastIsLargest(upper, i, j, key);
    k := BoundaryExtendsRun(upper, j, added);
    hide BoundaryChain, LargestOf, RangesInOrder;
    assert upper[i..k] == upper[i..j] + upper[j..k];
  }

  lemma ExtendedRunIsClean(upper: seq<File>, i: nat, j: nat, added: seq<File>, key: InternalKey)
    requires SortedLevel(upper) && UniqueKeys(Contents(upper)) && Distinct(upper) && i < j <= |upper|
    requires LargestOf(upper[i..j], key) && BoundaryChain(upper, key, added)
    ensures NoOlderLeft(upper, upper[i..j] + added) && Distinct(upper[i..j] + added)
    ensures forall f :: f in upper[i..j] + added ==> f in upper
  {
    SortedLevelRanges(upper);
    var k := BoundaryRun(upper, i, j, added, key);
    RunLeavesNoOlder(upper, i, k);
    hide SortedLevel, Contents, UniqueKeys, LargestOf, BoundaryChain, NoOlderLeft, RangesInOrder;
    assert forall m, n :: i <= m < n < k ==> upper[m] != upper[n];
  }

  lemma ClosedIsClean(upper: seq<File>, inputs: seq<File>, added: seq<File>, key: InternalKey)
    requires ValidFiles(upper) && inputs != [] && Closed(upper, inputs) && forall f :: f in inputs ==> f in upper
    requires LargestOf(inputs, key) && BoundaryChain(upper, key, added)
    ensures inputs + added == inputs && NoOlderLeft(upper, inputs)
  {
    var b, e :| OverlapClosed(upper, b, e, FileSet(inputs));
    ClosedHasNoBoundary(upper, inputs, b, e, key, added);
    ClosedLeavesNothing(upper, inputs);
  }

  /** Starting inputs, extended by the boundary search, leave nothing older behind. */
  lemma BoundaryInputsLeaveNoOlder(level: nat, upper: seq<File>, inputs: seq<File>, added: seq<File>, key: InternalKey)
    requires ValidFiles(upper) && (level > 0 ==> SortedLevel(upper) && UniqueKeys(Contents(upper)))
    requires StartingInputs(level, upper, inputs) && Distinct(upper)
    requires LargestOf(inputs, key) && BoundaryChain(upper, key, added)
    ensures NoOlderLeft(upper, inputs + added) && Distinct(inputs + added)
    ensures forall f :: f in inputs + added ==> f in upper
  {
    hide ValidFiles, SortedLevel, Contents, UniqueKeys, LargestOf, BoundaryChain, NoOlderLeft, Distinct, Closed;
    if level == 0 {
      ClosedIsClean(upper, inputs, added, key);
    } else {
      var i, j :| 0 <= i < j <= |upper| && inputs == upper[i..j];
      ExtendedRunIsClean(upper, i, j, added, key);
    }
  }

  /** The files overlapping a range are again starting inputs. */
  lemma OverlappingAreStarting(level: nat, upper: seq<File>, begin: Option<InternalKey>, end: Option<InternalKey>,
                               inputs: seq<File>)
    requires level > 0 ==> SortedLevel(upper)
    requires inputs != [] && Distinct(inputs) && forall f :: f in inputs ==> f in upper
    requires level > 0 ==> inputs == Meeting(upper, UserOf(begin), UserOf(end))
    requires level == 0 ==> OverlapClosed(upper, UserOf(begin), UserOf(end), FileSet(inputs))
    ensures StartingInputs(level, upper, inputs)
  {
    if level > 0 {
      SortedLevelRanges(upper);
      var i, j := MeetingIsRun(upper, UserOf(begin), UserOf(end));
    }
  }

  // ---- where a compaction starts --------------------------------------------------------------------

  /** The first file that ends after the compact pointer, or the first file if there is none. */
  ghost predicate PickedAt(upper: seq<File>, pointer: Option<InternalKey>, i: nat) {
    && i < |upper|
    && (pointer.Some? ==>
          || (Before(pointer.value, upper[i].largest)
              && forall k :: 0 <= k < i ==> !Before(pointer.value, upper[k].largest))
          || (i == 0 && forall k :: 0 <= k < |upper| ==> !Before(pointer.value, upper[k].largest)))
    && (pointer.None? ==> i == 0)
  }

  /** The i-th file, and at level 0 exactly what its range brings in. */
  ghost predicate StartsAt(level: nat, upper: seq<File>, i: nat, inputs: seq<File>) {
    && i < |upper| && upper[i] in inputs
    && (level > 0 ==> inputs == [upper[i]])
    && (level == 0 ==> LeastClosed(upper, Some(upper[i].smallest.user), Some(upper[i].largest.user), inputs))
  }

  /**
   PickCompaction: the first file after the compact pointer, wrapping around, or the file that used up its
   seeks; at level 0 everything that overlaps it, transitively.
   */
  method PickCompaction(level: nat, upper: seq<File>, pointer: Option<InternalKey>, seekFile: Option<File>)
    returns (inputs: seq<File>)
    requires ValidFiles(upper) && Distinct(upper) && (level > 0 ==> SortedLevel(upper))
    requires upper != [] && (seekFile.Some? ==> seekFile.value in upper)
    ensures StartingInputs(level, upper, inputs)
    ensures exists i: nat :: StartsAt(level, upper, i, inputs)
              && (if seekFile.Some? then upper[i] == seekFile.value else PickedAt(upper, pointer, i))
  {
    hide LeastClosed, MeetingUpTo, ValidFile, BoundaryChain, RangesInOrder;
    var i := 0;
    if seekFile.Some? {
      i :| 0 <= i < |upper| && upper[i] == seekFile.value;
    } else {
      while i < |upper| && pointer.Some? && !Before(pointer.value, upper[i].largest)
        invariant i <= |upper| && (i > 0 ==> pointer.Some?)
        invariant forall k :: 0 <= k < i ==> pointer.Some? && !Before(pointer.value, upper[k].largest)
      {
        i := i + 1;
      }
      if i == |upper| {
        i := 0;
      }
      assert PickedAt(upper, pointer, i);
    }
    inputs := [upper[i]];
    if level == 0 {
      var smallest, largest := GetRange(inputs);
      inputs := GetOverlappingInputs(0, upper, Some(smallest), Some(largest));
      FileBounds(upper[i]);
      assert upper[i] in inputs by {
        assert RangeMeets(upper[i], Some(smallest.user), Some(largest.user));
      }
      ghost var b, e :| inputs == Meeting(upper, b, e);
      MeetingIsDistinct(upper, |upper|, b, e);
      IsLeastClosed(upper, Some(smallest.user), Some(largest.user), inputs);
    } else {
      assert inputs == upper[i..i + 1];
    }
    assert StartsAt(level, upper, i, inputs);
  }

  /** `inputs` is the shortest non-empty prefix of `all` that reaches the limit, or all of it. */
  ghost predicate CutAt(all: seq<File>, inputs: seq<File>, limit: nat) {
    && inputs <= all && (inputs != all ==> TotalFileSize(inputs) >= limit)
    && forall k: nat :: 0 < k < |inputs| ==> TotalFileSize(inputs[..k]) < limit
  }

  /** CompactRange: the files overlapping [begin, end], cut to a prefix of limited size above level 0. */
  method CompactRange(level: nat, upper: seq<File>, begin: Option<InternalKey>, end: Option<InternalKey>, limit: nat)
    returns (inputs: seq<File>)
    requires ValidFiles(upper) && Distinct(upper) && (level > 0 ==> SortedLevel(upper))
    ensures inputs != [] ==> StartingInputs(level, upper, inputs)
    ensures inputs == [] ==> forall f :: f in upper ==> !RangeMeets(f, UserOf(begin), UserOf(end))
    ensures level > 0 ==> CutAt(Meeting(upper, UserOf(begin), UserOf(end)), inputs, limit)
    ensures level == 0 ==> LeastClosed(upper, UserOf(begin), UserOf(end), inputs)
  {
    hide LeastClosed, MeetingUpTo, ValidFile, BoundaryChain, RangesInOrder;
    inputs := GetOverlappingInputs(level, upper, begin, end);
    MeetingMembers(upper, UserOf(begin), UserOf(end));
    if level == 0 {
      IsLeastClosed(upper, UserOf(begin), UserOf(end), inputs);
    }
    if inputs == [] {
      return;
    }
    ghost var b, e :| inputs == Meeting(upper, b, e);
    MeetingIsDistinct(upper, |upper|, b, e);
    OverlappingAreStarting(level, upper, begin, end, inputs);
    if level > 0 {
      var n := LimitTotal(inputs, limit);
      PrefixIsStarting(level, upper, inputs, n);
      inputs := inputs[..n];
    }
  }

  /** The loop of CompactRange that limits the size of a compaction. */
  method LimitTotal(all: seq<File>, limit: nat) returns (n: nat)
    requires all != []
    ensures 0 < n <= |all| && CutAt(all, all[..n], limit)
  {
    var total := 0;
    n := 0;
    while n < |all|
      invariant n <= |all| && total == TotalFileSize(all[..n])
      invariant forall k: nat :: 0 < k <= n ==> TotalFileSize(all[..k]) < limit
    {
      total := total + all[n].size;
      n := n + 1;
      assert all[..n][..n - 1] == all[..n - 1];
      if total >= limit {
        break;
      }
    }
    assert forall k: nat :: k < n ==> all[..n][..k] == all[..k];
  }

  lemma PrefixIsStarting(level: nat, upper: seq<File>, inputs: seq<File>, n: nat)
    requires level > 0 && StartingInputs(level, upper, inputs) && 0 < n <= |inputs|
    ensures StartingInputs(level, upper, inputs[..n])
  {
    var i, j :| 0 <= i < j <= |upper| && inputs == upper[i..j];
    assert inputs[..n] == upper[i..i + n];
  }

  /** The total size of files `i` to `j` - 1. */
  function SizesBetween(fs: seq<File>, i: nat, j: nat): nat {
    if i >= j then 0 else SizesBetween(fs, i, j - 1) + if j - 1 < |fs| then fs[j - 1].size else 0
  }

  lemma {:induction false} SizesAreTotal(fs: seq<File>, i: nat, j: nat)
    requires i <= j <= |fs|
    ensures SizesBetween(fs, i, j) == TotalFileSize(fs[i..j])
  {
    if i < j {
      SizesAreTotal(fs, i, j - 1);
      assert fs[i..j][..|fs[i..j]| - 1] == fs[i..j - 1];
    }
  }

  lemma {:induction false} SizesAdd(fs: seq<File>, i: nat, j: nat, k: nat)
    requires i <= j <= k
    ensures SizesBetween(fs, i, k) == SizesBetween(fs, i, j) + SizesBetween(fs, j, k)
  {
    if j < k {
      SizesAdd(fs, i, j, k - 1);
    }
  }

  /** How many of the files, from the first on, end before the key. */
  function EndedBefore(fs: seq<File>, key: InternalKey): (n: nat)
    ensures n <= |fs| && (forall k :: 0 <= k < n ==> Before(fs[k].largest, key))
    ensures n < |fs| ==> !Before(fs[n].largest, key)
  {
    if fs == [] || !Before(fs[0].largest, key) then 0 else
      var n := EndedBefore(fs[1..], key);
      assert forall k :: 0 < k < n + 1 ==> fs[k] == fs[1..][k - 1];
      n + 1
  }

  /** The files that end within the range of `f`, before its last key, have at most `limit` bytes. */
  ghost predicate OverlapsLittle(fs: seq<File>, f: File, limit: nat) {
    SizesBetween(fs, EndedBefore(fs, f.smallest), EndedBefore(fs, f.largest)) <= limit
  }

  /** Compaction: the chosen inputs and the moving state used while compacting. */
  class Compaction {
    const level: nat
    const levels: Levels          // input_version_
    var inputs0: seq<File>
    var inputs1: seq<File>
    var grandparents: seq<File>
    var grandparentIndex: nat
    var seenKey: bool
    var overlappedBytes: nat
    var levelPtrs: seq<nat>

    ghost predicate Valid()
      reads this
    {
      && ValidLevels(levels)
      && level + 1 < NUM_LEVELS
      && |levelPtrs| == NUM_LEVELS
    }

    constructor (level: nat, levels: Levels)
      requires ValidLevels(levels) && level + 1 < NUM_LEVELS
      ensures Valid() && this.level == level && this.levels == levels
      ensures inputs0 == inputs1 == grandparents == []
      ensures levelPtrs == seq(NUM_LEVELS, _ => 0)
      ensures grandparentIndex == overlappedBytes == 0 && !seenKey
    {
      this.level, this.levels := level, levels;
      inputs0, inputs1, grandparents := [], [], [];
      grandparentIndex, seenKey, overlappedBytes := 0, false, 0;
      levelPtrs := seq(NUM_LEVELS, _ => 0);
    }

    /**
     VersionSet::SetupOtherInputs.  Extends inputs_[0] by boundary files, takes the files of the next
     level that meet its range, and grows inputs_[0] when that does not grow inputs_[1].
     Returns the new compact_pointer_ for the level.
     */
    method SetupOtherInputs(expandedLimit: nat)
      returns (pointer: InternalKey, ghost base0: seq<File>, ghost base1: seq<File>, ghost wider: seq<File>)
      requires Valid()
      requires UniqueKeys(Contents(levels[level]))
      requires StartingInputs(level, levels[level], inputs0)
      modifies this`inputs0, this`inputs1, this`grandparents
      ensures Chosen(levels[level], levels[level + 1], inputs0, inputs1)
      ensures CompletedBy(levels, level, old(inputs0), expandedLimit, inputs0, inputs1, base0, base1, wider)
      ensures if level + 2 < NUM_LEVELS
              then OverlappingHull(level + 2, levels[level + 2], inputs0 + inputs1, grandparents)
              else grandparents == old(grandparents)
      ensures LargestOf(inputs0, pointer)
    {
      hide ValidFile, ValidFiles, ValidLevels, BoundaryChain, NoOlderLeft, Chosen, MeetingUpTo, OverlapClosed,
           LargestOf, SmallestOf, HullOf, Distinct, Extended, OverlappingHull, Suggested, Widens, MeetingHull,
           UniqueKeys, Contents, LeastClosed;
      LevelsAreValid();
      var upper, lower := levels[level], levels[level + 1];
      ghost var added: seq<File>;
      ghost var start := inputs0;
      inputs0, added := AddBoundaryInputs(upper, inputs0);
      ExtendedIsClean(start, added);
      var smallest, largest := GetRange(inputs0);
      inputs1 := GetOverlappingInputs(level + 1, lower, Some(smallest), Some(largest));
      HullIsChosen(inputs0, inputs1, smallest.user, largest.user);
      base0, base1, wider := inputs0, inputs1, [];
      if inputs1 != [] {
        largest, wider := Widen(largest, expandedLimit);
      }
      if level + 2 < NUM_LEVELS {
        ChosenIsNotEmpty(levels[level], lower, inputs0, inputs1);
        var allStart, allLimit := GetRange(inputs0 + inputs1);
        grandparents := GetOverlappingInputs(level + 2, levels[level + 2], Some(allStart), Some(allLimit));
        OverlapIsHull(level + 2, levels[level + 2], inputs0 + inputs1, allStart, allLimit, grandparents);
      }
      ChosenMeets(levels[level], lower, inputs0, inputs1);
      pointer := largest;
    }

    /** The part of SetupOtherInputs that grows inputs_[0] if that does not grow inputs_[1]. */
    method Widen(largest: InternalKey, expandedLimit: nat) returns (r: InternalKey, ghost wider: seq<File>)
      requires Valid()
      requires UniqueKeys(Contents(levels[level]))
      requires inputs1 != [] && LargestOf(inputs0, largest)
      requires Chosen(levels[level], levels[level + 1], inputs0, inputs1)
      modifies this`inputs0, this`inputs1
      ensures Chosen(levels[level], levels[level + 1], inputs0, inputs1) && LargestOf(inputs0, r)
      ensures Suggested(level, levels[level], old(inputs0), old(inputs1), wider)
      ensures if Widens(levels[level + 1], old(inputs0), old(inputs1), wider, expandedLimit)
              then inputs0 == wider else inputs0 == old(inputs0) && inputs1 == old(inputs1)
    {
      hide ValidFile, ValidFiles, ValidLevels, BoundaryChain, NoOlderLeft, MeetingUpTo, OverlapClosed, LargestOf,
           SmallestOf, HullOf, Distinct, Extended, OverlappingHull, Suggested, Widens, MeetingHull, UniqueKeys,
           Contents, StartingInputs, LeastClosed;
      LevelsAreValid();
      r := largest;
      var upper, lower := levels[level], levels[level + 1];
      ghost var base0, base1 := inputs0, inputs1;
      var allStart, allLimit := GetRange(inputs0 + inputs1);
      var overlapping := GetOverlappingInputs(level, upper, Some(allStart), Some(allLimit));
      if level == 0 {
        IsLeastClosed(upper, Some(allStart.user), Some(allLimit.user), overlapping);
      }
      OverlapIsHull(level, upper, base0 + base1, allStart, allLimit, overlapping);
      OverlapIsNotEmpty(base0, base1, allStart, allLimit, overlapping);
      var expanded0, added := AddBoundaryInputs(upper, overlapping);
      WiderIsSuggested(base0, base1, overlapping, added);
      wider := expanded0;
      if |expanded0| > |inputs0| && TotalFileSize(inputs1) + TotalFileSize(expanded0) < expandedLimit {
        OverlapIsDistinct(overlapping);
        OverlapIsStarting(Some(allStart), Some(allLimit), overlapping);
        ExtendedIsClean(overlapping, added);
        var newStart, newLimit := GetRange(expanded0);
        var expanded1 := GetOverlappingInputs(level + 1, lower, Some(newStart), Some(newLimit));
        HullIsChosen(expanded0, expanded1, newStart.user, newLimit.user);
        DecidesToWiden(lower, base0, base1, expanded0, expandedLimit, expanded1);
        if |expanded1| == |inputs1| {
          r := newLimit;
          inputs0, inputs1 := expanded0, expanded1;
        }
      } else {
        NotWidened(lower, base0, base1, expanded0, expandedLimit);
      }
    }

    // ---- while compacting ----------------------------------------------------------------------

    /** level_ptrs_ has only passed files that end before `user`. */
    ghost predicate PtrsBehind(user: UserKey)
      requires Valid()
      reads this
    {
      forall l :: level + 2 <= l < NUM_LEVELS ==>
        && levelPtrs[l] <= |levels[l]|
        && forall k :: 0 <= k < levelPtrs[l] ==> levels[l][k].largest.user < user
    }

    /**
     IsBaseLevelForKey: called with ascending user keys, it walks each deeper level once, yet answers
     the stateless question whether any deeper file covers the key.
     */
    method IsBaseLevelForKey(user: UserKey) returns (r: bool)
      requires Valid() && PtrsBehind(user)
      modifies this`levelPtrs
      ensures Valid() && PtrsBehind(user)
      ensures r == IsBase(levels, level, user)
    {
      hide ValidLevels, SortedLevel;
      LevelsAreSorted();
      for l := level + 2 to NUM_LEVELS
        invariant Valid() && PtrsBehind(user)
        invariant forall m :: level + 2 <= m < l ==> NoneCovers(levels[m], user)
      {
        var fs := levels[l];
        while levelPtrs[l] < |fs|
          invariant Valid() && PtrsBehind(user)
          decreases |fs| - levelPtrs[l]
        {
          var f := fs[levelPtrs[l]];
          if user <= f.largest.user {
            if f.smallest.user <= user {
              assert Covers(f, user);
              return false;
            }
            break;
          }
          levelPtrs := levelPtrs[l := levelPtrs[l] + 1];
        }
        PassedCoversNone(fs, levelPtrs[l], user);
      }
      r := true;
    }

    lemma LevelsAreSorted()
      requires Valid()
      ensures |levels| == NUM_LEVELS && forall l :: level + 2 <= l < NUM_LEVELS ==> SortedLevel(levels[l])
    {
      forall l | level + 2 <= l < NUM_LEVELS
        ensures SortedLevel(levels[l])
      {
        OrderedApartIsSorted(levels[l]);
      }
    }

    /** The files passed end before the key, and the next one starts after it. */
    static lemma PassedCoversNone(fs: seq<File>, ptr: nat, user: UserKey)
      requires SortedLevel(fs) && ptr <= |fs|
      requires forall k :: 0 <= k < ptr ==> fs[k].largest.user < user
      requires ptr < |fs| ==> user < fs[ptr].smallest.user
      ensures NoneCovers(fs, user)
    {
      SortedLevelRanges(fs);
      forall k | ptr < k < |fs|
        ensures !Covers(fs[k], user)
      {
        assert Before(fs[ptr].largest, fs[k].smallest);
      }
    }

    /**
     ShouldStopBefore: passes the grandparent files that end before the key; once the files passed since the
     output began (and after the first key of all) have too many bytes, the output is to be closed.
     */
    method ShouldStopBefore(key: InternalKey, maxOverlap: nat) returns (r: bool)
      requires Valid()
      modifies this`grandparentIndex, this`seenKey, this`overlappedBytes
      ensures seenKey
      ensures old(grandparentIndex) <= grandparentIndex
      ensures grandparentIndex < |grandparents| ==> !Before(grandparents[grandparentIndex].largest, key)
      ensures grandparentIndex == old(grandparentIndex) || grandparentIndex <= |grandparents|
      ensures forall k :: old(grandparentIndex) <= k < grandparentIndex && k < |grandparents| ==>
                Before(grandparents[k].largest, key)
      ensures var bytes := old(overlappedBytes)
                + (if old(seenKey) then SizesBetween(grandparents, old(grandparentIndex), grandparentIndex) else 0);
              (r <==> bytes > maxOverlap) && overlappedBytes == if r then 0 else bytes
    {
      hide ValidLevels;
      while grandparentIndex < |grandparents| && Before(grandparents[grandparentIndex].largest, key)
        invariant old(grandparentIndex) <= grandparentIndex
        invariant grandparentIndex == old(grandparentIndex) || grandparentIndex <= |grandparents|
        invariant forall k :: old(grandparentIndex) <= k < grandparentIndex && k < |grandparents| ==>
                    Before(grandparents[k].largest, key)
        invariant seenKey == old(seenKey)
        invariant overlappedBytes == old(overlappedBytes)
                    + (if seenKey then SizesBetween(grandparents, old(grandparentIndex), grandparentIndex) else 0)
      {
        if seenKey {
          overlappedBytes := overlappedBytes + grandparents[grandparentIndex].size;
        }
        grandparentIndex := grandparentIndex + 1;
      }
      seenKey := true;
      r := overlappedBytes > maxOverlap;
      if r {
        overlappedBytes := 0;
      }
    }

    // ---- proof steps of SetupOtherInputs ----------------------------------------------------------

    lemma HullIsChosen(in0: seq<File>, in1: seq<File>, lo: UserKey, hi: UserKey)
      requires Valid() && in0 != [] && Distinct(in0)
      requires NoOlderLeft(levels[level], in0) && forall f :: f in in0 ==> f in levels[level]
      requires HullOf(in0, lo, hi) && in1 == Meeting(levels[level + 1], Some(lo), Some(hi))
      ensures Chosen(levels[level], levels[level + 1], in0, in1) && MeetingHull(levels[level + 1], in0, in1)
    {
    }

    lemma LevelsAreValid()
      requires Valid()
      ensures |levels| == NUM_LEVELS && forall l :: 0 <= l < NUM_LEVELS ==> ValidFiles(levels[l])
    {
    }

    static lemma OverlapIsHull(l: nat, fs: seq<File>, files: seq<File>, b: InternalKey, e: InternalKey, r: seq<File>)
      requires HullOf(files, b.user, e.user)
      requires l > 0 ==> r == Meeting(fs, Some(b.user), Some(e.user))
      requires l == 0 ==> LeastClosed(fs, Some(b.user), Some(e.user), r)
      ensures OverlappingHull(l, fs, files, r)
    {
    }

    /** The files that suggest the wider inputs are among them. */
    lemma OverlapIsNotEmpty(base0: seq<File>, base1: seq<File>, b: InternalKey, e: InternalKey, r: seq<File>)
      requires Valid() && base0 != [] && forall f :: f in base0 ==> f in levels[level]
      requires HullOf(base0 + base1, b.user, e.user)
      requires level > 0 ==> r == Meeting(levels[level], Some(b.user), Some(e.user))
      requires level == 0 ==> OverlapClosed(levels[level], Some(b.user), Some(e.user), FileSet(r))
      ensures r != []
    {
      var f := base0[0];
      assert f in base0 && f in base0 + base1;
      FileBounds(f);
      assert RangeMeets(f, Some(b.user), Some(e.user));
      MeetingMembers(levels[level], Some(b.user), Some(e.user));
      assert f in FileSet(r) <==> f in r;
    }

    lemma WiderIsSuggested(base0: seq<File>, base1: seq<File>, start: seq<File>, added: seq<File>)
      requires level < |levels| && OverlappingHull(level, levels[level], base0 + base1, start)
      requires exists key :: LargestOf(start, key) && BoundaryChain(levels[level], key, added)
      ensures Suggested(level, levels[level], base0, base1, start + added)
    {
      hide OverlappingHull, LargestOf, BoundaryChain;
      assert Extended(levels[level], start, start + added);
    }

    static lemma NotWidened(lower: seq<File>, base0: seq<File>, base1: seq<File>, wider: seq<File>, limit: nat)
      requires |wider| <= |base0| || TotalFileSize(base1) + TotalFileSize(wider) >= limit
      ensures !Widens(lower, base0, base1, wider, limit)
    {
    }

    lemma ExtendedIsClean(start: seq<File>, added: seq<File>)
      requires Valid() && UniqueKeys(Contents(levels[level]))
      requires StartingInputs(level, levels[level], start)
      requires exists key :: LargestOf(start, key) && BoundaryChain(levels[level], key, added)
      ensures NoOlderLeft(levels[level], start + added) && Distinct(start + added)
      ensures forall f :: f in start + added ==> f in levels[level]
      ensures Extended(levels[level], start, start + added)
    {
      if level > 0 { OrderedApartIsSorted(levels[level]); }
      LevelIsDistinct(levels[level]);
      var key :| LargestOf(start, key) && BoundaryChain(levels[level], key, added);
      BoundaryInputsLeaveNoOlder(level, levels[level], start, added, key);
    }

    lemma OverlapIsDistinct(inputs: seq<File>)
      requires Valid() && exists b, e :: inputs == Meeting(levels[level], b, e)
      ensures Distinct(inputs)
    {
      var b, e :| inputs == Meeting(levels[level], b, e);
      LevelIsDistinct(levels[level]);
      MeetingIsDistinct(levels[level], |levels[level]|, b, e);
    }

    lemma OverlapIsStarting(begin: Option<InternalKey>, end: Option<InternalKey>, inputs: seq<File>)
      requires Valid()
      requires inputs != [] && Distinct(inputs) && forall f :: f in inputs ==> f in levels[level]
      requires level > 0 ==> inputs == Meeting(levels[level], UserOf(begin), UserOf(end))
      requires level == 0 ==> OverlapClosed(levels[level], UserOf(begin), UserOf(end), FileSet(inputs))
      ensures StartingInputs(level, levels[level], inputs)
    {
      if level > 0 { OrderedApartIsSorted(levels[level]); }
      OverlappingAreStarting(level, levels[level], begin, end, inputs);
    }
  }
}
