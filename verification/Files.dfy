/**
 Table files and the searches over a level's file list (db/version_set.cc).
 */
module Files {
  import opened Options
  import opened Keys

  /** kNumLevels and kMaxMemCompactLevel (db/dbformat.h). */
  const NUM_LEVELS: nat := 7
  const MAX_MEM_COMPACT_LEVEL: nat := 2

  /** FileMetaData together with the table's contents. */
  datatype File = File(number: nat, size: nat, smallest: InternalKey, largest: InternalKey,
                       entries: seq<Entry>)

  ghost predicate ValidFile(f: File) {
    && f.entries != []
    && Sorted(f.entries)
    && f.smallest == f.entries[0].key
    && f.largest == f.entries[|f.entries| - 1].key
    && forall e <- f.entries :: e.key.sequence < MAX_SEQUENCE
  }

  ghost predicate ValidFiles(fs: seq<File>) {
    forall f <- fs :: ValidFile(f)
  }

  /** Levels above 0: files sorted and disjoint by internal key. */
  ghost predicate SortedLevel(fs: seq<File>) {
    && ValidFiles(fs)
    && forall i, j :: 0 <= i < j < |fs| ==> Before(fs[i].largest, fs[j].smallest)
  }

  lemma FileBounds(f: File)
    requires ValidFile(f)
    ensures !Before(f.largest, f.smallest)
    ensures f.smallest.user <= f.largest.user
    ensures forall e <- f.entries :: !Before(e.key, f.smallest) && !Before(f.largest, e.key)
    ensures forall e <- f.entries :: f.smallest.user <= e.key.user <= f.largest.user
  {
    var n := |f.entries|;
    assert f.smallest == f.entries[0].key && f.largest == f.entries[n - 1].key;
    forall e | e in f.entries
      ensures !Before(e.key, f.smallest) && !Before(f.largest, e.key)
    {
      var i :| 0 <= i < n && f.entries[i] == e;
    }
  }

  ghost function FileSet(fs: seq<File>): set<File> {
    set f | f in fs
  }

  ghost function Contents(fs: seq<File>): set<Entry> {
    set f, e | f in fs && e in f.entries :: e
  }

  // ---- ranges ------------------------------------------------------------------------------

  /** Neither AfterFile nor BeforeFile: the user-key range [begin, end] meets the file. */
  predicate RangeMeets(f: File, begin: Option<UserKey>, end: Option<UserKey>) {
    && (begin.Some? ==> begin.value <= f.largest.user)
    && (end.Some? ==> f.smallest.user <= end.value)
  }

  predicate FilesMeet(f: File, g: File) {
    RangeMeets(f, Some(g.smallest.user), Some(g.largest.user))
  }

  function UserOf(k: Option<InternalKey>): Option<UserKey> {
    if k.Some? then Some(k.value.user) else None
  }

  /** The files among the first `n` that meet a range, in order. */
  function MeetingUpTo(fs: seq<File>, n: nat, begin: Option<UserKey>, end: Option<UserKey>): seq<File>
    requires n <= |fs|
  {
    if n == 0 then [] else
      MeetingUpTo(fs, n - 1, begin, end) + if RangeMeets(fs[n - 1], begin, end) then [fs[n - 1]] else []
  }

  function Meeting(fs: seq<File>, begin: Option<UserKey>, end: Option<UserKey>): seq<File> {
    MeetingUpTo(fs, |fs|, begin, end)
  }

  lemma {:induction false} MeetingUpToMembers(fs: seq<File>, n: nat, begin: Option<UserKey>, end: Option<UserKey>)
    requires n <= |fs|
    ensures forall f :: f in MeetingUpTo(fs, n, begin, end) <==> f in fs[..n] && RangeMeets(f, begin, end)
  {
    if n > 0 {
      MeetingUpToMembers(fs, n - 1, begin, end);
      assert fs[..n] == fs[..n - 1] + [fs[n - 1]];
    }
  }

  lemma MeetingMembers(fs: seq<File>, begin: Option<UserKey>, end: Option<UserKey>)
    ensures forall f :: f in Meeting(fs, begin, end) <==> f in fs && RangeMeets(f, begin, end)
  {
    MeetingUpToMembers(fs, |fs|, begin, end);
    assert fs[..|fs|] == fs;
  }

  /** FindFile: the first file whose largest key is at or after `key`, by binary search. */
  method FindFile(fs: seq<File>, key: InternalKey) returns (r: nat)
    requires SortedLevel(fs)
    ensures r <= |fs|
    ensures forall i :: 0 <= i < r ==> Before(fs[i].largest, key)
    ensures forall i :: r <= i < |fs| ==> !Before(fs[i].largest, key)
  {
    forall f | f in fs { FileBounds(f); }
    var left, right := 0, |fs|;
    while left < right
      invariant 0 <= left <= right <= |fs|
      invariant forall i :: 0 <= i < left ==> Before(fs[i].largest, key)
      invariant forall i :: right <= i < |fs| ==> !Before(fs[i].largest, key)
    {
      var mid := (left + right) / 2;
      if Before(fs[mid].largest, key) {
        assert forall i :: 0 <= i < mid ==> Before(fs[i].largest, fs[mid].smallest);
        left := mid + 1;
      } else {
        assert forall i :: mid < i < |fs| ==> Before(fs[mid].largest, fs[i].smallest);
        right := mid;
      }
    }
    r := right;
  }

  /** SomeFileOverlapsRange, both for disjoint sorted levels and for level 0. */
  method SomeFileOverlapsRange(disjoint: bool, fs: seq<File>,
                               smallest: Option<UserKey>, largest: Option<UserKey>)
    returns (r: bool)
    requires ValidFiles(fs)
    requires disjoint ==> SortedLevel(fs)
    ensures r <==> exists f :: f in fs && RangeMeets(f, smallest, largest)
  {
    if !disjoint {
      for i := 0 to |fs|
        invariant forall j :: 0 <= j < i ==> !RangeMeets(fs[j], smallest, largest)
      {
        if RangeMeets(fs[i], smallest, largest) {
          return true;
        }
      }
      return false;
    }
    var index := 0;
    if smallest.Some? {
      index := FindFile(fs, SeekKey(smallest.value, MAX_SEQUENCE));
    }
    forall f | f in fs { FileBounds(f); }
    forall j | 0 <= j < index
      ensures !RangeMeets(fs[j], smallest, largest)
    {
      assert ValidFile(fs[j]) && fs[j].entries[|fs[j].entries| - 1] in fs[j].entries;
      assert Before(fs[j].largest, SeekKey(smallest.value, MAX_SEQUENCE));
    }
    if index >= |fs| {
      return false;
    }
    r := largest.None? || fs[index].smallest.user <= largest.value;
    if r {
      assert RangeMeets(fs[index], smallest, largest);
    } else {
      forall j | index <= j < |fs|
        ensures !RangeMeets(fs[j], smallest, largest)
      {
        assert index < j ==> Before(fs[index].largest, fs[j].smallest);
      }
    }
  }

  // ---- GetOverlappingInputs ----------------------------------------------------------------

  /** `chosen` has every file meeting the range, and every file meeting a chosen one. */
  ghost predicate OverlapClosed(fs: seq<File>, begin: Option<UserKey>, end: Option<UserKey>,
                                chosen: set<File>) {
    forall f :: f in fs && (RangeMeets(f, begin, end) || exists g :: g in chosen && FilesMeet(f, g))
                ==> f in chosen
  }

  /** Widening the range to a file that meets it brings in only files a closed set already has. */
  lemma WidenedRange(fs: seq<File>, begin: Option<UserKey>, end: Option<UserKey>,
                     ub: Option<UserKey>, ue: Option<UserKey>, f: File, chosen: set<File>)
    requires ValidFiles(fs) && f in fs && RangeMeets(f, ub, ue)
    requires OverlapClosed(fs, begin, end, chosen)
    requires forall g :: g in fs && RangeMeets(g, ub, ue) ==> g in chosen
    ensures ub.Some? && f.smallest.user < ub.value ==>
              forall g :: g in fs && RangeMeets(g, Some(f.smallest.user), ue) ==> g in chosen
    ensures ue.Some? && f.largest.user > ue.value ==>
              forall g :: g in fs && RangeMeets(g, ub, Some(f.largest.user)) ==> g in chosen
  {
    forall g | g in fs { FileBounds(g); }
    forall g | g in fs && ub.Some? && RangeMeets(g, Some(f.smallest.user), ue)
      ensures f.smallest.user < ub.value ==> g in chosen
    {
      if f.smallest.user < ub.value && !RangeMeets(g, ub, ue) {
        assert FilesMeet(g, f);
      }
    }
    forall g | g in fs && ue.Some? && RangeMeets(g, ub, Some(f.largest.user))
      ensures f.largest.user > ue.value ==> g in chosen
    {
      if f.largest.user > ue.value && !RangeMeets(g, ub, ue) {
        assert FilesMeet(g, f);
      }
    }
  }

  /** How many files start before `begin` or end after `end`: what a restart uses up. */
  ghost function Outside(fs: seq<File>, begin: Option<UserKey>, end: Option<UserKey>): nat {
    if fs == [] then 0 else
      Outside(fs[1..], begin, end)
      + (if begin.Some? && fs[0].smallest.user < begin.value then 1 else 0)
      + (if end.Some? && fs[0].largest.user > end.value then 1 else 0)
  }

  lemma {:induction false} OutsideShrinks(fs: seq<File>, begin: Option<UserKey>, end: Option<UserKey>,
                       begin': Option<UserKey>, end': Option<UserKey>)
    requires begin.Some? == begin'.Some? && end.Some? == end'.Some?
    requires begin.Some? ==> begin'.value <= begin.value
    requires end.Some? ==> end.value <= end'.value
    ensures Outside(fs, begin', end') <= Outside(fs, begin, end)
    ensures (exists f :: f in fs && ((begin.Some? && begin'.value <= f.smallest.user < begin.value)
                                  || (end.Some? && end.value < f.largest.user <= end'.value)))
            ==> Outside(fs, begin', end') < Outside(fs, begin, end)
  {
    if fs != [] {
      OutsideShrinks(fs[1..], begin, end, begin', end');
    }
  }

  /** Every closed set for the first range has the files that meet the second. */
  ghost predicate OnlyNeeded(fs: seq<File>, begin: Option<UserKey>, end: Option<UserKey>,
                             ub: Option<UserKey>, ue: Option<UserKey>) {
    forall chosen: set<File> :: OverlapClosed(fs, begin, end, chosen) ==>
      forall f :: f in fs && RangeMeets(f, ub, ue) ==> f in chosen
  }

  lemma NeededAtFirst(fs: seq<File>, begin: Option<UserKey>, end: Option<UserKey>)
    ensures OnlyNeeded(fs, begin, end, begin, end)
  {
  }

  lemma NeededWidens(fs: seq<File>, begin: Option<UserKey>, end: Option<UserKey>,
                     ub: Option<UserKey>, ue: Option<UserKey>, f: File)
    requires ValidFiles(fs) && f in fs && RangeMeets(f, ub, ue) && OnlyNeeded(fs, begin, end, ub, ue)
    ensures ub.Some? && f.smallest.user < ub.value ==> OnlyNeeded(fs, begin, end, Some(f.smallest.user), ue)
    ensures ue.Some? && f.largest.user > ue.value ==> OnlyNeeded(fs, begin, end, ub, Some(f.largest.user))
  {
    forall chosen: set<File> | OverlapClosed(fs, begin, end, chosen)
      ensures ub.Some? && f.smallest.user < ub.value ==>
                forall g :: g in fs && RangeMeets(g, Some(f.smallest.user), ue) ==> g in chosen
      ensures ue.Some? && f.largest.user > ue.value ==>
                forall g :: g in fs && RangeMeets(g, ub, Some(f.largest.user)) ==> g in chosen
    {
      WidenedRange(fs, begin, end, ub, ue, f, chosen);
    }
  }

  /** Files that meet a range which holds them all are overlap-closed, and the least such set if no more is needed. */
  lemma MeetingIsLeast(fs: seq<File>, begin: Option<UserKey>, end: Option<UserKey>,
                       ub: Option<UserKey>, ue: Option<UserKey>)
    requires OnlyNeeded(fs, begin, end, ub, ue) && ub.Some? == begin.Some? && ue.Some? == end.Some?
    requires (ub.Some? ==> ub.value <= begin.value) && (ue.Some? ==> end.value <= ue.value)
    requires forall g <- Meeting(fs, ub, ue) ::
      (ub.Some? ==> ub.value <= g.smallest.user) && (ue.Some? ==> g.largest.user <= ue.value)
    ensures OverlapClosed(fs, begin, end, FileSet(Meeting(fs, ub, ue)))
    ensures forall chosen: set<File> :: OverlapClosed(fs, begin, end, chosen) ==>
      forall f :: f in Meeting(fs, ub, ue) ==> f in chosen
  {
    hide Meeting;
    MeetingMembers(fs, ub, ue);
  }

  /**
   Version::GetOverlappingInputs: above level 0 exactly the files meeting [begin, end]; at level 0
   the range grows with every chosen file and the scan restarts, giving the least overlap-closed set.
   */
  method GetOverlappingInputs(level: nat, fs: seq<File>,
                              begin: Option<InternalKey>, end: Option<InternalKey>)
    returns (inputs: seq<File>)
    requires ValidFiles(fs)
    ensures forall f :: f in inputs ==> f in fs
    ensures level > 0 ==> inputs == Meeting(fs, UserOf(begin), UserOf(end))
    ensures level == 0 ==> OverlapClosed(fs, UserOf(begin), UserOf(end), FileSet(inputs))
    ensures level == 0 ==>
      forall chosen: set<File> :: OverlapClosed(fs, UserOf(begin), UserOf(end), chosen) ==>
        forall f :: f in inputs ==> f in chosen
    ensures exists b, e :: inputs == Meeting(fs, b, e)
  {
    hide OnlyNeeded, OverlapClosed, Outside, ValidFile;
    var ub, ue := UserOf(begin), UserOf(end);
    NeededAtFirst(fs, ub, ue);
    inputs := [];
    var i := 0;
    while i < |fs|
      invariant 0 <= i <= |fs|
      invariant ub.Some? == begin.Some? && ue.Some? == end.Some?
      invariant level > 0 ==> ub == UserOf(begin) && ue == UserOf(end)
      invariant ub.Some? ==> ub.value <= begin.value.user
      invariant ue.Some? ==> end.value.user <= ue.value
      invariant inputs == MeetingUpTo(fs, i, ub, ue)
      invariant level == 0 ==> forall g <- inputs ::
        (ub.Some? ==> ub.value <= g.smallest.user) && (ue.Some? ==> g.largest.user <= ue.value)
      invariant OnlyNeeded(fs, UserOf(begin), UserOf(end), ub, ue)
      decreases Outside(fs, ub, ue), |fs| - i
    {
      var f := fs[i];
      i := i + 1;
      if RangeMeets(f, ub, ue) {
        inputs := inputs + [f];
        if level == 0 {
          NeededWidens(fs, UserOf(begin), UserOf(end), ub, ue, f);
          if begin.Some? && f.smallest.user < ub.value {
            OutsideShrinks(fs, ub, ue, Some(f.smallest.user), ue);
            ub := Some(f.smallest.user);
            inputs := [];
            i := 0;
          } else if end.Some? && f.largest.user > ue.value {
            OutsideShrinks(fs, ub, ue, ub, Some(f.largest.user));
            ue := Some(f.largest.user);
            inputs := [];
            i := 0;
          }
        }
      }
    }
    MeetingMembers(fs, ub, ue);
    if level == 0 {
      MeetingIsLeast(fs, UserOf(begin), UserOf(end), ub, ue);
    }
  }
}
