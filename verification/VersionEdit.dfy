/**
 Version edits as manifest records (db/version_edit.cc): EncodeTo writes tagged fields, DecodeFrom
 reads them back.  Internal keys are byte strings here.
 */
module VersionEdit {
  import opened Options
  import opened Coding

  const NUM_LEVELS: nat := 7

  const COMPARATOR := 1
  const LOG_NUMBER := 2
  const NEXT_FILE_NUMBER := 3
  const LAST_SEQUENCE := 4
  const COMPACT_POINTER := 5
  const DELETED_FILE := 6
  const NEW_FILE := 7
  const PREV_LOG_NUMBER := 9

  datatype FileMeta = FileMeta(number: nat, size: nat, smallest: Bytes, largest: Bytes)

  /** One tagged field of the record. */
  datatype Field =
    | Comparator(name: Bytes)
    | LogNumber(number: nat)
    | PrevLogNumber(number: nat)
    | NextFileNumber(number: nat)
    | LastSequence(number: nat)
    | CompactPointer(level: nat, key: Bytes)
    | DeletedFile(level: nat, file: nat)
    | NewFile(level: nat, meta: FileMeta)

  /** An edit.  The set of deleted files is kept as std::set keeps it, in ascending order. */
  datatype Edit = Edit(
    comparator: Option<Bytes>, logNumber: Option<nat>, prevLogNumber: Option<nat>,
    nextFileNumber: Option<nat>, lastSequence: Option<nat>,
    compactPointers: seq<(nat, Bytes)>, deletedFiles: seq<(nat, nat)>, newFiles: seq<(nat, FileMeta)>)

  const FRESH := Edit(None, None, None, None, None, [], [], [])

  predicate PairBefore(a: (nat, nat), b: (nat, nat)) {
    a.0 < b.0 || (a.0 == b.0 && a.1 < b.1)
  }

  predicate AscendingPairs(s: seq<(nat, nat)>) {
    forall i, j :: 0 <= i < j < |s| ==> PairBefore(s[i], s[j])
  }

  /** std::set::insert. */
  function Insert(s: seq<(nat, nat)>, x: (nat, nat)): seq<(nat, nat)> {
    if s == [] || PairBefore(x, s[0]) then [x] + s
    else if x == s[0] then s
    else [s[0]] + Insert(s[1..], x)
  }

  lemma {:induction false} InsertIsSetInsert(s: seq<(nat, nat)>, x: (nat, nat))
    requires AscendingPairs(s)
    ensures AscendingPairs(Insert(s, x))
    ensures forall y :: y in Insert(s, x) <==> y in s || y == x
  {
    if s == [] || PairBefore(x, s[0]) || x == s[0] {
    } else {
      InsertIsSetInsert(s[1..], x);
      var rest := Insert(s[1..], x);
      assert s == [s[0]] + s[1..];
      forall y | y in rest
        ensures PairBefore(s[0], y)
      {
        assert y in s[1..] || y == x;
      }
    }
  }

  lemma {:induction false} InsertAtEnd(s: seq<(nat, nat)>, x: (nat, nat))
    requires forall i :: 0 <= i < |s| ==> PairBefore(s[i], x)
    ensures Insert(s, x) == s + [x]
  {
    if s != [] {
      InsertAtEnd(s[1..], x);
      assert s == [s[0]] + s[1..];
    }
  }

  // ---- encoding ------------------------------------------------------------------------------------------

  function EncodedMeta(m: FileMeta): Bytes {
    Varint(m.number) + Varint(m.size) + LengthPrefixed(m.smallest) + LengthPrefixed(m.largest)
  }

  function Encoded(f: Field): Bytes {
    match f
    case Comparator(name) => Varint(COMPARATOR) + LengthPrefixed(name)
    case LogNumber(n) => Varint(LOG_NUMBER) + Varint(n)
    case PrevLogNumber(n) => Varint(PREV_LOG_NUMBER) + Varint(n)
    case NextFileNumber(n) => Varint(NEXT_FILE_NUMBER) + Varint(n)
    case LastSequence(n) => Varint(LAST_SEQUENCE) + Varint(n)
    case CompactPointer(level, key) => Varint(COMPACT_POINTER) + (Varint(level) + LengthPrefixed(key))
    case DeletedFile(level, file) => Varint(DELETED_FILE) + (Varint(level) + Varint(file))
    case NewFile(level, m) => Varint(NEW_FILE) + (Varint(level) + EncodedMeta(m))
  }

  function EncodedAll(fs: seq<Field>): Bytes {
    if fs == [] then [] else EncodedAll(fs[..|fs| - 1]) + Encoded(fs[|fs| - 1])
  }

  /** The optional fields in the order in which EncodeTo writes them. */
  function OptionalField(e: Edit, k: nat): Option<Field> {
    if k == 0 then (if e.comparator.Some? then Some(Comparator(e.comparator.value)) else None)
    else if k == 1 then (if e.logNumber.Some? then Some(LogNumber(e.logNumber.value)) else None)
    else if k == 2 then (if e.prevLogNumber.Some? then Some(PrevLogNumber(e.prevLogNumber.value)) else None)
    else if k == 3 then (if e.nextFileNumber.Some? then Some(NextFileNumber(e.nextFileNumber.value)) else None)
    else if k == 4 then (if e.lastSequence.Some? then Some(LastSequence(e.lastSequence.value)) else None)
    else None
  }

  function Listed(o: Option<Field>): seq<Field> {
    if o.Some? then [o.value] else []
  }

  /** The first `k` optional fields, those of them that are there. */
  function Header(e: Edit, k: nat): seq<Field> {
    if k == 0 then [] else Header(e, k - 1) + Listed(OptionalField(e, k - 1))
  }

  /** The fields of an edit in the order in which EncodeTo writes them. */
  function Fields(e: Edit): seq<Field> {
    Header(e, 5)
    + Pointers(e.compactPointers, |e.compactPointers|)
    + Deletions(e.deletedFiles, |e.deletedFiles|)
    + Additions(e.newFiles, |e.newFiles|)
  }

  function Pointers(ps: seq<(nat, Bytes)>, n: nat): seq<Field>
    requires n <= |ps|
  {
    seq(n, i requires 0 <= i < n => CompactPointer(ps[i].0, ps[i].1))
  }

  function Deletions(ds: seq<(nat, nat)>, n: nat): seq<Field>
    requires n <= |ds|
  {
    seq(n, i requires 0 <= i < n => DeletedFile(ds[i].0, ds[i].1))
  }

  function Additions(fs: seq<(nat, FileMeta)>, n: nat): seq<Field>
    requires n <= |fs|
  {
    seq(n, i requires 0 <= i < n => NewFile(fs[i].0, fs[i].1))
  }

  lemma EncodedMore(fs: seq<Field>, f: Field)
    ensures EncodedAll(fs + [f]) == EncodedAll(fs) + Encoded(f)
  {
    assert (fs + [f])[..|fs|] == fs;
  }

  // ---- decoding ------------------------------------------------------------------------------------------

  function GetLevel(src: Bytes, p: nat): (r: Parsed<nat>)
    requires p <= |src|
    ensures r.Good? ==> p < r.next <= |src|
  {
    var v := GetVarint32(src, p);
    if v.Good? && v.value < NUM_LEVELS then v else Bad
  }

  function GetMeta(src: Bytes, p: nat): (r: Parsed<FileMeta>)
    requires p <= |src|
    ensures r.Good? ==> p < r.next <= |src|
  {
    var number := GetVarint64(src, p);
    if number.Bad? then Bad else
      var size := GetVarint64(src, number.next);
      if size.Bad? then Bad else
        var smallest := GetLengthPrefixedSlice(src, size.next);
        if smallest.Bad? then Bad else
          var largest := GetLengthPrefixedSlice(src, smallest.next);
          if largest.Bad? then Bad
          else Good(FileMeta(number.value, size.value, smallest.value, largest.value), largest.next)
  }

  /** The value of a field after its tag. */
  function GetField(src: Bytes, tag: nat, p: nat): (r: Parsed<Field>)
    requires p <= |src|
    ensures r.Good? ==> p < r.next <= |src|
  {
    if tag == COMPARATOR then
      var s := GetLengthPrefixedSlice(src, p);
      if s.Bad? then Bad else Good(Comparator(s.value), s.next)
    else if tag == LOG_NUMBER || tag == PREV_LOG_NUMBER || tag == NEXT_FILE_NUMBER || tag == LAST_SEQUENCE then
      var n := GetVarint64(src, p);
      if n.Bad? then Bad
      else if tag == LOG_NUMBER then Good(LogNumber(n.value), n.next)
      else if tag == PREV_LOG_NUMBER then Good(PrevLogNumber(n.value), n.next)
      else if tag == NEXT_FILE_NUMBER then Good(NextFileNumber(n.value), n.next)
      else Good(LastSequence(n.value), n.next)
    else if tag == COMPACT_POINTER then
      var level := GetLevel(src, p);
      if level.Bad? then Bad else
        var key := GetLengthPrefixedSlice(src, level.next);
        if key.Bad? then Bad else Good(CompactPointer(level.value, key.value), key.next)
    else if tag == DELETED_FILE then
      var level := GetLevel(src, p);
      if level.Bad? then Bad else
        var n := GetVarint64(src, level.next);
        if n.Bad? then Bad else Good(DeletedFile(level.value, n.value), n.next)
    else if tag == NEW_FILE then
      var level := GetLevel(src, p);
      if level.Bad? then Bad else
        var m := GetMeta(src, level.next);
        if m.Bad? then Bad else Good(NewFile(level.value, m.value), m.next)
    else Bad
  }

  function Applied(e: Edit, f: Field): Edit {
    match f
    case Comparator(name) => e.(comparator := Some(name))
    case LogNumber(n) => e.(logNumber := Some(n))
    case PrevLogNumber(n) => e.(prevLogNumber := Some(n))
    case NextFileNumber(n) => e.(nextFileNumber := Some(n))
    case LastSequence(n) => e.(lastSequence := Some(n))
    case CompactPointer(level, key) => e.(compactPointers := e.compactPointers + [(level, key)])
    case DeletedFile(level, file) => e.(deletedFiles := Insert(e.deletedFiles, (level, file)))
    case NewFile(level, m) => e.(newFiles := e.newFiles + [(level, m)])
  }

  function AppliedAll(e: Edit, fs: seq<Field>): Edit {
    if fs == [] then e else Applied(AppliedAll(e, fs[..|fs| - 1]), fs[|fs| - 1])
  }

  /** What decoding from `p` on makes of an edit, unless the record is corrupt. */
  function Decoded(src: Bytes, p: nat, e: Edit): Option<Edit>
    requires p <= |src|
    decreases |src| - p
  {
    var tag := GetVarint32(src, p);
    if tag.Bad? then (if p == |src| then Some(e) else None) else
      var f := GetField(src, tag.value, tag.next);
      if f.Bad? then None else Decoded(src, f.next, Applied(e, f.value))
  }

  /** Clear, which leaves the compaction pointers. */
  function Cleared(e: Edit): Edit {
    FRESH.(compactPointers := e.compactPointers)
  }

  // ---- reading back what was written ---------------------------------------------------------------------

  const MAX_UINT32: nat := 0xFFFF_FFFF
  const MAX_UINT64: nat := 0xFFFF_FFFF_FFFF_FFFF

  predicate Fits(f: Field) {
    match f
    case Comparator(name) => |name| <= MAX_UINT32
    case CompactPointer(level, key) => level < NUM_LEVELS && |key| <= MAX_UINT32
    case DeletedFile(level, file) => level < NUM_LEVELS && file <= MAX_UINT64
    case NewFile(level, m) =>
      level < NUM_LEVELS && m.number <= MAX_UINT64 && m.size <= MAX_UINT64 && |m.smallest| <= MAX_UINT32
        && |m.largest| <= MAX_UINT32
    case _ => f.number <= MAX_UINT64
  }

  lemma ReadsLevel(src: Bytes, p: nat, level: nat)
    requires At(src, p, Varint(level)) && level < NUM_LEVELS
    ensures GetLevel(src, p) == Good(level, p + |Varint(level)|)
  {
    ReadsVarint(src, p, level, 0x1_0000_0000);
  }

  lemma ReadsMeta(src: Bytes, p: nat, m: FileMeta)
    requires At(src, p, EncodedMeta(m)) && Fits(NewFile(0, m))
    ensures GetMeta(src, p) == Good(m, p + |EncodedMeta(m)|)
  {
    hide At, GetVarint, GetLengthPrefixedSlice, LengthPrefixed, Varint;
    var a, b, c, d := Varint(m.number), Varint(m.size), LengthPrefixed(m.smallest), LengthPrefixed(m.largest);
    AtParts(src, p, a + b + c, d);
    AtParts(src, p, a + b, c);
    AtParts(src, p, a, b);
    ReadsVarint(src, p, m.number, 0x1_0000_0000_0000_0000);
    ReadsVarint(src, p + |a|, m.size, 0x1_0000_0000_0000_0000);
    ReadsSlice(src, p + |a| + |b|, m.smallest);
    ReadsSlice(src, p + |a| + |b| + |c|, m.largest);
  }

  function TagOf(f: Field): nat {
    match f
    case Comparator(_) => COMPARATOR
    case LogNumber(_) => LOG_NUMBER
    case PrevLogNumber(_) => PREV_LOG_NUMBER
    case NextFileNumber(_) => NEXT_FILE_NUMBER
    case LastSequence(_) => LAST_SEQUENCE
    case CompactPointer(_, _) => COMPACT_POINTER
    case DeletedFile(_, _) => DELETED_FILE
    case NewFile(_, _) => NEW_FILE
  }

  /** What follows the tag of a field. */
  function BodyOf(f: Field): Bytes {
    match f
    case Comparator(name) => LengthPrefixed(name)
    case CompactPointer(level, key) => Varint(level) + LengthPrefixed(key)
    case DeletedFile(level, file) => Varint(level) + Varint(file)
    case NewFile(level, m) => Varint(level) + EncodedMeta(m)
    case _ => Varint(f.number)
  }

  lemma ReadsBody(src: Bytes, p: nat, f: Field)
    requires At(src, p, BodyOf(f)) && Fits(f)
    ensures GetField(src, TagOf(f), p) == Good(f, p + |BodyOf(f)|)
  {
    hide At, GetVarint, GetLevel, GetLengthPrefixedSlice, LengthPrefixed, Varint, GetMeta, EncodedMeta;
    match f
    case Comparator(name) => ReadsSlice(src, p, name);
    case CompactPointer(level, key) =>
      AtParts(src, p, Varint(level), LengthPrefixed(key));
      ReadsLevel(src, p, level);
      ReadsSlice(src, p + |Varint(level)|, key);
    case DeletedFile(level, file) =>
      AtParts(src, p, Varint(level), Varint(file));
      ReadsLevel(src, p, level);
      ReadsVarint(src, p + |Varint(level)|, file, 0x1_0000_0000_0000_0000);
    case NewFile(level, m) =>
      AtParts(src, p, Varint(level), EncodedMeta(m));
      ReadsLevel(src, p, level);
      ReadsMeta(src, p + |Varint(level)|, m);
    case _ => ReadsVarint(src, p, f.number, 0x1_0000_0000_0000_0000);
  }

  lemma EncodedIs(f: Field)
    ensures Encoded(f) == Varint(TagOf(f)) + BodyOf(f)
  {
    hide Varint, LengthPrefixed, EncodedMeta;
  }

  /** Decoding a field that was encoded applies it and goes on behind it. */
  lemma DecodesField(src: Bytes, p: nat, f: Field, e: Edit)
    requires At(src, p, Encoded(f)) && Fits(f)
    ensures Decoded(src, p, e) == Decoded(src, p + |Encoded(f)|, Applied(e, f))
  {
    hide At, GetVarint, GetField, Varint, Encoded, BodyOf;
    EncodedIs(f);
    AtParts(src, p, Varint(TagOf(f)), BodyOf(f));
    ReadsVarint(src, p, TagOf(f), 0x1_0000_0000);
    ReadsBody(src, p + |Varint(TagOf(f))|, f);
  }

  lemma {:induction false} PrefixAt(fs: seq<Field>, k: nat)
    requires k < |fs|
    ensures At(EncodedAll(fs), |EncodedAll(fs[..k])|, Encoded(fs[k]))
    ensures |EncodedAll(fs[..k + 1])| == |EncodedAll(fs[..k])| + |Encoded(fs[k])|
    decreases |fs|
  {
    hide Encoded;
    var n := |fs| - 1;
    assert fs[..k + 1][..k] == fs[..k];
    if k < n {
      PrefixAt(fs[..n], k);
      assert fs[..n][..k] == fs[..k] && fs[..n][k] == fs[k];
      var q := |EncodedAll(fs[..k])|;
      assert EncodedAll(fs)[q..q + |Encoded(fs[k])|] == EncodedAll(fs[..n])[q..q + |Encoded(fs[k])|];
    }
  }

  lemma {:induction false} DecodesPrefix(fs: seq<Field>, e: Edit, k: nat)
    requires k <= |fs| && forall i :: 0 <= i < |fs| ==> Fits(fs[i])
    ensures |EncodedAll(fs[..k])| <= |EncodedAll(fs)|
    ensures Decoded(EncodedAll(fs), 0, e) == Decoded(EncodedAll(fs), |EncodedAll(fs[..k])|, AppliedAll(e, fs[..k]))
  {
    hide Encoded, Decoded, Applied, Fits;
    if k > 0 {
      DecodesPrefix(fs, e, k - 1);
      PrefixAt(fs, k - 1);
      DecodesField(EncodedAll(fs), |EncodedAll(fs[..k - 1])|, fs[k - 1], AppliedAll(e, fs[..k - 1]));
      assert fs[..k][..k - 1] == fs[..k - 1];
    }
  }

  lemma DecodesAll(fs: seq<Field>, e: Edit)
    requires forall i :: 0 <= i < |fs| ==> Fits(fs[i])
    ensures Decoded(EncodedAll(fs), 0, e) == Some(AppliedAll(e, fs))
  {
    hide Encoded, Applied, Fits;
    DecodesPrefix(fs, e, |fs|);
    assert fs[..|fs|] == fs;
  }

  // ---- rebuilding the edit -------------------------------------------------------------------------------

  lemma {:induction false} AppliedConcat(e: Edit, a: seq<Field>, b: seq<Field>)
    ensures AppliedAll(e, a + b) == AppliedAll(AppliedAll(e, a), b)
  {
    hide Applied;
    if b == [] {
      assert a + b == a;
    } else {
      var n := |b| - 1;
      assert (a + b)[..|a + b| - 1] == a + b[..n];
      AppliedConcat(e, a, b[..n]);
    }
  }

  lemma {:induction false} PointersRebuilt(e: Edit, ps: seq<(nat, Bytes)>, n: nat)
    requires n <= |ps|
    ensures AppliedAll(e, Pointers(ps, n)) == e.(compactPointers := e.compactPointers + ps[..n])
  {
    if n > 0 {
      PointersRebuilt(e, ps, n - 1);
      assert Pointers(ps, n)[..n - 1] == Pointers(ps, n - 1);
    }
  }

  lemma {:induction false} DeletionsRebuilt(e: Edit, ds: seq<(nat, nat)>, n: nat)
    requires n <= |ds| && e.deletedFiles == [] && AscendingPairs(ds)
    ensures AppliedAll(e, Deletions(ds, n)) == e.(deletedFiles := ds[..n])
  {
    if n > 0 {
      DeletionsRebuilt(e, ds, n - 1);
      assert Deletions(ds, n)[..n - 1] == Deletions(ds, n - 1);
      InsertAtEnd(ds[..n - 1], ds[n - 1]);
      assert ds[n - 1] == (ds[n - 1].0, ds[n - 1].1);
    }
  }

  lemma {:induction false} AdditionsRebuilt(e: Edit, fs: seq<(nat, FileMeta)>, n: nat)
    requires n <= |fs|
    ensures AppliedAll(e, Additions(fs, n)) == e.(newFiles := e.newFiles + fs[..n])
  {
    if n > 0 {
      AdditionsRebuilt(e, fs, n - 1);
      assert Additions(fs, n)[..n - 1] == Additions(fs, n - 1);
    }
  }

  lemma OneRebuilt(e: Edit, d: Edit, k: nat)
    ensures AppliedAll(d, Header(e, k + 1))
         == var o := OptionalField(e, k); if o.Some? then Applied(AppliedAll(d, Header(e, k)), o.value)
           else AppliedAll(d, Header(e, k))
  {
    hide Applied, OptionalField;
    var o := OptionalField(e, k);
    AppliedConcat(d, Header(e, k), Listed(o));
    if o.Some? {
      assert [o.value][..0] == [];
    }
  }

  lemma HeaderRebuilt(e: Edit, d: Edit)
    ensures AppliedAll(Cleared(d), Header(e, 5))
         == e.(compactPointers := d.compactPointers, deletedFiles := [], newFiles := [])
  {
    hide Header, AppliedAll;
    var c := Cleared(d);
    NothingRebuilt(e, c);
    OneRebuilt(e, c, 0);
    OneRebuilt(e, c, 1);
    OneRebuilt(e, c, 2);
    OneRebuilt(e, c, 3);
    OneRebuilt(e, c, 4);
  }

  lemma NothingRebuilt(e: Edit, c: Edit)
    ensures AppliedAll(c, Header(e, 0)) == c
  {
  }

  lemma FieldsRebuilt(e: Edit, d: Edit)
    requires AscendingPairs(e.deletedFiles)
    ensures AppliedAll(Cleared(d), Fields(e)) == e.(compactPointers := d.compactPointers + e.compactPointers)
  {
    hide AppliedAll, Applied, Header, Pointers, Deletions, Additions;
    var a, b, c := Pointers(e.compactPointers, |e.compactPointers|), Deletions(e.deletedFiles, |e.deletedFiles|),
                   Additions(e.newFiles, |e.newFiles|);
    HeaderRebuilt(e, d);
    AppliedConcat(Cleared(d), Header(e, 5) + a + b, c);
    AppliedConcat(Cleared(d), Header(e, 5) + a, b);
    AppliedConcat(Cleared(d), Header(e, 5), a);
    PointersRebuilt(AppliedAll(Cleared(d), Header(e, 5)), e.compactPointers, |e.compactPointers|);
    DeletionsRebuilt(AppliedAll(Cleared(d), Header(e, 5) + a), e.deletedFiles, |e.deletedFiles|);
    AdditionsRebuilt(AppliedAll(Cleared(d), Header(e, 5) + a + b), e.newFiles, |e.newFiles|);
    assert [] + e.newFiles == e.newFiles;
  }

  /** What can be stored: numbers of 64 bits, slices of 32-bit length, levels that exist. */
  ghost predicate Storable(e: Edit) {
    && AscendingPairs(e.deletedFiles)
    && (e.comparator.Some? ==> Fits(Comparator(e.comparator.value)))
    && (e.logNumber.Some? ==> e.logNumber.value <= MAX_UINT64)
    && (e.prevLogNumber.Some? ==> e.prevLogNumber.value <= MAX_UINT64)
    && (e.nextFileNumber.Some? ==> e.nextFileNumber.value <= MAX_UINT64)
    && (e.lastSequence.Some? ==> e.lastSequence.value <= MAX_UINT64)
    && (forall i :: 0 <= i < |e.compactPointers| ==>
       Fits(CompactPointer(e.compactPointers[i].0, e.compactPointers[i].1)))
    && (forall i :: 0 <= i < |e.deletedFiles| ==> Fits(DeletedFile(e.deletedFiles[i].0, e.deletedFiles[i].1)))
    && (forall i :: 0 <= i < |e.newFiles| ==> Fits(NewFile(e.newFiles[i].0, e.newFiles[i].1)))
  }

  lemma FieldsFit(e: Edit)
    requires Storable(e)
    ensures forall i :: 0 <= i < |Fields(e)| ==> Fits(Fields(e)[i])
  {
    HeaderFits(e, 5);
    var n := |e.compactPointers|;
    assert forall i :: 0 <= i < n ==> Fits(Pointers(e.compactPointers, n)[i]);
  }

  lemma {:induction false} HeaderFits(e: Edit, k: nat)
    requires Storable(e)
    ensures forall i :: 0 <= i < |Header(e, k)| ==> Fits(Header(e, k)[i])
  {
    if k > 0 {
      HeaderFits(e, k - 1);
    }
  }

  /**
   Decoding what an edit was encoded to rebuilds the edit, except that the compaction pointers come
   behind those that the decoding edit had before: Clear keeps them.
   */
  lemma EncodedEditDecodes(e: Edit, d: Edit)
    requires Storable(e)
    ensures Decoded(EncodedAll(Fields(e)), 0, Cleared(d))
              == Some(e.(compactPointers := d.compactPointers + e.compactPointers))
    ensures Decoded(EncodedAll(Fields(e)), 0, Cleared(d)) == Some(e) <==> d.compactPointers == []
  {
    hide Decoded, EncodedAll, Fields, Fits;
    FieldsFit(e);
    DecodesAll(Fields(e), Cleared(d));
    FieldsRebuilt(e, d);
    assert |d.compactPointers + e.compactPointers| == |d.compactPointers| + |e.compactPointers|;
    assert [] + e.compactPointers == e.compactPointers;
  }

  // ---- the object ----------------------------------------------------------------------------------------

  class VersionEdit {
    var comparator: Bytes
    var logNumber: nat
    var prevLogNumber: nat
    var nextFileNumber: nat
    var lastSequence: nat
    var hasComparator: bool
    var hasLogNumber: bool
    var hasPrevLogNumber: bool
    var hasNextFileNumber: bool
    var hasLastSequence: bool
    var compactPointers: seq<(nat, Bytes)>
    var deletedFiles: seq<(nat, nat)>
    var newFiles: seq<(nat, FileMeta)>

    function State(): Edit
      reads this
    {
      Edit(if hasComparator then Some(comparator) else None, if hasLogNumber then Some(logNumber) else None,
           if hasPrevLogNumber then Some(prevLogNumber) else None, if hasNextFileNumber then Some(nextFileNumber)
             else None,
           if hasLastSequence then Some(lastSequence) else None, compactPointers, deletedFiles, newFiles)
    }

    constructor ()
      ensures State() == FRESH
    {
      comparator, logNumber, prevLogNumber, nextFileNumber, lastSequence := [], 0, 0, 0, 0;
      hasComparator, hasLogNumber, hasPrevLogNumber, hasNextFileNumber, hasLastSequence := false, false, false, false,
        false;
      compactPointers, deletedFiles, newFiles := [], [], [];
    }

    method Clear()
      modifies this
      ensures State() == Cleared(old(State()))
    {
      comparator, logNumber, prevLogNumber, lastSequence, nextFileNumber := [], 0, 0, 0, 0;
      hasComparator, hasLogNumber, hasPrevLogNumber, hasNextFileNumber, hasLastSequence := false, false, false, false,
        false;
      deletedFiles, newFiles := [], [];
    }

    method EncodeTo(dst: Bytes) returns (r: Bytes)
      ensures r == dst + EncodedAll(Fields(State()))
    {
      hide EncodedAll, Encoded, Header, Pointers, Deletions, Additions;
      ghost var e := State();
      r := EncodeHeader(dst);
      PartsStart(e);
      var i := 0;
      while i < |compactPointers|
        invariant i <= |compactPointers| && r == dst + EncodedAll(Header(e, 5) + Pointers(compactPointers, i))
      {
        PointersGrow(Header(e, 5), compactPointers, i);
        r := r + Encoded(CompactPointer(compactPointers[i].0, compactPointers[i].1));
        i := i + 1;
      }
      ghost var a := Header(e, 5) + Pointers(compactPointers, |compactPointers|);
      i := 0;
      assert a + [] == a;
      while i < |deletedFiles|
        invariant i <= |deletedFiles| && r == dst + EncodedAll(a + Deletions(deletedFiles, i))
      {
        DeletionsGrow(a, deletedFiles, i);
        r := r + Encoded(DeletedFile(deletedFiles[i].0, deletedFiles[i].1));
        i := i + 1;
      }
      ghost var b := a + Deletions(deletedFiles, |deletedFiles|);
      i := 0;
      assert b + [] == b;
      while i < |newFiles|
        invariant i <= |newFiles| && r == dst + EncodedAll(b + Additions(newFiles, i))
      {
        AdditionsGrow(b, newFiles, i);
        r := r + Encoded(NewFile(newFiles[i].0, newFiles[i].1));
        i := i + 1;
      }
    }

    method EncodeHeader(dst: Bytes) returns (r: Bytes)
      ensures r == dst + EncodedAll(Header(State(), 5))
    {
      hide Encoded, EncodedAll, Header;
      ghost var e := State();
      HeaderStarts(e);
      assert OptionalField(e, 0) == if hasComparator then Some(Comparator(comparator)) else None;
      assert OptionalField(e, 1) == if hasLogNumber then Some(LogNumber(logNumber)) else None;
      assert OptionalField(e, 2) == if hasPrevLogNumber then Some(PrevLogNumber(prevLogNumber)) else None;
      assert OptionalField(e, 3) == if hasNextFileNumber then Some(NextFileNumber(nextFileNumber)) else None;
      assert OptionalField(e, 4) == if hasLastSequence then Some(LastSequence(lastSequence)) else None;
      hide OptionalField, State;
      r := dst;
      HeaderGrows(e, 0, dst);
      if hasComparator {
        r := r + Encoded(Comparator(comparator));
      }
      assert r == dst + EncodedAll(Header(e, 1));
      HeaderGrows(e, 1, dst);
      if hasLogNumber {
        r := r + Encoded(LogNumber(logNumber));
      }
      assert r == dst + EncodedAll(Header(e, 2));
      HeaderGrows(e, 2, dst);
      if hasPrevLogNumber {
        r := r + Encoded(PrevLogNumber(prevLogNumber));
      }
      assert r == dst + EncodedAll(Header(e, 3));
      HeaderGrows(e, 3, dst);
      if hasNextFileNumber {
        r := r + Encoded(NextFileNumber(nextFileNumber));
      }
      assert r == dst + EncodedAll(Header(e, 4));
      HeaderGrows(e, 4, dst);
      if hasLastSequence {
        r := r + Encoded(LastSequence(lastSequence));
      }
      assert r == dst + EncodedAll(Header(e, 5));
    }

    /** DecodeFrom; on corruption only the error is told. */
    method DecodeFrom(src: Bytes) returns (ok: bool)
      modifies this
      ensures var d := Decoded(src, 0, Cleared(old(State())));
              ok == d.Some? && (ok ==> State() == d.value)
    {
      hide GetVarint32, GetField, Insert;
      Clear();
      ghost var start := State();
      var p := 0;
      while true
        invariant p <= |src| && Decoded(src, p, State()) == Decoded(src, 0, start)
        decreases |src| - p
      {
        var tag := GetVarint32(src, p);
        if tag.Bad? {
          return p == |src|;
        }
        var f := GetField(src, tag.value, tag.next);
        if f.Bad? {
          return false;
        }
        Apply(f.value);
        p := f.next;
      }
    }

    method Apply(f: Field)
      modifies this
      ensures State() == Applied(old(State()), f)
    {
      hide Insert;
      match f
      case Comparator(name) =>
        comparator := name;
        hasComparator := true;
      case LogNumber(n) =>
        logNumber := n;
        hasLogNumber := true;
      case PrevLogNumber(n) =>
        prevLogNumber := n;
        hasPrevLogNumber := true;
      case NextFileNumber(n) =>
        nextFileNumber := n;
        hasNextFileNumber := true;
      case LastSequence(n) =>
        lastSequence := n;
        hasLastSequence := true;
      case CompactPointer(level, key) =>
        compactPointers := compactPointers + [(level, key)];
      case DeletedFile(level, file) =>
        deletedFiles := Insert(deletedFiles, (level, file));
      case NewFile(level, m) =>
        newFiles := newFiles + [(level, m)];
    }
  }

  lemma HeaderStarts(e: Edit)
    ensures EncodedAll(Header(e, 0)) == []
  {
  }

  lemma HeaderGrows(e: Edit, k: nat, dst: Bytes)
    ensures dst + EncodedAll(Header(e, k + 1))
         == var o := OptionalField(e, k);
            if o.Some? then dst + EncodedAll(Header(e, k)) + Encoded(o.value) else dst + EncodedAll(Header(e, k))
  {
    hide Encoded, OptionalField, EncodedAll;
    var o := OptionalField(e, k);
    if o.Some? {
      EncodedMore(Header(e, k), o.value);
      assert dst + (EncodedAll(Header(e, k)) + Encoded(o.value)) == dst + EncodedAll(Header(e, k)) + Encoded(o.value);
    } else {
      assert Header(e, k) + [] == Header(e, k);
    }
  }

  lemma PartsStart(e: Edit)
    ensures Header(e, 5) + Pointers(e.compactPointers, 0) == Header(e, 5)
    ensures Deletions(e.deletedFiles, 0) == [] && Additions(e.newFiles, 0) == []
  {
  }

  lemma PointersGrow(fs: seq<Field>, ps: seq<(nat, Bytes)>, i: nat)
    requires i < |ps|
    ensures EncodedAll(fs + Pointers(ps, i + 1))
              == EncodedAll(fs + Pointers(ps, i)) + Encoded(CompactPointer(ps[i].0, ps[i].1))
  {
    hide Encoded;
    EncodedMore(fs + Pointers(ps, i), CompactPointer(ps[i].0, ps[i].1));
    assert fs + Pointers(ps, i + 1) == fs + Pointers(ps, i) + [CompactPointer(ps[i].0, ps[i].1)];
  }

  lemma DeletionsGrow(fs: seq<Field>, ds: seq<(nat, nat)>, i: nat)
    requires i < |ds|
    ensures EncodedAll(fs + Deletions(ds, i + 1))
              == EncodedAll(fs + Deletions(ds, i)) + Encoded(DeletedFile(ds[i].0, ds[i].1))
  {
    hide Encoded;
    EncodedMore(fs + Deletions(ds, i), DeletedFile(ds[i].0, ds[i].1));
    assert fs + Deletions(ds, i + 1) == fs + Deletions(ds, i) + [DeletedFile(ds[i].0, ds[i].1)];
  }

  lemma AdditionsGrow(fs: seq<Field>, ns: seq<(nat, FileMeta)>, i: nat)
    requires i < |ns|
    ensures EncodedAll(fs + Additions(ns, i + 1))
              == EncodedAll(fs + Additions(ns, i)) + Encoded(NewFile(ns[i].0, ns[i].1))
  {
    hide Encoded;
    EncodedMore(fs + Additions(ns, i), NewFile(ns[i].0, ns[i].1));
    assert fs + Additions(ns, i + 1) == fs + Additions(ns, i) + [NewFile(ns[i].0, ns[i].1)];
  }
}
