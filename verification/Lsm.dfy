/**
 The database as a log-structured merge tree: what is stored where, what a reader sees, and the
 invariants every step keeps (db/db_impl.cc, db/version_set.cc).
 */
module Lsm {
  import opened Options
  import opened Keys
  import opened Files

  type Levels = seq<seq<File>>

  /** mem_, imm_, the current version, last_sequence_, next_file_number_ and the snapshot list. */
  datatype Db = Db(mem: seq<Entry>, imm: Option<seq<Entry>>, levels: Levels,
                   lastSequence: nat, nextFile: nat, snapshots: seq<nat>)

  ghost function EntrySet(es: seq<Entry>): set<Entry> {
    set e | e in es
  }

  ghost function Tables(levels: Levels): set<Entry> {
    set l, f, e | 0 <= l < |levels| && f in levels[l] && e in f.entries :: e
  }

  ghost function Imm(db: Db): set<Entry> {
    if db.imm.Some? then EntrySet(db.imm.value) else {}
  }

  ghost function All(db: Db): set<Entry> {
    EntrySet(db.mem) + Imm(db) + Tables(db.levels)
  }

  // ---- what a reader sees --------------------------------------------------------------------

  ghost predicate Visible(s: set<Entry>, user: UserKey, snapshot: nat, e: Entry) {
    e in s && e.key.user == user && e.key.sequence <= snapshot
  }

  /** `e` is the newest version of `user` at `snapshot`. */
  ghost predicate Newest(s: set<Entry>, user: UserKey, snapshot: nat, e: Entry) {
    && Visible(s, user, snapshot, e)
    && forall d :: Visible(s, user, snapshot, d) ==> d.key.sequence <= e.key.sequence
  }

  /** The value a read of `user` at `snapshot` must return. */
  ghost function View(s: set<Entry>, user: UserKey, snapshot: nat): Option<seq<Byte>> {
    if exists e :: Newest(s, user, snapshot, e) && e.key.kind.Value? then
      var e :| Newest(s, user, snapshot, e) && e.key.kind.Value?;
      Some(e.value)
    else None
  }

  /** No two entries share a user key and a sequence number. */
  ghost predicate UniqueKeys(s: set<Entry>) {
    forall d, e :: d in s && e in s && d.key.user == e.key.user && d.key.sequence == e.key.sequence
                   ==> d == e
  }

  lemma ViewOfNewest(s: set<Entry>, user: UserKey, snapshot: nat, e: Entry)
    requires UniqueKeys(s) && Newest(s, user, snapshot, e)
    ensures View(s, user, snapshot) == if e.key.kind.Value? then Some(e.value) else None
  {
    assert forall d :: Newest(s, user, snapshot, d) ==> d == e;
  }

  /** The newest visible version exists as soon as there is a visible one. */
  lemma NewestExists(s: set<Entry>, user: UserKey, snapshot: nat, d: Entry) returns (e: Entry)
    requires Visible(s, user, snapshot, d)
    ensures Newest(s, user, snapshot, e)
    decreases snapshot - d.key.sequence
  {
    if e' :| Visible(s, user, snapshot, e') && e'.key.sequence > d.key.sequence {
      e := NewestExists(s, user, snapshot, e');
    } else {
      e := d;
    }
  }

  lemma ViewOfNothing(s: set<Entry>, user: UserKey, snapshot: nat)
    requires forall e :: !Visible(s, user, snapshot, e)
    ensures View(s, user, snapshot) == None
  {
  }

  lemma NewestOfUnion(s: set<Entry>, t: set<Entry>, user: UserKey, snapshot: nat, e: Entry)
    requires Newest(s, user, snapshot, e)
    requires forall d :: Visible(t, user, snapshot, d) ==> d.key.sequence <= e.key.sequence
    ensures Newest(s + t, user, snapshot, e) && Newest(t + s, user, snapshot, e)
  {
    forall d | Visible(s + t, user, snapshot, d)
      ensures d.key.sequence <= e.key.sequence
    {
      assert Visible(s, user, snapshot, d) || Visible(t, user, snapshot, d);
    }
    assert s + t == t + s;
  }

  /** Sets with the same visible entries of a key give the same read. */
  lemma SameVisibleSameView(s: set<Entry>, t: set<Entry>, user: UserKey, snapshot: nat)
    requires UniqueKeys(s) && UniqueKeys(t)
    requires forall e :: Visible(s, user, snapshot, e) <==> Visible(t, user, snapshot, e)
    ensures View(s, user, snapshot) == View(t, user, snapshot)
  {
    if d :| Visible(s, user, snapshot, d) {
      var e := NewestExists(s, user, snapshot, d);
      ViewOfNewest(s, user, snapshot, e);
      assert Newest(t, user, snapshot, e);
      ViewOfNewest(t, user, snapshot, e);
    }
  }

  // ---- the invariant --------------------------------------------------------------------------

  /** Every version in `s` is newer than every version of the same user key in `t`. */
  ghost predicate Newer(s: set<Entry>, t: set<Entry>) {
    forall d, e :: d in s && e in t && d.key.user == e.key.user ==> d.key.sequence > e.key.sequence
  }

  ghost predicate FileNewer(f: File, g: File) {
    Newer(EntrySet(f.entries), EntrySet(g.entries))
  }

  /** BySmallestKey. */
  predicate FileOrder(f: File, g: File) {
    || Before(f.smallest, g.smallest)
    || (f.smallest.user == g.smallest.user && f.smallest.Tag() == g.smallest.Tag()
        && f.number < g.number)
  }

  ghost predicate InFileOrder(fs: seq<File>) {
    forall i, j :: 0 <= i < j < |fs| ==> FileOrder(fs[i], fs[j])
  }

  predicate Apart(f: File, g: File) {
    Before(f.largest, g.smallest) || Before(g.largest, f.smallest)
  }

  ghost predicate PairwiseApart(fs: seq<File>) {
    forall f, g :: f in fs && g in fs && f != g ==> Apart(f, g)
  }

  ghost predicate NumbersDiffer(fs: seq<File>) {
    forall f, g :: f in fs && g in fs && f != g ==> f.number != g.number
  }

  /** A file number names one file in one level. */
  ghost predicate NumbersUnique(levels: Levels) {
    forall k, l, f, g ::
      0 <= k < |levels| && 0 <= l < |levels| && f in levels[k] && g in levels[l] && f.number == g.number
      ==> k == l && f == g
  }

  ghost predicate ValidLevels(levels: Levels) {
    && |levels| == NUM_LEVELS
    && (forall l :: 0 <= l < NUM_LEVELS ==> ValidFiles(levels[l]) && InFileOrder(levels[l]))
    && (forall l :: 1 <= l < NUM_LEVELS ==> PairwiseApart(levels[l]))
    && NumbersUnique(levels)
  }

  /** Deeper levels are older; within level 0 a smaller file number is older. */
  ghost predicate LevelsInRecencyOrder(levels: Levels) {
    && (forall k, l, f, g :: 0 <= k < l < |levels| && f in levels[k] && g in levels[l]
                             ==> FileNewer(f, g))
    && (forall f, g :: |levels| > 0 && f in levels[0] && g in levels[0] && f.number > g.number
                       ==> FileNewer(f, g))
  }

  ghost predicate RecencyOrder(db: Db) {
    && Newer(EntrySet(db.mem), Imm(db))
    && Newer(EntrySet(db.mem), Tables(db.levels))
    && Newer(Imm(db), Tables(db.levels))
    && LevelsInRecencyOrder(db.levels)
  }

  ghost predicate NumbersBelow(levels: Levels, n: nat) {
    forall l, f :: 0 <= l < |levels| && f in levels[l] ==> f.number < n
  }

  ghost predicate Inv(db: Db) {
    && Sorted(db.mem)
    && (db.imm.Some? ==> Sorted(db.imm.value))
    && ValidLevels(db.levels)
    && NumbersBelow(db.levels, db.nextFile)
    && RecencyOrder(db)
    && UniqueKeys(All(db))
    && (forall e <- All(db) :: e.key.sequence <= db.lastSequence)
    && db.lastSequence < MAX_SEQUENCE
    && (forall s <- db.snapshots :: s <= db.lastSequence)
    && (forall i, j :: 0 <= i < j < |db.snapshots| ==> db.snapshots[i] <= db.snapshots[j])
  }

  lemma NoFiles(levels: Levels)
    requires |levels| == NUM_LEVELS && forall l :: 0 <= l < NUM_LEVELS ==> levels[l] == []
    ensures ValidLevels(levels) && LevelsInRecencyOrder(levels) && NumbersBelow(levels, 0) && Tables(levels) == {}
  {
    hide FileNewer, FileOrder, Apart, ValidFile;
  }

  /** An empty database. */
  lemma NothingStored(db: Db)
    requires |db.levels| == NUM_LEVELS && forall l :: 0 <= l < NUM_LEVELS ==> db.levels[l] == []
    requires db.mem == [] && db.imm.None? && db.snapshots == [] && db.lastSequence < MAX_SEQUENCE
    ensures Inv(db) && All(db) == {}
  {
    hide ValidLevels, LevelsInRecencyOrder, Tables;
    NoFiles(db.levels);
    var none: seq<Entry> := [];
    assert EntrySet(none) == {};
  }

  predicate Covers(f: File, user: UserKey) {
    f.smallest.user <= user <= f.largest.user
  }

  ghost predicate NoneCovers(fs: seq<File>, user: UserKey) {
    forall f :: f in fs ==> !Covers(f, user)
  }

  /** No file below level+1 covers `user`. */
  ghost predicate IsBase(levels: Levels, level: nat, user: UserKey) {
    forall l :: level + 2 <= l < |levels| ==> NoneCovers(levels[l], user)
  }

  /** A list in file order whose files are apart is a sorted level. */
  lemma OrderedApartIsSorted(fs: seq<File>)
    requires ValidFiles(fs) && InFileOrder(fs) && PairwiseApart(fs)
    ensures SortedLevel(fs)
  {
    forall i, j | 0 <= i < j < |fs|
      ensures Before(fs[i].largest, fs[j].smallest)
    {
      FileBounds(fs[i]);
      FileBounds(fs[j]);
      assert FileOrder(fs[i], fs[j]);
      assert fs[i] != fs[j];
    }
  }
}
