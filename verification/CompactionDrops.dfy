/**
 What a compaction leaves out, told by the live snapshots and the deeper levels alone (DoCompactionWork,
 db/db_impl.cc): everything that no reader can see any more, and nothing else.
 */
module CompactionDrops {
  import opened Keys
  import opened Files
  import opened Lsm
  import opened CompactionInputs
  import opened CompactionRules
  import opened Steps

  /** Every reader there is or will be sees the entry, or a newer one of its key. */
  ghost predicate SeenByAll(db: Db, e: Entry) {
    forall s <- db.snapshots :: e.key.sequence <= s
  }

  /** A newer entry of the key hides it from every reader. */
  ghost predicate Superseded(db: Db, inputs: set<Entry>, e: Entry) {
    exists d :: d in inputs && d.key.user == e.key.user && d.key.sequence > e.key.sequence && SeenByAll(db, d)
  }

  /** A deletion marker that every reader sees, of a key that no file below level+1 covers. */
  ghost predicate Spent(db: Db, level: nat, e: Entry) {
    && e.key.kind.Deletion? && SeenByAll(db, e)
    && forall l, f :: level + 2 <= l < |db.levels| && f in db.levels[l] ==>
         !(f.smallest.user <= e.key.user <= f.largest.user)
  }

  /** The outputs are the inputs without what is superseded or spent. */
  ghost predicate IsLean(db: Db, level: nat, inputs: set<Entry>, outputs: set<Entry>) {
    forall e :: e in outputs <==> e in inputs && !Superseded(db, inputs, e) && !Spent(db, level, e)
  }

  ghost predicate AtOrBelow(db: Db, n: nat) {
    n <= db.lastSequence && forall s <- db.snapshots :: n <= s
  }

  /** The greatest number at or below the last sequence number and every live snapshot. */
  ghost predicate IsFloor(db: Db, n: nat) {
    AtOrBelow(db, n) && forall m: nat :: AtOrBelow(db, m) ==> m <= n
  }

  lemma BelowFloor(db: Db, floor: nat, e: Entry)
    requires IsFloor(db, floor) && e.key.sequence <= db.lastSequence
    ensures e.key.sequence <= floor <==> SeenByAll(db, e)
  {
    assert SeenByAll(db, e) <==> AtOrBelow(db, e.key.sequence);
  }

  lemma HiddenIsSuperseded(db: Db, input: seq<Entry>, i: nat, floor: nat)
    requires Sorted(input) && UniqueKeys(EntrySet(input)) && IsFloor(db, floor) && i < |input|
    requires forall e :: e in input ==> e.key.sequence <= db.lastSequence
    ensures Hidden(input, i, floor) <==> Superseded(db, EntrySet(input), input[i])
  {
    VersionsDescend(input);
    hide IsFloor, SeenByAll, UniqueKeys;
    if Hidden(input, i, floor) {
      var j :| 0 <= j < i && input[j].key.user == input[i].key.user && input[j].key.sequence <= floor;
      BelowFloor(db, floor, input[j]);
      assert input[j] in EntrySet(input);
    }
    if Superseded(db, EntrySet(input), input[i]) {
      var d :| d in EntrySet(input) && d.key.user == input[i].key.user && d.key.sequence > input[i].key.sequence
               && SeenByAll(db, d);
      var j :| 0 <= j < |input| && input[j] == d;
      BelowFloor(db, floor, d);
    }
  }

  lemma ObsoleteIsSpent(db: Db, level: nat, e: Entry, floor: nat)
    requires IsFloor(db, floor) && e.key.sequence <= db.lastSequence
    ensures Obsolete(e, floor, db.levels, level) <==> Spent(db, level, e)
  {
    BelowFloor(db, floor, e);
    hide IsFloor, SeenByAll;
    if Spent(db, level, e) {
      forall l, f | level + 2 <= l < |db.levels| && f in db.levels[l]
        ensures !Covers(f, e.key.user)
      {
      }
    }
    if Obsolete(e, floor, db.levels, level) {
      forall l, f | level + 2 <= l < |db.levels| && f in db.levels[l]
        ensures !(f.smallest.user <= e.key.user <= f.largest.user)
      {
        assert NoneCovers(db.levels[l], e.key.user);
      }
    }
  }

  /** With the oldest live snapshot as floor, all that can be dropped is dropped. */
  lemma SurvivorsAreLean(db: Db, level: nat, input: seq<Entry>, floor: nat)
    requires Sorted(input) && UniqueKeys(EntrySet(input)) && IsFloor(db, floor)
    requires forall e :: e in input ==> e.key.sequence <= db.lastSequence
    ensures IsLean(db, level, EntrySet(input), EntrySet(Survivors(input, |input|, floor, db.levels, level)))
  {
    SurvivorsAre(input, |input|, floor, db.levels, level);
    hide Sorted, UniqueKeys, IsFloor, Survivors, Superseded, Spent, Hidden, Obsolete;
    forall i | 0 <= i < |input|
      ensures Dropped(input, i, floor, db.levels, level)
         <==> Superseded(db, EntrySet(input), input[i]) || Spent(db, level, input[i])
    {
      HiddenIsSuperseded(db, input, i, floor);
      ObsoleteIsSpent(db, level, input[i], floor);
    }
  }

  /** Of two versions of a key in the outputs the newer one is too new for some live snapshot. */
  lemma VersionsAreNeeded(db: Db, level: nat, inputs: set<Entry>, outputs: set<Entry>, d: Entry, e: Entry)
    requires IsLean(db, level, inputs, outputs)
    requires d in outputs && e in outputs && d.key.user == e.key.user && d.key.sequence < e.key.sequence
    ensures exists s :: s in db.snapshots && s < e.key.sequence
  {
    assert e in inputs && !Superseded(db, inputs, d);
    assert !SeenByAll(db, e);
  }

  /**
   Without live snapshots the outputs hold at most one entry of a user key, the newest, and a deletion marker
   only if a deeper level may hold the key.
   */
  lemma OneVersionWithoutSnapshots(db: Db, level: nat, inputs: set<Entry>, outputs: set<Entry>, e: Entry)
    requires IsLean(db, level, inputs, outputs) && UniqueKeys(inputs) && db.snapshots == [] && e in outputs
    ensures forall d :: d in inputs && d.key.user == e.key.user ==> d.key.sequence <= e.key.sequence
    ensures forall d :: d in outputs && d.key.user == e.key.user ==> d == e
    ensures e.key.kind.Deletion? ==>
              exists l, f :: level + 2 <= l < |db.levels| && f in db.levels[l]
                             && f.smallest.user <= e.key.user <= f.largest.user
  {
    forall d | d in inputs && d.key.user == e.key.user
      ensures d.key.sequence <= e.key.sequence
    {
      assert SeenByAll(db, d) && !Superseded(db, inputs, e);
    }
    forall d | d in outputs && d.key.user == e.key.user
      ensures d == e
    {
      if d.key.sequence < e.key.sequence {
        VersionsAreNeeded(db, level, inputs, outputs, d, e);
      }
      assert d in inputs && e in inputs;
    }
  }

  /** A compaction with that floor, as a step of the database. */
  lemma CompactionIsLean(db: Db, level: nat, in0: seq<File>, in1: seq<File>, input: seq<Entry>, floor: nat)
    requires level + 1 < NUM_LEVELS == |db.levels| && Inv(db) && IsFloor(db, floor)
    requires Chosen(db.levels[level], db.levels[level + 1], in0, in1)
    requires Sorted(input) && EntrySet(input) == Contents(in0) + Contents(in1)
    ensures UniqueKeys(Contents(in0) + Contents(in1))
    ensures IsLean(db, level, Contents(in0) + Contents(in1),
                   EntrySet(Survivors(input, |input|, floor, db.levels, level)))
  {
    AllBefore(db, level, in0, in1);
    hide Sorted, ValidLevels, RecencyOrder, NumbersBelow, Chosen, IsLean, Others, Contents, IsFloor;
    forall e | e in input
      ensures e.key.sequence <= db.lastSequence
    {
      assert e in EntrySet(input);
      assert e in All(db);
    }
    assert UniqueKeys(EntrySet(input));
    SurvivorsAreLean(db, level, input, floor);
  }
}
