/**
 Compaction (DoCompactionWork, db/db_impl.cc:890-999): which entries of the merged input are
 dropped, and exactly when dropping them is invisible to readers.
 */
module CompactionRules {
  import opened Options
  import opened Keys
  import opened Lsm

  /** Rule (A): an earlier (newer) entry of the same user key is already visible to every snapshot. */
  ghost predicate Hidden(input: seq<Entry>, i: nat, smallestSnapshot: nat) {
    && i < |input|
    && exists j :: 0 <= j < i && input[j].key.user == input[i].key.user
                   && input[j].key.sequence <= smallestSnapshot
  }

  /** An obsolete deletion marker: old enough, and nothing deeper to hide. */
  ghost predicate Obsolete(e: Entry, smallestSnapshot: nat, levels: Levels, level: nat) {
    && e.key.kind.Deletion?
    && e.key.sequence <= smallestSnapshot
    && IsBase(levels, level, e.key.user)
  }

  ghost predicate Dropped(input: seq<Entry>, i: nat, smallestSnapshot: nat, levels: Levels, level: nat) {
    && i < |input|
    && (Hidden(input, i, smallestSnapshot) || Obsolete(input[i], smallestSnapshot, levels, level))
  }

  /** The entries among the first `n` that are written to the output. */
  ghost function Survivors(input: seq<Entry>, n: nat, smallestSnapshot: nat, levels: Levels, level: nat)
    : (r: seq<Entry>)
    requires n <= |input|
  {
    if n == 0 then [] else
      Survivors(input, n - 1, smallestSnapshot, levels, level)
      + if Dropped(input, n - 1, smallestSnapshot, levels, level) then [] else [input[n - 1]]
  }

  lemma {:induction false} SurvivorsAre(input: seq<Entry>, n: nat, smallestSnapshot: nat,
                                        levels: Levels, level: nat)
    requires n <= |input| && Sorted(input)
    ensures var r := Survivors(input, n, smallestSnapshot, levels, level);
      && Sorted(r)
      && (forall e :: e in r <==>
            exists i :: 0 <= i < n && input[i] == e
                        && !Dropped(input, i, smallestSnapshot, levels, level))
  {
    if n > 0 {
      SurvivorsAre(input, n - 1, smallestSnapshot, levels, level);
      var r := Survivors(input, n - 1, smallestSnapshot, levels, level);
      assert forall k :: 0 <= k < |r| ==> r[k] in r;
    }
  }

  // ---- when dropping is invisible ---------------------------------------------------------------

  /**
   What goes wrong when it goes wrong: an obsolete deletion marker is dropped although `left`, the part
   of level+1 that is not an input, still holds an older value of its key that nothing else hides.
   */
  ghost predicate Resurrects(others: set<Entry>, left: set<Entry>, input: seq<Entry>, i: nat,
                             smallestSnapshot: nat, levels: Levels, level: nat) {
    && i < |input|
    && !Hidden(input, i, smallestSnapshot)
    && Obsolete(input[i], smallestSnapshot, levels, level)
    && exists o :: o in left && o.key.kind.Value? && o.key.sequence < input[i].key.sequence
                   && Newest(others, input[i].key.user, smallestSnapshot, o)
  }

  /** How the entries outside the compaction lie around its input. */
  ghost predicate Surroundings(others: set<Entry>, left: set<Entry>, input: seq<Entry>,
                               levels: Levels, level: nat) {
    && Sorted(input)
    && others !! EntrySet(input)
    && UniqueKeys(others + EntrySet(input))
    && left <= others
    && forall t, o :: t in EntrySet(input) && o in others && o.key.user == t.key.user
                      && o.key.sequence < t.key.sequence
                      ==> o in left || !IsBase(levels, level, t.key.user)
  }

  ghost predicate ReadsAgree(s: set<Entry>, t: set<Entry>, user: UserKey, snapshot: nat) {
    View(s, user, snapshot) == View(t, user, snapshot)
  }

  /** In a sorted input with unique keys the versions of one user key come newest first. */
  lemma VersionsDescend(input: seq<Entry>)
    requires Sorted(input) && UniqueKeys(EntrySet(input))
    ensures forall j, i :: 0 <= j < i < |input| && input[j].key.user == input[i].key.user
                           ==> input[j].key.sequence > input[i].key.sequence
  {
    forall j, i | 0 <= j < i < |input| && input[j].key.user == input[i].key.user
      ensures input[j].key.sequence > input[i].key.sequence
    {
      assert Before(input[j].key, input[i].key);
      assert input[j] in EntrySet(input) && input[i] in EntrySet(input);
    }
  }

  /** The newest version of a key is never hidden. */
  lemma NewestIsNotHidden(input: seq<Entry>, i: nat, user: UserKey, s: nat, smallestSnapshot: nat)
    requires Sorted(input) && UniqueKeys(EntrySet(input)) && smallestSnapshot <= s
    requires i < |input| && Newest(EntrySet(input), user, s, input[i])
    ensures !Hidden(input, i, smallestSnapshot)
    ensures forall j :: 0 <= j < i && input[j].key.user == user ==> input[j].key.sequence > s
  {
    hide Sorted, UniqueKeys;
    VersionsDescend(input);
    assert forall j :: 0 <= j < i && input[j].key.user == user && input[j].key.sequence <= s
                       ==> Visible(EntrySet(input), user, s, input[j]);
  }

  /** Once the newest entry of its key is dropped as obsolete, no survivor of that key is visible. */
  lemma NothingOlderSurvives(input: seq<Entry>, i: nat, s: nat, smallestSnapshot: nat,
                             levels: Levels, level: nat)
    requires Sorted(input)
    requires i < |input| && Obsolete(input[i], smallestSnapshot, levels, level)
    requires forall j :: 0 <= j < i && input[j].key.user == input[i].key.user ==> input[j].key.sequence > s
    ensures forall e :: !Visible(EntrySet(Survivors(input, |input|, smallestSnapshot, levels, level)),
                                 input[i].key.user, s, e)
  {
    SurvivorsAre(input, |input|, smallestSnapshot, levels, level);
    forall k | 0 <= k < |input| && input[k].key.user == input[i].key.user
               && input[k].key.sequence <= s
      ensures Dropped(input, k, smallestSnapshot, levels, level)
    {
      if k == i {
      } else {
        assert i < k;
      }
    }
  }

  lemma SurvivorsAreInput(input: seq<Entry>, smallestSnapshot: nat, levels: Levels, level: nat)
    requires Sorted(input)
    ensures EntrySet(Survivors(input, |input|, smallestSnapshot, levels, level)) <= EntrySet(input)
  {
    SurvivorsAre(input, |input|, smallestSnapshot, levels, level);
  }

  /** A read whose newest input version survives. */
  lemma ReadOfSurvivor(others: set<Entry>, input: set<Entry>, kept: set<Entry>, user: UserKey, s: nat, n: Entry)
    requires UniqueKeys(others + input) && kept <= input
    requires Newest(input, user, s, n) && n in kept
    ensures ReadsAgree(others + kept, others + input, user, s)
  {
    assert Newest(kept, user, s, n);
    if d :| Visible(others, user, s, d) && d.key.sequence > n.key.sequence {
      var m := NewestExists(others, user, s, d);
      NewestOfUnion(others, input, user, s, m);
      NewestOfUnion(others, kept, user, s, m);
      ViewOfNewest(others + input, user, s, m);
      ViewOfNewest(others + kept, user, s, m);
    } else {
      NewestOfUnion(input, others, user, s, n);
      NewestOfUnion(kept, others, user, s, n);
      ViewOfNewest(others + input, user, s, n);
      ViewOfNewest(others + kept, user, s, n);
    }
  }

  /** A read that no survivor takes part in sees the entries outside the compaction. */
  lemma ReadOfOthers(others: set<Entry>, kept: set<Entry>, user: UserKey, s: nat)
    requires UniqueKeys(others + kept)
    requires forall e :: !Visible(kept, user, s, e)
    ensures ReadsAgree(others + kept, others, user, s)
  {
    forall e
      ensures Visible(others + kept, user, s, e) <==> Visible(others, user, s, e)
    {
      assert !Visible(kept, user, s, e);
    }
    SameVisibleSameView(others + kept, others, user, s);
  }

  /** The read at a dropped marker is decided by the entries outside the compaction. */
  lemma ReadOverMarker(others: set<Entry>, left: set<Entry>, input: seq<Entry>, i: nat,
                       smallestSnapshot: nat, levels: Levels, level: nat, s: nat)
    requires Surroundings(others, left, input, levels, level) && smallestSnapshot <= s
    requires i < |input| && Newest(EntrySet(input), input[i].key.user, s, input[i])
    requires !Hidden(input, i, smallestSnapshot)
    requires Obsolete(input[i], smallestSnapshot, levels, level)
    requires !Resurrects(others, left, input, i, smallestSnapshot, levels, level)
    ensures ReadsAgree(others, others + EntrySet(input), input[i].key.user, s)
  {
    var t, user := input[i], input[i].key.user;
    if d :| Visible(others, user, s, d) {
      var m := NewestExists(others, user, s, d);
      ViewOfNewest(others, user, s, m);
      assert m in others + EntrySet(input) && t in others + EntrySet(input) && m != t;
      if m.key.sequence > t.key.sequence {
        NewestOfUnion(others, EntrySet(input), user, s, m);
        ViewOfNewest(others + EntrySet(input), user, s, m);
      } else {
        NewestOfUnion(EntrySet(input), others, user, s, t);
        ViewOfNewest(others + EntrySet(input), user, s, t);
        assert Newest(others, user, smallestSnapshot, m);
      }
    } else {
      ViewOfNothing(others, user, s);
      NewestOfUnion(EntrySet(input), others, user, s, t);
      ViewOfNewest(others + EntrySet(input), user, s, t);
    }
  }

  /** One read, given that no deletion marker is dropped over a live older value. */
  lemma ReadPreserved(others: set<Entry>, left: set<Entry>, input: seq<Entry>, smallestSnapshot: nat,
                      levels: Levels, level: nat, user: UserKey, s: nat)
    requires Surroundings(others, left, input, levels, level) && smallestSnapshot <= s
    requires forall i :: !Resurrects(others, left, input, i, smallestSnapshot, levels, level)
    ensures ReadsAgree(others + EntrySet(Survivors(input, |input|, smallestSnapshot, levels, level)),
                       others + EntrySet(input), user, s)
  {
    var kept := EntrySet(Survivors(input, |input|, smallestSnapshot, levels, level));
    SurvivorsAreInput(input, smallestSnapshot, levels, level);
    if d :| Visible(EntrySet(input), user, s, d) {
      var n := NewestExists(EntrySet(input), user, s, d);
      var i :| 0 <= i < |input| && input[i] == n;
      NewestIsNotHidden(input, i, user, s, smallestSnapshot);
      if Obsolete(n, smallestSnapshot, levels, level) {
        NothingOlderSurvives(input, i, s, smallestSnapshot, levels, level);
        ReadOfOthers(others, kept, user, s);
        ReadOverMarker(others, left, input, i, smallestSnapshot, levels, level, s);
      } else {
        SurvivorsAre(input, |input|, smallestSnapshot, levels, level);
        ReadOfSurvivor(others, EntrySet(input), kept, user, s, n);
      }
    } else {
      forall e
        ensures !Visible(kept, user, s, e)
      {
        assert !Visible(EntrySet(input), user, s, e);
      }
      ReadOfOthers(others, kept, user, s);
      ReadOfOthers(others, EntrySet(input), user, s);
    }
  }

  /** An unhidden entry that the smallest snapshot sees is the newest it sees. */
  lemma UnhiddenIsNewest(input: seq<Entry>, i: nat, smallestSnapshot: nat)
    requires Sorted(input) && UniqueKeys(EntrySet(input))
    requires i < |input| && !Hidden(input, i, smallestSnapshot)
    requires input[i].key.sequence <= smallestSnapshot
    ensures Newest(EntrySet(input), input[i].key.user, smallestSnapshot, input[i])
  {
    VersionsDescend(input);
    forall e | Visible(EntrySet(input), input[i].key.user, smallestSnapshot, e)
      ensures e.key.sequence <= input[i].key.sequence
    {
      var j :| 0 <= j < |input| && input[j] == e;
    }
  }

  /** The failing case really fails: at the smallest snapshot a deleted key reads as present. */
  lemma ReadResurrected(others: set<Entry>, left: set<Entry>, input: seq<Entry>, i: nat,
                        smallestSnapshot: nat, levels: Levels, level: nat)
    requires Surroundings(others, left, input, levels, level)
    requires Resurrects(others, left, input, i, smallestSnapshot, levels, level)
    ensures View(others + EntrySet(input), input[i].key.user, smallestSnapshot) == None
    ensures View(others + EntrySet(Survivors(input, |input|, smallestSnapshot, levels, level)),
                 input[i].key.user, smallestSnapshot).Some?
  {
    var survivors := Survivors(input, |input|, smallestSnapshot, levels, level);
    var t, user := input[i], input[i].key.user;
    var o :| o in left && o.key.kind.Value? && o.key.sequence < t.key.sequence
             && Newest(others, user, smallestSnapshot, o);
    UnhiddenIsNewest(input, i, smallestSnapshot);
    NewestOfUnion(EntrySet(input), others, user, smallestSnapshot, t);
    ViewOfNewest(others + EntrySet(input), user, smallestSnapshot, t);
    NewestIsNotHidden(input, i, user, smallestSnapshot, smallestSnapshot);
    NothingOlderSurvives(input, i, smallestSnapshot, smallestSnapshot, levels, level);
    SurvivorsAreInput(input, smallestSnapshot, levels, level);
    NewestOfUnion(others, EntrySet(survivors), user, smallestSnapshot, o);
    ViewOfNewest(others + EntrySet(survivors), user, smallestSnapshot, o);
  }

  /**
   Dropping is invisible at every snapshot from the smallest live one on, for every user key, if and
   only if no obsolete deletion marker is dropped over a live older value left in level+1.
   */
  lemma DropIsInvisibleIff(others: set<Entry>, left: set<Entry>, input: seq<Entry>,
                           smallestSnapshot: nat, levels: Levels, level: nat)
    requires Surroundings(others, left, input, levels, level)
    ensures (forall user, s :: smallestSnapshot <= s ==>
               ReadsAgree(others + EntrySet(Survivors(input, |input|, smallestSnapshot, levels, level)),
                          others + EntrySet(input), user, s))
       <==> (forall i :: !Resurrects(others, left, input, i, smallestSnapshot, levels, level))
  {
    var after := others + EntrySet(Survivors(input, |input|, smallestSnapshot, levels, level));
    var before := others + EntrySet(input);
    if i: nat :| Resurrects(others, left, input, i, smallestSnapshot, levels, level) {
      ReadResurrected(others, left, input, i, smallestSnapshot, levels, level);
      assert !ReadsAgree(after, before, input[i].key.user, smallestSnapshot);
    } else {
      forall user, s | smallestSnapshot <= s
        ensures ReadsAgree(after, before, user, s)
      {
        ReadPreserved(others, left, input, smallestSnapshot, levels, level, user, s);
      }
    }
  }
}
