/**
 DBIter (db/db_iter.cc): a two-direction iterator over the user-visible entries of a snapshot, on top of an
 iterator over internal entries.
 */
module DbIter {
  import opened Options
  import opened Keys
  import opened Lsm
  import opened Cursors

  // ---- the positions a reader may stop at ---------------------------------------------------------------

  /** Entry `i` is in the snapshot. */
  predicate InSnapshot(es: seq<Entry>, snapshot: nat, i: nat) {
    i < |es| && es[i].key.sequence <= snapshot
  }

  /** Entry `i` is its key's newest version in the snapshot, and a value. */
  ghost predicate Shown(es: seq<Entry>, snapshot: nat, i: nat) {
    && InSnapshot(es, snapshot, i) && es[i].key.kind.Value?
    && forall j :: 0 <= j < i && es[j].key.user == es[i].key.user ==> es[j].key.sequence > snapshot
  }

  /** `p` is the first shown entry from `lo` on, or the end if there is none. */
  ghost predicate FirstShown(es: seq<Entry>, snapshot: nat, lo: nat, p: nat) {
    && (p == |es| || (lo <= p && Shown(es, snapshot, p)))
    && forall k :: lo <= k < p ==> !Shown(es, snapshot, k)
  }

  /** `p` is the last shown entry before `hi`, or the end if there is none. */
  ghost predicate LastShown(es: seq<Entry>, snapshot: nat, hi: nat, p: nat) {
    && (p == |es| || (p < hi && Shown(es, snapshot, p)))
    && forall k :: 0 <= k < hi && (p == |es| || p < k) ==> !Shown(es, snapshot, k)
  }

  /** Users ascend along a sorted run. */
  ghost predicate UsersAscend(es: seq<Entry>) {
    forall i, j :: 0 <= i < j < |es| ==> es[i].key.user <= es[j].key.user
  }

  lemma SortedUsersAscend(es: seq<Entry>)
    requires Sorted(es)
    ensures UsersAscend(es)
  {
    forall i, j | 0 <= i < j < |es|
      ensures es[i].key.user <= es[j].key.user
    {
      assert Before(es[i].key, es[j].key);
    }
  }

  /**
   The shown entries are the user-visible map in key order: each key with a value in the snapshot is shown
   once, with that value, and no other key is.
   */
  lemma ShownIsView(es: seq<Entry>, snapshot: nat, user: UserKey)
    requires Sorted(es) && UniqueKeys(EntrySet(es))
    ensures View(EntrySet(es), user, snapshot).None? ==>
              forall i: nat :: Shown(es, snapshot, i) ==> es[i].key.user != user
    ensures View(EntrySet(es), user, snapshot).Some? ==>
              exists i: nat :: Shown(es, snapshot, i) && es[i].key.user == user
                          && es[i].value == View(EntrySet(es), user, snapshot).value
    ensures forall i: nat, j: nat :: Shown(es, snapshot, i) && Shown(es, snapshot, j) && i < j ==>
              es[i].key.user < es[j].key.user
  {
    SortedUsersAscend(es);
    forall i: nat, j: nat | Shown(es, snapshot, i) && Shown(es, snapshot, j) && i < j
      ensures es[i].key.user < es[j].key.user
    {
      assert es[i].key.user <= es[j].key.user;
    }
    forall i: nat | Shown(es, snapshot, i) && es[i].key.user == user
      ensures View(EntrySet(es), user, snapshot) == Some(es[i].value)
    {
      ShownIsNewest(es, snapshot, i);
      ViewOfNewest(EntrySet(es), user, snapshot, es[i]);
    }
    if View(EntrySet(es), user, snapshot).Some? {
      var e :| Newest(EntrySet(es), user, snapshot, e) && e.key.kind.Value?;
      ViewOfNewest(EntrySet(es), user, snapshot, e);
      var i := NewestIsShown(es, snapshot, user, e);
    }
  }

  lemma ShownIsNewest(es: seq<Entry>, snapshot: nat, i: nat)
    requires Sorted(es) && Shown(es, snapshot, i)
    ensures Newest(EntrySet(es), es[i].key.user, snapshot, es[i])
  {
    forall d | Visible(EntrySet(es), es[i].key.user, snapshot, d)
      ensures d.key.sequence <= es[i].key.sequence
    {
      var j :| 0 <= j < |es| && es[j] == d;
      assert i < j ==> Before(es[i].key, es[j].key);
    }
  }

  lemma NewestIsShown(es: seq<Entry>, snapshot: nat, user: UserKey, e: Entry) returns (i: nat)
    requires Sorted(es) && UniqueKeys(EntrySet(es))
    requires Newest(EntrySet(es), user, snapshot, e) && e.key.kind.Value?
    ensures Shown(es, snapshot, i) && es[i] == e
  {
    i :| 0 <= i < |es| && es[i] == e;
    forall j | 0 <= j < i && es[j].key.user == user
      ensures es[j].key.sequence > snapshot
    {
      assert Before(es[j].key, es[i].key);
      assert es[j] in EntrySet(es);
      assert es[j].key.sequence <= snapshot ==> Visible(EntrySet(es), user, snapshot, es[j]);
    }
  }

  // ---- scanning forward ----------------------------------------------------------------------------------

  /**
   FindNextUserEntry has come from `start` to `pos`: what it has passed is hidden, or belongs to the keys it was
   told to skip, and if it is not skipping, no key goes on across `pos`.
   */
  ghost predicate Scanned(es: seq<Entry>, snapshot: nat, start: nat, skipping: bool, skip: UserKey,
                          pos: nat, skipping': bool, skip': UserKey) {
    && start <= pos <= |es|
    && (skipping ==> skipping' && skip <= skip')
    && (forall k :: start <= k < pos && Shown(es, snapshot, k) ==> skipping && es[k].key.user <= skip)
    && (skipping' ==> forall j :: 0 <= j < pos && InSnapshot(es, snapshot, j) ==> es[j].key.user <= skip')
    && (skipping' ==> forall k :: pos <= k && Shown(es, snapshot, k) && es[k].key.user <= skip' ==>
          skipping && es[k].key.user <= skip)
    && (!skipping' ==> NoneAcross(es, snapshot, pos))
  }

  ghost predicate NoneAcross(es: seq<Entry>, snapshot: nat, pos: nat) {
    forall j, k :: 0 <= j < pos && InSnapshot(es, snapshot, j) && pos <= k < |es| ==> es[j].key.user != es[k].key.user
  }

  lemma NothingScanned(es: seq<Entry>, snapshot: nat, start: nat, skipping: bool, skip: UserKey)
    requires start <= |es|
    requires skipping ==> forall j :: 0 <= j < start && InSnapshot(es, snapshot, j) ==> es[j].key.user <= skip
    requires !skipping ==> NoneAcross(es, snapshot, start)
    ensures Scanned(es, snapshot, start, skipping, skip, start, skipping, skip)
  {
  }

  lemma Passed(es: seq<Entry>, snapshot: nat, start: nat, skipping: bool, skip: UserKey, pos: nat, skipping': bool,
               skip': UserKey)
    requires Scanned(es, snapshot, start, skipping, skip, pos, skipping', skip')
    ensures forall k :: start <= k < pos && Shown(es, snapshot, k) ==> skipping && es[k].key.user <= skip
  {
  }

  /** An entry that is not visible is passed over. */
  lemma PassesFuture(es: seq<Entry>, snapshot: nat, start: nat, skipping: bool, skip: UserKey, pos: nat,
                     skipping': bool, skip': UserKey)
    requires Scanned(es, snapshot, start, skipping, skip, pos, skipping', skip') && pos < |es|
    requires es[pos].key.sequence > snapshot
    ensures Scanned(es, snapshot, start, skipping, skip, pos + 1, skipping', skip')
  {
  }

  /** A deletion marker hides the entries of its key that follow. */
  lemma PassesDeletion(es: seq<Entry>, snapshot: nat, start: nat, skipping: bool, skip: UserKey, pos: nat,
                       skipping': bool, skip': UserKey)
    requires Scanned(es, snapshot, start, skipping, skip, pos, skipping', skip') && pos < |es| && UsersAscend(es)
    requires es[pos].key.sequence <= snapshot && es[pos].key.kind.Deletion?
    requires skipping ==> forall k :: start <= k && InSnapshot(es, snapshot, k) ==> skip <= es[k].key.user
    ensures Scanned(es, snapshot, start, skipping, skip, pos + 1, true, es[pos].key.user)
  {
  }

  /** So are entries of the keys to be skipped. */
  lemma PassesHidden(es: seq<Entry>, snapshot: nat, start: nat, skipping: bool, skip: UserKey, pos: nat, skip': UserKey)
    requires Scanned(es, snapshot, start, skipping, skip, pos, true, skip') && pos < |es|
    requires es[pos].key.sequence <= snapshot && es[pos].key.user <= skip'
    ensures Scanned(es, snapshot, start, skipping, skip, pos + 1, true, skip')
  {
  }

  /** Anything else is the next shown entry. */
  lemma NextIsShown(es: seq<Entry>, snapshot: nat, start: nat, skipping: bool, skip: UserKey, pos: nat, skipping': bool,
                    skip': UserKey)
    requires Scanned(es, snapshot, start, skipping, skip, pos, skipping', skip') && pos < |es|
    requires es[pos].key.sequence <= snapshot && es[pos].key.kind.Value? && !(skipping' && es[pos].key.user <= skip')
    ensures Shown(es, snapshot, pos) && (skipping ==> skip < es[pos].key.user)
  {
  }

  // ---- the iterator --------------------------------------------------------------------------------------

  datatype Direction = Forward | Reverse

  class DBIter {
    const iter: Cursor
    const sequence: nat
    var savedKey: UserKey
    var savedValue: seq<Byte>
    var direction: Direction
    var valid: bool

    /**
     The iterator stands at shown entry `p`, or nowhere if `p` is the end.  Moving forward the internal
     iterator is at `p`; in reverse it is at the last entry in the snapshot before `p`'s key, or invalid.
     */
    ghost predicate At(p: nat)
      reads this, iter
    {
      && UsersAscend(iter.entries) && iter.Ok()
      && (valid <==> p != |iter.entries|)
      && (valid ==> Shown(iter.entries, sequence, p))
      && (valid && direction.Forward? ==> iter.pos == p)
      && (valid && direction.Reverse? ==>
            && savedKey == iter.entries[p].key.user && savedValue == iter.entries[p].value
            && Behind(iter.entries, sequence, p, iter.pos))
    }

    constructor (iter: Cursor, sequence: nat)
      requires Sorted(iter.entries) && iter.Ok()
      ensures At(|iter.entries|) && this.iter == iter && this.sequence == sequence
    {
      this.iter, this.sequence := iter, sequence;
      savedKey, savedValue, direction, valid := 0.0, [], Forward, false;
      new;
      SortedUsersAscend(iter.entries);
    }

    /** key() and value() of the entry the iterator stands at. */
    method KeyValue(ghost p: nat) returns (key: UserKey, value: seq<Byte>)
      requires At(p) && valid
      ensures key == iter.entries[p].key.user && value == iter.entries[p].value
    {
      if direction.Forward? {
        key, value := iter.entries[iter.pos].key.user, iter.entries[iter.pos].value;
      } else {
        key, value := savedKey, savedValue;
      }
    }

    /** SeekToFirst: the first shown entry. */
    method SeekToFirst() returns (ghost p: nat)
      requires UsersAscend(iter.entries)
      modifies this, iter
      ensures At(p) && FirstShown(iter.entries, sequence, 0, p)
    {
      direction := Forward;
      savedValue := [];
      iter.SeekToFirst();
      if iter.Valid() {
        p := FindNextUserEntry(false, 0.0);
      } else {
        valid := false;
        p := |iter.entries|;
      }
    }

    /** SeekToLast: the last shown entry. */
    method SeekToLast() returns (ghost p: nat)
      requires UsersAscend(iter.entries)
      modifies this, iter
      ensures At(p) && LastShown(iter.entries, sequence, |iter.entries|, p)
    {
      direction := Reverse;
      savedValue := [];
      iter.SeekToLast();
      p := FindPrevUserEntry();
    }

    /** Seek: the first shown entry whose user key is at or after the target. */
    method Seek(target: UserKey) returns (ghost p: nat)
      requires UsersAscend(iter.entries)
      modifies this, iter
      ensures At(p)
      ensures p == |iter.entries| || (Shown(iter.entries, sequence, p) && target <= iter.entries[p].key.user)
      ensures forall k :: 0 <= k < p && Shown(iter.entries, sequence, k) ==> iter.entries[k].key.user < target
    {
      direction := Forward;
      savedValue := [];
      iter.Seek(SeekKey(target, sequence));
      ghost var lo := iter.pos;
      assert forall k :: 0 <= k < lo && InSnapshot(iter.entries, sequence, k) ==> iter.entries[k].key.user < target;
      assert lo < |iter.entries| ==> target <= iter.entries[lo].key.user;
      if iter.Valid() {
        p := FindNextUserEntry(false, target);
      } else {
        valid := false;
        p := |iter.entries|;
      }
    }

    /** Next: the first shown entry after the current one, from either direction. */
    method Next(ghost p: nat) returns (ghost p': nat)
      requires At(p) && valid
      modifies this, iter
      ensures At(p') && FirstShown(iter.entries, sequence, p + 1, p')
    {
      if direction.Reverse? {
        direction := Forward;
        if !iter.Valid() {
          iter.SeekToFirst();
        } else {
          iter.Next();
        }
        if !iter.Valid() {
          assert false;  // the source gives up here; the current key's entries are still ahead
        }
      } else {
        savedKey := iter.entries[iter.pos].key.user;
      }
      p' := FindNextUserEntry(true, savedKey);
    }

    /** Prev: the last shown entry before the current one, from either direction. */
    method Prev(ghost p: nat) returns (ghost p': nat)
      requires At(p) && valid
      modifies this, iter
      ensures At(p') && LastShown(iter.entries, sequence, p, p')
    {
      if direction.Forward? {
        savedKey := iter.entries[iter.pos].key.user;
        while true
          invariant valid && direction.Forward? && savedKey == iter.entries[p].key.user
          invariant iter.Ok() && iter.pos <= p
          invariant forall k :: iter.pos <= k <= p ==> iter.entries[k].key.user == savedKey
          decreases iter.pos
        {
          iter.Prev();
          if !iter.Valid() {
            valid := false;
            savedValue := [];
            p' := |iter.entries|;
            return;
          }
          if iter.entries[iter.pos].key.user < savedKey {
            break;
          }
        }
        direction := Reverse;
      }
      p' := FindPrevUserEntry();
    }

    /** FindNextUserEntry: the next acceptable entry, past `skip` if skipping. */
    method FindNextUserEntry(skipping: bool, skip: UserKey) returns (ghost p: nat)
      requires UsersAscend(iter.entries) && iter.Valid() && direction.Forward?
      requires skipping ==> forall k :: iter.pos <= k && InSnapshot(iter.entries, sequence, k) ==>
                                          skip <= iter.entries[k].key.user
      requires skipping ==> forall j :: 0 <= j < iter.pos && InSnapshot(iter.entries, sequence, j) ==>
                                          iter.entries[j].key.user <= skip
      requires !skipping ==> NoneAcross(iter.entries, sequence, iter.pos)
      modifies this, iter
      ensures At(p) && direction.Forward?
      ensures p == |iter.entries| || old(iter.pos) <= p
      ensures p < |iter.entries| && skipping ==> skip < iter.entries[p].key.user
      ensures forall k :: old(iter.pos) <= k < p && Shown(iter.entries, sequence, k) ==>
                skipping && iter.entries[k].key.user <= skip
    {
      hide Scanned, Shown, UsersAscend;
      var es := iter.entries;
      var skipping', skip' := skipping, skip;
      NothingScanned(es, sequence, iter.pos, skipping, skip);
      while true
        invariant iter.Valid() && direction.Forward?
        invariant Scanned(es, sequence, old(iter.pos), skipping, skip, iter.pos, skipping', skip')
        decreases |es| - iter.pos
      {
        var e := es[iter.pos];
        if e.key.sequence <= sequence {
          if e.key.kind.Deletion? {
            PassesDeletion(es, sequence, old(iter.pos), skipping, skip, iter.pos, skipping', skip');
            skip' := e.key.user;
            skipping' := true;
          } else if skipping' && e.key.user <= skip' {
            PassesHidden(es, sequence, old(iter.pos), skipping, skip, iter.pos, skip');
          } else {
            NextIsShown(es, sequence, old(iter.pos), skipping, skip, iter.pos, skipping', skip');
            valid := true;
            savedKey := 0.0;
            p := iter.pos;
            Passed(es, sequence, old(iter.pos), skipping, skip, p, skipping', skip');
            return;
          }
        } else {
          PassesFuture(es, sequence, old(iter.pos), skipping, skip, iter.pos, skipping', skip');
        }
        iter.Next();
        if !iter.Valid() {
          break;
        }
      }
      savedKey := 0.0;
      valid := false;
      p := |es|;
      Passed(es, sequence, old(iter.pos), skipping, skip, p, skipping', skip');
    }

    /** FindPrevUserEntry: scan back until an earlier key's entry shows that the saved one is complete. */
    method FindPrevUserEntry() returns (ghost p: nat)
      requires UsersAscend(iter.entries) && iter.Ok() && direction.Reverse?
      modifies this, iter
      ensures At(p)
      ensures LastShown(iter.entries, sequence, if old(iter.Valid()) then old(iter.pos) + 1 else 0, p)
    {
      var es := iter.entries;
      var kind := Deletion;
      ghost var hi := if iter.Valid() then iter.pos + 1 else 0;
      ghost var c := hi;        // entries [c, hi) have been looked at
      ghost var v := |es|;      // the lowest of them in the snapshot
      while iter.Valid()
        invariant c <= hi <= |es| && iter.Ok() && direction.Reverse?
        invariant iter.pos == if c == 0 then |es| else c - 1
        invariant c <= v && (v < hi || v == |es|)
        invariant forall k :: c <= k < hi && k < v ==> !InSnapshot(es, sequence, k)
        invariant forall k :: c <= k < hi && Shown(es, sequence, k) ==> k == v && kind.Value?
        invariant kind.Value? ==> v < hi && InSnapshot(es, sequence, v) && es[v].key.kind.Value?
                                  && savedKey == es[v].key.user && savedValue == es[v].value
        decreases c
      {
        var e := es[iter.pos];
        if e.key.sequence <= sequence {
          if !kind.Deletion? && e.key.user < savedKey {
            break;
          }
          kind := e.key.kind;
          v := iter.pos;
          if kind.Deletion? {
            savedKey, savedValue := 0.0, [];
          } else {
            savedKey, savedValue := e.key.user, e.value;
          }
        }
        iter.Prev();
        c := c - 1;
      }
      if kind.Deletion? {
        valid := false;
        savedKey, savedValue := 0.0, [];
        direction := Forward;
        p := |es|;
      } else {
        valid := true;
        p := v;
        assert iter.Valid() ==> es[iter.pos].key.user < es[v].key.user;
        forall j | 0 <= j < v && es[j].key.user == es[v].key.user
          ensures es[j].key.sequence > sequence
        {
          assert !InSnapshot(es, sequence, j);
        }
      }
    }
  }

  /** In reverse: nothing in the snapshot lies between the internal iterator and the current key. */
  ghost predicate Behind(es: seq<Entry>, snapshot: nat, p: nat, pos: nat)
    requires p < |es|
  {
    if pos == |es| then
      forall k :: 0 <= k < p && InSnapshot(es, snapshot, k) ==> es[k].key.user == es[p].key.user
    else
      && pos < p && es[pos].key.user < es[p].key.user
      && forall k :: pos < k < p && InSnapshot(es, snapshot, k) ==> es[k].key.user == es[p].key.user
  }
}
