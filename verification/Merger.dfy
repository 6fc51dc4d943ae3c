/**
 MergingIterator (table/merger.cc): a cursor over the sorted merge of its children, in both directions.
 */
module Merger {
  import opened Options
  import opened Keys
  import opened Cursors

  datatype Direction = Forward | Reverse

  /** Some child holds an entry with this key. */
  ghost predicate Present(runs: seq<seq<Entry>>, k: InternalKey) {
    exists i, j :: 0 <= i < |runs| && 0 <= j < |runs[i]| && runs[i][j].key == k
  }

  /** Each child is sorted and no key occurs in two children. */
  ghost predicate GoodRuns(runs: seq<seq<Entry>>) {
    && (forall i :: 0 <= i < |runs| ==> Sorted(runs[i]))
    && forall i, j, a, b :: 0 <= i < |runs| && 0 <= j < |runs| && i != j
                            && 0 <= a < |runs[i]| && 0 <= b < |runs[j]|
                            ==> Strict(runs[i][a].key, runs[j][b].key)
  }

  predicate Strict(a: InternalKey, b: InternalKey) {
    Before(a, b) || Before(b, a)
  }

  /** `k` is not before `t`; with `strict`, it comes after `t`.  No `t` is minus infinity. */
  predicate From(t: Option<InternalKey>, strict: bool, k: InternalKey) {
    t.None? || if strict then Before(t.value, k) else !Before(k, t.value)
  }

  /** `k` is before `t`.  No `t` is plus infinity. */
  predicate UpTo(t: Option<InternalKey>, k: InternalKey) {
    t.None? || Before(k, t.value)
  }

  /** `r` is the least present key from `t` on. */
  ghost predicate LeastFrom(runs: seq<seq<Entry>>, t: Option<InternalKey>, strict: bool, r: Option<InternalKey>) {
    && (r.Some? ==> Present(runs, r.value) && From(t, strict, r.value))
    && forall k :: Present(runs, k) && From(t, strict, k) ==> r.Some? && !Before(k, r.value)
  }

  /** `r` is the greatest present key before `t`. */
  ghost predicate GreatestBefore(runs: seq<seq<Entry>>, t: Option<InternalKey>, r: Option<InternalKey>) {
    && (r.Some? ==> Present(runs, r.value) && UpTo(t, r.value))
    && forall k :: Present(runs, k) && UpTo(t, k) ==> r.Some? && !Before(r.value, k)
  }

  /** A child's position separates its keys from `t` on from the earlier ones. */
  ghost predicate Splits(es: seq<Entry>, pos: nat, t: Option<InternalKey>, strict: bool) {
    && pos <= |es|
    && (forall i :: 0 <= i < pos ==> !From(t, strict, es[i].key))
    && forall i :: pos <= i < |es| ==> From(t, strict, es[i].key)
  }

  /** A child stands at its last key before `t`, or is invalid if it has none. */
  ghost predicate EndsBefore(es: seq<Entry>, pos: nat, t: Option<InternalKey>) {
    if pos >= |es| then
      pos == |es| && forall i :: 0 <= i < |es| ==> !UpTo(t, es[i].key)
    else
      && (forall i :: 0 <= i <= pos ==> UpTo(t, es[i].key))
      && forall i :: pos < i < |es| ==> !UpTo(t, es[i].key)
  }

  class MergingIterator {
    const children: seq<Cursor>
    const runs: seq<seq<Entry>>
    var current: int          // index of current_, -1 for null
    var direction: Direction

    ghost predicate Good()
      reads this, children
    {
      && |runs| == |children| && GoodRuns(runs)
      && (forall i :: 0 <= i < |children| ==> children[i].entries == runs[i] && children[i].Ok())
      && (forall i, j :: 0 <= i < j < |children| ==> children[i] != children[j])
      && -1 <= current < |children|
    }

    /** The iterator stands at key `k`, or nowhere. */
    ghost predicate At(k: Option<InternalKey>)
      reads this, children
    {
      && Good()
      && (current == -1 <==> k.None?)
      && (k.Some? ==>
            && children[current].Valid() && runs[current][children[current].pos].key == k.value
            && Splits(runs[current], children[current].pos, k, false)
            && forall i :: 0 <= i < |children| && i != current ==>
                 if direction.Forward? then Splits(runs[i], children[i].pos, k, false)
                 else EndsBefore(runs[i], children[i].pos, k))
    }

    constructor (children: seq<Cursor>)
      requires GoodRuns(Runs(children))
      requires forall i :: 0 <= i < |children| ==> children[i].Ok()
      requires forall i, j :: 0 <= i < j < |children| ==> children[i] != children[j]
      ensures At(None) && this.children == children && runs == Runs(children)
    {
      this.children, this.runs := children, Runs(children);
      current, direction := -1, Forward;
    }

    static function Runs(children: seq<Cursor>): seq<seq<Entry>> {
      seq(|children|, i requires 0 <= i < |children| => children[i].entries)
    }

    method KeyValue(ghost k: InternalKey) returns (key: InternalKey, value: seq<Byte>)
      requires At(Some(k))
      ensures key == k && exists i, j :: 0 <= i < |runs| && 0 <= j < |runs[i]| && runs[i][j] == Entry(key, value)
    {
      var e := children[current].entries[children[current].pos];
      key, value := e.key, e.value;
      assert runs[current][children[current].pos] == Entry(key, value);
    }

    /** FindSmallest: the child standing at the least key. */
    method FindSmallest()
      requires Good()
      modifies this`current
      ensures Good() && AtSmallest()
    {
      var smallest := -1;
      for i := 0 to |children|
        invariant -1 <= smallest < i
        invariant smallest == -1 ==> forall j :: 0 <= j < i ==> !children[j].Valid()
        invariant smallest != -1 ==> children[smallest].Valid() && forall j ::
                    0 <= j < i && children[j].Valid() && j != smallest ==>
                    Before(runs[smallest][children[smallest].pos].key, runs[j][children[j].pos].key)
      {
        var child := children[i];
        if child.Valid() {
          if smallest == -1 {
            smallest := i;
          } else {
            var least := children[smallest];
            assert Strict(runs[i][child.pos].key, runs[smallest][least.pos].key);
            if Before(child.entries[child.pos].key, least.entries[least.pos].key) {
              smallest := i;
            }
          }
        }
      }
      current := smallest;
    }

    /** FindLargest: the child standing at the greatest key, looked for from the back. */
    method FindLargest()
      requires Good()
      modifies this`current
      ensures Good() && AtLargest()
    {
      var largest := -1;
      for i := |children| downto 0
        invariant largest == -1 || i <= largest < |children|
        invariant largest == -1 ==> forall j :: i <= j < |children| ==> !children[j].Valid()
        invariant largest != -1 ==> children[largest].Valid() && forall j ::
                    i <= j < |children| && children[j].Valid() && j != largest ==>
                    Before(runs[j][children[j].pos].key, runs[largest][children[largest].pos].key)
      {
        var child := children[i];
        if child.Valid() {
          if largest == -1 {
            largest := i;
          } else {
            var most := children[largest];
            assert Strict(runs[i][child.pos].key, runs[largest][most.pos].key);
            if Before(most.entries[most.pos].key, child.entries[child.pos].key) {
              largest := i;
            }
          }
        }
      }
      current := largest;
    }

    // ---- the moves ---------------------------------------------------------------------------------------

    ghost function Key(): Option<InternalKey>
      requires Good() && (current != -1 ==> children[current].Valid())
      reads this, children
    {
      if current == -1 then None else Some(runs[current][children[current].pos].key)
    }

    /** What FindSmallest leaves behind. */
    ghost predicate AtSmallest()
      requires Good()
      reads this, children
    {
      if current == -1 then forall i :: 0 <= i < |children| ==> !children[i].Valid()
      else children[current].Valid() && forall i ::
        0 <= i < |children| && children[i].Valid() && i != current ==>
        Before(runs[current][children[current].pos].key, runs[i][children[i].pos].key)
    }

    ghost predicate AtLargest()
      requires Good()
      reads this, children
    {
      if current == -1 then forall i :: 0 <= i < |children| ==> !children[i].Valid()
      else children[current].Valid() && forall i ::
        0 <= i < |children| && children[i].Valid() && i != current ==>
        Before(runs[i][children[i].pos].key, runs[current][children[current].pos].key)
    }

    lemma SmallestIsLeast(t: Option<InternalKey>, strict: bool)
      requires Good() && AtSmallest()
      requires forall i :: 0 <= i < |children| ==> Splits(runs[i], children[i].pos, t, strict)
      ensures LeastFrom(runs, t, strict, Key())
      ensures current != -1 ==> forall i :: 0 <= i < |children| ==> Splits(runs[i], children[i].pos, Key(), false)
    {
      forall i, j | 0 <= i < |runs| && 0 <= j < |runs[i]| && From(t, strict, runs[i][j].key)
        ensures current != -1 && !Before(runs[i][j].key, Key().value)
      {
        assert Splits(runs[i], children[i].pos, t, strict);
        assert children[i].pos <= j;
        assert children[i].pos < j ==> Before(runs[i][children[i].pos].key, runs[i][j].key);
      }
      if current != -1 {
        forall i | 0 <= i < |children|
          ensures Splits(runs[i], children[i].pos, Key(), false)
        {
          assert Splits(runs[i], children[i].pos, t, strict);
          assert Splits(runs[current], children[current].pos, t, strict);
        }
      }
    }

    lemma LargestIsGreatest(t: Option<InternalKey>)
      requires Good() && AtLargest()
      requires forall i :: 0 <= i < |children| ==> EndsBefore(runs[i], children[i].pos, t)
      ensures GreatestBefore(runs, t, Key())
      ensures current != -1 ==> Splits(runs[current], children[current].pos, Key(), false)
      ensures current != -1 ==> forall i :: 0 <= i < |children| && i != current ==>
                EndsBefore(runs[i], children[i].pos, Key())
    {
      forall i, j | 0 <= i < |runs| && 0 <= j < |runs[i]| && UpTo(t, runs[i][j].key)
        ensures current != -1 && !Before(Key().value, runs[i][j].key)
      {
        assert EndsBefore(runs[i], children[i].pos, t);
        assert j <= children[i].pos < |runs[i]|;
        assert j < children[i].pos ==> Before(runs[i][j].key, runs[i][children[i].pos].key);
      }
      if current != -1 {
        assert EndsBefore(runs[current], children[current].pos, t);
        assert forall j :: 0 <= j < children[current].pos ==>
          Before(runs[current][j].key, runs[current][children[current].pos].key);
        assert forall j :: children[current].pos < j < |runs[current]| ==>
          Before(runs[current][children[current].pos].key, runs[current][j].key);
        forall i | 0 <= i < |children| && i != current
          ensures EndsBefore(runs[i], children[i].pos, Key())
        {
          assert EndsBefore(runs[i], children[i].pos, t);
          forall j | 0 <= j < |runs[i]|
            ensures children[i].Valid() && j <= children[i].pos ==> Before(runs[i][j].key, Key().value)
          {
            assert children[i].Valid() && j < children[i].pos ==> Before(runs[i][j].key, runs[i][children[i].pos].key);
          }
        }
      }
    }

    method SeekToFirst() returns (ghost k: Option<InternalKey>)
      requires Good()
      modifies this, children
      ensures At(k) && LeastFrom(runs, None, false, k)
    {
      for i := 0 to |children|
        invariant Good()
        invariant forall j :: 0 <= j < i ==> Splits(runs[j], children[j].pos, None, false)
      {
        children[i].SeekToFirst();
      }
      FindSmallest();
      direction := Forward;
      SmallestIsLeast(None, false);
      k := Key();
    }

    method SeekToLast() returns (ghost k: Option<InternalKey>)
      requires Good()
      modifies this, children
      ensures At(k) && GreatestBefore(runs, None, k)
    {
      for i := 0 to |children|
        invariant Good()
        invariant forall j :: 0 <= j < i ==> EndsBefore(runs[j], children[j].pos, None)
      {
        children[i].SeekToLast();
      }
      FindLargest();
      direction := Reverse;
      LargestIsGreatest(None);
      k := Key();
    }

    method Seek(target: InternalKey) returns (ghost k: Option<InternalKey>)
      requires Good()
      modifies this, children
      ensures At(k) && LeastFrom(runs, Some(target), false, k)
    {
      for i := 0 to |children|
        invariant Good()
        invariant forall j :: 0 <= j < i ==> Splits(runs[j], children[j].pos, Some(target), false)
      {
        SeekChild(i, target);
      }
      FindSmallest();
      direction := Forward;
      SmallestIsLeast(Some(target), false);
      k := Key();
    }

    /** Brings a child to the first key at or after `key`. */
    method SeekChild(i: nat, key: InternalKey)
      requires Good() && i < |children|
      modifies children[i]
      ensures Good() && Splits(runs[i], children[i].pos, Some(key), false)
    {
      children[i].Seek(key);
      LowerBoundSplits(runs[i], key);
    }

    /** Brings a child to its last key before `key`: one step back from the first that is not, or its end. */
    method SeekChildBefore(i: nat, key: InternalKey)
      requires Good() && i < |children|
      modifies children[i]
      ensures Good() && EndsBefore(runs[i], children[i].pos, Some(key))
    {
      hide EndsBefore, Splits;
      var child := children[i];
      SeekChild(i, key);
      SplitEndsBefore(runs[i], child.pos, key);
      if child.Valid() {
        child.Prev();
      } else {
        child.SeekToLast();
      }
    }

    /** Next: after a reverse move every other child is first brought past the current key. */
    method Next(ghost k: InternalKey) returns (ghost k': Option<InternalKey>)
      requires At(Some(k))
      modifies this, children
      ensures At(k') && LeastFrom(runs, Some(k), true, k')
    {
      hide Splits, GoodRuns, From, Before, LeastFrom;
      ghost var at := children[current].pos;
      if direction != Forward {
        OthersPast(k);
        direction := Forward;
      }
      forall i | 0 <= i < |children|
        ensures Splits(runs[i], if i == current then at + 1 else children[i].pos, Some(k), true)
      {
        PastCurrent(runs, current, at, i, if i == current then at else children[i].pos);
      }
      children[current].Next();
      FindSmallest();
      SmallestIsLeast(Some(k), true);
      k' := Key();
    }

    /** The loop of Next that seeks the other children. */
    method OthersPast(ghost k: InternalKey)
      requires Good() && 0 <= current && children[current].Valid() && runs[current][children[current].pos].key == k
      modifies set i | 0 <= i < |children| && i != current :: children[i]
      ensures Good() && children[current].pos == old(children[current].pos)
      ensures forall i :: 0 <= i < |children| && i != current ==> Splits(runs[i], children[i].pos, Some(k), false)
    {
      hide Splits, GoodRuns;
      var key := children[current].entries[children[current].pos].key;
      for i := 0 to |children|
        invariant Good() && children[current].pos == old(children[current].pos)
        invariant forall j :: 0 <= j < i && j != current ==> Splits(runs[j], children[j].pos, Some(k), false)
      {
        if i != current {
          SeekChild(i, key);
          var child := children[i];
          if child.Valid() && child.entries[child.pos].key == key {
            KeysDiffer(runs, i, child.pos, current, children[current].pos);
            assert false;  // the source steps over an equal key; keys are distinct
          }
        }
      }
    }

    /** Prev: after a forward move every other child is first brought before the current key. */
    method Prev(ghost k: InternalKey) returns (ghost k': Option<InternalKey>)
      requires At(Some(k))
      modifies this, children
      ensures At(k') && GreatestBefore(runs, Some(k), k')
    {
      hide EndsBefore, GreatestBefore, From, UpTo, Before, Strict, LowerBound;
      ghost var at := children[current].pos;
      if direction != Reverse {
        var key := children[current].entries[children[current].pos].key;
        for i := 0 to |children|
          invariant Good() && current == old(current) && children[current].pos == at
          invariant forall j :: 0 <= j < i && j != current ==> EndsBefore(runs[j], children[j].pos, Some(k))
        {
          if i != current {
            SeekChildBefore(i, key);
          }
        }
        direction := Reverse;
      }
      SplitEndsBefore(runs[current], at, k);
      hide Splits, GoodRuns;
      children[current].Prev();
      FindLargest();
      LargestIsGreatest(Some(k));
      k' := Key();
    }
  }

  lemma LowerBoundSplits(es: seq<Entry>, t: InternalKey)
    requires Sorted(es)
    ensures Splits(es, LowerBound(es, t), Some(t), false)
  {
    var r := LowerBound(es, t);
    forall i | r <= i < |es|
      ensures !Before(es[i].key, t)
    {
      assert r < i ==> Before(es[r].key, es[i].key);
    }
  }

  /** One step back from the first key not before `k`, or the last entry if there is none. */
  lemma SplitEndsBefore(es: seq<Entry>, pos: nat, k: InternalKey)
    requires Splits(es, pos, Some(k), false)
    ensures EndsBefore(es, if pos == 0 then |es| else pos - 1, Some(k))
  {
  }

  lemma KeysDiffer(runs: seq<seq<Entry>>, i: nat, a: nat, j: nat, b: nat)
    requires GoodRuns(runs) && i < |runs| && j < |runs| && i != j && a < |runs[i]| && b < |runs[j]|
    ensures runs[i][a].key != runs[j][b].key
  {
    assert Strict(runs[i][a].key, runs[j][b].key);
  }

  /** Keys are distinct, so past the current key the other children need not move. */
  lemma PastCurrent(runs: seq<seq<Entry>>, current: nat, at: nat, i: nat, pos: nat)
    requires GoodRuns(runs) && current < |runs| && at < |runs[current]| && i < |runs|
    requires i == current ==> pos == at
    requires Splits(runs[i], pos, Some(runs[current][at].key), false)
    ensures Splits(runs[i], if i == current then at + 1 else pos, Some(runs[current][at].key), true)
  {
    var k := runs[current][at].key;
    forall j | pos <= j < |runs[i]| && (i != current || j > at)
      ensures Before(k, runs[i][j].key)
    {
      if i != current {
        assert Strict(runs[i][j].key, runs[current][at].key);
      }
    }
  }
}
