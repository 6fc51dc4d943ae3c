/**
 TwoLevelIterator (table/two_level_iterator.cc): an index cursor whose values name blocks, and a cursor in
 the block at hand, together a cursor over all the blocks laid end to end.
 */
module TwoLevel {
  import opened Keys
  import opened Cursors

  /** The blocks laid end to end. */
  function Concat<T>(blocks: seq<seq<T>>): seq<T> {
    if blocks == [] then [] else Concat(blocks[..|blocks| - 1]) + blocks[|blocks| - 1]
  }

  /** Where block `i` begins. */
  function Start<T>(blocks: seq<seq<T>>, i: nat): nat
    requires i <= |blocks|
  {
    |Concat(blocks[..i])|
  }

  lemma NextStart<T>(blocks: seq<seq<T>>, i: nat)
    requires i < |blocks|
    ensures Start(blocks, i + 1) == Start(blocks, i) + |blocks[i]|
  {
    assert blocks[..i + 1][..i] == blocks[..i];
  }

  lemma Ends<T>(blocks: seq<seq<T>>)
    ensures Start(blocks, 0) == 0 && Start(blocks, |blocks|) == |Concat(blocks)|
  {
    assert blocks[..|blocks|] == blocks;
  }

  /** Entry `p` of block `i` in the whole. */
  lemma {:induction false} InConcat<T>(blocks: seq<seq<T>>, i: nat, p: nat)
    requires i < |blocks| && p < |blocks[i]|
    ensures Start(blocks, i) + p < |Concat(blocks)| && Concat(blocks)[Start(blocks, i) + p] == blocks[i][p]
  {
    var n := |blocks| - 1;
    if i < n {
      InConcat(blocks[..n], i, p);
      assert blocks[..n][..i] == blocks[..i];
    }
  }

  /** Every entry of the whole is an entry of a block. */
  lemma {:induction false} FromConcat<T>(blocks: seq<seq<T>>, q: nat) returns (i: nat, p: nat)
    requires q < |Concat(blocks)|
    ensures i < |blocks| && p < |blocks[i]| && q == Start(blocks, i) + p && Concat(blocks)[q] == blocks[i][p]
  {
    var n := |blocks| - 1;
    if q < |Concat(blocks[..n])| {
      i, p := FromConcat(blocks[..n], q);
      assert blocks[..n][..i] == blocks[..i];
    } else {
      i, p := n, q - |Concat(blocks[..n])|;
    }
  }

  lemma {:induction false} StartsAscend<T>(blocks: seq<seq<T>>, i: nat, j: nat)
    requires i <= j <= |blocks|
    ensures Start(blocks, i) <= Start(blocks, j)
    decreases j - i
  {
    if i < j {
      NextStart(blocks, i);
      StartsAscend(blocks, i + 1, j);
    }
  }

  function BlocksOf(index: seq<Entry>, blockFunction: seq<Byte> -> seq<Entry>): (r: seq<seq<Entry>>)
    ensures |r| == |index| && forall i :: 0 <= i < |r| ==> r[i] == blockFunction(index[i].value)
  {
    seq(|index|, i requires 0 <= i < |index| => blockFunction(index[i].value))
  }

  /** An index key is at or after the keys of its own block, and before those of later blocks. */
  ghost predicate SoundIndex(index: seq<Entry>, blocks: seq<seq<Entry>>) {
    && |index| == |blocks|
    && (forall i, p :: 0 <= i < |blocks| && 0 <= p < |blocks[i]| ==> !Before(index[i].key, blocks[i][p].key))
    && forall i, j, p :: 0 <= i < j < |blocks| && 0 <= p < |blocks[j]| ==> Before(index[i].key, blocks[j][p].key)
  }

  lemma IsTheLowerBound(es: seq<Entry>, target: InternalKey, r: nat)
    requires r <= |es|
    requires forall i :: 0 <= i < r ==> Before(es[i].key, target)
    requires r < |es| ==> !Before(es[r].key, target)
    ensures r == LowerBound(es, target)
  {
  }

  /** Seeking in the index and then in the one block it names is seeking in the whole. */
  lemma SeekInTwoLevels(index: seq<Entry>, blocks: seq<seq<Entry>>, target: InternalKey)
    requires SoundIndex(index, blocks)
    ensures var i := LowerBound(index, target);
      LowerBound(Concat(blocks), target)
      == if i < |blocks| then Start(blocks, i) + LowerBound(blocks[i], target) else |Concat(blocks)|
  {
    var all, i := Concat(blocks), LowerBound(index, target);
    Ends(blocks);
    var r := if i < |blocks| then Start(blocks, i) + LowerBound(blocks[i], target) else |all|;
    if i < |blocks| {
      NextStart(blocks, i);
      StartsAscend(blocks, i + 1, |blocks|);
    }
    forall q | 0 <= q < |all|
      ensures q < r ==> Before(all[q].key, target)
      ensures q == r ==> !Before(all[q].key, target)
    {
      var j, p := FromConcat(blocks, q);
      if j < i {
        StartsAscend(blocks, j + 1, i);
        NextStart(blocks, j);
        assert !Before(index[j].key, blocks[j][p].key) && Before(index[j].key, target);
      } else if j > i {
        StartsAscend(blocks, i + 1, j);
        assert Before(index[i].key, blocks[j][p].key);
      }
    }
    IsTheLowerBound(all, target, r);
  }

  class TwoLevelIterator {
    const index: Cursor
    const blockFunction: seq<Byte> -> seq<Entry>
    var data: Cursor?
    var dataBlockHandle: seq<Byte>

    ghost function Footprint(): set<object>
      reads this
    {
      {this, index} + if data == null then {} else {data}
    }

    ghost function Blocks(): seq<seq<Entry>> {
      BlocksOf(index.entries, blockFunction)
    }

    /** There is a data cursor just when the index cursor is valid, and it is in the block named there. */
    ghost predicate Good()
      reads Footprint()
    {
      && index.Ok()
      && (data != null <==> index.Valid())
      && (data != null ==>
            && data != index && data.Ok()
            && dataBlockHandle == index.entries[index.pos].value && data.entries == blockFunction(dataBlockHandle))
    }

    /** What lies before the cursor in the whole. */
    ghost function Pos(): nat
      requires Good()
      reads Footprint()
    {
      if data == null then |Concat(Blocks())| else Start(Blocks(), index.pos) + data.pos
    }

    ghost predicate At(pos: nat)
      reads Footprint()
    {
      Good() && Pos() == pos && (data != null ==> data.Valid())
    }

    constructor (index: Cursor, blockFunction: seq<Byte> -> seq<Entry>)
      requires index.Ok() && !index.Valid()
      ensures this.index == index && this.blockFunction == blockFunction
      ensures Footprint() == {this, index} && At(|Concat(Blocks())|)
    {
      this.index, this.blockFunction, data, dataBlockHandle := index, blockFunction, null, [];
    }

    predicate Valid()
      reads this, data
    {
      data != null && data.Valid()
    }

    /** Valid exactly at the positions of the whole, and there with the entry of that position. */
    method KeyValue(ghost pos: nat) returns (e: Entry)
      requires At(pos) && Valid()
      ensures pos < |Concat(Blocks())| && e == Concat(Blocks())[pos]
    {
      e := data.entries[data.pos];
      InConcat(Blocks(), index.pos, data.pos);
    }

    method InitDataBlock()
      requires index.Ok()
      requires data != null ==> data != index && data.Ok() && data.entries == blockFunction(dataBlockHandle)
      modifies this
      ensures Good() && (data == old(data) || data == null || fresh(data))
    {
      if !index.Valid() {
        data := null;
      } else {
        var handle := index.entries[index.pos].value;
        if data != null && handle == dataBlockHandle {
          // The data cursor is on this block already.
        } else {
          data := new Cursor(blockFunction(handle));
          dataBlockHandle := handle;
        }
      }
    }

    /** Skipping empty blocks forward does not move the cursor in the whole. */
    method SkipEmptyDataBlocksForward()
      requires Good()
      modifies Footprint()
      ensures At(old(Pos())) && fresh(Footprint() - old(Footprint()))
    {
      hide Start, Concat, BlocksOf;
      while data == null || !data.Valid()
        invariant Good() && Pos() == old(Pos()) && fresh(Footprint() - old(Footprint()))
        decreases if data == null then 0 else 1, |index.entries| - index.pos
      {
        if !index.Valid() {
          data := null;
          return;
        }
        NextStart(Blocks(), index.pos);
        Ends(Blocks());
        index.Next();
        InitDataBlock();
        if data != null {
          data.SeekToFirst();
        }
      }
    }

    /** From the end of an empty or exhausted block, the cursor goes to the last entry before that block. */
    method SkipEmptyDataBlocksBackward()
      requires Good()
      modifies Footprint()
      ensures old(data != null && data.Valid()) ==> At(old(Pos()))
      ensures old(data == null) ==> At(|Concat(Blocks())|)
      ensures old(data != null && !data.Valid()) ==>
                At(old(if Start(Blocks(), index.pos) == 0 then |Concat(Blocks())| else Start(Blocks(), index.pos) - 1))
      ensures fresh(Footprint() - old(Footprint()))
    {
      hide Start, Concat, BlocksOf;
      ghost var n := |Concat(Blocks())|;
      ghost var goal := if data == null then n else if data.Valid() then Pos() else
                          if Start(Blocks(), index.pos) == 0 then n else Start(Blocks(), index.pos) - 1;
      while data == null || !data.Valid()
        invariant Good() && fresh(Footprint() - old(Footprint()))
        invariant goal == if data == null then n else if data.Valid() then Pos() else
                            if Start(Blocks(), index.pos) == 0 then n else Start(Blocks(), index.pos) - 1
        decreases if data == null then 0 else index.pos + 1
      {
        if !index.Valid() {
          data := null;
          return;
        }
        Ends(Blocks());
        if index.pos > 0 {
          NextStart(Blocks(), index.pos - 1);
        }
        index.Prev();
        InitDataBlock();
        if data != null {
          data.SeekToLast();
        }
      }
    }

    method SeekToFirst()
      requires Good()
      modifies Footprint()
      ensures At(0) && fresh(Footprint() - old(Footprint()))
    {
      hide Start, Concat, BlocksOf;
      index.SeekToFirst();
      InitDataBlock();
      if data != null {
        data.SeekToFirst();
      }
      Ends(Blocks());
      SkipEmptyDataBlocksForward();
    }

    method SeekToLast()
      requires Good()
      modifies Footprint()
      ensures var n := |Concat(Blocks())|; At(if n == 0 then 0 else n - 1)
      ensures fresh(Footprint() - old(Footprint()))
    {
      hide Start, Concat, BlocksOf;
      index.SeekToLast();
      InitDataBlock();
      if data != null {
        data.SeekToLast();
        NextStart(Blocks(), index.pos);
      }
      Ends(Blocks());
      SkipEmptyDataBlocksBackward();
    }

    method Next()
      requires Good() && Valid()
      modifies Footprint()
      ensures At(old(Pos()) + 1) && fresh(Footprint() - old(Footprint()))
    {
      data.Next();
      SkipEmptyDataBlocksForward();
    }

    method Prev()
      requires Good() && Valid()
      modifies Footprint()
      ensures At(if old(Pos()) == 0 then |Concat(Blocks())| else old(Pos()) - 1)
      ensures fresh(Footprint() - old(Footprint()))
    {
      data.Prev();
      SkipEmptyDataBlocksBackward();
    }

    method Seek(target: InternalKey)
      requires Good() && SoundIndex(index.entries, Blocks())
      modifies Footprint()
      ensures At(LowerBound(Concat(Blocks()), target)) && fresh(Footprint() - old(Footprint()))
    {
      hide Start, Concat, BlocksOf, LowerBound, SoundIndex;
      SeekInTwoLevels(index.entries, Blocks(), target);
      index.Seek(target);
      InitDataBlock();
      if data != null {
        data.Seek(target);
      }
      SkipEmptyDataBlocksForward();
    }
  }
}
