/**
 Building tables (table/table_builder.cc).  The index entry of a block is held back until the first key of
 the next block is known.
 */
module TableBuilder {
  import opened Options
  import opened Keys
  import opened Coding
  import opened Separators
  import opened TwoLevel
  import opened FilterBlock
  import opened BlockBuilder
  import opened Table
  import opened BlockRows
  import opened TableFormat
  import opened TableFile

  /** File offsets are kept from wrapping around. */
  const MAX_OFFSET: nat := 0x8000_0000_0000_0000

  /** The parts of Options that a table builder looks at. */
  datatype TableOptions = TableOptions(policy: Policy, policyName: Bytes, filtering: bool, codec: Codec, snappy: bool,
                                       restartInterval: nat)

  ghost predicate GoodOptions(o: TableOptions) {
    1 <= o.policy.k <= 30 && Inverse(o.codec) && o.restartInterval >= 1 && |o.policyName| + 100 <= MAX_UINT32
  }

  // ---- rows in runs --------------------------------------------------------------------------------------

  /** The finished blocks, and the block at hand unless it is empty. */
  function AllRuns(blocks: seq<Stored>, dataBlock: seq<Row>): seq<seq<Row>> {
    Runs(blocks) + if dataBlock == [] then [] else [dataBlock]
  }

  lemma SortedAppend(rows: seq<Row>, row: Row)
    requires SortedRows(rows)
    requires rows != [] ==> Before(Last(rows), Ranked(row.key))
    ensures SortedRows(rows + [row])
  {
    var n := |rows|;
    forall i, j | 0 <= i < j < n + 1
      ensures Before(Ranked((rows + [row])[i].key), Ranked((rows + [row])[j].key))
    {
      if j == n && i < n - 1 {
        assert Before(Ranked(rows[i].key), Ranked(rows[n - 1].key));
      }
    }
  }

  /** The index entry of the last block, once the first row after it is known. */
  lemma IndexGrows(blocks: seq<Stored>, index: seq<Row>, entry: Row, row: Row)
    requires Indexed(Runs(blocks), blocks, index) && |index| + 1 == |blocks|
    requires var last := blocks[|blocks| - 1];
      entry.value == EncodeHandle(last.offset, last.size) && last.rows != []
      && IsSeparator(Last(last.rows), Ranked(entry.key), Ranked(row.key))
    ensures Indexed(AllRuns(blocks, [row]), blocks, index + [entry])
  {
    hide EncodeHandle, Ranked;
    var runs, after := Runs(blocks), AllRuns(blocks, [row]);
    forall i | 0 <= i < |index + [entry]|
      ensures Separated(after, blocks, index + [entry], i)
    {
      if i < |index| {
        assert Separated(runs, blocks, index, i);
        assert after[i + 1] == runs[i + 1];
      }
    }
  }

  /** A row added to the block at hand changes no separator. */
  lemma IndexStands(blocks: seq<Stored>, dataBlock: seq<Row>, index: seq<Row>, row: Row)
    requires Indexed(AllRuns(blocks, dataBlock), blocks, index) && |index| == |blocks|
    requires dataBlock == [] ==> blocks == []
    ensures Indexed(AllRuns(blocks, dataBlock + [row]), blocks, index)
  {
    hide EncodeHandle, Ranked;
    var runs, after := AllRuns(blocks, dataBlock), AllRuns(blocks, dataBlock + [row]);
    assert forall i :: 0 <= i < |blocks| ==> after[i] == runs[i] && runs[i] != [];
    assert after == Runs(blocks) + [dataBlock + [row]];
    assert forall i :: 0 <= i < |after| ==> after[i] != [];
    forall i | 0 <= i < |index|
      ensures Separated(after, blocks, index, i)
    {
      assert Separated(runs, blocks, index, i);
    }
  }

  /** The index entry of the last block of all. */
  lemma IndexCloses(blocks: seq<Stored>, index: seq<Row>, entry: Row)
    requires Indexed(Runs(blocks), blocks, index) && |index| + 1 == |blocks|
    requires var last := blocks[|blocks| - 1];
      entry.value == EncodeHandle(last.offset, last.size) && last.rows != []
      && IsSuccessor(Last(last.rows), Ranked(entry.key))
    ensures Indexed(Runs(blocks), blocks, index + [entry])
  {
    hide EncodeHandle, Ranked;
    var runs := Runs(blocks);
    forall i | 0 <= i < |index + [entry]|
      ensures Separated(runs, blocks, index + [entry], i)
    {
      if i < |index| {
        assert Separated(runs, blocks, index, i);
      }
    }
  }

  /** One more row in the block at hand is one more row in all. */
  lemma RowsGrow(blocks: seq<Stored>, dataBlock: seq<Row>, row: Row)
    ensures Concat(AllRuns(blocks, dataBlock + [row])) == Concat(AllRuns(blocks, dataBlock)) + [row]
  {
    var runs := Runs(blocks);
    assert AllRuns(blocks, dataBlock + [row])[..|runs|] == runs;
    if dataBlock != [] {
      assert AllRuns(blocks, dataBlock)[..|runs|] == runs;
      assert Concat(runs) + (dataBlock + [row]) == Concat(runs) + dataBlock + [row];
    } else {
      assert AllRuns(blocks, dataBlock) == runs;
    }
  }

  /**
   The rows added so far are in the finished blocks and the block at hand.  The index entry of the last
   block is missing just when no row has come since that block was written.
   */
  ghost predicate Holding(rows: seq<Row>, blocks: seq<Stored>, dataBlock: seq<Row>, index: seq<Row>) {
    && SortedRows(rows) && Concat(AllRuns(blocks, dataBlock)) == rows
    && Indexed(AllRuns(blocks, dataBlock), blocks, index)
    && |index| + (if dataBlock == [] && blocks != [] then 1 else 0) == |blocks|
  }

  /** Adding a row, with an index entry for the last block if that is missing. */
  lemma RowIsHeld(rows: seq<Row>, blocks: seq<Stored>, dataBlock: seq<Row>, index: seq<Row>, entry: Option<Row>,
                  row: Row)
    requires Holding(rows, blocks, dataBlock, index)
    requires rows != [] ==> Before(Last(rows), Ranked(row.key))
    requires entry.Some? <==> dataBlock == [] && blocks != []
    requires entry.Some? ==>
               && rows != []
               && var last := blocks[|blocks| - 1];
               entry.value.value == EncodeHandle(last.offset, last.size)
               && IsSeparator(Last(rows), Ranked(entry.value.key), Ranked(row.key))
    ensures Holding(rows + [row], blocks, dataBlock + [row], index + if entry.Some? then [entry.value] else [])
  {
    hide Concat, Indexed, EncodeHandle, Ranked, SortedRows;
    SortedAppend(rows, row);
    RowsGrow(blocks, dataBlock, row);
    if entry.Some? {
      LastRow(blocks, rows, index);
      assert AllRuns(blocks, dataBlock) == Runs(blocks);
      IndexGrows(blocks, index, entry.value, row);
      assert [] + [row] == [row];
    } else {
      IndexStands(blocks, dataBlock, index, row);
      assert index + [] == index;
    }
  }

  /** With no block at hand, the last row is that of the last block. */
  lemma LastRow(blocks: seq<Stored>, rows: seq<Row>, index: seq<Row>)
    requires blocks != [] && Holding(rows, blocks, [], index)
    ensures var last := blocks[|blocks| - 1].rows; last != [] && rows != [] && Last(last) == Last(rows)
  {
    hide EncodeHandle, Ranked, SortedRows;
    var n := |blocks| - 1;
    assert AllRuns(blocks, []) == Runs(blocks);
    assert Runs(blocks)[n] == blocks[n].rows;
    assert rows == Concat(Runs(blocks)[..n]) + blocks[n].rows;
  }

  /** Writing the block at hand. */
  lemma WrittenIsHeld(rows: seq<Row>, blocks: seq<Stored>, dataBlock: seq<Row>, index: seq<Row>, offset: nat, size: nat)
    requires Holding(rows, blocks, dataBlock, index) && dataBlock != []
    ensures Holding(rows, blocks + [Stored(offset, size, dataBlock)], [], index)
  {
    hide Concat, SortedRows;
    var runs, more := AllRuns(blocks, dataBlock), blocks + [Stored(offset, size, dataBlock)];
    assert AllRuns(more, []) == runs;
    forall i: nat | i < |index|
      ensures Separated(runs, more, index, i)
    {
      assert Separated(runs, blocks, index, i);
    }
  }

  // ---- keys in filters -----------------------------------------------------------------------------------

  /** A key of the block at `offset` is in a filter already made, or among those for the next. */
  ghost predicate Filed(groups: seq<seq<Bytes>>, pending: seq<Bytes>, offset: nat, key: Bytes) {
    var index := offset / FILTER_BASE;
    if index < |groups| then key in groups[index] else index == |groups| && key in pending
  }

  ghost predicate AllFiled(groups: seq<seq<Bytes>>, pending: seq<Bytes>, blocks: seq<Stored>,
                           dataBlock: seq<Row>, offset: nat) {
    && (forall i, j :: 0 <= i < |blocks| && 0 <= j < |blocks[i].rows| ==>
          Filed(groups, pending, blocks[i].offset, Encode(blocks[i].rows[j].key)))
    && forall j :: 0 <= j < |dataBlock| ==> Filed(groups, pending, offset, Encode(dataBlock[j].key))
  }

  /** Starting a block loses no key. */
  lemma StartKeepsFiled(groups: seq<seq<Bytes>>, pending: seq<Bytes>, n: nat, offset: nat, key: Bytes)
    requires Filed(groups, pending, offset, key)
    ensures var r := Started(groups, pending, n); Filed(r.0, r.1, offset, key)
  {
    var r := Started(groups, pending, n);
    if n > |groups| {
      assert groups + [pending] <= r.0;
      assert r.0[..|groups| + 1] == groups + [pending];
      var index := offset / FILTER_BASE;
      assert r.0[index] == (groups + [pending])[index];
    }
  }

  /** A key added after its block was started is filed. */
  lemma AddedIsFiled(groups: seq<seq<Bytes>>, pending: seq<Bytes>, blocks: seq<Stored>, dataBlock: seq<Row>,
                     offset: nat, row: Row)
    requires AllFiled(groups, pending, blocks, dataBlock, offset) && |groups| == offset / FILTER_BASE
    ensures AllFiled(groups, pending + [Encode(row.key)], blocks, dataBlock + [row], offset)
  {
    hide Encode;
  }

  lemma StartedIsFiled(groups: seq<seq<Bytes>>, pending: seq<Bytes>, blocks: seq<Stored>, dataBlock: seq<Row>,
                       offset: nat, size: nat, after: nat)
    requires AllFiled(groups, pending, blocks, dataBlock, offset)
    ensures var r := Started(groups, pending, after / FILTER_BASE);
      AllFiled(r.0, r.1, blocks + [Stored(offset, size, dataBlock)], [], after)
  {
    hide Encode, Started, Filed;
    var r := Started(groups, pending, after / FILTER_BASE);
    var more := blocks + [Stored(offset, size, dataBlock)];
    forall i, j | 0 <= i < |more| && 0 <= j < |more[i].rows|
      ensures Filed(r.0, r.1, more[i].offset, Encode(more[i].rows[j].key))
    {
      StartKeepsFiled(groups, pending, after / FILTER_BASE, more[i].offset, Encode(more[i].rows[j].key));
    }
  }

  /** Once the last filter is made, every key is in the filter of its block. */
  lemma FiledIsInGroups(groups: seq<seq<Bytes>>, pending: seq<Bytes>, blocks: seq<Stored>, offset: nat)
    requires AllFiled(groups, pending, blocks, [], offset)
    ensures InGroups(blocks, if pending == [] then groups else groups + [pending])
  {
    hide Encode;
    var all := if pending == [] then groups else groups + [pending];
    forall i, j | 0 <= i < |blocks| && 0 <= j < |blocks[i].rows|
      ensures InGroup(all, blocks[i].offset, Encode(blocks[i].rows[j].key))
    {
      assert Filed(groups, pending, blocks[i].offset, Encode(blocks[i].rows[j].key));
    }
  }

  /** A builder before its first row. */
  lemma NothingHeld()
    ensures Holding([], [], [], []) && AllFiled([], [], [], [], 0)
  {
  }

  lemma NothingStarted()
    ensures Started([], [], 0) == ([], [])
  {
  }

  /** A new index entry is within the bounds of the row it was made from. */
  lemma EntryWeight(index: seq<Row>, entry: Row)
    ensures Weight(PairsOf(index + [entry])) == Weight(PairsOf(index)) + |entry.key.user| + 8 + |entry.value| + 19
  {
    hide Fixed64, Ranked;
    var pairs := PairsOf(index + [entry]);
    assert pairs[..|index|] == PairsOf(index);
  }

  /** Blocks written before are where they were. */
  lemma AfterWriting(file: Bytes, file': Bytes, codec: Codec, blocks: seq<Stored>, offset: nat, size: nat,
                     rows: seq<Row>)
    requires file <= file' && BlocksAt(file, codec, blocks) && PairsAt(file', codec, (offset, size), PairsOf(rows))
    ensures BlocksAt(file', codec, blocks + [Stored(offset, size, rows)])
  {
    hide PairsAt;
    assert file' == file + file'[|file|..];
    BlocksStay(file, file'[|file|..], codec, blocks);
  }

  /** Each part of the file stays as it was written. */
  lemma FinishedFile(file: Bytes, filtered: Bytes, withMeta: Bytes, withIndex: Bytes, o: TableOptions, t: Table,
                     parts: Parts)
    requires file <= filtered <= withMeta <= withIndex && Fits64(parts.metaindex) && Fits64(parts.index)
               && Fits64(parts.filter)
    requires BlocksAt(file, o.codec, t.blocks)
    requires t.filter.Some? ==> StoredAt(filtered, o.codec, parts.filter, t.filter.value)
    requires PairsAt(withMeta, o.codec, parts.metaindex, MetaPairs(t.filter.Some?, o.policyName, parts.filter))
    requires PairsAt(withIndex, o.codec, parts.index, PairsOf(t.index))
    ensures FileHolds(withIndex + EncodeFooter(parts.metaindex, parts.index), o.codec, o.policyName, t, parts)
  {
    hide PairsAt, BlocksAt, StoredAt, Fits64, EncodeFooter;
    var r := withIndex + EncodeFooter(parts.metaindex, parts.index);
    Rest(file, r);
    Rest(filtered, r);
    Rest(withMeta, r);
    BlocksStay(file, r[|file|..], o.codec, t.blocks);
    if t.filter.Some? {
      StoredStays(filtered, r[|filtered|..], o.codec, parts.filter, t.filter.value);
    }
    PairsStay(withMeta, r[|withMeta|..], o.codec, parts.metaindex,
      MetaPairs(t.filter.Some?, o.policyName, parts.filter));
    PairsStay(withIndex, EncodeFooter(parts.metaindex, parts.index), o.codec, parts.index, PairsOf(t.index));
    assert r[|r| - FOOTER_SIZE..] == EncodeFooter(parts.metaindex, parts.index);
  }

  lemma Rest(a: Bytes, b: Bytes)
    requires a <= b
    ensures a + b[|a|..] == b
  {
  }

  /** An offset or size as uint64_t. */
  function Wrapped(handle: (nat, nat)): (r: (nat, nat))
    ensures Fits64(r) && (Fits64(handle) ==> r == handle)
  {
    (handle.0 % WORD64, handle.1 % WORD64)
  }

  lemma MetaFits(filtered: bool, policyName: Bytes, handle: (nat, nat))
    requires Fits64(handle) && |policyName| + 100 <= MAX_UINT32
    ensures FitsBlock(MetaPairs(filtered, policyName, handle))
  {
    hide EncodeHandle;
    HandleFits(handle);
    assert Weight([]) == 0;
    var pairs := MetaPairs(filtered, policyName, handle);
    if filtered {
      assert pairs[..0] == [];
    }
  }

  /**
   What WriteBlock writes for some pairs: a block with a restart point at every `interval`-th of them, compressed
   if that is asked for and saves more than an eighth.
   */
  ghost predicate IsWritten(o: TableOptions, interval: nat, pairs: seq<Pair>, raw: Bytes, l: Layout, written: Bytes)
    requires interval > 0
  {
    && IsBlock(raw, l) && l.pairs == pairs && |l.shares| == |l.pairs| && Compressed(l, interval)
    && var packed := o.codec.compress(raw);
       written == if o.snappy && packed.Some? && |packed.value| < |raw| - |raw| / 8
                  then Sealed(packed.value, 1) else Sealed(raw, 0)
  }

  class TableBuilder {
    const options: TableOptions
    var file: Bytes
    var offset: nat
    var dataBlock: seq<Row>
    var blocks: seq<Stored>
    var indexBlock: seq<Row>
    var lastKey: ByteKey
    var numEntries: nat
    var closed: bool
    const filterBlock: FilterBlockBuilder?
    var pendingIndexEntry: bool
    var pendingHandle: (nat, nat)
    ghost var rows: seq<Row>

    ghost predicate FieldsOk()
      reads this
    {
      && numEntries == |rows|
      && (rows != [] ==> lastKey == rows[|rows| - 1].key)
      && (pendingIndexEntry <==> dataBlock == [] && blocks != [])
      && (pendingIndexEntry ==> var last := blocks[|blocks| - 1]; pendingHandle == (last.offset, last.size))
    }

    ghost predicate OffsetsOk()
      reads this
    {
      && (forall i, j :: 0 <= i < j < |blocks| ==> blocks[i].offset < blocks[j].offset)
      && forall i :: 0 <= i < |blocks| ==>
           blocks[i].offset < offset && blocks[i].offset < MAX_OFFSET && blocks[i].size < MAX_OFFSET
    }

    /** The blocks that were written are in the file, and the rows that were not will fit into one. */
    ghost predicate FileOk()
      reads this
    {
      && GoodOptions(options) && offset == |file| && BlocksAt(file, options.codec, blocks)
      && FitsBlock(PairsOf(dataBlock)) && InRange(rows) && InRange(indexBlock)
    }

    ghost predicate FilterOk()
      reads this, filterBlock
    {
      filterBlock != null ==>
        && filterBlock.Valid() && filterBlock.policy == InternalPolicy(options.policy)
        && |filterBlock.groups| == offset / FILTER_BASE
        && AllFiled(filterBlock.groups, filterBlock.pending, blocks, dataBlock, offset)
    }

    ghost predicate Valid()
      reads this, filterBlock
    {
      Holding(rows, blocks, dataBlock, indexBlock) && FieldsOk() && OffsetsOk() && FileOk() && FilterOk()
    }

    constructor (options: TableOptions)
      requires GoodOptions(options)
      ensures Valid() && !closed && rows == [] && this.options == options
      ensures filterBlock != null <==> options.filtering
      ensures filterBlock != null ==> fresh(filterBlock)
    {
      hide Holding, AllFiled, Pieces, AreFilters, Started, Inverse;
      this.options := options;
      file, offset, dataBlock, blocks, indexBlock, numEntries, closed := [], 0, [], [], [], 0, false;
      lastKey, pendingIndexEntry, pendingHandle, rows := ByteKey([], 0, Deletion), false, (0, 0), [];
      if options.filtering {
        var f := new FilterBlockBuilder(InternalPolicy(options.policy));
        filterBlock := f;
      } else {
        filterBlock := null;
      }
      new;
      NothingHeld();
      NothingStarted();
      if filterBlock != null {
        filterBlock.StartBlock(0);
      }
    }

    /** Add, in the order of the comparator. */
    method Add(key: ByteKey, value: Bytes)
      requires Valid() && !closed && offset < MAX_OFFSET && key.sequence <= MAX_SEQUENCE
      requires rows != [] ==> Before(Last(rows), Ranked(key))
      requires FitsBlock(PairsOf(dataBlock + [Row(key, value)]))
      modifies this, filterBlock
      ensures Valid() && !closed && rows == old(rows) + [Row(key, value)]
    {
      hide Holding, AllFiled, FitsBlock, BlocksAt;
      AddRow(key, value);
      if * {
        // The block has reached its size.
        Flush();
      }
    }

    /** The index entry that waited for the next key, with a key between the two. */
    method AddIndexEntry(key: ByteKey) returns (ghost entry: Option<Row>)
      requires Valid()
      modifies this`lastKey, this`indexBlock, this`pendingIndexEntry
      ensures !pendingIndexEntry && (entry.Some? <==> dataBlock == [] && blocks != [])
      ensures indexBlock == old(indexBlock) + if entry.Some? then [entry.value] else []
      ensures entry.Some? ==>
                && rows != []
                && entry.value.value == EncodeHandle(blocks[|blocks| - 1].offset, blocks[|blocks| - 1].size)
                && IsSeparator(Last(rows), Ranked(entry.value.key), Ranked(key))
                && IsShortened(old(lastKey), key, entry.value.key)
      ensures InRange(indexBlock)
    {
      hide Holding, AllFiled, EncodeHandle, Ranked, IsSeparator, IsShortened, FitsBlock, BlocksAt;
      entry := None;
      if pendingIndexEntry {
        HeldRows(rows, blocks, indexBlock);
        lastKey := SeparateInternal(lastKey, key);
        entry := Some(Row(lastKey, EncodeHandle(pendingHandle.0, pendingHandle.1)));
        indexBlock := indexBlock + [Row(lastKey, EncodeHandle(pendingHandle.0, pendingHandle.1))];
        pendingIndexEntry := false;
      }
    }

    /** Add up to the test of the block's size: the index entry that waited, the filter's key and the row. */
    method AddRow(key: ByteKey, value: Bytes)
      requires Valid() && !closed && key.sequence <= MAX_SEQUENCE
      requires rows != [] ==> Before(Last(rows), Ranked(key))
      requires FitsBlock(PairsOf(dataBlock + [Row(key, value)]))
      modifies this, filterBlock
      ensures Valid() && !closed && rows == old(rows) + [Row(key, value)] && offset == old(offset)
    {
      hide Holding, AllFiled, EncodeHandle, Ranked, Encode, InternalPolicy, IsSeparator, IsShortened, Before, Pieces,
           AreFilters, FitsBlock, BlocksAt, GoodOptions;
      ghost var row := Row(key, value);
      ghost var entry := AddIndexEntry(key);
      RowIsHeld(rows, blocks, dataBlock, old(indexBlock), entry, row);
      if filterBlock != null {
        AddedIsFiled(filterBlock.groups, filterBlock.pending, blocks, dataBlock, offset, row);
        filterBlock.AddKey(Encode(key));
      }
      lastKey := key;
      numEntries := numEntries + 1;
      dataBlock := dataBlock + [Row(key, value)];
      rows := rows + [row];
      assert Valid() by {
        assert FilterOk();
        assert FieldsOk();
        assert FileOk();
      }
    }

    /** Flush, which writes the block at hand. */
    method Flush()
      requires Valid() && !closed && offset < MAX_OFFSET
      modifies this, filterBlock
      ensures Valid() && !closed && rows == old(rows) && dataBlock == []
      ensures indexBlock == old(indexBlock) && lastKey == old(lastKey)
    {
      hide Holding, AllFiled, EncodeHandle, Ranked, InternalPolicy, Pieces, AreFilters, Started, FitsBlock, BlocksAt,
           GoodOptions, InRange, PairsOf;
      if dataBlock == [] {
        return;
      }
      WriteDataBlock();
      if filterBlock != null {
        StartedIsFiled(filterBlock.groups, filterBlock.pending, old(blocks), old(dataBlock), old(offset),
          pendingHandle.1, offset);
        filterBlock.StartBlock(offset);
      }
    }

    /** Flush up to the filter: the block goes to the file, and its index entry waits for the next key. */
    method WriteDataBlock()
      requires Holding(rows, blocks, dataBlock, indexBlock) && FieldsOk() && OffsetsOk() && FileOk()
      requires dataBlock != [] && offset < MAX_OFFSET
      modifies this`file, this`offset, this`blocks, this`dataBlock, this`pendingIndexEntry, this`pendingHandle
      ensures Holding(rows, blocks, dataBlock, indexBlock) && FieldsOk() && OffsetsOk() && FileOk() && dataBlock == []
      ensures blocks == old(blocks) + [Stored(old(offset), pendingHandle.1, old(dataBlock))]
    {
      hide Holding, FitsBlock, PairsAt, BlocksAt, InRange, PairsOf, Inverse, IsWritten;
      pendingHandle := WriteBlock(PairsOf(dataBlock), options.restartInterval);
      WrittenIsHeld(rows, blocks, dataBlock, indexBlock, pendingHandle.0, pendingHandle.1);
      AfterWriting(old(file), file, options.codec, blocks, pendingHandle.0, pendingHandle.1, dataBlock);
      blocks := blocks + [Stored(pendingHandle.0, pendingHandle.1, dataBlock)];
      dataBlock := [];
      NothingFits();
      pendingIndexEntry := true;
    }

    /** WriteBlock: the block of some pairs, compressed if that saves an eighth. */
    method WriteBlock(pairs: seq<Pair>, restartInterval: nat) returns (handle: (nat, nat))
      requires restartInterval >= 1 && FitsBlock(pairs) && Inverse(options.codec) && offset == |file|
      modifies this`file, this`offset
      ensures offset == |file| && old(file) <= file && handle.0 == old(offset) && handle.1 <= MAX_UINT32
      ensures offset == handle.0 + handle.1 + BLOCK_TRAILER_SIZE
      ensures PairsAt(file, options.codec, handle, pairs)
      ensures exists raw, l :: IsWritten(options, restartInterval, pairs, raw, l, file[|old(file)|..])
    {
      hide IsBlock, FitsBlock, StoredAt, Compressed;
      var raw, l := BlockOf(pairs, restartInterval);
      RawFits(raw, l);
      var contents, kind := raw, NO_COMPRESSION;
      if options.snappy {
        var compressed := options.codec.compress(raw);
        if compressed.Some? && |compressed.value| < |raw| - |raw| / 8 {
          contents, kind := compressed.value, SNAPPY_COMPRESSION;
        }
      }
      handle := WriteRawBlock(contents, kind, raw);
      assert file[|old(file)|..] == Sealed(contents, kind);
      assert IsWritten(options, restartInterval, pairs, raw, l, file[|old(file)|..]);
    }

    /** WriteRawBlock: the contents, their type and a checksum. */
    method WriteRawBlock(contents: Bytes, kind: Byte, ghost data: Bytes) returns (handle: (nat, nat))
      requires offset == |file|
      requires || (kind == NO_COMPRESSION && contents == data)
               || (kind == SNAPPY_COMPRESSION && options.codec.uncompress(contents) == Some(data))
      modifies this`file, this`offset
      ensures offset == |file| == handle.0 + handle.1 + BLOCK_TRAILER_SIZE && handle == (old(offset), |contents|)
      ensures file == old(file) + Sealed(contents, kind) && StoredAt(file, options.codec, handle, data)
    {
      hide StoredAt, Trailer;
      handle := (offset, |contents|);
      AppendedIsStored(file, options.codec, contents, kind, data);
      assert file + Sealed(contents, kind) == file + contents + Trailer(contents, kind);
      file := file + contents;
      file := file + Trailer(contents, kind);
      offset := offset + |contents| + BLOCK_TRAILER_SIZE;
    }

    /** The filter block, if there is a policy. */
    method WriteFilter() returns (filter: Option<Bytes>, handle: (nat, nat))
      requires Valid() && dataBlock == []
      modifies this`file, this`offset, filterBlock
      ensures offset == |file| && old(file) <= file && (filter.Some? <==> filterBlock != null)
      ensures filter.Some? && |filter.value| <= MAX_UINT32 ==> Filtered(options.policy, blocks, filter.value)
      ensures filter.Some? ==> StoredAt(file, options.codec, handle, filter.value)
      ensures handle.0 + handle.1 <= |file|
    {
      hide Holding, AllFiled, IsFilterBlock, InGroups, Pieces, AreFilters, InternalPolicy, StoredAt, Sealed, BlocksAt,
           FitsBlock;
      filter, handle := None, (0, 0);
      if filterBlock != null {
        FiledIsInGroups(filterBlock.groups, filterBlock.pending, blocks, offset);
        var contents := filterBlock.Finish();
        filter := Some(contents);
        handle := WriteRawBlock(contents, NO_COMPRESSION, contents);
      }
    }

    /** The index entry of the last block, with a key at or after all its rows. */
    method CloseIndex()
      requires Holding(rows, blocks, dataBlock, indexBlock) && FieldsOk() && OffsetsOk() && dataBlock == []
      requires InRange(rows) && InRange(indexBlock)
      modifies this`lastKey, this`indexBlock, this`pendingIndexEntry
      ensures SortedRows(rows) && Concat(Runs(blocks)) == rows
      ensures |indexBlock| == |blocks| && Indexed(Runs(blocks), blocks, indexBlock) && InRange(indexBlock)
      ensures Weight(PairsOf(indexBlock)) <= old(Weight(PairsOf(indexBlock)) + |lastKey.user|) + 50
      ensures old(pendingIndexEntry) ==>
                indexBlock != [] && IsShortenedLast(old(lastKey), indexBlock[|indexBlock| - 1].key)
    {
      hide Holding, EncodeHandle, Ranked, IsSuccessor, IsShortenedLast, SortedRows, Concat, Indexed, Runs, Weight,
           PairsOf;
      ghost var index := indexBlock;
      if pendingIndexEntry {
        HeldRows(rows, blocks, indexBlock);
        lastKey := SucceedInternal(lastKey);
        ghost var entry := Row(lastKey, EncodeHandle(pendingHandle.0, pendingHandle.1));
        HandleFits(pendingHandle);
        EntryWeight(index, entry);
        indexBlock := indexBlock + [Row(lastKey, EncodeHandle(pendingHandle.0, pendingHandle.1))];
        pendingIndexEntry := false;
      }
      ClosedIsTable(rows, blocks, index, indexBlock);
    }

    /** The metaindex block, the index block and the footer. */
    method WriteEnds(filter: Option<Bytes>, filterHandle: (nat, nat), ghost flushed: Bytes) returns (ghost parts: Parts)
      requires Holding(rows, blocks, dataBlock, indexBlock) && FieldsOk() && OffsetsOk() && dataBlock == []
      requires InRange(rows) && InRange(indexBlock) && GoodOptions(options)
      requires Weight(PairsOf(indexBlock)) + |lastKey.user| + 100 <= MAX_UINT32
      requires offset == |file| && flushed <= file && BlocksAt(flushed, options.codec, blocks)
      requires filter.Some? ==> StoredAt(file, options.codec, filterHandle, filter.value)
      requires filterHandle.0 + filterHandle.1 <= |file|
      modifies this`file, this`offset, this`lastKey, this`indexBlock, this`pendingIndexEntry
      ensures SortedRows(rows) && Concat(Runs(blocks)) == rows
      ensures |indexBlock| == |blocks| && Indexed(Runs(blocks), blocks, indexBlock) && InRange(indexBlock)
      ensures |file| < WORD64 ==>
                FileHolds(file, options.codec, options.policyName, Table(indexBlock, blocks, filter), parts)
    {
      hide Holding, SortedRows, Concat, Indexed, Runs, PairsAt, BlocksAt, StoredAt, Inverse, Weight, PairsOf, FileHolds,
           EncodeFooter, Fits64, MetaPairs, IsShortenedLast, IsWritten;
      ghost var filtered := file;
      MetaFits(filter.Some?, options.policyName, Wrapped(filterHandle));
      var metaindexHandle := WriteBlock(MetaPairs(filter.Some?, options.policyName, Wrapped(filterHandle)),
          options.restartInterval);
      ghost var withMeta := file;
      CloseIndex();
      var indexHandle := WriteBlock(PairsOf(indexBlock), 1);
      ghost var withIndex := file;
      file := file + EncodeFooter(Wrapped(metaindexHandle), Wrapped(indexHandle));
      offset := offset + FOOTER_SIZE;
      parts := Parts(metaindexHandle, indexHandle, filterHandle);
      if |file| < WORD64 {
        AllFit(parts, |file|);
        FinishedFile(flushed, filtered, withMeta, withIndex, options, Table(indexBlock, blocks, filter), parts);
      }
    }

    /** Finish: a table of the rows added, which the file holds. */
    method Finish() returns (t: Table, ghost parts: Parts)
      requires Valid() && !closed && offset < MAX_OFFSET
      requires Weight(PairsOf(indexBlock)) + |lastKey.user| + 100 <= MAX_UINT32
      modifies this, filterBlock
      ensures closed && rows == old(rows) && IsTable(options.policy, t, rows)
      ensures t.filter.Some? <==> filterBlock != null
      ensures |file| < WORD64 ==> FileHolds(file, options.codec, options.policyName, t, parts)
      ensures |file| < WORD64 && (t.filter.Some? ==> |t.filter.value| <= MAX_UINT32) ==>
                IsTableFile(options.policy, options.policyName, options.codec, file, rows)
    {
      hide Holding, AllFiled, Pieces, AreFilters, SortedRows, Concat, Indexed, InternalPolicy, Runs, BlocksAt, StoredAt,
           Weight, Filtered, PairsOf, FileHolds, GoodOptions;
      Flush();
      closed := true;
      ghost var flushed := file;
      var filter, filterHandle := WriteFilter();
      parts := WriteEnds(filter, filterHandle, flushed);
      t := Table(indexBlock, blocks, filter);
      hide InRange;
      assert IsTable(options.policy, t, rows);
    }
  }

  lemma AllFit(parts: Parts, n: nat)
    requires n < WORD64
    requires parts.metaindex.0 + parts.metaindex.1 <= n && parts.index.0 + parts.index.1 <= n
               && parts.filter.0 + parts.filter.1 <= n
    ensures Fits64(parts.metaindex) && Fits64(parts.index) && Fits64(parts.filter)
  {
  }

  lemma NothingFits()
    ensures FitsBlock(PairsOf([]))
  {
  }

  lemma RawFits(raw: Bytes, l: Layout)
    requires IsBlock(raw, l)
    ensures |raw| <= MAX_UINT32
  {
  }

  lemma HeldRows(rows: seq<Row>, blocks: seq<Stored>, index: seq<Row>)
    requires Holding(rows, blocks, [], index) && blocks != []
    ensures rows != []
  {
    LastRow(blocks, rows, index);
  }

  /** After the last block, the index is closed by a successor of the last row. */
  lemma ClosedIsTable(rows: seq<Row>, blocks: seq<Stored>, index: seq<Row>, closed: seq<Row>)
    requires Holding(rows, blocks, [], index)
    requires if blocks == [] then closed == index else
               && rows != [] && |closed| == |index| + 1 && closed[..|index|] == index
               && var last, entry := blocks[|blocks| - 1], closed[|index|];
               entry.value == EncodeHandle(last.offset, last.size) && IsSuccessor(Last(rows), Ranked(entry.key))
    ensures SortedRows(rows) && Concat(Runs(blocks)) == rows
    ensures |closed| == |blocks| && Indexed(Runs(blocks), blocks, closed)
  {
    hide Concat, Indexed, EncodeHandle, Ranked, SortedRows;
    assert AllRuns(blocks, []) == Runs(blocks);
    if blocks != [] {
      LastRow(blocks, rows, index);
      IndexCloses(blocks, index, closed[|index|]);
      assert closed == index + [closed[|index|]];
    }
  }
}
