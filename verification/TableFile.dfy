/**
 Tables as files (table/table.cc): opened by their footer, looked up through the index block, the filter and one
 data block, all read from the bytes of the file.
 */
module TableFile {
  import opened Options
  import opened Keys
  import opened Separators
  import opened TwoLevel
  import opened FilterBlock
  import opened BlockBuilder
  import opened Table
  import opened BlockRows
  import opened TableFormat

  // ---- what a file holds ---------------------------------------------------------------------------------

  /** "filter." and the name of the policy. */
  function FilterKey(policyName: Bytes): Bytes {
    [102, 105, 108, 116, 101, 114, 46] + policyName
  }

  /** The handles of the blocks that are not data blocks. */
  datatype Parts = Parts(metaindex: (nat, nat), index: (nat, nat), filter: (nat, nat))

  /** A finished block of these pairs is at `handle`. */
  ghost predicate PairsAt(file: Bytes, codec: Codec, handle: (nat, nat), pairs: seq<Pair>) {
    exists data, l :: StoredAt(file, codec, handle, data) && IsBlock(data, l) && l.pairs == pairs
  }

  lemma PairsStay(file: Bytes, more: Bytes, codec: Codec, handle: (nat, nat), pairs: seq<Pair>)
    requires PairsAt(file, codec, handle, pairs)
    ensures PairsAt(file + more, codec, handle, pairs)
  {
    hide StoredAt, IsBlock;
    var data, l :| StoredAt(file, codec, handle, data) && IsBlock(data, l) && l.pairs == pairs;
    StoredStays(file, more, codec, handle, data);
  }

  ghost predicate BlocksAt(file: Bytes, codec: Codec, blocks: seq<Stored>) {
    forall i: nat :: i < |blocks| ==> PairsAt(file, codec, (blocks[i].offset, blocks[i].size), PairsOf(blocks[i].rows))
  }

  lemma BlocksStay(file: Bytes, more: Bytes, codec: Codec, blocks: seq<Stored>)
    requires BlocksAt(file, codec, blocks)
    ensures BlocksAt(file + more, codec, blocks)
  {
    hide PairsAt;
    forall i: nat | i < |blocks|
      ensures PairsAt(file + more, codec, (blocks[i].offset, blocks[i].size), PairsOf(blocks[i].rows))
    {
      PairsStay(file, more, codec, (blocks[i].offset, blocks[i].size), PairsOf(blocks[i].rows));
    }
  }

  /** What the metaindex block says: where the filter is, if there is one. */
  function MetaPairs(filtered: bool, policyName: Bytes, filter: (nat, nat)): seq<Pair> {
    if filtered then [Pair(FilterKey(policyName), EncodeHandle(filter.0, filter.1))] else []
  }

  ghost predicate FooterAt(file: Bytes, parts: Parts) {
    && Fits64(parts.metaindex) && Fits64(parts.index) && Fits64(parts.filter)
    && |file| >= FOOTER_SIZE && file[|file| - FOOTER_SIZE..] == EncodeFooter(parts.metaindex, parts.index)
  }

  /** The file holds the data blocks, the filter, the metaindex, the index and the footer of a table. */
  ghost predicate FileHolds(file: Bytes, codec: Codec, policyName: Bytes, t: Table, parts: Parts) {
    && BlocksAt(file, codec, t.blocks)
    && (t.filter.Some? ==> StoredAt(file, codec, parts.filter, t.filter.value))
    && PairsAt(file, codec, parts.metaindex, MetaPairs(t.filter.Some?, policyName, parts.filter))
    && PairsAt(file, codec, parts.index, PairsOf(t.index))
    && FooterAt(file, parts)
  }

  /** `file` is a table of `rows`. */
  ghost predicate IsTableFile(p: Policy, policyName: Bytes, codec: Codec, file: Bytes, rows: seq<Row>) {
    exists t, parts :: IsTable(p, t, rows) && FileHolds(file, codec, policyName, t, parts) && InRange(rows)
      && InRange(t.index)
                  && (t.filter.Some? ==> |t.filter.value| <= MAX_UINT32)
  }

  // ---- opening -------------------------------------------------------------------------------------------

  /** Table::Rep: the file, the index block and the filter. */
  datatype Opened = Opened(file: Bytes, index: Bytes, filter: Option<Bytes>)

  lemma BytewiseIsTransitive(a: Bytes, b: Bytes, c: Bytes)
    requires BytewiseLess(a, b) && BytewiseLess(b, c)
    ensures BytewiseLess(a, c)
  {
    hide BytewiseLess, Rank;
    RankEmbedsOrder(a, b);
    RankEmbedsOrder(b, c);
    RankEmbedsOrder(a, c);
  }

  lemma OnePairAscends(pairs: seq<Pair>)
    requires |pairs| <= 1
    ensures Block.Ascending(BytewiseLess, pairs)
  {
    hide BytewiseLess;
    forall a, b, c | BytewiseLess(a, b) && BytewiseLess(b, c)
      ensures BytewiseLess(a, c)
    {
      BytewiseIsTransitive(a, b, c);
    }
  }

  lemma {:induction false} BytewiseIsStrict(a: Bytes)
    ensures !BytewiseLess(a, a)
  {
    if a != [] {
      BytewiseIsStrict(a[1..]);
    }
  }

  lemma FooterReads(file: Bytes, codec: Codec, name: Bytes, t: Table, parts: Parts)
    ensures FileHolds(file, codec, name, t, parts) ==>
              |file| >= FOOTER_SIZE && DecodeFooter(file[|file| - FOOTER_SIZE..])
                == Some((parts.metaindex, parts.index))
  {
    hide DecodeFooter, EncodeFooter, PairsAt, BlocksAt, StoredAt;
    if FileHolds(file, codec, name, t, parts) {
      FooterRoundTrip(parts.metaindex, parts.index);
    }
  }

  /** Table::Open: nothing for a file that is too short or has no footer; `policyName` is that of the reader. */
  method Open(file: Bytes, codec: Codec, paranoid: bool, policyName: Option<Bytes>, ghost name: Bytes, ghost t: Table,
              ghost parts: Parts) returns (r: Option<Opened>)
    requires |file| < FOOTER_SIZE || DecodeFooter(file[|file| - FOOTER_SIZE..]).None?
               || FileHolds(file, codec, name, t, parts)
    ensures |file| < FOOTER_SIZE || DecodeFooter(file[|file| - FOOTER_SIZE..]).None? ==> r.None?
    ensures FileHolds(file, codec, name, t, parts) ==>
              && r.Some? && r.value.file == file && BlockRows.Holds(r.value.index, t.index)
              && (r.value.filter == if policyName == Some(name) then t.filter else None)
  {
    hide DecodeFooter, StoredAt, IsBlock, Encode, BlocksAt, FooterAt, EncodeHandle, ReadBlock;
    r := None;
    if |file| < FOOTER_SIZE {
      FooterReads(file, codec, name, t, parts);
      return;
    }
    FooterReads(file, codec, name, t, parts);
    var footer := DecodeFooter(file[|file| - FOOTER_SIZE..]);
    if footer.None? {
      return;
    }
    var (metaindex, index) := footer.value;
    var contents := ReadBlock(file, paranoid, codec, index);
    ghost var data, l :| StoredAt(file, codec, parts.index, data) && IsBlock(data, l) && l.pairs == PairsOf(t.index);
    StoredReads(file, paranoid, codec, parts.index, data);
    if contents.None? {
      assert false;  // the file holds its index block
    }
    var filter := ReadMeta(file, codec, paranoid, policyName, metaindex, name, t, parts);
    r := Some(Opened(file, contents.value, filter));
  }

  /** ReadMeta: the filter that the metaindex block names for the reader's policy. */
  method ReadMeta(file: Bytes, codec: Codec, paranoid: bool, policyName: Option<Bytes>, metaindex: (nat, nat),
                  ghost name: Bytes, ghost t: Table, ghost parts: Parts) returns (filter: Option<Bytes>)
    requires FileHolds(file, codec, name, t, parts) && metaindex == parts.metaindex
    ensures filter == if policyName == Some(name) then t.filter else None
  {
    hide StoredAt, IsBlock, BlocksAt, FooterAt, EncodeHandle, ReadBlock, BytewiseLess, Block.Ascending,
         Block.IsLowerBound, FilterKey;
    filter := None;
    if policyName.None? {
      return;
    }
    ghost var pairs := MetaPairs(t.filter.Some?, name, parts.filter);
    ghost var data, l :| StoredAt(file, codec, metaindex, data) && IsBlock(data, l) && l.pairs == pairs;
    StoredReads(file, paranoid, codec, metaindex, data);
    var contents := ReadBlock(file, paranoid, codec, metaindex);
    if contents.None? {
      assert false;  // the file holds its metaindex block
    }
    var key := FilterKey(policyName.value);
    OnePairAscends(pairs);
    var found, i := SeekPair(contents.value, BytewiseLess, key, l);
    FilterIsFound(pairs, key, i);
    SameName(policyName.value, name);
    if found.Some? && found.value.key == key {
      filter := ReadFilter(file, codec, paranoid, found.value.value, name, t, parts);
    }
  }

  /** ReadFilter: the contents of the block that a handle names. */
  method ReadFilter(file: Bytes, codec: Codec, paranoid: bool, handleValue: Bytes, ghost name: Bytes, ghost t: Table,
                    ghost parts: Parts) returns (filter: Option<Bytes>)
    requires FileHolds(file, codec, name, t, parts) && t.filter.Some?
    requires handleValue == EncodeHandle(parts.filter.0, parts.filter.1)
    ensures filter == t.filter
  {
    hide StoredAt, PairsAt, BlocksAt, EncodeFooter, EncodeHandle, ReadBlock, DecodeHandle;
    HandleRoundTrip(parts.filter.0, parts.filter.1);
    StoredReads(file, paranoid, codec, parts.filter, t.filter.value);
    filter := None;
    var handle := DecodeHandle(handleValue);
    if handle.Some? {
      filter := ReadBlock(file, paranoid, codec, handle.value);
    }
  }

  lemma FilterIsFound(pairs: seq<Pair>, key: Bytes, i: nat)
    requires |pairs| <= 1 && Block.IsLowerBound(BytewiseLess, pairs, key, i)
    ensures |pairs| == 1 && pairs[0].key == key ==> i == 0
  {
    hide BytewiseLess;
    BytewiseIsStrict(key);
  }

  lemma SameName(a: Bytes, b: Bytes)
    ensures FilterKey(a) == FilterKey(b) ==> a == b
  {
    assert FilterKey(a)[7..] == a && FilterKey(b)[7..] == b;
  }

  // ---- lookup --------------------------------------------------------------------------------------------

  lemma SortedAre(rows: seq<Row>)
    requires SortedRows(rows)
    ensures Sorted(Ranks(rows))
  {
    hide Ranked, Before;
  }

  /** The index block is sorted. */
  lemma IndexIsSorted(p: Policy, t: Table, rows: seq<Row>)
    requires IsTable(p, t, rows)
    ensures Sorted(Ranks(t.index))
  {
    hide SortedRows, Concat, Filtered, OffsetsRise, EncodeHandle, Ranked, IsSeparator, IsSuccessor;
    var runs := Runs(t.blocks);
    forall i, j | 0 <= i < j < |t.index|
      ensures Before(Ranked(t.index[i].key), Ranked(t.index[j].key))
    {
      LaterRowsAfter(runs, t.blocks, t.index, i, j, 0);
      OwnRowsBefore(runs, t.blocks, t.index, j, 0);
    }
  }

  /** So is every data block. */
  lemma BlockIsSorted(p: Policy, t: Table, rows: seq<Row>, i: nat)
    requires IsTable(p, t, rows) && i < |t.blocks|
    ensures SortedRows(t.blocks[i].rows) && forall r :: r in t.blocks[i].rows ==> r in rows
  {
    hide Filtered, OffsetsRise, EncodeHandle, Ranked, Before, Concat, Indexed;
    var runs: seq<seq<Row>> := Runs(t.blocks);
    forall a: nat, b: nat | a < b < |runs[i]|
      ensures Before(Ranked(runs[i][a].key), Ranked(runs[i][b].key))
    {
      RunsAreSorted(runs, i, a, i, b);
    }
    forall a: nat | a < |runs[i]|
      ensures runs[i][a] in rows
    {
      InConcat(runs, i, a);
    }
  }

  /** Table::BlockReader: the block that a handle names, in place of the iterator over it. */
  function BlockContents(file: Bytes, codec: Codec, verify: bool, handleValue: Bytes): Option<Bytes> {
    var handle := DecodeHandle(handleValue);
    if handle.None? then None else ReadBlock(file, verify, codec, handle.value)
  }

  /** The data block that an index entry names. */
  lemma DataBlockReads(p: Policy, t: Table, rows: seq<Row>, file: Bytes, codec: Codec, verify: bool, i: nat)
    requires IsTable(p, t, rows) && i < |t.index| && BlocksAt(file, codec, t.blocks)
    ensures i < |t.blocks| && DecodeHandle(t.index[i].value) == Some((t.blocks[i].offset, t.blocks[i].size))
    ensures BlockContents(file, codec, verify, t.index[i].value).Some?
    ensures BlockRows.Holds(BlockContents(file, codec, verify, t.index[i].value).value, t.blocks[i].rows)
  {
    hide IsTable, StoredAt, IsBlock, DecodeHandle, ReadBlock, PairsOf;
    TableSize(p, t, rows);
    IndexEntry(p, t, rows, i);
    var handle := (t.blocks[i].offset, t.blocks[i].size);
    assert PairsAt(file, codec, handle, PairsOf(t.blocks[i].rows));
    var data, l :| StoredAt(file, codec, handle, data) && IsBlock(data, l) && l.pairs == PairsOf(t.blocks[i].rows);
    StoredReads(file, verify, codec, handle, data);
  }

  /** An opened table of `rows`, with its filter or without. */
  ghost predicate IsOpened(o: Opened, codec: Codec, p: Policy, t: Table, rows: seq<Row>) {
    && IsTable(p, t, rows) && InRange(rows) && InRange(t.index)
    && BlockRows.Holds(o.index, t.index) && BlocksAt(o.file, codec, t.blocks)
    && (o.filter.Some? ==> o.filter == t.filter && |o.filter.value| <= MAX_UINT32)
  }

  /**
   InternalGet: the pair handed to the caller is that of the first row at or after `k`; and the first row at or
   after `k` is handed over whenever it has the user key of `k`.
   */
  method InternalGet(o: Opened, codec: Codec, verify: bool, p: Policy, k: ByteKey, ghost t: Table, ghost rows: seq<Row>)
    returns (r: Option<Pair>)
    requires IsOpened(o, codec, p, t, rows) && 1 <= p.k <= 30 && k.sequence <= MAX_SEQUENCE
    ensures r.Some? ==> SeekRow(rows, k) < |rows| && r.value == PairsOf(rows)[SeekRow(rows, k)]
    ensures SeekRow(rows, k) < |rows| && rows[SeekRow(rows, k)].key.user == k.user ==> r.Some?
  {
    hide IsTable, SeekRow, MayMatch, Encode, DecodeHandle, ReadBlock, InternalPolicy, BlockRows.Holds, BlocksAt,
         BlockContents, Sorted, Ranks, InRange, SortedRows;
    TableSize(p, t, rows);
    WhereSeekEnds(p, t, rows, k);
    IndexIsSorted(p, t, rows);
    r := None;
    var entry := SeekInBytes(o.index, k, t.index);
    if entry.Some? {
      ghost var i := SeekRow(t.index, k);
      DataBlockReads(p, t, rows, o.file, codec, verify, i);
      var handle := DecodeHandle(entry.value.value);
      if o.filter.Some? && handle.Some?
         && !MayMatch(InternalPolicy(p).hash, o.filter.value, handle.value.0, Encode(k)) {
        FilteredOutIsAbsent(p, t, rows, i, k);
      } else {
        var contents := BlockContents(o.file, codec, verify, entry.value.value);
        BlockInRange(p, t, rows, i);
        if contents.None? {
          assert false;  // the file holds the block
        }
        r := SeekInBytes(contents.value, k, t.blocks[i].rows);
      }
    }
  }

  lemma BlockInRange(p: Policy, t: Table, rows: seq<Row>, i: nat)
    requires IsTable(p, t, rows) && i < |t.blocks| && InRange(rows)
    ensures InRange(t.blocks[i].rows) && Sorted(Ranks(t.blocks[i].rows))
  {
    hide IsTable, Ranks, SortedRows;
    BlockIsSorted(p, t, rows, i);
    SortedAre(t.blocks[i].rows);
  }

  /** TableCache::Get on a table that is not in the cache. */
  method Get(file: Bytes, codec: Codec, paranoid: bool, verify: bool, policyName: Option<Bytes>, p: Policy, k: ByteKey,
             ghost name: Bytes, ghost rows: seq<Row>) returns (r: Option<Pair>)
    requires IsTableFile(p, name, codec, file, rows) && 1 <= p.k <= 30 && k.sequence <= MAX_SEQUENCE
    ensures r.Some? ==> SeekRow(rows, k) < |rows| && r.value == PairsOf(rows)[SeekRow(rows, k)]
    ensures SeekRow(rows, k) < |rows| && rows[SeekRow(rows, k)].key.user == k.user ==> r.Some?
  {
    hide IsTable, SeekRow, FileHolds, InRange, BlockRows.Holds, BlocksAt, DecodeFooter;
    ghost var t, parts :| IsTable(p, t, rows) && FileHolds(file, codec, name, t, parts) && InRange(rows)
        && InRange(t.index)
                     && (t.filter.Some? ==> |t.filter.value| <= MAX_UINT32);
    var o := Open(file, codec, paranoid, policyName, name, t, parts);
    HeldBlocks(file, codec, name, t, parts);
    r := InternalGet(o.value, codec, verify, p, k, t, rows);
  }

  lemma HeldBlocks(file: Bytes, codec: Codec, name: Bytes, t: Table, parts: Parts)
    requires FileHolds(file, codec, name, t, parts)
    ensures BlocksAt(file, codec, t.blocks)
  {
  }

  // ---- iteration -----------------------------------------------------------------------------------------

  ghost predicate HasRows(file: Bytes, codec: Codec, handleValue: Bytes, rows: seq<Row>) {
    exists data :: BlockContents(file, codec, false, handleValue) == Some(data) && BlockRows.Holds(data, rows)
      && InRange(rows)
  }

  /** The rows of the block that a handle names, as its bytes have them. */
  ghost function RowsIn(file: Bytes, codec: Codec, handleValue: Bytes): seq<Row> {
    if exists rows :: HasRows(file, codec, handleValue, rows) then
      var rows :| HasRows(file, codec, handleValue, rows);
      rows
    else []
  }

  lemma RowsInAre(file: Bytes, codec: Codec, handleValue: Bytes, rows: seq<Row>)
    requires HasRows(file, codec, handleValue, rows)
    ensures RowsIn(file, codec, handleValue) == rows
  {
    hide BlockContents, BlockRows.Holds, InRange;
    var others := RowsIn(file, codec, handleValue);
    var data :| BlockContents(file, codec, false, handleValue) == Some(data) && BlockRows.Holds(data, rows)
        && InRange(rows);
    BytesDetermineRows(data, rows, others);
  }

  /** The two-level iterator over the bytes of a table is a cursor over its rows. */
  lemma FileIsTwoLevel(p: Policy, t: Table, rows: seq<Row>, file: Bytes, codec: Codec)
    requires IsTable(p, t, rows) && InRange(rows) && BlocksAt(file, codec, t.blocks)
    ensures var blocks := BlocksOf(Ranks(t.index), handle => Ranks(RowsIn(file, codec, handle)));
      SoundIndex(Ranks(t.index), blocks) && Concat(blocks) == Ranks(rows)
  {
    hide IsTable, InRange, BlocksAt, SoundIndex, Concat, RowsIn, HasRows, BlockRows.Holds, BlockContents;
    TableSize(p, t, rows);
    TableIsTwoLevel(p, t, rows);
    var blocks := BlocksOf(Ranks(t.index), handle => Ranks(RowsIn(file, codec, handle)));
    var others := BlocksOf(Ranks(t.index), handle => Ranks(BlockReader(t.blocks, handle)));
    forall i | 0 <= i < |t.index|
      ensures blocks[i] == others[i]
    {
      IndexEntry(p, t, rows, i);
      RowsOfBlock(p, t, rows, file, codec, i);
    }
    assert blocks == others;
  }

  lemma RowsOfBlock(p: Policy, t: Table, rows: seq<Row>, file: Bytes, codec: Codec, i: nat)
    requires IsTable(p, t, rows) && InRange(rows) && BlocksAt(file, codec, t.blocks) && i < |t.index|
    ensures i < |t.blocks| && RowsIn(file, codec, t.index[i].value) == t.blocks[i].rows
  {
    hide IsTable, InRange, BlocksAt, RowsIn, BlockRows.Holds, BlockContents, Sorted, Ranks;
    DataBlockReads(p, t, rows, file, codec, false, i);
    BlockInRange(p, t, rows, i);
    RowsInAre(file, codec, t.index[i].value, t.blocks[i].rows);
  }
}
