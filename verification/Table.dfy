/**
 Tables (table/table.cc, table/format.cc): sorted rows in blocks, an index with one short key for each block,
 and a filter.  A block's bytes are left to the block modules; here a block is its rows, found by its handle.
 */
module Table {
  import opened Options
  import opened Keys
  import opened Coding
  import opened Separators
  import opened TwoLevel
  import opened FilterBlock
  import opened BlockBuilder

  datatype Row = Row(key: ByteKey, value: Bytes)

  datatype Stored = Stored(offset: nat, size: nat, rows: seq<Row>)

  datatype Table = Table(index: seq<Row>, blocks: seq<Stored>, filter: Option<Bytes>)

  /** uint64_t. */
  const WORD64: nat := 0x1_0000_0000_0000_0000

  /** One type byte and a checksum. */
  const BLOCK_TRAILER_SIZE: nat := 5

  // ---- rows ----------------------------------------------------------------------------------------------

  function Ranks(rows: seq<Row>): (es: seq<Entry>)
    ensures |es| == |rows| && forall i :: 0 <= i < |rows| ==> es[i] == Entry(Ranked(rows[i].key), rows[i].value)
  {
    seq(|rows|, i requires 0 <= i < |rows| => Entry(Ranked(rows[i].key), rows[i].value))
  }

  /** Seek: the first row at or after `k`. */
  function SeekRow(rows: seq<Row>, k: ByteKey): (r: nat)
    ensures r <= |rows|
  {
    LowerBound(Ranks(rows), Ranked(k))
  }

  function Last(rows: seq<Row>): InternalKey
    requires rows != []
  {
    Ranked(rows[|rows| - 1].key)
  }

  function Runs(blocks: seq<Stored>): (r: seq<seq<Row>>)
    ensures |r| == |blocks| && forall i :: 0 <= i < |r| ==> r[i] == blocks[i].rows
  {
    seq(|blocks|, i requires 0 <= i < |blocks| => blocks[i].rows)
  }

  // ---- handles -------------------------------------------------------------------------------------------

  /** BlockHandle::EncodeTo. */
  function EncodeHandle(offset: nat, size: nat): Bytes {
    Varint(offset) + Varint(size)
  }

  /** BlockHandle::DecodeFrom. */
  function DecodeHandle(s: Bytes): Option<(nat, nat)> {
    var offset := GetVarint64(s, 0);
    if offset.Bad? then None else
      var size := GetVarint64(s, offset.next);
      if size.Bad? then None else Some((offset.value, size.value))
  }

  lemma HandleRoundTrip(offset: nat, size: nat)
    requires offset < WORD64 && size < WORD64
    ensures DecodeHandle(EncodeHandle(offset, size)) == Some((offset, size))
  {
    hide Varint, GetVarint;
    var s := EncodeHandle(offset, size);
    assert At(s, 0, Varint(offset) + Varint(size));
    AtParts(s, 0, Varint(offset), Varint(size));
    ReadsVarint(s, 0, offset, WORD64);
    ReadsVarint(s, |Varint(offset)|, size, WORD64);
  }

  function BlockAt(blocks: seq<Stored>, handle: (nat, nat)): seq<Row> {
    if blocks == [] then []
    else if (blocks[0].offset, blocks[0].size) == handle then blocks[0].rows
    else BlockAt(blocks[1..], handle)
  }

  /** Table::BlockReader, which gives nothing for a bad handle. */
  function BlockReader(blocks: seq<Stored>, handle: Bytes): seq<Row> {
    var h := DecodeHandle(handle);
    if h.None? then [] else BlockAt(blocks, h.value)
  }

  ghost predicate OffsetsRise(blocks: seq<Stored>) {
    && (forall i, j :: 0 <= i < j < |blocks| ==> blocks[i].offset < blocks[j].offset)
    && forall i :: 0 <= i < |blocks| ==> blocks[i].offset < WORD64 && blocks[i].size < WORD64
  }

  lemma {:induction false} BlockAtIs(blocks: seq<Stored>, i: nat)
    requires i < |blocks| && forall i, j :: 0 <= i < j < |blocks| ==> blocks[i].offset < blocks[j].offset
    ensures BlockAt(blocks, (blocks[i].offset, blocks[i].size)) == blocks[i].rows
  {
    if i > 0 {
      BlockAtIs(blocks[1..], i - 1);
    }
  }

  lemma HandleNamesBlock(blocks: seq<Stored>, i: nat)
    requires i < |blocks| && OffsetsRise(blocks)
    ensures var handle := EncodeHandle(blocks[i].offset, blocks[i].size);
      DecodeHandle(handle) == Some((blocks[i].offset, blocks[i].size)) && BlockReader(blocks, handle) == blocks[i].rows
  {
    hide DecodeHandle, EncodeHandle;
    HandleRoundTrip(blocks[i].offset, blocks[i].size);
    BlockAtIs(blocks, i);
  }

  // ---- filters -------------------------------------------------------------------------------------------

  /** An internal key as bytes: AppendInternalKey. */
  function Encode(k: ByteKey): (s: Bytes)
    ensures ExtractUserKey(s) == k.user
  {
    k.user + Fixed64(Ranked(k).Tag())
  }

  function ExtractUserKey(s: Bytes): Bytes {
    if |s| < 8 then s else s[..|s| - 8]
  }

  /** InternalFilterPolicy: the user's policy on user keys. */
  function InternalPolicy(user: Policy): Policy {
    user.(hash := key => user.hash(ExtractUserKey(key)))
  }

  /** Whether keys of one user key match does not depend on the rest of the key. */
  lemma SameUserMatchesSame(p: Policy, contents: Bytes, groups: seq<seq<Bytes>>, blockOffset: nat, a: ByteKey,
                            b: ByteKey)
    requires 1 <= p.k <= 30 && IsFilterBlock(InternalPolicy(p), contents, groups) && a.user == b.user
    ensures MayMatch(InternalPolicy(p).hash, contents, blockOffset, Encode(a))
       <==> MayMatch(InternalPolicy(p).hash, contents, blockOffset, Encode(b))
  {
    hide IsFilterBlock, MayMatch, Encode, Bloom.AllHit;
    var q := InternalPolicy(p);
    assert q.hash(Encode(a)) == p.hash(a.user) == q.hash(Encode(b));
    MayMatchIff(q, contents, groups, blockOffset, Encode(a));
    MayMatchIff(q, contents, groups, blockOffset, Encode(b));
  }

  // ---- finished tables -----------------------------------------------------------------------------------

  ghost predicate SortedRows(rows: seq<Row>) {
    forall i, j :: 0 <= i < j < |rows| ==> Before(Ranked(rows[i].key), Ranked(rows[j].key))
  }

  /** Index entry `i` names its block and separates it from the run after it. */
  ghost predicate Separated(runs: seq<seq<Row>>, blocks: seq<Stored>, index: seq<Row>, i: nat)
    requires i < |index| <= |blocks| <= |runs| && forall i :: 0 <= i < |runs| ==> runs[i] != []
  {
    && index[i].value == EncodeHandle(blocks[i].offset, blocks[i].size)
    && if i + 1 < |runs| then IsSeparator(Last(runs[i]), Ranked(index[i].key), Ranked(runs[i + 1][0].key))
       else IsSuccessor(Last(runs[i]), Ranked(index[i].key))
  }

  ghost predicate Indexed(runs: seq<seq<Row>>, blocks: seq<Stored>, index: seq<Row>) {
    && (forall i :: 0 <= i < |runs| ==> runs[i] != [])
    && |index| <= |blocks| <= |runs|
    && forall i: nat :: i < |index| ==> Separated(runs, blocks, index, i)
  }

  /** Every key of a block is in the filter of the block's offset. */
  ghost predicate Filtered(p: Policy, blocks: seq<Stored>, contents: Bytes) {
    exists groups :: IsFilterBlock(InternalPolicy(p), contents, groups) && InGroups(blocks, groups)
  }

  ghost predicate InGroups(blocks: seq<Stored>, groups: seq<seq<Bytes>>) {
    forall i, j :: 0 <= i < |blocks| && 0 <= j < |blocks[i].rows| ==>
      InGroup(groups, blocks[i].offset, Encode(blocks[i].rows[j].key))
  }

  predicate InGroup(groups: seq<seq<Bytes>>, offset: nat, key: Bytes) {
    offset / FILTER_BASE < |groups| && key in groups[offset / FILTER_BASE]
  }

  /** `t` is a table of `rows`. */
  ghost predicate IsTable(p: Policy, t: Table, rows: seq<Row>) {
    && SortedRows(rows) && Concat(Runs(t.blocks)) == rows && OffsetsRise(t.blocks)
    && |t.index| == |t.blocks| && Indexed(Runs(t.blocks), t.blocks, t.index)
    && (t.filter.Some? && |t.filter.value| <= MAX_UINT32 ==> Filtered(p, t.blocks, t.filter.value))
  }

  /** Rows of one run are sorted, and before those of later runs. */
  lemma RunsAreSorted(runs: seq<seq<Row>>, i: nat, p: nat, j: nat, q: nat)
    requires SortedRows(Concat(runs)) && i < |runs| && j < |runs| && p < |runs[i]| && q < |runs[j]|
    requires i < j || (i == j && p < q)
    ensures Before(Ranked(runs[i][p].key), Ranked(runs[j][q].key))
  {
    hide Concat, Start;
    InConcat(runs, i, p);
    InConcat(runs, j, q);
    if i < j {
      NextStart(runs, i);
      StartsAscend(runs, i + 1, j);
    }
    assert Start(runs, i) + p < Start(runs, j) + q;
  }

  function RunRanks(runs: seq<seq<Row>>): (r: seq<seq<Entry>>)
    ensures |r| == |runs| && forall i :: 0 <= i < |r| ==> r[i] == Ranks(runs[i])
  {
    seq(|runs|, i requires 0 <= i < |runs| => Ranks(runs[i]))
  }

  lemma {:induction false} RanksOfConcat(runs: seq<seq<Row>>)
    ensures Concat(RunRanks(runs)) == Ranks(Concat(runs))
  {
    if runs != [] {
      var n := |runs| - 1;
      RanksOfConcat(runs[..n]);
      assert RunRanks(runs)[..n] == RunRanks(runs[..n]);
      assert Ranks(Concat(runs)) == Ranks(Concat(runs[..n])) + Ranks(runs[n]);
    }
  }

  lemma {:induction false} RanksStart(runs: seq<seq<Row>>, i: nat)
    requires i <= |runs|
    ensures Start(RunRanks(runs), i) == Start(runs, i)
  {
    assert RunRanks(runs)[..i] == RunRanks(runs[..i]);
    RanksOfConcat(runs[..i]);
  }

  lemma IndexKeyReaches(runs: seq<seq<Row>>, blocks: seq<Stored>, index: seq<Row>, i: nat)
    requires Indexed(runs, blocks, index) && i < |index|
    ensures Ranked(index[i].key) == Last(runs[i]) || Last(runs[i]).user < Ranked(index[i].key).user
  {
    assert Separated(runs, blocks, index, i);
  }

  /** An index key is at or after the rows of its run... */
  lemma OwnRowsBefore(runs: seq<seq<Row>>, blocks: seq<Stored>, index: seq<Row>, i: nat, p: nat)
    requires SortedRows(Concat(runs)) && Indexed(runs, blocks, index) && i < |index| && p < |runs[i]|
    ensures !Before(Ranked(index[i].key), Ranked(runs[i][p].key))
  {
    hide Concat, SortedRows, EncodeHandle;
    IndexKeyReaches(runs, blocks, index, i);
    if p < |runs[i]| - 1 {
      RunsAreSorted(runs, i, p, i, |runs[i]| - 1);
    }
  }

  /** ... and before the rows of later runs. */
  lemma LaterRowsAfter(runs: seq<seq<Row>>, blocks: seq<Stored>, index: seq<Row>, i: nat, j: nat, p: nat)
    requires SortedRows(Concat(runs)) && Indexed(runs, blocks, index) && i < |index| && i < j < |runs| && p < |runs[j]|
    ensures Before(Ranked(index[i].key), Ranked(runs[j][p].key))
  {
    hide Concat, SortedRows, EncodeHandle;
    assert Separated(runs, blocks, index, i);
    RunsAreSorted(runs, i, |runs[i]| - 1, j, p);
    if j > i + 1 || p > 0 {
      RunsAreSorted(runs, i + 1, 0, j, p);
    }
  }

  /** Short separators keep the index sound. */
  lemma ShortIndexIsSound(runs: seq<seq<Row>>, blocks: seq<Stored>, index: seq<Row>)
    requires SortedRows(Concat(runs)) && Indexed(runs, blocks, index) && |index| == |runs|
    ensures SoundIndex(Ranks(index), RunRanks(runs))
  {
    hide Concat, SortedRows, Ranks, RunRanks, Indexed, Ranked, Before;
    var es: seq<Entry>, rs: seq<seq<Entry>> := Ranks(index), RunRanks(runs);
    forall i: nat, p: nat | i < |rs| && 0 <= p < |rs[i]|
      ensures !Before(es[i].key, rs[i][p].key)
    {
      OwnRowsBefore(runs, blocks, index, i, p);
    }
    forall i: nat, j: nat, p: nat | i < j < |rs| && 0 <= p < |rs[j]|
      ensures Before(es[i].key, rs[j][p].key)
    {
      LaterRowsAfter(runs, blocks, index, i, j, p);
    }
  }

  /** The handles in the index name the runs: the two-level iterator over a table is a cursor over its rows. */
  lemma TableIsTwoLevel(p: Policy, t: Table, rows: seq<Row>)
    requires IsTable(p, t, rows)
    ensures var blocks := BlocksOf(Ranks(t.index), handle => Ranks(BlockReader(t.blocks, handle)));
      SoundIndex(Ranks(t.index), blocks) && Concat(blocks) == Ranks(rows)
  {
    hide OffsetsRise, SortedRows, Concat, Filtered, SoundIndex, EncodeHandle, BlockReader;
    var runs := Runs(t.blocks);
    ShortIndexIsSound(runs, t.blocks, t.index);
    RanksOfConcat(runs);
    var blocks := BlocksOf(Ranks(t.index), handle => Ranks(BlockReader(t.blocks, handle)));
    forall i | 0 <= i < |blocks|
      ensures blocks[i] == RunRanks(runs)[i]
    {
      assert Separated(runs, t.blocks, t.index, i);
      HandleNamesBlock(t.blocks, i);
    }
    assert blocks == RunRanks(runs);
  }

  // ---- lookup --------------------------------------------------------------------------------------------

  /** If a block ends before the target that its index key reaches, the next row has another user key. */
  lemma GapHasAnotherUser(runs: seq<seq<Row>>, blocks: seq<Stored>, index: seq<Row>, i: nat, k: ByteKey)
    requires Indexed(runs, blocks, index) && i < |index| && i + 1 < |runs|
    requires !Before(Ranked(index[i].key), Ranked(k)) && Before(Last(runs[i]), Ranked(k))
    ensures Rank(k.user) < Rank(runs[i + 1][0].key.user)
  {
    assert Separated(runs, blocks, index, i);
  }

  /** The handle of a block of the table, decoded for the filter and for the reader. */
  lemma IndexEntry(p: Policy, t: Table, rows: seq<Row>, i: nat)
    requires IsTable(p, t, rows) && i < |t.index|
    ensures DecodeHandle(t.index[i].value) == Some((t.blocks[i].offset, t.blocks[i].size))
    ensures BlockReader(t.blocks, t.index[i].value) == t.blocks[i].rows
  {
    hide SortedRows, Concat, Filtered, OffsetsRise, DecodeHandle, BlockReader, EncodeHandle;
    assert Separated(Runs(t.blocks), t.blocks, t.index, i);
    HandleNamesBlock(t.blocks, i);
  }

  /** The filter lets through every key whose user key is in the block. */
  lemma FilterLetsThrough(p: Policy, t: Table, rows: seq<Row>, i: nat, j: nat, k: ByteKey)
    requires IsTable(p, t, rows) && i < |t.blocks| && j < |t.blocks[i].rows|
    requires t.filter.Some? && |t.filter.value| <= MAX_UINT32 && 1 <= p.k <= 30
    requires t.blocks[i].rows[j].key.user == k.user
    ensures MayMatch(InternalPolicy(p).hash, t.filter.value, t.blocks[i].offset, Encode(k))
  {
    hide SortedRows, Concat, OffsetsRise, Indexed, IsFilterBlock, MayMatch, Encode;
    var groups :| IsFilterBlock(InternalPolicy(p), t.filter.value, groups) && InGroups(t.blocks, groups);
    var stored := t.blocks[i].rows[j].key;
    assert InGroup(groups, t.blocks[i].offset, Encode(stored));
    KeysOfBlockMayMatch(InternalPolicy(p), t.filter.value, groups, t.blocks[i].offset, Encode(stored));
    SameUserMatchesSame(p, t.filter.value, groups, t.blocks[i].offset, stored, k);
  }

  lemma FilteredOutIsAbsent(p: Policy, t: Table, rows: seq<Row>, i: nat, k: ByteKey)
    requires IsTable(p, t, rows) && i < |t.blocks|
    requires t.filter.Some? && |t.filter.value| <= MAX_UINT32 && 1 <= p.k <= 30
    requires !MayMatch(InternalPolicy(p).hash, t.filter.value, t.blocks[i].offset, Encode(k))
    ensures forall j :: 0 <= j < |t.blocks[i].rows| ==> t.blocks[i].rows[j].key.user != k.user
  {
    hide IsTable, MayMatch, Encode, InternalPolicy;
    forall j | 0 <= j < |t.blocks[i].rows| && t.blocks[i].rows[j].key.user == k.user
      ensures false
    {
      FilterLetsThrough(p, t, rows, i, j, k);
    }
  }

  /** Where a lookup that goes through the index ends up among all the rows. */
  lemma WhereSeekEnds(p: Policy, t: Table, rows: seq<Row>, k: ByteKey)
    requires IsTable(p, t, rows)
    ensures var i, at := SeekRow(t.index, k), SeekRow(rows, k);
      if i == |t.index| then at == |rows| else
        var j := SeekRow(t.blocks[i].rows, k);
        if j < |t.blocks[i].rows| then at < |rows| && rows[at] == t.blocks[i].rows[j]
        else at == |rows| || Rank(k.user) < Rank(rows[at].key.user)
  {
    hide OffsetsRise, SortedRows, Concat, Start, Filtered, SoundIndex, EncodeHandle, LowerBound, Ranks, RunRanks,
         Before;
    var runs := Runs(t.blocks);
    var i := SeekRow(t.index, k);
    ShortIndexIsSound(runs, t.blocks, t.index);
    SeekInTwoLevels(Ranks(t.index), RunRanks(runs), Ranked(k));
    RanksOfConcat(runs);
    if i < |t.index| {
      RanksStart(runs, i);
      var j := SeekRow(runs[i], k);
      if j < |runs[i]| {
        InConcat(runs, i, j);
      } else {
        NextStart(runs, i);
        assert Before(Ranks(runs[i])[j - 1].key, Ranked(k));
        if i + 1 < |runs| {
          InConcat(runs, i + 1, 0);
          GapHasAnotherUser(runs, t.blocks, t.index, i, k);
        } else {
          Ends(runs);
        }
      }
    }
  }

  lemma TableSize(p: Policy, t: Table, rows: seq<Row>)
    requires IsTable(p, t, rows)
    ensures |t.index| == |t.blocks|
  {
  }
}
