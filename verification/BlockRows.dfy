/**
 The rows of a data block as its bytes: block_builder.cc and block.cc under the order that
 InternalKeyComparator (db/dbformat.cc) gives to encoded internal keys.
 */
module BlockRows {
  import opened Options
  import opened Keys
  import opened Coding
  import opened Separators
  import opened BlockBuilder
  import opened Block
  import opened Table

  /** The packed word behind the user key. */
  function TagPart(s: Bytes): nat
    requires |s| >= 8
  {
    DecodeFixed(s[|s| - 8..])
  }

  /** InternalKeyComparator::Compare(a, b) < 0, which is not asked about shorter strings. */
  predicate KeyLess(a: Bytes, b: Bytes) {
    && |a| >= 8 && |b| >= 8
    && (BytewiseLess(ExtractUserKey(a), ExtractUserKey(b))
       || (ExtractUserKey(a) == ExtractUserKey(b) && TagPart(a) > TagPart(b)))
  }

  lemma KeyLessIsTransitive(a: Bytes, b: Bytes, c: Bytes)
    requires KeyLess(a, b) && KeyLess(b, c)
    ensures KeyLess(a, c)
  {
    hide BytewiseLess, Rank, DecodeFixed;
    RankEmbedsOrder(ExtractUserKey(a), ExtractUserKey(b));
    RankEmbedsOrder(ExtractUserKey(b), ExtractUserKey(c));
    RankEmbedsOrder(ExtractUserKey(a), ExtractUserKey(c));
  }

  predicate InRange(rows: seq<Row>) {
    forall r <- rows :: r.key.sequence <= MAX_SEQUENCE
  }

  lemma PartsOfKey(k: ByteKey)
    requires k.sequence <= MAX_SEQUENCE
    ensures |Encode(k)| >= 8 && ExtractUserKey(Encode(k)) == k.user && TagPart(Encode(k)) == Ranked(k).Tag()
  {
    hide DecodeFixed, Rank;
    FixedRoundTrip(Ranked(k).Tag(), 8);
    var s := Encode(k);
    assert s[|s| - 8..] == Fixed64(Ranked(k).Tag());
    assert s[..|s| - 8] == k.user;
  }

  /** The comparator on encoded keys is the order on the keys. */
  lemma KeyLessIsBefore(a: ByteKey, b: ByteKey)
    requires a.sequence <= MAX_SEQUENCE && b.sequence <= MAX_SEQUENCE
    ensures KeyLess(Encode(a), Encode(b)) <==> Before(Ranked(a), Ranked(b))
    ensures Encode(a) == Encode(b) <==> a == b
  {
    hide BytewiseLess, Rank, DecodeFixed, Encode;
    PartsOfKey(a);
    PartsOfKey(b);
    RankEmbedsOrder(a.user, b.user);
  }

  /** What BlockBuilder::Add is given for the rows. */
  function PairsOf(rows: seq<Row>): (pairs: seq<Pair>)
    ensures |pairs| == |rows|
  {
    seq(|rows|, i requires 0 <= i < |rows| => Pair(Encode(rows[i].key), rows[i].value))
  }

  /** The bytes of a finished block are those of the rows. */
  ghost predicate Holds(data: Bytes, rows: seq<Row>) {
    exists l :: IsBlock(data, l) && l.pairs == PairsOf(rows)
  }

  /** A block's bytes determine its rows. */
  lemma BytesDetermineRows(data: Bytes, rows: seq<Row>, others: seq<Row>)
    requires Holds(data, rows) && Holds(data, others) && InRange(rows) && InRange(others)
    ensures rows == others
  {
    hide IsBlock, Encode;
    var l :| IsBlock(data, l) && l.pairs == PairsOf(rows);
    var m :| IsBlock(data, m) && m.pairs == PairsOf(others);
    BlockDeterminesPairs(data, l, m);
    forall i | 0 <= i < |rows|
      ensures rows[i] == others[i]
    {
      assert PairsOf(rows)[i] == PairsOf(others)[i];
      KeyLessIsBefore(rows[i].key, others[i].key);
    }
  }

  lemma RowsAscend(rows: seq<Row>)
    requires Sorted(Ranks(rows)) && InRange(rows)
    ensures Ascending(KeyLess, PairsOf(rows))
  {
    hide KeyLess, Encode;
    forall a, b, c | KeyLess(a, b) && KeyLess(b, c)
      ensures KeyLess(a, c)
    {
      KeyLessIsTransitive(a, b, c);
    }
    forall i, j | 0 <= i < j < |rows|
      ensures KeyLess(PairsOf(rows)[i].key, PairsOf(rows)[j].key)
    {
      assert Before(Ranks(rows)[i].key, Ranks(rows)[j].key);
      KeyLessIsBefore(rows[i].key, rows[j].key);
    }
  }

  /** A seek among the bytes is the seek among the rows. */
  lemma SeekIsSeekRow(rows: seq<Row>, k: ByteKey, i: nat)
    requires InRange(rows) && k.sequence <= MAX_SEQUENCE && Sorted(Ranks(rows))
    requires IsLowerBound(KeyLess, PairsOf(rows), Encode(k), i)
    ensures i == SeekRow(rows, k)
  {
    hide KeyLess, Encode, LowerBound;
    forall j | 0 <= j < |rows|
      ensures KeyLess(PairsOf(rows)[j].key, Encode(k)) <==> Before(Ranks(rows)[j].key, Ranked(k))
    {
      KeyLessIsBefore(rows[j].key, k);
    }
    var r := LowerBound(Ranks(rows), Ranked(k));
    assert i < |rows| && r < |rows| ==>
           !KeyLess(PairsOf(rows)[i].key, Encode(k)) && !Before(Ranks(rows)[r].key, Ranked(k));
  }

  // ---- writing and reading -------------------------------------------------------------------------------

  /** What pairs take in a block at most: three lengths and a restart point with each. */
  function Weight(pairs: seq<Pair>): nat {
    if pairs == [] then 0 else
      var last := pairs[|pairs| - 1];
      Weight(pairs[..|pairs| - 1]) + |last.key| + |last.value| + 19
  }

  /** The pairs fit into a block. */
  predicate FitsBlock(pairs: seq<Pair>) {
    Weight(pairs) + 8 <= MAX_UINT32
  }

  lemma {:induction false} PartsFit(pairs: seq<Pair>, i: nat)
    requires i < |pairs|
    ensures |pairs[i].key| + |pairs[i].value| <= Weight(pairs)
  {
    if i < |pairs| - 1 {
      PartsFit(pairs[..|pairs| - 1], i);
    }
  }

  lemma EncodedLength(shared: nat, pair: Pair)
    requires shared <= |pair.key| <= MAX_UINT32 && |pair.value| <= MAX_UINT32
    ensures |Encoded(shared, pair)| <= 15 + |pair.key| + |pair.value|
  {
    hide Varint;
    EncodeVarint32IsVarint(shared);
    EncodeVarint32IsVarint(|pair.key| - shared);
    EncodeVarint32IsVarint(|pair.value|);
  }

  lemma {:induction false} OffsetIsSmall(data: Bytes, l: Layout, i: nat)
    requires Entries(data, l) && i <= |l.pairs|
    ensures l.offsets[i] + 4 * i <= Weight(l.pairs[..i])
  {
    hide Encoded;
    if i > 0 {
      OffsetIsSmall(data, l, i - 1);
      assert EntryAt(data, l, i - 1);
      EncodedLength(l.shares[i - 1], l.pairs[i - 1]);
      assert l.pairs[..i][..i - 1] == l.pairs[..i - 1];
    }
  }

  lemma {:induction false} StartsRise(l: Layout, r: nat)
    requires |l.shares| == |l.pairs| && Restarts(l) && r < |l.starts|
    ensures l.starts[r] >= r
  {
    if r > 0 {
      StartsRise(l, r - 1);
      assert l.starts[r - 1] < l.starts[r - 1 + 1];
    }
  }

  /** What has been written can be finished within 32 bits. */
  lemma WrittenFits(buffer: Bytes, restarts: seq<nat>, lastKey: Bytes, l: Layout)
    requires Written(buffer, restarts, lastKey, l)
    ensures |buffer| + 4 * |restarts| + 4 <= Weight(l.pairs) + 8
  {
    hide EntryAt;
    OffsetIsSmall(buffer, l, |l.pairs|);
    assert l.pairs[..|l.pairs|] == l.pairs;
    StartsRise(l, |l.starts| - 1);
    assert |restarts| == |l.starts|;
    assert |l.starts| == 1 || |l.starts| <= |l.pairs|;
  }

  /** BlockBuilder: the block of some pairs, added one by one. */
  method BlockOf(pairs: seq<Pair>, restartInterval: nat) returns (block: Bytes, ghost l: Layout)
    requires restartInterval >= 1 && FitsBlock(pairs)
    ensures IsBlock(block, l) && l.pairs == pairs && |l.shares| == |pairs| && Compressed(l, restartInterval)
    ensures exists m :: IsBlock(block, m) && m.pairs == pairs
  {
    hide Weight, IsBlock, Written, Compressed;
    var b := new BlockBuilder(restartInterval);
    for i := 0 to |pairs|
      invariant b.Valid() && !b.finished && b.layout.pairs == pairs[..i]
    {
      PartsFit(pairs, i);
      b.Add(pairs[i].key, pairs[i].value);
    }
    assert pairs[..|pairs|] == pairs;
    WrittenFits(b.buffer, b.restarts, b.lastKey, b.layout);
    l := b.layout;
    block := b.Finish();
  }

  /** A block's iterator, placed by Seek: the key and the value it is at. */
  method SeekPair(data: Bytes, less: (Bytes, Bytes) -> bool, target: Bytes, ghost l: Layout)
    returns (r: Option<Pair>, ghost i: nat)
    requires IsBlock(data, l) && Ascending(less, l.pairs)
    ensures IsLowerBound(less, l.pairs, target, i)
    ensures r == if i < |l.pairs| then Some(l.pairs[i]) else None
    ensures exists j: nat :: IsLowerBound(less, l.pairs, target, j)
                        && r == if j < |l.pairs| then Some(l.pairs[j]) else None
  {
    hide IsBlock, Ascending, IsLowerBound, OpenBlock;
    FinishedBlockOpens(data, l);
    var start := OpenBlock(data);
    var (restarts, numRestarts) := start.value;
    var iter := new Iter(data, restarts, numRestarts, less, l);
    iter.Seek(target);
    i := iter.pos;
    r := None;
    if iter.IsValid() {
      r := Some(Pair(iter.Key(), iter.Value()));
    }
  }

  /** The iterator of a block of rows, placed by Seek. */
  method SeekInBytes(data: Bytes, k: ByteKey, ghost rows: seq<Row>) returns (r: Option<Pair>)
    requires Holds(data, rows) && Sorted(Ranks(rows)) && InRange(rows) && k.sequence <= MAX_SEQUENCE
    ensures var i := SeekRow(rows, k);
      r == if i < |rows| then Some(Pair(Encode(rows[i].key), rows[i].value)) else None
  {
    hide IsBlock, KeyLess, Encode, SeekRow, Ascending, IsLowerBound;
    ghost var l :| IsBlock(data, l) && l.pairs == PairsOf(rows);
    RowsAscend(rows);
    ghost var i;
    r, i := SeekPair(data, KeyLess, Encode(k), l);
    SeekIsSeekRow(rows, k, i);
  }
}
