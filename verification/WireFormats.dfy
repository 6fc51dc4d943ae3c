/**
 The formats spelled out: what single records are in bytes, in files (db/log_format.h, table/format.h,
 db/dbformat.h, db/version_edit.cc, db/write_batch.cc) and in messages (pb_encode.c).
 */
module WireFormats {
  import opened Options
  import opened Keys
  import opened Coding
  import Batch = WriteBatch
  import Edits = VersionEdit
  import Blocks = BlockBuilder
  import Tables = Table
  import Files = TableFormat
  import Filters = FilterBlock
  import Log = LogFormat
  import Writer = LogWriter
  import Crc = Crc32c
  import Pb = Nanopb
  import opened Separators

  // ---- integers ------------------------------------------------------------------------------------------

  /** Little-endian words of four bytes, and of eight. */
  lemma FixedBytes(v: nat)
    ensures Fixed32(v) == [v % 0x100, v / 0x100 % 0x100, v / 0x1_0000 % 0x100, v / 0x100_0000 % 0x100]
    ensures Fixed64(v) == Fixed32(v) + Fixed32(v / 0x1_0000_0000)
  {
    assert v / 0x100 / 0x100 == v / 0x1_0000 && v / 0x1_0000 / 0x100 == v / 0x100_0000
        && v / 0x100_0000 / 0x100 == v / 0x1_0000_0000;
    FixedAfter(v, 4);
    assert Fixed(v, 4) == [v % 0x100] + Fixed(v / 0x100, 3);
    assert Fixed(v / 0x100, 3) == [v / 0x100 % 0x100] + Fixed(v / 0x1_0000, 2);
    assert Fixed(v / 0x1_0000, 2) == [v / 0x1_0000 % 0x100] + Fixed(v / 0x100_0000, 1);
    assert Fixed(v / 0x100_0000, 1) == [v / 0x100_0000 % 0x100] + Fixed(v / 0x1_0000_0000, 0);
  }

  lemma FixedAfter(v: nat, n: nat)
    ensures Fixed(v, 4 + n) == Fixed(v, 4) + Fixed(v / 0x1_0000_0000, n)
  {
    hide Fixed;
    FixedStep(v, 3 + n);
    FixedStep(v / 0x100, 2 + n);
    FixedStep(v / 0x1_0000, 1 + n);
    FixedStep(v / 0x100_0000, n);
    FixedStep(v, 3);
    FixedStep(v / 0x100, 2);
    FixedStep(v / 0x1_0000, 1);
    FixedStep(v / 0x100_0000, 0);
    assert v / 0x100 / 0x100 == v / 0x1_0000 && v / 0x1_0000 / 0x100 == v / 0x100_0000
        && v / 0x100_0000 / 0x100 == v / 0x1_0000_0000;
  }

  lemma FixedStep(v: nat, n: nat)
    ensures Fixed(v, n + 1) == [v % 0x100] + Fixed(v / 0x100, n) && Fixed(v, 0) == []
  {
  }

  lemma ShortVarints(v: nat)
    ensures v < 128 ==> Varint(v) == [v]
    ensures Varint(300) == [0xAC, 0x02] && Varint(0xFFFF_FFFF) == [0xFF, 0xFF, 0xFF, 0xFF, 0x0F]
  {
    assert Varint(2) == [2];
    EncodeVarint32IsVarint(0xFFFF_FFFF);
  }

  /** A short string with its length in front. */
  lemma ShortSlice(s: Bytes)
    requires |s| < 128
    ensures LengthPrefixed(s) == [|s|] + s
  {
  }

  // ---- write batches and version edits -------------------------------------------------------------------

  /** A put is a 1, the key and the value; a deletion is a 0 and the key. */
  lemma BatchRecords(key: Bytes, value: Bytes)
    requires |key| < 128 && |value| < 128
    ensures Batch.Encoded(Batch.Put(key, value)) == [1, |key|] + key + [|value|] + value
    ensures Batch.Encoded(Batch.Delete(key)) == [0, |key|] + key
  {
    hide LengthPrefixed;
    ShortSlice(key);
    ShortSlice(value);
  }

  /** Eight bytes of sequence number and four of count come first. */
  lemma BatchHeader(rep: Bytes, sequence: nat, ops: seq<Batch.BatchOp>)
    requires Batch.IsBatch(rep, sequence, ops)
    ensures |rep| >= 12 && rep[..8] == Fixed(sequence, 8) && rep[8..12] == Fixed(|ops|, 4)
    ensures rep[12..] == Batch.EncodedOps(ops)
  {
    hide Fixed, Batch.EncodedOps;
  }

  /** A record that starts with anything else is turned down, as is a batch without a whole header. */
  lemma BadBatches(rep: Bytes)
    ensures |rep| < 12 ==> Batch.Outcome(rep).0 == [] && Batch.Outcome(rep).1 != Batch.Ok
    ensures |rep| > 12 && rep[12] > 1 ==> Batch.Outcome(rep).0 == [] && Batch.Outcome(rep).1 != Batch.Ok
  {
  }

  /** The tags of a manifest record. */
  lemma EditFields(n: nat, level: nat, key: Bytes)
    requires n < 128 && level < 7 && |key| < 128
    ensures Edits.Encoded(Edits.Comparator(key)) == [1, |key|] + key
    ensures Edits.Encoded(Edits.LogNumber(n)) == [2, n]
    ensures Edits.Encoded(Edits.NextFileNumber(n)) == [3, n]
    ensures Edits.Encoded(Edits.LastSequence(n)) == [4, n]
    ensures Edits.Encoded(Edits.CompactPointer(level, key)) == [5, level, |key|] + key
    ensures Edits.Encoded(Edits.DeletedFile(level, n)) == [6, level, n]
    ensures Edits.Encoded(Edits.PrevLogNumber(n)) == [9, n]
  {
    SmallVarints(n, level);
    ShortSlice(key);
    hide LengthPrefixed, Varint;
  }

  lemma SmallVarints(n: nat, level: nat)
    requires n < 128 && level < 7
    ensures Varint(1) == [1] && Varint(2) == [2] && Varint(3) == [3] && Varint(4) == [4] && Varint(5) == [5]
    ensures Varint(6) == [6] && Varint(7) == [7] && Varint(9) == [9] && Varint(n) == [n] && Varint(level) == [level]
  {
  }

  lemma NewFileField(level: nat, m: Edits.FileMeta)
    requires level < 7 && m.number < 128 && m.size < 128 && |m.smallest| < 128 && |m.largest| < 128
    ensures Edits.Encoded(Edits.NewFile(level, m))
         == [7] + ([level] + ([m.number] + [m.size] + ([|m.smallest|] + m.smallest) + ([|m.largest|] + m.largest)))
  {
    SmallVarints(m.number, level);
    SmallVarints(m.size, level);
    ShortSlice(m.smallest);
    ShortSlice(m.largest);
    hide LengthPrefixed, Varint;
  }

  // ---- tables --------------------------------------------------------------------------------------------

  /** An internal key is the user key, the type and seven bytes of sequence number. */
  lemma InternalKeyBytes(k: ByteKey)
    ensures Tables.Encode(k) == k.user + ([if k.kind.Value? then 1 else 0] + Fixed(k.sequence, 7))
  {
    hide Rank;
    var tag := k.sequence * 256 + if k.kind.Value? then 1 else 0;
    assert tag % 256 == (if k.kind.Value? then 1 else 0) && tag / 256 == k.sequence;
    assert Fixed64(tag) == [tag % 256] + Fixed(tag / 256, 7);
  }

  /** An entry of a block: shared, own and value length, the own part of the key, and the value. */
  lemma EntryBytes(shared: nat, pair: Blocks.Pair)
    requires shared <= |pair.key| < 128 && |pair.value| < 128
    ensures Blocks.Encoded(shared, pair)
         == [shared, |pair.key| - shared, |pair.value|] + pair.key[shared..] + pair.value
  {
  }

  /** A block without pairs is one restart point at 0 and their number. */
  lemma EmptyBlock(block: Bytes, l: Blocks.Layout)
    requires Blocks.IsBlock(block, l) && l.pairs == [] && |l.starts| == 1
    ensures block == [0, 0, 0, 0, 1, 0, 0, 0]
  {
    assert Blocks.RestartOffsets(l) == [0];
    assert [0][..0] == [];
    assert Blocks.Words([0]) == Blocks.Words([]) + Fixed32(0);
    FixedOfByte(0);
    FixedOfByte(1);
  }

  lemma FixedOfByte(v: nat)
    requires v < 256
    ensures Fixed32(v) == [v, 0, 0, 0]
  {
    FixedBytes(v);
  }

  /** A block of type 0 is stored as it is, one of type 1 compressed; there are no others. */
  lemma BlockTypes(contents: Bytes, kind: Byte, checksum: Bytes, codec: Files.Codec)
    requires |checksum| == 4
    ensures Files.ReadBlock(contents + [kind] + checksum, false, codec, (0, |contents|))
         == if kind == 0 then Some(contents) else if kind == 1 then codec.uncompress(contents) else None
  {
    hide Files.WordOf, Files.Bits;
    var data := contents + [kind] + checksum;
    assert data[0..|contents| + 5] == data;
    assert data[..|contents|] == contents;
  }

  /** Five bytes behind each block: its type and the masked checksum of contents and type. */
  lemma TrailerBytes(contents: Bytes, kind: Byte)
    ensures var t := Files.Trailer(contents, kind);
      t[0] == kind && Files.WordOf(t[1..]) == Crc.Mask(Crc.Checksum(0, Files.Bits(contents + [kind])))
  {
    hide Crc.Checksum, Crc.Mask, Files.WordOf, Files.WordBytes;
    Files.BitsOfParts(contents, [kind]);
    Crc.ChecksumOfConcatenation(0, Files.Bits(contents), Files.Bits([kind]));
    Files.WordReads(Crc.Mask(Crc.Checksum(Crc.Checksum(0, Files.Bits(contents)), Files.Bits([kind]))));
    var word := Files.WordBytes(Crc.Mask(Crc.Checksum(Crc.Checksum(0, Files.Bits(contents)), Files.Bits([kind]))));
    assert Files.Trailer(contents, kind)[1..] == word;
  }

  /** A footer is 40 bytes of handles and padding, and the magic number. */
  lemma FooterBytes(metaindex: (nat, nat), index: (nat, nat))
    requires Files.Fits64(metaindex) && Files.Fits64(index)
    ensures var s := Files.EncodeFooter(metaindex, index);
      var handles := Varint(metaindex.0) + Varint(metaindex.1) + Varint(index.0) + Varint(index.1);
      && |s| == 48 && |handles| <= 40 && s[..|handles|] == handles
      && (forall i :: |handles| <= i < 40 ==> s[i] == 0)
      && s[40..] == [0x57, 0xfb, 0x80, 0x8b, 0x24, 0x75, 0x47, 0xdb]
  {
    hide Varint, Files.Magic, Files.Resized, Files.Fits64;
    MagicBytes();
    Files.HandleFits(metaindex);
    Files.HandleFits(index);
    var a, b := Varint(metaindex.0) + Varint(metaindex.1), Varint(index.0) + Varint(index.1);
    ResizedIs(a + b, 40);
    assert a + b == Varint(metaindex.0) + Varint(metaindex.1) + Varint(index.0) + Varint(index.1);
  }

  lemma ResizedIs(s: Bytes, n: nat)
    requires |s| <= n
    ensures Files.Resized(s, n)[..|s|] == s && forall i :: |s| <= i < n ==> Files.Resized(s, n)[i] == 0
  {
  }

  /** A footer with any other magic number is turned down. */
  lemma OtherMagicIsRejected(s: Bytes)
    requires |s| == 48 && s[40..] != [0x57, 0xfb, 0x80, 0x8b, 0x24, 0x75, 0x47, 0xdb]
    ensures Files.DecodeFooter(s) == None
  {
    hide DecodeFixed, Fixed, Files.HandleAt;
    DecodeFits(s[40..44]);
    DecodeFits(s[44..48]);
    LowWord();
    HighWord();
    assert s[40..] == s[40..44] + s[44..48];
  }

  lemma DecodeFits(s: Bytes)
    requires |s| == 4
    ensures DecodeFixed(s) < 0x1_0000_0000 && Fixed32(DecodeFixed(s)) == s
  {
    FixedOfDecode(s);
    DecodeIsBelow(s);
    assert Power(256, 4) == 256 * Power(256, 3) == 256 * (256 * Power(256, 2));
    assert Power(256, 2) == 256 * Power(256, 1) == 256 * 256;
  }

  lemma MagicBytes()
    ensures Files.Magic() == [0x57, 0xfb, 0x80, 0x8b, 0x24, 0x75, 0x47, 0xdb]
  {
    LowWord();
    HighWord();
    hide Fixed32;
  }

  lemma LowWord()
    ensures Fixed32(0x8b80fb57) == [0x57, 0xfb, 0x80, 0x8b]
  {
    hide Fixed;
    FixedBytes(0x8b80fb57);
  }

  lemma HighWord()
    ensures Fixed32(0xdb477524) == [0x24, 0x75, 0x47, 0xdb]
  {
    hide Fixed;
    FixedBytes(0xdb477524);
  }

  /** A filter block ends with the word that tells where the offsets begin, and the base 11. */
  lemma FilterBlockEnds(contents: Bytes, result: Bytes, offsets: seq<nat>)
    requires Filters.IsLaidOut(contents, result, offsets)
    ensures |contents| == |result| + 4 * |offsets| + 5 && contents[|contents| - 1] == 11
    ensures contents[|contents| - 5..|contents| - 1] == Fixed(|result|, 4)
  {
    hide Fixed, Blocks.Words;
  }

  // ---- logs ----------------------------------------------------------------------------------------------

  /** A header is the masked checksum of type and payload, two bytes of length and the type. */
  lemma HeaderBytes(t: nat, payload: seq<bv8>)
    requires t < 128 && |payload| <= 0xffff
    ensures var h := Log.Header(t, payload);
      && |h| == 7 && Log.NatOf(h[4]) == |payload| % 256 && Log.NatOf(h[5]) == |payload| / 256 && Log.NatOf(h[6]) == t
      && Crc.DecodeFixed32(h[0], h[1], h[2], h[3]) == Crc.Mask(Crc.Checksum(0, [Log.ByteOf(t)] + payload))
  {
    hide Crc.Mask, Crc.Unmask, Crc.Byte, Crc.DecodeFixed32, Crc.Checksum, Log.ByteOf, Log.NatOf;
    Log.NatOfByteOf(t);
    Log.NatOfByteOf(|payload| % 256);
    Log.NatOfByteOf(|payload| / 256);
    Crc.ChecksumOfConcatenation(0, [Log.ByteOf(t)], payload);
    Log.DecodeOfBytes(Crc.Mask(Log.WrittenCrc(t, payload)));
  }

  /** A record that fits behind a header in what its block has left is one fragment of type 1. */
  lemma WholeRecord(p: nat, data: seq<bv8>)
    requires p % 32768 + 7 + |data| <= 32768
    ensures Writer.Record(p, data, true) == Log.Header(1, data) + data
  {
    hide Log.Header;
    assert p == p / 32768 * 32768 + p % 32768;
    Log.BlockEndIs(p, (p / 32768 + 1) * 32768);
    assert data[..|data|] == data;
  }

  /** Less than a header's length at the end of a block is filled with zeros. */
  lemma RecordBehindTail(p: nat, data: seq<bv8>)
    requires p % 32768 > 32761 && |data| <= 32761
    ensures Writer.Record(p, data, true) == seq(32768 - p % 32768, _ => 0) + Log.Header(1, data) + data
  {
    hide Log.Header;
    var e := (p / 32768 + 1) * 32768;
    assert p == p / 32768 * 32768 + p % 32768;
    Log.BlockEndIs(p, e);
    Log.BlockEndIs(e, e + 32768);
    assert data[..|data|] == data;
    assert Writer.Zeros(e - p) == seq(32768 - p % 32768, _ => 0);
  }

  /** A record that starts with a block and ends in the third has fragments of types 2, 3 and 4. */
  lemma LongRecord(p: nat, data: seq<bv8>)
    requires p % 32768 == 0 && 2 * 32761 < |data| <= 3 * 32761
    ensures var a, rest := data[..32761], data[32761..];
            var b, c := rest[..32761], rest[32761..];
            Writer.Record(p, data, true)
              == Log.Header(2, a) + a + (Log.Header(3, b) + b + (Log.Header(4, c) + c))
  {
    hide *;
    TwoFragments(p + 32768, data[32761..]);
    FullFragment(p, data, true);
  }

  lemma TwoFragments(p: nat, rest: seq<bv8>)
    requires p % 32768 == 0 && 32761 < |rest| <= 2 * 32761
    ensures var b, c := rest[..32761], rest[32761..];
            Writer.Record(p, rest, false) == Log.Header(3, b) + b + (Log.Header(4, c) + c)
  {
    hide *;
    LastFragment(p + 32768, rest[32761..]);
    FullFragment(p, rest, false);
  }

  lemma FullFragment(p: nat, data: seq<bv8>, begin: bool)
    requires p % 32768 == 0 && |data| > 32761
    ensures Writer.Record(p, data, begin)
         == Log.Header(if begin then 2 else 3, data[..32761]) + data[..32761]
           + Writer.Record(p + 32768, data[32761..], false)
  {
    hide Log.Header;
    Log.BlockEndIs(p, p + 32768);
    assert Writer.Zeros(0) + Log.Header(if begin then 2 else 3, data[..32761])
        == Log.Header(if begin then 2 else 3, data[..32761]);
  }

  lemma LastFragment(p: nat, data: seq<bv8>)
    requires p % 32768 == 0 && |data| <= 32761
    ensures Writer.Record(p, data, false) == Log.Header(4, data) + data
  {
    hide Log.Header;
    Log.BlockEndIs(p, p + 32768);
    assert data[..|data|] == data;
    assert Writer.Zeros(0) + Log.Header(4, data) == Log.Header(4, data);
  }

  // ---- messages ------------------------------------------------------------------------------------------

  /** Numbers of each type, as in the protocol buffers encoding. */
  lemma MessageNumbers(initial: Pb.Value)
    ensures Pb.EncodedSlot(Pb.Field(1, Pb.SignedVarint(4), Pb.Optional, initial), Pb.Maybe(Some(Pb.Number(150))))
         == [0x08, 0x96, 0x01]
    ensures Pb.EncodedSlot(Pb.Field(1, Pb.UnsignedVarint(8), Pb.Required, initial), Pb.One(Pb.Number(300)))
         == [0x08, 0xAC, 0x02]
    ensures Pb.EncodedSlot(Pb.Field(1, Pb.ZigzagVarint(4), Pb.Required, initial), Pb.One(Pb.Number(-1))) == [0x08, 0x01]
    ensures Pb.EncodedSlot(Pb.Field(1, Pb.ZigzagVarint(4), Pb.Required, initial), Pb.One(Pb.Number(1))) == [0x08, 0x02]
    ensures Pb.EncodedSlot(Pb.Field(7, Pb.Bool, Pb.Required, initial), Pb.One(Pb.Flag(true))) == [0x38, 0x01]
    ensures Pb.EncodedSlot(Pb.Field(5, Pb.Fixed32, Pb.Required, initial), Pb.One(Pb.Number(7))) == [0x2D, 7, 0, 0, 0]
  {
    MessageVarints();
    FixedOfByte(7);
    hide Varint, Fixed;
  }

  lemma MessageVarints()
    ensures Varint(8) == [8] && Varint(1) == [1] && Varint(2) == [2] && Varint(0x38) == [0x38]
    ensures Varint(0x2D) == [0x2D] && Varint(150) == [0x96, 0x01] && Varint(300) == [0xAC, 0x02]
  {
    assert Varint(150) == [0x96] + Varint(1) && Varint(300) == [0xAC] + Varint(2);
  }

  /** Strings, bytes and submessages have a tag of wire type 2, their length and their bytes. */
  lemma MessageStrings(s: Bytes, fields: seq<Pb.Field>, slots: seq<Pb.Slot>, initial: Pb.Value)
    requires |s| < 100 && 0 !in s
    requires Pb.SlotsTyped(fields, slots) && |Pb.EncodedFields(fields, slots, |fields|)| < 128
    ensures Pb.EncodedSlot(Pb.Field(2, Pb.StringType(100), Pb.Optional, initial), Pb.Maybe(Some(Pb.Blob(s))))
         == [0x12] + ([|s|] + s)
    ensures Pb.EncodedSlot(Pb.Field(2, Pb.BytesType(100), Pb.Required, initial), Pb.One(Pb.Blob(s)))
         == [0x12] + ([|s|] + s)
    ensures var e := Pb.EncodedFields(fields, slots, |fields|);
            Pb.EncodedSlot(Pb.Field(3, Pb.SubMessage(fields), Pb.Required, initial), Pb.One(Pb.Struct(slots)))
              == [0x1A] + ([|e|] + e)
  {
    hide Pb.EncodedFields, Pb.SlotsTyped;
    ShortSlice(s);
    ShortSlice(Pb.EncodedFields(fields, slots, |fields|));
    StringTags();
    hide Varint, LengthPrefixed;
  }

  lemma StringTags()
    ensures Varint(0x12) == [0x12] && Varint(0x1A) == [0x1A] && Varint(0x22) == [0x22] && Varint(0x31) == [0x31]
  {
  }

  /** A list of numbers is packed behind one tag; a list of strings has a tag for each. */
  lemma MessageLists(initial: Pb.Value)
    ensures Pb.EncodedSlot(Pb.Field(4, Pb.UnsignedVarint(4), Pb.Repeated(8), initial),
                           Pb.Many([Pb.Number(3), Pb.Number(270), Pb.Number(86942)]))
         == [0x22] + ([6] + [0x03, 0x8E, 0x02, 0x9E, 0xA7, 0x05])
    ensures Pb.EncodedSlot(Pb.Field(2, Pb.BytesType(8), Pb.Repeated(8), initial),
                           Pb.Many([Pb.Blob([0x61]), Pb.Blob([])]))
         == [0x12, 1, 0x61, 0x12, 0]
  {
    StringTags();
    PackedNumbers();
    ShortSlice([0x61]);
    ShortSlice([]);
    ShortSlice([0x03, 0x8E, 0x02, 0x9E, 0xA7, 0x05]);
    hide Varint, LengthPrefixed;
    var f := Pb.Field(4, Pb.UnsignedVarint(4), Pb.Repeated(8), initial);
    var items := [Pb.Number(3), Pb.Number(270), Pb.Number(86942)];
    assert Pb.EncodedItems(f, items, 1, false) == [0x03];
    assert Pb.EncodedItems(f, items, 2, false) == [0x03, 0x8E, 0x02];
    assert Pb.EncodedItems(f, items, 3, false) == [0x03, 0x8E, 0x02, 0x9E, 0xA7, 0x05];
    var g := Pb.Field(2, Pb.BytesType(8), Pb.Repeated(8), initial);
    var blobs := [Pb.Blob([0x61]), Pb.Blob([])];
    assert Pb.EncodedItems(g, blobs, 1, true) == [0x12, 1, 0x61];
    assert Pb.EncodedItems(g, blobs, 2, true) == [0x12, 1, 0x61, 0x12, 0];
  }

  lemma PackedNumbers()
    ensures Varint(3) == [0x03] && Varint(270) == [0x8E, 0x02] && Varint(86942) == [0x9E, 0xA7, 0x05]
  {
    assert Varint(2) == [2] && Varint(5) == [5];
    assert Varint(679) == [0xA7] + Varint(5);
  }

  /** A negative number takes ten bytes. */
  lemma NegativeNumber(initial: Pb.Value)
    ensures Pb.EncodedSlot(Pb.Field(1, Pb.SignedVarint(4), Pb.Required, initial), Pb.One(Pb.Number(-1)))
         == [0x08] + [0xFF, 0xFF, 0xFF, 0xFF, 0xFF, 0xFF, 0xFF, 0xFF, 0xFF, 0x01]
  {
    MessageVarints();
    LargestVarint();
    hide Varint;
  }

  lemma LargestVarint()
    ensures Varint(0xFFFF_FFFF_FFFF_FFFF) == [0xFF, 0xFF, 0xFF, 0xFF, 0xFF, 0xFF, 0xFF, 0xFF, 0xFF, 0x01]
  {
    MessageVarints();
    hide Varint;
    VarintIs(0xFFFFFFFFFFFFFFFF);
    VarintIs(0x1FFFFFFFFFFFFFF);
    VarintIs(0x3FFFFFFFFFFFF);
    VarintIs(0x7FFFFFFFFFF);
    VarintIs(0xFFFFFFFFF);
    VarintIs(0x1FFFFFFF);
    VarintIs(0x3FFFFF);
    VarintIs(0x7FFF);
    VarintIs(0xFF);
  }
}
