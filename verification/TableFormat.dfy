/**
 The bytes of a table file (table/format.cc): blocks with a type and a checksum behind them, and at the end a
 footer that names two of them.
 */
module TableFormat {
  import opened Options
  import opened Keys
  import opened Coding
  import opened LogFormat
  import opened Table

  // ---- blocks --------------------------------------------------------------------------------------------

  /** kNoCompression, kSnappyCompression. */
  const NO_COMPRESSION: Byte := 0
  const SNAPPY_COMPRESSION: Byte := 1

  /** port::Snappy_Compress and port::Snappy_Uncompress, which may turn a block down. */
  datatype Codec = Codec(compress: Bytes -> Option<Bytes>, uncompress: Bytes -> Option<Bytes>)

  ghost predicate Inverse(c: Codec) {
    forall s: Bytes {:trigger c.compress(s)} :: c.compress(s).Some? ==> c.uncompress(c.compress(s).value) == Some(s)
  }

  function Bits(s: Bytes): (r: seq<bv8>)
    ensures |r| == |s|
  {
    seq(|s|, i requires 0 <= i < |s| => ByteOf(s[i]))
  }

  lemma BitsOfParts(a: Bytes, b: Bytes)
    ensures Bits(a + b) == Bits(a) + Bits(b)
  {
    hide ByteOf;
  }

  lemma BitsDiffer(a: Bytes, b: Bytes)
    requires |a| == |b| && a != b
    ensures Bits(a) != Bits(b)
  {
    hide ByteOf, NatOf;
    var i :| 0 <= i < |a| && a[i] != b[i];
    NatOfByteOf(a[i]);
    NatOfByteOf(b[i]);
    assert Bits(a)[i] != Bits(b)[i];
  }

  /** EncodeFixed32 and DecodeFixed32 of a checksum. */
  function WordBytes(c: bv32): (s: Bytes)
    ensures |s| == 4
  {
    [NatOf(Crc32c.Byte(c, 0)), NatOf(Crc32c.Byte(c, 1)), NatOf(Crc32c.Byte(c, 2)), NatOf(Crc32c.Byte(c, 3))]
  }

  function WordOf(s: Bytes): bv32
    requires |s| == 4
  {
    Crc32c.DecodeFixed32(ByteOf(s[0]), ByteOf(s[1]), ByteOf(s[2]), ByteOf(s[3]))
  }

  lemma WordReads(c: bv32)
    ensures WordOf(WordBytes(c)) == c
  {
    hide ByteOf, NatOf, Crc32c.Byte, Crc32c.DecodeFixed32;
    forall k: nat | k < 4
      ensures ByteOf(NatOf(Crc32c.Byte(c, k))) == Crc32c.Byte(c, k)
    {
      ByteOfNatOf(Crc32c.Byte(c, k));
    }
    DecodeOfBytes(c);
  }

  /** The trailer of WriteRawBlock, which extends the checksum of the contents by the type. */
  function Trailer(contents: Bytes, kind: Byte): (s: Bytes)
    ensures |s| == BLOCK_TRAILER_SIZE
  {
    [kind] + WordBytes(Crc32c.Mask(Crc32c.Checksum(Crc32c.Checksum(0, Bits(contents)), Bits([kind]))))
  }

  function Sealed(contents: Bytes, kind: Byte): Bytes {
    contents + Trailer(contents, kind)
  }

  /** ReadBlock, which gives nothing for a block that is cut short, damaged or of an unknown type. */
  function ReadBlock(file: Bytes, verify: bool, codec: Codec, handle: (nat, nat)): Option<Bytes> {
    var (offset, n) := handle;
    if offset + n + BLOCK_TRAILER_SIZE > |file| then None else
      var data := file[offset..offset + n + BLOCK_TRAILER_SIZE];
      if verify && Crc32c.Unmask(WordOf(data[n + 1..])) != Crc32c.Checksum(0, Bits(data[..n + 1])) then None
      else if data[n] == NO_COMPRESSION then Some(data[..n])
      else if data[n] == SNAPPY_COMPRESSION then codec.uncompress(data[..n])
      else None
  }

  /** The block at `handle` stands for `data`. */
  ghost predicate StoredAt(file: Bytes, codec: Codec, handle: (nat, nat), data: Bytes) {
    var (offset, n) := handle;
    && offset + n + BLOCK_TRAILER_SIZE <= |file|
    && var contents, kind := file[offset..offset + n], file[offset + n];
    && At(file, offset, Sealed(contents, kind))
    && (|| (kind == NO_COMPRESSION && contents == data)
        || (kind == SNAPPY_COMPRESSION && codec.uncompress(contents) == Some(data)))
  }

  lemma SealedParts(file: Bytes, offset: nat, contents: Bytes, kind: Byte)
    requires At(file, offset, Sealed(contents, kind))
    ensures var n := |contents|; var data := file[offset..offset + n + BLOCK_TRAILER_SIZE];
      && offset + n + BLOCK_TRAILER_SIZE <= |file| && |data| == n + BLOCK_TRAILER_SIZE
      && data[..n] == contents && data[n] == kind && data[..n + 1] == contents + [kind]
      && data[n + 1..] == Trailer(contents, kind)[1..]
      && file[offset..offset + n] == contents && file[offset + n] == kind
  {
    hide Trailer;
    var n := |contents|;
    var data := file[offset..offset + n + BLOCK_TRAILER_SIZE];
    assert data == contents + Trailer(contents, kind);
    assert Trailer(contents, kind)[0] == kind by {
      TrailerStarts(contents, kind);
    }
    assert file[offset..offset + n] == data[..n];
  }

  lemma TrailerStarts(contents: Bytes, kind: Byte)
    ensures Trailer(contents, kind)[0] == kind
    ensures WordOf(Trailer(contents, kind)[1..]) == Crc32c.Mask(Crc32c.Checksum(0, Bits(contents + [kind])))
  {
    hide WordOf, WordBytes, Crc32c.Mask, Crc32c.Checksum, Bits;
    var c := Crc32c.Mask(Crc32c.Checksum(Crc32c.Checksum(0, Bits(contents)), Bits([kind])));
    assert Trailer(contents, kind)[1..] == WordBytes(c);
    WordReads(c);
    BitsOfParts(contents, [kind]);
    Crc32c.ChecksumOfConcatenation(0, Bits(contents), Bits([kind]));
  }

  /** A stored block is read, whether checksums are verified or not. */
  lemma StoredReads(file: Bytes, verify: bool, codec: Codec, handle: (nat, nat), data: Bytes)
    requires StoredAt(file, codec, handle, data)
    ensures ReadBlock(file, verify, codec, handle) == Some(data)
  {
    hide Trailer, WordOf, Bits, Crc32c.Mask, Crc32c.Unmask, Crc32c.Checksum, At, Sealed;
    var (offset, n) := handle;
    var contents, kind := file[offset..offset + n], file[offset + n];
    SealedParts(file, offset, contents, kind);
    TrailerStarts(contents, kind);
    Crc32c.MaskRoundTrips(Crc32c.Checksum(0, Bits(contents + [kind])));
  }

  /** Writing on leaves it where it is. */
  lemma StoredStays(file: Bytes, more: Bytes, codec: Codec, handle: (nat, nat), data: Bytes)
    requires StoredAt(file, codec, handle, data)
    ensures StoredAt(file + more, codec, handle, data)
  {
    hide Sealed;
    var (offset, n) := handle;
    assert (file + more)[offset..offset + n] == file[offset..offset + n];
    assert forall m :: offset <= m <= |file| ==> (file + more)[offset..m] == file[offset..m];
  }

  /** A block appended to the file. */
  lemma AppendedIsStored(file: Bytes, codec: Codec, contents: Bytes, kind: Byte, data: Bytes)
    requires || (kind == NO_COMPRESSION && contents == data)
             || (kind == SNAPPY_COMPRESSION && codec.uncompress(contents) == Some(data))
    ensures StoredAt(file + Sealed(contents, kind), codec, (|file|, |contents|), data)
  {
    hide Trailer;
    var r := file + Sealed(contents, kind);
    assert r[|file|..] == Sealed(contents, kind);
    SealedParts(r, |file|, contents, kind);
  }

  /**
   A block is turned down when its contents or type differ from what was written within four adjacent bytes,
   if checksums are verified.
   */
  lemma DamagedBlockIsRejected(file: Bytes, codec: Codec, offset: nat, contents: Bytes, kind: Byte,
                               before: Bytes, a: Bytes, b: Bytes, after: Bytes)
    requires contents + [kind] == before + a + after && |a| == |b| == 4 && a != b
    requires At(file, offset, before + b + after + Trailer(contents, kind)[1..])
    ensures ReadBlock(file, true, codec, (offset, |contents|)) == None
  {
    hide Trailer, WordOf, Bits, Crc32c.Mask, Crc32c.Unmask, Crc32c.Checksum;
    var n := |contents|;
    var data := file[offset..offset + n + BLOCK_TRAILER_SIZE];
    assert |before + b + after| == n + 1;
    assert data == before + b + after + Trailer(contents, kind)[1..];
    assert data[..n + 1] == before + b + after;
    assert data[n + 1..] == Trailer(contents, kind)[1..];
    TrailerStarts(contents, kind);
    Crc32c.MaskRoundTrips(Crc32c.Checksum(0, Bits(contents + [kind])));
    BitsDiffer(a, b);
    ThreeParts(before, a, after);
    ThreeParts(before, b, after);
    Crc32c.DamageIsDetected(0, Bits(before), Bits(a), Bits(b), Bits(after));
  }

  lemma ThreeParts(a: Bytes, b: Bytes, c: Bytes)
    ensures Bits(a + b + c) == Bits(a) + Bits(b) + Bits(c)
  {
    hide Bits;
    BitsOfParts(a, b);
    BitsOfParts(a + b, c);
  }

  // ---- the footer ----------------------------------------------------------------------------------------

  const TABLE_MAGIC: nat := 0xdb4775248b80fb57

  /** BlockHandle::kMaxEncodedLength, Footer::kEncodedLength. */
  const MAX_HANDLE: nat := 20
  const FOOTER_SIZE: nat := 48

  lemma {:induction false} VarintFits(v: nat, n: nat)
    requires n >= 1 && v < Power(128, n)
    ensures |Varint(v)| <= n
  {
    if v >= 128 {
      VarintFits(v / 128, n - 1);
    }
  }

  lemma TenBytes()
    ensures WORD64 <= Power(128, 10)
  {
    assert Power(128, 4) == 128 * Power(128, 3) == 0x4000 * Power(128, 2) == 0x20_0000 * Power(128, 1) == 0x1000_0000;
    assert Power(128, 10) == 128 * Power(128, 9) == 0x4000 * Power(128, 8) == 0x20_0000 * Power(128, 7);
    assert Power(128, 7) == 128 * Power(128, 6) == 0x4000 * Power(128, 5) == 0x20_0000 * Power(128, 4);
  }

  lemma HandleFits(handle: (nat, nat))
    requires Fits64(handle)
    ensures |EncodeHandle(handle.0, handle.1)| <= MAX_HANDLE
  {
    TenBytes();
    VarintFits(handle.0, 10);
    VarintFits(handle.1, 10);
  }

  predicate Fits64(handle: (nat, nat)) {
    handle.0 < WORD64 && handle.1 < WORD64
  }

  /** The handle that starts at `p`, and where it ends: DecodeFrom on what is left of a slice. */
  function HandleAt(s: Bytes, p: nat): (r: Option<((nat, nat), nat)>)
    requires p <= |s|
    ensures r.Some? ==> r.value.1 <= |s|
  {
    var offset := GetVarint64(s, p);
    if offset.Bad? then None else
      var size := GetVarint64(s, offset.next);
      if size.Bad? then None else Some(((offset.value, size.value), size.next))
  }

  lemma HandleReads(s: Bytes, p: nat, handle: (nat, nat))
    requires Fits64(handle) && At(s, p, EncodeHandle(handle.0, handle.1))
    ensures HandleAt(s, p) == Some((handle, p + |EncodeHandle(handle.0, handle.1)|))
  {
    hide Varint, GetVarint;
    AtParts(s, p, Varint(handle.0), Varint(handle.1));
    ReadsVarint(s, p, handle.0, WORD64);
    ReadsVarint(s, p + |Varint(handle.0)|, handle.1, WORD64);
  }

  /** `s` with zeros behind it, or cut: std::string::resize. */
  function Resized(s: Bytes, n: nat): (r: Bytes)
    ensures |r| == n
  {
    if |s| >= n then s[..n] else s + seq(n - |s|, i => 0)
  }

  function Magic(): (s: Bytes)
    ensures |s| == 8
  {
    Fixed32(TABLE_MAGIC % 0x1_0000_0000) + Fixed32(TABLE_MAGIC / 0x1_0000_0000)
  }

  /** Footer::EncodeTo. */
  function EncodeFooter(metaindex: (nat, nat), index: (nat, nat)): (s: Bytes)
    ensures |s| == FOOTER_SIZE
  {
    Resized(EncodeHandle(metaindex.0, metaindex.1) + EncodeHandle(index.0, index.1), 2 * MAX_HANDLE) + Magic()
  }

  /** Footer::DecodeFrom: the two handles, unless the magic number or one of them is bad. */
  function DecodeFooter(s: Bytes): Option<((nat, nat), (nat, nat))>
    requires |s| == FOOTER_SIZE
  {
    if DecodeFixed(s[40..44]) + DecodeFixed(s[44..48]) * 0x1_0000_0000 != TABLE_MAGIC then None else
      var metaindex := HandleAt(s, 0);
      if metaindex.None? then None else
        var index := HandleAt(s, metaindex.value.1);
        if index.None? then None else Some((metaindex.value.0, index.value.0))
  }

  lemma MagicReads()
    ensures DecodeFixed(Magic()[..4]) + DecodeFixed(Magic()[4..]) * 0x1_0000_0000 == TABLE_MAGIC
  {
    hide DecodeFixed, Fixed32;
    var low, high := TABLE_MAGIC % 0x1_0000_0000, TABLE_MAGIC / 0x1_0000_0000;
    Fixed32RoundTrip(low);
    Fixed32RoundTrip(high);
    assert Magic()[..4] == Fixed32(low) && Magic()[4..] == Fixed32(high);
  }

  /** A footer gives back its handles. */
  lemma FooterRoundTrip(metaindex: (nat, nat), index: (nat, nat))
    requires Fits64(metaindex) && Fits64(index)
    ensures DecodeFooter(EncodeFooter(metaindex, index)) == Some((metaindex, index))
  {
    hide EncodeHandle, HandleAt, Magic, DecodeFixed, Fits64;
    var s := EncodeFooter(metaindex, index);
    var a, b := EncodeHandle(metaindex.0, metaindex.1), EncodeHandle(index.0, index.1);
    HandleFits(metaindex);
    HandleFits(index);
    assert s[40..] == Magic();
    assert s[40..44] == Magic()[..4] && s[44..48] == Magic()[4..];
    MagicReads();
    assert At(s, 0, a + b) by {
      assert s[..|a + b|] == a + b;
    }
    AtParts(s, 0, a, b);
    HandleReads(s, 0, metaindex);
    HandleReads(s, |a|, index);
  }
}
