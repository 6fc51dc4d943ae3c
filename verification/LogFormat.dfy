// The physical layout of a log file (db/log_format.h): blocks of 32768 bytes that hold fragments,
// each with a header of checksum, length and type.
module LogFormat {
  import opened Crc32c

  const BLOCK_SIZE: nat := 32768
  const HEADER_SIZE: nat := 7

  const FULL_TYPE := 1
  const FIRST_TYPE := 2
  const MIDDLE_TYPE := 3
  const LAST_TYPE := 4

  // What ReadPhysicalRecord returns beside the types above.
  const EOF := 5
  const BAD_RECORD := 6

  // The end of the block that holds the byte at `at`.
  function BlockEnd(at: nat): (e: nat)
    ensures at < e <= at + BLOCK_SIZE && e % BLOCK_SIZE == 0
  {
    (at / BLOCK_SIZE + 1) * BLOCK_SIZE
  }

  lemma BlockEndIs(at: nat, e: nat)
    requires at < e <= at + BLOCK_SIZE && e % BLOCK_SIZE == 0
    ensures BlockEnd(at) == e
  {}

  // ---------------------------------------------------------------------------------------------
  // Headers

  function ByteOf(n: nat): bv8
    requires n < 256
  {
    n as bv8
  }

  function NatOf(b: bv8): (n: nat)
    ensures n < 256
  {
    b as nat
  }

  lemma NatOfByteOf(n: nat)
    requires n < 256
    ensures NatOf(ByteOf(n)) == n
  {
    var b := ByteWithValue(n);
    ByteOfNatOf(b);
  }

  lemma ByteOfNatOf(b: bv8)
    ensures ByteOf(NatOf(b)) == b
  {}

  lemma {:induction false} ByteWithValue(n: nat) returns (b: bv8)
    requires n < 256
    ensures NatOf(b) == n
  {
    if n == 0 {
      b := 0;
    } else {
      var c := ByteWithValue(n - 1);
      NextByte(c);
      b := c + 1;
    }
  }

  lemma NextByte(b: bv8)
    requires b != 255
    ensures NatOf(b + 1) == NatOf(b) + 1
  {}

  function StoredLength(header: seq<bv8>): (n: nat)
    requires HEADER_SIZE <= |header|
    ensures n <= 0xffff
  {
    NatOf(header[4]) + 256 * NatOf(header[5])
  }

  // The type byte is a signed char that is widened to an unsigned int.
  function StoredType(header: seq<bv8>): nat
    requires HEADER_SIZE <= |header|
  {
    var t := NatOf(header[6]);
    if t < 128 then t else 0x1_0000_0000 - 256 + t
  }

  function StoredCrc(header: seq<bv8>): bv32
    requires HEADER_SIZE <= |header|
  {
    Unmask(DecodeFixed32(header[0], header[1], header[2], header[3]))
  }

  // Of the type byte and the payload.
  function ActualCrc(typeAndPayload: seq<bv8>): bv32 {
    Checksum(0, typeAndPayload)
  }

  // What EmitPhysicalRecord writes: it extends the checksum of the type byte by the payload.
  function WrittenCrc(t: nat, payload: seq<bv8>): bv32
    requires t < 256
  {
    Checksum(Checksum(0, [ByteOf(t)]), payload)
  }

  function Header(t: nat, payload: seq<bv8>): (h: seq<bv8>)
    requires t < 256 && |payload| <= 0xffff
    ensures |h| == HEADER_SIZE
  {
    var crc := Mask(WrittenCrc(t, payload));
    [Byte(crc, 0), Byte(crc, 1), Byte(crc, 2), Byte(crc, 3), ByteOf(|payload| % 256), ByteOf(|payload| / 256),
      ByteOf(t)]
  }

  lemma DecodeOfBytes(c: bv32)
    ensures DecodeFixed32(Byte(c, 0), Byte(c, 1), Byte(c, 2), Byte(c, 3)) == c
  {}

  // A header read back gives the length, the type and a checksum that the payload passes.
  lemma HeaderParses(t: nat, payload: seq<bv8>)
    requires t < 128 && |payload| <= 0xffff
    ensures StoredLength(Header(t, payload)) == |payload|
    ensures StoredType(Header(t, payload)) == t
    ensures StoredCrc(Header(t, payload)) == ActualCrc([ByteOf(t)] + payload)
  {
    hide Mask, Unmask, Byte, DecodeFixed32, Checksum, ByteOf, NatOf;
    NatOfByteOf(t);
    NatOfByteOf(|payload| % 256);
    NatOfByteOf(|payload| / 256);
    var crc := WrittenCrc(t, payload);
    DecodeOfBytes(Mask(crc));
    MaskRoundTrips(crc);
    ChecksumOfConcatenation(0, [ByteOf(t)], payload);
  }
}
