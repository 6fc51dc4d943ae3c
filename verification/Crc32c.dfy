// CRC-32C (util/crc32c.cc, util/crc32c.h).  The reference definition is polynomial division one bit
// at a time; the tables, the word steps and the four interleaved strides are proved to agree with it.
module Crc32c {
  import opened Crc32cTables

  const ONES: bv32 := 0xffffffff

  // The reflected form of the polynomial of section 12.1 of RFC 3720.
  const POLYNOMIAL: bv32 := 0x82f63b78

  function Xor(a: bv32, b: bv32): bv32 { a ^ b }

  // One step of the division: the register moves on by one zero bit.
  function Bit(c: bv32): bv32 {
    if c & 1 == 1 then (c >> 1) ^ POLYNOMIAL else c >> 1
  }

  // The register moves on by `n` zero bits.
  function Shift(n: nat, c: bv32): bv32 {
    if n == 0 then c else Shift(n - 1, Bit(c))
  }

  // The register after the bytes of `data`, the low bit of each byte first.
  function Register(l: bv32, data: seq<bv8>): bv32 {
    if data == [] then l else Shift(8, Xor(Register(l, data[..|data| - 1]), data[|data| - 1] as bv32))
  }

  // The checksum of some bytes with checksum `crc` followed by `data`.
  function Checksum(crc: bv32, data: seq<bv8>): bv32 {
    Xor(Register(Xor(crc, ONES), data), ONES)
  }

  // ---------------------------------------------------------------------------------------------
  // Linearity over GF(2)

  lemma XorCommutes(a: bv32, b: bv32)
    ensures Xor(a, b) == Xor(b, a)
  {}

  lemma XorAssociates(a: bv32, b: bv32, c: bv32)
    ensures Xor(Xor(a, b), c) == Xor(a, Xor(b, c))
  {}

  lemma XorCancels(a: bv32)
    ensures Xor(a, 0) == a && Xor(a, a) == 0
  {}

  lemma HalfIsLinear(a: bv32, b: bv32)
    ensures (a ^ b) >> 1 == (a >> 1) ^ (b >> 1)
  {}

  lemma LowBitIsLinear(a: bv32, b: bv32)
    ensures (a ^ b) & 1 == (a & 1) ^ (b & 1)
    ensures a & 1 == 0 || a & 1 == 1
  {}

  lemma PolynomialMoves(a: bv32, b: bv32)
    ensures a ^ b ^ POLYNOMIAL == (a ^ POLYNOMIAL) ^ b == a ^ (b ^ POLYNOMIAL)
    ensures a ^ b == (a ^ POLYNOMIAL) ^ (b ^ POLYNOMIAL)
  {}

  lemma BitIsLinear(a: bv32, b: bv32)
    ensures Bit(a ^ b) == Bit(a) ^ Bit(b)
  {
    HalfIsLinear(a, b);
    LowBitIsLinear(a, b);
    LowBitIsLinear(b, a);
    PolynomialMoves(a >> 1, b >> 1);
  }

  lemma {:induction false} ShiftIsLinear(n: nat, a: bv32, b: bv32)
    ensures Shift(n, Xor(a, b)) == Xor(Shift(n, a), Shift(n, b))
  {
    if n > 0 {
      BitIsLinear(a, b);
      ShiftIsLinear(n - 1, Bit(a), Bit(b));
    }
  }

  lemma {:induction false} ShiftAdds(m: nat, n: nat, c: bv32)
    ensures Shift(m + n, c) == Shift(n, Shift(m, c))
  {
    if m > 0 {
      ShiftAdds(m - 1, n, Bit(c));
    }
  }

  // ---------------------------------------------------------------------------------------------
  // The tables.  A table that is linear is given by its entries at the powers of two.

  function Masked(b: bool, k: bv32): bv32 { if b then k else 0 }

  function CombineFour(b0: bool, b1: bool, b2: bool, b3: bool, k0: bv32, k1: bv32, k2: bv32, k3: bv32): bv32 {
    Xor(Xor(Masked(b0, k0), Masked(b1, k1)), Xor(Masked(b2, k2), Masked(b3, k3)))
  }

  function Combine(i: bv8, k0: bv32, k1: bv32, k2: bv32, k3: bv32, k4: bv32, k5: bv32, k6: bv32, k7: bv32): bv32 {
    Xor(CombineFour(i & 0x01 != 0, i & 0x02 != 0, i & 0x04 != 0, i & 0x08 != 0, k0, k1, k2, k3),
        CombineFour(i & 0x10 != 0, i & 0x20 != 0, i & 0x40 != 0, i & 0x80 != 0, k4, k5, k6, k7))
  }

  lemma ShiftOfMasked(n: nat, b: bool, k: bv32)
    ensures Shift(n, Masked(b, k)) == Masked(b, Shift(n, k))
  {
    ShiftIsLinear(n, k, k);
    XorCancels(k);
    XorCancels(Shift(n, k));
  }

  lemma ShiftOfCombineFour(n: nat, b0: bool, b1: bool, b2: bool, b3: bool, k0: bv32, k1: bv32, k2: bv32, k3: bv32)
    ensures Shift(n, CombineFour(b0, b1, b2, b3, k0, k1, k2, k3))
         == CombineFour(b0, b1, b2, b3, Shift(n, k0), Shift(n, k1), Shift(n, k2), Shift(n, k3))
  {
    hide Shift, Xor, Masked;
    var x0, x1, x2, x3 := Masked(b0, k0), Masked(b1, k1), Masked(b2, k2), Masked(b3, k3);
    ShiftOfMasked(n, b0, k0);
    ShiftOfMasked(n, b1, k1);
    ShiftOfMasked(n, b2, k2);
    ShiftOfMasked(n, b3, k3);
    ShiftIsLinear(n, x0, x1);
    ShiftIsLinear(n, x2, x3);
    ShiftIsLinear(n, Xor(x0, x1), Xor(x2, x3));
  }

  lemma ShiftOfCombine(n: nat, i: bv8, k0: bv32, k1: bv32, k2: bv32, k3: bv32, k4: bv32, k5: bv32, k6: bv32, k7: bv32)
    ensures Shift(n, Combine(i, k0, k1, k2, k3, k4, k5, k6, k7))
         == Combine(i, Shift(n, k0), Shift(n, k1), Shift(n, k2), Shift(n, k3), Shift(n, k4), Shift(n, k5), Shift(n, k6),
           Shift(n, k7))
  {
    hide Shift, Xor, CombineFour;
    var low := CombineFour(i & 0x01 != 0, i & 0x02 != 0, i & 0x04 != 0, i & 0x08 != 0, k0, k1, k2, k3);
    var high := CombineFour(i & 0x10 != 0, i & 0x20 != 0, i & 0x40 != 0, i & 0x80 != 0, k4, k5, k6, k7);
    ShiftOfCombineFour(n, i & 0x01 != 0, i & 0x02 != 0, i & 0x04 != 0, i & 0x08 != 0, k0, k1, k2, k3);
    ShiftOfCombineFour(n, i & 0x10 != 0, i & 0x20 != 0, i & 0x40 != 0, i & 0x80 != 0, k4, k5, k6, k7);
    ShiftIsLinear(n, low, high);
  }

  lemma ByteIsCombine(i: bv8)
    ensures i as bv32 == Combine(i, 0x01, 0x02, 0x04, 0x08, 0x10, 0x20, 0x40, 0x80)
  {}

  lemma ByteBasis(i: bv8)
    ensures ByteExtensionTable(i)
              == Combine(i, 0xf26b8303, 0xe13b70f7, 0xc79a971f, 0x8ad958cf, 0x105ec76f, 0x20bd8ede, 0x417b1dbc,
                0x82f63b78)
  {}

  lemma StrideBasis0(i: bv8)
    ensures StrideExtensionTable0(i)
              == Combine(i, 0x30d23865, 0x61a470ca, 0xc348e194, 0x837db5d9, 0x03171d43, 0x062e3a86, 0x0c5c750c,
                0x18b8ea18)
  {}

  lemma StrideBasis1(i: bv8)
    ensures StrideExtensionTable1(i)
              == Combine(i, 0x54075546, 0xa80eaa8c, 0x55f123e9, 0xabe247d2, 0x5228f955, 0xa451f2aa, 0x4d4f93a5,
                0x9a9f274a)
  {}

  lemma StrideBasis2(i: bv8)
    ensures StrideExtensionTable2(i)
              == Combine(i, 0x678efd01, 0xcf1dfa02, 0x9bd782f5, 0x3243731b, 0x6486e636, 0xc90dcc6c, 0x97f7ee29,
                0x2a03aaa3)
  {}

  lemma StrideBasis3(i: bv8)
    ensures StrideExtensionTable3(i)
              == Combine(i, 0xf20c0dfe, 0xe1f46d0d, 0xc604aceb, 0x89e52f27, 0x162628bf, 0x2c4c517e, 0x5898a2fc,
                0xb13145f8)
  {}

  lemma ByteTableIsShift(i: bv8)
    ensures ByteExtensionTable(i) == Shift(8, i as bv32)
  {
    hide Combine, ByteExtensionTable;
    ByteBasis(i);
    ByteIsCombine(i);
    ShiftOfCombine(8, i, 0x01, 0x02, 0x04, 0x08, 0x10, 0x20, 0x40, 0x80);
    assert Shift(8, 0x01) == 0xf26b8303 && Shift(8, 0x02) == 0xe13b70f7 && Shift(8, 0x04) == 0xc79a971f
           && Shift(8, 0x08) == 0x8ad958cf;
    assert Shift(8, 0x10) == 0x105ec76f && Shift(8, 0x20) == 0x20bd8ede && Shift(8, 0x40) == 0x417b1dbc
           && Shift(8, 0x80) == 0x82f63b78;
  }

  lemma ByteStep(c: bv32, r: bv32)
    requires Bit(Bit(Bit(Bit(Bit(Bit(Bit(Bit(c)))))))) == r
    ensures Shift(8, c) == r
  {
    hide Bit;
    assert Shift(8, c) == Shift(6, Bit(Bit(c)));
    var d := Bit(Bit(c));
    assert Shift(6, d) == Shift(4, Bit(Bit(d)));
    var e := Bit(Bit(d));
    assert Shift(4, e) == Shift(2, Bit(Bit(e)));
    var f := Bit(Bit(e));
    assert Shift(2, f) == Shift(0, Bit(Bit(f)));
  }

  lemma PowerAt96()
    ensures Shift(96, 1) == 0x3171d430
  {
    hide Shift;
    ByteStep(0x1, 0xf26b8303);
    ShiftAdds(8, 8, 1);
    ByteStep(0xf26b8303, 0x13a29877);
    ShiftAdds(16, 8, 1);
    ByteStep(0x13a29877, 0xa541927e);
    ShiftAdds(24, 8, 1);
    ByteStep(0xa541927e, 0xdd45aab8);
    ShiftAdds(32, 8, 1);
    ByteStep(0xdd45aab8, 0x38116fac);
    ShiftAdds(40, 8, 1);
    ByteStep(0x38116fac, 0xef306b19);
    ShiftAdds(48, 8, 1);
    ByteStep(0xef306b19, 0x68032cc8);
    ShiftAdds(56, 8, 1);
    ByteStep(0x68032cc8, 0x493c7d27);
    ShiftAdds(64, 8, 1);
    ByteStep(0x493c7d27, 0xf43ed648);
    ShiftAdds(72, 8, 1);
    ByteStep(0xf43ed648, 0xcb567ba5);
    ShiftAdds(80, 8, 1);
    ByteStep(0xcb567ba5, 0x9771f7c1);
    ShiftAdds(88, 8, 1);
    ByteStep(0x9771f7c1, 0x3171d430);
  }

  // The powers that index the first stride table: Shift(104, 1 << j) is Shift(104 - j, 1).
  lemma PowersAt104()
    ensures Shift(104, 0x1) == 0x30d23865
    ensures Shift(104, 0x2) == 0x61a470ca
    ensures Shift(104, 0x4) == 0xc348e194
    ensures Shift(104, 0x8) == 0x837db5d9
    ensures Shift(104, 0x10) == 0x03171d43
    ensures Shift(104, 0x20) == 0x062e3a86
    ensures Shift(104, 0x40) == 0x0c5c750c
    ensures Shift(104, 0x80) == 0x18b8ea18
  {
    hide Shift;
    PowerAt96();
    BitStep(96, 1, 0x3171d430, 0x18b8ea18);
    BitStep(97, 1, 0x18b8ea18, 0x0c5c750c);
    BitStep(98, 1, 0x0c5c750c, 0x062e3a86);
    BitStep(99, 1, 0x062e3a86, 0x03171d43);
    BitStep(100, 1, 0x03171d43, 0x837db5d9);
    BitStep(101, 1, 0x837db5d9, 0xc348e194);
    BitStep(102, 1, 0xc348e194, 0x61a470ca);
    BitStep(103, 1, 0x61a470ca, 0x30d23865);
    PowerIsShift(1, 0x2, 103);
    PowerIsShift(2, 0x4, 102);
    PowerIsShift(3, 0x8, 101);
    PowerIsShift(4, 0x10, 100);
    PowerIsShift(5, 0x20, 99);
    PowerIsShift(6, 0x40, 98);
    PowerIsShift(7, 0x80, 97);
  }

  lemma BitStep(n: nat, c: bv32, d: bv32, e: bv32)
    requires Shift(n, c) == d && Bit(d) == e
    ensures Shift(n + 1, c) == e
  {
    hide Bit;
    ShiftAdds(n, 1, c);
    assert Shift(1, d) == Shift(0, Bit(d));
  }

  lemma {:induction false} PowerIsShift(j: nat, c: bv32, n: nat)
    requires j < 8 && c == (1 as bv32) << j
    ensures Shift(j + n, c) == Shift(n, 1)
  {
    if j > 0 {
      var d := (1 as bv32) << (j - 1);
      assert Bit(c) == d;
      PowerIsShift(j - 1, d, n);
    }
  }

  lemma StrideTable0IsShift(i: bv8)
    ensures StrideExtensionTable0(i) == Shift(104, i as bv32)
  {
    hide Combine, Shift, StrideExtensionTable0;
    StrideBasis0(i);
    ByteIsCombine(i);
    PowersAt104();
    ShiftOfCombine(104, i, 0x01, 0x02, 0x04, 0x08, 0x10, 0x20, 0x40, 0x80);
  }

  lemma StrideTable1IsShift(i: bv8)
    ensures StrideExtensionTable1(i) == Shift(112, i as bv32)
  {
    hide Combine, Shift, StrideExtensionTable1, StrideExtensionTable0;
    StrideBasis1(i);
    StrideBasis0(i);
    StrideTable0IsShift(i);
    ShiftAdds(104, 8, i as bv32);
    ShiftOfCombine(8, i, 0x30d23865, 0x61a470ca, 0xc348e194, 0x837db5d9, 0x03171d43, 0x062e3a86, 0x0c5c750c,
      0x18b8ea18);
    ByteStep(0x30d23865, 0x54075546);
    ByteStep(0x61a470ca, 0xa80eaa8c);
    ByteStep(0xc348e194, 0x55f123e9);
    ByteStep(0x837db5d9, 0xabe247d2);
    ByteStep(0x03171d43, 0x5228f955);
    ByteStep(0x062e3a86, 0xa451f2aa);
    ByteStep(0x0c5c750c, 0x4d4f93a5);
    ByteStep(0x18b8ea18, 0x9a9f274a);
  }

  lemma StrideTable2IsShift(i: bv8)
    ensures StrideExtensionTable2(i) == Shift(120, i as bv32)
  {
    hide Combine, Shift, StrideExtensionTable2, StrideExtensionTable1;
    StrideBasis2(i);
    StrideBasis1(i);
    StrideTable1IsShift(i);
    ShiftAdds(112, 8, i as bv32);
    ShiftOfCombine(8, i, 0x54075546, 0xa80eaa8c, 0x55f123e9, 0xabe247d2, 0x5228f955, 0xa451f2aa, 0x4d4f93a5,
      0x9a9f274a);
    ByteStep(0x54075546, 0x678efd01);
    ByteStep(0xa80eaa8c, 0xcf1dfa02);
    ByteStep(0x55f123e9, 0x9bd782f5);
    ByteStep(0xabe247d2, 0x3243731b);
    ByteStep(0x5228f955, 0x6486e636);
    ByteStep(0xa451f2aa, 0xc90dcc6c);
    ByteStep(0x4d4f93a5, 0x97f7ee29);
    ByteStep(0x9a9f274a, 0x2a03aaa3);
  }

  lemma StrideTable3IsShift(i: bv8)
    ensures StrideExtensionTable3(i) == Shift(128, i as bv32)
  {
    hide Combine, Shift, StrideExtensionTable3, StrideExtensionTable2;
    StrideBasis3(i);
    StrideBasis2(i);
    StrideTable2IsShift(i);
    ShiftAdds(120, 8, i as bv32);
    ShiftOfCombine(8, i, 0x678efd01, 0xcf1dfa02, 0x9bd782f5, 0x3243731b, 0x6486e636, 0xc90dcc6c, 0x97f7ee29,
      0x2a03aaa3);
    ByteStep(0x678efd01, 0xf20c0dfe);
    ByteStep(0xcf1dfa02, 0xe1f46d0d);
    ByteStep(0x9bd782f5, 0xc604aceb);
    ByteStep(0x3243731b, 0x89e52f27);
    ByteStep(0x6486e636, 0x162628bf);
    ByteStep(0xc90dcc6c, 0x2c4c517e);
    ByteStep(0x97f7ee29, 0x5898a2fc);
    ByteStep(0x2a03aaa3, 0xb13145f8);
  }

  // ---------------------------------------------------------------------------------------------
  // Bytes and words

  lemma HighBytes(c: bv32)
    ensures Shift(8, (c >> 8) << 8) == c >> 8
  {
    ByteStep((c >> 8) << 8, c >> 8);
  }

  lemma SplitLowByte(c: bv32)
    ensures c == Xor(((c & 0xff) as bv8) as bv32, (c >> 8) << 8)
  {}

  // The table step moves the register on by a zero byte.
  lemma TableStep(c: bv32)
    ensures Xor(c >> 8, ByteExtensionTable((c & 0xff) as bv8)) == Shift(8, c)
  {
    hide Shift, Xor, ByteExtensionTable;
    var low := (c & 0xff) as bv8;
    SplitLowByte(c);
    ShiftIsLinear(8, low as bv32, (c >> 8) << 8);
    HighBytes(c);
    ByteTableIsShift(low);
    XorCommutes(c >> 8, ByteExtensionTable(low));
  }

  lemma XorLowByte(l: bv32, b: bv8)
    ensures (Xor(l, b as bv32) & 0xff) as bv8 == ((l & 0xff) as bv8) ^ b
    ensures Xor(l, b as bv32) >> 8 == l >> 8
  {}

  // STEP1: one byte.
  function Step1(l: bv32, b: bv8): bv32 {
    Xor(ByteExtensionTable(((l & 0xff) as bv8) ^ b), l >> 8)
  }

  lemma Step1IsShift(l: bv32, b: bv8)
    ensures Step1(l, b) == Shift(8, Xor(l, b as bv32))
  {
    hide Shift, Xor, ByteExtensionTable;
    XorLowByte(l, b);
    TableStep(Xor(l, b as bv32));
    XorCommutes(l >> 8, ByteExtensionTable(((l & 0xff) as bv8) ^ b));
  }

  function Byte(c: bv32, k: nat): bv8
    requires k < 4
  {
    match k
    case 0 => (c & 0xff) as bv8
    case 1 => ((c >> 8) & 0xff) as bv8
    case 2 => ((c >> 16) & 0xff) as bv8
    case _ => (c >> 24) as bv8
  }

  // STEP4 without the data word.
  function Stride(c: bv32): bv32 {
    Xor(Xor(StrideExtensionTable3(Byte(c, 0)), StrideExtensionTable2(Byte(c, 1))),
        Xor(StrideExtensionTable1(Byte(c, 2)), StrideExtensionTable0(Byte(c, 3))))
  }

  lemma SplitBytes(c: bv32)
    ensures c == Xor(Xor(Byte(c, 0) as bv32, Byte(c, 1) as bv32 << 8),
              Xor(Byte(c, 2) as bv32 << 16, Byte(c, 3) as bv32 << 24))
  {}

  lemma ShiftsBack(b: bv8)
    ensures Shift(8, b as bv32 << 8) == b as bv32
    ensures Shift(16, b as bv32 << 16) == b as bv32
    ensures Shift(24, b as bv32 << 24) == b as bv32
  {
    hide Shift;
    var c := b as bv32;
    ByteStep(c << 8, c);
    ByteStep(c << 16, c << 8);
    ByteStep(c << 24, c << 16);
    ShiftAdds(8, 8, c << 16);
    ShiftAdds(8, 16, c << 24);
  }

  // One stride moves the register on by sixteen zero bytes.
  lemma StrideIsShift(c: bv32)
    ensures Stride(c) == Shift(128, c)
  {
    hide Shift, Xor, Byte, StrideExtensionTable0, StrideExtensionTable1, StrideExtensionTable2, StrideExtensionTable3;
    var b0, b1, b2, b3 := Byte(c, 0), Byte(c, 1), Byte(c, 2), Byte(c, 3);
    var c0, c1, c2, c3 := b0 as bv32, b1 as bv32 << 8, b2 as bv32 << 16, b3 as bv32 << 24;
    SplitBytes(c);
    ShiftIsLinear(128, c0, c1);
    ShiftIsLinear(128, c2, c3);
    ShiftIsLinear(128, Xor(c0, c1), Xor(c2, c3));
    StrideTable3IsShift(b0);
    StrideTable2IsShift(b1);
    StrideTable1IsShift(b2);
    StrideTable0IsShift(b3);
    ShiftsBack(b1);
    ShiftsBack(b2);
    ShiftsBack(b3);
    ShiftAdds(8, 120, c1);
    ShiftAdds(16, 112, c2);
    ShiftAdds(24, 104, c3);
  }

  function DecodeFixed32(b0: bv8, b1: bv8, b2: bv8, b3: bv8): bv32 {
    (b0 as bv32) | (b1 as bv32 << 8) | (b2 as bv32 << 16) | (b3 as bv32 << 24)
  }

  // ReadUint32LE.
  function Word(data: seq<bv8>, p: nat): bv32
    requires p + 4 <= |data|
  {
    DecodeFixed32(data[p], data[p + 1], data[p + 2], data[p + 3])
  }

  function FromBytes(b0: bv8, b1: bv8, b2: bv8, b3: bv8): bv32 {
    Xor(Xor(Xor(b0 as bv32, b1 as bv32 << 8), b2 as bv32 << 16), b3 as bv32 << 24)
  }

  lemma WordIsFromBytes(data: seq<bv8>, p: nat)
    requires p + 4 <= |data|
    ensures Word(data, p) == FromBytes(data[p], data[p + 1], data[p + 2], data[p + 3])
  {
    FromBytesIsOr(data[p], data[p + 1], data[p + 2], data[p + 3]);
  }

  lemma FromBytesIsOr(b0: bv8, b1: bv8, b2: bv8, b3: bv8)
    ensures (b0 as bv32) | (b1 as bv32 << 8) | (b2 as bv32 << 16) | (b3 as bv32 << 24) == FromBytes(b0, b1, b2, b3)
  {}

  lemma RegisterByte(l: bv32, data: seq<bv8>, p: nat)
    requires p < |data|
    ensures Register(l, data[..p + 1]) == Shift(8, Xor(Register(l, data[..p]), data[p] as bv32))
  {
    hide Shift, Xor;
    assert data[..p + 1][..p] == data[..p];
  }

  // A byte xored in `n` bits late is a byte moved up by `n` bits xored in at the start.
  lemma LateByte(n: nat, l: bv32, c: bv32, late: bv32)
    requires Shift(n, late) == c
    ensures Shift(8, Xor(Shift(n, l), c)) == Shift(n + 8, Xor(l, late))
  {
    hide Shift, Xor;
    ShiftIsLinear(n, l, late);
    ShiftAdds(n, 8, Xor(l, late));
  }

  lemma FourBytes(r: bv32, b0: bv32, b1: bv32, b2: bv32, b3: bv32, c1: bv32, c2: bv32, c3: bv32)
    requires Shift(8, c1) == b1 && Shift(16, c2) == b2 && Shift(24, c3) == b3
    ensures Shift(8, Xor(Shift(8, Xor(Shift(8, Xor(Shift(8, Xor(r, b0)), b1)), b2)), b3))
         == Shift(32, Xor(r, Xor(Xor(Xor(b0, c1), c2), c3)))
  {
    hide Shift, Xor;
    LateByte(8, Xor(r, b0), b1, c1);
    LateByte(16, Xor(Xor(r, b0), c1), b2, c2);
    LateByte(24, Xor(Xor(Xor(r, b0), c1), c2), b3, c3);
    XorAssociates(r, b0, c1);
    XorAssociates(r, Xor(b0, c1), c2);
    XorAssociates(r, Xor(Xor(b0, c1), c2), c3);
  }

  lemma FourBytesAreAWord(r: bv32, b0: bv8, b1: bv8, b2: bv8, b3: bv8)
    ensures Shift(8, Xor(Shift(8, Xor(Shift(8, Xor(Shift(8, Xor(r, b0 as bv32)), b1 as bv32)), b2 as bv32)),
              b3 as bv32))
         == Shift(32, Xor(r, FromBytes(b0, b1, b2, b3)))
  {
    hide Shift, Xor;
    ShiftsBack(b1);
    ShiftsBack(b2);
    ShiftsBack(b3);
    FourBytes(r, b0 as bv32, b1 as bv32, b2 as bv32, b3 as bv32, b1 as bv32 << 8, b2 as bv32 << 16, b3 as bv32 << 24);
  }

  // Four bytes are taken in as one word.
  lemma RegisterWord(l: bv32, data: seq<bv8>, p: nat)
    requires p + 4 <= |data|
    ensures Register(l, data[..p + 4]) == Shift(32, Xor(Register(l, data[..p]), Word(data, p)))
  {
    hide Shift, Xor, Register, Word, FromBytes;
    RegisterByte(l, data, p);
    RegisterByte(l, data, p + 1);
    RegisterByte(l, data, p + 2);
    RegisterByte(l, data, p + 3);
    FourBytesAreAWord(Register(l, data[..p]), data[p], data[p + 1], data[p + 2], data[p + 3]);
    WordIsFromBytes(data, p);
  }

  // ---------------------------------------------------------------------------------------------
  // The four partial results

  // The register that the partial results stand for.
  function Strides(c0: bv32, c1: bv32, c2: bv32, c3: bv32): bv32 {
    Xor(Xor(Xor(Shift(128, c0), Shift(96, c1)), Shift(64, c2)), Shift(32, c3))
  }

  // One word: the oldest partial result takes it in and becomes the newest.
  lemma StrideStep(c0: bv32, c1: bv32, c2: bv32, c3: bv32, w: bv32)
    ensures Shift(32, Xor(Strides(c0, c1, c2, c3), w)) == Strides(c1, c2, c3, Xor(w, Stride(c0)))
  {
    hide Shift, Xor, Stride;
    var x0, x1, x2, x3 := Shift(128, c0), Shift(96, c1), Shift(64, c2), Shift(32, c3);
    StrideIsShift(c0);
    ShiftAdds(96, 32, c1);
    ShiftAdds(64, 32, c2);
    ShiftAdds(32, 32, c3);
    var y := Xor(w, x0);
    assert Xor(Strides(c0, c1, c2, c3), w) == Xor(Xor(Xor(x1, x2), x3), y) by {
      XorRotates(x0, x1, x2, x3, w);
    }
    ShiftIsLinear(32, Xor(Xor(x1, x2), x3), y);
    ShiftIsLinear(32, Xor(x1, x2), x3);
    ShiftIsLinear(32, x1, x2);
  }

  lemma XorRotates(x0: bv32, x1: bv32, x2: bv32, x3: bv32, w: bv32)
    ensures Xor(Xor(Xor(Xor(x0, x1), x2), x3), w) == Xor(Xor(Xor(x1, x2), x3), Xor(w, x0))
  {
    hide Xor;
    var a := Xor(Xor(x1, x2), x3);
    XorAssociates(x0, x1, x2);
    XorAssociates(x0, Xor(x1, x2), x3);
    XorCommutes(x0, a);
    XorAssociates(a, x0, w);
    XorCommutes(x0, w);
  }

  lemma StridesStart(l: bv32, w0: bv32, w1: bv32, w2: bv32, w3: bv32)
    ensures Shift(32, Xor(Shift(32, Xor(Shift(32, Xor(Shift(32, Xor(l, w0)), w1)), w2)), w3))
              == Strides(Xor(l, w0), w1, w2, w3)
  {
    hide Shift, Xor;
    var r := Xor(l, w0);
    ShiftIsLinear(32, Shift(32, r), w1);
    ShiftAdds(32, 32, r);
    var r1 := Xor(Shift(64, r), Shift(32, w1));
    ShiftIsLinear(32, r1, w2);
    ShiftIsLinear(32, Shift(64, r), Shift(32, w1));
    ShiftAdds(64, 32, r);
    ShiftAdds(32, 32, w1);
    var r2 := Xor(Xor(Shift(96, r), Shift(64, w1)), Shift(32, w2));
    ShiftIsLinear(32, r2, w3);
    ShiftIsLinear(32, Xor(Shift(96, r), Shift(64, w1)), Shift(32, w2));
    ShiftIsLinear(32, Shift(96, r), Shift(64, w1));
    ShiftAdds(96, 32, r);
    ShiftAdds(64, 32, w1);
    ShiftAdds(32, 32, w2);
  }

  // STEP4W: one partial result is pushed through the register bytewise.
  method Step4W(l: bv32, word: bv32) returns (r: bv32)
    ensures r == Shift(32, Xor(l, word))
  {
    hide Shift, Xor, ByteExtensionTable;
    var w := Xor(word, l);
    XorCommutes(word, l);
    ghost var start := w;
    var i := 0;
    ShiftZero(w);
    while i < 4
      invariant 0 <= i <= 4
      invariant w == Shift(8 * i, start)
    {
      TableStep(w);
      ShiftAdds(8 * i, 8, start);
      w := Xor(w >> 8, ByteExtensionTable((w & 0xff) as bv8));
      i := i + 1;
    }
    r := w;
  }

  lemma ShiftZero(c: bv32)
    ensures Shift(0, c) == c
  {}

  // Extend: bytes up to an aligned address, then swaths of four strides, single words, the
  // combination of the strides, and the bytes that are left.
  method Extend(crc: bv32, data: seq<bv8>, address: nat) returns (r: bv32)
    ensures r == Checksum(crc, data)
  {
    hide Shift, Xor, ByteExtensionTable, Register, Word, Stride, Step1, Strides;
    var p, e := 0, |data|;
    ghost var start := Xor(crc, ONES);
    var l := Xor(crc, ONES);
    RegisterOfNothing(start, data);
    var x := (4 - address % 4) % 4;
    if x <= e {
      while p != x
        invariant 0 <= p <= x
        invariant l == Register(start, data[..p])
        decreases x - p
      {
        Step1IsShift(l, data[p]);
        RegisterByte(start, data, p);
        l := Step1(l, data[p]);
        p := p + 1;
      }
    }
    if e - p >= 16 {
      StridesLoad(start, l, data, p);
      var crc0, crc1, crc2, crc3 := Xor(l, Word(data, p)), Word(data, p + 4), Word(data, p + 8), Word(data, p + 12);
      p := p + 16;
      while e - p >= 16
        invariant p <= e
        invariant Register(start, data[..p]) == Strides(crc0, crc1, crc2, crc3)
      {
        SwathStep(start, data, p, crc0, crc1, crc2, crc3);
        crc0 := Xor(Word(data, p), Stride(crc0));
        crc1 := Xor(Word(data, p + 4), Stride(crc1));
        crc2 := Xor(Word(data, p + 8), Stride(crc2));
        crc3 := Xor(Word(data, p + 12), Stride(crc3));
        p := p + 16;
      }
      while e - p >= 4
        invariant p <= e
        invariant Register(start, data[..p]) == Strides(crc0, crc1, crc2, crc3)
      {
        WordStep(start, data, p, crc0, crc1, crc2, crc3);
        crc0 := Xor(Word(data, p), Stride(crc0));
        var tmp := crc0;
        crc0 := crc1;
        crc1 := crc2;
        crc2 := crc3;
        crc3 := tmp;
        p := p + 4;
      }
      l := 0;
      StridesEnd(crc0, crc1, crc2, crc3);
      l := Step4W(l, crc0);
      l := Step4W(l, crc1);
      l := Step4W(l, crc2);
      l := Step4W(l, crc3);
    }
    while p != e
      invariant p <= e
      invariant l == Register(start, data[..p])
      decreases e - p
    {
      Step1IsShift(l, data[p]);
      RegisterByte(start, data, p);
      l := Step1(l, data[p]);
      p := p + 1;
    }
    assert data[..e] == data;
    r := Xor(l, ONES);
  }

  lemma RegisterOfNothing(l: bv32, data: seq<bv8>)
    ensures Register(l, data[..0]) == l
  {}

  lemma StridesLoad(start: bv32, l: bv32, data: seq<bv8>, p: nat)
    requires p + 16 <= |data| && l == Register(start, data[..p])
    ensures Register(start, data[..p + 16])
              == Strides(Xor(l, Word(data, p)), Word(data, p + 4), Word(data, p + 8), Word(data, p + 12))
  {
    hide Shift, Xor, Register, Word, Strides;
    RegisterWord(start, data, p);
    RegisterWord(start, data, p + 4);
    RegisterWord(start, data, p + 8);
    RegisterWord(start, data, p + 12);
    StridesStart(l, Word(data, p), Word(data, p + 4), Word(data, p + 8), Word(data, p + 12));
  }

  lemma WordStep(start: bv32, data: seq<bv8>, p: nat, c0: bv32, c1: bv32, c2: bv32, c3: bv32)
    requires p + 4 <= |data| && Register(start, data[..p]) == Strides(c0, c1, c2, c3)
    ensures Register(start, data[..p + 4]) == Strides(c1, c2, c3, Xor(Word(data, p), Stride(c0)))
  {
    hide Shift, Xor, Register, Word, Strides, Stride;
    RegisterWord(start, data, p);
    StrideStep(c0, c1, c2, c3, Word(data, p));
  }

  lemma SwathStep(start: bv32, data: seq<bv8>, p: nat, c0: bv32, c1: bv32, c2: bv32, c3: bv32)
    requires p + 16 <= |data| && Register(start, data[..p]) == Strides(c0, c1, c2, c3)
    ensures Register(start, data[..p + 16])
         == Strides(Xor(Word(data, p), Stride(c0)), Xor(Word(data, p + 4), Stride(c1)),
                    Xor(Word(data, p + 8), Stride(c2)), Xor(Word(data, p + 12), Stride(c3)))
  {
    hide Shift, Xor, Register, Word, Strides, Stride;
    var d0, d1, d2 := Xor(Word(data, p), Stride(c0)), Xor(Word(data, p + 4), Stride(c1)),
        Xor(Word(data, p + 8), Stride(c2));
    WordStep(start, data, p, c0, c1, c2, c3);
    WordStep(start, data, p + 4, c1, c2, c3, d0);
    WordStep(start, data, p + 8, c2, c3, d0, d1);
    WordStep(start, data, p + 12, c3, d0, d1, d2);
  }

  // Pushing the partial results through an empty register one after another combines them.
  lemma StridesEnd(c0: bv32, c1: bv32, c2: bv32, c3: bv32)
    ensures Shift(32, Xor(Shift(32, Xor(Shift(32, Xor(Shift(32, Xor(0, c0)), c1)), c2)), c3)) == Strides(c0, c1, c2, c3)
  {
    hide Shift, Xor;
    StridesStart(0, c0, c1, c2, c3);
    XorCommutes(0, c0);
    XorCancels(c0);
  }

  // ---------------------------------------------------------------------------------------------
  // What the checksum is for

  // Checksums may be taken piecewise.
  lemma ChecksumOfConcatenation(crc: bv32, a: seq<bv8>, b: seq<bv8>)
    ensures Checksum(Checksum(crc, a), b) == Checksum(crc, a + b)
  {
    hide Register, Xor;
    RegisterOfConcatenation(Xor(crc, ONES), a, b);
    OnesCancel(Register(Xor(crc, ONES), a));
  }

  lemma {:induction false} RegisterOfConcatenation(l: bv32, a: seq<bv8>, b: seq<bv8>)
    ensures Register(Register(l, a), b) == Register(l, a + b)
  {
    hide Shift, Xor;
    if b == [] {
      assert a + b == a;
    } else {
      RegisterOfConcatenation(l, a, b[..|b| - 1]);
      assert (a + b)[..|a + b| - 1] == a + b[..|b| - 1];
    }
  }

  lemma OnesCancel(c: bv32)
    ensures Xor(Xor(c, ONES), ONES) == c
  {}

  lemma BitIsInjective(a: bv32, b: bv32)
    requires Bit(a) == Bit(b)
    ensures a == b
  {}

  lemma {:induction false} ShiftIsInjective(n: nat, a: bv32, b: bv32)
    requires Shift(n, a) == Shift(n, b)
    ensures a == b
  {
    hide Bit;
    if n > 0 {
      ShiftIsInjective(n - 1, Bit(a), Bit(b));
      BitIsInjective(a, b);
    }
  }

  lemma {:induction false} RegisterIsInjective(l: bv32, m: bv32, data: seq<bv8>)
    requires Register(l, data) == Register(m, data)
    ensures l == m
  {
    hide Shift;
    if data != [] {
      var n := |data| - 1;
      var b := data[n] as bv32;
      ShiftIsInjective(8, Xor(Register(l, data[..n]), b), Xor(Register(m, data[..n]), b));
      XorIsInjective(Register(l, data[..n]), Register(m, data[..n]), b);
      RegisterIsInjective(l, m, data[..n]);
    }
  }

  lemma XorIsInjective(a: bv32, b: bv32, c: bv32)
    requires Xor(a, c) == Xor(b, c)
    ensures a == b
  {}

  // Any damage that is confined to four consecutive bytes changes the checksum.
  lemma DamageIsDetected(crc: bv32, before: seq<bv8>, a: seq<bv8>, b: seq<bv8>, after: seq<bv8>)
    requires |a| == |b| == 4 && a != b
    ensures Checksum(crc, before + a + after) != Checksum(crc, before + b + after)
  {
    hide Shift, Xor, Register, Word;
    var l := Xor(crc, ONES);
    var r := Register(l, before);
    if Checksum(crc, before + a + after) == Checksum(crc, before + b + after) {
      RegisterOfConcatenation(l, before + a, after);
      RegisterOfConcatenation(l, before + b, after);
      RegisterOfConcatenation(l, before, a);
      RegisterOfConcatenation(l, before, b);
      XorWithOnesIsInjective(Register(l, before + a + after), Register(l, before + b + after));
      RegisterIsInjective(Register(r, a), Register(r, b), after);
      WordOf(r, a);
      WordOf(r, b);
      ShiftIsInjective(32, Xor(r, Word(a, 0)), Xor(r, Word(b, 0)));
      XorCommutes(r, Word(a, 0));
      XorCommutes(r, Word(b, 0));
      XorIsInjective(Word(a, 0), Word(b, 0), r);
      WordIsInjective(a, b);
    }
  }

  lemma XorWithOnesIsInjective(a: bv32, b: bv32)
    requires Xor(a, ONES) == Xor(b, ONES)
    ensures a == b
  {}

  lemma WordOf(r: bv32, a: seq<bv8>)
    requires |a| == 4
    ensures Register(r, a) == Shift(32, Xor(r, Word(a, 0)))
  {
    hide Shift, Xor, Word;
    RegisterWord(r, a, 0);
    assert a[..4] == a;
    RegisterOfNothing(r, a);
  }

  lemma WordIsInjective(a: seq<bv8>, b: seq<bv8>)
    requires |a| == |b| == 4 && Word(a, 0) == Word(b, 0)
    ensures a == b
  {
    hide DecodeFixed32, Byte;
    BytesOfWord(a[0], a[1], a[2], a[3]);
    BytesOfWord(b[0], b[1], b[2], b[3]);
  }

  lemma BytesOfWord(b0: bv8, b1: bv8, b2: bv8, b3: bv8)
    ensures var w := DecodeFixed32(b0, b1, b2, b3);
            Byte(w, 0) == b0 && Byte(w, 1) == b1 && Byte(w, 2) == b2 && Byte(w, 3) == b3
  {}

  // ---------------------------------------------------------------------------------------------
  // Masking

  const MASK_DELTA: bv32 := 0xa282ead8

  function Mask(crc: bv32): bv32 {
    ((crc >> 15) | (crc << 17)) + MASK_DELTA
  }

  function Unmask(masked: bv32): bv32 {
    var rot := masked - MASK_DELTA;
    (rot >> 17) | (rot << 15)
  }

  lemma MaskRoundTrips(c: bv32)
    ensures Unmask(Mask(c)) == c && Mask(Unmask(c)) == c
  {
    UnmaskOfMask(c);
    MaskOfUnmask(c);
  }

  lemma UnmaskOfMask(c: bv32)
    ensures Unmask(Mask(c)) == c
  {}

  lemma MaskOfUnmask(c: bv32)
    ensures Mask(Unmask(c)) == c
  {}
}
