/**
 What pb_decode_varint32 (pb_decode.c) makes of any 64-bit number: 32-bit ones are read as they are, and of the
 larger ones those, and not only those, that are 32-bit negatives extended to 64 bits.
 */
module PbVarints {
  import opened Options
  import opened Coding
  import opened PbDecode
  import opened PbRoundTrip
  import opened Nanopb

  /** The groups of seven bits from `weight` on are each all zeros or all ones, and bit 63 is set. */
  predicate Extends(u: nat, weight: nat)
    requires weight in [0x8_0000_0000, 0x400_0000_0000, 0x2_0000_0000_0000, 0x100_0000_0000_0000, 0x8000_0000_0000_0000]
    decreases u
  {
    if weight == 0x8000_0000_0000_0000 then u == 1
    else u >= 128 && (u % 128 == 0 || u % 128 == 127) && Extends(u / 128, weight * 128)
  }

  /** Bits 32 to 34 are not looked at. */
  predicate IsExtended(v: nat) {
    v % 0x1_0000_0000 >= 0x8000_0000 && Extends(v / 0x8_0000_0000, 0x8_0000_0000)
  }

  /** One step of the loop past 32 bits. */
  lemma HighDigit(src: Bytes, p: nat, end: nat, result: nat, weight: nat)
    requires p < end <= |src| && weight >= TWO32
    ensures Varint32From(src, p, end, result, weight)
         == var b, extension := src[p], if weight < 0x8000_0000_0000_0000 then 0xFF else 0x01;
            if b % 128 != 0 && (result / 0x8000_0000 == 0 || b != extension) then None
            else if b >= 128 then Varint32From(src, p + 1, end, result, weight * 128)
            else Some((result, p + 1))
  {
  }

  lemma {:induction false} HighReads(src: Bytes, p: nat, end: nat, u: nat, result: nat, weight: nat)
    requires At(src, p, Varint(u)) && p + |Varint(u)| <= end <= |src|
    requires weight in [0x8_0000_0000, 0x400_0000_0000, 0x2_0000_0000_0000, 0x100_0000_0000_0000, 0x8000_0000_0000_0000]
    requires u > 0 && u * weight < TWO64 && result < TWO32
    ensures Varint32From(src, p, end, result, weight)
         == if result >= 0x8000_0000 && Extends(u, weight) then Some((result, p + |Varint(u)|)) else None
    decreases u
  {
    hide Varint, Varint32From, At;
    if u < 128 {
      LastDigit(src, p, u);
      HighDigit(src, p, end, result, weight);
    } else {
      NextDigit(src, p, u) by { AtIs(src, p, u); }
      AtIs(src, p + 1, u / 128);
      HighDigit(src, p, end, result, weight);
      HighProduct(u, weight);
      HighReads(src, p + 1, end, u / 128, result, weight * 128);
    }
  }

  lemma AtIs(src: Bytes, p: nat, u: nat)
    ensures At(src, p, Varint(u)) <==> p + |Varint(u)| <= |src| && src[p..p + |Varint(u)|] == Varint(u)
  {
  }

  lemma HighProduct(u: nat, weight: nat)
    requires weight in [0x8_0000_0000, 0x400_0000_0000, 0x2_0000_0000_0000, 0x100_0000_0000_0000, 0x8000_0000_0000_0000]
    requires u >= 128 && u * weight < TWO64
    ensures weight != 0x8000_0000_0000_0000 && u / 128 > 0 && u / 128 * (weight * 128) < TWO64
  {
  }

  lemma {:induction false} LowReads(src: Bytes, p: nat, end: nat, u: nat, result: nat, weight: nat)
    requires At(src, p, Varint(u)) && p + |Varint(u)| <= end <= |src|
    requires weight in [1, 0x80, 0x4000, 0x20_0000, 0x1000_0000] && result < weight
    requires TWO32 <= result + u * weight < TWO64
    ensures Varint32From(src, p, end, result, weight)
         == var v := result + u * weight;
            if IsExtended(v) then Some((v % TWO32, p + |Varint(u)|)) else None
    decreases u
  {
    hide Varint, Varint32From, At, Extends, IsExtended;
    if u < 128 {
      OnlyFiveBytes(u, result, weight);
      LastDigit(src, p, u);
      DigitRead(src, p, end, result, weight);
    } else {
      NextDigit(src, p, u) by { AtIs(src, p, u); }
      AtIs(src, p + 1, u / 128);
      DigitRead(src, p, end, result, weight);
      if weight == 0x1000_0000 {
        FifthByte(u, result);
        HighReads(src, p + 1, end, u / 128, result + u % 128 * weight % TWO32, 0x8_0000_0000);
      } else {
        LowStep(u, result, weight);
        LowReads(src, p + 1, end, u / 128, result + u % 128 * weight, weight * 128);
      }
    }
  }

  /** A number of five bytes has no bits from 35 on. */
  lemma OnlyFiveBytes(u: nat, result: nat, weight: nat)
    requires weight in [1, 0x80, 0x4000, 0x20_0000, 0x1000_0000] && result < weight && u < 128
    requires TWO32 <= result + u * weight
    ensures weight == 0x1000_0000 && u / 16 % 8 != 0 && !IsExtended(result + u * weight)
  {
    assert (result + u * 0x1000_0000) / 0x8_0000_0000 == 0;
  }

  lemma FifthByte(u: nat, result: nat)
    requires u >= 128 && result < 0x1000_0000 && result + u * 0x1000_0000 < TWO64
    ensures var v, r := result + u * 0x1000_0000, result + u % 128 * 0x1000_0000 % TWO32;
      && v % TWO32 == r && u / 128 > 0 && u / 128 * 0x8_0000_0000 < TWO64
      && (IsExtended(v) <==> r >= 0x8000_0000 && Extends(u / 128, 0x8_0000_0000))
  {
    hide Extends;
    DigitsOf(u);
    FifthDigits(u / 128, u % 128 / 16, u % 16, result);
  }

  lemma DigitsOf(u: nat)
    ensures 128 * (u / 128) + 16 * (u % 128 / 16) + u % 16 == u && u % 128 / 16 < 8
  {
    var l := u % 128;
    assert u == 128 * (u / 128) + l && l == 16 * (l / 16) + l % 16;
    DivisionIs(u, 16, 8 * (u / 128) + l / 16, l % 16);
  }

  lemma FifthDigits(high: nat, q: nat, r: nat, result: nat)
    requires q < 8 && r < 16 && result < 0x1000_0000
    ensures var u := 128 * high + 16 * q + r; var v := result + u * 0x1000_0000;
      && u / 128 == high && u % 128 * 0x1000_0000 % TWO32 == r * 0x1000_0000
      && v % TWO32 == result + r * 0x1000_0000 && v / 0x8_0000_0000 == high
  {
    var u := 128 * high + 16 * q + r;
    DivisionIs(u, 128, high, 16 * q + r);
    DivisionIs((16 * q + r) * 0x1000_0000, TWO32, q, r * 0x1000_0000);
    DivisionIs(result + u * 0x1000_0000, TWO32, 8 * high + q, result + r * 0x1000_0000);
    DivisionIs(result + u * 0x1000_0000, 0x8_0000_0000, high, result + (16 * q + r) * 0x1000_0000);
  }

  lemma LowStep(u: nat, result: nat, weight: nat)
    requires weight in [1, 0x80, 0x4000, 0x20_0000] && result < weight
    ensures u % 128 * weight % TWO32 == u % 128 * weight && result + u % 128 * weight < weight * 128
    ensures result + u * weight == result + u % 128 * weight + u / 128 * (weight * 128)
  {
  }

  /** Any 64-bit number: exactly what is read as a 32-bit one, and as which. */
  lemma Varint32OfAny(src: Bytes, p: nat, end: nat, v: nat)
    requires At(src, p, Varint(v)) && p + |Varint(v)| <= end <= |src| && v < TWO64
    ensures Varint32(src, p, end)
         == if v < 0x1_0000_0000 then Some((v, p + |Varint(v)|))
            else if IsExtended(v) then Some((v % 0x1_0000_0000, p + |Varint(v)|))
            else None
  {
    hide Varint, Varint32From, At, IsExtended;
    if v < TWO32 {
      Varint32Reads(src, p, end, v);
    } else {
      LowReads(src, p, end, v, 0, 1);
    }
  }

  /** Every negative 32-bit number is read from its 64-bit form; and so are numbers that are none. */
  lemma NegativesAreExtended(n: int)
    requires -0x8000_0000 <= n < 0
    ensures IsExtended(n + TWO64) && (n + TWO64) % 0x1_0000_0000 == n + 0x1_0000_0000
    ensures IsExtended(0x8000_0000_8000_0000)
  {
    var v := n + TWO64;
    assert v / 0x8_0000_0000 == 0x1FFF_FFFF;
    assert Extends(0x1FFF_FFFF, 0x8_0000_0000) by {
      assert Extends(1, 0x8000_0000_0000_0000);
      assert Extends(0xFF, 0x100_0000_0000_0000);
      assert Extends(0x7FFF, 0x2_0000_0000_0000);
      assert Extends(0x3F_FFFF, 0x400_0000_0000);
    }
    assert 0x8000_0000_8000_0000 / 0x8_0000_0000 == 0x1000_0000;
    assert Extends(0x1000_0000, 0x8_0000_0000) by {
      assert Extends(1, 0x8000_0000_0000_0000);
      assert Extends(0x80, 0x100_0000_0000_0000);
      assert Extends(0x4000, 0x2_0000_0000_0000);
      assert Extends(0x20_0000, 0x400_0000_0000);
    }
  }
}
