/**
 Integers as bytes (util/coding.h, util/coding.cc): fixed-width little-endian words, varints of seven
 bits a byte, and slices with their length in front.
 */
module Coding {
  import opened Options
  import opened Keys

  type Bytes = seq<Byte>

  // ---- fixed width ---------------------------------------------------------------------------------------

  /** The low `n` bytes of `v`, the lowest first. */
  function Fixed(v: nat, n: nat): (s: Bytes)
    ensures |s| == n
  {
    if n == 0 then [] else [v % 256] + Fixed(v / 256, n - 1)
  }

  /** EncodeFixed32, PutFixed32. */
  function Fixed32(v: nat): (s: Bytes)
    ensures |s| == 4
  {
    Fixed(v, 4)
  }

  /** EncodeFixed64, PutFixed64. */
  function Fixed64(v: nat): (s: Bytes)
    ensures |s| == 8
  {
    Fixed(v, 8)
  }

  /** DecodeFixed32, DecodeFixed64. */
  function DecodeFixed(s: Bytes): nat {
    if s == [] then 0 else s[0] + 256 * DecodeFixed(s[1..])
  }

  function Power(base: nat, n: nat): (p: nat)
    ensures base > 0 ==> p > 0
  {
    if n == 0 then 1 else base * Power(base, n - 1)
  }

  lemma {:induction false} FixedRoundTrip(v: nat, n: nat)
    requires v < Power(256, n)
    ensures DecodeFixed(Fixed(v, n)) == v
  {
    if n > 0 {
      assert v / 256 < Power(256, n - 1);
      FixedRoundTrip(v / 256, n - 1);
      assert Fixed(v, n)[1..] == Fixed(v / 256, n - 1);
    }
  }

  lemma Fixed32RoundTrip(v: nat)
    requires v < 0x1_0000_0000
    ensures DecodeFixed(Fixed32(v)) == v
  {
    assert Power(256, 4) == 256 * Power(256, 3) == 256 * (256 * Power(256, 2));
    assert Power(256, 2) == 256 * Power(256, 1) == 256 * 256;
    FixedRoundTrip(v, 4);
  }

  /** Reading a word and writing it again gives its bytes. */
  lemma {:induction false} FixedOfDecode(s: Bytes)
    ensures Fixed(DecodeFixed(s), |s|) == s
  {
    if s != [] {
      FixedOfDecode(s[1..]);
      LowByte(s[0], DecodeFixed(s[1..]));
      assert s == [s[0]] + s[1..];
    }
  }

  lemma LowByte(b: nat, rest: nat)
    requires b < 256
    ensures (b + 256 * rest) % 256 == b && (b + 256 * rest) / 256 == rest
  {
  }

  lemma {:induction false} DecodeIsBelow(s: Bytes)
    ensures DecodeFixed(s) < Power(256, |s|)
  {
    if s != [] {
      DecodeIsBelow(s[1..]);
    }
  }

  lemma DivisionIs(n: nat, d: nat, q: nat, r: nat)
    requires n == q * d + r && r < d
    ensures n / d == q && n % d == r
  {
    ProductsRise(n / d + 1, q, d);
    ProductsRise(q + 1, n / d, d);
    assert n == n / d * d + n % d && (n / d + 1) * d == n / d * d + d && (q + 1) * d == q * d + d;
  }

  lemma ProductsRise(a: nat, b: nat, d: nat)
    ensures a <= b ==> a * d <= b * d
  {
  }

  // ---- places --------------------------------------------------------------------------------------------

  /** `s` stands in `src` at `p`. */
  predicate At(src: Bytes, p: nat, s: Bytes) {
    p + |s| <= |src| && src[p..p + |s|] == s
  }

  lemma AtParts(src: Bytes, p: nat, a: Bytes, b: Bytes)
    requires At(src, p, a + b)
    ensures At(src, p, a) && At(src, p + |a|, b)
  {
    assert src[p..p + |a|] == src[p..p + |a + b|][..|a|];
    assert src[p + |a|..p + |a| + |b|] == src[p..p + |a + b|][|a|..];
  }

  // ---- varints -------------------------------------------------------------------------------------------

  /** Seven bits a byte, the lowest first, the high bit set on all but the last. */
  function Varint(v: nat): (s: Bytes)
    ensures |s| >= 1
  {
    if v < 128 then [v] else [v % 128 + 128] + Varint(v / 128)
  }

  /** EncodeVarint64. */
  method EncodeVarint64(v: nat) returns (s: Bytes)
    ensures s == Varint(v)
  {
    var w := v;
    s := [];
    while w >= 128
      invariant s + Varint(w) == Varint(v)
    {
      assert s + Varint(w) == s + [w % 128 + 128] + Varint(w / 128);
      s := s + [w % 128 + 128];
      w := w / 128;
    }
    s := s + [w];
  }

  /** EncodeVarint32, which writes out the five lengths. */
  function EncodeVarint32(v: nat): (s: Bytes)
    requires v < 0x1_0000_0000
  {
    if v < 0x80 then
      [v]
    else if v < 0x4000 then
      [v % 128 + 128, v / 0x80]
    else if v < 0x20_0000 then
      [v % 128 + 128, v / 0x80 % 128 + 128, v / 0x4000]
    else if v < 0x1000_0000 then
      [v % 128 + 128, v / 0x80 % 128 + 128, v / 0x4000 % 128 + 128, v / 0x20_0000]
    else
      [v % 128 + 128, v / 0x80 % 128 + 128, v / 0x4000 % 128 + 128, v / 0x20_0000 % 128 + 128, v / 0x1000_0000]
  }

  lemma EncodeVarint32IsVarint(v: nat)
    requires v < 0x1_0000_0000
    ensures EncodeVarint32(v) == Varint(v) && |Varint(v)| <= 5
  {
    Quotients(v);
    if v >= 0x80 {
      VarintIs(v);
      if v >= 0x4000 {
        VarintIs(v / 0x80);
        if v >= 0x20_0000 {
          VarintIs(v / 0x4000);
          if v >= 0x1000_0000 {
            VarintIs(v / 0x20_0000);
          }
        }
      }
    }
  }

  lemma VarintIs(v: nat)
    requires v >= 128
    ensures Varint(v) == [v % 128 + 128] + Varint(v / 128)
  {
  }

  lemma Quotients(v: nat)
    ensures v / 0x80 / 128 == v / 0x4000 && v / 0x4000 / 128 == v / 0x20_0000 && v / 0x20_0000 / 128 == v / 0x1000_0000
    ensures v < 0x4000 <==> v / 0x80 < 128
    ensures v < 0x20_0000 <==> v / 0x4000 < 128
    ensures v < 0x1000_0000 <==> v / 0x20_0000 < 128
    ensures v < 0x1_0000_0000 ==> v / 0x1000_0000 < 128
  {
  }

  /**
   The number in the bytes from `p` to `limit`, of which `result` is known and of which the next byte
   counts `weight`, in a word of `size` values; and the position after it.
   */
  function ReadVarint(data: Bytes, p: nat, limit: nat, result: nat, weight: nat, size: nat): (r: Option<(nat, nat)>)
    requires limit <= |data| && 0 < size
    ensures r.Some? ==> p < r.value.1 <= limit
    decreases limit - p
  {
    if p >= limit || weight >= size then None
    else if data[p] >= 128 then
      ReadVarint(data, p + 1, limit, result + (data[p] - 128) * weight % size, weight * 128, size)
    else
      Some((result + data[p] * weight % size, p + 1))
  }

  /** GetVarint32Ptr with its fallback. */
  method GetVarint32Ptr(data: Bytes, p: nat, limit: nat) returns (r: Option<(nat, nat)>)
    requires p <= limit <= |data|
    ensures r == ReadVarint(data, p, limit, 0, 1, 0x1_0000_0000)
  {
    var q: nat, result: nat, weight: nat := p, 0, 1;
    while weight <= 0x1000_0000 && q < limit
      invariant p <= q <= limit && weight > 0
      invariant weight in [1, 0x80, 0x4000, 0x20_0000, 0x1000_0000, 0x8_0000_0000]
      invariant ReadVarint(data, q, limit, result, weight, 0x1_0000_0000)
             == ReadVarint(data, p, limit, 0, 1, 0x1_0000_0000)
      decreases limit - q
    {
      var b := data[q];
      q := q + 1;
      if b >= 128 {
        result := result + (b - 128) * weight % 0x1_0000_0000;
      } else {
        result := result + b * weight % 0x1_0000_0000;
        return Some((result, q));
      }
      weight := weight * 128;
    }
    return None;
  }

  /** The lowest seven bits of `v` and the rest of it, at a given weight. */
  lemma Digits(v: nat, weight: nat, size: nat)
    requires v >= 128 && 0 < weight && v * weight < size
    ensures v * weight == v % 128 * weight + v / 128 * (weight * 128)
    ensures v % 128 * weight % size == v % 128 * weight
    ensures v / 128 * (weight * 128) < size && weight * 128 < size
  {
    var low, high := v % 128, v / 128;
    assert v == low + 128 * high;
    assert v * weight == low * weight + high * (weight * 128) by { SplitProduct(low, high, weight); }
    AtLeastOne(high, weight * 128);
    Remains(low * weight, size);
  }

  lemma SplitProduct(low: nat, high: nat, weight: nat)
    ensures (low + 128 * high) * weight == low * weight + high * (weight * 128)
  {
  }

  lemma AtLeastOne(a: nat, b: nat)
    requires a >= 1
    ensures a * b >= b
  {
  }

  lemma Remains(a: nat, size: nat)
    requires a < size
    ensures a % size == a
  {
  }

  /** The bytes of a varint, wherever they stand, are read back to its value. */
  lemma {:induction false} VarintReadsBack(data: Bytes, p: nat, limit: nat, v: nat, result: nat, weight: nat, size: nat)
    requires p + |Varint(v)| <= limit <= |data| && data[p..p + |Varint(v)|] == Varint(v)
    requires 0 < weight < size && v * weight < size
    ensures ReadVarint(data, p, limit, result, weight, size) == Some((result + v * weight, p + |Varint(v)|))
    decreases v
  {
    var n := |Varint(v)|;
    assert data[p] == data[p..p + n][0];
    if v < 128 {
      Remains(v * weight, size);
    } else {
      Digits(v, weight, size);
      var low, high := v % 128, v / 128;
      NextDigit(data, p, v);
      VarintReadsBack(data, p + 1, limit, high, result + low * weight, weight * 128, size);
    }
  }

  lemma NextDigit(data: Bytes, p: nat, v: nat)
    requires v >= 128 && p + |Varint(v)| <= |data| && data[p..p + |Varint(v)|] == Varint(v)
    ensures |Varint(v)| == |Varint(v / 128)| + 1
    ensures data[p] == v % 128 + 128
    ensures data[p + 1..p + 1 + |Varint(v / 128)|] == Varint(v / 128)
  {
    var n := |Varint(v / 128)|;
    assert Varint(v)[1..] == Varint(v / 128);
    assert data[p] == data[p..p + n + 1][0];
    assert data[p + 1..p + 1 + n] == data[p..p + 1 + n][1..];
  }

  // ---- length-prefixed slices ----------------------------------------------------------------------------

  /** PutLengthPrefixedSlice. */
  function LengthPrefixed(s: Bytes): Bytes {
    Varint(|s|) + s
  }

  // ---- reading from a slice ------------------------------------------------------------------------------

  /** A value and the position after it, or nothing. */
  datatype Parsed<T> = Bad | Good(value: T, next: nat)

  function GetVarint(src: Bytes, p: nat, size: nat): (r: Parsed<nat>)
    requires p <= |src| && 0 < size
    ensures r.Good? ==> p < r.next <= |src|
  {
    var v := ReadVarint(src, p, |src|, 0, 1, size);
    if v.None? then Bad else Good(v.value.0, v.value.1)
  }

  function GetVarint32(src: Bytes, p: nat): (r: Parsed<nat>)
    requires p <= |src|
    ensures r.Good? ==> p < r.next <= |src|
  {
    GetVarint(src, p, 0x1_0000_0000)
  }

  function GetVarint64(src: Bytes, p: nat): (r: Parsed<nat>)
    requires p <= |src|
    ensures r.Good? ==> p < r.next <= |src|
  {
    GetVarint(src, p, 0x1_0000_0000_0000_0000)
  }

  function GetLengthPrefixedSlice(src: Bytes, p: nat): (r: Parsed<Bytes>)
    requires p <= |src|
    ensures r.Good? ==> p < r.next <= |src|
  {
    var n := GetVarint32(src, p);
    if n.Bad? || n.next + n.value > |src| then Bad else Good(src[n.next..n.next + n.value], n.next + n.value)
  }

  lemma ReadsVarint(src: Bytes, p: nat, v: nat, size: nat)
    requires At(src, p, Varint(v)) && v < size && 1 < size
    ensures GetVarint(src, p, size) == Good(v, p + |Varint(v)|)
  {
    VarintReadsBack(src, p, |src|, v, 0, 1, size);
  }

  lemma ReadsSlice(src: Bytes, p: nat, s: Bytes)
    requires At(src, p, LengthPrefixed(s)) && |s| < 0x1_0000_0000
    ensures GetLengthPrefixedSlice(src, p) == Good(s, p + |LengthPrefixed(s)|)
  {
    hide GetVarint, Varint;
    AtParts(src, p, Varint(|s|), s);
    ReadsVarint(src, p, |s|, 0x1_0000_0000);
  }
}
