/**
 Bloom filters (util/bloom.cc).  The hash of a key is a parameter, as is the number of probes that the
 constructor derives from the bits per key.
 */
module Bloom {
  import opened Keys
  import opened Coding

  /** uint32_t. */
  const WORD: nat := 0x1_0000_0000
  type Word = x: int | 0 <= x < WORD

  // ---- bits ----------------------------------------------------------------------------------------------

  /** `(b & (1 << i)) != 0`. */
  predicate HasBit(b: nat, i: nat) {
    if i == 0 then b % 2 == 1 else HasBit(b / 2, i - 1)
  }

  /** `b | (1 << i)`. */
  function WithBit(b: nat, i: nat): (r: nat)
    ensures forall j: nat :: HasBit(r, j) <==> HasBit(b, j) || i == j
  {
    if i == 0 then b - b % 2 + 1 else
      var r := 2 * WithBit(b / 2, i - 1) + b % 2;
      assert r / 2 == WithBit(b / 2, i - 1);
      assert forall j: nat :: j > 0 ==> (HasBit(r, j) <==> HasBit(r / 2, j - 1));
      r
  }

  lemma {:induction false} WithBitFits(b: nat, i: nat, n: nat)
    requires i < n && b < Power(2, n)
    ensures WithBit(b, i) < Power(2, n)
  {
    if i > 0 {
      WithBitFits(b / 2, i - 1, n - 1);
    }
  }

  lemma ByteWithBit(b: Byte, i: nat)
    requires i < 8
    ensures WithBit(b, i) < 256
  {
    assert Power(2, 8) == 2 * Power(2, 7) == 4 * Power(2, 6) == 8 * Power(2, 5) == 16 * Power(2, 4);
    assert Power(2, 4) == 2 * Power(2, 3) == 4 * Power(2, 2) == 8 * Power(2, 1) == 16 * Power(2, 0);
    WithBitFits(b, i, 8);
  }

  /** Bit `pos` of a bit array. */
  predicate IsSet(s: Bytes, pos: nat)
    requires pos / 8 < |s|
  {
    HasBit(s[pos / 8], pos % 8)
  }

  function SetBit(s: Bytes, pos: nat): (r: Bytes)
    requires pos / 8 < |s|
    ensures |r| == |s|
    ensures forall q: nat :: q / 8 < |s| ==> (IsSet(r, q) <==> IsSet(s, q) || pos == q)
    ensures forall i :: 0 <= i < |s| && i != pos / 8 ==> r[i] == s[i]
  {
    ByteWithBit(s[pos / 8], pos % 8);
    s[pos / 8 := WithBit(s[pos / 8], pos % 8)]
  }

  // ---- probes --------------------------------------------------------------------------------------------

  /** The hash rotated right by 17 bits. */
  function Delta(h: Word): Word {
    h / 0x2_0000 + h % 0x2_0000 * 0x8000
  }

  /** The hash value of probe `j`. */
  function ProbeFrom(h: Word, delta: Word, j: nat): Word {
    if j == 0 then h else (ProbeFrom(h, delta, j - 1) + delta) % WORD
  }

  /** The bit that a hash value stands for. */
  function BitPos(h: Word, bits: nat): (r: nat)
    requires bits > 0
    ensures r < bits
  {
    h % bits
  }

  function Probe(h: Word, j: nat, bits: nat): (r: nat)
    requires bits > 0
    ensures r < bits
  {
    BitPos(ProbeFrom(h, Delta(h), j), bits)
  }

  // What the probes are: multiples of the rotated hash on top of the hash, modulo 2^32 and then the number of bits.

  lemma {:induction false} BitsOfSum(a: nat, b: nat, n: nat, i: nat)
    requires a < Power(2, n)
    ensures HasBit(a + b * Power(2, n), i) <==> if i < n then HasBit(a, i) else HasBit(b, i - n)
    decreases n
  {
    if n > 0 {
      var p := Power(2, n - 1);
      assert b * Power(2, n) == 2 * (b * p);
      assert (a + b * Power(2, n)) / 2 == a / 2 + b * p && (a + b * Power(2, n)) % 2 == a % 2;
      if i > 0 {
        BitsOfSum(a / 2, b, n - 1, i - 1);
      }
    }
  }

  lemma {:induction false} NoHighBits(a: nat, n: nat, i: nat)
    requires a < Power(2, n) && n <= i
    ensures !HasBit(a, i)
  {
    if n == 0 {
      NoBits(i);
    } else {
      NoHighBits(a / 2, n - 1, i - 1);
    }
  }

  /** Bit `i` of the delta is bit `i + 17` of the hash, around the word. */
  lemma DeltaIsRotation(h: Word, i: nat)
    requires i < 32
    ensures HasBit(Delta(h), i) <==> HasBit(h, (i + 17) % 32)
  {
    var high, low := h / 0x2_0000, h % 0x2_0000;
    PowersOfTwo();
    hide HasBit, Power;
    BitsOfSum(low, high, 17, (i + 17) % 32);
    BitsOfSum(high, low, 15, i);
  }

  lemma PowersOfTwo()
    ensures Power(2, 15) == 0x8000 && Power(2, 17) == 0x2_0000
  {
    assert Power(2, 4) == 16 && Power(2, 8) == 16 * Power(2, 4) && Power(2, 12) == 16 * Power(2, 8);
    assert Power(2, 15) == 8 * Power(2, 12) && Power(2, 17) == 4 * Power(2, 15);
  }

  lemma {:induction false} ProbesAre(h: Word, j: nat, bits: nat)
    requires bits > 0
    ensures Probe(h, j, bits) == (h + j * Delta(h)) % WORD % bits
  {
    ProbeFromIs(h, Delta(h), j);
  }

  lemma {:induction false} ProbeFromIs(h: Word, delta: Word, j: nat)
    ensures ProbeFrom(h, delta, j) == (h + j * delta) % WORD
  {
    if j > 0 {
      ProbeFromIs(h, delta, j - 1);
      var before := h + (j - 1) * delta;
      assert h + j * delta == before + delta;
      AddModulo(before, delta);
    }
  }

  lemma AddModulo(x: nat, d: nat)
    ensures (x % WORD + d) % WORD == (x + d) % WORD
  {
  }

  /** The size of the bit array in bytes. */
  function FilterBytes(n: nat, bitsPerKey: nat): (r: nat)
    ensures 8 * r >= 64 && 8 * r >= n * bitsPerKey
    ensures 8 * r < 64 + 8 || 8 * r < n * bitsPerKey + 8
  {
    var bits := n * bitsPerKey;
    ((if bits < 64 then 64 else bits) + 7) / 8
  }

  ghost predicate Hit(hash: Bytes -> Word, k: nat, keys: seq<Bytes>, bits: nat, pos: nat)
    requires bits > 0
  {
    exists i, j: nat :: 0 <= i < |keys| && j < k && Probe(hash(keys[i]), j, bits) == pos
  }

  /** A bit array whose bits are exactly the probes of the keys, and the number of probes. */
  ghost predicate IsFilter(hash: Bytes -> Word, bitsPerKey: nat, k: nat, keys: seq<Bytes>, filter: Bytes) {
    && |filter| == FilterBytes(|keys|, bitsPerKey) + 1 && filter[|filter| - 1] == k
    && forall pos: nat :: pos < (|filter| - 1) * 8 ==>
         (IsSet(filter, pos) <==> Hit(hash, k, keys, (|filter| - 1) * 8, pos))
  }

  /** BloomFilterPolicy::CreateFilter. */
  method CreateFilter(hash: Bytes -> Word, bitsPerKey: nat, k: nat, keys: seq<Bytes>, dst: Bytes) returns (r: Bytes)
    requires 1 <= k <= 30
    ensures |r| >= |dst| && r[..|dst|] == dst && IsFilter(hash, bitsPerKey, k, keys, r[|dst|..])
  {
    hide WithBit, HasBit, Probe, SetBit, BitPos, ProbeFrom;
    var bytes := FilterBytes(|keys|, bitsPerKey);
    var bits := bytes * 8;
    var a: Bytes := seq(bytes, i => 0);
    forall pos: nat | pos < bits ensures !IsSet(a, pos) { NoBits(pos % 8); }
    for i := 0 to |keys|
      invariant |a| == bytes
      invariant forall pos: nat :: pos < bits ==> (IsSet(a, pos) <==> Hit(hash, k, keys[..i], bits, pos))
    {
      ghost var before := a;
      var h := hash(keys[i]);
      var delta := Delta(h);
      ghost var first := h;
      NextProbe(h, delta, 0);
      for j := 0 to k
        invariant |a| == bytes && h == ProbeFrom(first, delta, j)
        invariant forall pos: nat :: pos < bits ==>
                    (IsSet(a, pos) <==> IsSet(before, pos) || exists q: nat :: q < j && Probe(first, q, bits) == pos)
      {
        ProbeIs(first, j, bits);
        NextProbe(first, delta, j);
        a := SetBit(a, BitPos(h, bits));
        h := (h + delta) % WORD;
      }
      forall pos: nat | pos < bits
        ensures IsSet(a, pos) <==> Hit(hash, k, keys[..i + 1], bits, pos)
      {
        HitByOneMore(hash, k, keys, bits, pos, i);
      }
    }
    assert keys[..|keys|] == keys;
    r := dst + a + [k];
    assert r[|dst|..] == a + [k];
    assert forall pos: nat :: pos < bits ==> (IsSet(a + [k], pos) <==> IsSet(a, pos));
  }

  lemma NextProbe(h: Word, delta: Word, j: nat)
    ensures ProbeFrom(h, delta, 0) == h && ProbeFrom(h, delta, j + 1) == (ProbeFrom(h, delta, j) + delta) % WORD
  {
  }

  lemma ProbeIs(h: Word, j: nat, bits: nat)
    requires bits > 0
    ensures Probe(h, j, bits) == BitPos(ProbeFrom(h, Delta(h), j), bits)
  {
  }

  lemma {:induction false} NoBits(i: nat)
    ensures !HasBit(0, i)
  {
    if i > 0 {
      NoBits(i - 1);
    }
  }

  lemma HitByOneMore(hash: Bytes -> Word, k: nat, keys: seq<Bytes>, bits: nat, pos: nat, i: nat)
    requires bits > 0 && i < |keys|
    ensures Hit(hash, k, keys[..i + 1], bits, pos)
       <==> Hit(hash, k, keys[..i], bits, pos) || exists q: nat :: q < k && Probe(hash(keys[i]), q, bits) == pos
  {
    hide Probe;
    if q: nat :| q < k && Probe(hash(keys[i]), q, bits) == pos {
      assert keys[..i + 1][i] == keys[i];
    }
    if Hit(hash, k, keys[..i], bits, pos) {
      var a, j: nat :| 0 <= a < i && j < k && Probe(hash(keys[..i][a]), j, bits) == pos;
      assert keys[..i + 1][a] == keys[..i][a];
    }
    if Hit(hash, k, keys[..i + 1], bits, pos) {
      var a, j: nat :| 0 <= a < i + 1 && j < k && Probe(hash(keys[..i + 1][a]), j, bits) == pos;
      if a < i {
        assert keys[..i][a] == keys[..i + 1][a];
      }
    }
  }

  // ---- matching ------------------------------------------------------------------------------------------

  /** What a filter says of a key: whether all of the key's probes are set. */
  predicate Matches(hash: Bytes -> Word, key: Bytes, filter: Bytes) {
    |filter| >= 2 &&
    var bits, k := (|filter| - 1) * 8, filter[|filter| - 1];
    k > 30 || forall j: nat :: j < k ==> IsSet(filter, Probe(hash(key), j, bits))
  }

  /** BloomFilterPolicy::KeyMayMatch. */
  method KeyMayMatch(hash: Bytes -> Word, key: Bytes, filter: Bytes) returns (r: bool)
    ensures r == Matches(hash, key, filter)
  {
    hide HasBit, Probe, IsSet, BitPos, ProbeFrom;
    var len := |filter|;
    if len < 2 {
      return false;
    }
    var bits: nat := (len - 1) * 8;
    var k: nat := filter[len - 1];
    if k > 30 {
      return true;
    }
    var h := hash(key);
    var delta := Delta(h);
    NextProbe(h, delta, 0);
    for j := 0 to k
      invariant h == ProbeFrom(hash(key), delta, j)
      invariant forall q: nat :: q < j ==> IsSet(filter, Probe(hash(key), q, bits))
    {
      var bitpos := BitPos(h, bits);
      ProbeIs(hash(key), j, bits);
      NextProbe(hash(key), delta, j);
      BitIs(filter, bitpos);
      if !HasBit(filter[bitpos / 8], bitpos % 8) {
        return false;
      }
      h := (h + delta) % WORD;
    }
    return true;
  }

  /** Filters of other kinds: too short ones match nothing, those with more than thirty probes everything. */
  lemma OtherFilters(hash: Bytes -> Word, key: Bytes, filter: Bytes)
    ensures |filter| < 2 ==> !Matches(hash, key, filter)
    ensures |filter| >= 2 && filter[|filter| - 1] > 30 ==> Matches(hash, key, filter)
  {
  }

  lemma BitIs(s: Bytes, pos: nat)
    requires |s| > 0 && pos < (|s| - 1) * 8
    ensures pos / 8 < |s| && (IsSet(s, pos) <==> HasBit(s[pos / 8], pos % 8))
  {
  }

  /** Every probe of a key with hash `h` is a probe of one of `keys`. */
  ghost predicate AllHit(hash: Bytes -> Word, k: nat, keys: seq<Bytes>, bits: nat, h: Word)
    requires bits > 0
  {
    forall j: nat {:trigger Probe(h, j, bits)} :: j < k ==> Hit(hash, k, keys, bits, Probe(h, j, bits))
  }

  /** A filter matches exactly the keys all of whose probes are probes of its keys. */
  lemma MatchesIff(hash: Bytes -> Word, bitsPerKey: nat, k: nat, keys: seq<Bytes>, filter: Bytes, key: Bytes)
    requires 1 <= k <= 30 && IsFilter(hash, bitsPerKey, k, keys, filter)
    ensures Matches(hash, key, filter)
       <==> AllHit(hash, k, keys, (|filter| - 1) * 8, hash(key))
  {
    hide Probe, HasBit;
  }

  /** No false negatives. */
  lemma OwnKeysMatch(hash: Bytes -> Word, bitsPerKey: nat, k: nat, keys: seq<Bytes>, filter: Bytes, key: Bytes)
    requires 1 <= k <= 30 && IsFilter(hash, bitsPerKey, k, keys, filter) && key in keys
    ensures Matches(hash, key, filter)
  {
    hide Probe, HasBit;
    MatchesIff(hash, bitsPerKey, k, keys, filter, key);
    var i :| 0 <= i < |keys| && keys[i] == key;
    OwnProbesHit(hash, k, keys, (|filter| - 1) * 8, i);
  }

  lemma OwnProbesHit(hash: Bytes -> Word, k: nat, keys: seq<Bytes>, bits: nat, i: nat)
    requires bits > 0 && i < |keys|
    ensures AllHit(hash, k, keys, bits, hash(keys[i]))
  {
    hide Probe;
  }
}
