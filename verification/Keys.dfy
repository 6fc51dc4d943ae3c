/**
 Internal keys (db/dbformat.h, db/dbformat.cc): a user key, a sequence number and a value type,
 ordered by increasing user key, then by decreasing packed (sequence, type).

 A user key is represented by its rank in the comparator's order, a real number.  Nothing is lost:
 `RankEmbedsOrder` shows that the default bytewise order on strings embeds into the reals.
 */
module Keys {
  type Byte = x: int | 0 <= x < 256

  type UserKey = real

  datatype ValueType = Deletion | Value

  /** kMaxSequenceNumber: 56 bits of sequence number, 8 bits of type. */
  const MAX_SEQUENCE: nat := 0xFF_FFFF_FFFF_FFFF

  datatype InternalKey = InternalKey(user: UserKey, sequence: nat, kind: ValueType) {
    /** The packed (sequence, type) word. */
    function Tag(): nat {
      sequence * 256 + if kind.Value? then 1 else 0
    }
  }

  /** InternalKeyComparator::Compare(a, b) < 0. */
  predicate Before(a: InternalKey, b: InternalKey) {
    a.user < b.user || (a.user == b.user && a.Tag() > b.Tag())
  }

  /** The key that sorts first among the keys of `user` visible at `snapshot` (kValueTypeForSeek). */
  function SeekKey(user: UserKey, snapshot: nat): InternalKey {
    InternalKey(user, snapshot, Value)
  }

  datatype Entry = Entry(key: InternalKey, value: seq<Byte>)

  ghost predicate Sorted(es: seq<Entry>) {
    forall i, j :: 0 <= i < j < |es| ==> Before(es[i].key, es[j].key)
  }

  /** Position of the first entry at or after `target`: what Seek does on a sorted run. */
  function LowerBound(es: seq<Entry>, target: InternalKey): (r: nat)
    ensures r <= |es|
    ensures forall i :: 0 <= i < r ==> Before(es[i].key, target)
    ensures r < |es| ==> !Before(es[r].key, target)
  {
    if es == [] || !Before(es[0].key, target) then 0 else
      var r := LowerBound(es[1..], target);
      assert forall i :: 0 < i < r + 1 ==> es[i] == es[1..][i - 1];
      r + 1
  }

  // ---- bytewise order and its rank ------------------------------------------------------

  /** Slice::compare(a, b) < 0: lexicographic, shorter first. */
  predicate BytewiseLess(a: seq<Byte>, b: seq<Byte>) {
    b != [] && (a == [] || a[0] < b[0] || (a[0] == b[0] && BytewiseLess(a[1..], b[1..])))
  }

  function Rank(s: seq<Byte>): (r: real)
    ensures 0.0 <= r < 1.0
    ensures s != [] ==> 0.0 < r
  {
    if s == [] then 0.0 else (s[0] as real + 1.0 + Rank(s[1..])) / 257.0
  }

  /** The ranks of two strings compare exactly as the strings do. */
  lemma {:induction false} RankEmbedsOrder(a: seq<Byte>, b: seq<Byte>)
    ensures BytewiseLess(a, b) <==> Rank(a) < Rank(b)
    ensures a == b <==> Rank(a) == Rank(b)
  {
    if a != [] && b != [] {
      RankEmbedsOrder(a[1..], b[1..]);
      assert a == [a[0]] + a[1..] && b == [b[0]] + b[1..];
      if a[0] < b[0] {
        assert a[0] as real + 1.0 <= b[0] as real;
      } else if b[0] < a[0] {
        assert b[0] as real + 1.0 <= a[0] as real;
      }
    }
  }
}
