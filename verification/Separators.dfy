/**
 Short keys between keys (util/comparator.cc, db/dbformat.cc), which serve as index keys of a table.
 */
module Separators {
  import opened Keys

  type Bytes = seq<Byte>

  // ---- bytewise ------------------------------------------------------------------------------------------

  /** With a common prefix, the rest decides. */
  lemma {:induction false} CommonPrefix(p: Bytes, a: Bytes, b: Bytes)
    ensures BytewiseLess(p + a, p + b) <==> BytewiseLess(a, b)
  {
    if p == [] {
      assert [] + a == a && [] + b == b;
    } else {
      CommonPrefix(p[1..], a, b);
      assert (p + a)[1..] == p[1..] + a && (p + b)[1..] == p[1..] + b;
    }
  }

  /** Strings that first differ at `n` compare as their bytes there. */
  lemma DifferAt(a: Bytes, b: Bytes, n: nat)
    requires n < |a| && n < |b| && a[..n] == b[..n] && a[n] < b[n]
    ensures BytewiseLess(a, b)
  {
    assert a == a[..n] + a[n..] && b == a[..n] + b[n..];
    CommonPrefix(a[..n], a[n..], b[n..]);
  }

  /** After a common prefix of length `n` there is room for a byte between those of the two strings. */
  predicate HasRoom(start: Bytes, limit: Bytes, n: nat) {
    n < |start| && n < |limit| && start[..n] == limit[..n] && start[n] as int + 1 < limit[n]
  }

  /** Where there is such room `r` is the prefix and the next byte; otherwise it is `start`. */
  ghost predicate IsShortestSeparator(start: Bytes, limit: Bytes, r: Bytes) {
    && (forall n: nat :: HasRoom(start, limit, n) ==> r == start[..n] + [start[n] + 1])
    && ((forall n: nat :: !HasRoom(start, limit, n)) ==> r == start)
  }

  /** BytewiseComparatorImpl::FindShortestSeparator. */
  method FindShortestSeparator(start: Bytes, limit: Bytes) returns (r: Bytes)
    ensures r == start || (BytewiseLess(start, r) && BytewiseLess(r, limit) && |r| <= |start|)
    ensures IsShortestSeparator(start, limit, r)
  {
    var minLength := if |start| < |limit| then |start| else |limit|;
    var diffIndex := 0;
    while diffIndex < minLength && start[diffIndex] == limit[diffIndex]
      invariant diffIndex <= minLength && start[..diffIndex] == limit[..diffIndex]
    {
      diffIndex := diffIndex + 1;
    }
    r := start;
    if diffIndex < minLength {
      OnlyRoomAt(start, limit, diffIndex);
      var diffByte := start[diffIndex];
      if diffByte < 0xff && diffByte + 1 < limit[diffIndex] {
        assert HasRoom(start, limit, diffIndex);
        r := start[..diffIndex] + [diffByte + 1];
        DifferAt(start, r, diffIndex);
        DifferAt(r, limit, diffIndex);
      }
    } else {
      NoRoomInPrefix(start, limit);
    }
  }

  lemma SamePrefix(a: Bytes, b: Bytes, n: nat, k: nat)
    requires k < n <= |a| && n <= |b| && a[..n] == b[..n]
    ensures a[k] == b[k]
  {
    assert a[..n][k] == b[..n][k];
  }

  lemma OnlyRoomAt(start: Bytes, limit: Bytes, d: nat)
    requires d < |start| && d < |limit| && start[..d] == limit[..d] && start[d] != limit[d]
    ensures forall n: nat :: HasRoom(start, limit, n) ==> n == d
  {
    forall n: nat | HasRoom(start, limit, n)
      ensures n == d
    {
      if n > d {
        SamePrefix(start, limit, n, d);
      } else if n < d {
        SamePrefix(start, limit, d, n);
      }
    }
  }

  lemma NoRoomInPrefix(start: Bytes, limit: Bytes)
    requires var m := if |start| < |limit| then |start| else |limit|; start[..m] == limit[..m]
    ensures forall n: nat :: !HasRoom(start, limit, n)
  {
    var m := if |start| < |limit| then |start| else |limit|;
    forall n: nat | n < m
      ensures start[n] == limit[n]
    {
      SamePrefix(start, limit, m, n);
    }
  }

  /** The first byte that is not 0xff is raised by one, and nothing follows it; without one it is the key. */
  ghost predicate IsShortSuccessor(key: Bytes, r: Bytes) {
    && (forall i: nat :: i < |key| && key[i] != 0xff && (forall j :: 0 <= j < i ==> key[j] == 0xff) ==>
          r == key[..i] + [key[i] + 1])
    && ((forall i :: 0 <= i < |key| ==> key[i] == 0xff) ==> r == key)
  }

  /** BytewiseComparatorImpl::FindShortSuccessor. */
  method FindShortSuccessor(key: Bytes) returns (r: Bytes)
    ensures r == key || (BytewiseLess(key, r) && |r| <= |key|)
    ensures IsShortSuccessor(key, r)
  {
    r := key;
    var i := 0;
    while i < |key|
      invariant i <= |key| && forall j :: 0 <= j < i ==> key[j] == 0xff
    {
      if key[i] != 0xff {
        r := key[..i] + [key[i] + 1];
        DifferAt(key, r, i);
        return;
      }
      i := i + 1;
    }
  }

  /** No string that is shorter than the successor lies above the key. */
  lemma ShorterIsNotAbove(key: Bytes, r: Bytes, x: Bytes)
    requires IsShortSuccessor(key, r) && r != key && BytewiseLess(key, x)
    ensures |r| <= |x|
  {
    var n := FirstNotFull(key, 0);
    if n < |key| && |x| <= n {
      BelowFull(key, x, n);
    }
  }

  lemma {:induction false} FirstNotFull(key: Bytes, from: nat) returns (n: nat)
    requires from <= |key| && forall j :: 0 <= j < from ==> key[j] == 0xff
    ensures n <= |key| && (forall j :: 0 <= j < n ==> key[j] == 0xff) && (n < |key| ==> key[n] != 0xff)
    decreases |key| - from
  {
    n := from;
    if n < |key| && key[n] == 0xff {
      n := FirstNotFull(key, n + 1);
    }
  }

  lemma {:induction false} BelowFull(key: Bytes, x: Bytes, i: nat)
    requires |x| <= i <= |key| && forall j :: 0 <= j < i ==> key[j] == 0xff
    ensures !BytewiseLess(key, x)
  {
    if x != [] && key[0] == x[0] {
      BelowFull(key[1..], x[1..], i - 1);
    }
  }

  // ---- internal keys -------------------------------------------------------------------------------------

  /** An internal key with its user key as bytes. */
  datatype ByteKey = ByteKey(user: Bytes, sequence: nat, kind: ValueType)

  /** The key as the rest of the model has it. */
  function Ranked(k: ByteKey): InternalKey {
    InternalKey(Rank(k.user), k.sequence, k.kind)
  }

  /** A separator is the lower key itself, or its user key lies strictly between those of its neighbours. */
  predicate IsSeparator(start: InternalKey, r: InternalKey, limit: InternalKey) {
    r == start || start.user < r.user < limit.user
  }

  predicate IsSuccessor(key: InternalKey, r: InternalKey) {
    r == key || key.user < r.user
  }

  /** The separator of the user keys at the highest sequence number, if it is shorter. */
  ghost predicate IsShortened(start: ByteKey, limit: ByteKey, r: ByteKey) {
    exists user :: IsShortestSeparator(start.user, limit.user, user)
      && r == if |user| < |start.user| then ByteKey(user, 0xFF_FFFF_FFFF_FFFF, Value) else start
  }

  ghost predicate IsShortenedLast(key: ByteKey, r: ByteKey) {
    exists user :: IsShortSuccessor(key.user, user)
      && r == if |user| < |key.user| then ByteKey(user, 0xFF_FFFF_FFFF_FFFF, Value) else key
  }

  /** InternalKeyComparator::FindShortestSeparator. */
  method SeparateInternal(start: ByteKey, limit: ByteKey) returns (r: ByteKey)
    ensures IsSeparator(Ranked(start), Ranked(r), Ranked(limit))
    ensures |r.user| <= |start.user| && (r == start || r.sequence == MAX_SEQUENCE)
    ensures IsShortened(start, limit, r)
  {
    var tmp := FindShortestSeparator(start.user, limit.user);
    r := start;
    RankEmbedsOrder(start.user, tmp);
    RankEmbedsOrder(tmp, limit.user);
    if |tmp| < |start.user| && BytewiseLess(start.user, tmp) {
      // The earliest possible number for the shortened user key.
      r := ByteKey(tmp, MAX_SEQUENCE, Value);
    }
  }

  /** InternalKeyComparator::FindShortSuccessor. */
  method SucceedInternal(key: ByteKey) returns (r: ByteKey)
    ensures IsSuccessor(Ranked(key), Ranked(r))
    ensures |r.user| <= |key.user| && (r == key || r.sequence == MAX_SEQUENCE)
    ensures IsShortenedLast(key, r)
  {
    var tmp := FindShortSuccessor(key.user);
    r := key;
    RankEmbedsOrder(key.user, tmp);
    if |tmp| < |key.user| && BytewiseLess(key.user, tmp) {
      r := ByteKey(tmp, MAX_SEQUENCE, Value);
    }
  }
}
