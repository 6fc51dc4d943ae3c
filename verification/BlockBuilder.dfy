/**
 Blocks of key-value pairs (table/block_builder.cc): keys compressed against the key before, except at
 restart points, whose offsets are listed at the end.
 */
module BlockBuilder {
  import opened Coding

  const MAX_UINT32: nat := 0xFFFF_FFFF

  datatype Pair = Pair(key: Bytes, value: Bytes)

  /**
   Where things are in a block: where each entry starts (and the last one ends), how much of its key it
   shares with the key before, and which entries are restart points.
   */
  datatype Layout = Layout(pairs: seq<Pair>, offsets: seq<nat>, shares: seq<nat>, starts: seq<nat>)

  /** The bytes of one entry. */
  function Encoded(shared: nat, pair: Pair): Bytes
    requires shared <= |pair.key|
  {
    Varint(shared) + Varint(|pair.key| - shared) + Varint(|pair.value|) + pair.key[shared..] + pair.value
  }

  ghost predicate EntryAt(data: Bytes, l: Layout, i: nat)
    requires i < |l.pairs| && |l.offsets| == |l.pairs| + 1 && |l.shares| == |l.pairs|
  {
    var key, shared := l.pairs[i].key, l.shares[i];
    && l.offsets[i] < l.offsets[i + 1] <= |data| && |key| <= MAX_UINT32 && |l.pairs[i].value| <= MAX_UINT32
    && shared <= |key| && data[l.offsets[i]..l.offsets[i + 1]] == Encoded(shared, l.pairs[i])
    && (shared > 0 ==> i > 0 && shared <= |l.pairs[i - 1].key| && l.pairs[i - 1].key[..shared] == key[..shared])
  }

  ghost predicate Entries(data: Bytes, l: Layout) {
    && |l.offsets| == |l.pairs| + 1 && |l.shares| == |l.pairs| && l.offsets[0] == 0
    && forall i: nat :: i < |l.pairs| ==> EntryAt(data, l, i)
  }

  /** Restart points are entries with whole keys; there is one even in an empty block. */
  ghost predicate Restarts(l: Layout)
    requires |l.shares| == |l.pairs|
  {
    && |l.starts| >= 1 && l.starts[0] == 0
    && (forall r: nat :: r + 1 < |l.starts| ==> l.starts[r] < l.starts[r + 1])
    && (forall r: nat :: r < |l.starts| ==> l.starts[r] < |l.pairs| || (l.pairs == [] && l.starts[r] == 0))
    && (forall r: nat :: r < |l.starts| && l.starts[r] < |l.pairs| ==> l.shares[l.starts[r]] == 0)
  }

  /** `n` is the length of the longest common prefix. */
  ghost predicate IsShared(a: Bytes, b: Bytes, n: nat) {
    && n <= |a| && n <= |b| && a[..n] == b[..n]
    && (n < |a| && n < |b| ==> a[n] != b[n])
  }

  /** Every `interval`-th entry is a restart point with a whole key; the others share all they can with the last one. */
  ghost predicate Compressed(l: Layout, interval: nat)
    requires interval > 0 && |l.shares| == |l.pairs|
  {
    forall i: nat :: i < |l.pairs| ==> CompressedAt(l, interval, i)
  }

  ghost predicate CompressedAt(l: Layout, interval: nat, i: nat)
    requires interval > 0 && i < |l.pairs| && |l.shares| == |l.pairs|
  {
    && (i in l.starts <==> i % interval == 0)
    && if i % interval == 0 then l.shares[i] == 0
       else IsShared(l.pairs[i - 1].key, l.pairs[i].key, l.shares[i])
  }

  /** The entries since the last restart point. */
  ghost predicate Counts(n: nat, interval: nat, counter: nat)
    requires interval > 0
  {
    counter == if n == 0 then 0 else (n - 1) % interval + 1
  }

  lemma CountsNext(n: nat, interval: nat, counter: nat)
    requires interval > 0 && Counts(n, interval, counter)
    ensures counter <= interval && (counter == interval ==> n > 0)
    ensures n % interval == 0 <==> n == 0 || counter == interval
    ensures Counts(n + 1, interval, if counter < interval then counter + 1 else 1)
  {
    if n > 0 {
      var q, r := (n - 1) / interval, (n - 1) % interval;
      assert n == q * interval + (r + 1);
      if r + 1 < interval {
        DivisionIs(n, interval, q, r + 1);
      } else {
        assert (q + 1) * interval == q * interval + interval;
        DivisionIs(n, interval, q + 1, 0);
      }
    }
  }

  lemma AddKeepsCompressed(l: Layout, interval: nat, counter: nat, pair: Pair, shared: nat, end: nat)
    requires interval > 0 && |l.shares| == |l.pairs| && Compressed(l, interval) && Restarts(l)
    requires Counts(|l.pairs|, interval, counter)
    requires if counter < interval
             then IsShared(if l.pairs == [] then [] else l.pairs[|l.pairs| - 1].key, pair.key, shared) else shared == 0
    ensures Compressed(Extended(l, pair, shared, end, counter == interval), interval)
  {
    var l' := Extended(l, pair, shared, end, counter == interval);
    CountsNext(|l.pairs|, interval, counter);
    forall i: nat | i < |l'.pairs|
      ensures CompressedAt(l', interval, i)
    {
      if i < |l.pairs| {
        assert CompressedAt(l, interval, i);
      } else {
        StartsAreEntries(l);
      }
    }
  }

  lemma StartsAreEntries(l: Layout)
    requires |l.shares| == |l.pairs| && Restarts(l)
    ensures |l.pairs| in l.starts <==> l.pairs == []
  {
    assert l.starts[0] in l.starts;
    if |l.pairs| in l.starts {
      var r :| 0 <= r < |l.starts| && l.starts[r] == |l.pairs|;
    }
  }

  /** The fixed-width words of a list of numbers. */
  function Words(ns: seq<nat>): (s: Bytes)
    ensures |s| == 4 * |ns|
  {
    if ns == [] then [] else Words(ns[..|ns| - 1]) + Fixed32(ns[|ns| - 1])
  }

  function RestartOffsets(l: Layout): seq<nat>
    requires forall r: nat :: r < |l.starts| ==> l.starts[r] < |l.offsets|
  {
    seq(|l.starts|, r requires 0 <= r < |l.starts| => l.offsets[l.starts[r]])
  }

  /** A finished block. */
  ghost predicate IsBlock(block: Bytes, l: Layout) {
    && Entries(block, l) && Restarts(l) && |block| <= MAX_UINT32
    && var end := l.offsets[|l.pairs|];
       end <= |block| && block[end..] == Words(RestartOffsets(l)) + Fixed32(|l.starts|)
  }

  lemma EntriesStay(data: Bytes, more: Bytes, l: Layout)
    requires Entries(data, l)
    ensures Entries(data + more, l)
  {
    forall i: nat | i < |l.pairs|
      ensures EntryAt(data + more, l, i)
    {
      assert EntryAt(data, l, i);
      assert (data + more)[l.offsets[i]..l.offsets[i + 1]] == data[l.offsets[i]..l.offsets[i + 1]];
    }
  }

  /** One more entry. */
  function Extended(l: Layout, pair: Pair, shared: nat, end: nat, restart: bool): Layout {
    Layout(l.pairs + [pair], l.offsets + [end], l.shares + [shared],
           if restart then l.starts + [|l.pairs|] else l.starts)
  }

  lemma EntryAdded(data: Bytes, l: Layout, pair: Pair, shared: nat, restart: bool)
    requires Entries(data, l) && l.offsets[|l.pairs|] == |data|
    requires |pair.key| <= MAX_UINT32 && |pair.value| <= MAX_UINT32
    requires shared <= |pair.key|
    requires shared > 0 ==> l.pairs != [] && var last := l.pairs[|l.pairs| - 1].key;
                            shared <= |last| && last[..shared] == pair.key[..shared]
    ensures var data' := data + Encoded(shared, pair);
            var l' := Extended(l, pair, shared, |data'|, restart);
            Entries(data', l') && l'.offsets[|l'.pairs|] == |data'|
  {
    hide Encoded;
    var data' := data + Encoded(shared, pair);
    var l' := Extended(l, pair, shared, |data'|, restart);
    EntriesStay(data, Encoded(shared, pair), l);
    assert |Encoded(shared, pair)| > 0 by { EncodedIsLong(shared, pair); }
    forall i: nat | i < |l'.pairs|
      ensures EntryAt(data', l', i)
    {
      if i < |l.pairs| {
        assert EntryAt(data', l, i);
      } else {
        assert data'[|data|..|data'|] == Encoded(shared, pair);
      }
    }
  }

  lemma EncodedIsLong(shared: nat, pair: Pair)
    requires shared <= |pair.key|
    ensures |Encoded(shared, pair)| >= 3
  {
  }

  /** What a builder has written so far, and what it remembers of it. */
  ghost predicate Written(buffer: Bytes, restarts: seq<nat>, lastKey: Bytes, l: Layout) {
    && Entries(buffer, l) && l.offsets[|l.pairs|] == |buffer| && Restarts(l)
    && restarts == RestartOffsets(l)
    && lastKey == (if l.pairs == [] then [] else l.pairs[|l.pairs| - 1].key)
  }

  lemma AddKeepsWritten(buffer: Bytes, restarts: seq<nat>, lastKey: Bytes, l: Layout, pair: Pair, shared: nat,
                        restart: bool)
    requires Written(buffer, restarts, lastKey, l)
    requires |pair.key| <= MAX_UINT32 && |pair.value| <= MAX_UINT32
    requires shared <= |pair.key| && shared <= |lastKey| && lastKey[..shared] == pair.key[..shared]
    requires restart ==> shared == 0 && l.pairs != []
    ensures var buffer' := buffer + Encoded(shared, pair);
            var l' := Extended(l, pair, shared, |buffer'|, restart);
            Written(buffer', if restart then restarts + [|buffer|] else restarts, pair.key, l')
  {
    hide Encoded, EntryAt, Restarts;
    EntryAdded(buffer, l, pair, shared, restart);
    RestartAdded(l, pair, shared, |buffer + Encoded(shared, pair)|, restart);
  }

  lemma FinishedIsBlock(buffer: Bytes, restarts: seq<nat>, lastKey: Bytes, l: Layout)
    requires Written(buffer, restarts, lastKey, l) && |buffer| + 4 * |restarts| + 4 <= MAX_UINT32
    ensures IsBlock(buffer + Words(restarts) + Fixed32(|restarts|), l)
  {
    hide EntryAt, Words, Fixed32;
    var tail := Words(restarts) + Fixed32(|restarts|);
    EntriesStay(buffer, tail, l);
    assert buffer + Words(restarts) + Fixed32(|restarts|) == buffer + tail;
    assert (buffer + tail)[|buffer|..] == tail;
  }

  class BlockBuilder {
    const restartInterval: nat
    var buffer: Bytes
    var restarts: seq<nat>
    var counter: nat
    var finished: bool
    var lastKey: Bytes
    ghost var layout: Layout

    ghost predicate Valid()
      reads this
    {
      && restartInterval >= 1
      && Written(buffer, restarts, lastKey, layout)
      && Counts(|layout.pairs|, restartInterval, counter) && Compressed(layout, restartInterval)
    }

    constructor (restartInterval: nat)
      requires restartInterval >= 1
      ensures Valid() && !finished && layout.pairs == [] && buffer == []
      ensures this.restartInterval == restartInterval
    {
      this.restartInterval := restartInterval;
      buffer, restarts, counter, finished, lastKey := [], [0], 0, false, [];
      layout := Layout([], [0], [], [0]);
    }

    method Reset()
      requires restartInterval >= 1
      modifies this
      ensures Valid() && !finished && layout.pairs == [] && buffer == []
    {
      buffer, restarts, counter, finished, lastKey := [], [0], 0, false, [];
      layout := Layout([], [0], [], [0]);
    }

    /** The loop of Add that sees how much sharing to do. */
    static method SharedPrefix(last: Bytes, key: Bytes) returns (shared: nat)
      ensures IsShared(last, key, shared)
    {
      shared := 0;
      var minLength := if |last| < |key| then |last| else |key|;
      while shared < minLength && last[shared] == key[shared]
        invariant shared <= minLength && last[..shared] == key[..shared]
      {
        shared := shared + 1;
      }
    }

    /** The part of Add that appends to the buffer. */
    method WriteEntry(shared: nat, key: Bytes, value: Bytes)
      requires shared <= |key| <= MAX_UINT32 && |value| <= MAX_UINT32
      modifies this`buffer
      ensures buffer == old(buffer) + Encoded(shared, Pair(key, value))
    {
      hide Encoded, Varint;
      var nonShared := |key| - shared;
      EncodeVarint32IsVarint(shared);
      EncodeVarint32IsVarint(nonShared);
      EncodeVarint32IsVarint(|value|);
      EncodedIs(buffer, shared, Pair(key, value));
      buffer := buffer + EncodeVarint32(shared);
      buffer := buffer + EncodeVarint32(nonShared);
      buffer := buffer + EncodeVarint32(|value|);
      buffer := buffer + key[shared..];
      buffer := buffer + value;
    }

    /** Add, which keeps the sizes it writes within 32 bits. */
    method Add(key: Bytes, value: Bytes)
      requires Valid() && !finished
      requires |key| <= MAX_UINT32 && |value| <= MAX_UINT32
      modifies this
      ensures Valid() && !finished && layout.pairs == old(layout).pairs + [Pair(key, value)]
    {
      hide Encoded, Written, Varint, Compressed, Restarts, Counts, IsShared;
      WrittenParts(buffer, restarts, lastKey, layout);
      CountsNext(|layout.pairs|, restartInterval, counter);
      var shared := 0;
      var restart := false;
      if counter < restartInterval {
        shared := SharedPrefix(lastKey, key);
      } else {
        restarts := restarts + [|buffer|];
        counter := 0;
        restart := true;
      }
      SharedIs(lastKey, key, shared);
      AddKeepsCompressed(layout, restartInterval, old(counter), Pair(key, value), shared,
                         |buffer + Encoded(shared, Pair(key, value))|);
      AddKeepsWritten(buffer, old(restarts), lastKey, layout, Pair(key, value), shared, restart);
      WriteEntry(shared, key, value);
      lastKey := lastKey[..shared] + key[shared..];
      counter := counter + 1;
      layout := Extended(layout, Pair(key, value), shared, |buffer|, restart);
    }

    /** Finish: the restart offsets and their number. */
    method Finish() returns (block: Bytes)
      requires Valid() && !finished && |buffer| + 4 * |restarts| + 4 <= MAX_UINT32
      modifies this
      ensures finished && layout == old(layout) && block == buffer && IsBlock(block, layout)
      ensures |layout.shares| == |layout.pairs| && Compressed(layout, restartInterval)
    {
      hide Written, Fixed32, Compressed, Counts;
      WrittenParts(buffer, restarts, lastKey, layout);
      ghost var before := buffer;
      var i := 0;
      assert restarts[..0] == [];
      while i < |restarts|
        invariant i <= |restarts| && buffer == before + Words(restarts[..i])
        invariant restarts == old(restarts) && layout == old(layout) && lastKey == old(lastKey)
      {
        assert restarts[..i + 1][..i] == restarts[..i];
        buffer := buffer + Fixed32(restarts[i]);
        i := i + 1;
      }
      assert restarts[..|restarts|] == restarts;
      buffer := buffer + Fixed32(|restarts|);
      finished := true;
      FinishedIsBlock(before, restarts, lastKey, layout);
      return buffer;
    }
  }

  lemma SharedIs(a: Bytes, b: Bytes, n: nat)
    ensures IsShared(a, b, n) ==> n <= |a| && n <= |b| && a[..n] == b[..n] && a[..n] + b[n..] == b
  {
  }

  lemma WrittenParts(buffer: Bytes, restarts: seq<nat>, lastKey: Bytes, l: Layout)
    requires Written(buffer, restarts, lastKey, l)
    ensures |l.shares| == |l.pairs| && Restarts(l)
    ensures lastKey == if l.pairs == [] then [] else l.pairs[|l.pairs| - 1].key
  {
  }

  lemma EncodedIs(before: Bytes, shared: nat, pair: Pair)
    requires shared <= |pair.key|
    ensures before + Varint(shared) + Varint(|pair.key| - shared) + Varint(|pair.value|) + pair.key[shared..]
              + pair.value
         == before + Encoded(shared, pair)
  {
    hide Varint;
    var a, b, c := Varint(shared), Varint(|pair.key| - shared), Varint(|pair.value|);
    assert before + a + b + c + pair.key[shared..] + pair.value
           == before + (a + b + c + pair.key[shared..] + pair.value);
  }

  lemma RestartAdded(l: Layout, pair: Pair, shared: nat, end: nat, restart: bool)
    requires |l.offsets| == |l.pairs| + 1 && |l.shares| == |l.pairs| && Restarts(l)
    requires restart ==> shared == 0 && l.pairs != []
    requires l.pairs == [] ==> shared == 0
    ensures var l' := Extended(l, pair, shared, end, restart);
      && Restarts(l')
      && RestartOffsets(l') == if restart then RestartOffsets(l) + [l.offsets[|l.pairs|]] else RestartOffsets(l)
  {
    var l' := Extended(l, pair, shared, end, restart);
    forall r: nat | r < |l'.starts| && l'.starts[r] < |l'.pairs|
      ensures l'.shares[l'.starts[r]] == 0
    {
      if r < |l.starts| && l.pairs != [] {
        assert l'.starts[r] == l.starts[r];
      }
    }
  }
}
