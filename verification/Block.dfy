/**
 Reading blocks (table/block.cc): decoding entries, and the iterator that seeks by binary search in the
 restart points and goes back by rereading from one.
 */
module Block {
  import opened Options
  import opened Keys
  import opened Coding
  import opened BlockBuilder

  // ---- decoding ------------------------------------------------------------------------------------------

  datatype Header = Header(shared: nat, nonShared: nat, valueLength: nat, next: nat)

  function ReadVarint32(data: Bytes, p: nat, limit: nat): (r: Option<(nat, nat)>)
    requires limit <= |data|
    ensures r.Some? ==> p < r.value.1 <= limit
  {
    ReadVarint(data, p, limit, 0, 1, 0x1_0000_0000)
  }

  /** Three varints, one after the other. */
  function ThreeVarints(data: Bytes, p: nat, limit: nat): (r: Option<Header>)
    requires limit <= |data|
    ensures r.Some? ==> p < r.value.next <= limit
  {
    var a := ReadVarint32(data, p, limit);
    if a.None? then None else
      var b := ReadVarint32(data, a.value.1, limit);
      if b.None? then None else
        var c := ReadVarint32(data, b.value.1, limit);
        if c.None? then None else Some(Header(a.value.0, b.value.0, c.value.0, c.value.1))
  }

  /** DecodeEntry: the three lengths in front of an entry, and where its key begins. */
  function DecodeEntry(data: Bytes, p: nat, limit: nat): (r: Option<Header>)
    requires p <= limit <= |data|
    ensures r.Some? ==> p < r.value.next <= limit
  {
    if limit - p < 3 then None else
      var h :=
        if data[p] < 128 && data[p + 1] < 128 && data[p + 2] < 128 then
          // Fast path: all three values are encoded in one byte each.
          Some(Header(data[p], data[p + 1], data[p + 2], p + 3))
        else
          ThreeVarints(data, p, limit);
      if h.None? || limit - h.value.next < (h.value.nonShared + h.value.valueLength) % 0x1_0000_0000 then None else h
  }

  lemma VarintAt(data: Bytes, p: nat, limit: nat, v: nat)
    requires v <= MAX_UINT32 && p + |Varint(v)| <= limit <= |data| && data[p..p + |Varint(v)|] == Varint(v)
    ensures ReadVarint32(data, p, limit) == Some((v, p + |Varint(v)|))
    ensures data[p] < 128 <==> v < 128
    ensures v < 128 ==> data[p] == v && |Varint(v)| == 1
  {
    VarintReadsBack(data, p, limit, v, 0, 1, 0x1_0000_0000);
    assert data[p] == data[p..p + |Varint(v)|][0];
  }

  /** The parts of an entry stand one after the other. */
  lemma PartsAt(data: Bytes, p: nat, a: Bytes, b: Bytes, c: Bytes, d: Bytes, e: Bytes)
    requires p + |a| + |b| + |c| + |d| + |e| <= |data|
    requires data[p..p + |a| + |b| + |c| + |d| + |e|] == a + b + c + d + e
    ensures data[p..p + |a|] == a
    ensures data[p + |a|..p + |a| + |b|] == b
    ensures data[p + |a| + |b|..p + |a| + |b| + |c|] == c
    ensures data[p + |a| + |b| + |c|..p + |a| + |b| + |c| + |d|] == d
    ensures data[p + |a| + |b| + |c| + |d|..p + |a| + |b| + |c| + |d| + |e|] == e
  {
    TwoParts(data, p, a + b + c + d, e);
    TwoParts(data, p, a + b + c, d);
    TwoParts(data, p, a + b, c);
    TwoParts(data, p, a, b);
  }

  lemma TwoParts(data: Bytes, p: nat, a: Bytes, b: Bytes)
    requires p + |a| + |b| <= |data| && data[p..p + |a| + |b|] == a + b
    ensures data[p..p + |a|] == a && data[p + |a|..p + |a| + |b|] == b
  {
    assert data[p..p + |a|] == data[p..p + |a| + |b|][..|a|];
    assert data[p + |a|..p + |a| + |b|] == data[p..p + |a| + |b|][|a|..];
  }

  lemma HeaderDecodes(data: Bytes, p: nat, limit: nat, shared: nat, nonShared: nat, valueLength: nat, next: nat)
    requires shared <= MAX_UINT32 && nonShared <= MAX_UINT32 && valueLength <= MAX_UINT32
    requires limit <= |data| <= MAX_UINT32 && next + nonShared + valueLength <= limit
    requires next == p + |Varint(shared)| + |Varint(nonShared)| + |Varint(valueLength)|
    requires data[p..p + |Varint(shared)|] == Varint(shared)
    requires var q := p + |Varint(shared)|; data[q..q + |Varint(nonShared)|] == Varint(nonShared)
    requires var q := p + |Varint(shared)| + |Varint(nonShared)|;
             data[q..q + |Varint(valueLength)|] == Varint(valueLength)
    ensures DecodeEntry(data, p, limit) == Some(Header(shared, nonShared, valueLength, next))
  {
    hide Varint, ReadVarint32, ThreeVarints, DecodeEntry;
    var q := p + |Varint(shared)|;
    var r := q + |Varint(nonShared)|;
    VarintAt(data, p, limit, shared);
    VarintAt(data, q, limit, nonShared);
    VarintAt(data, r, limit, valueLength);
    ThreeDecode(data, p, q, r, limit, shared, nonShared, valueLength, next);
    EitherPath(data, p, q, r, limit, shared, nonShared, valueLength, next);
  }

  /** The fast path and the three varints agree. */
  lemma EitherPath(data: Bytes, p: nat, q: nat, r: nat, limit: nat, a: nat, b: nat, c: nat, next: nat)
    requires p < q < r < next && next + b + c <= limit <= |data| <= MAX_UINT32
    requires ThreeVarints(data, p, limit) == Some(Header(a, b, c, next))
    requires data[p] < 128 ==> a == data[p] && q == p + 1
    requires data[q] < 128 ==> b == data[q] && r == q + 1
    requires data[r] < 128 ==> c == data[r] && next == r + 1
    ensures DecodeEntry(data, p, limit) == Some(Header(a, b, c, next))
  {
    hide ThreeVarints;
    Remains(b + c, 0x1_0000_0000);
  }

  lemma ThreeDecode(data: Bytes, p: nat, q: nat, r: nat, limit: nat, a: nat, b: nat, c: nat, next: nat)
    requires limit <= |data|
    requires ReadVarint32(data, p, limit) == Some((a, q))
    requires ReadVarint32(data, q, limit) == Some((b, r))
    requires ReadVarint32(data, r, limit) == Some((c, next))
    ensures ThreeVarints(data, p, limit) == Some(Header(a, b, c, next))
  {
    hide ReadVarint32;
  }

  /** An entry decodes to what was encoded, by the fast path as by the other. */
  lemma EncodedDecodes(data: Bytes, p: nat, limit: nat, shared: nat, pair: Pair)
    requires shared <= |pair.key| <= MAX_UINT32 && |pair.value| <= MAX_UINT32 && |data| <= MAX_UINT32
    requires p + |Encoded(shared, pair)| <= limit <= |data|
    requires data[p..p + |Encoded(shared, pair)|] == Encoded(shared, pair)
    ensures DecodeEntry(data, p, limit).Some?
    ensures var h := DecodeEntry(data, p, limit).value;
      && h.shared == shared && h.nonShared == |pair.key| - shared && h.valueLength == |pair.value|
      && h.next + h.nonShared + h.valueLength == p + |Encoded(shared, pair)|
      && data[h.next..h.next + h.nonShared] == pair.key[shared..]
      && data[h.next + h.nonShared..h.next + h.nonShared + h.valueLength] == pair.value
  {
    hide Varint, DecodeEntry;
    var a, b, c := Varint(shared), Varint(|pair.key| - shared), Varint(|pair.value|);
    PartsAt(data, p, a, b, c, pair.key[shared..], pair.value);
    HeaderDecodes(data, p, limit, shared, |pair.key| - shared, |pair.value|, p + |a| + |b| + |c|);
  }

  // ---- the layout ----------------------------------------------------------------------------------------

  lemma {:induction false} OffsetsRise(data: Bytes, l: Layout, i: nat, j: nat)
    requires Entries(data, l) && i < j <= |l.pairs|
    ensures l.offsets[i] < l.offsets[j]
  {
    assert EntryAt(data, l, j - 1);
    if i < j - 1 {
      OffsetsRise(data, l, i, j - 1);
    }
  }

  lemma {:induction false} StartsRise(l: Layout, q: nat, r: nat)
    requires |l.shares| == |l.pairs| && Restarts(l) && q < r < |l.starts|
    ensures l.starts[q] < l.starts[r]
  {
    assert l.starts[r - 1] < l.starts[r - 1 + 1];
    if q < r - 1 {
      StartsRise(l, q, r - 1);
    }
  }

  lemma EntryDecodes(data: Bytes, l: Layout, i: nat)
    requires IsBlock(data, l) && i < |l.pairs|
    ensures l.offsets[i] < l.offsets[i + 1] <= l.offsets[|l.pairs|] <= |data|
    ensures |l.shares| == |l.pairs| && l.shares[i] <= |l.pairs[i].key|
    ensures DecodeEntry(data, l.offsets[i], l.offsets[|l.pairs|]).Some?
    ensures var h := DecodeEntry(data, l.offsets[i], l.offsets[|l.pairs|]).value;
      && h.shared == l.shares[i] && h.nonShared == |l.pairs[i].key| - l.shares[i] && h.valueLength == |l.pairs[i].value|
      && h.next + h.nonShared + h.valueLength == l.offsets[i + 1]
      && data[h.next..h.next + h.nonShared] == l.pairs[i].key[l.shares[i]..]
      && data[h.next + h.nonShared..h.next + h.nonShared + h.valueLength] == l.pairs[i].value
  {
    hide DecodeEntry, Encoded;
    assert EntryAt(data, l, i);
    if i + 1 < |l.pairs| {
      OffsetsRise(data, l, i + 1, |l.pairs|);
    }
    assert |data[l.offsets[i]..l.offsets[i + 1]]| == l.offsets[i + 1] - l.offsets[i];
    EncodedDecodes(data, l.offsets[i], l.offsets[|l.pairs|], l.shares[i], l.pairs[i]);
  }

  lemma {:induction false} WordAt(ns: seq<nat>, r: nat)
    requires r < |ns|
    ensures Words(ns)[4 * r..4 * r + 4] == Fixed32(ns[r])
  {
    hide Fixed32;
    var n := |ns| - 1;
    FrontOrBack(Words(ns[..n]), Fixed32(ns[n]), 4 * r, 4 * r + 4);
    if r < n {
      WordAt(ns[..n], r);
    }
  }

  lemma FrontOrBack(a: Bytes, b: Bytes, i: nat, j: nat)
    requires i <= j <= |a + b|
    ensures j <= |a| ==> (a + b)[i..j] == a[i..j]
    ensures i == |a| && j == |a| + |b| ==> (a + b)[i..j] == b
  {
    if j <= |a| {
      assert forall k :: 0 <= k < j - i ==> (a + b)[i..j][k] == a[i..j][k];
    }
  }

  /** The restart array and its length, as they are read from the end of the block. */
  lemma RestartArray(data: Bytes, l: Layout, r: nat)
    requires IsBlock(data, l) && r < |l.starts|
    ensures var end := l.offsets[|l.pairs|];
      && |data| == end + 4 * |l.starts| + 4
      && DecodeFixed(data[|data| - 4..]) == |l.starts|
      && DecodeFixed(data[end + 4 * r..end + 4 * r + 4]) == l.offsets[l.starts[r]]
  {
    hide Fixed32, DecodeFixed, Words, EntryAt;
    var end, ns := l.offsets[|l.pairs|], RestartOffsets(l);
    var tail := Words(ns) + Fixed32(|l.starts|);
    assert |data[end..]| == |tail|;
    assert data[|data| - 4..] == data[end..][4 * |l.starts|..] == Fixed32(|l.starts|);
    assert data[end + 4 * r..end + 4 * r + 4] == tail[4 * r..4 * r + 4] == Words(ns)[4 * r..4 * r + 4];
    WordAt(ns, r);
    Fixed32RoundTrip(|l.starts|);
    StartIsInside(data, l, r);
    Fixed32RoundTrip(ns[r]);
  }

  lemma StartIsInside(data: Bytes, l: Layout, r: nat)
    requires Entries(data, l) && Restarts(l) && r < |l.starts| && l.offsets[|l.pairs|] <= |data|
    ensures l.starts[r] <= |l.pairs| && l.offsets[l.starts[r]] <= |data|
  {
    if l.starts[r] < |l.pairs| {
      OffsetsRise(data, l, l.starts[r], |l.pairs|);
    }
  }

  // ---- opening a block -----------------------------------------------------------------------------------

  /** Block::Block and NewIterator: the restart offset and the number of restarts, if the size allows them. */
  function OpenBlock(data: Bytes): (r: Option<(nat, nat)>)
    ensures r.Some? ==> r.value.0 + 4 * r.value.1 + 4 == |data|
  {
    if |data| < 4 then None else
      var numRestarts := DecodeFixed(data[|data| - 4..]);
      var maxRestartsAllowed := (|data| - 4) / 4;
      if numRestarts > maxRestartsAllowed then None
      else Some((|data| - (1 + numRestarts) * 4, numRestarts))
  }

  lemma FinishedBlockOpens(data: Bytes, l: Layout)
    requires IsBlock(data, l)
    ensures OpenBlock(data) == Some((l.offsets[|l.pairs|], |l.starts|))
  {
    hide DecodeFixed, EntryAt, Words, Fixed32;
    RestartArray(data, l, 0);
  }

  lemma {:induction false} SamePrefix(data: Bytes, l: Layout, m: Layout, i: nat)
    requires IsBlock(data, l) && IsBlock(data, m) && l.offsets[|l.pairs|] == m.offsets[|m.pairs|]
    requires i <= |l.pairs| && i <= |m.pairs|
    ensures l.offsets[i] == m.offsets[i] && l.pairs[..i] == m.pairs[..i]
  {
    hide IsBlock;
    if i > 0 {
      var k := i - 1;
      SamePrefix(data, l, m, k);
      assert k > 0 ==> l.pairs[k - 1] == l.pairs[..k][k - 1] && m.pairs[k - 1] == m.pairs[..k][k - 1];
      SamePair(data, l, m, k);
      assert l.pairs[..i] == l.pairs[..k] + [l.pairs[k]];
      assert m.pairs[..i] == m.pairs[..k] + [m.pairs[k]];
    } else {
      FirstStart(data, l);
      FirstStart(data, m);
    }
  }

  lemma SamePair(data: Bytes, l: Layout, m: Layout, k: nat)
    requires IsBlock(data, l) && IsBlock(data, m) && l.offsets[|l.pairs|] == m.offsets[|m.pairs|]
    requires k < |l.pairs| && k < |m.pairs| && l.offsets[k] == m.offsets[k]
    requires k > 0 ==> l.pairs[k - 1] == m.pairs[k - 1]
    ensures l.offsets[k + 1] == m.offsets[k + 1] && l.pairs[k] == m.pairs[k]
  {
    EntryDecodes(data, l, k);
    EntryDecodes(data, m, k);
    assert EntryAt(data, l, k) && EntryAt(data, m, k);
    hide DecodeEntry, Encoded, EntryAt, IsBlock;
    var shared := l.shares[k];
    Rejoined(l.pairs[k].key, l.pairs[k].key, shared);
    Rejoined(m.pairs[k].key, m.pairs[k].key, shared);
    assert shared == 0 ==> l.pairs[k].key[..shared] == m.pairs[k].key[..shared];
  }

  /** A block has one reading only: its bytes determine the pairs that were added. */
  lemma BlockDeterminesPairs(data: Bytes, l: Layout, m: Layout)
    requires IsBlock(data, l) && IsBlock(data, m)
    ensures l.pairs == m.pairs
  {
    hide DecodeEntry, EntryAt, Words, DecodeFixed, Fixed32;
    RestartArray(data, l, 0);
    RestartArray(data, m, 0);
    var n := if |l.pairs| < |m.pairs| then |l.pairs| else |m.pairs|;
    SamePrefix(data, l, m, n);
    if n < |l.pairs| {
      OffsetsRise(data, l, n, |l.pairs|);
    }
    if n < |m.pairs| {
      OffsetsRise(data, m, n, |m.pairs|);
    }
    assert l.pairs[..n] == l.pairs && m.pairs[..n] == m.pairs;
  }

  // ---- the iterator --------------------------------------------------------------------------------------

  /** An order of keys, in which the pairs of the block ascend. */
  ghost predicate Ascending(less: (Bytes, Bytes) -> bool, pairs: seq<Pair>) {
    && (forall a, b, c :: less(a, b) && less(b, c) ==> less(a, c))
    && (forall i, j :: 0 <= i < j < |pairs| ==> less(pairs[i].key, pairs[j].key))
  }

  /** `i` is the first pair at or after `target`. */
  ghost predicate IsLowerBound(less: (Bytes, Bytes) -> bool, pairs: seq<Pair>, target: Bytes, i: nat) {
    && i <= |pairs|
    && (forall j :: 0 <= j < i ==> less(pairs[j].key, target))
    && (i < |pairs| ==> !less(pairs[i].key, target))
  }

  /**
   Block::Iter on a finished block.  The value slice is kept as an offset and a length; `pos` is the pair
   that the iterator is at, or their number.
   */
  class Iter {
    const data: Bytes
    const restarts: nat
    const numRestarts: nat
    const less: (Bytes, Bytes) -> bool
    ghost const layout: Layout

    var current: nat
    var restartIndex: nat
    var key: Bytes
    var valueStart: nat
    var valueLength: nat
    ghost var pos: nat

    ghost predicate OnBlock() {
      && IsBlock(data, layout)
      && restarts == layout.offsets[|layout.pairs|] && numRestarts == |layout.starts|
    }

    /** The iterator is between entries `i` - 1 and `i`, and can read entry `i`. */
    ghost predicate Ready(i: nat)
      requires OnBlock()
      reads this
    {
      && i <= |layout.pairs| && valueStart + valueLength == layout.offsets[i]
      && restartIndex < numRestarts && layout.starts[restartIndex] <= i
      && (i < |layout.pairs| && layout.shares[i] > 0 ==>
            layout.shares[i] <= |key| && layout.shares[i] <= |layout.pairs[i].key|
            && key[..layout.shares[i]] == layout.pairs[i].key[..layout.shares[i]])
    }

    ghost predicate AtPos()
      requires OnBlock()
      reads this
    {
      && pos <= |layout.pairs|
      && if pos == |layout.pairs| then current == restarts && restartIndex == numRestarts else
         && current == layout.offsets[pos] && key == layout.pairs[pos].key
         && valueStart + valueLength == layout.offsets[pos + 1] <= |data|
         && data[valueStart..valueStart + valueLength] == layout.pairs[pos].value
         && restartIndex < numRestarts && layout.starts[restartIndex] <= pos
         && (restartIndex + 1 < numRestarts ==> pos <= layout.starts[restartIndex + 1])
    }

    ghost predicate Valid()
      reads this
    {
      OnBlock() && AtPos()
    }

    constructor (data: Bytes, restarts: nat, numRestarts: nat, less: (Bytes, Bytes) -> bool, ghost layout: Layout)
      requires IsBlock(data, layout) && OpenBlock(data) == Some((restarts, numRestarts))
      ensures Valid() && pos == |layout.pairs|
      ensures this.data == data && this.layout == layout && this.less == less
    {
      this.data, this.restarts, this.numRestarts, this.less, this.layout := data, restarts, numRestarts, less, layout;
      current, restartIndex, key, valueStart, valueLength, pos := restarts, numRestarts, [], 0, 0, |layout.pairs|;
      FinishedBlockOpens(data, layout);
    }

    predicate IsValid()
      requires Valid()
      reads this
      ensures IsValid() <==> pos < |layout.pairs|
    {
      assert pos < |layout.pairs| ==> layout.offsets[pos] < restarts by {
        if pos < |layout.pairs| {
          OffsetsRise(data, layout, pos, |layout.pairs|);
        }
      }
      current < restarts
    }

    function Key(): (k: Bytes)
      requires Valid() && pos < |layout.pairs|
      reads this
      ensures k == layout.pairs[pos].key
    {
      key
    }

    function Value(): (v: Bytes)
      requires Valid() && pos < |layout.pairs|
      reads this
      ensures v == layout.pairs[pos].value
    {
      data[valueStart..valueStart + valueLength]
    }

    function NextEntryOffset(): nat
      reads this
    {
      valueStart + valueLength
    }

    function GetRestartPoint(index: nat): (r: nat)
      requires OnBlock() && index < numRestarts
      ensures r == layout.offsets[layout.starts[index]] && layout.starts[index] <= |layout.pairs|
    {
      RestartArray(data, layout, index);
      StartIsInside(data, layout, index);
      DecodeFixed(data[restarts + 4 * index..restarts + 4 * index + 4])
    }

    method SeekToRestartPoint(index: nat)
      requires OnBlock() && index < numRestarts
      modifies this
      ensures Ready(layout.starts[index]) && restartIndex == index
    {
      hide IsBlock, Entries;
      key := [];
      restartIndex := index;
      valueStart, valueLength := GetRestartPoint(index), 0;
      RestartShares(data, layout, index);
    }

    method ParseNextKey(ghost i: nat) returns (ok: bool)
      requires OnBlock() && Ready(i)
      modifies this
      ensures Valid() && pos == i && ok == (i < |layout.pairs|)
    {
      hide DecodeEntry, IsBlock, Restarts, Encoded, Entries, EntryAt;
      pos := i;
      current := NextEntryOffset();
      OffsetOrder(data, layout, i, |layout.pairs|);
      if current >= restarts {
        current := restarts;
        restartIndex := numRestarts;
        return false;
      }
      EntryDecodes(data, layout, i);
      var h := DecodeEntry(data, current, restarts);
      if h.None? || |key| < h.value.shared {
        assert false; // only in a corrupt block
      }
      Rejoined(key, layout.pairs[i].key, layout.shares[i]);
      key := key[..h.value.shared] + data[h.value.next..h.value.next + h.value.nonShared];
      valueStart, valueLength := h.value.next + h.value.nonShared, h.value.valueLength;
      AdvanceRestartIndex(i);
      return true;
    }

    /** The loop of ParseNextKey that keeps restart_index_ at the restart block of the entry. */
    method AdvanceRestartIndex(ghost i: nat)
      requires OnBlock() && i <= |layout.pairs| && current == layout.offsets[i]
      requires restartIndex < numRestarts && layout.starts[restartIndex] <= i
      modifies this`restartIndex
      ensures restartIndex < numRestarts && layout.starts[restartIndex] <= i
      ensures restartIndex + 1 < numRestarts ==> i <= layout.starts[restartIndex + 1]
    {
      while restartIndex + 1 < numRestarts && GetRestartPoint(restartIndex + 1) < current
        invariant restartIndex < numRestarts && layout.starts[restartIndex] <= i
        decreases numRestarts - restartIndex
      {
        StartBefore(data, layout, restartIndex + 1, i);
        restartIndex := restartIndex + 1;
      }
      if restartIndex + 1 < numRestarts {
        StartBefore(data, layout, restartIndex + 1, i);
      }
    }
  
    method Next()
      requires Valid() && pos < |layout.pairs|
      modifies this
      ensures Valid() && pos == old(pos) + 1
    {
      hide IsBlock;
      SharesOfNext(data, layout, pos + 1);
      var ok := ParseNextKey(pos + 1);
    }

    method Prev()
      requires Valid() && pos < |layout.pairs|
      modifies this
      ensures Valid() && pos == if old(pos) == 0 then |layout.pairs| else old(pos) - 1
    {
      hide IsBlock, Restarts;
      // Scan backwards to a restart point before the current entry.
      var original := current;
      ghost var at := pos;
      FirstStart(data, layout);
      while GetRestartPoint(restartIndex) >= original
        invariant OnBlock() && restartIndex < numRestarts
        decreases restartIndex
      {
        StartBefore(data, layout, restartIndex, at);
        if restartIndex == 0 {
          current := restarts;
          restartIndex := numRestarts;
          pos := |layout.pairs|;
          return;
        }
        restartIndex := restartIndex - 1;
      }
      StartBefore(data, layout, restartIndex, at);
      SeekToRestartPoint(restartIndex);
      ghost var i := layout.starts[restartIndex];
      var more := true;
      while more
        invariant i <= at
        invariant if more then i < at && Ready(i) else Valid() && pos == at - 1
        decreases more, at - i
      {
        var ok := ParseNextKey(i);
        OffsetOrder(data, layout, i + 1, at);
        SharesOfNext(data, layout, i + 1);
        more := ok && NextEntryOffset() < original;
        i := i + 1;
      }
    }

    method SeekToFirst()
      requires Valid()
      modifies this
      ensures Valid() && pos == 0
    {
      hide IsBlock, Restarts;
      FirstStart(data, layout);
      SeekToRestartPoint(0);
      var ok := ParseNextKey(0);
    }

    method SeekToLast()
      requires Valid()
      modifies this
      ensures Valid() && pos == if layout.pairs == [] then 0 else |layout.pairs| - 1
    {
      hide IsBlock, Restarts;
      FirstStart(data, layout);
      LastStart(data, layout);
      SeekToRestartPoint(numRestarts - 1);
      ghost var i, n := layout.starts[numRestarts - 1], |layout.pairs|;
      var more := true;
      while more
        invariant i <= n || n == 0
        invariant if more then (i < n || n == 0) && i <= n && Ready(i)
                  else Valid() && pos == if n == 0 then 0 else n - 1
        decreases more, n - i
      {
        var ok := ParseNextKey(i);
        if i < n {
          OffsetOrder(data, layout, i + 1, n);
          SharesOfNext(data, layout, i + 1);
        }
        more := ok && NextEntryOffset() < restarts;
        i := i + 1;
      }
    }

    /** Binary search for the last restart point with a key before the target. */
    method SearchRestarts(target: Bytes) returns (left: nat)
      requires Valid() && Ascending(less, layout.pairs)
      ensures left < numRestarts
      ensures left > 0 ==> layout.starts[left] < |layout.pairs| && less(layout.pairs[layout.starts[left]].key, target)
    {
      hide IsBlock, Restarts, Ascending, DecodeEntry, Encoded;
      FirstStart(data, layout);
      LastStart(data, layout);
      left := 0;
      var right: nat := numRestarts - 1;
      while left < right
        invariant 0 <= left <= right < numRestarts
        invariant left > 0 ==>
                    layout.starts[left] < |layout.pairs| && less(layout.pairs[layout.starts[left]].key, target)
      {
        var mid := (left + right + 1) / 2;
        var regionOffset := GetRestartPoint(mid);
        RestartDecodes(data, layout, mid);
        var h := DecodeEntry(data, regionOffset, restarts);
        if h.None? || h.value.shared != 0 {
          assert false; // only in a corrupt block
        }
        var midKey := data[h.value.next..h.value.next + h.value.nonShared];
        if less(midKey, target) {
          left := mid;
        } else {
          right := mid - 1;
        }
      }
    }

    /** Seek: to the first pair at or after `target`. */
    method Seek(target: Bytes)
      requires Valid() && Ascending(less, layout.pairs)
      modifies this
      ensures Valid() && IsLowerBound(less, layout.pairs, target, pos)
    {
      hide IsBlock, Restarts, Ascending, DecodeEntry, Encoded;
      var left := SearchRestarts(target);
      // Linear search within the restart block for the first key at or after the target.
      SeekToRestartPoint(left);
      ghost var i := layout.starts[left];
      FirstStart(data, layout);
      LastStart(data, layout);
      EarlierKeys(less, layout.pairs, i, target);
      while true
        invariant i <= |layout.pairs| && Ready(i)
        invariant forall j :: 0 <= j < i ==> less(layout.pairs[j].key, target)
        decreases |layout.pairs| - i
      {
        var ok := ParseNextKey(i);
        if !ok {
          return;
        }
        if !less(key, target) {
          return;
        }
        SharesOfNext(data, layout, i + 1);
        i := i + 1;
      }
    }
  }

  lemma FirstStart(data: Bytes, l: Layout)
    requires IsBlock(data, l)
    ensures |l.starts| >= 1 && l.starts[0] == 0 && l.offsets[0] == 0
  {
  }

  lemma LastStart(data: Bytes, l: Layout)
    requires IsBlock(data, l)
    ensures |l.starts| >= 1
    ensures l.starts[|l.starts| - 1] < |l.pairs| || (l.pairs == [] && l.starts[|l.starts| - 1] == 0)
  {
  }

  /** The key of an entry has the prefix that the next entry shares. */
  lemma SharesOfNext(data: Bytes, l: Layout, i: nat)
    requires IsBlock(data, l) && 0 < i <= |l.pairs|
    ensures i < |l.pairs| && l.shares[i] > 0 ==>
      l.shares[i] <= |l.pairs[i - 1].key| && l.shares[i] <= |l.pairs[i].key|
      && l.pairs[i - 1].key[..l.shares[i]] == l.pairs[i].key[..l.shares[i]]
  {
    if i < |l.pairs| {
      assert EntryAt(data, l, i);
    }
  }

  lemma OffsetOrder(data: Bytes, l: Layout, i: nat, j: nat)
    requires IsBlock(data, l) && i <= |l.pairs| && j <= |l.pairs|
    ensures l.offsets[i] < l.offsets[j] <==> i < j
  {
    hide EntryAt;
    if i < j {
      OffsetsRise(data, l, i, j);
    } else if j < i {
      OffsetsRise(data, l, j, i);
    }
  }

  /** The entry at a restart point after the first holds its whole key. */
  lemma RestartDecodes(data: Bytes, l: Layout, r: nat)
    requires IsBlock(data, l) && 0 < r < |l.starts|
    ensures l.starts[r] < |l.pairs|
    ensures l.offsets[l.starts[r]] <= l.offsets[|l.pairs|] <= |data|
    ensures var h := DecodeEntry(data, l.offsets[l.starts[r]], l.offsets[|l.pairs|]);
      && h.Some? && h.value.shared == 0 && h.value.next + h.value.nonShared <= |data|
      && data[h.value.next..h.value.next + h.value.nonShared] == l.pairs[l.starts[r]].key
  {
    hide EntryAt, DecodeEntry, Encoded;
    StartsRise(l, 0, r);
    RestartShares(data, l, r);
    EntryDecodes(data, l, l.starts[r]);
    assert l.pairs[l.starts[r]].key[0..] == l.pairs[l.starts[r]].key;
  }

  lemma EarlierKeys(less: (Bytes, Bytes) -> bool, pairs: seq<Pair>, i: nat, target: Bytes)
    requires Ascending(less, pairs) && i <= |pairs|
    requires i > 0 ==> i < |pairs| && less(pairs[i].key, target)
    ensures forall j :: 0 <= j < i ==> less(pairs[j].key, target)
  {
  }

  /** A key is what it shares with the one before, and the rest. */
  lemma Rejoined(before: Bytes, s: Bytes, n: nat)
    requires n <= |s| && (n > 0 ==> n <= |before| && before[..n] == s[..n])
    ensures n <= |before| && before[..n] + s[n..] == s
  {
  }

  lemma RestartShares(data: Bytes, l: Layout, r: nat)
    requires IsBlock(data, l) && r < |l.starts|
    ensures l.starts[r] <= |l.pairs| && (l.starts[r] < |l.pairs| ==> l.shares[l.starts[r]] == 0)
  {
  }

  lemma StartBefore(data: Bytes, l: Layout, r: nat, i: nat)
    requires IsBlock(data, l) && r < |l.starts| && i <= |l.pairs|
    ensures l.starts[r] <= |l.pairs|
    ensures l.offsets[l.starts[r]] < l.offsets[i] <==> l.starts[r] < i
  {
    hide EntryAt;
    RestartShares(data, l, r);
    if l.starts[r] < i {
      OffsetsRise(data, l, l.starts[r], i);
    } else if i < l.starts[r] {
      OffsetsRise(data, l, i, l.starts[r]);
    }
  }
}
