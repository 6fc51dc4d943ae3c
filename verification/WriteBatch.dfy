/**
 Write batches (db/write_batch.cc): a list of puts and deletes in one string, with a sequence number and a
 count in front.
 */
module WriteBatch {
  import opened Keys
  import opened Coding
  import Runs

  datatype BatchOp = Put(key: Bytes, value: Bytes) | Delete(key: Bytes)

  datatype Status = Ok | Corruption(message: string)

  /** kHeader. */
  const HEADER: nat := 12

  /** kTypeDeletion and kTypeValue. */
  const TYPE_DELETION: Byte := 0
  const TYPE_VALUE: Byte := 1

  /** Sizes are 32-bit, counts non-negative ints. */
  const MAX_COUNT: nat := 0x7FFF_FFFF
  const MAX_SLICE: nat := 0xFFFF_FFFF

  predicate Fits(op: BatchOp) {
    |op.key| <= MAX_SLICE && (op.Put? ==> |op.value| <= MAX_SLICE)
  }

  function Encoded(op: BatchOp): (s: Bytes)
    ensures |s| >= 2
  {
    match op
    case Put(key, value) => [TYPE_VALUE] + (LengthPrefixed(key) + LengthPrefixed(value))
    case Delete(key) => [TYPE_DELETION] + LengthPrefixed(key)
  }

  function EncodedOps(ops: seq<BatchOp>): Bytes {
    if ops == [] then [] else EncodedOps(ops[..|ops| - 1]) + Encoded(ops[|ops| - 1])
  }

  /** `rep` is the batch of `ops` with a sequence number. */
  predicate IsBatch(rep: Bytes, sequence: nat, ops: seq<BatchOp>) {
    && rep == Fixed64(sequence) + Fixed32(|ops|) + EncodedOps(ops)
    && |ops| <= MAX_COUNT && forall op <- ops :: Fits(op)
  }

  // ---- iterating -----------------------------------------------------------------------------------------

  /** One record at `p`: the operation and the position after it, or why there is none. */
  function ParseRecord(src: Bytes, p: nat): (r: (Parsed<BatchOp>, Status))
    requires p < |src|
    ensures r.0.Good? ==> p < r.0.next <= |src|
  {
    if src[p] == TYPE_VALUE then
      var key := GetLengthPrefixedSlice(src, p + 1);
      if key.Bad? then (Bad, Corruption("bad WriteBatch Put")) else
        var value := GetLengthPrefixedSlice(src, key.next);
        if value.Bad? then (Bad, Corruption("bad WriteBatch Put"))
        else (Good(BatchOp.Put(key.value, value.value), value.next), Ok)
    else if src[p] == TYPE_DELETION then
      var key := GetLengthPrefixedSlice(src, p + 1);
      if key.Bad? then (Bad, Corruption("bad WriteBatch Delete")) else (Good(BatchOp.Delete(key.value), key.next), Ok)
    else
      (Bad, Corruption("unknown WriteBatch tag"))
  }

  /** All records from `p` on, and the first error. */
  function ParseAll(src: Bytes, p: nat): (seq<BatchOp>, Status)
    requires p <= |src|
    decreases |src| - p
  {
    if p == |src| then ([], Ok) else
      var r := ParseRecord(src, p);
      if r.0.Bad? then ([], r.1) else
        var rest := ParseAll(src, r.0.next);
        ([r.0.value] + rest.0, rest.1)
  }

  function Count(rep: Bytes): nat
    requires |rep| >= HEADER
  {
    DecodeFixed(rep[8..12])
  }

  function Sequence(rep: Bytes): nat
    requires |rep| >= HEADER
  {
    DecodeFixed(rep[..8])
  }

  /** What Iterate hands to the handler, and its status. */
  function Outcome(rep: Bytes): (seq<BatchOp>, Status) {
    if |rep| < HEADER then ([], Corruption("malformed WriteBatch (too small)")) else
      var r := ParseAll(rep, HEADER);
      (r.0, if r.1 == Ok && |r.0| != Count(rep) then Corruption("WriteBatch has wrong count") else r.1)
  }

  lemma ParseStep(src: Bytes, p: nat, handled: seq<BatchOp>)
    requires p < |src|
    ensures var r := ParseRecord(src, p);
      if r.0.Bad? then handled + ParseAll(src, p).0 == handled && ParseAll(src, p).1 == r.1
      else handled + ParseAll(src, p).0 == handled + [r.0.value] + ParseAll(src, r.0.next).0
           && ParseAll(src, p).1 == ParseAll(src, r.0.next).1
  {
    hide ParseRecord;
  }

  /** WriteBatch::Iterate, with the calls to its handler collected. */
  method Iterate(rep: Bytes) returns (handled: seq<BatchOp>, status: Status)
    ensures (handled, status) == Outcome(rep)
  {
    handled := [];
    if |rep| < HEADER {
      return handled, Corruption("malformed WriteBatch (too small)");
    }
    var p, found := HEADER, 0;
    assert [] + ParseAll(rep, HEADER).0 == ParseAll(rep, HEADER).0;
    while p < |rep|
      invariant HEADER <= p <= |rep| && found == |handled|
      invariant ParseAll(rep, HEADER) == (handled + ParseAll(rep, p).0, ParseAll(rep, p).1)
      decreases |rep| - p
    {
      found := found + 1;
      var tag := rep[p];
      ParseStep(rep, p, handled);
      if tag == TYPE_VALUE {
        var key := GetLengthPrefixedSlice(rep, p + 1);
        if key.Bad? {
          return handled, Corruption("bad WriteBatch Put");
        }
        var value := GetLengthPrefixedSlice(rep, key.next);
        if value.Bad? {
          return handled, Corruption("bad WriteBatch Put");
        }
        handled := handled + [BatchOp.Put(key.value, value.value)];
        p := value.next;
      } else if tag == TYPE_DELETION {
        var key := GetLengthPrefixedSlice(rep, p + 1);
        if key.Bad? {
          return handled, Corruption("bad WriteBatch Delete");
        }
        handled := handled + [BatchOp.Delete(key.value)];
        p := key.next;
      } else {
        return handled, Corruption("unknown WriteBatch tag");
      }
    }
    assert handled + [] == handled;
    if found != Count(rep) {
      return handled, Corruption("WriteBatch has wrong count");
    }
    return handled, Ok;
  }

  // ---- into the memtable ---------------------------------------------------------------------------------

  /** The operation on ranks of its key. */
  function Ranked(op: BatchOp): Runs.Op {
    match op
    case Put(key, value) => Runs.Op.Put(Rank(key), value)
    case Delete(key) => Runs.Op.Delete(Rank(key))
  }

  function RankedOps(ops: seq<BatchOp>): (r: seq<Runs.Op>)
    ensures |r| == |ops|
  {
    seq(|ops|, i requires 0 <= i < |ops| => Ranked(ops[i]))
  }

  /**
   WriteBatchInternal::InsertInto: MemTableInserter adds the operations that Iterate hands over, numbered from
   the batch's number; those before a bad record stay in the memtable.
   */
  method InsertContents(rep: Bytes, mem: seq<Entry>) returns (mem': seq<Entry>, status: Status)
    requires |rep| >= HEADER
    ensures var handled := Outcome(rep).0;
      mem' == Runs.Applied(mem, RankedOps(handled), |handled|, Sequence(rep)) && status == Outcome(rep).1
  {
    hide Runs.Inserted, Outcome, DecodeFixed;
    var handled;
    handled, status := Iterate(rep);
    mem' := mem;
    var sequence := Sequence(rep);
    for i := 0 to |handled|
      invariant mem' == Runs.Applied(mem, RankedOps(handled), i, Sequence(rep)) && sequence == Sequence(rep) + i
    {
      mem' := Runs.Inserted(mem', Runs.EntryOf(Ranked(handled[i]), sequence));
      sequence := sequence + 1;
    }
  }

  // ---- round trip ----------------------------------------------------------------------------------------

  lemma RecordParses(src: Bytes, p: nat, op: BatchOp)
    requires At(src, p, Encoded(op)) && Fits(op)
    ensures ParseRecord(src, p) == (Good(op, p + |Encoded(op)|), Ok)
  {
    hide At, LengthPrefixed, GetLengthPrefixedSlice;
    match op {
      case Put(key, value) =>
        var body := LengthPrefixed(key) + LengthPrefixed(value);
        AtParts(src, p, [TYPE_VALUE], body);
        FirstByte(src, p, TYPE_VALUE);
        AtParts(src, p + 1, LengthPrefixed(key), LengthPrefixed(value));
        ReadsSlice(src, p + 1, key);
        ReadsSlice(src, p + 1 + |LengthPrefixed(key)|, value);
      case Delete(key) =>
        AtParts(src, p, [TYPE_DELETION], LengthPrefixed(key));
        FirstByte(src, p, TYPE_DELETION);
        ReadsSlice(src, p + 1, key);
    }
  }

  lemma FirstByte(src: Bytes, p: nat, b: Byte)
    requires At(src, p, [b])
    ensures p < |src| && src[p] == b
  {
    assert src[p] == src[p..p + 1][0];
  }

  lemma {:induction false} EncodedOpsConcat(a: seq<BatchOp>, b: seq<BatchOp>)
    ensures EncodedOps(a + b) == EncodedOps(a) + EncodedOps(b)
    decreases |b|
  {
    hide Encoded;
    if b == [] {
      assert a + b == a;
    } else {
      var n := |b| - 1;
      EncodedOpsConcat(a, b[..n]);
      assert (a + b)[..|a + b| - 1] == a + b[..n];
      Associates(EncodedOps(a), EncodedOps(b[..n]), Encoded(b[n]));
    }
  }

  lemma Associates(a: Bytes, b: Bytes, c: Bytes)
    ensures (a + b) + c == a + (b + c)
  {
  }

  lemma EncodedOne(op: BatchOp)
    ensures EncodedOps([op]) == Encoded(op)
  {
    hide Encoded;
    assert [op][..0] == [];
  }

  lemma EncodedFirst(ops: seq<BatchOp>)
    requires ops != []
    ensures EncodedOps(ops) == Encoded(ops[0]) + EncodedOps(ops[1..])
  {
    hide EncodedOps;
    EncodedOpsConcat([ops[0]], ops[1..]);
    assert ops == [ops[0]] + ops[1..];
    EncodedOne(ops[0]);
  }

  lemma NothingEncoded()
    ensures EncodedOps([]) == []
  {
  }

  /**
   The records up to position `n` of an encoded list: those that end by then are parsed, and if the last of
   them does not end there, an error follows.
   */
  lemma {:induction false} PrefixParses(src: Bytes, p: nat, ops: seq<BatchOp>, n: nat) returns (k: nat)
    requires At(src, p, EncodedOps(ops)) && p <= n <= p + |EncodedOps(ops)| <= |src| && forall op <- ops :: Fits(op)
    ensures k <= |ops| && ParseAll(src[..n], p).0 == ops[..k]
    ensures ParseAll(src[..n], p).1 == Ok ==> p + |EncodedOps(ops[..k])| == n
    ensures n == p + |EncodedOps(ops)| ==> k == |ops| && ParseAll(src[..n], p).1 == Ok
    decreases |ops|
  {
    hide Encoded, EncodedOps, ParseRecord, At;
    k := 0;
    NothingEncoded();
    assert ops[..0] == [];
    if ops == [] || n == p {
      if ops != [] {
        EncodedFirst(ops);
      }
    } else {
      var op, rest, cut := ops[0], ops[1..], src[..n];
      EncodedFirst(ops);
      AtParts(src, p, Encoded(op), EncodedOps(rest));
      var next := p + |Encoded(op)|;
      if next <= n {
        CutKeeps(src, p, Encoded(op), n);
        RecordParses(cut, p, op);
        var m := PrefixParses(src, next, rest, n);
        k := m + 1;
        assert ops[..k] == [op] + rest[..m];
        EncodedFirst(ops[..k]);
        assert ops[..k][1..] == rest[..m];
      } else {
        CutRecordFails(src, p, op, n);
      }
    }
  }

  lemma CutKeeps(src: Bytes, p: nat, s: Bytes, n: nat)
    requires At(src, p, s) && p + |s| <= n <= |src|
    ensures At(src[..n], p, s)
  {
    assert src[..n][p..p + |s|] == src[p..p + |s|];
  }

  // ---- cut records ---------------------------------------------------------------------------------------

  lemma {:induction false} CutVarintFails(src: Bytes, p: nat, v: nat, result: nat, weight: nat, size: nat)
    requires p <= |src| < p + |Varint(v)| && src[p..] == Varint(v)[..|src| - p] && 0 < size
    ensures ReadVarint(src, p, |src|, result, weight, size).None?
    decreases v
  {
    if p < |src| && weight < size {
      assert src[p] == src[p..][0];
      assert Varint(v)[1..] == Varint(v / 128);
      assert src[p + 1..] == src[p..][1..] == Varint(v / 128)[..|src| - p - 1];
      CutVarintFails(src, p + 1, v / 128, result + (src[p] - 128) * weight % size, weight * 128, size);
    }
  }

  /** A slice with its length in front that is cut short is not read. */
  lemma CutSliceFails(src: Bytes, p: nat, s: Bytes, n: nat)
    requires At(src, p, LengthPrefixed(s)) && |s| <= MAX_SLICE && p <= n < p + |LengthPrefixed(s)| <= |src|
    ensures GetLengthPrefixedSlice(src[..n], p).Bad?
  {
    hide Varint;
    var cut, len := src[..n], Varint(|s|);
    AtParts(src, p, len, s);
    if n < p + |len| {
      assert cut[p..] == src[p..p + |len|][..n - p];
      CutVarintFails(cut, p, |s|, 0, 1, 0x1_0000_0000);
    } else {
      CutKeeps(src, p, len, n);
      ReadsVarint(cut, p, |s|, 0x1_0000_0000);
    }
  }

  lemma CutRecordFails(src: Bytes, p: nat, op: BatchOp, n: nat)
    requires At(src, p, Encoded(op)) && Fits(op) && p < n < p + |Encoded(op)| <= |src|
    ensures ParseRecord(src[..n], p).0.Bad? && ParseRecord(src[..n], p).1 != Ok
  {
    hide At, LengthPrefixed, GetLengthPrefixedSlice;
    var cut := src[..n];
    match op {
      case Put(key, value) =>
        var a, b := LengthPrefixed(key), LengthPrefixed(value);
        AtParts(src, p, [TYPE_VALUE], a + b);
        FirstByte(src, p, TYPE_VALUE);
        AtParts(src, p + 1, a, b);
        if n < p + 1 + |a| {
          CutSliceFails(src, p + 1, key, n);
        } else {
          CutKeeps(src, p + 1, a, n);
          ReadsSlice(cut, p + 1, key);
          CutSliceFails(src, p + 1 + |a|, value, n);
        }
      case Delete(key) =>
        AtParts(src, p, [TYPE_DELETION], LengthPrefixed(key));
        FirstByte(src, p, TYPE_DELETION);
        CutSliceFails(src, p + 1, key, n);
    }
  }

  // ---- main results --------------------------------------------------------------------------------------

  lemma BatchHeader(rep: Bytes, sequence: nat, ops: seq<BatchOp>)
    requires IsBatch(rep, sequence, ops)
    ensures |rep| == HEADER + |EncodedOps(ops)| && At(rep, HEADER, EncodedOps(ops))
    ensures Count(rep) == |ops|
    ensures rep[8..12] == Fixed32(|ops|) && rep[..8] == Fixed64(sequence)
  {
    hide Fixed32, Fixed64, EncodedOps, DecodeFixed;
    assert rep[8..12] == Fixed32(|ops|);
    assert rep[..8] == Fixed64(sequence);
    Fixed32RoundTrip(|ops|);
  }

  /**
   The operations of a batch are handed over in order, whole; and of a batch that has been cut anywhere, some of
   the first operations are handed over and the status is not OK.
   */
  lemma BatchRoundTrip(rep: Bytes, sequence: nat, ops: seq<BatchOp>, n: nat)
    requires IsBatch(rep, sequence, ops) && n <= |rep|
    ensures n == |rep| ==> Outcome(rep) == (ops, Ok)
    ensures n < |rep| ==> Outcome(rep[..n]).1 != Ok && Outcome(rep[..n]).0 <= ops
  {
    hide EncodedOps, ParseAll, At, Fixed32, Fixed64, DecodeFixed;
    BatchHeader(rep, sequence, ops);
    if n >= HEADER {
      var k := PrefixParses(rep, HEADER, ops, n);
      assert rep[..|rep|] == rep;
      assert rep[..n][8..12] == rep[8..12];
      if n < |rep| && k == |ops| {
        assert ops[..k] == ops;
      }
    }
  }

  class WriteBatch {
    var rep: Bytes
    ghost var sequence: nat
    ghost var ops: seq<BatchOp>

    ghost predicate Valid()
      reads this
    {
      IsBatch(rep, sequence, ops)
    }

    constructor ()
      ensures Valid() && ops == [] && sequence == 0
    {
      rep := seq(HEADER, i => 0);
      sequence, ops := 0, [];
      new;
      EmptyBatch(rep);
    }

    method Clear()
      modifies this
      ensures Valid() && ops == [] && sequence == 0
    {
      rep := seq(HEADER, i => 0);
      sequence, ops := 0, [];
      EmptyBatch(rep);
    }

    /** SetCount. */
    method SetCount(n: nat)
      requires |rep| >= HEADER
      modifies this
      ensures rep == old(rep[..8]) + Fixed32(n) + old(rep[HEADER..]) && sequence == old(sequence) && ops == old(ops)
    {
      rep := rep[..8] + Fixed32(n) + rep[HEADER..];
    }

    method SetSequence(n: nat)
      requires Valid()
      modifies this
      ensures Valid() && sequence == n && ops == old(ops)
    {
      hide Fixed32, Fixed64, EncodedOps;
      BatchHeader(rep, sequence, ops);
      BatchParts(rep, sequence, ops);
      rep := Fixed64(n) + rep[8..];
      sequence := n;
    }

    method Put(key: Bytes, value: Bytes)
      requires Valid() && Fits(BatchOp.Put(key, value)) && |ops| < MAX_COUNT
      modifies this
      ensures Valid() && ops == old(ops) + [BatchOp.Put(key, value)] && sequence == old(sequence)
    {
      hide Fixed32, Fixed64, EncodedOps, LengthPrefixed, DecodeFixed;
      ghost var before := rep;
      BatchHeader(rep, sequence, ops);
      SetCount(Count(rep) + 1);
      rep := rep + [TYPE_VALUE];
      rep := rep + LengthPrefixed(key);
      rep := rep + LengthPrefixed(value);
      PutIs(before[..8] + Fixed32(|ops| + 1) + before[HEADER..], key, value);
      OpsAppended(before, sequence, ops, [BatchOp.Put(key, value)], rep);
      ops := ops + [BatchOp.Put(key, value)];
    }

    method Delete(key: Bytes)
      requires Valid() && Fits(BatchOp.Delete(key)) && |ops| < MAX_COUNT
      modifies this
      ensures Valid() && ops == old(ops) + [BatchOp.Delete(key)] && sequence == old(sequence)
    {
      hide Fixed32, Fixed64, EncodedOps, LengthPrefixed, DecodeFixed;
      ghost var before := rep;
      BatchHeader(rep, sequence, ops);
      SetCount(Count(rep) + 1);
      rep := rep + [TYPE_DELETION];
      rep := rep + LengthPrefixed(key);
      DeleteIs(before[..8] + Fixed32(|ops| + 1) + before[HEADER..], key);
      OpsAppended(before, sequence, ops, [BatchOp.Delete(key)], rep);
      ops := ops + [BatchOp.Delete(key)];
    }

    /** Append: the source's operations after those at hand; the source may be the batch itself. */
    method Append(source: WriteBatch)
      requires Valid() && source.Valid() && |ops| + |source.ops| <= MAX_COUNT
      modifies this
      ensures Valid() && ops == old(ops) + old(source.ops) && sequence == old(sequence)
    {
      hide Fixed32, Fixed64, EncodedOps, DecodeFixed;
      ghost var before, more := rep, source.ops;
      BatchHeader(rep, sequence, ops);
      BatchHeader(source.rep, source.sequence, source.ops);
      BatchParts(source.rep, source.sequence, source.ops);
      SetCount(Count(rep) + Count(source.rep));
      assert source.rep[HEADER..] == EncodedOps(more);
      rep := rep + source.rep[HEADER..];
      OpsAppended(before, sequence, ops, more, rep);
      ops := ops + more;
    }

    /** InsertInto: what becomes of a memtable. */
    method InsertInto(mem: seq<Entry>) returns (mem': seq<Entry>, status: Status)
      requires Valid() && sequence <= MAX_SEQUENCE
      ensures status == Ok && mem' == Runs.Applied(mem, RankedOps(ops), |ops|, sequence)
    {
      hide ParseAll, EncodedOps, Fixed32, Fixed64, DecodeFixed, Outcome;
      BatchHeader(rep, sequence, ops);
      BatchRoundTrip(rep, sequence, ops, |rep|);
      SequenceReads(sequence);
      assert rep[..|rep|] == rep;
      mem', status := InsertContents(rep, mem);
    }
  }

  lemma EmptyBatch(rep: Bytes)
    requires rep == seq(HEADER, i => 0)
    ensures IsBatch(rep, 0, [])
  {
    Zeros(8);
    Zeros(4);
  }

  lemma {:induction false} Zeros(n: nat)
    ensures Fixed(0, n) == seq(n, i => 0)
  {
    if n > 0 {
      Zeros(n - 1);
    }
  }

  lemma BatchParts(rep: Bytes, sequence: nat, ops: seq<BatchOp>)
    requires IsBatch(rep, sequence, ops)
    ensures |rep| >= HEADER && rep[HEADER..] == EncodedOps(ops) && rep[..8] == Fixed64(sequence)
    ensures rep[8..] == Fixed32(|ops|) + EncodedOps(ops)
  {
    hide Fixed32, Fixed64, EncodedOps, Fits;
    Parts(Fixed64(sequence), Fixed32(|ops|), EncodedOps(ops));
  }

  /** Three byte strings one after the other. */
  lemma Parts(a: Bytes, b: Bytes, c: Bytes)
    ensures (a + b + c)[..|a|] == a && (a + b + c)[|a|..] == b + c && (a + b + c)[|a| + |b|..] == c
  {
  }

  lemma PutIs(a: Bytes, key: Bytes, value: Bytes)
    ensures a + [TYPE_VALUE] + LengthPrefixed(key) + LengthPrefixed(value) == a + EncodedOps([BatchOp.Put(key, value)])
  {
    hide LengthPrefixed;
    EncodedOne(BatchOp.Put(key, value));
  }

  lemma DeleteIs(a: Bytes, key: Bytes)
    ensures a + [TYPE_DELETION] + LengthPrefixed(key) == a + EncodedOps([BatchOp.Delete(key)])
  {
    hide LengthPrefixed;
    EncodedOne(BatchOp.Delete(key));
  }

  lemma OpsAppended(before: Bytes, sequence: nat, ops: seq<BatchOp>, more: seq<BatchOp>, after: Bytes)
    requires IsBatch(before, sequence, ops) && |before| >= HEADER
    requires |ops| + |more| <= MAX_COUNT && forall op <- more :: Fits(op)
    requires after == before[..8] + Fixed32(|ops| + |more|) + before[HEADER..] + EncodedOps(more)
    ensures IsBatch(after, sequence, ops + more)
  {
    hide Fixed32, Fixed64, EncodedOps, Fits;
    AppendedBytes(before, sequence, ops, more, after);
  }

  lemma AppendedBytes(before: Bytes, sequence: nat, ops: seq<BatchOp>, more: seq<BatchOp>, after: Bytes)
    requires IsBatch(before, sequence, ops) && |before| >= HEADER
    requires after == before[..8] + Fixed32(|ops| + |more|) + before[HEADER..] + EncodedOps(more)
    ensures after == Fixed64(sequence) + Fixed32(|ops + more|) + EncodedOps(ops + more)
  {
    hide *;
    BatchParts(before, sequence, ops);
    EncodedOpsConcat(ops, more);
    Associates(Fixed64(sequence) + Fixed32(|ops| + |more|), EncodedOps(ops), EncodedOps(more));
  }

  lemma SequenceReads(sequence: nat)
    requires sequence <= MAX_SEQUENCE
    ensures DecodeFixed(Fixed64(sequence)) == sequence
  {
    FixedRoundTrip(sequence, 8);
  }
}
