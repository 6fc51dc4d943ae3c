// What a log reader finds in a file that a log writer was writing when it stopped, at any byte.
module LogRoundTrip {
  import opened Options
  import Crc32c
  import opened LogFormat
  import opened LogWriter
  import opened LogReader

  // All that repeated calls of ReadRecord return, and all they report.
  datatype Replay = Replay(records: seq<seq<bv8>>, offsets: seq<int>, drops: seq<nat>)

  const FRESH := Assembly(false, [], 0)

  function ReplayFrom(file: seq<bv8>, at: nat): Replay
    requires at <= |file|
    decreases |file| - at
  {
    var r := NextRecord(file, at, FRESH);
    if r.record.None? then Replay([], [], r.drops) else
      var rest := ReplayFrom(file, r.next);
      Replay([r.record.value] + rest.records, [r.offset] + rest.offsets, r.drops + rest.drops)
  }

  // The records that are whole within the first `n` bytes, and where they start.
  function Whole(p: nat, records: seq<seq<bv8>>, n: nat): (k: nat)
    ensures k <= |records|
    decreases |records|
  {
    if records == [] || p + |Record(p, records[0], true)| > n then 0
    else 1 + Whole(p + |Record(p, records[0], true)|, records[1..], n)
  }

  function Starts(p: nat, records: seq<seq<bv8>>): (s: seq<int>)
    ensures |s| == |records|
    decreases |records|
  {
    if records == [] then [] else [Start(p)] + Starts(p + |Record(p, records[0], true)|, records[1..])
  }

  // `file` is `before + tail`, or ends somewhere within `tail`.
  ghost predicate HoldsSome(file: seq<bv8>, p: nat, tail: seq<bv8>) {
    p <= |file| && file[p..] <= tail
  }

  // ---------------------------------------------------------------------------------------------
  // One fragment

  lemma PhysicalAtStart(file: seq<bv8>, p: nat)
    requires p <= |file|
    ensures Start(p) <= |file| ==> NextPhysical(file, p) == NextPhysical(file, Start(p))
    ensures |file| < Start(p) + HEADER_SIZE ==> NextPhysical(file, p) == PhysicalRead(EOF, [], |file|, [])
  {
    hide BlockEnd, FragmentAt;
  }

  // A fragment that is whole is returned; of one that is not, no trace is seen.
  lemma FragmentIsRead(file: seq<bv8>, p: nat, data: seq<bv8>, begin: bool, tail: seq<bv8>)
    requires p <= |file| && HoldsSome(file, p, Fragment(p, data, begin) + tail)
    ensures var n := Taken(p, |data|);
            var next := p + |Fragment(p, data, begin)|;
            NextPhysical(file, p) ==
              if next <= |file| then PhysicalRead(TypeOf(begin, n == |data|), data[..n], next, [])
              else PhysicalRead(EOF, [], |file|, [])
  {
    hide HoldsSome, Fragment, Zeros, BlockEnd, NextPhysical, FragmentAt, StoredLength, StoredType, StoredCrc, ActualCrc,
         Header, Taken, Start, TypeOf, DataEnd;
    TakenFits(p, |data|, begin);
    var n := Taken(p, |data|);
    var s := Start(p);
    var t := TypeOf(begin, n == |data|);
    var h := Header(t, data[..n]);
    PhysicalAtStart(file, p);
    if s + HEADER_SIZE <= |file| {
      FragmentIs(p, data, begin);
      BytesOfFragment(file, p, Zeros(s - p), h, data[..n], tail);
      HeaderParses(t, data[..n]);
      PhysicalIs(file, s);
      FragmentDecodes(file, s, h, t, data[..n]);
    }
  }

  lemma TakenFits(p: nat, left: nat, begin: bool)
    ensures var n := Taken(p, left);
      n <= left && n <= 0xffff && Start(p) + HEADER_SIZE + n <= BlockEnd(Start(p)) && 0 < TypeOf(begin, n == left) < 5
  {}

  lemma FragmentIs(p: nat, data: seq<bv8>, begin: bool)
    ensures var n := Taken(p, |data|);
            Fragment(p, data, begin) == Zeros(Start(p) - p) + Header(TypeOf(begin, n == |data|), data[..n]) + data[..n]
  {}

  lemma PhysicalIs(file: seq<bv8>, s: nat)
    requires s + HEADER_SIZE <= |file| && s + HEADER_SIZE <= BlockEnd(s)
    ensures NextPhysical(file, s) == FragmentAt(file, s, DataEnd(file, s), DataEnd(file, s) < BlockEnd(s))
  {}

  lemma BytesOfFragment(file: seq<bv8>, p: nat, pad: seq<bv8>, h: seq<bv8>, payload: seq<bv8>, tail: seq<bv8>)
    requires HoldsSome(file, p, pad + h + payload + tail)
    requires |h| == HEADER_SIZE && p + |pad| + HEADER_SIZE <= |file|
    ensures var s := p + |pad|;
            && file[s..s + HEADER_SIZE] == h
            && (s + HEADER_SIZE + |payload| <= |file| ==> file[s + HEADER_SIZE..s + HEADER_SIZE + |payload|] == payload)
  {
    var s := p + |pad|;
    var all := pad + h + payload + tail;
    assert forall k :: 0 <= k < |file| - p ==> file[p..][k] == all[k];
    assert forall k :: 0 <= k < HEADER_SIZE ==> file[s + k] == all[|pad| + k] == h[k];
    if s + HEADER_SIZE + |payload| <= |file| {
      assert forall k :: 0 <= k < |payload| ==> file[s + HEADER_SIZE + k] == all[|pad| + HEADER_SIZE + k] == payload[k];
    }
  }

  // The reader takes apart what EmitPhysicalRecord put together.
  lemma FragmentDecodes(file: seq<bv8>, s: nat, h: seq<bv8>, t: nat, payload: seq<bv8>)
    requires 0 < t < 5 && |payload| <= 0xffff && h == Header(t, payload)
    requires s + HEADER_SIZE <= |file| && file[s..s + HEADER_SIZE] == h
    requires s + HEADER_SIZE + |payload| <= BlockEnd(s)
    requires s + HEADER_SIZE + |payload| <= |file| ==> file[s + HEADER_SIZE..s + HEADER_SIZE + |payload|] == payload
    ensures var next := s + HEADER_SIZE + |payload|;
            FragmentAt(file, s, DataEnd(file, s), DataEnd(file, s) < BlockEnd(s)) ==
              if next <= |file| then PhysicalRead(t, payload, next, []) else PhysicalRead(EOF, [], |file|, [])
  {
    hide BlockEnd, StoredLength, StoredType, StoredCrc, ActualCrc, Header;
    HeaderParses(t, payload);
    var next := s + HEADER_SIZE + |payload|;
    if next <= |file| {
      assert file[s + 6..next] == [ByteOf(t)] + payload by {
        TypeByte(t, payload);
        assert file[s + 6] == file[s..s + HEADER_SIZE][6];
        assert file[s + 6..next] == [file[s + 6]] + file[s + HEADER_SIZE..next];
      }
    }
  }

  lemma TypeByte(t: nat, payload: seq<bv8>)
    requires t < 256 && |payload| <= 0xffff
    ensures Header(t, payload)[6] == ByteOf(t)
  {}

  // ---------------------------------------------------------------------------------------------
  // One record

  lemma RecordParts(p: nat, data: seq<bv8>, begin: bool)
    ensures var n, s := Taken(p, |data|), Fragment(p, data, begin);
            Record(p, data, begin) == if n == |data| then s else s + Record(p + |s|, data[n..], false)
  {
    hide Fragment;
  }

  // What is left of a record completes what has been assembled, or is not there to complete it.
  lemma {:induction false} RecordIsRead(file: seq<bv8>, p: nat, data: seq<bv8>, begin: bool, a: Assembly,
                                        tail: seq<bv8>)
    requires HoldsSome(file, p, Record(p, data, begin) + tail)
    requires begin ==> a == FRESH
    requires !begin ==> a.inFragmented
    ensures var next := p + |Record(p, data, begin)|;
            var offset := if begin then Start(p) else a.offset;
            var r := NextRecord(file, p, a);
            if next <= |file| then r == RecordRead(Some(a.scratch + data), offset, next, [])
            else r.record.None? && r.drops == []
    decreases |data|, if Room(p) == 0 then 1 else 0
  {
    hide BlockEnd, NextPhysical, Fragment, Start, Room, NextRecord, Record;
    var n := Taken(p, |data|);
    var s := Fragment(p, data, begin);
    var q := p + |s|;
    RecordParts(p, data, begin);
    if n == |data| {
      FragmentIsRead(file, p, data, begin, tail);
      assert data[..n] == data;
      LastFragment(file, p, data, begin, a);
    } else {
      FragmentFillsBlock(p, data, begin);
      var rest := Record(q, data[n..], false);
      assert (s + rest) + tail == s + (rest + tail);
      FragmentIsRead(file, p, data, begin, rest + tail);
      if q <= |file| {
        HoldsRest(file, p, s, rest + tail);
        var b := Assembly(true, a.scratch + data[..n], if begin then Start(p) else a.offset);
        RecordIsRead(file, q, data[n..], false, b, tail);
        assert b.scratch + data[n..] == a.scratch + data;
        MoreFragments(file, p, data[..n], begin, a, q);
      } else {
        NoFragment(file, p, a);
      }
    }
  }

  lemma LastFragment(file: seq<bv8>, p: nat, data: seq<bv8>, begin: bool, a: Assembly)
    requires p <= |file|
    requires begin ==> a == FRESH
    requires !begin ==> a.inFragmented
    requires var next := Start(p) + HEADER_SIZE + |data|;
             NextPhysical(file, p) ==
               if next <= |file| then PhysicalRead(TypeOf(begin, true), data, next, [])
                 else PhysicalRead(EOF, [], |file|, [])
    ensures var next := Start(p) + HEADER_SIZE + |data|;
            var r := NextRecord(file, p, a);
            if next <= |file| then
              r == RecordRead(Some(a.scratch + data), if begin then Start(p) else a.offset, next, [])
            else r.record.None? && r.drops == []
  {
    hide NextPhysical, Start;
    assert begin ==> a.scratch + data == data;
  }

  lemma MoreFragments(file: seq<bv8>, p: nat, payload: seq<bv8>, begin: bool, a: Assembly, q: nat)
    requires p <= |file| && q <= |file| && q == Start(p) + HEADER_SIZE + |payload|
    requires begin ==> a == FRESH
    requires !begin ==> a.inFragmented
    requires NextPhysical(file, p) == PhysicalRead(TypeOf(begin, false), payload, q, [])
    ensures NextRecord(file, p, a)
              == NextRecord(file, q, Assembly(true, a.scratch + payload, if begin then Start(p) else a.offset))
  {
    hide NextPhysical, Start;
    assert begin ==> a.scratch + payload == payload;
    var r := NextRecord(file, q, Assembly(true, a.scratch + payload, if begin then Start(p) else a.offset));
    assert [] + r.drops == r.drops;
  }

  lemma NoFragment(file: seq<bv8>, p: nat, a: Assembly)
    requires p <= |file| && NextPhysical(file, p) == PhysicalRead(EOF, [], |file|, [])
    ensures NextRecord(file, p, a).record.None? && NextRecord(file, p, a).drops == []
  {
    hide NextPhysical;
  }

  lemma HoldsRest(file: seq<bv8>, p: nat, s: seq<bv8>, tail: seq<bv8>)
    requires HoldsSome(file, p, s + tail) && p + |s| <= |file|
    ensures HoldsSome(file, p + |s|, tail)
  {
    var q := p + |s|;
    assert forall k :: 0 <= k < |file| - p ==> file[p..][k] == (s + tail)[k];
    assert forall k :: 0 <= k < |file| - q ==> file[q..][k] == file[p..][|s| + k] == tail[k];
  }

  // ---------------------------------------------------------------------------------------------
  // The whole file

  lemma {:induction false} ReplayFinds(file: seq<bv8>, p: nat, records: seq<seq<bv8>>)
    requires HoldsSome(file, p, Records(p, records))
    ensures var k := Whole(p, records, |file|);
            ReplayFrom(file, p) == Replay(records[..k], Starts(p, records)[..k], [])
    decreases |records|
  {
    hide NextRecord, Record, Start, HoldsSome, Starts;
    if records == [] {
      assert |file| == p by { NoMore(file, p); }
      NothingIsRead(file);
      assert records[..0] == [] && Starts(p, records)[..0] == [];
    } else {
      var s := Record(p, records[0], true);
      var tail := Records(p + |s|, records[1..]);
      RecordIsRead(file, p, records[0], true, FRESH, tail);
      assert [] + records[0] == records[0];
      if p + |s| <= |file| {
        HoldsRest(file, p, s, tail);
        ReplayAgain(file, p, records[0], Start(p), p + |s|);
        ReplayFinds(file, p + |s|, records[1..]);
        OneMoreWhole(p, records, |file|);
      } else {
        NoneWhole(p, records, |file|);
      }
    }
  }

  lemma OneMoreWhole(p: nat, records: seq<seq<bv8>>, n: nat)
    requires records != [] && p + |Record(p, records[0], true)| <= n
    ensures var q := p + |Record(p, records[0], true)|;
            var j, k := Whole(q, records[1..], n), Whole(p, records, n);
            && k == j + 1 && records[..k] == [records[0]] + records[1..][..j]
            && Starts(p, records)[..k] == [Start(p)] + Starts(q, records[1..])[..j]
  {
    hide Record, Start;
  }

  lemma NoneWhole(p: nat, records: seq<seq<bv8>>, n: nat)
    requires records != [] && p + |Record(p, records[0], true)| > n
    ensures Whole(p, records, n) == 0
  {
    hide Record;
  }

  lemma ReplayAgain(file: seq<bv8>, p: nat, record: seq<bv8>, offset: int, next: nat)
    requires p <= |file| && NextRecord(file, p, FRESH) == RecordRead(Some(record), offset, next, [])
    ensures next <= |file|
    ensures ReplayFrom(file, p)
         == Replay([record] + ReplayFrom(file, next).records, [offset] + ReplayFrom(file, next).offsets,
           ReplayFrom(file, next).drops)
  {
    hide NextRecord;
    var rest := ReplayFrom(file, next);
    assert [] + rest.drops == rest.drops;
  }

  lemma NoMore(file: seq<bv8>, p: nat)
    requires HoldsSome(file, p, [])
    ensures |file| == p
  {
    assert |file[p..]| == 0;
  }

  lemma NothingIsRead(file: seq<bv8>)
    ensures NextRecord(file, |file|, FRESH) == RecordRead(None, 0, |file|, [])
  {
    PhysicalAtStart(file, |file|);
  }

  // A writer that starts on an empty file and is stopped after any number of bytes leaves a file
  // in which the reader finds exactly the records that were written whole, in their order, and in
  // which nothing looks corrupted.
  lemma TruncatedLogReplays(records: seq<seq<bv8>>, n: nat)
    requires n <= |Records(0, records)|
    ensures var k := Whole(0, records, n);
            ReplayFrom(Records(0, records)[..n], 0) == Replay(records[..k], Starts(0, records)[..k], [])
  {
    var file := Records(0, records)[..n];
    assert file[0..] == file;
    ReplayFinds(file, 0, records);
  }

  // `Whole` counts the records whose last byte is within the prefix.
  lemma {:induction false} WholeCounts(p: nat, records: seq<seq<bv8>>, n: nat, k: nat)
    requires k <= |records| && p <= n
    ensures k <= Whole(p, records, n) <==> p + |Records(p, records[..k])| <= n
    decreases |records|
  {
    hide Record;
    if k > 0 {
      var s := Record(p, records[0], true);
      assert records[..k][1..] == records[1..][..k - 1];
      if p + |s| <= n {
        WholeCounts(p + |s|, records[1..], n, k - 1);
      }
    }
  }

  // ---------------------------------------------------------------------------------------------
  // Damage

  // A fragment whose type or payload was damaged within four consecutive bytes is not returned:
  // the reader drops and reports the rest of the block.
  lemma DamageIsDropped(file: seq<bv8>, at: nat, e: nat, t: nat, payload: seq<bv8>,
                        before: seq<bv8>, written: seq<bv8>, found: seq<bv8>, after: seq<bv8>)
    requires t < 128 && |payload| <= 0xffff && [ByteOf(t)] + payload == before + written + after
    requires |written| == |found| == 4 && written != found
    requires at + HEADER_SIZE + |payload| <= e <= |file|
    requires file[at..at + 6] == Header(t, payload)[..6]
    requires file[at + 6..at + HEADER_SIZE + |payload|] == before + found + after
    ensures FragmentAt(file, at, e, e < BlockEnd(at)) == PhysicalRead(BAD_RECORD, [], e, [e - at])
  {
    hide BlockEnd, Header, StoredType, StoredCrc, ActualCrc, StoredLength;
    var h := Header(t, payload);
    var header := file[at..at + HEADER_SIZE];
    assert forall k :: 0 <= k < 6 ==> header[k] == file[at..at + 6][k] == h[..6][k] == h[k];
    HeaderParses(t, payload);
    SameStored(header, h);
    assert ActualCrc(before + written + after) != ActualCrc(before + found + after) by {
      CrcsDiffer(before, written, found, after);
    }
  }

  lemma SameStored(a: seq<bv8>, b: seq<bv8>)
    requires |a| == |b| == HEADER_SIZE && forall k :: 0 <= k < 6 ==> a[k] == b[k]
    ensures StoredLength(a) == StoredLength(b) && StoredCrc(a) == StoredCrc(b)
  {
    hide Crc32c.Unmask, Crc32c.DecodeFixed32;
  }

  lemma CrcsDiffer(before: seq<bv8>, a: seq<bv8>, b: seq<bv8>, after: seq<bv8>)
    requires |a| == |b| == 4 && a != b
    ensures ActualCrc(before + a + after) != ActualCrc(before + b + after)
  {
    hide Crc32c.Checksum;
    Crc32c.DamageIsDetected(0, before, a, b, after);
  }
}
