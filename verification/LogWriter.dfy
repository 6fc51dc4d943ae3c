// log::Writer (db/log_writer.cc).
module LogWriter {
  import opened LogFormat

  // Where the next fragment starts when the file is `p` bytes long: a block tail too short for a
  // header is skipped.
  function Start(p: nat): (s: nat)
    ensures p <= s < p + HEADER_SIZE
    ensures s + HEADER_SIZE <= BlockEnd(s)
  {
    if BlockEnd(p) - p < HEADER_SIZE then BlockEnd(p) else p
  }

  // The payload that fits behind the header of that fragment.
  function Room(p: nat): nat {
    BlockEnd(Start(p)) - Start(p) - HEADER_SIZE
  }

  function Taken(p: nat, left: nat): nat {
    if left < Room(p) then left else Room(p)
  }

  function TypeOf(begin: bool, end: bool): nat {
    if begin && end then FULL_TYPE else if begin then FIRST_TYPE else if end then LAST_TYPE else MIDDLE_TYPE
  }

  function Zeros(n: nat): (z: seq<bv8>)
    ensures |z| == n
  {
    seq(n, i => 0)
  }

  // The next fragment of a record of which `data` is left.
  function Fragment(p: nat, data: seq<bv8>, begin: bool): (s: seq<bv8>)
    ensures |s| == Start(p) - p + HEADER_SIZE + Taken(p, |data|)
  {
    var n := Taken(p, |data|);
    Zeros(Start(p) - p) + Header(TypeOf(begin, n == |data|), data[..n]) + data[..n]
  }

  // All fragments of a record of which `data` is left, in a file that is `p` bytes long.
  function Record(p: nat, data: seq<bv8>, begin: bool): (s: seq<bv8>)
    ensures |s| >= HEADER_SIZE
    decreases |data|, if Room(p) == 0 then 1 else 0
  {
    var n := Taken(p, |data|);
    var s := Fragment(p, data, begin);
    if n == |data| then s else
      FragmentFillsBlock(p, data, begin);
      s + Record(p + |s|, data[n..], false)
  }

  lemma FragmentFillsBlock(p: nat, data: seq<bv8>, begin: bool)
    requires Taken(p, |data|) < |data|
    ensures p + |Fragment(p, data, begin)| == BlockEnd(Start(p))
    ensures Room(BlockEnd(Start(p))) > 0
  {
    var e := BlockEnd(Start(p));
    BlockEndIs(e, e + BLOCK_SIZE);
  }

  // The file that holds the given records, the first of them at `p`.
  function Records(p: nat, records: seq<seq<bv8>>): seq<bv8>
    decreases |records|
  {
    if records == [] then [] else
      var s := Record(p, records[0], true);
      s + Records(p + |s|, records[1..])
  }

  lemma {:induction false} RecordsAppend(p: nat, records: seq<seq<bv8>>, r: seq<bv8>)
    ensures Records(p, records + [r]) == Records(p, records) + Record(p + |Records(p, records)|, r, true)
    decreases |records|
  {
    hide Record;
    if records == [] {
      assert [r][1..] == [];
    } else {
      var s := Record(p, records[0], true);
      RecordsAppend(p + |s|, records[1..], r);
      assert (records + [r])[1..] == records[1..] + [r];
    }
  }

  class Writer {
    var dest: seq<bv8>
    var blockOffset: nat

    ghost predicate Valid()
      reads this
    {
      blockOffset <= BLOCK_SIZE && blockOffset % BLOCK_SIZE == |dest| % BLOCK_SIZE
    }

    // A writer that appends to a file with the given contents.
    constructor (contents: seq<bv8>)
      ensures Valid() && dest == contents
    {
      dest := contents;
      blockOffset := |contents| % BLOCK_SIZE;
    }

    method AddRecord(slice: seq<bv8>)
      requires Valid()
      modifies this
      ensures Valid()
      ensures dest == old(dest) + Record(|old(dest)|, slice, true)
    {
      hide Record, Fragment, Header, Start, Room, BlockEnd, Zeros;
      var left := slice;
      var begin := true;
      var more := true;
      while more
        invariant Valid()
        invariant more ==> old(dest) + Record(|old(dest)|, slice, true) == dest + Record(|dest|, left, begin)
        invariant !more ==> dest == old(dest) + Record(|old(dest)|, slice, true)
        decreases more, |left|, if Room(|dest|) == 0 then 1 else 0
      {
        ghost var before := dest;
        StartIs(|dest|, blockOffset);
        var leftover := BLOCK_SIZE - blockOffset;
        if leftover < HEADER_SIZE {
          if leftover > 0 {
            dest := dest + Zeros(leftover);
          }
          blockOffset := 0;
        }
        assert dest == before + Zeros(Start(|before|) - |before|);
        var avail := BLOCK_SIZE - blockOffset - HEADER_SIZE;
        var fragmentLength := if |left| < avail then |left| else avail;
        var end := |left| == fragmentLength;
        var t := if begin && end then FULL_TYPE
                 else if begin then FIRST_TYPE
                 else if end then LAST_TYPE
                 else MIDDLE_TYPE;
        EmitPhysicalRecord(t, left[..fragmentLength]);
        FragmentWritten(before, dest, left, begin);
        RecordUnfolds(before, left, begin);
        left := left[fragmentLength..];
        begin := false;
        more := |left| > 0;
      }
    }

    method EmitPhysicalRecord(t: nat, payload: seq<bv8>)
      requires Valid() && t < 256
      requires blockOffset + HEADER_SIZE + |payload| <= BLOCK_SIZE
      modifies this
      ensures Valid() && blockOffset == old(blockOffset) + HEADER_SIZE + |payload|
      ensures dest == old(dest) + Header(t, payload) + payload
    {
      hide Header;
      dest := dest + Header(t, payload);
      dest := dest + payload;
      blockOffset := blockOffset + HEADER_SIZE + |payload|;
    }
  }

  // The block offset that the writer keeps decides where the next fragment goes.
  lemma StartIs(p: nat, blockOffset: nat)
    requires blockOffset <= BLOCK_SIZE && blockOffset % BLOCK_SIZE == p % BLOCK_SIZE
    ensures BLOCK_SIZE - blockOffset < HEADER_SIZE ==>
              Start(p) == p + (BLOCK_SIZE - blockOffset) && Start(p) % BLOCK_SIZE == 0
    ensures BLOCK_SIZE - blockOffset < HEADER_SIZE ==> Room(p) == BLOCK_SIZE - HEADER_SIZE
    ensures BLOCK_SIZE - blockOffset >= HEADER_SIZE ==>
              Start(p) == p && Room(p) == BLOCK_SIZE - blockOffset - HEADER_SIZE
  {
    if blockOffset == BLOCK_SIZE {
      BlockEndIs(p, p + BLOCK_SIZE);
    } else {
      BlockEndIs(p, p + (BLOCK_SIZE - blockOffset));
      if BLOCK_SIZE - blockOffset < HEADER_SIZE {
        var s := p + (BLOCK_SIZE - blockOffset);
        BlockEndIs(s, s + BLOCK_SIZE);
      }
    }
  }

  lemma RecordUnfolds(file: seq<bv8>, data: seq<bv8>, begin: bool)
    ensures var p := |file|;
            var n := Taken(p, |data|);
            var after := file + Fragment(p, data, begin);
            && (n == |data| ==> file + Record(p, data, begin) == after)
            && (n < |data| ==>
               file + Record(p, data, begin) == after + Record(|after|, data[n..], false) && Room(|after|) > 0)
  {
    hide Fragment, Start, Room;
    var p := |file|;
    var s := Fragment(p, data, begin);
    if Taken(p, |data|) < |data| {
      FragmentFillsBlock(p, data, begin);
      var rest := Record(p + |s|, data[Taken(p, |data|)..], false);
      assert file + (s + rest) == (file + s) + rest;
    }
  }

  lemma FragmentWritten(before: seq<bv8>, after: seq<bv8>, data: seq<bv8>, begin: bool)
    requires var p := |before|;
             var n := Taken(p, |data|);
             after == before + Zeros(Start(p) - p) + Header(TypeOf(begin, n == |data|), data[..n]) + data[..n]
    ensures after == before + Fragment(|before|, data, begin)
  {
    hide Header, Zeros;
    var p := |before|;
    var n := Taken(p, |data|);
    var h := Header(TypeOf(begin, n == |data|), data[..n]);
    assert before + Zeros(Start(p) - p) + h + data[..n] == before + (Zeros(Start(p) - p) + h + data[..n]);
  }
}
