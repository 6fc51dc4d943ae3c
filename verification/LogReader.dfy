// log::Reader (db/log_reader.cc), reading from the start of the file with checksums verified, as
// the engine does.
module LogReader {
  import opened LogFormat
  import opened Options

  // ---------------------------------------------------------------------------------------------
  // What the reader finds in a file, as functions of the file and a position in it

  // One fragment: its type (or EOF or BAD_RECORD), the position after it, and the sizes of the
  // drops reported on the way.
  datatype PhysicalRead = PhysicalRead(kind: nat, payload: seq<bv8>, next: nat, drops: seq<nat>)

  // The end of the data that is buffered together with the byte at `at`.
  function DataEnd(file: seq<bv8>, at: nat): (e: nat)
    requires at <= |file|
    ensures at <= e <= |file| && e <= BlockEnd(at)
  {
    if BlockEnd(at) <= |file| then BlockEnd(at) else |file|
  }

  // The fragment at `at`, where the buffered data goes on to `e` and ends the file if `short`.
  function FragmentAt(file: seq<bv8>, at: nat, e: nat, short: bool): (r: PhysicalRead)
    requires at + HEADER_SIZE <= e <= |file|
    ensures r.next <= |file| && |r.payload| <= |file|
    ensures r.kind != EOF ==> at + HEADER_SIZE + |r.payload| <= r.next
  {
    var header := file[at..at + HEADER_SIZE];
    var length := StoredLength(header);
    if HEADER_SIZE + length > e - at then
      if short then PhysicalRead(EOF, [], e, []) else PhysicalRead(BAD_RECORD, [], e, [e - at])
    else if StoredType(header) == 0 && length == 0 then
      PhysicalRead(BAD_RECORD, [], e, [])
    else if ActualCrc(file[at + 6..at + HEADER_SIZE + length]) != StoredCrc(header) then
      PhysicalRead(BAD_RECORD, [], e, [e - at])
    else
      PhysicalRead(StoredType(header), file[at + HEADER_SIZE..at + HEADER_SIZE + length], at + HEADER_SIZE + length, [])
  }

  // The next fragment at or after `at`, past the trailer of a block.
  function NextPhysical(file: seq<bv8>, at: nat): (r: PhysicalRead)
    requires at <= |file|
    ensures r.next <= |file|
    ensures r.kind != EOF ==> at + HEADER_SIZE + |r.payload| <= r.next
    decreases |file| - at
  {
    var e := DataEnd(file, at);
    var short := e < BlockEnd(at);
    if e - at >= HEADER_SIZE then FragmentAt(file, at, e, short)
    else if short then PhysicalRead(EOF, [], e, [])
    else NextPhysical(file, e)
  }

  // What the reader has of a logical record, and where that record starts.
  datatype Assembly = Assembly(inFragmented: bool, scratch: seq<bv8>, offset: int)

  // What becomes of it with one more fragment.
  datatype Outcome =
    | Done(record: Option<seq<bv8>>, offset: int, drops: seq<nat>)
    | More(assembly: Assembly, drops: seq<nat>)

  function Assemble(a: Assembly, p: PhysicalRead): Outcome {
    var start := p.next - HEADER_SIZE - |p.payload|;
    var partial := if a.inFragmented && a.scratch != [] then [|a.scratch|] else [];
    if p.kind == FULL_TYPE then
      Done(Some(p.payload), start, p.drops + partial)
    else if p.kind == FIRST_TYPE then
      More(Assembly(true, p.payload, start), p.drops + partial)
    else if p.kind == MIDDLE_TYPE then
      if a.inFragmented then More(a.(scratch := a.scratch + p.payload), p.drops) else More(a, p.drops + [|p.payload|])
    else if p.kind == LAST_TYPE then
      if a.inFragmented then Done(Some(a.scratch + p.payload), a.offset, p.drops) else More(a, p.drops + [|p.payload|])
    else if p.kind == EOF then
      Done(None, a.offset, p.drops)
    else if p.kind == BAD_RECORD then
      if a.inFragmented then More(Assembly(false, [], a.offset), p.drops + [|a.scratch|]) else More(a, p.drops)
    else
      More(Assembly(false, [], a.offset), p.drops + [|p.payload| + if a.inFragmented then |a.scratch| else 0])
  }

  // One logical record, where its first fragment starts, the position after it, and the drops.
  datatype RecordRead = RecordRead(record: Option<seq<bv8>>, offset: int, next: nat, drops: seq<nat>)

  function NextRecord(file: seq<bv8>, at: nat, a: Assembly): (r: RecordRead)
    requires at <= |file|
    ensures r.next <= |file|
    ensures r.record.Some? ==> at < r.next
    decreases |file| - at
  {
    var p := NextPhysical(file, at);
    match Assemble(a, p)
    case Done(record, offset, drops) => RecordRead(record, offset, p.next, drops)
    case More(b, drops) =>
      var r := NextRecord(file, p.next, b);
      r.(drops := drops + r.drops)
  }

  // ---------------------------------------------------------------------------------------------
  // The reader, which holds one block in memory

  class Reader {
    const file: seq<bv8>
    var filePosition: nat        // of the SequentialFile
    var buffer: seq<bv8>
    var eof: bool
    var endOfBufferOffset: nat
    var lastRecordOffset: int
    var drops: seq<nat>          // sizes handed to the Reporter

    ghost predicate Valid()
      reads `filePosition, `buffer, `eof, `endOfBufferOffset
    {
      && filePosition == endOfBufferOffset <= |file|
      && |buffer| <= endOfBufferOffset
      && buffer == file[endOfBufferOffset - |buffer|..endOfBufferOffset]
      && (eof ==> endOfBufferOffset == |file| && |buffer| <= |file| % BLOCK_SIZE)
      && (!eof ==> endOfBufferOffset % BLOCK_SIZE == 0 && |buffer| <= BLOCK_SIZE)
    }

    // The position of the next byte that the reader will look at.
    ghost function At(): (at: nat)
      requires Valid()
      reads `filePosition, `buffer, `eof, `endOfBufferOffset
      ensures at <= |file|
    {
      endOfBufferOffset - |buffer|
    }

    constructor (file: seq<bv8>)
      ensures Valid() && this.file == file && At() == 0 && drops == []
    {
      this.file := file;
      filePosition, buffer, eof, endOfBufferOffset, lastRecordOffset, drops := 0, [], false, 0, 0, [];
    }

    // The next block of the file, or what there is of it.
    method ReadBlock()
      requires Valid() && !eof
      modifies this
      ensures Valid() && lastRecordOffset == old(lastRecordOffset) && drops == old(drops)
      ensures At() == old(endOfBufferOffset)
      ensures eof || filePosition > old(filePosition)
    {
      ShortBlock(|file|, endOfBufferOffset);
      var n := if |file| - filePosition < BLOCK_SIZE then |file| - filePosition else BLOCK_SIZE;
      buffer := file[filePosition..filePosition + n];
      filePosition := filePosition + n;
      endOfBufferOffset := endOfBufferOffset + |buffer|;
      if |buffer| < BLOCK_SIZE {
        eof := true;
      }
    }

    // ReadPhysicalRecord, until there is a header in the buffer.
    method FillBuffer() returns (ok: bool)
      requires Valid()
      modifies this
      ensures Valid() && lastRecordOffset == old(lastRecordOffset) && drops == old(drops)
      ensures ok ==> |buffer| >= HEADER_SIZE
      ensures var p := NextPhysical(file, old(At()));
              if ok then p == FragmentAt(file, At(), endOfBufferOffset, eof)
              else p == PhysicalRead(EOF, [], At(), [])
    {
      hide BlockEnd, FragmentAt, NextPhysical;
      while |buffer| < HEADER_SIZE
        invariant Valid() && lastRecordOffset == old(lastRecordOffset) && drops == old(drops)
        invariant NextPhysical(file, At()) == NextPhysical(file, old(At()))
        decreases !eof, |file| - filePosition
      {
        NextPhysicalIs(file, |buffer|, endOfBufferOffset, eof);
        if !eof {
          // The last read was a full one, so this is a block's trailer to skip.
          ReadBlock();
        } else {
          // A truncated header at the end of the file.
          buffer := [];
          return false;
        }
      }
      NextPhysicalIs(file, |buffer|, endOfBufferOffset, eof);
      return true;
    }

    method ReadPhysicalRecord() returns (kind: nat, result: seq<bv8>)
      requires Valid()
      modifies this
      ensures Valid() && lastRecordOffset == old(lastRecordOffset)
      ensures var p := NextPhysical(file, old(At()));
              kind == p.kind && result == p.payload && At() == p.next && drops == old(drops) + p.drops
    {
      hide NextPhysical, FragmentAt, Valid;
      var ok := FillBuffer();
      if !ok {
        return EOF, [];
      }
      kind, result := TakeFragment();
    }

    // Slice::clear and Slice::remove_prefix on the buffer.
    method Clear()
      requires Valid()
      modifies `buffer
      ensures Valid() && buffer == [] && At() == endOfBufferOffset
    {
      buffer := [];
    }

    method RemovePrefix(n: nat)
      requires Valid() && n <= |buffer|
      modifies `buffer
      ensures Valid() && buffer == old(buffer)[n..] && At() == old(At()) + n
    {
      SliceOfSlice(file, At(), endOfBufferOffset, n, |buffer|);
      buffer := buffer[n..];
    }

    lemma BufferIs()
      requires Valid()
      ensures |buffer| == endOfBufferOffset - At() && endOfBufferOffset <= |file|
      ensures buffer == file[At()..endOfBufferOffset]
    {
    }

    // ReadPhysicalRecord, once there is a header in the buffer.
    method TakeFragment() returns (kind: nat, result: seq<bv8>)
      requires Valid() && |buffer| >= HEADER_SIZE
      modifies this
      ensures Valid() && lastRecordOffset == old(lastRecordOffset)
      ensures var p := FragmentAt(file, old(At()), old(endOfBufferOffset), old(eof));
              kind == p.kind && result == p.payload && At() == p.next && drops == old(drops) + p.drops
    {
      hide StoredLength, StoredType, StoredCrc, ActualCrc, Valid, At;
      ghost var at := At();
      BufferIs();
      SliceOfSlice(file, at, endOfBufferOffset, 0, HEADER_SIZE);
      var header := buffer[..HEADER_SIZE];
      var length := StoredLength(header);
      if HEADER_SIZE + length > |buffer| {
        var dropSize := |buffer|;
        Clear();
        if !eof {
          drops := drops + [dropSize];
          return BAD_RECORD, [];
        }
        return EOF, [];
      }
      if StoredType(header) == 0 && length == 0 {
        Clear();
        return BAD_RECORD, [];
      }
      SliceOfSlice(file, at, endOfBufferOffset, 6, HEADER_SIZE + length);
      if ActualCrc(buffer[6..HEADER_SIZE + length]) != StoredCrc(header) {
        var dropSize := |buffer|;
        Clear();
        drops := drops + [dropSize];
        return BAD_RECORD, [];
      }
      result := buffer[HEADER_SIZE..HEADER_SIZE + length];
      SliceOfSlice(file, at, endOfBufferOffset, HEADER_SIZE, HEADER_SIZE + length);
      RemovePrefix(HEADER_SIZE + length);
      return StoredType(header), result;
    }

    method ReadRecord() returns (record: Option<seq<bv8>>)
      requires Valid()
      modifies this
      ensures Valid()
      ensures var r := NextRecord(file, old(At()), Assembly(false, [], 0));
              && record == r.record && At() == r.next && drops == old(drops) + r.drops
              && lastRecordOffset == if record.Some? then r.offset else old(lastRecordOffset)
    {
      hide NextPhysical, NextRecord, Valid;
      var scratch: seq<bv8> := [];
      var inFragmentedRecord := false;
      var prospectiveRecordOffset := 0;
      ghost var goal := NextRecord(file, At(), Assembly(false, [], 0));
      while true
        invariant Valid() && lastRecordOffset == old(lastRecordOffset)
        invariant var r := NextRecord(file, At(), Assembly(inFragmentedRecord, scratch, prospectiveRecordOffset));
                  goal == r.(drops := goal.drops) && old(drops) + goal.drops == drops + r.drops
        decreases |file| - At()
      {
        ghost var before := drops;
        ghost var assembly := Assembly(inFragmentedRecord, scratch, prospectiveRecordOffset);
        ghost var outcome := Assemble(assembly, NextPhysical(file, At()));
        NextRecordIs(file, At(), assembly);
        var kind, fragment := ReadPhysicalRecord();
        var physicalRecordOffset := endOfBufferOffset - |buffer| - HEADER_SIZE - |fragment|;
        if kind == FULL_TYPE {
          if inFragmentedRecord && scratch != [] {
            drops := drops + [|scratch|];
          }
          lastRecordOffset := physicalRecordOffset;
          return Some(fragment);
        } else if kind == FIRST_TYPE {
          if inFragmentedRecord && scratch != [] {
            drops := drops + [|scratch|];
          }
          prospectiveRecordOffset := physicalRecordOffset;
          scratch := fragment;
          inFragmentedRecord := true;
        } else if kind == MIDDLE_TYPE {
          if !inFragmentedRecord {
            drops := drops + [|fragment|];
          } else {
            scratch := scratch + fragment;
          }
        } else if kind == LAST_TYPE {
          if !inFragmentedRecord {
            drops := drops + [|fragment|];
          } else {
            scratch := scratch + fragment;
            lastRecordOffset := prospectiveRecordOffset;
            return Some(scratch);
          }
        } else if kind == EOF {
          return None;
        } else if kind == BAD_RECORD {
          if inFragmentedRecord {
            drops := drops + [|scratch|];
            inFragmentedRecord := false;
            scratch := [];
          }
        } else {
          drops := drops + [|fragment| + if inFragmentedRecord then |scratch| else 0];
          inFragmentedRecord := false;
          scratch := [];
        }
        assert outcome == More(Assembly(inFragmentedRecord, scratch, prospectiveRecordOffset), outcome.drops);
        assert drops == before + outcome.drops;
      }
    }
  }

  lemma NextRecordIs(file: seq<bv8>, at: nat, a: Assembly)
    requires at <= |file|
    ensures var p := NextPhysical(file, at);
            match Assemble(a, p)
            case Done(record, offset, drops) => NextRecord(file, at, a) == RecordRead(record, offset, p.next, drops)
            case More(b, drops) =>
              && at < p.next
              && NextRecord(file, at, a)
                 == NextRecord(file, p.next, b).(drops := drops + NextRecord(file, p.next, b).drops)
  {
    hide NextPhysical;
  }

  lemma SliceOfSlice(s: seq<bv8>, a: nat, b: nat, i: nat, j: nat)
    requires a <= b <= |s| && i <= j <= b - a
    ensures s[a..b][i..j] == s[a + i..a + j]
  {
    assert forall k :: 0 <= k < j - i ==> s[a..b][i..j][k] == s[a + i..a + j][k];
  }

  lemma ShortBlock(size: nat, end: nat)
    requires end <= size && end % BLOCK_SIZE == 0
    ensures size - end < BLOCK_SIZE ==> size % BLOCK_SIZE == size - end
    ensures (end + BLOCK_SIZE) % BLOCK_SIZE == 0
  {}

  // What is buffered is the rest of a block, or of the file when the last read was short.
  lemma BufferedBlock(size: nat, n: nat, end: nat, eof: bool)
    requires n <= end <= size
    requires eof ==> end == size && n <= size % BLOCK_SIZE
    requires !eof ==> end % BLOCK_SIZE == 0 && n <= BLOCK_SIZE
    ensures eof ==> size < BlockEnd(end - n)
    ensures !eof && n > 0 ==> BlockEnd(end - n) == end
  {
    if eof {
      BlockEndIs(end - n, size - size % BLOCK_SIZE + BLOCK_SIZE);
    } else if n > 0 {
      BlockEndIs(end - n, end);
    }
  }

  // The next fragment as far as the `n` bytes buffered before `end` tell.
  lemma NextPhysicalIs(file: seq<bv8>, n: nat, end: nat, eof: bool)
    requires n <= end <= |file|
    requires eof ==> end == |file| && n <= |file| % BLOCK_SIZE
    requires !eof ==> end % BLOCK_SIZE == 0 && n <= BLOCK_SIZE
    ensures n >= HEADER_SIZE ==> NextPhysical(file, end - n) == FragmentAt(file, end - n, end, eof)
    ensures n < HEADER_SIZE && eof ==> NextPhysical(file, end - n) == PhysicalRead(EOF, [], end, [])
    ensures n < HEADER_SIZE && !eof ==> NextPhysical(file, end - n) == NextPhysical(file, end)
  {
    hide FragmentAt;
    BufferedBlock(|file|, n, end, eof);
  }
}
