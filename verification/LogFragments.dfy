// What a log reader makes of any file, written by a log writer or not (db/log_reader.cc): which fragments it
// trusts, of which fragments a record consists, and what is reported as dropped.
module LogFragments {
  import opened Options
  import opened Crc32c
  import opened LogFormat
  import opened LogReader

  // ---------------------------------------------------------------------------------------------
  // Fragments that are trusted

  // `p` is the fragment at `s`: within one block, of the length and type in its header, and with its checksum.
  ghost predicate IsChecked(file: seq<bv8>, s: nat, p: PhysicalRead) {
    && s + 7 + |p.payload| == p.next <= |file| && p.payload == file[s + 7..p.next]
    && s / 32768 == (p.next - 1) / 32768
    && NatOf(file[s + 4]) + 256 * NatOf(file[s + 5]) == |p.payload|
    && Unmask(DecodeFixed32(file[s], file[s + 1], file[s + 2], file[s + 3])) == Checksum(0, file[s + 6..p.next])
    && (NatOf(file[s + 6]) < 128 ==> p.kind == NatOf(file[s + 6]))
  }

  // A payload that the reader takes from the file passes its checksum, type byte included.
  lemma OnlyCheckedBytesAreRead(file: seq<bv8>, at: nat) returns (s: nat)
    requires at <= |file| && NextPhysical(file, at).kind !in {5, 6}
    ensures at <= s && IsChecked(file, s, NextPhysical(file, at))
    decreases |file| - at
  {
    hide FragmentAt, IsChecked, BlockEnd;
    var e := DataEnd(file, at);
    if e - at >= HEADER_SIZE {
      s := at;
      FragmentIsChecked(file, at, e, e < BlockEnd(at));
    } else {
      s := OnlyCheckedBytesAreRead(file, e);
    }
  }

  lemma FragmentIsChecked(file: seq<bv8>, at: nat, e: nat, short: bool)
    requires at + 7 <= e <= |file| && e <= BlockEnd(at) && FragmentAt(file, at, e, short).kind !in {5, 6}
    ensures IsChecked(file, at, FragmentAt(file, at, e, short))
  {
    InBlock(at, e, FragmentAt(file, at, e, short).next - 1);
    hide Unmask, Checksum, DecodeFixed32, NatOf, BlockEnd;
    var header := file[at..at + 7];
    assert forall k :: 0 <= k < 7 ==> header[k] == file[at + k];
  }

  lemma InBlock(at: nat, e: nat, last: nat)
    requires at < e <= BlockEnd(at)
    ensures at <= last < e ==> at / 32768 == last / 32768
  {}

  // ---------------------------------------------------------------------------------------------
  // Records

  // Consecutive reads of fragments.
  ghost predicate Chain(file: seq<bv8>, at: nat, fs: seq<PhysicalRead>)
    requires at <= |file|
  {
    && fs != [] && fs[0] == NextPhysical(file, at)
    && forall k :: 0 <= k < |fs| - 1 ==> fs[k].next <= |file| && fs[k + 1] == NextPhysical(file, fs[k].next)
  }

  function Payloads(fs: seq<PhysicalRead>): seq<bv8> {
    if fs == [] then [] else fs[0].payload + Payloads(fs[1..])
  }

  // Fragments of type 3 and then one of type 4.
  predicate IsRest(fs: seq<PhysicalRead>) {
    fs != [] && fs[|fs| - 1].kind == 4 && forall k :: 0 <= k < |fs| - 1 ==> fs[k].kind == 3
  }

  // One fragment of type 1, or one of type 2 with the rest of its record.
  predicate IsWhole(fs: seq<PhysicalRead>) {
    fs != [] && if fs[0].kind == 1 then |fs| == 1 else fs[0].kind == 2 && IsRest(fs[1..])
  }

  // The record goes on from what has been assembled, or is whole at the end of the fragments.
  ghost predicate Spelled(a: Assembly, fs: seq<PhysicalRead>, record: seq<bv8>) {
    || (a.inFragmented && IsRest(fs) && record == a.scratch + Payloads(fs))
    || exists i :: 0 <= i < |fs| && IsWhole(fs[i..]) && record == Payloads(fs[i..])
  }

  lemma SpelledCons(a: Assembly, p: PhysicalRead, b: Assembly, drops: seq<nat>, fs: seq<PhysicalRead>,
                    record: seq<bv8>)
    requires Assemble(a, p) == More(b, drops) && Spelled(b, fs, record)
    ensures Spelled(a, [p] + fs, record)
  {
    var gs := [p] + fs;
    if i :| 0 <= i < |fs| && IsWhole(fs[i..]) && record == Payloads(fs[i..]) {
      hide IsWhole, Payloads;
      assert gs[i + 1..] == fs[i..];
    } else {
      FirstOfRest(a, p, b, drops, fs);
      assert gs[0..] == gs;
    }
  }

  lemma FirstOfRest(a: Assembly, p: PhysicalRead, b: Assembly, drops: seq<nat>, fs: seq<PhysicalRead>)
    requires Assemble(a, p) == More(b, drops) && b.inFragmented && IsRest(fs)
    ensures if p.kind == 2 then IsWhole([p] + fs) && b.scratch + Payloads(fs) == Payloads([p] + fs)
            else a.inFragmented && IsRest([p] + fs) && b.scratch + Payloads(fs) == a.scratch + Payloads([p] + fs)
  {
    assert ([p] + fs)[1..] == fs;
    assert Payloads([p] + fs) == p.payload + Payloads(fs);
  }

  lemma SpelledNow(a: Assembly, p: PhysicalRead, record: seq<bv8>, offset: int, drops: seq<nat>)
    requires Assemble(a, p) == Done(Some(record), offset, drops)
    ensures Spelled(a, [p], record)
  {
    assert [p][0..] == [p] && [p][1..] == [];
    assert p.payload + [] == p.payload;
  }

  // ---------------------------------------------------------------------------------------------
  // What is reported

  function Total(ns: seq<nat>): nat {
    if ns == [] then 0 else ns[0] + Total(ns[1..])
  }

  lemma {:induction false} TotalAdds(a: seq<nat>, b: seq<nat>)
    ensures Total(a + b) == Total(a) + Total(b)
  {
    if a == [] {
      assert a + b == b;
    } else {
      TotalAdds(a[1..], b);
      assert (a + b)[1..] == a[1..] + b;
    }
  }

  // The payload bytes of the fragments, and what their reads reported.
  function Bytes(fs: seq<PhysicalRead>): nat {
    if fs == [] then 0 else
      (if fs[0].kind in {5, 6} then 0 else |fs[0].payload|) + Total(fs[0].drops) + Bytes(fs[1..])
  }

  function Pending(a: Assembly): nat {
    if a.inFragmented then |a.scratch| else 0
  }

  // One fragment: its bytes are in the record, pending or reported, unless the end of the file leaves the pending.
  lemma OneFragmentAccounts(a: Assembly, p: PhysicalRead)
    ensures var bytes := Pending(a) + (if p.kind in {5, 6} then 0 else |p.payload|) + Total(p.drops);
      match Assemble(a, p)
      case More(b, drops) => bytes == Pending(b) + Total(drops)
      case Done(record, _, drops) =>
        if record.Some? then bytes == |record.value| + Total(drops)
        else bytes == Pending(a) + Total(drops) && p.kind == 5
  {
    hide Total;
    TotalAdds(p.drops, [|a.scratch|]);
    TotalAdds(p.drops, [|p.payload|]);
    TotalAdds(p.drops, [|p.payload| + Pending(a)]);
    TotalAdds(p.drops, []);
    OneTotal(|a.scratch|);
    OneTotal(|p.payload|);
    OneTotal(|p.payload| + Pending(a));
  }

  lemma OneTotal(n: nat)
    ensures Total([n]) == n && Total([]) == 0
  {
    assert [n][1..] == [];
  }

  // Any file, from any place on: a record that is returned consists of the payloads of consecutive fragments that
  // form a whole, and every byte of the fragments read on the way is in the record or reported as dropped.  Only
  // at the end of the file a record that is not finished goes without a report.
  lemma {:induction false} ReadsAreAccountedFor(file: seq<bv8>, at: nat, a: Assembly)
    returns (fs: seq<PhysicalRead>, lost: nat)
    requires at <= |file|
    ensures var r := NextRecord(file, at, a);
      && Chain(file, at, fs) && fs[|fs| - 1].next == r.next
      && (r.record.Some? ==> Spelled(a, fs, r.record.value) && lost == 0)
      && (r.record.None? ==> fs[|fs| - 1].kind == 5)
      && Pending(a) + Bytes(fs) == (if r.record.Some? then |r.record.value| else 0) + Total(r.drops) + lost
    decreases |file| - at
  {
    hide NextPhysical, Assemble, Spelled, Total, Pending;
    var p := NextPhysical(file, at);
    NextRecordIs(file, at, a);
    OneFragmentAccounts(a, p);
    OneBytes(p);
    match Assemble(a, p)
    case Done(record, offset, drops) =>
      fs := [p];
      lost := if record.Some? then 0 else Pending(a);
      if record.Some? {
        SpelledNow(a, p, record.value, offset, drops);
      }
    case More(b, drops) =>
      var rest, left := ReadsAreAccountedFor(file, p.next, b);
      fs, lost := [p] + rest, left;
      var r := NextRecord(file, p.next, b);
      TotalAdds(drops, r.drops);
      BytesCons(p, rest);
      if r.record.Some? {
        SpelledCons(a, p, b, drops, rest, r.record.value);
      }
  }

  lemma OneBytes(p: PhysicalRead)
    ensures Bytes([p]) == (if p.kind in {5, 6} then 0 else |p.payload|) + Total(p.drops)
  {
    assert [p][1..] == [];
  }

  lemma BytesCons(p: PhysicalRead, fs: seq<PhysicalRead>)
    ensures Bytes([p] + fs) == Bytes([p]) + Bytes(fs)
  {
    OneBytes(p);
    assert ([p] + fs)[1..] == fs;
  }

  // A record that ReadRecord returns is whole: one fragment of type 1, or those of types 2, 3 and 4 in order.
  lemma OnlyWholeRecordsAreReturned(file: seq<bv8>, at: nat) returns (fs: seq<PhysicalRead>)
    requires at <= |file| && NextRecord(file, at, Assembly(false, [], 0)).record.Some?
    ensures Chain(file, at, fs)
    ensures exists i :: 0 <= i < |fs| && IsWhole(fs[i..])
                        && NextRecord(file, at, Assembly(false, [], 0)).record.value == Payloads(fs[i..])
  {
    hide NextRecord, NextPhysical, Bytes, Total;
    var lost;
    fs, lost := ReadsAreAccountedFor(file, at, Assembly(false, [], 0));
  }
}
