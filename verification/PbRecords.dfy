/**
 What the nanopb decoder (pb_decode.c) makes of a message whose records come in any order and number: fields
 that come again or are missing, members of a oneof, arrays in pieces, and fields that the descriptor does not
 know, at every depth.
 */
module PbRecords {
  import opened Options
  import opened Coding
  import opened Nanopb
  import opened PbDecode
  import opened PbRoundTrip

  // ---- records -------------------------------------------------------------------------------------------

  /** The payload of a field of any of the four wire types. */
  datatype Payload = Number64(n: nat) | Eight(s: Bytes) | Prefixed(s: Bytes) | Four(s: Bytes)

  /** One record of a message: of field `i` of its descriptor, or of a field that it does not know. */
  datatype Record =
    | Single(i: nat, v: Value)
    | Packed(i: nat, items: seq<Value>)
    | Nested(i: nat, records: seq<Record>)
    | Unknown(tag: nat, payload: Payload)

  predicate GoodPayload(x: Payload) {
    match x
    case Number64(_) => true
    case Eight(s) => |s| == 8
    case Prefixed(s) => |s| < 0x1_0000_0000
    case Four(s) => |s| == 4
  }

  /** A value of the type of its field; submessages are given by their own records. */
  predicate GoodRecord(fields: seq<Field>, r: Record)
    decreases r
  {
    match r
    case Single(i, v) =>
      i < |fields| && !fields[i].ltype.SubMessage? && Typed(fields[i].ltype, v) && Fits(fields[i].ltype, v)
    case Packed(i, items) =>
      && i < |fields| && fields[i].htype.Repeated? && Packable(fields[i].ltype)
      && forall k :: 0 <= k < |items| ==> Typed(fields[i].ltype, items[k])
    case Nested(i, records) =>
      i < |fields| && fields[i].ltype.SubMessage? && GoodRecords(fields[i].ltype.fields, records)
    case Unknown(tag, payload) =>
      0 < tag < 0x2000_0000 && GoodPayload(payload) && forall k :: 0 <= k < |fields| ==> fields[k].tag != tag
  }

  predicate GoodRecords(fields: seq<Field>, rs: seq<Record>)
    decreases rs
  {
    forall k :: 0 <= k < |rs| ==> GoodRecord(fields, rs[k])
  }

  // ---- their bytes ---------------------------------------------------------------------------------------

  /** A tag with wire type 0, 1, 2 or 5, and the payload. */
  function PayloadBytes(tag: nat, x: Payload): Bytes {
    match x
    case Number64(n) => Varint(8 * tag) + Varint(n)
    case Eight(s) => Varint(8 * tag + 1) + s
    case Prefixed(s) => Varint(8 * tag + 2) + (Varint(|s|) + s)
    case Four(s) => Varint(8 * tag + 5) + s
  }

  function RecordBytes(fields: seq<Field>, r: Record): Bytes
    requires GoodRecord(fields, r)
    decreases r
  {
    match r
    case Single(i, v) => Tag(WireType(fields[i].ltype), fields[i].tag) + Encoded(fields[i].ltype, v)
    case Packed(i, items) =>
      Varint(8 * fields[i].tag + 2) + LengthPrefixed(EncodedItems(fields[i], items, |items|, false))
    case Nested(i, records) =>
      Varint(8 * fields[i].tag + 2) + LengthPrefixed(RecordsBytes(fields[i].ltype.fields, records))
    case Unknown(tag, payload) => PayloadBytes(tag, payload)
  }

  function RecordsBytes(fields: seq<Field>, rs: seq<Record>): Bytes
    requires GoodRecords(fields, rs)
    decreases rs
  {
    if rs == [] then [] else
      RecordsBytes(fields, rs[..|rs| - 1]) + RecordBytes(fields, rs[|rs| - 1])
  }

  // ---- their meaning -------------------------------------------------------------------------------------

  /** The structure that a submessage is merged into: the one that is there, but a new one for a new item. */
  function Existing(f: Field, s: Slot): (r: seq<Slot>)
    requires f.ltype.SubMessage?
    ensures |r| == |f.ltype.fields|
  {
    match s
    case One(Struct(slots)) =>
      if |slots| == |f.ltype.fields| && !f.htype.Repeated? then slots else DefaultSlots(f.ltype.fields)
    case Maybe(Some(Struct(slots))) =>
      if |slots| == |f.ltype.fields| && !f.htype.Repeated? then slots else DefaultSlots(f.ltype.fields)
    case _ => DefaultSlots(f.ltype.fields)
  }

  /** `more` at the end of an array, if there is room. */
  function Appended(s: Slot, more: seq<Value>, room: nat): Option<Slot> {
    var items := if s.Many? then s.items else [];
    if more == [] || |items| + |more| <= room then Some(Many(items + more)) else None
  }

  /** A value comes in: in place of the one before, as the only member of its oneof, or at the end of its array. */
  function Put(fields: seq<Field>, slots: seq<Slot>, i: nat, v: Value): (r: Option<seq<Slot>>)
    requires |slots| == |fields| && i < |fields|
    ensures r.Some? ==> |r.value| == |fields|
  {
    match fields[i].htype
    case Required => Some(slots[i := One(v)])
    case Optional => Some(slots[i := Maybe(Some(v))])
    case OneOf(group) =>
      Some(seq(|fields|, j requires 0 <= j < |fields| =>
        if j == i then Maybe(Some(v)) else if fields[j].htype == OneOf(group) then Maybe(None) else slots[j]))
    case Repeated(room) =>
      var s := Appended(slots[i], [v], room);
      if s.None? then None else Some(slots[i := s.value])
  }

  /** A string that fills its array leaves no room for its end. */
  predicate HasRoom(t: LType, v: Value) {
    t.StringType? && v.Blob? ==> |v.s| < t.capacity
  }

  ghost function ReadRecord(fields: seq<Field>, r: Record, slots: seq<Slot>): (s: Option<seq<Slot>>)
    requires GoodRecord(fields, r) && |slots| == |fields|
    ensures s.Some? ==> |s.value| == |fields|
    decreases r, 0
  {
    match r
    case Single(i, v) => if HasRoom(fields[i].ltype, v) then Put(fields, slots, i, v) else None
    case Packed(i, items) =>
      var s := Appended(slots[i], items, fields[i].htype.arraySize);
      if s.None? then None else Some(slots[i := s.value])
    case Nested(i, records) =>
      var m := ReadMessage(fields[i].ltype.fields, records, Existing(fields[i], slots[i]));
      if m.None? then None else Put(fields, slots, i, Struct(m.value))
    case Unknown(_, _) => Some(slots)
  }

  ghost function ReadRecords(fields: seq<Field>, rs: seq<Record>, slots: seq<Slot>): (s: Option<seq<Slot>>)
    requires GoodRecords(fields, rs) && |slots| == |fields|
    ensures s.Some? ==> |s.value| == |fields|
    decreases rs, 0
  {
    if rs == [] then Some(slots) else
      var s := ReadRecords(fields, rs[..|rs| - 1], slots);
      if s.None? then None else ReadRecord(fields, rs[|rs| - 1], s.value)
  }

  /** The fields with a record. */
  ghost function Present(rs: seq<Record>): set<nat> {
    set k | 0 <= k < |rs| && !rs[k].Unknown? :: rs[k].i
  }

  ghost function RequiredBefore(fields: seq<Field>, i: nat): set<nat>
    requires i <= |fields|
  {
    set k: nat | k < i && fields[k].htype.Required?
  }

  /** No required field is missing; those behind 64 others are not asked for. */
  ghost predicate NoneMissing(fields: seq<Field>, present: set<nat>) {
    forall i: nat :: i < |fields| && fields[i].htype.Required? && |RequiredBefore(fields, i)| < 64 ==> i in present
  }

  /** The message that the records make of a structure, if they make one. */
  ghost function ReadMessage(fields: seq<Field>, rs: seq<Record>, slots: seq<Slot>): (s: Option<seq<Slot>>)
    requires GoodRecords(fields, rs) && |slots| == |fields|
    ensures s.Some? ==> |s.value| == |fields|
    decreases rs, 1
  {
    if NoneMissing(fields, Present(rs)) then ReadRecords(fields, rs, slots) else None
  }

  // ---- the required fields -------------------------------------------------------------------------------

  lemma {:induction false} RequiredCount(fields: seq<Field>, i: nat)
    requires i <= |fields|
    ensures |RequiredBefore(fields, i)| == RequiredIndex(fields, i)
  {
    if i == 0 {
      assert RequiredBefore(fields, 0) == {};
    } else {
      RequiredCount(fields, i - 1);
      assert RequiredBefore(fields, i)
          == RequiredBefore(fields, i - 1) + if fields[i - 1].htype.Required? then {i - 1} else {};
    }
  }

  lemma {:induction false} IndexGrows(fields: seq<Field>, i: nat, j: nat)
    requires i < j <= |fields|
    ensures RequiredIndex(fields, i) + (if fields[i].htype.Required? then 1 else 0) <= RequiredIndex(fields, j)
  {
    if i + 1 < j {
      IndexGrows(fields, i, j - 1);
    }
  }

  lemma {:induction false} IndexReached(fields: seq<Field>, n: nat, r: nat) returns (i: nat)
    requires n <= |fields| && r < RequiredIndex(fields, n)
    ensures i < n && fields[i].htype.Required? && RequiredIndex(fields, i) == r
  {
    if r < RequiredIndex(fields, n - 1) {
      i := IndexReached(fields, n - 1, r);
    } else {
      i := n - 1;
    }
  }

  /** The bits that the decoder has set when the fields of `present` have come. */
  ghost function Tracked(fields: seq<Field>, present: set<nat>): set<nat> {
    set i | i in present && i < |fields| && fields[i].htype.Required? && RequiredIndex(fields, i) < MAX_REQUIRED_FIELDS
      :: RequiredIndex(fields, i)
  }

  lemma TrackedNext(fields: seq<Field>, present: set<nat>, i: nat)
    requires i < |fields|
    ensures Tracked(fields, present + {i})
         == if fields[i].htype.Required? && RequiredIndex(fields, i) < MAX_REQUIRED_FIELDS
            then Tracked(fields, present) + {RequiredIndex(fields, i)} else Tracked(fields, present)
  {
    hide RequiredIndex;
  }

  /** The check of the bits finds every required field that is missing, as far as fields are tracked. */
  lemma TrackedIffPresent(fields: seq<Field>, present: set<nat>)
    ensures AllSeen(fields, Tracked(fields, present)) <==> NoneMissing(fields, present)
  {
    hide RequiredIndex, RequiredBefore;
    var seen := Tracked(fields, present);
    if NoneMissing(fields, present) {
      forall r: nat | r < RequiredIndex(fields, |fields|) && r < MAX_REQUIRED_FIELDS
        ensures r in seen
      {
        var i := IndexReached(fields, |fields|, r);
        RequiredCount(fields, i);
      }
    }
    if AllSeen(fields, seen) {
      forall i: nat | i < |fields| && fields[i].htype.Required? && |RequiredBefore(fields, i)| < 64
        ensures i in present
      {
        RequiredCount(fields, i);
        IndexGrows(fields, i, |fields|);
        assert RequiredIndex(fields, i) in seen;
        var k :| k in present && k < |fields| && fields[k].htype.Required?
                 && RequiredIndex(fields, k) == RequiredIndex(fields, i);
        if k < i {
          IndexGrows(fields, k, i);
        } else if i < k {
          IndexGrows(fields, i, k);
        }
      }
    }
  }

  // ---- one record of a known field -----------------------------------------------------------------------

  lemma PutIsWritten(fields: seq<Field>, slots: seq<Slot>, i: nat, v: Value)
    requires |slots| == |fields| && i < |fields|
    ensures fields[i].htype.Required? ==> Put(fields, slots, i, v) == Some(WithSlot(fields, slots, i, One(v)))
    ensures fields[i].htype.Optional? || fields[i].htype.OneOf? ==>
              Put(fields, slots, i, v) == Some(WithSlot(fields, slots, i, Maybe(Some(v))))
    ensures fields[i].htype.Repeated? ==> forall s :: WithSlot(fields, slots, i, s) == slots[i := s]
  {
    if fields[i].htype.Repeated? {
      forall s
        ensures WithSlot(fields, slots, i, s) == slots[i := s]
      {
        assert forall j :: 0 <= j < |fields| ==> WithSlot(fields, slots, i, s)[j] == slots[i := s][j];
      }
    } else {
      var s := if fields[i].htype.Required? then One(v) else Maybe(Some(v));
      var w, r := WithSlot(fields, slots, i, s), Put(fields, slots, i, v).value;
      assert forall j :: 0 <= j < |fields| ==> w[j] == r[j];
      assert w == r;
    }
  }

  /** What is decoded for a field, given what its value is decoded to. */
  lemma SlotDecodes(fields: seq<Field>, i: nat, wireType: nat, src: Bytes, p: nat, end: nat, slots: seq<Slot>,
                    v: Option<Value>, next: nat)
    requires p <= end <= |src| && |slots| == |fields| && i < |fields|
    requires !(wireType == WT_STRING && Packable(fields[i].ltype))
    requires DecodeValue(fields[i].ltype, src, p, end, if fields[i].htype.Repeated?
               then DefaultValue(fields[i].ltype, fields[i].initial) else OldValue(fields[i], slots[i]))
               == if v.None? then None else Some((v.value, next))
    ensures var d := DecodeSlot(fields[i], wireType, src, p, end, slots[i]);
            var r := if v.None? then None else Put(fields, slots, i, v.value);
            if r.None? then d.None?
            else d.Some? && d.value.1 == next && WithSlot(fields, slots, i, d.value.0) == r.value
  {
    hide DecodeValue, WithSlot, DefaultValue, OldValue;
    if v.Some? {
      PutIsWritten(fields, slots, i, v.value);
    }
  }

  /** The next step of decoding a message, in terms of the fields present. */
  lemma KnownStep(fields: seq<Field>, i: nat, src: Bytes, p: nat, end: nat, wireType: nat, slots: seq<Slot>,
                  present: set<nat>, s: Option<seq<Slot>>, next: nat)
    requires GoodFields(fields) && i < |fields| && wireType < 8 && |slots| == |fields|
    requires At(src, p, Tag(wireType, fields[i].tag)) && p + |Tag(wireType, fields[i].tag)| <= end <= |src|
    requires var d := DecodeSlot(fields[i], wireType, src, p + |Tag(wireType, fields[i].tag)|, end, slots[i]);
             if s.None? then d.None?
             else d.Some? && d.value.1 == next && WithSlot(fields, slots, i, d.value.0) == s.value
    ensures s.Some? ==> next <= end && |s.value| == |fields|
    ensures DecodeFields(fields, src, p, end, slots, Tracked(fields, present))
         == if s.None? then None
            else DecodeFields(fields, src, next, end, s.value, Tracked(fields, present + {i}))
  {
    hide At, Tag, DecodeSlot, DecodeFields, WithSlot, Tracked, RequiredIndex, GoodFields;
    TrackedNext(fields, present, i);
    FieldStep(fields, i, src, p, end, wireType, slots, Tracked(fields, present),
              DecodeSlot(fields[i], wireType, src, p + |Tag(wireType, fields[i].tag)|, end, slots[i]));
  }

  lemma ScalarReads(t: LType, v: Value, src: Bytes, p: nat, end: nat, old_: Value)
    requires !t.SubMessage? && Typed(t, v) && Fits(t, v) && |Encoded(t, v)| < TWO32
    requires At(src, p, Encoded(t, v)) && p + |Encoded(t, v)| <= end <= |src|
    ensures DecodeValue(t, src, p, end, old_) == if HasRoom(t, v) then Some((v, p + |Encoded(t, v)|)) else None
  {
    hide At, Varint, DecodeScalar, Fixed;
    if Packable(t) {
      NumberReads(t, v, src, p, end);
    } else {
      BlobReads(t, v, src, p, end);
    }
  }

  lemma SingleStep(fields: seq<Field>, r: Record, src: Bytes, p: nat, end: nat, slots: seq<Slot>, present: set<nat>)
    requires r.Single? && GoodFields(fields) && GoodRecord(fields, r) && |slots| == |fields|
    requires |RecordBytes(fields, r)| < TWO32
    requires At(src, p, RecordBytes(fields, r)) && p + |RecordBytes(fields, r)| <= end <= |src|
    ensures DecodeFields(fields, src, p, end, slots, Tracked(fields, present))
         == var s := ReadRecord(fields, r, slots);
            if s.None? then None
            else DecodeFields(fields, src, p + |RecordBytes(fields, r)|, end, s.value, Tracked(fields, present + {r.i}))
  {
    hide At, Tag, Encoded, Typed, Fits, DecodeValue, DecodeFields, DecodeSlot, WithSlot, Put, Tracked, GoodFields,
         HasRoom, OldValue, DefaultValue, Packable;
    var f, v := fields[r.i], r.v;
    var tag := Tag(WireType(f.ltype), f.tag);
    AtParts(src, p, tag, Encoded(f.ltype, v));
    var old_ := if f.htype.Repeated? then DefaultValue(f.ltype, f.initial) else OldValue(f, slots[r.i]);
    ScalarReads(f.ltype, v, src, p + |tag|, end, old_);
    NumbersAreNotStrings(f.ltype);
    var next := p + |tag| + |Encoded(f.ltype, v)|;
    SlotDecodes(fields, r.i, WireType(f.ltype), src, p + |tag|, end, slots,
                if HasRoom(f.ltype, v) then Some(v) else None, next);
    KnownStep(fields, r.i, src, p, end, WireType(f.ltype), slots, present, ReadRecord(fields, r, slots), next);
  }

  lemma NumbersAreNotStrings(t: LType)
    ensures WireType(t) < 8 && !(WireType(t) == WT_STRING && Packable(t))
  {
  }

  // ---- packed arrays -------------------------------------------------------------------------------------

  /** The first `n` items of a packed array go behind those that are there. */
  lemma {:induction false} PackedOnto(f: Field, items: seq<Value>, base: seq<Value>, src: Bytes, p: nat, end: nat,
                                      n: nat)
    requires f.htype.Repeated? && Packable(f.ltype) && n <= |items|
    requires n == 0 || |base| + n <= f.htype.arraySize
    requires forall j :: 0 <= j < |items| ==> Typed(f.ltype, items[j])
    requires At(src, p, EncodedItems(f, items, |items|, false))
               && p + |EncodedItems(f, items, |items|, false)| == end <= |src|
    ensures p + |EncodedItems(f, items, n, false)| <= end
    ensures n < |items| ==> p + |EncodedItems(f, items, n, false)| < end
    ensures DecodePacked(f, src, p, end, base)
              == DecodePacked(f, src, p + |EncodedItems(f, items, n, false)|, end, base + items[..n])
  {
    hide Encoded, Typed, At, DecodeScalar, EncodedItems, Packable;
    if n < |items| {
      ItemAt(f, items, n, false, src, p);
      NotEmpty(f.ltype, items[n]);
    }
    if n == 0 {
      NoItems(f, items);
      assert base + items[..0] == base;
    } else {
      PackedOnto(f, items, base, src, p, end, n - 1);
      ItemAt(f, items, n - 1, false, src, p);
      var q := p + |EncodedItems(f, items, n - 1, false)|;
      assert [] + Encoded(f.ltype, items[n - 1]) == Encoded(f.ltype, items[n - 1]);
      NumberReads(f.ltype, items[n - 1], src, q, end);
      NotEmpty(f.ltype, items[n - 1]);
      assert (base + items[..n - 1]) + [items[n - 1]] == base + items[..n];
    }
  }

  /** A packed array is read as a whole or turned down. */
  lemma PackedReadsOnto(f: Field, items: seq<Value>, s: Slot, src: Bytes, p: nat, end: nat)
    requires f.htype.Repeated? && Packable(f.ltype)
    requires forall j :: 0 <= j < |items| ==> Typed(f.ltype, items[j])
    requires At(src, p, EncodedItems(f, items, |items|, false))
               && p + |EncodedItems(f, items, |items|, false)| == end <= |src|
    ensures var r := Appended(s, items, f.htype.arraySize);
            DecodePacked(f, src, p, end, if s.Many? then s.items else [])
              == if r.None? then None else Some(r.value.items)
  {
    hide Encoded, Typed, At, DecodeScalar, EncodedItems, Packable;
    var base := if s.Many? then s.items else [];
    var room := f.htype.arraySize;
    if items == [] || |base| + |items| <= room {
      PackedOnto(f, items, base, src, p, end, |items|);
      assert items[..|items|] == items;
    } else {
      var n := if |base| <= room then room - |base| else 0;
      PackedOnto(f, items, base, src, p, end, n);
    }
  }

  lemma PackedStep(fields: seq<Field>, r: Record, src: Bytes, p: nat, end: nat, slots: seq<Slot>, present: set<nat>)
    requires r.Packed? && GoodFields(fields) && GoodRecord(fields, r) && |slots| == |fields|
    requires |RecordBytes(fields, r)| < TWO32
    requires At(src, p, RecordBytes(fields, r)) && p + |RecordBytes(fields, r)| <= end <= |src|
    ensures DecodeFields(fields, src, p, end, slots, Tracked(fields, present))
         == var s := ReadRecord(fields, r, slots);
            if s.None? then None
            else DecodeFields(fields, src, p + |RecordBytes(fields, r)|, end, s.value, Tracked(fields, present + {r.i}))
  {
    hide At, EncodedItems, Typed, Fits, Varint, Varint32, DecodeFields, DecodePacked, WithSlot, Tracked, GoodFields,
         Appended, Packable;
    var f, items := fields[r.i], r.items;
    var tag, body := Tag(WT_STRING, f.tag), EncodedItems(f, items, |items|, false);
    AtParts(src, p, tag, LengthPrefixed(body));
    AtParts(src, p + |tag|, Varint(|body|), body);
    Varint32Reads(src, p + |tag|, end, |body|);
    var start := p + |tag| + |Varint(|body|)|;
    PackedReadsOnto(f, items, slots[r.i], src, start, start + |body|);
    AppendedIsMany(slots[r.i], items, f.htype.arraySize);
    PutIsWritten(fields, slots, r.i, Flag(true));
    KnownStep(fields, r.i, src, p, end, WT_STRING, slots, present, ReadRecord(fields, r, slots), start + |body|);
  }

  lemma AppendedIsMany(s: Slot, more: seq<Value>, room: nat)
    ensures Appended(s, more, room).Some? ==> Appended(s, more, room).value.Many?
  {
  }

  // ---- unknown fields ------------------------------------------------------------------------------------

  lemma {:induction false} VarintIsSkipped(src: Bytes, p: nat, end: nat, n: nat)
    requires At(src, p, Varint(n)) && p + |Varint(n)| <= end <= |src|
    ensures SkipVarint(src, p, end) == Some(p + |Varint(n)|)
    decreases n
  {
    hide Varint;
    if n < 128 {
      LastDigit(src, p, n);
    } else {
      NextDigit(src, p, n);
      VarintIsSkipped(src, p + 1, end, n / 128);
    }
  }

  /** The wire type of a payload. */
  function Code(x: Payload): nat {
    match x
    case Number64(_) => 0
    case Eight(_) => 1
    case Prefixed(_) => 2
    case Four(_) => 5
  }

  function Content(x: Payload): Bytes {
    match x
    case Number64(n) => Varint(n)
    case Eight(s) => s
    case Prefixed(s) => Varint(|s|) + s
    case Four(s) => s
  }

  lemma ContentIsSkipped(x: Payload, src: Bytes, p: nat, end: nat)
    requires GoodPayload(x) && At(src, p, Content(x)) && p + |Content(x)| <= end <= |src|
    ensures SkipField(Code(x), src, p, end) == Some(p + |Content(x)|)
  {
    hide At, Varint, SkipVarint, Blob32;
    match x
    case Number64(n) => VarintIsSkipped(src, p, end, n);
    case Eight(_) =>
    case Prefixed(s) => Blob32Reads(src, p, end, s);
    case Four(_) =>
  }

  /** A tag that the descriptor does not have. */
  lemma UnknownTagReads(fields: seq<Field>, tag: nat, code: nat, src: Bytes, p: nat, end: nat)
    requires 0 < tag < 0x2000_0000 && code < 8 && forall k :: 0 <= k < |fields| ==> fields[k].tag != tag
    requires At(src, p, Varint(8 * tag + code)) && p + |Varint(8 * tag + code)| <= end <= |src|
    ensures Varint32(src, p, end) == Some((8 * tag + code, p + |Varint(8 * tag + code)|))
    ensures FindField(fields, tag) == |fields|
  {
    hide Varint32, Varint, At;
    Varint32Reads(src, p, end, 8 * tag + code);
  }

  lemma UnknownStep(fields: seq<Field>, tag: nat, x: Payload, src: Bytes, p: nat, end: nat, slots: seq<Slot>,
                    seen: set<nat>)
    requires 0 < tag < 0x2000_0000 && GoodPayload(x) && forall k :: 0 <= k < |fields| ==> fields[k].tag != tag
    requires |slots| == |fields|
    requires At(src, p, PayloadBytes(tag, x)) && p + |PayloadBytes(tag, x)| <= end <= |src|
    ensures DecodeFields(fields, src, p, end, slots, seen)
         == DecodeFields(fields, src, p + |PayloadBytes(tag, x)|, end, slots, seen)
  {
    hide Varint, At, SkipField, Content, PayloadBytes, DecodeFields;
    var key := Varint(8 * tag + Code(x));
    assert PayloadBytes(tag, x) == key + Content(x) by { PayloadParts(tag, x); }
    AtParts(src, p, key, Content(x));
    UnknownTagReads(fields, tag, Code(x), src, p, end);
    ContentIsSkipped(x, src, p + |key|, end);
    PassedOver(fields, tag, Code(x), src, p, p + |key|, end, slots, seen);
  }

  /** A field that is not found is skipped by its wire type. */
  lemma PassedOver(fields: seq<Field>, tag: nat, code: nat, src: Bytes, p: nat, q: nat, end: nat, slots: seq<Slot>,
                   seen: set<nat>)
    requires tag > 0 && code < 8 && p < q <= end <= |src| && |slots| == |fields|
    requires Varint32(src, p, end) == Some((8 * tag + code, q)) && FindField(fields, tag) == |fields|
    ensures DecodeFields(fields, src, p, end, slots, seen)
         == var next := SkipField(code, src, q, end);
            if next.None? then None else DecodeFields(fields, src, next.value, end, slots, seen)
  {
    hide Varint32, SkipField, FindField, DecodeSlot, DecodeScalar, WithSlot, RequiredIndex;
    assert (8 * tag + code) / 8 == tag && (8 * tag + code) % 8 == code;
  }

  lemma PayloadParts(tag: nat, x: Payload)
    ensures PayloadBytes(tag, x) == Varint(8 * tag + Code(x)) + Content(x)
  {
    hide Varint;
  }

  // ---- submessages and messages --------------------------------------------------------------------------

  lemma ExistingIsOld(f: Field, s: Slot)
    requires f.ltype.SubMessage?
    ensures OldSlots(f.ltype.fields, if f.htype.Repeated? then DefaultValue(f.ltype, f.initial) else OldValue(f, s))
         == Existing(f, s)
  {
    hide DefaultSlots;
  }

  lemma NestedStep(fields: seq<Field>, r: Record, src: Bytes, p: nat, end: nat, slots: seq<Slot>, present: set<nat>)
    requires r.Nested? && GoodFields(fields) && GoodRecord(fields, r) && |slots| == |fields|
    requires |RecordBytes(fields, r)| < TWO32
    requires At(src, p, RecordBytes(fields, r)) && p + |RecordBytes(fields, r)| <= end <= |src|
    ensures DecodeFields(fields, src, p, end, slots, Tracked(fields, present))
         == var s := ReadRecord(fields, r, slots);
            if s.None? then None
            else DecodeFields(fields, src, p + |RecordBytes(fields, r)|, end, s.value, Tracked(fields, present + {r.i}))
    decreases r, 0
  {
    hide At, Varint, Varint32, DecodeFields, DecodeSlot, WithSlot, Put, Tracked, GoodFields, GoodRecords, RecordsBytes,
         ReadMessage, Existing, OldValue, DefaultValue, OldSlots, Packable;
    var f := fields[r.i];
    FieldIsGood(fields, r.i);
    var tag, body := Tag(WT_STRING, f.tag), RecordsBytes(f.ltype.fields, r.records);
    AtParts(src, p, tag, LengthPrefixed(body));
    AtParts(src, p + |tag|, Varint(|body|), body);
    Varint32Reads(src, p + |tag|, end, |body|);
    var start := p + |tag| + |Varint(|body|)|;
    var old_ := if f.htype.Repeated? then DefaultValue(f.ltype, f.initial) else OldValue(f, slots[r.i]);
    ExistingIsOld(f, slots[r.i]);
    MessageReads(f.ltype.fields, r.records, src, start, start + |body|, Existing(f, slots[r.i]));
    var m := ReadMessage(f.ltype.fields, r.records, Existing(f, slots[r.i]));
    MessagesAreNotPacked(f.ltype);
    SlotDecodes(fields, r.i, WT_STRING, src, p + |tag|, end, slots, if m.None? then None else Some(Struct(m.value)),
                start + |body|);
    KnownStep(fields, r.i, src, p, end, WT_STRING, slots, present, ReadRecord(fields, r, slots), start + |body|);
  }

  lemma FieldIsGood(fields: seq<Field>, i: nat)
    requires GoodFields(fields) && i < |fields|
    ensures fields[i].ltype.SubMessage? ==> GoodFields(fields[i].ltype.fields)
  {
    assert GoodField(fields[i]);
    TypeIsGood(fields[i].ltype);
  }

  lemma TypeIsGood(t: LType)
    requires GoodType(t)
    ensures t.SubMessage? ==> GoodFields(t.fields)
  {
  }

  lemma MessagesAreNotPacked(t: LType)
    requires t.SubMessage?
    ensures !Packable(t)
  {
  }

  lemma RecordStep(fields: seq<Field>, r: Record, src: Bytes, p: nat, end: nat, slots: seq<Slot>, present: set<nat>)
    requires GoodFields(fields) && GoodRecord(fields, r) && |slots| == |fields|
    requires |RecordBytes(fields, r)| < TWO32
    requires At(src, p, RecordBytes(fields, r)) && p + |RecordBytes(fields, r)| <= end <= |src|
    ensures DecodeFields(fields, src, p, end, slots, Tracked(fields, present))
         == var s := ReadRecord(fields, r, slots);
            if s.None? then None
            else DecodeFields(fields, src, p + |RecordBytes(fields, r)|, end, s.value,
                              Tracked(fields, present + if r.Unknown? then {} else {r.i}))
    decreases r, 1
  {
    hide At, DecodeFields, Tracked, GoodFields;
    match r
    case Single(_, _) => SingleStep(fields, r, src, p, end, slots, present);
    case Packed(_, _) => PackedStep(fields, r, src, p, end, slots, present);
    case Nested(_, _) => NestedStep(fields, r, src, p, end, slots, present);
    case Unknown(tag, x) =>
      assert present + {} == present;
      UnknownStep(fields, tag, x, src, p, end, slots, Tracked(fields, present));
  }

  lemma PresentSnoc(rs: seq<Record>)
    requires rs != []
    ensures var r := rs[|rs| - 1];
            Present(rs) == Present(rs[..|rs| - 1]) + if r.Unknown? then {} else {r.i}
  {
    var r, init := rs[|rs| - 1], rs[..|rs| - 1];
    forall i | i in Present(rs)
      ensures i in Present(init) || (!r.Unknown? && i == r.i)
    {
      var k :| 0 <= k < |rs| && !rs[k].Unknown? && rs[k].i == i;
      if k < |init| {
        assert init[k] == rs[k];
      }
    }
    forall i | i in Present(init)
      ensures i in Present(rs)
    {
      var k :| 0 <= k < |init| && !init[k].Unknown? && init[k].i == i;
      assert rs[k] == init[k];
    }
  }

  lemma GoodParts(fields: seq<Field>, rs: seq<Record>)
    requires GoodRecords(fields, rs) && rs != []
    ensures GoodRecords(fields, rs[..|rs| - 1]) && GoodRecord(fields, rs[|rs| - 1])
    ensures RecordsBytes(fields, rs) == RecordsBytes(fields, rs[..|rs| - 1]) + RecordBytes(fields, rs[|rs| - 1])
  {
    hide RecordBytes, GoodRecord;
  }

  /** Any records, wherever they stand in a message: decoding goes on behind them with what they make of it. */
  lemma {:induction false} RecordsStep(fields: seq<Field>, rs: seq<Record>, src: Bytes, p: nat, end: nat,
                                       slots: seq<Slot>)
    requires GoodFields(fields) && GoodRecords(fields, rs) && |slots| == |fields|
    requires |RecordsBytes(fields, rs)| < TWO32
    requires At(src, p, RecordsBytes(fields, rs)) && p + |RecordsBytes(fields, rs)| <= end <= |src|
    ensures DecodeFields(fields, src, p, end, slots, {})
         == var s := ReadRecords(fields, rs, slots);
            if s.None? then None
            else DecodeFields(fields, src, p + |RecordsBytes(fields, rs)|, end, s.value, Tracked(fields, Present(rs)))
    decreases rs, 0
  {
    hide At, DecodeFields, GoodFields, GoodRecord, RecordBytes, ReadRecord, Tracked, GoodRecords, RecordsBytes;
    if rs == [] {
      NothingPresent(fields);
    } else {
      var n := |rs| - 1;
      GoodParts(fields, rs);
      AtParts(src, p, RecordsBytes(fields, rs[..n]), RecordBytes(fields, rs[n]));
      RecordsStep(fields, rs[..n], src, p, end, slots);
      var s := ReadRecords(fields, rs[..n], slots);
      if s.Some? {
        PresentSnoc(rs);
        RecordStep(fields, rs[n], src, p + |RecordsBytes(fields, rs[..n])|, end, s.value, Present(rs[..n]));
      }
    }
  }

  lemma NothingPresent(fields: seq<Field>)
    ensures Tracked(fields, Present([])) == {} && RecordsBytes(fields, []) == []
  {
  }

  /**
   A message ends with its bytes or with a zero tag.  What is decoded is what its records make of the structure,
   at every depth; decoding fails exactly if they make none.
   */
  lemma MessageReads(fields: seq<Field>, rs: seq<Record>, src: Bytes, p: nat, end: nat, slots: seq<Slot>)
    requires GoodFields(fields) && GoodRecords(fields, rs) && |slots| == |fields|
    requires |RecordsBytes(fields, rs)| < TWO32
    requires At(src, p, RecordsBytes(fields, rs)) && p + |RecordsBytes(fields, rs)| <= end <= |src|
    requires p + |RecordsBytes(fields, rs)| == end || src[p + |RecordsBytes(fields, rs)|] == 0
    ensures DecodeFields(fields, src, p, end, slots, {}) == ReadMessage(fields, rs, slots)
    decreases rs, 1
  {
    hide GoodFields, GoodRecords, RecordsBytes, ReadRecords, Tracked, Present, NoneMissing, AllSeen, DecodeFields, At;
    RecordsStep(fields, rs, src, p, end, slots);
    TrackedIffPresent(fields, Present(rs));
    var s := ReadRecords(fields, rs, slots);
    if s.Some? {
      MessageEnds(fields, src, p + |RecordsBytes(fields, rs)|, end, s.value, Tracked(fields, Present(rs)));
    }
  }

  /** At the end of a message its required fields are asked for. */
  lemma MessageEnds(fields: seq<Field>, src: Bytes, p: nat, end: nat, slots: seq<Slot>, seen: set<nat>)
    requires p <= end <= |src| && |slots| == |fields| && (p == end || src[p] == 0)
    ensures DecodeFields(fields, src, p, end, slots, seen) == if AllSeen(fields, seen) then Some(slots) else None
  {
    if p < end {
      ZeroTagReads(src, p, end);
    }
    hide Varint32, FindField, DecodeSlot, WithSlot, RequiredIndex, PassOver;
  }

  lemma ZeroTagReads(src: Bytes, p: nat, end: nat)
    requires p < end <= |src| && src[p] == 0
    ensures Varint32(src, p, end) == Some((0, p + 1))
  {
    assert src[p..p + 1] == [0];
    Varint32Reads(src, p, end, 0);
  }
}
