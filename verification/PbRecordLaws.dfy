/**
 What any message means to the nanopb decoder (pb_decode.c): unknown fields change nothing, the last value of a
 field wins, arrays collect their items, and what is missing or cut off is turned down.
 */
module PbRecordLaws {
  import opened Options
  import opened Keys
  import opened Coding
  import opened Nanopb
  import opened PbDecode
  import opened PbRoundTrip
  import opened PbRecords

  /** pb_decode of the bytes of records: what they make of the default structure. */
  lemma RecordsDecode(fields: seq<Field>, rs: seq<Record>)
    requires GoodFields(fields) && GoodRecords(fields, rs) && |RecordsBytes(fields, rs)| < TWO32
    ensures DecodeMessage(fields, RecordsBytes(fields, rs)) == ReadMessage(fields, rs, DefaultSlots(fields))
  {
    hide DecodeFields, RecordsBytes, ReadMessage, GoodRecords, GoodFields;
    var src := RecordsBytes(fields, rs);
    assert src[0..|src|] == src;
    MessageReads(fields, rs, src, 0, |src|, DefaultSlots(fields));
  }

  // ---- unknown fields ------------------------------------------------------------------------------------

  function StrippedOne(r: Record): seq<Record>
    decreases r
  {
    match r
    case Unknown(_, _) => []
    case Nested(i, records) => [Nested(i, Stripped(records))]
    case _ => [r]
  }

  /** The records without those of unknown fields, at every depth. */
  function Stripped(rs: seq<Record>): seq<Record>
    decreases rs
  {
    if rs == [] then [] else Stripped(rs[..|rs| - 1]) + StrippedOne(rs[|rs| - 1])
  }

  lemma BytesSnoc(fields: seq<Field>, rs: seq<Record>, r: Record)
    requires GoodRecords(fields, rs) && GoodRecord(fields, r)
    ensures GoodRecords(fields, rs + [r])
    ensures RecordsBytes(fields, rs + [r]) == RecordsBytes(fields, rs) + RecordBytes(fields, r)
  {
    hide RecordBytes, GoodRecord;
    assert (rs + [r])[..|rs|] == rs;
  }

  lemma GoodSnoc(fields: seq<Field>, rs: seq<Record>, r: Record, slots: seq<Slot>)
    requires GoodRecords(fields, rs) && GoodRecord(fields, r) && |slots| == |fields|
    ensures GoodRecords(fields, rs + [r])
    ensures RecordsBytes(fields, rs + [r]) == RecordsBytes(fields, rs) + RecordBytes(fields, r)
    ensures ReadRecords(fields, rs + [r], slots)
         == var s := ReadRecords(fields, rs, slots); if s.None? then None else ReadRecord(fields, r, s.value)
    ensures Present(rs + [r]) == Present(rs) + if r.Unknown? then {} else {r.i}
  {
    hide RecordBytes, ReadRecord, GoodRecord;
    assert (rs + [r])[..|rs|] == rs;
    PresentSnoc(rs + [r]);
  }

  lemma {:induction false} VarintGrows(m: nat, n: nat)
    requires m <= n
    ensures |Varint(m)| <= |Varint(n)|
  {
    if m >= 128 {
      VarintGrows(m / 128, n / 128);
    }
  }

  /** A record without the unknown fields within it does the same, in no more bytes. */
  lemma StrippedOneReads(fields: seq<Field>, r: Record, slots: seq<Slot>)
    requires GoodRecord(fields, r) && !r.Unknown? && |slots| == |fields|
    ensures |StrippedOne(r)| == 1 && !StrippedOne(r)[0].Unknown? && StrippedOne(r)[0].i == r.i
    ensures var q := StrippedOne(r)[0];
      GoodRecord(fields, q) && ReadRecord(fields, q, slots) == ReadRecord(fields, r, slots)
      && |RecordBytes(fields, q)| <= |RecordBytes(fields, r)|
    decreases r, 0
  {
    hide GoodRecord, ReadRecord, RecordBytes, RecordsBytes, GoodRecords, ReadRecords, ReadMessage, Existing, Stripped;
    if r.Nested? {
      NestedIsGood(fields, r.i, r.records);
      var f := fields[r.i];
      StrippedReads(f.ltype.fields, r.records, Existing(f, slots[r.i]));
      OtherRecordsInside(fields, r.i, r.records, Stripped(r.records), slots);
    }
  }

  lemma NestedIsGood(fields: seq<Field>, i: nat, records: seq<Record>)
    requires GoodRecord(fields, Nested(i, records))
    ensures i < |fields| && fields[i].ltype.SubMessage? && GoodRecords(fields[i].ltype.fields, records)
  {
  }

  lemma OtherRecordsInside(fields: seq<Field>, i: nat, records: seq<Record>, others: seq<Record>, slots: seq<Slot>)
    requires |slots| == |fields| && i < |fields| && fields[i].ltype.SubMessage?
    requires var sub := fields[i].ltype.fields; var old_ := Existing(fields[i], slots[i]);
      && GoodRecords(sub, records) && GoodRecords(sub, others) && Present(others) == Present(records)
      && ReadRecords(sub, others, old_) == ReadRecords(sub, records, old_)
      && |RecordsBytes(sub, others)| <= |RecordsBytes(sub, records)|
    ensures GoodRecord(fields, Nested(i, records)) && GoodRecord(fields, Nested(i, others))
    ensures ReadRecord(fields, Nested(i, others), slots) == ReadRecord(fields, Nested(i, records), slots)
    ensures |RecordBytes(fields, Nested(i, others))| <= |RecordBytes(fields, Nested(i, records))|
  {
    hide RecordsBytes, GoodRecords, ReadRecords, Put, Existing, NoneMissing, Present, Varint;
    var sub := fields[i].ltype.fields;
    VarintGrows(|RecordsBytes(sub, others)|, |RecordsBytes(sub, records)|);
  }

  lemma {:induction false} StrippedReads(fields: seq<Field>, rs: seq<Record>, slots: seq<Slot>)
    requires GoodRecords(fields, rs) && |slots| == |fields|
    ensures GoodRecords(fields, Stripped(rs)) && Present(Stripped(rs)) == Present(rs)
    ensures ReadRecords(fields, Stripped(rs), slots) == ReadRecords(fields, rs, slots)
    ensures |RecordsBytes(fields, Stripped(rs))| <= |RecordsBytes(fields, rs)|
    decreases rs, 0
  {
    hide RecordBytes, ReadRecord, GoodRecord, GoodRecords, ReadRecords, RecordsBytes, Present, StrippedOne;
    if rs != [] {
      var init, r := rs[..|rs| - 1], rs[|rs| - 1];
      assert rs == init + [r];
      GoodParts(fields, rs);
      GoodSnoc(fields, init, r, slots);
      StrippedReads(fields, init, slots);
      var s := ReadRecords(fields, init, slots);
      if r.Unknown? {
        UnknownDoesNothing(fields, r, slots);
        assert Stripped(init) + [] == Stripped(init);
        if s.Some? {
          UnknownDoesNothing(fields, r, s.value);
        }
      } else {
        StrippedOneReads(fields, r, if s.Some? then s.value else slots);
        assert StrippedOne(r) == [StrippedOne(r)[0]];
        GoodSnoc(fields, Stripped(init), StrippedOne(r)[0], slots);
      }
    }
  }

  lemma UnknownDoesNothing(fields: seq<Field>, r: Record, slots: seq<Slot>)
    requires GoodRecord(fields, r) && r.Unknown? && |slots| == |fields|
    ensures ReadRecord(fields, r, slots) == Some(slots) && StrippedOne(r) == []
  {
  }

  /** Fields that the descriptor does not know, of any wire type and at any depth, change nothing. */
  lemma UnknownFieldsAreSkipped(fields: seq<Field>, rs: seq<Record>)
    requires GoodFields(fields) && GoodRecords(fields, rs) && |RecordsBytes(fields, rs)| < TWO32
    ensures GoodRecords(fields, Stripped(rs))
    ensures DecodeMessage(fields, RecordsBytes(fields, rs)) == DecodeMessage(fields, RecordsBytes(fields, Stripped(rs)))
  {
    hide DecodeMessage, RecordsBytes, ReadRecords, GoodRecords, GoodFields, Present, NoneMissing, Stripped;
    StrippedReads(fields, rs, DefaultSlots(fields));
    RecordsDecode(fields, rs);
    RecordsDecode(fields, Stripped(rs));
  }

  // ---- the encoder's records -----------------------------------------------------------------------------

  /** The records that the encoder writes for a value, a field, and the first `n` fields of a message. */
  function ValueRecord(f: Field, i: nat, v: Value): Record
    requires Typed(f.ltype, v)
    decreases v, 0
  {
    if f.ltype.SubMessage? then Nested(i, RecordsOf(f.ltype.fields, v.slots, |v.slots|)) else Single(i, v)
  }

  function ItemRecords(f: Field, i: nat, items: seq<Value>, n: nat): seq<Record>
    requires n <= |items| && forall k :: 0 <= k < |items| ==> Typed(f.ltype, items[k])
    decreases items, n
  {
    if n == 0 then [] else ItemRecords(f, i, items, n - 1) + [ValueRecord(f, i, items[n - 1])]
  }

  function SlotRecords(f: Field, i: nat, s: Slot): seq<Record>
    requires SlotTyped(f, s)
    decreases s
  {
    match s
    case One(v) => [ValueRecord(f, i, v)]
    case Maybe(o) => if o.Some? then [ValueRecord(f, i, o.value)] else []
    case Many(items) =>
      if items == [] then [] else if Packable(f.ltype) then [Packed(i, items)] else ItemRecords(f, i, items, |items|)
  }

  function RecordsOf(fields: seq<Field>, slots: seq<Slot>, n: nat): seq<Record>
    requires SlotsTyped(fields, slots) && n <= |slots|
    decreases slots, n
  {
    if n == 0 then [] else RecordsOf(fields, slots, n - 1) + SlotRecords(fields[n - 1], n - 1, slots[n - 1])
  }

  lemma GoodConcat(fields: seq<Field>, a: seq<Record>, b: seq<Record>)
    requires GoodRecords(fields, a) && GoodRecords(fields, b)
    ensures GoodRecords(fields, a + b)
    ensures RecordsBytes(fields, a + b) == RecordsBytes(fields, a) + RecordsBytes(fields, b)
  {
    hide RecordBytes, GoodRecord, GoodRecords, RecordsBytes;
    if b == [] {
      assert a + b == a;
      NoRecords(fields);
    } else {
      var init, r := b[..|b| - 1], b[|b| - 1];
      GoodParts(fields, b);
      GoodConcat(fields, a, init);
      assert a + b == (a + init) + [r];
      BytesSnoc(fields, a + init, r);
    }
  }

  lemma ValueRecordBytes(fields: seq<Field>, i: nat, v: Value)
    requires GoodFields(fields) && i < |fields| && Typed(fields[i].ltype, v) && Fits(fields[i].ltype, v)
    ensures var r := ValueRecord(fields[i], i, v);
      && GoodRecord(fields, r)
      && RecordBytes(fields, r) == Tag(WireType(fields[i].ltype), fields[i].tag) + Encoded(fields[i].ltype, v)
    decreases v, 0
  {
    hide GoodRecords, RecordsBytes, RecordsOf, EncodedFields, SlotsTyped, SlotsFit, GoodFields, Varint;
    if fields[i].ltype.SubMessage? {
      FieldIsGood(fields, i);
      StructParts(fields[i].ltype.fields, v);
      RecordsOfBytes(fields[i].ltype.fields, v.slots, |v.slots|);
    }
  }

  lemma StructParts(fields: seq<Field>, v: Value)
    requires Typed(SubMessage(fields), v) && Fits(SubMessage(fields), v)
    ensures v.Struct? && |v.slots| == |fields| && SlotsTyped(fields, v.slots) && SlotsFit(fields, v.slots)
  {
  }

  lemma OneRecord(fields: seq<Field>, r: Record)
    requires GoodRecord(fields, r)
    ensures GoodRecords(fields, [r]) && RecordsBytes(fields, [r]) == RecordBytes(fields, r)
  {
    hide GoodRecord, RecordBytes;
    assert [r][..0] == [];
  }

  lemma {:induction false} ItemRecordsBytes(fields: seq<Field>, i: nat, items: seq<Value>, n: nat)
    requires GoodFields(fields) && i < |fields| && n <= |items|
    requires forall k :: 0 <= k < |items| ==> Typed(fields[i].ltype, items[k]) && Fits(fields[i].ltype, items[k])
    ensures var rs := ItemRecords(fields[i], i, items, n);
      GoodRecords(fields, rs) && RecordsBytes(fields, rs) == EncodedItems(fields[i], items, n, true)
    decreases items, n
  {
    hide GoodFields, GoodRecord, RecordBytes, Typed, Fits, Encoded, Tag, GoodRecords, RecordsBytes, ValueRecord;
    if n == 0 {
      NoRecords(fields);
    } else {
      ItemRecordsBytes(fields, i, items, n - 1);
      ValueRecordBytes(fields, i, items[n - 1]);
      var r := ValueRecord(fields[i], i, items[n - 1]);
      OneRecord(fields, r);
      GoodConcat(fields, ItemRecords(fields[i], i, items, n - 1), [r]);
    }
  }

  lemma NoRecords(fields: seq<Field>)
    ensures GoodRecords(fields, []) && RecordsBytes(fields, []) == []
  {
  }

  lemma SlotRecordsBytes(fields: seq<Field>, i: nat, s: Slot)
    requires GoodFields(fields) && i < |fields| && SlotTyped(fields[i], s) && SlotFits(fields[i], s)
    ensures var rs := SlotRecords(fields[i], i, s);
      GoodRecords(fields, rs) && RecordsBytes(fields, rs) == EncodedSlot(fields[i], s)
    decreases s
  {
    hide GoodFields, GoodRecords, RecordsBytes, RecordBytes, Typed, Fits, Encoded, EncodedItems, ItemRecords,
         ValueRecord, GoodRecord, Packable;
    NoRecords(fields);
    match s
    case One(v) =>
      ValueRecordBytes(fields, i, v);
      OneRecord(fields, ValueRecord(fields[i], i, v));
    case Maybe(o) =>
      if o.Some? {
        ValueRecordBytes(fields, i, o.value);
        OneRecord(fields, ValueRecord(fields[i], i, o.value));
      }
    case Many(items) =>
      if Packable(fields[i].ltype) {
        PackedRecord(fields, i, items);
        OneRecord(fields, Packed(i, items));
      } else {
        ItemRecordsBytes(fields, i, items, |items|);
      }
  }

  lemma PackedRecord(fields: seq<Field>, i: nat, items: seq<Value>)
    requires i < |fields| && fields[i].htype.Repeated? && Packable(fields[i].ltype)
    requires forall k :: 0 <= k < |items| ==> Typed(fields[i].ltype, items[k])
    ensures GoodRecord(fields, Packed(i, items))
    ensures RecordBytes(fields, Packed(i, items))
         == Tag(WT_STRING, fields[i].tag) + LengthPrefixed(EncodedItems(fields[i], items, |items|, false))
  {
    hide Varint, EncodedItems, Typed;
  }

  /** The encoded fields are the bytes of their records. */
  lemma {:induction false} RecordsOfBytes(fields: seq<Field>, slots: seq<Slot>, n: nat)
    requires GoodFields(fields) && SlotsTyped(fields, slots) && SlotsFit(fields, slots) && n <= |slots|
    ensures var rs := RecordsOf(fields, slots, n);
      GoodRecords(fields, rs) && RecordsBytes(fields, rs) == EncodedFields(fields, slots, n)
    decreases slots, n
  {
    hide GoodFields, GoodRecords, RecordsBytes, SlotRecords, EncodedSlot;
    if n == 0 {
      NoRecords(fields);
    } else {
      RecordsOfBytes(fields, slots, n - 1);
      SlotRecordsBytes(fields, n - 1, slots[n - 1]);
      GoodConcat(fields, RecordsOf(fields, slots, n - 1), SlotRecords(fields[n - 1], n - 1, slots[n - 1]));
    }
  }

  /**
   An encoded message with records of unknown fields before, between and behind its own, at any depth, is
   decoded as it was before they came in.
   */
  lemma ReadsAmongUnknown(fields: seq<Field>, slots: seq<Slot>, rs: seq<Record>)
    requires Storable(fields, slots) && GoodRecords(fields, rs) && |RecordsBytes(fields, rs)| < TWO32
    requires Stripped(rs) == RecordsOf(fields, slots, |fields|)
    ensures DecodeMessage(fields, RecordsBytes(fields, rs))
         == if AllTerminated(fields, slots) then Some(slots) else None
  {
    PartsOf(fields, slots);
    RecordsOfBytes(fields, slots, |fields|);
    UnknownFieldsAreSkipped(fields, rs);
    MessageRoundTripsIff(fields, slots);
  }

  // ---- fields that come again ----------------------------------------------------------------------------

  predicate IsOf(r: Record, i: nat) {
    !r.Unknown? && r.i == i
  }

  /** Both fields are members of one oneof. */
  predicate InGroupOf(fields: seq<Field>, i: nat, j: nat)
    requires i < |fields| && j < |fields|
  {
    fields[j].htype.OneOf? && fields[j].htype == fields[i].htype
  }

  /** A record for the field, or for another member of its oneof. */
  predicate Touches(fields: seq<Field>, r: Record, i: nat)
    requires i < |fields|
  {
    !r.Unknown? && r.i < |fields| && (r.i == i || InGroupOf(fields, i, r.i))
  }

  lemma UntouchedStays(fields: seq<Field>, r: Record, slots: seq<Slot>, i: nat)
    requires GoodRecord(fields, r) && |slots| == |fields| && i < |fields| && !Touches(fields, r, i)
    ensures var s := ReadRecord(fields, r, slots); s.Some? ==> s.value[i] == slots[i]
  {
    hide Appended, Existing, NoneMissing, ReadRecords, Typed, Fits, GoodRecords;
  }

  /** Behind the last record that touches a field, its slot stays. */
  lemma {:induction false} LastTouchDecides(fields: seq<Field>, rs: seq<Record>, slots: seq<Slot>, n: nat, i: nat)
    requires GoodRecords(fields, rs) && |slots| == |fields| && i < |fields| && n <= |rs|
    requires forall m :: n <= m < |rs| ==> !Touches(fields, rs[m], i)
    requires ReadRecords(fields, rs, slots).Some?
    ensures GoodRecords(fields, rs[..n]) && ReadRecords(fields, rs[..n], slots).Some?
    ensures ReadRecords(fields, rs, slots).value[i] == ReadRecords(fields, rs[..n], slots).value[i]
    decreases |rs|
  {
    hide ReadRecord, GoodRecord, RecordBytes, Touches;
    if n == |rs| {
      assert rs[..n] == rs;
    } else {
      var init := rs[..|rs| - 1];
      GoodParts(fields, rs);
      LastTouchDecides(fields, init, slots, n, i);
      assert init[..n] == rs[..n];
      UntouchedStays(fields, rs[|rs| - 1], ReadRecords(fields, init, slots).value, i);
    }
  }

  /** The value that a record brings, if it brings one. */
  ghost function ValueOf(fields: seq<Field>, r: Record, slots: seq<Slot>): Option<Value>
    requires GoodRecord(fields, r) && |slots| == |fields|
  {
    match r
    case Single(_, v) => Some(v)
    case Nested(i, records) =>
      var m := ReadMessage(fields[i].ltype.fields, records, Existing(fields[i], slots[i]));
      if m.None? then None else Some(Struct(m.value))
    case _ => None
  }

  lemma RecordPuts(fields: seq<Field>, r: Record, slots: seq<Slot>)
    requires GoodRecord(fields, r) && |slots| == |fields| && (r.Single? || r.Nested?)
    requires !fields[r.i].htype.Repeated? && ReadRecord(fields, r, slots).Some?
    ensures ValueOf(fields, r, slots).Some?
    ensures ReadRecord(fields, r, slots).value[r.i]
         == var v := ValueOf(fields, r, slots).value; if fields[r.i].htype.Required? then One(v) else Maybe(Some(v))
    ensures forall j :: 0 <= j < |fields| && j != r.i && InGroupOf(fields, r.i, j) ==>
              ReadRecord(fields, r, slots).value[j] == Maybe(None)
  {
    hide Existing, NoneMissing, ReadRecords, Typed, Fits, GoodRecords;
  }

  /**
   The last record of a field, or of any member of its oneof, decides: the field has its value, and the other
   members of the oneof are not chosen.
   */
  lemma LastValueWins(fields: seq<Field>, rs: seq<Record>, k: nat)
    requires GoodFields(fields) && GoodRecords(fields, rs) && |RecordsBytes(fields, rs)| < TWO32
    requires k < |rs| && (rs[k].Single? || rs[k].Nested?) && rs[k].i < |fields| && !fields[rs[k].i].htype.Repeated?
    requires forall m :: k < m < |rs| ==> !Touches(fields, rs[m], rs[k].i)
    requires DecodeMessage(fields, RecordsBytes(fields, rs)).Some?
    ensures GoodRecord(fields, rs[k]) && GoodRecords(fields, rs[..k])
    ensures ReadRecords(fields, rs[..k], DefaultSlots(fields)).Some?
    ensures var slots := DecodeMessage(fields, RecordsBytes(fields, rs)).value; var i := rs[k].i;
            var v := ValueOf(fields, rs[k], ReadRecords(fields, rs[..k], DefaultSlots(fields)).value);
            && v.Some? && |slots| == |fields|
            && slots[i] == (if fields[i].htype.Required? then One(v.value) else Maybe(Some(v.value)))
            && forall j :: 0 <= j < |fields| && j != i && InGroupOf(fields, i, j) ==> slots[j] == Maybe(None)
  {
    hide DecodeMessage, GoodFields, GoodRecord, GoodRecords, RecordsBytes, ReadRecord, ReadRecords, ValueOf,
         NoneMissing, Present, DefaultSlots, Touches;
    RecordsDecode(fields, rs);
    assert GoodRecord(fields, rs[k]) by { GoodAt(fields, rs, k); }
    var start, i := DefaultSlots(fields), rs[k].i;
    LastTouchDecides(fields, rs, start, k + 1, i);
    assert rs[..k + 1] == rs[..k] + [rs[k]];
    GoodPrefix(fields, rs, k);
    GoodSnoc(fields, rs[..k], rs[k], start);
    var before := ReadRecords(fields, rs[..k], start).value;
    RecordPuts(fields, rs[k], before);
    forall j | 0 <= j < |fields| && j != i && InGroupOf(fields, i, j)
      ensures ReadRecords(fields, rs, start).value[j] == Maybe(None)
    {
      SameGroup(fields, rs, k + 1, i, j);
      LastTouchDecides(fields, rs, start, k + 1, j);
    }
  }

  lemma SameGroup(fields: seq<Field>, rs: seq<Record>, n: nat, i: nat, j: nat)
    requires i < |fields| && j < |fields| && InGroupOf(fields, i, j)
    requires forall m :: n <= m < |rs| ==> !Touches(fields, rs[m], i)
    ensures forall m :: n <= m < |rs| ==> !Touches(fields, rs[m], j)
  {
    forall m | n <= m < |rs|
      ensures !Touches(fields, rs[m], j)
    {
      assert !Touches(fields, rs[m], i);
    }
  }

  lemma GoodAt(fields: seq<Field>, rs: seq<Record>, k: nat)
    requires GoodRecords(fields, rs) && k < |rs|
    ensures GoodRecord(fields, rs[k])
  {
  }

  lemma GoodPrefix(fields: seq<Field>, rs: seq<Record>, n: nat)
    requires GoodRecords(fields, rs) && n <= |rs|
    ensures GoodRecords(fields, rs[..n])
  {
  }

  // ---- arrays --------------------------------------------------------------------------------------------

  /** The items that the records bring for an array, in their order. */
  ghost function Collected(fields: seq<Field>, rs: seq<Record>, i: nat): seq<Value>
    requires GoodRecords(fields, rs) && i < |fields|
    decreases |rs|
  {
    if rs == [] then [] else
      GoodParts(fields, rs);
      Collected(fields, rs[..|rs| - 1], i) + Brought(fields, rs[|rs| - 1], i)
  }

  ghost function Brought(fields: seq<Field>, r: Record, i: nat): seq<Value>
    requires GoodRecord(fields, r) && i < |fields|
  {
    if !IsOf(r, i) then [] else
      match r
      case Single(_, v) => [v]
      case Packed(_, items) => items
      case Nested(_, records) =>
        var m := ReadMessage(fields[i].ltype.fields, records, DefaultSlots(fields[i].ltype.fields));
        if m.None? then [] else [Struct(m.value)]
      case Unknown(_, _) => []
  }

  lemma BroughtIsAppended(fields: seq<Field>, r: Record, slots: seq<Slot>, i: nat)
    requires GoodRecord(fields, r) && |slots| == |fields| && i < |fields| && fields[i].htype.Repeated? && slots[i].Many?
    requires ReadRecord(fields, r, slots).Some?
    ensures ReadRecord(fields, r, slots).value[i] == Many(slots[i].items + Brought(fields, r, i))
  {
    hide NoneMissing, ReadRecords, Typed, Fits, GoodRecords;
    assert slots[i].items + [] == slots[i].items;
    if !IsOf(r, i) {
      UntouchedStays(fields, r, slots, i);
    }
  }

  /** An array has all items of its records, packed or not, in their order. */
  lemma {:induction false} ArraysCollect(fields: seq<Field>, rs: seq<Record>, slots: seq<Slot>, i: nat)
    requires GoodRecords(fields, rs) && |slots| == |fields|
    requires i < |fields| && fields[i].htype.Repeated? && slots[i].Many?
    requires ReadRecords(fields, rs, slots).Some?
    ensures ReadRecords(fields, rs, slots).value[i] == Many(slots[i].items + Collected(fields, rs, i))
    decreases |rs|
  {
    hide ReadRecord, GoodRecord, RecordBytes, Brought;
    if rs == [] {
      assert slots[i].items + [] == slots[i].items;
    } else {
      var init, r := rs[..|rs| - 1], rs[|rs| - 1];
      GoodParts(fields, rs);
      ArraysCollect(fields, init, slots, i);
      BroughtIsAppended(fields, r, ReadRecords(fields, init, slots).value, i);
      assert slots[i].items + Collected(fields, init, i) + Brought(fields, r, i)
          == slots[i].items + Collected(fields, rs, i);
    }
  }

  // ---- messages that are turned down ---------------------------------------------------------------------

  /** A required field without a record, unless 64 others come before it. */
  lemma MissingFieldIsRejected(fields: seq<Field>, rs: seq<Record>, i: nat)
    requires GoodFields(fields) && GoodRecords(fields, rs) && |RecordsBytes(fields, rs)| < TWO32
    requires i < |fields| && fields[i].htype.Required? && |RequiredBefore(fields, i)| < 64
    requires forall k :: 0 <= k < |rs| ==> !IsOf(rs[k], i)
    ensures DecodeMessage(fields, RecordsBytes(fields, rs)) == None
  {
    hide DecodeMessage, GoodFields, GoodRecords, RecordsBytes, ReadRecords, DefaultSlots, RequiredBefore;
    RecordsDecode(fields, rs);
    assert i !in Present(rs);
  }

  /** A varint whose last bytes are missing. */
  lemma {:induction false} CutVarint32(src: Bytes, p: nat, v: nat, n: nat, result: nat, weight: nat)
    requires n < |Varint(v)| && p + n == |src| && At(src, p, Varint(v)[..n])
    requires weight in [1, 0x80, 0x4000, 0x20_0000, 0x1000_0000] && v * weight < TWO32
    ensures Varint32From(src, p, |src|, result, weight) == None
    decreases v
  {
    hide Varint, Varint32From;
    if n == 0 {
      NothingLeft(src, result, weight);
    } else {
      NextOfCut(src, p, v, n);
      Digits(v, weight, TWO32);
      NextWeight(v, weight);
      DigitRead(src, p, |src|, result, weight);
      CutVarint32(src, p + 1, v / 128, n - 1, result + v % 128 * weight, weight * 128);
    }
  }

  lemma NothingLeft(src: Bytes, result: nat, weight: nat)
    ensures Varint32From(src, |src|, |src|, result, weight) == None
  {
  }

  lemma NextOfCut(src: Bytes, p: nat, v: nat, n: nat)
    requires 0 < n < |Varint(v)| && At(src, p, Varint(v)[..n])
    ensures v >= 128 && src[p] == v % 128 + 128 && n - 1 < |Varint(v / 128)| && At(src, p + 1, Varint(v / 128)[..n - 1])
  {
    assert src[p] == src[p..p + n][0];
    assert src[p + 1..p + n] == src[p..p + n][1..];
    assert Varint(v)[..n][1..] == Varint(v / 128)[..n - 1];
  }

  lemma {:induction false} CutVarintIsNotSkipped(src: Bytes, p: nat, v: nat, n: nat)
    requires n < |Varint(v)| && p + n == |src| && At(src, p, Varint(v)[..n])
    ensures SkipVarint(src, p, |src|) == None
    decreases v
  {
    hide Varint;
    if n > 0 {
      NextOfCut(src, p, v, n);
      CutVarintIsNotSkipped(src, p + 1, v / 128, n - 1);
    }
  }

  lemma CutContentIsNotSkipped(x: Payload, src: Bytes, p: nat, n: nat)
    requires GoodPayload(x) && n < |Content(x)| && p + n == |src| && At(src, p, Content(x)[..n])
    ensures SkipField(Code(x), src, p, |src|) == None
  {
    hide Varint, SkipVarint, Varint32From, At;
    match x
    case Number64(v) => CutVarintIsNotSkipped(src, p, v, n);
    case Eight(_) =>
    case Four(_) =>
    case Prefixed(s) =>
      var length := Varint(|s|);
      if n < |length| {
        assert Content(x)[..n] == length[..n];
        CutVarint32(src, p, |s|, n, 0, 1);
      } else {
        assert Content(x)[..n] == length + s[..n - |length|];
        AtParts(src, p, length, s[..n - |length|]);
        Varint32Reads(src, p, |src|, |s|);
      }
  }

  lemma WholeAt(src: Bytes)
    ensures At(src, 0, src)
  {
    assert src[0..|src|] == src;
  }

  lemma CodeIsSmall(x: Payload)
    ensures Code(x) < 8
  {
  }

  /** A message that breaks off within an unknown field. */
  lemma CutFieldIsRejected(fields: seq<Field>, rs: seq<Record>, tag: nat, x: Payload, n: nat)
    requires GoodFields(fields) && GoodRecords(fields, rs) && |RecordsBytes(fields, rs)| < TWO32
    requires 0 < tag < 0x2000_0000 && forall k :: 0 <= k < |fields| ==> fields[k].tag != tag
    requires GoodPayload(x) && n < |Content(x)|
    ensures DecodeMessage(fields, RecordsBytes(fields, rs) + (Varint(8 * tag + Code(x)) + Content(x)[..n])) == None
  {
    hide GoodFields, GoodRecords, RecordsBytes, ReadRecords, DecodeFields, Tracked, Varint, SkipField, Content, At,
         Varint32, FindField, DefaultSlots, Present;
    CodeIsSmall(x);
    var a, key, c := RecordsBytes(fields, rs), Varint(8 * tag + Code(x)), Content(x)[..n];
    var src := a + (key + c);
    WholeAt(src);
    AtParts(src, 0, a, key + c);
    AtParts(src, |a|, key, c);
    RecordsStep(fields, rs, src, 0, |src|, DefaultSlots(fields));
    var s := ReadRecords(fields, rs, DefaultSlots(fields));
    if s.Some? {
      UnknownTagReads(fields, tag, Code(x), src, |a|, |src|);
      CutContentIsNotSkipped(x, src, |a| + |key|, n);
      PassedOver(fields, tag, Code(x), src, |a|, |a| + |key|, |src|, s.value, Tracked(fields, Present(rs)));
    }
  }

  /** An unknown field of a wire type that there is not. */
  lemma BadWireTypeIsRejected(fields: seq<Field>, rs: seq<Record>, tag: nat, code: nat, rest: Bytes)
    requires GoodFields(fields) && GoodRecords(fields, rs) && |RecordsBytes(fields, rs)| < TWO32
    requires 0 < tag < 0x2000_0000 && forall k :: 0 <= k < |fields| ==> fields[k].tag != tag
    requires code in {3, 4, 6, 7}
    ensures DecodeMessage(fields, RecordsBytes(fields, rs) + (Varint(8 * tag + code) + rest)) == None
  {
    hide GoodFields, GoodRecords, RecordsBytes, ReadRecords, DecodeFields, Tracked, Varint, At, Varint32, FindField,
         DefaultSlots, Present;
    var a, key := RecordsBytes(fields, rs), Varint(8 * tag + code);
    var src := a + (key + rest);
    WholeAt(src);
    AtParts(src, 0, a, key + rest);
    AtParts(src, |a|, key, rest);
    RecordsStep(fields, rs, src, 0, |src|, DefaultSlots(fields));
    var s := ReadRecords(fields, rs, DefaultSlots(fields));
    if s.Some? {
      UnknownTagReads(fields, tag, code, src, |a|, |src|);
      PassedOver(fields, tag, code, src, |a|, |a| + |key|, |src|, s.value, Tracked(fields, Present(rs)));
    }
  }

  // ---- two special cases ---------------------------------------------------------------------------------

  /** A fixed-length field with no bytes at all is read as zeros. */
  lemma EmptyIsZeros(size: nat, src: Bytes, p: nat, end: nat)
    requires p < end <= |src| && src[p] == 0
    ensures var r := DecodeScalar(FixedLengthBytes(size), src, p, end);
      && r.Some? && r.value.1 == p + 1 && r.value.0.Blob? && |r.value.0.s| == size
      && forall i :: 0 <= i < size ==> r.value.0.s[i] == 0
  {
    ZeroTagReads(src, p, end);
    hide Varint32;
  }

  /** In a message without fields a tag of 0 takes a bool behind it, whatever its wire type says. */
  lemma ZeroTagWithoutFields(code: nat, n: nat)
    requires 0 < code < 8 && n < TWO32
    ensures DecodeMessage([], [code] + Varint(n)) == Some([])
  {
    hide Varint, Varint32, At, SkipField;
    var src := [code] + Varint(n);
    WholeAt(src);
    AtParts(src, 0, [code], Varint(n));
    OneByte(src, code);
    Varint32Reads(src, 1, |src|, n);
    MessageEnds([], src, |src|, |src|, [], {});
    assert DefaultSlots([]) == [] && AllSeen([], {}) && FindField([], 0) == 0;
    assert PassOver([], code, src, 1, |src|) == Some(|src|);
    assert DecodeFields([], src, 0, |src|, [], {}) == DecodeFields([], src, |src|, |src|, [], {});
  }

  lemma OneByte(src: Bytes, b: Byte)
    requires src != [] && src[0] == b && b < 128
    ensures Varint32(src, 0, |src|) == Some((b, 1))
  {
    assert src[0..1] == [b];
    Varint32Reads(src, 0, |src|, b);
  }
}
