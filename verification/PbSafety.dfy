/**
 The nanopb decoder (pb_decode.c) on any bytes: what it gives is a structure that its descriptor describes, with
 every number within the width of its field, every string ended and every array within its bounds.
 */
module PbSafety {
  import opened Options
  import opened Coding
  import opened Nanopb
  import opened PbDecode
  import opened PbRoundTrip

  // ---- sound structures ----------------------------------------------------------------------------------

  predicate Sized(t: LType) {
    match t
    case SignedVarint(size) => IsSize(size)
    case UnsignedVarint(size) => IsSize(size)
    case ZigzagVarint(size) => IsSize(size)
    case _ => true
  }

  /** A value that fits its type, with all its strings ended. */
  predicate Sound(t: LType, v: Value) {
    Typed(t, v) && Fits(t, v) && Terminated(t, v)
  }

  predicate SoundSlot(f: Field, s: Slot) {
    SlotTyped(f, s) && SlotFits(f, s) && SlotTerminated(f, s)
  }

  predicate SoundSlots(fields: seq<Field>, slots: seq<Slot>) {
    SlotsTyped(fields, slots) && SlotsFit(fields, slots) && AllTerminated(fields, slots)
  }

  /** A descriptor whose sizes are those of integers, and whose required fields have default values of their types. */
  predicate Initialized(fields: seq<Field>)
    decreases fields
  {
    forall i :: 0 <= i < |fields| ==> InitializedField(fields[i])
  }

  predicate InitializedField(f: Field)
    decreases f
  {
    && Sized(f.ltype) && InitializedType(f.ltype)
    && (f.htype.Required? && !f.ltype.SubMessage? ==> Sound(f.ltype, f.initial))
  }

  predicate InitializedType(t: LType)
    decreases t
  {
    t.SubMessage? ==> Initialized(t.fields)
  }

  lemma SlotsAreSound(fields: seq<Field>, slots: seq<Slot>)
    ensures SoundSlots(fields, slots)
       <==> |slots| == |fields| && OneChoice(fields, slots)
            && forall i :: 0 <= i < |slots| ==> SoundSlot(fields[i], slots[i])
  {
    hide SlotTyped, SlotFits, SlotTerminated, OneChoice;
  }

  lemma StructIsSound(fields: seq<Field>, slots: seq<Slot>)
    ensures Sound(SubMessage(fields), Struct(slots)) <==> SoundSlots(fields, slots)
  {
  }

  lemma SoundAt(fields: seq<Field>, slots: seq<Slot>, i: nat)
    requires SoundSlots(fields, slots) && i < |fields|
    ensures |slots| == |fields| && SoundSlot(fields[i], slots[i])
  {
    SlotsAreSound(fields, slots);
  }

  // ---- defaults ------------------------------------------------------------------------------------------

  lemma DefaultsAreSound(fields: seq<Field>)
    requires Initialized(fields)
    ensures SoundSlots(fields, DefaultSlots(fields))
    decreases fields
  {
    hide SlotTyped, SlotFits, SlotTerminated, SoundSlot, DefaultSlot, InitializedField;
    var slots := DefaultSlots(fields);
    forall i | 0 <= i < |fields|
      ensures SoundSlot(fields[i], slots[i])
      ensures slots[i].Maybe? ==> slots[i].o.None?
    {
      DefaultIsSound(fields[i]);
    }
    SlotsAreSound(fields, slots);
  }

  lemma DefaultIsSound(f: Field)
    requires InitializedField(f)
    ensures SoundSlot(f, DefaultSlot(f))
    ensures DefaultSlot(f).Maybe? ==> DefaultSlot(f).o.None?
    decreases f
  {
    hide SoundSlots, Sound, SoundSlot, Initialized, DefaultSlots;
    match f.htype
    case Required =>
      if f.ltype.SubMessage? {
        DefaultsAreSound(f.ltype.fields);
        StructIsSound(f.ltype.fields, DefaultSlots(f.ltype.fields));
      }
      OneIsSound(f, DefaultValue(f.ltype, f.initial));
    case Repeated(_) => ManyIsSound(f, []);
    case _ => NothingIsSound(f);
  }

  // ---- numbers and strings -------------------------------------------------------------------------------

  lemma {:induction false} UpToNulEnds(s: Bytes)
    ensures 0 !in UpToNul(s) && |UpToNul(s)| <= |s|
  {
    if s != [] && s[0] != 0 {
      UpToNulEnds(s[1..]);
    }
  }

  /** Whatever the bytes: a number out of the range of its field, or a string too long for it, is turned down. */
  lemma ScalarIsSound(t: LType, src: Bytes, p: nat, end: nat)
    requires p <= end <= |src| && Sized(t) && !t.SubMessage?
    ensures var r := DecodeScalar(t, src, p, end); r.Some? ==> Sound(t, r.value.0)
  {
    hide Varint32, Varint64, Blob32, DecodeFixed, UpToNul, Power;
    match t
    case Fixed32 =>
      if end - p >= 4 {
        Powers();
        DecodeIsBelow(src[p..p + 4]);
      }
    case Fixed64 =>
      if end - p >= 8 {
        Powers();
        DecodeIsBelow(src[p..p + 8]);
      }
    case StringType(size) =>
      var s := Blob32(src, p, end);
      if s.Some? {
        UpToNulEnds(s.value.0);
      }
    case _ =>
  }

  lemma {:induction false} PackedIsSound(f: Field, src: Bytes, p: nat, end: nat, items: seq<Value>)
    requires p <= end <= |src| && f.htype.Repeated? && Packable(f.ltype) && Sized(f.ltype)
    requires |items| <= f.htype.arraySize && forall i :: 0 <= i < |items| ==> Sound(f.ltype, items[i])
    ensures var r := DecodePacked(f, src, p, end, items);
            r.Some? ==> |r.value| <= f.htype.arraySize && forall i :: 0 <= i < |r.value| ==> Sound(f.ltype, r.value[i])
    decreases end - p
  {
    hide DecodeScalar, Sound;
    if p < end && |items| < f.htype.arraySize {
      ScalarIsSound(f.ltype, src, p, end);
      var v := DecodeScalar(f.ltype, src, p, end);
      if v.Some? {
        PackedIsSound(f, src, v.value.1, end, items + [v.value.0]);
      }
    }
  }

  // ---- messages ------------------------------------------------------------------------------------------

  /** What a submessage is merged into. */
  ghost predicate SoundOld(t: LType, old_: Value) {
    t.SubMessage? ==> SoundSlots(t.fields, OldSlots(t.fields, old_))
  }

  lemma OldIsSound(f: Field, s: Slot)
    requires InitializedField(f) && SoundSlot(f, s)
    ensures SoundOld(f.ltype, OldValue(f, s)) && SoundOld(f.ltype, DefaultValue(f.ltype, f.initial))
  {
    if f.ltype.SubMessage? {
      DefaultsAreSound(f.ltype.fields);
      OldValueIsSound(f, s);
    }
  }

  lemma OldValueIsSound(f: Field, s: Slot)
    requires f.ltype.SubMessage? && SoundSlot(f, s) && SoundSlots(f.ltype.fields, DefaultSlots(f.ltype.fields))
    ensures SoundSlots(f.ltype.fields, OldSlots(f.ltype.fields, OldValue(f, s)))
    ensures SoundSlots(f.ltype.fields, OldSlots(f.ltype.fields, DefaultValue(f.ltype, f.initial)))
  {
    hide SoundSlots, Sound, SoundSlot, DefaultSlots;
    var fields := f.ltype.fields;
    if !f.htype.Repeated? && (s.One? || (s.Maybe? && s.o.Some?)) {
      var v := if s.One? then s.v else s.o.value;
      SingleIsSound(f, s, v);
      if v.Struct? {
        StructIsSound(fields, v.slots);
      }
    } else if f.htype.Repeated? {
      ItemsAreSound(f, s);
    }
  }

  lemma SingleIsSound(f: Field, s: Slot, v: Value)
    requires SoundSlot(f, s) && (s == One(v) || s == Maybe(Some(v)))
    ensures Sound(f.ltype, v)
  {
    hide Typed, Fits, Terminated;
  }

  lemma ValueIsSound(t: LType, src: Bytes, p: nat, end: nat, old_: Value)
    requires p <= end <= |src| && Sized(t) && InitializedType(t) && SoundOld(t, old_)
    ensures var r := DecodeValue(t, src, p, end, old_); r.Some? ==> Sound(t, r.value.0)
    decreases end - p, 1
  {
    hide Sound, SoundSlots, Initialized, DecodeScalar, DecodeFields, Varint32, OldSlots;
    if t.SubMessage? {
      var n := Varint32(src, p, end);
      if n.Some? && end - n.value.1 >= n.value.0 {
        FieldsAreSound(t.fields, src, n.value.1, n.value.1 + n.value.0, OldSlots(t.fields, old_), {});
        var m := DecodeFields(t.fields, src, n.value.1, n.value.1 + n.value.0, OldSlots(t.fields, old_), {});
        if m.Some? {
          StructIsSound(t.fields, m.value);
        }
      }
    } else {
      ScalarIsSound(t, src, p, end);
    }
  }

  lemma ManyIsSound(f: Field, items: seq<Value>)
    requires f.htype.Repeated?
    ensures SoundSlot(f, Many(items))
       <==> |items| <= f.htype.arraySize && forall i :: 0 <= i < |items| ==> Sound(f.ltype, items[i])
  {
    hide Typed, Fits, Terminated;
  }

  lemma OneIsSound(f: Field, v: Value)
    requires Sound(f.ltype, v)
    ensures f.htype.Required? ==> SoundSlot(f, One(v))
    ensures f.htype.Optional? || f.htype.OneOf? ==> SoundSlot(f, Maybe(Some(v)))
  {
    hide Typed, Fits, Terminated;
  }

  lemma SlotIsSound(f: Field, wireType: nat, src: Bytes, p: nat, end: nat, s: Slot)
    requires p <= end <= |src| && InitializedField(f) && SoundSlot(f, s)
    ensures var r := DecodeSlot(f, wireType, src, p, end, s); r.Some? ==> SoundSlot(f, r.value.0)
    decreases end - p, 2
  {
    hide Sound, SoundSlot, DecodeValue, DecodePacked, Varint32, SoundOld, InitializedType, Sized, Packable,
         DefaultValue, OldValue;
    OldIsSound(f, s);
    if f.htype.Repeated? {
      var items := if s.Many? then s.items else [];
      ItemsAreSound(f, s);
      if wireType == WT_STRING && Packable(f.ltype) {
        var n := Varint32(src, p, end);
        if n.Some? && end - n.value.1 >= n.value.0 {
          PackedIsSound(f, src, n.value.1, n.value.1 + n.value.0, items);
          var r := DecodePacked(f, src, n.value.1, n.value.1 + n.value.0, items);
          if r.Some? {
            ManyIsSound(f, r.value);
          }
        }
      } else if |items| < f.htype.arraySize {
        ValueIsSound(f.ltype, src, p, end, DefaultValue(f.ltype, f.initial));
        var v := DecodeValue(f.ltype, src, p, end, DefaultValue(f.ltype, f.initial));
        if v.Some? {
          ManyIsSound(f, items + [v.value.0]);
        }
      }
    } else {
      ValueIsSound(f.ltype, src, p, end, OldValue(f, s));
      var v := DecodeValue(f.ltype, src, p, end, OldValue(f, s));
      if v.Some? {
        OneIsSound(f, v.value.0);
      }
    }
  }

  lemma ItemsAreSound(f: Field, s: Slot)
    requires f.htype.Repeated? && SoundSlot(f, s)
    ensures s.Many? && |s.items| <= f.htype.arraySize && forall i :: 0 <= i < |s.items| ==> Sound(f.ltype, s.items[i])
  {
    hide Typed, Fits, Terminated;
  }

  /** Writing one slot; of a oneof it becomes the only member that is chosen. */
  lemma WrittenIsSound(fields: seq<Field>, slots: seq<Slot>, i: nat, s: Slot)
    requires SoundSlots(fields, slots) && i < |fields| && SoundSlot(fields[i], s)
    ensures |slots| == |fields| && SoundSlots(fields, WithSlot(fields, slots, i, s))
  {
    hide SlotTyped, SlotFits, SlotTerminated, SoundSlots, SoundSlot;
    SlotsAreSound(fields, slots);
    var r := WithSlot(fields, slots, i, s);
    forall j | 0 <= j < |fields|
      ensures SoundSlot(fields[j], r[j])
    {
      NothingIsSound(fields[j]);
    }
    SlotsAreSound(fields, r);
  }

  lemma NothingIsSound(f: Field)
    ensures f.htype.Optional? || f.htype.OneOf? ==> SoundSlot(f, Maybe(None))
  {
  }

  lemma {:induction false} FieldsAreSound(fields: seq<Field>, src: Bytes, p: nat, end: nat, slots: seq<Slot>,
                                          seen: set<nat>)
    requires p <= end <= |src| && Initialized(fields) && SoundSlots(fields, slots)
    ensures |slots| == |fields|
    ensures var r := DecodeFields(fields, src, p, end, slots, seen); r.Some? ==> SoundSlots(fields, r.value)
    decreases end - p, 0
  {
    SoundLength(fields, slots);
    hide SoundSlots, InitializedField, DecodeSlot, Varint32, PassOver, FindField, WithSlot, RequiredIndex, AllSeen;
    if p < end {
      var tag := Varint32(src, p, end);
      if tag.Some? && tag.value.0 != 0 {
        var i := FindField(fields, tag.value.0 / 8);
        if i == |fields| {
          var next := PassOver(fields, tag.value.0, src, tag.value.1, end);
          if next.Some? {
            FieldsAreSound(fields, src, next.value, end, slots, seen);
          }
        } else {
          SoundAt(fields, slots, i);
          SlotIsSound(fields[i], tag.value.0 % 8, src, tag.value.1, end, slots[i]);
          var s := DecodeSlot(fields[i], tag.value.0 % 8, src, tag.value.1, end, slots[i]);
          if s.Some? {
            var r := RequiredIndex(fields, i);
            WrittenIsSound(fields, slots, i, s.value.0);
            FieldsAreSound(fields, src, s.value.1, end, WithSlot(fields, slots, i, s.value.0),
                           if fields[i].htype.Required? && r < MAX_REQUIRED_FIELDS then seen + {r} else seen);
          }
        }
      }
    }
  }

  lemma SoundLength(fields: seq<Field>, slots: seq<Slot>)
    requires SoundSlots(fields, slots)
    ensures |slots| == |fields|
  {
  }

  /** pb_decode of any bytes gives a sound message or fails. */
  lemma DecodedIsSound(fields: seq<Field>, src: Bytes)
    requires Initialized(fields)
    ensures var r := DecodeMessage(fields, src); r.Some? ==> SoundSlots(fields, r.value)
  {
    hide SoundSlots, Initialized, DecodeFields;
    DefaultsAreSound(fields);
    FieldsAreSound(fields, src, 0, |src|, DefaultSlots(fields), {});
  }

  /** So what was decoded from any bytes can be encoded, and comes back from its encoding. */
  lemma DecodedComesBack(fields: seq<Field>, src: Bytes)
    requires Initialized(fields) && GoodFields(fields) && DecodeMessage(fields, src).Some?
    ensures var slots := DecodeMessage(fields, src).value;
      && SlotsTyped(fields, slots) && SlotsFit(fields, slots)
      && var e := EncodedFields(fields, slots, |fields|); |e| < TWO32 ==> DecodeMessage(fields, e) == Some(slots)
  {
    hide DecodeMessage, EncodedFields, GoodFields;
    DecodedIsSound(fields, src);
    var slots := DecodeMessage(fields, src).value;
    if |EncodedFields(fields, slots, |fields|)| < TWO32 {
      MessageRoundTripsIff(fields, slots);
    }
  }
}
