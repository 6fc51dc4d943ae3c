/** Decoding what the encoder wrote rebuilds the message. */
module PbRoundTrip {
  import opened Options
  import opened Keys
  import opened Coding
  import opened Nanopb
  import opened PbDecode

  // ---- numbers -------------------------------------------------------------------------------------------

  lemma NextWeight(v: nat, weight: nat)
    requires weight in [1, 0x80, 0x4000, 0x20_0000, 0x1000_0000] && v * weight < TWO32 && v >= 128
    ensures weight * 128 in [0x80, 0x4000, 0x20_0000, 0x1000_0000]
  {
    if weight == 0x1000_0000 {
      assert false;
    }
  }

  lemma {:induction false} Varint32FromReads(src: Bytes, p: nat, end: nat, v: nat, result: nat, weight: nat)
    requires At(src, p, Varint(v)) && p + |Varint(v)| <= end <= |src|
    requires weight in [1, 0x80, 0x4000, 0x20_0000, 0x1000_0000] && v * weight < TWO32
    ensures Varint32From(src, p, end, result, weight) == Some((result + v * weight, p + |Varint(v)|))
    decreases v
  {
    hide Varint, Varint32From;
    if v < 128 {
      LastDigit(src, p, v);
      LastDigitFits(v, weight);
      Remains(v * weight, TWO32);
      DigitRead(src, p, end, result, weight);
    } else {
      Digits(v, weight, TWO32);
      NextWeight(v, weight);
      NextDigit(src, p, v);
      DigitRead(src, p, end, result, weight);
      Varint32FromReads(src, p + 1, end, v / 128, result + v % 128 * weight, weight * 128);
    }
  }

  lemma LastDigit(src: Bytes, p: nat, v: nat)
    requires v < 128 && At(src, p, Varint(v))
    ensures |Varint(v)| == 1 && p < |src| && src[p] == v
  {
    assert src[p] == src[p..p + |Varint(v)|][0];
  }

  lemma LastDigitFits(v: nat, weight: nat)
    requires v < 128 && v * weight < TWO32
    ensures weight == 0x1000_0000 ==> v / 16 % 8 == 0
  {
  }

  /** One step of the loop while the result has room. */
  lemma DigitRead(src: Bytes, p: nat, end: nat, result: nat, weight: nat)
    requires p < end <= |src| && weight < TWO32
    ensures Varint32From(src, p, end, result, weight)
         == var r := result + src[p] % 128 * weight % TWO32;
            if src[p] >= 128 then Varint32From(src, p + 1, end, r, weight * 128)
            else if weight == 0x1000_0000 && src[p] / 16 % 8 != 0 then None
            else Some((r, p + 1))
  {
  }

  lemma Varint32Reads(src: Bytes, p: nat, end: nat, v: nat)
    requires At(src, p, Varint(v)) && p + |Varint(v)| <= end <= |src| && v < TWO32
    ensures Varint32(src, p, end) == Some((v, p + |Varint(v)|))
  {
    Varint32FromReads(src, p, end, v, 0, 1);
  }

  lemma Varint64Reads(src: Bytes, p: nat, end: nat, v: nat)
    requires At(src, p, Varint(v)) && p + |Varint(v)| <= end <= |src| && v < TWO64
    ensures Varint64(src, p, end) == Some((v, p + |Varint(v)|))
  {
    VarintReadsBack(src, p, end, v, 0, 1, TWO64);
  }

  lemma Blob32Reads(src: Bytes, p: nat, end: nat, s: Bytes)
    requires At(src, p, LengthPrefixed(s)) && p + |LengthPrefixed(s)| <= end <= |src| && |s| < TWO32
    ensures Blob32(src, p, end) == Some((s, p + |LengthPrefixed(s)|))
  {
    hide Varint, Varint32;
    AtParts(src, p, Varint(|s|), s);
    Varint32Reads(src, p, end, |s|);
  }

  /** Signed numbers survive the trip through 64 bits, whatever the size of their field. */
  lemma SignedRoundTrips(n: int, size: nat)
    requires IsSize(size) && -Half(size) <= n < Half(size)
    ensures Unsigned(n) < TWO64
    ensures (if size == 8 then Signed(Unsigned(n), TWO64 / 2) else Signed(Unsigned(n) % TWO32, 0x8000_0000)) == n
  {
    if n < 0 && size != 8 {
      assert (n + TWO64) % TWO32 == n + TWO32;
    }
  }

  lemma ZigzagRoundTrips(n: int, size: nat)
    requires IsSize(size) && -Half(size) <= n < Half(size)
    ensures Zigzag(n) < TWO64 && Unzigzag(Zigzag(n)) == n
  {
  }

  lemma FixedReads(src: Bytes, p: nat, v: nat, n: nat)
    requires At(src, p, Fixed(v, n)) && v < Power(256, n)
    ensures DecodeFixed(src[p..p + n]) == v
  {
    FixedRoundTrip(v, n);
  }

  lemma Powers()
    ensures Power(256, 4) == TWO32 && Power(256, 8) == TWO64
  {
    assert Power(256, 2) == 65536;
    assert Power(256, 4) == 256 * (256 * Power(256, 2));
    assert Power(256, 6) == 256 * (256 * Power(256, 4));
    assert Power(256, 8) == 256 * (256 * Power(256, 6));
  }

  lemma {:induction false} NoNul(s: Bytes)
    requires 0 !in s
    ensures UpToNul(s) == s
  {
    if s != [] {
      assert s[0] in s;
      assert forall b :: b in s[1..] ==> b in s;
      NoNul(s[1..]);
      assert s == [s[0]] + s[1..];
    }
  }

  /** A string that fills its array is encoded, but leaves no room for the terminator when it is decoded. */
  predicate Terminated(t: LType, v: Value)
    requires Typed(t, v)
    decreases v
  {
    match t
    case StringType(size) => |v.s| < size
    case SubMessage(fields) => AllTerminated(fields, v.slots)
    case _ => true
  }

  predicate SlotTerminated(f: Field, s: Slot)
    requires SlotTyped(f, s)
    decreases s
  {
    match s
    case One(v) => Terminated(f.ltype, v)
    case Maybe(o) => o.Some? ==> Terminated(f.ltype, o.value)
    case Many(items) => forall i :: 0 <= i < |items| ==> Terminated(f.ltype, items[i])
  }

  predicate AllTerminated(fields: seq<Field>, slots: seq<Slot>)
    requires SlotsTyped(fields, slots)
    decreases slots
  {
    forall i :: 0 <= i < |slots| ==> SlotTerminated(fields[i], slots[i])
  }

  lemma NumberReads(t: LType, v: Value, src: Bytes, p: nat, end: nat)
    requires Packable(t) && Typed(t, v)
    requires At(src, p, Encoded(t, v)) && p + |Encoded(t, v)| <= end <= |src|
    ensures DecodeScalar(t, src, p, end) == Some((v, p + |Encoded(t, v)|))
  {
    hide Varint, Varint32, Varint64, At, Fixed, DecodeFixed, Power;
    match t
    case Bool => Varint32Reads(src, p, end, if v.b then 1 else 0);
    case SignedVarint(size) =>
      SignedRoundTrips(v.n, size);
      Varint64Reads(src, p, end, Unsigned(v.n));
    case UnsignedVarint(size) => Varint64Reads(src, p, end, v.n);
    case ZigzagVarint(size) =>
      ZigzagRoundTrips(v.n, size);
      Varint64Reads(src, p, end, Zigzag(v.n));
    case Fixed32 =>
      Powers();
      FixedReads(src, p, v.n, 4);
    case Fixed64 =>
      Powers();
      FixedReads(src, p, v.n, 8);
  }

  /**
   Strings and bytes: the decoder turns down a string that the encoder wrote although it leaves no room for
   its terminator.
   */
  lemma BlobReads(t: LType, v: Value, src: Bytes, p: nat, end: nat)
    requires t.BytesType? || t.StringType? || t.FixedLengthBytes?
    requires Typed(t, v) && Fits(t, v) && |v.s| < TWO32
    requires At(src, p, Encoded(t, v)) && p + |Encoded(t, v)| <= end <= |src|
    ensures DecodeScalar(t, src, p, end) == if Terminated(t, v) then Some((v, p + |Encoded(t, v)|)) else None
  {
    hide LengthPrefixed, Blob32, At;
    Blob32Reads(src, p, end, v.s);
    if t.StringType? {
      NoNul(v.s);
    }
  }

  // ---- messages ------------------------------------------------------------------------------------------

  /** The structure when the first `n` fields have been decoded. */
  ghost function Partial(fields: seq<Field>, slots: seq<Slot>, n: nat): (r: seq<Slot>)
    requires |slots| == |fields| && n <= |fields|
    ensures |r| == |fields|
  {
    slots[..n] + DefaultSlots(fields)[n..]
  }

  /** The required fields among the first `n` that are tracked. */
  ghost function SeenUpTo(fields: seq<Field>, n: nat): set<nat>
    requires n <= |fields|
  {
    if n == 0 then {} else
      var r := RequiredIndex(fields, n - 1);
      SeenUpTo(fields, n - 1) + if fields[n - 1].htype.Required? && r < MAX_REQUIRED_FIELDS then {r} else {}
  }

  lemma {:induction false} SeenAre(fields: seq<Field>, n: nat, r: nat)
    requires n <= |fields|
    ensures r in SeenUpTo(fields, n) <==> r < RequiredIndex(fields, n) && r < MAX_REQUIRED_FIELDS
  {
    if n > 0 {
      SeenAre(fields, n - 1, r);
    }
  }

  lemma TagReads(fields: seq<Field>, i: nat, src: Bytes, p: nat, end: nat, wireType: nat)
    requires GoodFields(fields) && i < |fields| && wireType < 8
    requires At(src, p, Tag(wireType, fields[i].tag)) && p + |Tag(wireType, fields[i].tag)| <= end <= |src|
    ensures var t := Varint32(src, p, end);
      && t.Some? && t.value.1 == p + |Tag(wireType, fields[i].tag)|
      && t.value.0 > 0 && t.value.0 / 8 == fields[i].tag && t.value.0 % 8 == wireType
    ensures FindField(fields, fields[i].tag) == i
  {
    hide Varint32, Varint, At;
    assert GoodField(fields[i]);
    Varint32Reads(src, p, end, 8 * fields[i].tag + wireType);
    var j := FindField(fields, fields[i].tag);
  }

  /** One tag and one value: the next step of decoding a message, which may fail. */
  lemma FieldStep(fields: seq<Field>, i: nat, src: Bytes, p: nat, end: nat, wireType: nat, slots: seq<Slot>,
                  seen: set<nat>, r: PbDecode.Parsed<Slot>)
    requires GoodFields(fields) && i < |fields| && wireType < 8 && |slots| == |fields|
    requires At(src, p, Tag(wireType, fields[i].tag)) && p + |Tag(wireType, fields[i].tag)| <= end <= |src|
    requires DecodeSlot(fields[i], wireType, src, p + |Tag(wireType, fields[i].tag)|, end, slots[i]) == r
    ensures r.Some? ==> p < r.value.1 <= end
    ensures DecodeFields(fields, src, p, end, slots, seen)
         == if r.None? then None else
              DecodeFields(fields, src, r.value.1, end, WithSlot(fields, slots, i, r.value.0),
                           if fields[i].htype.Required? && RequiredIndex(fields, i) < MAX_REQUIRED_FIELDS
                           then seen + {RequiredIndex(fields, i)} else seen)
  {
    hide Varint32, Tag, At, DecodeSlot, FindField, GoodFields, WithSlot, RequiredIndex;
    TagReads(fields, i, src, p, end, wireType);
  }

  lemma PartialAt(fields: seq<Field>, slots: seq<Slot>, n: nat, j: nat)
    requires |slots| == |fields| && n <= |fields| && j < |fields|
    ensures Partial(fields, slots, n)[j] == if j < n then slots[j] else DefaultSlot(fields[j])
  {
    hide DefaultSlot;
  }

  /** Writing slot `i` into a structure whose first `i` fields are decoded. */
  lemma SlotWritten(fields: seq<Field>, slots: seq<Slot>, i: nat)
    requires |slots| == |fields| && SlotsTyped(fields, slots) && i < |fields|
    requires fields[i].htype.Required? || (slots[i].Maybe? && slots[i].o.Some?)
    ensures WithSlot(fields, Partial(fields, slots, i), i, slots[i]) == Partial(fields, slots, i + 1)
    ensures Partial(fields, slots, i)[i] == DefaultSlot(fields[i])
  {
    hide SlotsTyped, Partial, DefaultSlot, WithSlot;
    PartialAt(fields, slots, i, i);
    var r := WithSlot(fields, Partial(fields, slots, i), i, slots[i]);
    forall j: nat | j < |fields|
      ensures r[j] == Partial(fields, slots, i + 1)[j]
    {
      SlotWrittenAt(fields, slots, i, j);
    }
  }

  lemma SlotWrittenAt(fields: seq<Field>, slots: seq<Slot>, i: nat, j: nat)
    requires SlotsTyped(fields, slots) && i < |fields| && j < |fields|
    requires fields[i].htype.Required? || (slots[i].Maybe? && slots[i].o.Some?)
    ensures WithSlot(fields, Partial(fields, slots, i), i, slots[i])[j] == Partial(fields, slots, i + 1)[j]
  {
    hide Partial, SlotTyped, OneChoice;
    PartialAt(fields, slots, i, j);
    PartialAt(fields, slots, i + 1, j);
    if j < i && fields[i].htype.OneOf? && fields[j].htype == fields[i].htype {
      EarlierChoice(fields, slots, j, i);
    }
  }

  lemma EarlierChoice(fields: seq<Field>, slots: seq<Slot>, j: nat, i: nat)
    requires SlotsTyped(fields, slots) && j < i < |fields|
    requires slots[i].Maybe? && slots[i].o.Some? && fields[i].htype.OneOf? && fields[j].htype == fields[i].htype
    ensures slots[j] == Maybe(None)
  {
    assert SlotTyped(fields[j], slots[j]);
  }

  /** A field that is not encoded is left at its default. */
  lemma NothingWritten(fields: seq<Field>, slots: seq<Slot>, i: nat)
    requires SlotsTyped(fields, slots) && i < |fields|
    requires slots[i] == Maybe(None) || slots[i] == Many([])
    ensures EncodedSlot(fields[i], slots[i]) == []
    ensures Partial(fields, slots, i + 1) == Partial(fields, slots, i)
  {
    EmptyIsDefault(fields, slots, i);
    hide Partial, DefaultSlot, SlotTyped, EncodedSlot, SlotsTyped;
    forall j: nat | j < |fields|
      ensures Partial(fields, slots, i + 1)[j] == Partial(fields, slots, i)[j]
    {
      PartialAt(fields, slots, i, j);
      PartialAt(fields, slots, i + 1, j);
    }
  }

  lemma EmptyIsDefault(fields: seq<Field>, slots: seq<Slot>, i: nat)
    requires SlotsTyped(fields, slots) && i < |fields|
    requires slots[i] == Maybe(None) || slots[i] == Many([])
    ensures SlotTyped(fields[i], slots[i]) && EncodedSlot(fields[i], slots[i]) == []
              && slots[i] == DefaultSlot(fields[i])
  {
    assert SlotTyped(fields[i], slots[i]);
  }

  lemma {:induction false} PrefixEnds(fields: seq<Field>, slots: seq<Slot>, n: nat)
    requires SlotsTyped(fields, slots) && n <= |fields|
    ensures |EncodedFields(fields, slots, n)| <= |EncodedFields(fields, slots, |fields|)|
    ensures EncodedFields(fields, slots, n) <= EncodedFields(fields, slots, |fields|)
    decreases |fields| - n
  {
    hide EncodedSlot;
    if n < |fields| {
      PrefixEnds(fields, slots, n + 1);
    }
  }

  /** Where the bytes of field `i` are. */
  lemma SlotAt(fields: seq<Field>, slots: seq<Slot>, i: nat, src: Bytes, start: nat)
    requires SlotsTyped(fields, slots) && i < |fields| && At(src, start, EncodedFields(fields, slots, |fields|))
    ensures At(src, start + |EncodedFields(fields, slots, i)|, EncodedSlot(fields[i], slots[i]))
    ensures |EncodedFields(fields, slots, i + 1)|
              == |EncodedFields(fields, slots, i)| + |EncodedSlot(fields[i], slots[i])|
    ensures start + |EncodedFields(fields, slots, i + 1)| <= start + |EncodedFields(fields, slots, |fields|)| <= |src|
  {
    hide EncodedSlot, EncodedFields;
    PrefixEnds(fields, slots, i + 1);
    FieldsUpTo(fields, slots, i);
    var all := EncodedFields(fields, slots, |fields|);
    var upTo := EncodedFields(fields, slots, i + 1);
    assert all == upTo + all[|upTo|..];
    AtParts(src, start, upTo, all[|upTo|..]);
    AtParts(src, start, EncodedFields(fields, slots, i), EncodedSlot(fields[i], slots[i]));
  }

  lemma FieldsUpTo(fields: seq<Field>, slots: seq<Slot>, i: nat)
    requires SlotsTyped(fields, slots) && i < |fields|
    ensures EncodedFields(fields, slots, i + 1) == EncodedFields(fields, slots, i) + EncodedSlot(fields[i], slots[i])
  {
    hide EncodedSlot;
  }

  /** A message that fits its descriptor, in fewer than 2^32 bytes. */
  ghost predicate Storable(fields: seq<Field>, slots: seq<Slot>) {
    && GoodFields(fields) && SlotsTyped(fields, slots) && SlotsFit(fields, slots)
    && |EncodedFields(fields, slots, |fields|)| < TWO32
  }

  ghost predicate StorableValue(t: LType, v: Value) {
    GoodType(t) && Typed(t, v) && Fits(t, v) && |Encoded(t, v)| < TWO32
  }

  /** A value is read back, into a structure with the defaults of its type, if all its strings end. */
  lemma ValueReads(f: Field, v: Value, src: Bytes, p: nat, end: nat)
    requires StorableValue(f.ltype, v)
    requires At(src, p, Encoded(f.ltype, v)) && p + |Encoded(f.ltype, v)| <= end <= |src|
    ensures DecodeValue(f.ltype, src, p, end, DefaultValue(f.ltype, f.initial))
         == if Terminated(f.ltype, v) then Some((v, p + |Encoded(f.ltype, v)|)) else None
    decreases v, 0
  {
    hide At, DecodeFields, EncodedFields, SlotsTyped, SlotsFit, AllTerminated, GoodFields, Storable, DecodeScalar,
         Varint, Varint32;
    var t := f.ltype;
    match t
    case SubMessage(fields) =>
      SubMessageIsStorable(fields, v);
      SubMessageReads(fields, v.slots, src, p, end, DefaultValue(t, f.initial));
    case _ =>
      if Packable(t) {
        NumberReads(t, v, src, p, end);
      } else {
        BlobReads(t, v, src, p, end);
      }
  }

  lemma SubMessageIsStorable(fields: seq<Field>, v: Value)
    requires StorableValue(SubMessage(fields), v)
    ensures v.Struct? && Storable(fields, v.slots)
  {
    hide Varint, EncodedFields;
  }

  lemma SubMessageReads(fields: seq<Field>, slots: seq<Slot>, src: Bytes, p: nat, end: nat, old_: Value)
    requires Storable(fields, slots) && OldSlots(fields, old_) == DefaultSlots(fields)
    requires var e := LengthPrefixed(EncodedFields(fields, slots, |fields|)); At(src, p, e) && p + |e| <= end <= |src|
    ensures DecodeValue(SubMessage(fields), src, p, end, old_)
         == if AllTerminated(fields, slots)
            then Some((Struct(slots), p + |LengthPrefixed(EncodedFields(fields, slots, |fields|))|)) else None
    decreases slots, |fields| + 1
  {
    hide Varint, Varint32, At, EncodedFields, DecodeFields, Storable, OldSlots, SlotTerminated;
    PartsOf(fields, slots);
    var e := EncodedFields(fields, slots, |fields|);
    AtParts(src, p, Varint(|e|), e);
    BelowTwo32(fields, slots);
    Varint32Reads(src, p, end, |e|);
    FieldsRead(fields, slots, src, p + |Varint(|e|)|, p + |Varint(|e|)| + |e|, |fields|);
    AllRead(fields, slots, src, p + |Varint(|e|)|, p + |Varint(|e|)| + |e|);
  }

  lemma BelowTwo32(fields: seq<Field>, slots: seq<Slot>)
    requires Storable(fields, slots)
    ensures |EncodedFields(fields, slots, |fields|)| < TWO32
  {
  }

  /** When all fields have been read, no required one is missing. */
  lemma AllRead(fields: seq<Field>, slots: seq<Slot>, src: Bytes, p: nat, end: nat)
    requires |slots| == |fields|
    requires SlotsTyped(fields, slots) && p + |EncodedFields(fields, slots, |fields|)| == end <= |src|
    ensures DecodeFields(fields, src, end, end, Partial(fields, slots, |fields|), SeenUpTo(fields, |fields|))
              == Some(slots)
  {
    hide EncodedFields, SlotTyped, OneChoice, SeenUpTo;
    forall r: nat
      ensures r in SeenUpTo(fields, |fields|) <==> r < RequiredIndex(fields, |fields|) && r < MAX_REQUIRED_FIELDS
    {
      SeenAre(fields, |fields|, r);
    }
    assert Partial(fields, slots, |fields|) == slots;
  }

  ghost predicate TerminatedUpTo(fields: seq<Field>, slots: seq<Slot>, n: nat)
    requires n <= |fields| && SlotsTyped(fields, slots)
  {
    forall i :: 0 <= i < n ==> SlotTerminated(fields[i], slots[i])
  }

  lemma OneMoreEnds(fields: seq<Field>, slots: seq<Slot>, n: nat)
    requires n < |fields| && SlotsTyped(fields, slots)
    ensures TerminatedUpTo(fields, slots, n + 1)
       <==> TerminatedUpTo(fields, slots, n) && SlotTerminated(fields[n], slots[n])
  {
    hide SlotTerminated;
  }

  lemma NothingBefore(fields: seq<Field>, slots: seq<Slot>)
    requires SlotsTyped(fields, slots)
    ensures TerminatedUpTo(fields, slots, 0) && EncodedFields(fields, slots, 0) == []
  {
  }

  /** The first `n` fields are read back up to the first one with a string that does not end. */
  lemma {:induction false} FieldsRead(fields: seq<Field>, slots: seq<Slot>, src: Bytes, start: nat, end: nat, n: nat)
    requires Storable(fields, slots) && n <= |fields|
    requires At(src, start, EncodedFields(fields, slots, |fields|))
               && start + |EncodedFields(fields, slots, |fields|)| == end <= |src|
    ensures start + |EncodedFields(fields, slots, n)| <= end
    ensures DecodeFields(fields, src, start, end, DefaultSlots(fields), {})
         == if TerminatedUpTo(fields, slots, n)
            then DecodeFields(fields, src, start + |EncodedFields(fields, slots, n)|, end, Partial(fields, slots, n),
              SeenUpTo(fields, n))
            else None
    decreases slots, n
  {
    hide At, DecodeFields, EncodedSlot, EncodedFields, Storable, SeenUpTo, Partial, SlotTerminated, TerminatedUpTo;
    PartsOf(fields, slots);
    NothingBefore(fields, slots);
    if n == 0 {
      NothingRead(fields, slots);
    } else {
      OneMoreEnds(fields, slots, n - 1);
      FieldsRead(fields, slots, src, start, end, n - 1);
      SlotAt(fields, slots, n - 1, src, start);
      SlotReads(fields, slots, n - 1, src, start + |EncodedFields(fields, slots, n - 1)|, end);
    }
  }

  lemma NothingRead(fields: seq<Field>, slots: seq<Slot>)
    requires |slots| == |fields|
    ensures Partial(fields, slots, 0) == DefaultSlots(fields) && SeenUpTo(fields, 0) == {}
  {
  }

  lemma PartsOf(fields: seq<Field>, slots: seq<Slot>)
    requires Storable(fields, slots)
    ensures |slots| == |fields| && SlotsTyped(fields, slots)
  {
  }

  // ---- one field -----------------------------------------------------------------------------------------

  lemma FieldIsStorable(fields: seq<Field>, slots: seq<Slot>, i: nat)
    requires Storable(fields, slots) && i < |fields|
    ensures |slots| == |fields| && SlotTyped(fields[i], slots[i]) && SlotFits(fields[i], slots[i])
    ensures GoodFields(fields) && GoodType(fields[i].ltype)
    ensures |EncodedSlot(fields[i], slots[i])| < TWO32
  {
    hide EncodedSlot;
    PrefixEnds(fields, slots, i + 1);
    assert GoodField(fields[i]);
  }

  /** One field of a message is read: the induction step. */
  lemma SlotReads(fields: seq<Field>, slots: seq<Slot>, i: nat, src: Bytes, p: nat, end: nat)
    requires Storable(fields, slots) && i < |fields| && |slots| == |fields| && SlotTyped(fields[i], slots[i])
    requires At(src, p, EncodedSlot(fields[i], slots[i])) && p + |EncodedSlot(fields[i], slots[i])| <= end <= |src|
    ensures DecodeFields(fields, src, p, end, Partial(fields, slots, i), SeenUpTo(fields, i))
         == if SlotTerminated(fields[i], slots[i])
            then DecodeFields(fields, src, p + |EncodedSlot(fields[i], slots[i])|, end, Partial(fields, slots, i + 1),
              SeenUpTo(fields, i + 1))
            else None
    decreases slots[i], 2
  {
    hide At, DecodeFields, Storable, Tag, Encoded, EncodedItems, Typed, Fits, Terminated, Partial, WithSlot,
         DecodeValue, RequiredIndex, GoodFields, GoodType;
    FieldIsStorable(fields, slots, i);
    var f := fields[i];
    match slots[i]
    case One(v) => SingleReads(fields, slots, i, v, src, p, end);
    case Maybe(o) =>
      if o.Some? {
        SingleReads(fields, slots, i, o.value, src, p, end);
      } else {
        NothingIsRead(fields, slots, i);
      }
    case Many(items) =>
      if items == [] {
        NothingIsRead(fields, slots, i);
      } else if Packable(f.ltype) {
        PackedReads(fields, slots, i, src, p, end);
        NumbersEnd(f, slots[i]);
      } else {
        ItemsRead(fields, slots, i, src, p, end, |items|);
        ListWritten(fields, slots, i, |items|);
      }
  }

  /** Numbers are no strings. */
  lemma NumbersEnd(f: Field, s: Slot)
    requires SlotTyped(f, s) && s.Many? && Packable(f.ltype)
    ensures SlotTerminated(f, s)
  {
  }

  lemma NothingIsRead(fields: seq<Field>, slots: seq<Slot>, i: nat)
    requires Storable(fields, slots) && i < |fields| && |slots| == |fields| && SlotTyped(fields[i], slots[i])
    requires slots[i] == Maybe(None) || slots[i] == Many([])
    ensures EncodedSlot(fields[i], slots[i]) == []
    ensures Partial(fields, slots, i + 1) == Partial(fields, slots, i) && SeenUpTo(fields, i + 1) == SeenUpTo(fields, i)
  {
    NothingWritten(fields, slots, i);
  }

  /** A field with one value, required or not. */
  lemma SingleReads(fields: seq<Field>, slots: seq<Slot>, i: nat, v: Value, src: Bytes, p: nat, end: nat)
    requires Storable(fields, slots) && i < |fields| && |slots| == |fields| && SlotTyped(fields[i], slots[i])
    requires slots[i] == One(v) || slots[i] == Maybe(Some(v))
    requires At(src, p, EncodedSlot(fields[i], slots[i])) && p + |EncodedSlot(fields[i], slots[i])| <= end <= |src|
    ensures DecodeFields(fields, src, p, end, Partial(fields, slots, i), SeenUpTo(fields, i))
         == if SlotTerminated(fields[i], slots[i])
            then DecodeFields(fields, src, p + |EncodedSlot(fields[i], slots[i])|, end, Partial(fields, slots, i + 1),
              SeenUpTo(fields, i + 1))
            else None
    decreases slots[i], 1
  {
    hide At, DecodeFields, Storable, Tag, Encoded, Typed, Fits, Terminated, Partial, SeenUpTo, WithSlot, DecodeValue,
         RequiredIndex, GoodFields, GoodType;
    FieldIsStorable(fields, slots, i);
    var f := fields[i];
    var tag := Tag(WireType(f.ltype), f.tag);
    AtParts(src, p, tag, Encoded(f.ltype, v));
    ValueReads(f, v, src, p + |tag|, end);
    Written(fields, slots, i);
    SeenNext(fields, i);
    FieldStep(fields, i, src, p, end, WireType(f.ltype), Partial(fields, slots, i), SeenUpTo(fields, i),
              if Terminated(f.ltype, v) then Some((slots[i], p + |tag| + |Encoded(f.ltype, v)|)) else None);
  }

  lemma SeenNext(fields: seq<Field>, i: nat)
    requires i < |fields|
    ensures var r := RequiredIndex(fields, i);
            SeenUpTo(fields, i + 1) == if fields[i].htype.Required? && r < MAX_REQUIRED_FIELDS then
              SeenUpTo(fields, i) + {r} else SeenUpTo(fields, i)
  {
  }

  lemma Written(fields: seq<Field>, slots: seq<Slot>, i: nat)
    requires Storable(fields, slots) && i < |fields| && |slots| == |fields|
    requires slots[i].One? || (slots[i].Maybe? && slots[i].o.Some?)
    ensures SlotTyped(fields[i], slots[i])
    ensures WithSlot(fields, Partial(fields, slots, i), i, slots[i]) == Partial(fields, slots, i + 1)
    ensures Partial(fields, slots, i)[i] == DefaultSlot(fields[i])
  {
    assert SlotTyped(fields[i], slots[i]);
    SlotWritten(fields, slots, i);
  }

  // ---- repeated fields -----------------------------------------------------------------------------------

  /** The structure when `n` items of field `i` have been decoded. */
  ghost function PartialItems(fields: seq<Field>, slots: seq<Slot>, i: nat, n: nat): (r: seq<Slot>)
    requires |slots| == |fields| && i < |fields| && slots[i].Many? && n <= |slots[i].items|
    ensures |r| == |fields|
  {
    Partial(fields, slots, i)[i := Many(slots[i].items[..n])]
  }

  lemma {:induction false} ListWritten(fields: seq<Field>, slots: seq<Slot>, i: nat, n: nat)
    requires |slots| == |fields| && i < |fields| && slots[i].Many? && n == |slots[i].items| && fields[i].htype.Repeated?
    ensures PartialItems(fields, slots, i, n) == Partial(fields, slots, i + 1)
    ensures PartialItems(fields, slots, i, 0) == Partial(fields, slots, i)
    ensures SeenUpTo(fields, i + 1) == SeenUpTo(fields, i)
    ensures WithSlot(fields, Partial(fields, slots, i), i, slots[i]) == Partial(fields, slots, i + 1)
  {
    hide Partial, DefaultSlots;
    assert slots[i].items[..n] == slots[i].items;
    var r := WithSlot(fields, Partial(fields, slots, i), i, slots[i]);
    forall j: nat | j < |fields|
      ensures PartialItems(fields, slots, i, n)[j] == Partial(fields, slots, i + 1)[j]
      ensures PartialItems(fields, slots, i, 0)[j] == Partial(fields, slots, i)[j]
      ensures r[j] == Partial(fields, slots, i + 1)[j]
    {
      PartialAt(fields, slots, i, j);
      PartialAt(fields, slots, i + 1, j);
    }
    assert PartialItems(fields, slots, i, 0) == Partial(fields, slots, i);
    assert r == Partial(fields, slots, i + 1);
  }

  lemma OneMoreItem(fields: seq<Field>, slots: seq<Slot>, i: nat, n: nat)
    requires |slots| == |fields| && i < |fields| && slots[i].Many? && n < |slots[i].items| && fields[i].htype.Repeated?
    ensures WithSlot(fields, PartialItems(fields, slots, i, n), i, Many(slots[i].items[..n] + [slots[i].items[n]]))
         == PartialItems(fields, slots, i, n + 1)
  {
    hide Partial;
    assert slots[i].items[..n] + [slots[i].items[n]] == slots[i].items[..n + 1];
  }

  lemma {:induction false} ItemAt(f: Field, items: seq<Value>, k: nat, tagged: bool, src: Bytes, p: nat)
    requires k < |items| && forall j :: 0 <= j < |items| ==> Typed(f.ltype, items[j])
    requires At(src, p, EncodedItems(f, items, |items|, tagged))
    ensures var one := (if tagged then Tag(WireType(f.ltype), f.tag) else []) + Encoded(f.ltype, items[k]);
      && At(src, p + |EncodedItems(f, items, k, tagged)|, one)
      && |EncodedItems(f, items, k + 1, tagged)| == |EncodedItems(f, items, k, tagged)| + |one|
      && |EncodedItems(f, items, k + 1, tagged)| <= |EncodedItems(f, items, |items|, tagged)|
  {
    hide Encoded, Tag, Typed, EncodedItems;
    ItemsArePrefix(f, items, k + 1, tagged);
    ItemsUpTo(f, items, k, tagged);
    var all, upTo := EncodedItems(f, items, |items|, tagged), EncodedItems(f, items, k + 1, tagged);
    var one := (if tagged then Tag(WireType(f.ltype), f.tag) else []) + Encoded(f.ltype, items[k]);
    assert all == upTo + all[|upTo|..];
    AtParts(src, p, upTo, all[|upTo|..]);
    AtParts(src, p, EncodedItems(f, items, k, tagged), one);
  }

  lemma ItemsUpTo(f: Field, items: seq<Value>, k: nat, tagged: bool)
    requires k < |items| && forall j :: 0 <= j < |items| ==> Typed(f.ltype, items[j])
    ensures EncodedItems(f, items, k + 1, tagged)
         == EncodedItems(f, items, k, tagged)
           + ((if tagged then Tag(WireType(f.ltype), f.tag) else []) + Encoded(f.ltype, items[k]))
  {
    hide Encoded, Tag, Typed;
  }

  lemma {:induction false} ItemsArePrefix(f: Field, items: seq<Value>, n: nat, tagged: bool)
    requires n <= |items| && forall j :: 0 <= j < |items| ==> Typed(f.ltype, items[j])
    ensures EncodedItems(f, items, n, tagged) <= EncodedItems(f, items, |items|, tagged)
    decreases |items| - n
  {
    hide Encoded, Tag, Typed;
    if n < |items| {
      ItemsArePrefix(f, items, n + 1, tagged);
    }
  }

  /** A packed array is read back item by item. */
  lemma {:induction false} PackedItemsRead(f: Field, items: seq<Value>, src: Bytes, p: nat, end: nat, n: nat)
    requires f.htype.Repeated? && |items| <= f.htype.arraySize && Packable(f.ltype) && n <= |items|
    requires forall j :: 0 <= j < |items| ==> Typed(f.ltype, items[j])
    requires At(src, p, EncodedItems(f, items, |items|, false))
               && p + |EncodedItems(f, items, |items|, false)| == end <= |src|
    ensures p + |EncodedItems(f, items, n, false)| <= end
    ensures DecodePacked(f, src, p, end, [])
              == DecodePacked(f, src, p + |EncodedItems(f, items, n, false)|, end, items[..n])
  {
    hide Encoded, Typed, At, DecodeScalar, EncodedItems, Packable;
    if n == 0 {
      NoItems(f, items);
    } else {
      PackedItemsRead(f, items, src, p, end, n - 1);
      ItemAt(f, items, n - 1, false, src, p);
      var q := p + |EncodedItems(f, items, n - 1, false)|;
      assert [] + Encoded(f.ltype, items[n - 1]) == Encoded(f.ltype, items[n - 1]);
      NumberReads(f.ltype, items[n - 1], src, q, end);
      NotEmpty(f.ltype, items[n - 1]);
      assert items[..n - 1] + [items[n - 1]] == items[..n];
    }
  }

  lemma NoItems(f: Field, items: seq<Value>)
    requires forall j :: 0 <= j < |items| ==> Typed(f.ltype, items[j])
    ensures EncodedItems(f, items, 0, false) == [] && EncodedItems(f, items, 0, true) == []
  {
  }

  lemma NotEmpty(t: LType, v: Value)
    requires Typed(t, v)
    ensures |Encoded(t, v)| > 0
  {
  }

  lemma PackedReads(fields: seq<Field>, slots: seq<Slot>, i: nat, src: Bytes, p: nat, end: nat)
    requires Storable(fields, slots) && i < |fields| && |slots| == |fields| && SlotTyped(fields[i], slots[i])
    requires slots[i].Many? && slots[i].items != [] && Packable(fields[i].ltype)
    requires At(src, p, EncodedSlot(fields[i], slots[i])) && p + |EncodedSlot(fields[i], slots[i])| <= end <= |src|
    ensures DecodeFields(fields, src, p, end, Partial(fields, slots, i), SeenUpTo(fields, i))
         == DecodeFields(fields, src, p + |EncodedSlot(fields[i], slots[i])|, end, Partial(fields, slots, i + 1),
           SeenUpTo(fields, i + 1))
  {
    hide At, DecodeFields, Storable, Tag, Encoded, EncodedItems, Typed, Fits, Terminated, Partial, SeenUpTo, WithSlot,
         RequiredIndex, GoodFields, GoodType, Varint, Varint32, DecodePacked, Packable;
    FieldIsStorable(fields, slots, i);
    var f, items := fields[i], slots[i].items;
    var tag, body := Tag(WT_STRING, f.tag), EncodedItems(f, items, |items|, false);
    AtParts(src, p, tag, LengthPrefixed(body));
    AtParts(src, p + |tag|, Varint(|body|), body);
    Varint32Reads(src, p + |tag|, end, |body|);
    var start := p + |tag| + |Varint(|body|)|;
    PackedItemsRead(f, items, src, start, start + |body|, |items|);
    PackedEnds(f, src, start + |body|, items);
    assert items[..|items|] == items;
    PartialAt(fields, slots, i, i);
    ListWritten(fields, slots, i, |items|);
    FieldStep(fields, i, src, p, end, WT_STRING, Partial(fields, slots, i), SeenUpTo(fields, i),
      Some((slots[i], start + |body|)));
  }

  lemma PackedEnds(f: Field, src: Bytes, end: nat, items: seq<Value>)
    requires f.htype.Repeated? && end <= |src|
    ensures DecodePacked(f, src, end, end, items) == Some(items)
  {
  }

  /** A field that is not packed is read back item by item, each with its tag. */
  lemma {:induction false} ItemsRead(fields: seq<Field>, slots: seq<Slot>, i: nat, src: Bytes, p: nat, end: nat, n: nat)
    requires Storable(fields, slots) && i < |fields| && |slots| == |fields| && SlotTyped(fields[i], slots[i])
    requires slots[i].Many? && slots[i].items != [] && !Packable(fields[i].ltype) && n <= |slots[i].items|
    requires At(src, p, EncodedSlot(fields[i], slots[i])) && p + |EncodedSlot(fields[i], slots[i])| <= end <= |src|
    ensures p + |EncodedItems(fields[i], slots[i].items, n, true)| <= end
    ensures DecodeFields(fields, src, p, end, Partial(fields, slots, i), SeenUpTo(fields, i))
         == if forall j :: 0 <= j < n ==> Terminated(fields[i].ltype, slots[i].items[j])
            then DecodeFields(fields, src, p + |EncodedItems(fields[i], slots[i].items, n, true)|, end,
              PartialItems(fields, slots, i, n), SeenUpTo(fields, i))
            else None
    decreases slots[i], 1, n
  {
    hide At, DecodeFields, Storable, Tag, Encoded, EncodedItems, Typed, Fits, Terminated, Partial, SeenUpTo, WithSlot,
         RequiredIndex, GoodFields, GoodType, Varint, DecodeValue, Packable, DefaultValue;
    var f, items := fields[i], slots[i].items;
    FieldIsStorable(fields, slots, i);
    if n == 0 {
      NoItems(f, items);
      ListWritten(fields, slots, i, |items|);
    } else {
      ItemsRead(fields, slots, i, src, p, end, n - 1);
      ItemAt(f, items, n - 1, true, src, p);
      var q, tag, v := p + |EncodedItems(f, items, n - 1, true)|, Tag(WireType(f.ltype), f.tag), items[n - 1];
      AtParts(src, q, tag, Encoded(f.ltype, v));
      ValueReads(f, v, src, q + |tag|, end);
      OneMoreItem(fields, slots, i, n - 1);
      FieldStep(fields, i, src, q, end, WireType(f.ltype), PartialItems(fields, slots, i, n - 1), SeenUpTo(fields, i),
                if Terminated(f.ltype, v) then Some((Many(items[..n - 1] + [v]), q + |tag| + |Encoded(f.ltype, v)|))
                  else None);
    }
  }

  // ---- the round trip ------------------------------------------------------------------------------------

  /**
   pb_decode of what pb_encode wrote rebuilds the message if and only if no string in it, at any depth, fills
   its array; otherwise decoding fails.
   */
  lemma MessageRoundTripsIff(fields: seq<Field>, slots: seq<Slot>)
    requires Storable(fields, slots)
    ensures var r := DecodeMessage(fields, EncodedFields(fields, slots, |fields|));
      && (r == Some(slots) <==> AllTerminated(fields, slots))
      && (r == None <==> !AllTerminated(fields, slots))
  {
    hide EncodedFields, DecodeFields, SlotTerminated;
    var src := EncodedFields(fields, slots, |fields|);
    assert src[0..|src|] == src;
    FieldsRead(fields, slots, src, 0, |src|, |fields|);
    AllRead(fields, slots, src, 0, |src|);
  }
}
