/**
 Messages of nanopb (pb.h): field descriptors, message structures, and the bytes that a message is
 encoded to.  A structure is a sequence of slots, one a field; memory offsets are not part of it.
 */
module Nanopb {
  import opened Options
  import opened Keys
  import opened Coding

  /** PB_LTYPE with the sizes that go with it; integers have 1, 2, 4 or 8 bytes. */
  datatype LType =
    | Bool
    | SignedVarint(size: nat)
    | UnsignedVarint(size: nat)
    | ZigzagVarint(size: nat)
    | Fixed32
    | Fixed64
    | BytesType(capacity: nat)
    | StringType(capacity: nat)
    | FixedLengthBytes(size: nat)
    | SubMessage(fields: seq<Field>)

  /** PB_HTYPE; fields of one oneof have the same group. */
  datatype HType = Required | Optional | Repeated(arraySize: nat) | OneOf(group: nat)

  datatype Field = Field(tag: nat, ltype: LType, htype: HType, initial: Value)

  datatype Value = Flag(b: bool) | Number(n: int) | Blob(s: Bytes) | Struct(slots: seq<Slot>)

  /** What a structure holds for a field: a value, a value or nothing (has_ or which_), or counted items. */
  datatype Slot = One(v: Value) | Maybe(o: Option<Value>) | Many(items: seq<Value>)

  const MAX_UINT32: nat := 0xFFFF_FFFF
  const TWO64: int := 0x1_0000_0000_0000_0000

  const WT_VARINT := 0
  const WT_64BIT := 1
  const WT_STRING := 2
  const WT_32BIT := 5

  // ---- what fits -----------------------------------------------------------------------------------------

  function Half(size: nat): (h: int)
    ensures h > 0
  {
    match size
    case 1 => 0x80
    case 2 => 0x8000
    case 4 => 0x8000_0000
    case _ => 0x8000_0000_0000_0000
  }

  predicate IsSize(size: nat) {
    size == 1 || size == 2 || size == 4 || size == 8
  }

  /** What the C types of a structure can hold: any counts, and strings that may fill their array. */
  predicate Typed(t: LType, v: Value)
    decreases v
  {
    match t
    case Bool => v.Flag?
    case SignedVarint(size) => IsSize(size) && v.Number? && -Half(size) <= v.n < Half(size)
    case UnsignedVarint(size) => IsSize(size) && v.Number? && 0 <= v.n < 2 * Half(size)
    case ZigzagVarint(size) => IsSize(size) && v.Number? && -Half(size) <= v.n < Half(size)
    case Fixed32 => v.Number? && 0 <= v.n <= MAX_UINT32
    case Fixed64 => v.Number? && 0 <= v.n < TWO64
    case BytesType(_) => v.Blob?
    case StringType(size) => v.Blob? && |v.s| <= size && 0 !in v.s
    case FixedLengthBytes(size) => v.Blob? && |v.s| == size
    case SubMessage(fields) => v.Struct? && SlotsTyped(fields, v.slots)
  }

  predicate SlotTyped(f: Field, s: Slot)
    decreases s
  {
    match f.htype
    case Required => s.One? && Typed(f.ltype, s.v)
    case Repeated(_) => s.Many? && forall i :: 0 <= i < |s.items| ==> Typed(f.ltype, s.items[i])
    case _ => s.Maybe? && (s.o.Some? ==> Typed(f.ltype, s.o.value))
  }

  /** which_ names at most one field of a oneof. */
  predicate OneChoice(fields: seq<Field>, slots: seq<Slot>)
    requires |fields| == |slots|
  {
    forall i, j :: 0 <= i < j < |fields| && fields[i].htype.OneOf? && fields[j].htype == fields[i].htype ==>
      !(slots[i].Maybe? && slots[i].o.Some? && slots[j].Maybe? && slots[j].o.Some?)
  }

  predicate SlotsTyped(fields: seq<Field>, slots: seq<Slot>)
    decreases slots
  {
    && |slots| == |fields|
    && (forall i :: 0 <= i < |slots| ==> SlotTyped(fields[i], slots[i]))
    && OneChoice(fields, slots)
  }

  /** Within the sizes that the descriptor gives: what can be encoded. */
  predicate Fits(t: LType, v: Value)
    requires Typed(t, v)
    decreases v
  {
    match t
    case BytesType(capacity) => |v.s| <= capacity
    case SubMessage(fields) => SlotsFit(fields, v.slots)
    case _ => true
  }

  predicate SlotFits(f: Field, s: Slot)
    requires SlotTyped(f, s)
    decreases s
  {
    match s
    case One(v) => Fits(f.ltype, v)
    case Maybe(o) => o.Some? ==> Fits(f.ltype, o.value)
    case Many(items) => |items| <= f.htype.arraySize && forall i :: 0 <= i < |items| ==> Fits(f.ltype, items[i])
  }

  predicate SlotsFit(fields: seq<Field>, slots: seq<Slot>)
    requires SlotsTyped(fields, slots)
    decreases slots
  {
    forall i :: 0 <= i < |slots| ==> SlotFits(fields[i], slots[i])
  }

  /** Numeric fields, whose repetitions are packed. */
  predicate Packable(t: LType) {
    t.Bool? || t.SignedVarint? || t.UnsignedVarint? || t.ZigzagVarint? || t.Fixed32? || t.Fixed64?
  }

  /** A descriptor whose fields can be told apart: distinct tags that leave room for the wire type. */
  predicate GoodType(t: LType)
    decreases t
  {
    t.SubMessage? ==> GoodFields(t.fields)
  }

  predicate GoodField(f: Field)
    decreases f
  {
    0 < f.tag < 0x2000_0000 && GoodType(f.ltype)
  }

  predicate GoodFields(fields: seq<Field>)
    decreases fields
  {
    && (forall i :: 0 <= i < |fields| ==> GoodField(fields[i]))
    && (forall i, j :: 0 <= i < j < |fields| ==> fields[i].tag != fields[j].tag)
  }

  // ---- the encoding --------------------------------------------------------------------------------------

  function WireType(t: LType): nat {
    match t
    case Fixed32 => WT_32BIT
    case Fixed64 => WT_64BIT
    case BytesType(_) => WT_STRING
    case StringType(_) => WT_STRING
    case FixedLengthBytes(_) => WT_STRING
    case SubMessage(_) => WT_STRING
    case _ => WT_VARINT
  }

  /** pb_encode_tag. */
  function Tag(wireType: nat, tag: nat): Bytes {
    Varint(8 * tag + wireType)
  }

  /** Negative numbers as 64-bit two's complement. */
  function Unsigned(n: int): nat
    requires -TWO64 <= n
  {
    if n < 0 then n + TWO64 else n
  }

  /** The "Signed Integers" encoding: small absolute values to small numbers. */
  function Zigzag(n: int): nat {
    if n < 0 then -2 * n - 1 else 2 * n
  }

  function Encoded(t: LType, v: Value): Bytes
    requires Typed(t, v)
    decreases v, 0
  {
    match t
    case Bool => Varint(if v.b then 1 else 0)
    case SignedVarint(_) => Varint(Unsigned(v.n))
    case UnsignedVarint(_) => Varint(v.n)
    case ZigzagVarint(_) => Varint(Zigzag(v.n))
    case Fixed32 => Coding.Fixed32(v.n)
    case Fixed64 => Coding.Fixed64(v.n)
    case BytesType(_) => LengthPrefixed(v.s)
    case StringType(_) => LengthPrefixed(v.s)
    case FixedLengthBytes(_) => LengthPrefixed(v.s)
    case SubMessage(fields) => LengthPrefixed(EncodedFields(fields, v.slots, |fields|))
  }

  /** The first `n` items, with a tag in front of each if `tagged`. */
  function EncodedItems(f: Field, items: seq<Value>, n: nat, tagged: bool): Bytes
    requires n <= |items| && forall i :: 0 <= i < |items| ==> Typed(f.ltype, items[i])
    decreases items, n
  {
    if n == 0 then [] else
      EncodedItems(f, items, n - 1, tagged)
      + (if tagged then Tag(WireType(f.ltype), f.tag) else [])
      + Encoded(f.ltype, items[n - 1])
  }

  function EncodedSlot(f: Field, s: Slot): Bytes
    requires SlotTyped(f, s)
    decreases s
  {
    match s
    case One(v) => Tag(WireType(f.ltype), f.tag) + Encoded(f.ltype, v)
    case Maybe(o) => if o.Some? then Tag(WireType(f.ltype), f.tag) + Encoded(f.ltype, o.value) else []
    case Many(items) =>
      if items == [] then []
      else if Packable(f.ltype) then
        Tag(WT_STRING, f.tag) + LengthPrefixed(EncodedItems(f, items, |items|, false))
      else EncodedItems(f, items, |items|, true)
  }

  /** The first `n` fields of a message. */
  function EncodedFields(fields: seq<Field>, slots: seq<Slot>, n: nat): Bytes
    requires SlotsTyped(fields, slots) && n <= |fields|
    decreases slots, n
  {
    if n == 0 then [] else EncodedFields(fields, slots, n - 1) + EncodedSlot(fields[n - 1], slots[n - 1])
  }
}
