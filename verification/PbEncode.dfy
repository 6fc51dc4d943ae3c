/**
 The nanopb encoder (pb_encode.c).  A stream without a callback only counts; submessages and packed
 arrays are encoded twice, once to learn their size.
 */
module PbEncode {
  import opened Options
  import opened Keys
  import opened Coding
  import opened Nanopb

  /** The loop of pb_encode_varint. */
  method VarintBuffer(value: nat) returns (buffer: Bytes)
    requires value > 0x7F
    ensures buffer == Varint(value)
  {
    buffer := [];
    var rest: nat := value;
    while rest > 0
      invariant rest > 0 ==> Varint(value) == buffer + Varint(rest)
      invariant rest == 0 ==> buffer != [] && buffer[|buffer| - 1] >= 128
                              && Varint(value) == buffer[..|buffer| - 1] + [buffer[|buffer| - 1] - 128]
    {
      assert rest >= 128 ==> buffer + Varint(rest) == buffer + [rest % 128 + 128] + Varint(rest / 128);
      buffer := buffer + [rest % 128 + 128];
      rest := rest / 128;
    }
    // The top bit of the last byte is unset.
    buffer := buffer[..|buffer| - 1] + [buffer[|buffer| - 1] - 128];
  }

  class OStream {
    const sizing: bool
    const maxSize: nat
    var data: Bytes
    var bytesWritten: nat

    ghost predicate Valid()
      reads this
    {
      sizing || bytesWritten <= maxSize
    }

    constructor (sizing: bool, maxSize: nat, data: Bytes)
      ensures Valid() && bytesWritten == 0
      ensures this.sizing == sizing && this.maxSize == maxSize && this.data == data
    {
      this.sizing, this.maxSize, this.data, this.bytesWritten := sizing, maxSize, data, 0;
    }

    /** Whether `n` more bytes may be written. */
    ghost predicate Room(n: nat)
      reads this
    {
      sizing || bytesWritten + n <= maxSize
    }

    /** pb_write. */
    method Write(buf: Bytes) returns (ok: bool)
      requires Valid()
      modifies this
      ensures Valid() && ok == old(Room(|buf|))
      ensures ok ==> bytesWritten == old(bytesWritten) + |buf| && data == old(data) + if sizing then [] else buf
    {
      if |buf| > 0 && !sizing {
        if bytesWritten + |buf| > maxSize {
          return false; // "stream full"
        }
        data := data + buf;
      }
      bytesWritten := bytesWritten + |buf|;
      return true;
    }

    /** pb_write without data, as a counting stream is told of a size. */
    method Count(n: nat)
      requires sizing
      modifies this
      ensures Valid() && bytesWritten == old(bytesWritten) + n && data == old(data)
    {
      bytesWritten := bytesWritten + n;
    }

    /** pb_encode_varint. */
    method EncodeVarint(value: nat) returns (ok: bool)
      requires Valid()
      modifies this
      ensures Valid() && ok == old(Room(|Varint(value)|))
      ensures ok ==>
                bytesWritten == old(bytesWritten) + |Varint(value)|
                && data == old(data) + if sizing then [] else Varint(value)
    {
      if value <= 0x7F {
        ok := Write([value]);
        return;
      }
      var buffer := VarintBuffer(value);
      ok := Write(buffer);
    }

    /** pb_encode_tag. */
    method EncodeTag(wireType: nat, tag: nat) returns (ok: bool)
      requires Valid()
      modifies this
      ensures Valid() && ok == old(Room(|Tag(wireType, tag)|))
      ensures ok ==> bytesWritten == old(bytesWritten) + |Tag(wireType, tag)|
                     && data == old(data) + if sizing then [] else Tag(wireType, tag)
    {
      ok := EncodeVarint(8 * tag + wireType);
    }

    /** pb_encode_string. */
    method EncodeString(s: Bytes) returns (ok: bool)
      requires Valid()
      modifies this
      ensures Valid() && ok == old(Room(|LengthPrefixed(s)|))
      ensures ok ==> bytesWritten == old(bytesWritten) + |LengthPrefixed(s)|
                     && data == old(data) + if sizing then [] else LengthPrefixed(s)
    {
      hide Varint;
      ok := EncodeVarint(|s|);
      if !ok {
        return;
      }
      ok := Write(s);
    }

    /** The encoder functions of the field types. */
    method EncodeValue(t: LType, v: Value) returns (ok: bool)
      requires Valid() && Typed(t, v)
      modifies this
      ensures Valid() && ok == (Fits(t, v) && old(Room(|Encoded(t, v)|)))
      ensures ok ==>
                bytesWritten == old(bytesWritten) + |Encoded(t, v)|
                && data == old(data) + if sizing then [] else Encoded(t, v)
      decreases v, 0
    {
      hide Varint, Fixed, SlotsFit, SlotsTyped;
      match t
      case Bool => ok := EncodeVarint(if v.b then 1 else 0);
      case SignedVarint(_) => ok := EncodeVarint(Unsigned(v.n));
      case UnsignedVarint(_) => ok := EncodeVarint(v.n);
      case ZigzagVarint(_) => ok := EncodeVarint(Zigzag(v.n));
      case Fixed32 => ok := Write(Coding.Fixed32(v.n));
      case Fixed64 => ok := Write(Coding.Fixed64(v.n));
      case BytesType(capacity) =>
        if |v.s| > capacity {
          return false; // "bytes size exceeded"
        }
        ok := EncodeString(v.s);
      case StringType(_) => ok := EncodeString(v.s);
      case FixedLengthBytes(_) => ok := EncodeString(v.s);
      case SubMessage(fields) => ok := EncodeSubmessage(fields, v.slots);
    }

    /** pb_encode_submessage. */
    method EncodeSubmessage(fields: seq<Field>, slots: seq<Slot>) returns (ok: bool)
      requires Valid() && SlotsTyped(fields, slots)
      modifies this
      ensures Valid()
      ensures var e := LengthPrefixed(EncodedFields(fields, slots, |fields|));
        && ok == (SlotsFit(fields, slots) && old(Room(|e|)))
        && (ok ==> bytesWritten == old(bytesWritten) + |e| && data == old(data) + if sizing then [] else e)
      decreases slots, |fields| + 1
    {
      hide Varint, SlotsFit, SlotsTyped, EncodedFields;
      // First the message size, by a stream that does not write.
      var substream := new OStream(true, 0, []);
      var counted := substream.Encode(fields, slots);
      if !counted {
        return false;
      }
      var size := substream.bytesWritten;
      ok := EncodeVarint(size);
      if !ok {
        return;
      }
      if sizing {
        Count(size);
        return;
      }
      if bytesWritten + size > maxSize {
        return false; // "stream full"
      }
      var writing := new OStream(false, size, data);
      var written := writing.Encode(fields, slots);
      bytesWritten := bytesWritten + writing.bytesWritten;
      data := writing.data;
      assert writing.bytesWritten == size; // so never "submsg size changed"
      ok := written;
    }

    /** pb_encode. */
    method Encode(fields: seq<Field>, slots: seq<Slot>) returns (ok: bool)
      requires Valid() && SlotsTyped(fields, slots)
      modifies this
      ensures Valid()
      ensures var e := EncodedFields(fields, slots, |fields|);
        && ok == (SlotsFit(fields, slots) && old(Room(|e|)))
        && (ok ==> bytesWritten == old(bytesWritten) + |e| && data == old(data) + if sizing then [] else e)
      decreases slots, |fields|
    {
      hide Varint, SlotFits, SlotTyped, EncodedSlot;
      var i := 0;
      while i < |fields|
        invariant i <= |fields| && Valid()
        invariant forall j :: 0 <= j < i ==> SlotFits(fields[j], slots[j])
        invariant bytesWritten == old(bytesWritten) + |EncodedFields(fields, slots, i)|
        invariant data == old(data) + if sizing then [] else EncodedFields(fields, slots, i)
      {
        var slotOk := EncodeField(fields[i], slots[i]);
        EncodedPrefix(fields, slots, i + 1);
        if !slotOk {
          return false;
        }
        i := i + 1;
      }
      return true;
    }

    /** encode_basic_field. */
    method EncodeField(f: Field, s: Slot) returns (ok: bool)
      requires Valid() && SlotTyped(f, s)
      modifies this
      ensures Valid() && ok == (SlotFits(f, s) && old(Room(|EncodedSlot(f, s)|)))
      ensures ok ==>
                bytesWritten == old(bytesWritten) + |EncodedSlot(f, s)|
                && data == old(data) + if sizing then [] else EncodedSlot(f, s)
      decreases s, 0
    {
      hide Varint, Fits, Typed, Encoded;
      match s
      case One(v) =>
        ok := EncodeTag(WireType(f.ltype), f.tag);
        if ok {
          ok := EncodeValue(f.ltype, v);
        }
      case Maybe(o) =>
        ok := true;
        if o.Some? {
          ok := EncodeTag(WireType(f.ltype), f.tag);
          if ok {
            ok := EncodeValue(f.ltype, o.value);
          }
        }
      case Many(items) => ok := EncodeArray(f, items);
    }

    /** The size of a packed array: from the width of its items, or counted by a sizing stream. */
    static method PackedSize(f: Field, items: seq<Value>) returns (ok: bool, size: nat)
      requires Packable(f.ltype) && forall i :: 0 <= i < |items| ==> Typed(f.ltype, items[i])
      ensures ok && size == |EncodedItems(f, items, |items|, false)|
      decreases items, |items| + 1
    {
      hide Varint, Fits, Typed, Encoded, EncodedItems;
      FixedItems(f, items, |items|);
      ok := true;
      if f.ltype.Fixed32? {
        size := 4 * |items|;
      } else if f.ltype.Fixed64? {
        size := 8 * |items|;
      } else {
        var sizestream := new OStream(true, 0, []);
        ok := sizestream.EncodeItems(f, items, false);
        size := sizestream.bytesWritten;
      }
    }

    /** encode_array. */
    method EncodeArray(f: Field, items: seq<Value>) returns (ok: bool)
      requires Valid() && SlotTyped(f, Many(items))
      modifies this
      ensures Valid()
      ensures var e := EncodedSlot(f, Many(items));
        && ok == (SlotFits(f, Many(items)) && old(Room(|e|)))
        && (ok ==> bytesWritten == old(bytesWritten) + |e| && data == old(data) + if sizing then [] else e)
      decreases items, |items| + 2
    {
      hide Varint, Fits, Typed, Encoded, EncodedItems;
      if items == [] {
        return true;
      }
      if |items| > f.htype.arraySize {
        return false; // "array max size exceeded"
      }
      if Packable(f.ltype) {
        ok := EncodeTag(WT_STRING, f.tag);
        if !ok {
          return;
        }
        var size: nat;
        ok, size := PackedSize(f, items);
        if !ok {
          return;
        }
        FixedItems(f, items, |items|);
        ok := EncodeVarint(size);
        if !ok {
          return;
        }
        if sizing {
          Count(size);
          return;
        }
        ok := EncodeItems(f, items, false);
      } else {
        ok := EncodeItems(f, items, true);
      }
    }

    /** The loops of encode_array over the items. */
    method EncodeItems(f: Field, items: seq<Value>, tagged: bool) returns (ok: bool)
      requires Valid() && forall i :: 0 <= i < |items| ==> Typed(f.ltype, items[i])
      modifies this
      ensures Valid()
      ensures var e := EncodedItems(f, items, |items|, tagged);
        && ok == ((forall i :: 0 <= i < |items| ==> Fits(f.ltype, items[i])) && old(Room(|e|)))
        && (ok ==> bytesWritten == old(bytesWritten) + |e| && data == old(data) + if sizing then [] else e)
      decreases items, |items|
    {
      hide Varint, Fits, Typed, Encoded;
      var i := 0;
      while i < |items|
        invariant i <= |items| && Valid()
        invariant forall j :: 0 <= j < i ==> Fits(f.ltype, items[j])
        invariant bytesWritten == old(bytesWritten) + |EncodedItems(f, items, i, tagged)|
        invariant data == old(data) + if sizing then [] else EncodedItems(f, items, i, tagged)
      {
        ItemsPrefix(f, items, i + 1, tagged);
        if tagged {
          ok := EncodeTag(WireType(f.ltype), f.tag);
          if !ok {
            return;
          }
        }
        ok := EncodeValue(f.ltype, items[i]);
        if !ok {
          return;
        }
        i := i + 1;
      }
      return true;
    }
  }

  lemma {:induction false} EncodedPrefix(fields: seq<Field>, slots: seq<Slot>, n: nat)
    requires SlotsTyped(fields, slots) && n <= |fields|
    ensures |EncodedFields(fields, slots, n)| <= |EncodedFields(fields, slots, |fields|)|
    decreases |fields| - n
  {
    hide EncodedSlot;
    if n < |fields| {
      EncodedPrefix(fields, slots, n + 1);
    }
  }

  lemma {:induction false} ItemsPrefix(f: Field, items: seq<Value>, n: nat, tagged: bool)
    requires n <= |items| && forall i :: 0 <= i < |items| ==> Typed(f.ltype, items[i])
    ensures |EncodedItems(f, items, n, tagged)| <= |EncodedItems(f, items, |items|, tagged)|
    decreases |items| - n
  {
    hide Encoded, Typed;
    if n < |items| {
      ItemsPrefix(f, items, n + 1, tagged);
    }
  }

  /** The sizes of packed fixed-width items need no counting. */
  lemma {:induction false} FixedItems(f: Field, items: seq<Value>, n: nat)
    requires n <= |items| && forall i :: 0 <= i < |items| ==> Typed(f.ltype, items[i])
    ensures f.ltype.Fixed32? ==> |EncodedItems(f, items, n, false)| == 4 * n
    ensures f.ltype.Fixed64? ==> |EncodedItems(f, items, n, false)| == 8 * n
    ensures Packable(f.ltype) ==> forall i :: 0 <= i < |items| ==> Fits(f.ltype, items[i])
  {
    if n > 0 {
      FixedItems(f, items, n - 1);
    }
  }
}
