/** The nanopb decoder as it runs: streams, substreams, and the field iterator (pb_decode.c, pb_common.c). */
module PbIStream {
  import opened Options
  import opened Keys
  import opened Coding
  import opened Nanopb
  import opened PbDecode

  // ---- the field iterator --------------------------------------------------------------------------------

  /** pb_field_iter_find: from the current field around the descriptor until the tag is found. */
  method FindFrom(fields: seq<Field>, start: nat, tag: nat) returns (pos: nat)
    requires start < |fields| && forall i, j :: 0 <= i < j < |fields| ==> fields[i].tag != fields[j].tag
    ensures pos < |fields|
    ensures fields[pos].tag == tag <==> FindField(fields, tag) < |fields|
    ensures fields[pos].tag == tag ==> pos == FindField(fields, tag)
    ensures fields[pos].tag != tag ==> pos == start
  {
    pos := start;
    while fields[pos].tag != tag
      invariant pos < |fields|
      invariant pos >= start ==> forall k :: start <= k < pos ==> fields[k].tag != tag
      invariant pos < start ==> forall k :: 0 <= k < pos || start <= k < |fields| ==> fields[k].tag != tag
      decreases if pos >= start then start + |fields| - pos else start - pos
    {
      pos := if pos + 1 == |fields| then 0 else pos + 1;
      if pos == start {
        return;
      }
    }
  }

  // ---- the stream ----------------------------------------------------------------------------------------

  class IStream {
    const src: Bytes
    var pos: nat
    var bytesLeft: nat

    ghost predicate Valid()
      reads this
    {
      pos + bytesLeft <= |src|
    }

    ghost function End(): nat
      reads this
    {
      pos + bytesLeft
    }

    constructor (src: Bytes, pos: nat, bytesLeft: nat)
      requires pos + bytesLeft <= |src|
      ensures Valid() && this.src == src && this.pos == pos && this.bytesLeft == bytesLeft
    {
      this.src, this.pos, this.bytesLeft := src, pos, bytesLeft;
    }

    method Skip(n: nat)
      requires Valid() && n <= bytesLeft
      modifies this
      ensures Valid() && pos == old(pos) + n && End() == old(End())
    {
      pos, bytesLeft := pos + n, bytesLeft - n;
    }

    /** pb_decode_varint32. */
    method DecodeVarint32() returns (r: Option<nat>)
      requires Valid()
      modifies this
      ensures Valid() && End() == old(End())
      ensures var p := Varint32(src, old(pos), End());
              if p.None? then r.None? else r == Some(p.value.0) && pos == p.value.1
    {
      var result: nat, weight: nat := 0, 1;
      while true
        invariant Valid() && End() == old(End()) && weight > 0
        invariant Varint32From(src, pos, End(), result, weight) == Varint32(src, old(pos), old(End()))
        decreases bytesLeft
      {
        if bytesLeft == 0 {
          return None;
        }
        var b := src[pos];
        Skip(1);
        if weight >= TWO32 {
          var signExtension := if weight < 0x8000_0000_0000_0000 then 0xFF else 0x01;
          if b % 128 != 0 && (result / 0x8000_0000 == 0 || b != signExtension) {
            return None; // "varint overflow"
          }
        } else {
          result := result + b % 128 * weight % TWO32;
        }
        if b < 128 {
          if weight == 0x1000_0000 && b / 16 % 8 != 0 {
            return None; // "varint overflow"
          }
          return Some(result);
        }
        weight := weight * 128;
      }
    }

    /** pb_decode_varint. */
    method DecodeVarint() returns (r: Option<nat>)
      requires Valid()
      modifies this
      ensures Valid() && End() == old(End())
      ensures var p := Varint64(src, old(pos), End());
              if p.None? then r.None? else r == Some(p.value.0) && pos == p.value.1
    {
      var result: nat, weight: nat := 0, 1;
      while true
        invariant Valid() && End() == old(End()) && weight > 0
        invariant ReadVarint(src, pos, End(), result, weight, TWO64) == Varint64(src, old(pos), old(End()))
        decreases bytesLeft
      {
        if weight >= TWO64 || bytesLeft == 0 {
          return None;
        }
        var b := src[pos];
        Skip(1);
        if b < 128 {
          return Some(result + b * weight % TWO64);
        }
        result := result + (b - 128) * weight % TWO64;
        weight := weight * 128;
      }
    }

    /** A length and that many bytes, which pb_skip_string, the blob decoders and substreams start with. */
    method TakeString() returns (s: Option<Bytes>)
      requires Valid()
      modifies this
      ensures Valid() && End() == old(End())
      ensures var p := Blob32(src, old(pos), End());
              if p.None? then s.None? else s == Some(p.value.0) && pos == p.value.1
    {
      hide Varint32;
      var n := DecodeVarint32();
      if n.None? || bytesLeft < n.value {
        return None;
      }
      s := Some(src[pos..pos + n.value]);
      Skip(n.value);
    }

    /** pb_skip_field. */
    method SkipValue(wireType: nat) returns (ok: bool)
      requires Valid()
      modifies this
      ensures Valid() && End() == old(End())
      ensures var p := SkipField(wireType, src, old(pos), End());
              if p.None? then !ok else ok && pos == p.value
    {
      hide Blob32;
      if wireType == WT_VARINT {
        while true
          invariant Valid() && End() == old(End())
          invariant SkipVarint(src, pos, End()) == SkipVarint(src, old(pos), End())
          decreases bytesLeft
        {
          if bytesLeft == 0 {
            return false;
          }
          var b := src[pos];
          Skip(1);
          if b < 128 {
            return true;
          }
        }
      } else if wireType == WT_STRING {
        var s := TakeString();
        return s.Some?;
      } else if wireType == WT_64BIT || wireType == WT_32BIT {
        var n := if wireType == WT_64BIT then 8 else 4;
        if bytesLeft < n {
          return false;
        }
        Skip(n);
        return true;
      }
      return false;
    }

    /** The decoder functions of all field types but submessages. */
    method Scalar(t: LType) returns (r: Option<Value>)
      requires Valid() && !t.SubMessage?
      modifies this
      ensures Valid() && End() == old(End())
      ensures var p := DecodeScalar(t, src, old(pos), End());
              if p.None? then r.None? else r == Some(p.value.0) && pos == p.value.1
    {
      hide Varint32, Varint64, Blob32, DecodeFixed;
      r := None;
      match t
      case Bool =>
        var n := DecodeVarint32();
        if n.Some? {
          r := Some(Flag(n.value != 0));
        }
      case SignedVarint(size) =>
        var n := DecodeVarint();
        if n.Some? {
          var v := if size == 8 then Signed(n.value, TWO64 / 2) else Signed(n.value % TWO32, 0x8000_0000);
          r := if -Half(size) <= v < Half(size) then Some(Number(v)) else None; // "integer too large"
        }
      case UnsignedVarint(size) =>
        var n := DecodeVarint();
        if n.Some? {
          r := if n.value < 2 * Half(size) then Some(Number(n.value)) else None;
        }
      case ZigzagVarint(size) =>
        var n := DecodeVarint();
        if n.Some? {
          var v := Unzigzag(n.value);
          r := if -Half(size) <= v < Half(size) then Some(Number(v)) else None;
        }
      case Fixed32 =>
        if bytesLeft >= 4 {
          r := Some(Number(DecodeFixed(src[pos..pos + 4])));
          Skip(4);
        }
      case Fixed64 =>
        if bytesLeft >= 8 {
          r := Some(Number(DecodeFixed(src[pos..pos + 8])));
          Skip(8);
        }
      case BytesType(capacity) =>
        var s := TakeString();
        if s.Some? && |s.value| <= capacity {
          r := Some(Blob(s.value));
        }
      case StringType(size) =>
        var s := TakeString();
        if s.Some? && |s.value| + 1 <= size {
          r := Some(Blob(UpToNul(s.value)));
        }
      case FixedLengthBytes(size) =>
        var s := TakeString();
        if s.Some? {
          if |s.value| == 0 {
            r := Some(Blob(Zeros(size)));
          } else if |s.value| == size {
            r := Some(Blob(s.value));
          }
        }
    }

    /** The decoder functions; a submessage is decoded from a substream of its length. */
    method DecodeOne(t: LType, old_: Value) returns (r: Option<Value>)
      requires Valid() && GoodType(t)
      modifies this
      ensures Valid() && End() == old(End())
      ensures var p := DecodeValue(t, src, old(pos), End(), old_);
              if p.None? then r.None? else r == Some(p.value.0) && pos == p.value.1
      decreases bytesLeft, 1
    {
      hide Varint32, DecodeScalar, DecodeFields, OldSlots, GoodFields;
      if !t.SubMessage? {
        r := Scalar(t);
        return;
      }
      var n := DecodeVarint32();
      if n.None? || bytesLeft < n.value {
        return None; // "parent stream too short"
      }
      var substream := new IStream(src, pos, n.value);
      var m := substream.DecodeNoinit(t.fields, OldSlots(t.fields, old_));
      // Closing the substream skips what it has left.
      Skip(n.value);
      r := if m.Some? then Some(Struct(m.value)) else None;
    }

    /** decode_static_field. */
    method DecodeStatic(f: Field, wireType: nat, s: Slot) returns (r: Option<Slot>)
      requires Valid() && GoodType(f.ltype)
      modifies this
      ensures Valid() && End() == old(End())
      ensures var p := DecodeSlot(f, wireType, src, old(pos), End(), s);
              if p.None? then r.None? else r == Some(p.value.0) && pos == p.value.1
      decreases bytesLeft, 2
    {
      hide Varint32, DecodeValue, DecodePacked, DefaultValue, Packable, GoodType;
      match f.htype
      case Required =>
        var v := DecodeOne(f.ltype, OldValue(f, s));
        r := if v.Some? then Some(One(v.value)) else None;
      case Repeated(arraySize) =>
        var items := if s.Many? then s.items else [];
        if wireType == WT_STRING && Packable(f.ltype) {
          var n := DecodeVarint32();
          if n.None? || bytesLeft < n.value {
            return None;
          }
          var substream := new IStream(src, pos, n.value);
          var packed := substream.Packed(f, items);
          Skip(n.value);
          r := if packed.Some? then Some(Many(packed.value)) else None;
        } else {
          if |items| >= arraySize {
            return None; // "array overflow"
          }
          var v := DecodeOne(f.ltype, DefaultValue(f.ltype, f.initial));
          r := if v.Some? then Some(Many(items + [v.value])) else None;
        }
      case _ =>
        var v := DecodeOne(f.ltype, OldValue(f, s));
        r := if v.Some? then Some(Maybe(Some(v.value))) else None;
    }

    /** The loop over a packed array. */
    method Packed(f: Field, start: seq<Value>) returns (r: Option<seq<Value>>)
      requires Valid() && f.htype.Repeated? && Packable(f.ltype)
      modifies this
      ensures r == DecodePacked(f, src, old(pos), old(End()), start)
    {
      hide DecodeScalar;
      var items := start;
      while bytesLeft > 0 && |items| < f.htype.arraySize
        invariant Valid() && End() == old(End())
        invariant DecodePacked(f, src, pos, End(), items) == DecodePacked(f, src, old(pos), old(End()), start)
        decreases bytesLeft
      {
        var v := Scalar(f.ltype);
        if v.None? {
          return None;
        }
        items := items + [v.value];
      }
      if bytesLeft != 0 {
        return None; // "array overflow"
      }
      return Some(items);
    }

    /** pb_decode_noinit. */
    method DecodeNoinit(fields: seq<Field>, dest: seq<Slot>) returns (r: Option<seq<Slot>>)
      requires Valid() && |dest| == |fields| && GoodFields(fields)
      modifies this
      ensures Valid() && r == DecodeFields(fields, src, old(pos), old(End()), dest, {})
      decreases bytesLeft, 0
    {
      hide Varint32, DecodeSlot, SkipField, DecodeScalar, FindField, WithSlot, AllSeen, RequiredIndex, GoodField;
      var slots, seen: set<nat>, at: nat := dest, {}, 0;
      while bytesLeft > 0
        invariant Valid() && End() == old(End()) && |slots| == |fields| && (fields != [] ==> at < |fields|)
        invariant bytesLeft <= old(bytesLeft)
        invariant DecodeFields(fields, src, pos, End(), slots, seen)
                    == DecodeFields(fields, src, old(pos), old(End()), dest, {})
        decreases bytesLeft
      {
        var tag := DecodeVarint32();
        if tag.None? {
          return None;
        }
        if tag.value == 0 {
          break;
        }
        var found := false;
        if fields != [] {
          at := FindFrom(fields, at, tag.value / 8);
          found := fields[at].tag == tag.value / 8;
        }
        NotFound(fields, tag.value / 8);
        if !found {
          var ok;
          if fields == [] && tag.value / 8 == 0 {
            var dummy := Scalar(Bool);
            ok := dummy.Some?;
          } else {
            ok := SkipValue(tag.value % 8);
          }
          if !ok {
            return None;
          }
          continue;
        }
        var index := RequiredIndex(fields, at);
        if fields[at].htype.Required? && index < MAX_REQUIRED_FIELDS {
          seen := seen + {index};
        }
        GoodFieldAt(fields, at);
        var s := DecodeStatic(fields[at], tag.value % 8, slots[at]);
        if s.None? {
          return None;
        }
        slots := WithSlot(fields, slots, at, s.value);
      }
      if !AllSeen(fields, seen) {
        return None; // "missing required field"
      }
      return Some(slots);
    }
  }

  lemma NotFound(fields: seq<Field>, tag: nat)
    ensures FindField(fields, tag) == |fields| <==> forall i :: 0 <= i < |fields| ==> fields[i].tag != tag
  {
  }

  lemma GoodFieldAt(fields: seq<Field>, i: nat)
    requires GoodFields(fields) && i < |fields|
    ensures GoodType(fields[i].ltype)
  {
    assert GoodField(fields[i]);
  }
}
