/** The nanopb decoder (pb_decode.c), first as functions of the bytes from one position to another. */
module PbDecode {
  import opened Options
  import opened Coding
  import opened Nanopb

  /** A decoded value and the position after it; nothing when decoding fails. */
  type Parsed<T> = Option<(T, nat)>

  const TWO32: nat := 0x1_0000_0000

  // ---- numbers -------------------------------------------------------------------------------------------

  /**
   pb_decode_varint32_eof from the byte that counts `weight` on: bytes past 32 bits may only extend the
   sign, and the last byte within 32 bits may not reach beyond them.
   */
  function Varint32From(src: Bytes, p: nat, end: nat, result: nat, weight: nat): (r: Parsed<nat>)
    requires p <= end <= |src|
    ensures r.Some? ==> p < r.value.1 <= end
    decreases end - p
  {
    if p == end then None else
      var b := src[p];
      if weight >= TWO32 then
        var signExtension := if weight < 0x8000_0000_0000_0000 then 0xFF else 0x01;
        if b % 128 != 0 && (result / 0x8000_0000 == 0 || b != signExtension) then None
        else if b >= 128 then Varint32From(src, p + 1, end, result, weight * 128)
        else Some((result, p + 1))
      else
        var r := result + b % 128 * weight % TWO32;
        if b >= 128 then Varint32From(src, p + 1, end, r, weight * 128)
        else if weight == 0x1000_0000 && b / 16 % 8 != 0 then None
        else Some((r, p + 1))
  }

  function Varint32(src: Bytes, p: nat, end: nat): (r: Parsed<nat>)
    requires p <= end <= |src|
    ensures r.Some? ==> p < r.value.1 <= end
  {
    Varint32From(src, p, end, 0, 1)
  }

  /** pb_decode_varint. */
  function Varint64(src: Bytes, p: nat, end: nat): (r: Parsed<nat>)
    requires p <= end <= |src|
    ensures r.Some? ==> p < r.value.1 <= end
  {
    ReadVarint(src, p, end, 0, 1, TWO64)
  }

  /** The signed number that a word of the given size stands for. */
  function Signed(n: nat, half: int): int {
    if n < half then n else n - 2 * half
  }

  function Unzigzag(n: nat): int {
    if n % 2 == 1 then -(n / 2) - 1 else n / 2
  }

  function Checked(n: int, lo: int, hi: int, next: nat): (r: Parsed<Value>)
    ensures r.Some? ==> r.value.1 == next
  {
    if lo <= n < hi then Some((Number(n), next)) else None
  }

  /** The bytes of a C string. */
  function UpToNul(s: Bytes): Bytes {
    if s == [] || s[0] == 0 then [] else [s[0]] + UpToNul(s[1..])
  }

  function Zeros(n: nat): Bytes {
    seq(n, i => 0)
  }

  function Blob32(src: Bytes, p: nat, end: nat): (r: Parsed<Bytes>)
    requires p <= end <= |src|
    ensures r.Some? ==> p < r.value.1 <= end
  {
    var n := Varint32(src, p, end);
    if n.None? || end - n.value.1 < n.value.0 then None
    else Some((src[n.value.1..n.value.1 + n.value.0], n.value.1 + n.value.0))
  }

  /** The decoder functions of all field types but submessages. */
  function DecodeScalar(t: LType, src: Bytes, p: nat, end: nat): (r: Parsed<Value>)
    requires p <= end <= |src|
    ensures r.Some? ==> p < r.value.1 <= end
  {
    match t
    case Bool =>
      var n := Varint32(src, p, end);
      if n.None? then None else Some((Flag(n.value.0 != 0), n.value.1))
    case SignedVarint(size) =>
      var n := Varint64(src, p, end);
      if n.None? then None else
        var v := if size == 8 then Signed(n.value.0, TWO64 / 2) else Signed(n.value.0 % TWO32, 0x8000_0000);
        Checked(v, -Half(size), Half(size), n.value.1)
    case UnsignedVarint(size) =>
      var n := Varint64(src, p, end);
      if n.None? then None else Checked(n.value.0, 0, 2 * Half(size), n.value.1)
    case ZigzagVarint(size) =>
      var n := Varint64(src, p, end);
      if n.None? then None else Checked(Unzigzag(n.value.0), -Half(size), Half(size), n.value.1)
    case Fixed32 => if end - p < 4 then None else Some((Number(DecodeFixed(src[p..p + 4])), p + 4))
    case Fixed64 => if end - p < 8 then None else Some((Number(DecodeFixed(src[p..p + 8])), p + 8))
    case BytesType(capacity) =>
      var s := Blob32(src, p, end);
      if s.None? || |s.value.0| > capacity then None else Some((Blob(s.value.0), s.value.1))
    case StringType(size) =>
      var s := Blob32(src, p, end);
      if s.None? || |s.value.0| + 1 > size then None else Some((Blob(UpToNul(s.value.0)), s.value.1))
    case FixedLengthBytes(size) =>
      var s := Blob32(src, p, end);
      if s.None? then None
      else if |s.value.0| == 0 then Some((Blob(Zeros(size)), s.value.1))
      else if |s.value.0| != size then None
      else Some((Blob(s.value.0), s.value.1))
    case SubMessage(_) => None
  }

  // ---- defaults ------------------------------------------------------------------------------------------

  /** pb_message_set_to_defaults. */
  function DefaultSlots(fields: seq<Field>): (s: seq<Slot>)
    ensures |s| == |fields|
    decreases fields
  {
    seq(|fields|, i requires 0 <= i < |fields| => DefaultSlot(fields[i]))
  }

  function DefaultSlot(f: Field): Slot
    decreases f
  {
    match f.htype
    case Required => One(DefaultValue(f.ltype, f.initial))
    case Repeated(_) => Many([])
    case _ => Maybe(None)
  }

  function DefaultValue(t: LType, initial: Value): Value
    decreases t
  {
    if t.SubMessage? then Struct(DefaultSlots(t.fields)) else initial
  }

  // ---- messages ------------------------------------------------------------------------------------------

  /** pb_skip_field. */
  function SkipField(wireType: nat, src: Bytes, p: nat, end: nat): (r: Option<nat>)
    requires p <= end <= |src|
    ensures r.Some? ==> p <= r.value <= end
    decreases end - p
  {
    if wireType == WT_VARINT then SkipVarint(src, p, end)
    else if wireType == WT_64BIT then (if end - p < 8 then None else Some(p + 8))
    else if wireType == WT_STRING then
      var s := Blob32(src, p, end);
      if s.None? then None else Some(s.value.1)
    else if wireType == WT_32BIT then (if end - p < 4 then None else Some(p + 4))
    else None
  }

  function SkipVarint(src: Bytes, p: nat, end: nat): (r: Option<nat>)
    requires p <= end <= |src|
    ensures r.Some? ==> p <= r.value <= end
    decreases end - p
  {
    if p == end then None else if src[p] < 128 then Some(p + 1) else SkipVarint(src, p + 1, end)
  }

  /** pb_field_iter_find, for descriptors with distinct tags. */
  function FindField(fields: seq<Field>, tag: nat): (i: nat)
    ensures i <= |fields|
    ensures i < |fields| ==> fields[i].tag == tag
    ensures forall j :: 0 <= j < i ==> fields[j].tag != tag
  {
    if fields == [] || fields[0].tag == tag then 0 else
      var i := FindField(fields[1..], tag);
      assert forall j :: 0 < j < i + 1 ==> fields[j] == fields[1..][j - 1];
      i + 1
  }

  /** required_field_index of a field. */
  function RequiredIndex(fields: seq<Field>, i: nat): (r: nat)
    requires i <= |fields|
    ensures r <= i
  {
    if i == 0 then 0 else RequiredIndex(fields, i - 1) + if fields[i - 1].htype.Required? then 1 else 0
  }

  const MAX_REQUIRED_FIELDS: nat := 64

  /** The required-field check; only the first 64 required fields are tracked. */
  predicate AllSeen(fields: seq<Field>, seen: set<nat>) {
    forall r: nat :: r < RequiredIndex(fields, |fields|) && r < MAX_REQUIRED_FIELDS ==> r in seen
  }

  /** A slot is written; for a oneof, which_ no longer names another field of it. */
  function WithSlot(fields: seq<Field>, slots: seq<Slot>, i: nat, s: Slot): (r: seq<Slot>)
    requires |slots| == |fields| && i < |fields|
    ensures |r| == |fields|
  {
    seq(|fields|, j requires 0 <= j < |fields| =>
      if j == i then s
      else if fields[i].htype.OneOf? && fields[j].htype == fields[i].htype then Maybe(None)
      else slots[j])
  }

  /** The slots of a submessage that is decoded into an existing structure. */
  function OldSlots(fields: seq<Field>, old_: Value): (s: seq<Slot>)
    ensures |s| == |fields|
  {
    if old_.Struct? && |old_.slots| == |fields| then old_.slots else DefaultSlots(fields)
  }

  /** What a decoder function finds in place before it writes. */
  function OldValue(f: Field, s: Slot): Value {
    if s.One? then s.v
    else if s.Maybe? && s.o.Some? then s.o.value
    else DefaultValue(f.ltype, f.initial)
  }

  function DecodeValue(t: LType, src: Bytes, p: nat, end: nat, old_: Value): (r: Parsed<Value>)
    requires p <= end <= |src|
    ensures r.Some? ==> p < r.value.1 <= end
    decreases end - p, 1
  {
    if t.SubMessage? then
      var n := Varint32(src, p, end);
      if n.None? || end - n.value.1 < n.value.0 then None else
        var stop := n.value.1 + n.value.0;
        var m := DecodeFields(t.fields, src, n.value.1, stop, OldSlots(t.fields, old_), {});
        if m.None? then None else Some((Struct(m.value), stop))
    else DecodeScalar(t, src, p, end)
  }

  /** A packed array, up to the size of the array. */
  function DecodePacked(f: Field, src: Bytes, p: nat, end: nat, items: seq<Value>): Option<seq<Value>>
    requires p <= end <= |src| && f.htype.Repeated?
    decreases end - p
  {
    if p == end then Some(items)
    else if |items| >= f.htype.arraySize then None // "array overflow"
    else
      var v := DecodeScalar(f.ltype, src, p, end);
      if v.None? then None else DecodePacked(f, src, v.value.1, end, items + [v.value.0])
  }

  /**
   A field that the descriptor does not name is skipped.  But the search in an empty descriptor takes its
   terminator, whose tag is 0, for a field with that tag, and a required bool at that: it is decoded into
   the dummy member of the empty structure.
   */
  function PassOver(fields: seq<Field>, key: nat, src: Bytes, p: nat, end: nat): (r: Option<nat>)
    requires p <= end <= |src|
    ensures r.Some? ==> p <= r.value <= end
  {
    if fields == [] && key / 8 == 0 then
      var v := DecodeScalar(Bool, src, p, end);
      if v.None? then None else Some(v.value.1)
    else SkipField(key % 8, src, p, end)
  }

  /** decode_static_field. */
  function DecodeSlot(f: Field, wireType: nat, src: Bytes, p: nat, end: nat, s: Slot): (r: Parsed<Slot>)
    requires p <= end <= |src|
    ensures r.Some? ==> p < r.value.1 <= end
    decreases end - p, 2
  {
    match f.htype
    case Required =>
      var v := DecodeValue(f.ltype, src, p, end, OldValue(f, s));
      if v.None? then None else Some((One(v.value.0), v.value.1))
    case Repeated(arraySize) =>
      var items := if s.Many? then s.items else [];
      if wireType == WT_STRING && Packable(f.ltype) then
        var n := Varint32(src, p, end);
        if n.None? || end - n.value.1 < n.value.0 then None else
          var stop := n.value.1 + n.value.0;
          var r := DecodePacked(f, src, n.value.1, stop, items);
          if r.None? then None else Some((Many(r.value), stop))
      else if |items| >= arraySize then None // "array overflow"
      else
        var v := DecodeValue(f.ltype, src, p, end, DefaultValue(f.ltype, f.initial));
        if v.None? then None else Some((Many(items + [v.value.0]), v.value.1))
    case _ =>
      var v := DecodeValue(f.ltype, src, p, end, OldValue(f, s));
      if v.None? then None else Some((Maybe(Some(v.value.0)), v.value.1))
  }

  /** pb_decode_noinit from `p` to `end`; `seen` are the required fields so far. */
  function DecodeFields(fields: seq<Field>, src: Bytes, p: nat, end: nat, slots: seq<Slot>,
                        seen: set<nat>): (r: Option<seq<Slot>>)
    requires p <= end <= |src| && |slots| == |fields|
    ensures r.Some? ==> |r.value| == |fields|
    decreases end - p, 0
  {
    if p == end then (if AllSeen(fields, seen) then Some(slots) else None) else
      var tag := Varint32(src, p, end);
      if tag.None? then None
      else if tag.value.0 == 0 then (if AllSeen(fields, seen) then Some(slots) else None) // 0-terminated
      else
        var i := FindField(fields, tag.value.0 / 8);
        if i == |fields| then
          var next := PassOver(fields, tag.value.0, src, tag.value.1, end);
          if next.None? then None else DecodeFields(fields, src, next.value, end, slots, seen)
        else
          var s := DecodeSlot(fields[i], tag.value.0 % 8, src, tag.value.1, end, slots[i]);
          if s.None? then None else
            var r := RequiredIndex(fields, i);
            DecodeFields(fields, src, s.value.1, end, WithSlot(fields, slots, i, s.value.0),
                         if fields[i].htype.Required? && r < MAX_REQUIRED_FIELDS then seen + {r} else seen)
  }

  /** pb_decode. */
  function DecodeMessage(fields: seq<Field>, src: Bytes): Option<seq<Slot>> {
    DecodeFields(fields, src, 0, |src|, DefaultSlots(fields), {})
  }
}
