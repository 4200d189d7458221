/** Messages of nanopb and their wire format (nanopb/pb.h, pb_encode.c), as functions. A message
    is a list of slots parallel to its field descriptors. */
module PbMessages {
  import opened Coding

  datatype LType =
    | BoolField
    | VarintField(bits: nat)      // int32, int64, enum
    | UVarintField(bits: nat)     // uint32, uint64
    | SVarintField(bits: nat)     // sint32, sint64
    | Fixed32Field
    | Fixed64Field
    | BytesField(max: nat)
    | StringField(dataSize: nat)
    | Submessage(fields: seq<Field>)
    | FixedBytes(size: nat)

  datatype HType = Required | Optional | Repeated(arraySize: nat)

  /** A field, with the default value its descriptor gives, if any. */
  datatype Field = Field(tag: nat, ltype: LType, htype: HType, preset: Option<Value>)

  datatype Value = VBool(b: bool) | VInt(i: int) | VBytes(bs: Bytes) | VMessage(m: seq<Slot>)

  /** A required value; an optional one with its has-flag; a counted array. */
  datatype Slot = One(v: Value) | Maybe(o: Option<Value>) | Many(vs: seq<Value>)

  type Message = seq<Slot>

  function Power2(n: nat): (p: nat)
    ensures p > 0
  {
    if n == 0 then 1 else 2 * Power2(n - 1)
  }

  predicate Width(bits: nat) { bits == 8 || bits == 16 || bits == 32 || bits == 64 }

  predicate FitsSigned(v: int, bits: nat)
    requires bits > 0
  {
    -(Power2(bits - 1) as int) <= v < Power2(bits - 1)
  }

  predicate Packable(t: LType) { t.BoolField? || t.VarintField? || t.UVarintField? || t.SVarintField? || t.Fixed32Field? || t.Fixed64Field? }

  // ---- Wire types and tags -------------------------------------------------------------------

  const WT_VARINT: nat := 0
  const WT_64BIT: nat := 1
  const WT_STRING: nat := 2
  const WT_32BIT: nat := 5

  function WireType(t: LType): (w: nat)
    ensures w < 8
  {
    match t
    case Fixed32Field => WT_32BIT
    case Fixed64Field => WT_64BIT
    case BytesField(_) => WT_STRING
    case StringField(_) => WT_STRING
    case Submessage(_) => WT_STRING
    case FixedBytes(_) => WT_STRING
    case _ => WT_VARINT
  }

  const MAX_TAG: nat := 0x1fff_ffff

  predicate TagsDiffer(fields: seq<Field>) {
    forall i, j :: 0 <= i < j < |fields| ==> fields[i].tag != fields[j].tag
  }

  /** Distinct non-zero tags, at every nesting depth. */
  predicate Descriptor(fields: seq<Field>)
    decreases fields
  {
    && TagsDiffer(fields)
    && (forall i :: 0 <= i < |fields| ==> DescriptorField(fields[i]))
  }

  predicate DescriptorField(f: Field)
    decreases f
  {
    0 < f.tag <= MAX_TAG && (f.ltype.Submessage? ==> Descriptor(f.ltype.fields))
  }

  function TagBytes(wire: nat, tag: nat): Bytes { Varint(tag * 8 + wire) }

  // ---- Values ----------------------------------------------------------------------------------

  function ZigZag(v: int): nat { if v < 0 then -2 * v - 1 else 2 * v }

  function UnZigZag(n: nat): int { if n % 2 == 1 then -(n / 2) - 1 else n / 2 }

  lemma ZigZagRoundTrip(v: int)
    ensures UnZigZag(ZigZag(v)) == v
  {
  }

  function Prefixed(bs: Bytes): Bytes { Varint(|bs|) + bs }

  /** The largest pb_size_t, 32 bits wide as the project is built (PB_FIELD_32BIT). */
  const PB_SIZE_MAX: nat := 0xffff_ffff

  function Fitting(size: nat): nat { if size < PB_SIZE_MAX then size else PB_SIZE_MAX }

  /** A value that a field of this type can hold: in range, strings NUL-terminated in bounds,
      everything below 2^32 bytes. */
  ghost predicate HoldsValue(t: LType, v: Value)
    decreases t
  {
    match t
    case BoolField => v.VBool?
    case VarintField(bits) => v.VInt? && Width(bits) && FitsSigned(v.i, bits)
    case UVarintField(bits) => v.VInt? && Width(bits) && 0 <= v.i < Power2(bits)
    case SVarintField(bits) => v.VInt? && Width(bits) && FitsSigned(v.i, bits)
    case Fixed32Field => v.VInt? && 0 <= v.i < TWO32
    case Fixed64Field => v.VInt? && 0 <= v.i < TWO64
    case BytesField(max) => v.VBytes? && |v.bs| <= Fitting(max)
    case StringField(dataSize) => v.VBytes? && |v.bs| < Fitting(dataSize) && forall i :: 0 <= i < |v.bs| ==> v.bs[i] != 0
    case Submessage(fields) => v.VMessage? && HoldsMessage(fields, v.m) && |EncodeMessage(fields, v.m)| < TWO32
    case FixedBytes(size) => v.VBytes? && |v.bs| == size <= PB_SIZE_MAX
  }

  ghost predicate HoldsSlot(f: Field, s: Slot)
    decreases f
  {
    match f.htype
    case Required => s.One? && HoldsValue(f.ltype, s.v)
    case Optional => s.Maybe? && (s.o.Some? ==> HoldsValue(f.ltype, s.o.value))
    case Repeated(arraySize) =>
      s.Many? && |s.vs| <= arraySize && (forall i :: 0 <= i < |s.vs| ==> HoldsValue(f.ltype, s.vs[i]))
      && (Packable(f.ltype) ==> |EncodePacked(f.ltype, s.vs, 0)| < TWO32)
  }

  ghost predicate HoldsMessage(fields: seq<Field>, m: Message)
    decreases fields
  {
    && |m| == |fields| && forall i :: 0 <= i < |fields| ==> HoldsSlot(fields[i], m[i])
  }

  // ---- Encoding ----------------------------------------------------------------------------------

  /** What the field encoders write; nothing sensible for values the field cannot hold. */
  function EncodeValue(t: LType, v: Value): Bytes
    decreases t, 0
  {
    match v
    case VBool(b) => Varint(if b then 1 else 0)
    case VInt(i) =>
      (match t
       case SVarintField(_) => Varint(ZigZag(i))
       case Fixed32Field => EncodeFixed(i % TWO32, 4)
       case Fixed64Field => EncodeFixed(i % TWO64, 8)
       case _ => Varint(i % TWO64))
    case VBytes(bs) => Prefixed(bs)
    case VMessage(m) => if t.Submessage? then Prefixed(EncodeMessage(t.fields, m)) else []
  }

  /** The items of a packed array from the i-th on. */
  function EncodePacked(t: LType, vs: seq<Value>, i: nat): Bytes
    requires i <= |vs|
    decreases t, 1, |vs| - i
  {
    if i == |vs| then [] else EncodeValue(t, vs[i]) + EncodePacked(t, vs, i + 1)
  }

  /** An item of an array that cannot be packed, or a single value: under its own tag. */
  function EncodeItem(f: Field, v: Value): Bytes
    decreases f, 0
  {
    TagBytes(WireType(f.ltype), f.tag) + EncodeValue(f.ltype, v)
  }

  function EncodeUnpacked(f: Field, vs: seq<Value>, i: nat): Bytes
    requires i <= |vs|
    decreases f, 1, |vs| - i
  {
    if i == |vs| then [] else EncodeItem(f, vs[i]) + EncodeUnpacked(f, vs, i + 1)
  }

  function EncodeSlot(f: Field, s: Slot): Bytes
    decreases f, 2
  {
    match s
    case One(v) => EncodeItem(f, v)
    case Maybe(o) => if o.Some? then EncodeItem(f, o.value) else []
    case Many(vs) =>
      if |vs| == 0 then []
      else if Packable(f.ltype) then TagBytes(WT_STRING, f.tag) + Prefixed(EncodePacked(f.ltype, vs, 0))
      else EncodeUnpacked(f, vs, 0)
  }

  /** The fields from the i-th on. */
  function EncodeFrom(fields: seq<Field>, m: Message, i: nat): Bytes
    requires i <= |fields|
    decreases fields, 0, |fields| - i
  {
    if i == |fields| || i >= |m| then [] else EncodeSlot(fields[i], m[i]) + EncodeFrom(fields, m, i + 1)
  }

  function EncodeMessage(fields: seq<Field>, m: Message): Bytes
    decreases fields, 1
  {
    EncodeFrom(fields, m, 0)
  }
}
