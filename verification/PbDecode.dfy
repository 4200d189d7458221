/** Decoding messages of nanopb (nanopb/pb_decode.c): recursive descent over bounded substreams,
    driven by the field descriptors. */
module PbDecoding {
  import opened Coding
  import opened PbMessages

  // ---- Varints -----------------------------------------------------------------------------------

  /** a | b */
  function Or(a: nat, b: nat): nat {
    if a == 0 && b == 0 then 0 else (if a % 2 == 1 || b % 2 == 1 then 1 else 0) + 2 * Or(a / 2, b / 2)
  }

  /** The seven bits of a byte, shifted into place in 32 bits, taken into the result. */
  function Taken(result: nat, digit: nat, bitpos: nat): nat { Or(result, digit * Power2(bitpos) % TWO32) }

  /** pb_decode_varint32 after its first byte, with its checks on bits that do not fit. The bit
      position is 8 bits wide and wraps. */
  function More32(s: Bytes, result: nat, bitpos: nat): (r: Option<(nat, Bytes)>)
    ensures r.Some? ==> |r.value.1| < |s|
    decreases |s|
  {
    if |s| == 0 then None
    else
      var byte := s[0] as int;
      if bitpos >= 32 then
        var signExtension := if bitpos < 63 then 0xff else 1;
        if byte % 128 != 0 && (result / 0x8000_0000 == 0 || byte != signExtension) then None
        else if byte >= 128 then More32(s[1..], result, (bitpos + 7) % 256)
        else Some((result, s[1..]))
      else
        var result' := Taken(result, byte % 128, bitpos);
        if byte >= 128 then More32(s[1..], result', (bitpos + 7) % 256)
        else if bitpos == 28 && byte / 16 % 8 != 0 then None
        else Some((result', s[1..]))
  }

  function ReadVarint32(s: Bytes): (r: Option<(nat, Bytes)>)
    ensures r.Some? ==> |r.value.1| < |s|
  {
    if |s| == 0 then None
    else if s[0] < 128 then Some((s[0], s[1..]))
    else More32(s[1..], s[0] as int % 128, 7)
  }

  /** pb_decode_varint: ten bytes at most, 64 bits kept. */
  function ReadVarint64(s: Bytes): (r: Option<(nat, Bytes)>)
    ensures r.Some? ==> |r.value.1| < |s| && r.value.0 < TWO64
  {
    match GetVarint64(s)
    case None => None
    case Some((v, n)) => Some((v, s[n..]))
  }

  function Signed64(v: nat): int { if v % TWO64 >= 0x8000_0000_0000_0000 then v % TWO64 - TWO64 else v % TWO64 }

  function Signed32(v: nat): int { if v % TWO32 >= 0x8000_0000 then v % TWO32 - TWO32 else v % TWO32 }

  function Read(s: Bytes, n: nat): (r: Option<(Bytes, Bytes)>)
    ensures r.Some? ==> |r.value.0| == n && |r.value.1| == |s| - n
  {
    if |s| < n then None else Some((s[..n], s[n..]))
  }

  /** pb_make_string_substream: the bounded substream and what follows it. */
  function Substream(s: Bytes): (r: Option<(Bytes, Bytes)>)
    ensures r.Some? ==> |r.value.0| + |r.value.1| < |s|
  {
    match ReadVarint32(s)
    case None => None
    case Some((size, rest)) => Read(rest, size)
  }

  /** pb_skip_field. */
  function SkipVarint(s: Bytes): (r: Option<Bytes>)
    ensures r.Some? ==> |r.value| < |s|
  {
    if |s| == 0 then None else if s[0] >= 128 then SkipVarint(s[1..]) else Some(s[1..])
  }

  function Skip(wire: nat, s: Bytes): (r: Option<Bytes>)
    ensures r.Some? ==> |r.value| <= |s|
  {
    if wire == WT_VARINT then SkipVarint(s)
    else if wire == WT_64BIT then (match Read(s, 8) case None => None case Some((_, rest)) => Some(rest))
    else if wire == WT_STRING then (match Substream(s) case None => None case Some((_, rest)) => Some(rest))
    else if wire == WT_32BIT then (match Read(s, 4) case None => None case Some((_, rest)) => Some(rest))
    else None
  }

  // ---- Defaults ------------------------------------------------------------------------------------

  /** Zeros, as memset leaves them; a submessage has its own defaults. */
  function Zero(t: LType): Value
    decreases t, 0
  {
    match t
    case BoolField => VBool(false)
    case BytesField(_) => VBytes([])
    case StringField(_) => VBytes([])
    case FixedBytes(size) => VBytes(Zeros(size))
    case Submessage(fields) => VMessage(Defaults(fields))
    case _ => VInt(0)
  }

  function Zeros(n: nat): (r: Bytes)
    ensures |r| == n
  {
    if n == 0 then [] else [0] + Zeros(n - 1)
  }

  /** pb_field_set_to_default: the preset value, or zeros; no optional value, an empty array. */
  function DefaultSlot(f: Field): Slot
    decreases f, 0
  {
    match f.htype
    case Required => One(if f.preset.Some? && !f.ltype.Submessage? then f.preset.value else Zero(f.ltype))
    case Optional => Maybe(None)
    case Repeated(_) => Many([])
  }

  function Defaults(fields: seq<Field>): (m: Message)
    ensures |m| == |fields|
    decreases fields, 0
  {
    DefaultsFrom(fields, 0)
  }

  function DefaultsFrom(fields: seq<Field>, i: nat): (m: Message)
    requires i <= |fields|
    ensures |m| == |fields| - i
    decreases fields, 0, |fields| - i
  {
    if i == |fields| then [] else [DefaultSlot(fields[i])] + DefaultsFrom(fields, i + 1)
  }

  // ---- Finding the field -----------------------------------------------------------------------------

  /** The first field with this tag. */
  function IndexOf(fields: seq<Field>, tag: nat): (r: Option<nat>)
    ensures r.Some? ==> r.value < |fields| && fields[r.value].tag == tag
    ensures r.None? ==> forall i :: 0 <= i < |fields| ==> fields[i].tag != tag
  {
    if |fields| == 0 then None
    else if fields[0].tag == tag then Some(0)
    else match IndexOf(fields[1..], tag) case None => None case Some(i) => Some(i + 1)
  }

  lemma IndexOfTag(fields: seq<Field>, i: nat)
    requires TagsDiffer(fields) && i < |fields|
    ensures IndexOf(fields, fields[i].tag) == Some(i)
  {
  }

  /** Required fields among the first n: the index that the seen-bits use. */
  function RequiredBefore(fields: seq<Field>, n: nat): nat
    requires n <= |fields|
  {
    if n == 0 then 0 else RequiredBefore(fields, n - 1) + if fields[n - 1].htype.Required? then 1 else 0
  }

  const MAX_REQUIRED: nat := 64

  function Seen(fields: seq<Field>, i: nat, seen: set<nat>): set<nat>
    requires i < |fields|
  {
    if fields[i].htype.Required? && RequiredBefore(fields, i) < MAX_REQUIRED then seen + {RequiredBefore(fields, i)} else seen
  }

  /** The final check: every required field, of the first 64, has been seen. */
  predicate AllSeen(fields: seq<Field>, seen: set<nat>) {
    forall r :: 0 <= r < RequiredBefore(fields, |fields|) && r < MAX_REQUIRED ==> r in seen
  }

  // ---- Decoding ------------------------------------------------------------------------------------------

  /** The message a submessage field holds so far. */
  function SubOf(v: Value, fields: seq<Field>): (m: Message)
    ensures |m| == |fields|
  {
    if v.VMessage? && |v.m| == |fields| then v.m else Defaults(fields)
  }

  function DecodeVarint(bits: nat, s: Bytes): (r: Option<(Value, Bytes)>)
    ensures r.Some? ==> |r.value.1| < |s|
  {
    match ReadVarint64(s)
    case None => None
    case Some((value, rest)) =>
      var svalue := if bits == 64 then Signed64(value) else Signed32(value);
      if Width(bits) && FitsSigned(svalue, bits) then Some((VInt(svalue), rest)) else None
  }

  function DecodeUVarint(bits: nat, s: Bytes): (r: Option<(Value, Bytes)>)
    ensures r.Some? ==> |r.value.1| < |s|
  {
    match ReadVarint64(s)
    case None => None
    case Some((value, rest)) => if Width(bits) && value < Power2(bits) then Some((VInt(value), rest)) else None
  }

  function DecodeSVarint(bits: nat, s: Bytes): (r: Option<(Value, Bytes)>)
    ensures r.Some? ==> |r.value.1| < |s|
  {
    match ReadVarint64(s)
    case None => None
    case Some((value, rest)) =>
      if Width(bits) && FitsSigned(UnZigZag(value), bits) then Some((VInt(UnZigZag(value)), rest)) else None
  }

  function DecodeBool(s: Bytes): (r: Option<(Value, Bytes)>)
    ensures r.Some? ==> |r.value.1| < |s|
  {
    match ReadVarint32(s)
    case None => None
    case Some((value, rest)) => Some((VBool(value != 0), rest))
  }

  function DecodeFixedField(n: nat, s: Bytes): (r: Option<(Value, Bytes)>)
    requires n > 0
    ensures r.Some? ==> |r.value.1| < |s|
  {
    match Read(s, n) case None => None case Some((bs, rest)) => Some((VInt(DecodeFixed(bs, n)), rest))
  }

  function DecodeBounded(most: int, s: Bytes): (r: Option<(Value, Bytes)>)
    ensures r.Some? ==> |r.value.1| < |s|
  {
    match ReadVarint32(s)
    case None => None
    case Some((size, rest)) =>
      if size > most then None
      else match Read(rest, size) case None => None case Some((bs, after)) => Some((VBytes(bs), after))
  }

  function DecodeFixedBytes(n: nat, s: Bytes): (r: Option<(Value, Bytes)>)
    ensures r.Some? ==> |r.value.1| < |s|
  {
    match ReadVarint32(s)
    case None => None
    case Some((size, rest)) =>
      if size == 0 then Some((VBytes(Zeros(n)), rest))
      else if size > PB_SIZE_MAX || size != n then None
      else match Read(rest, size) case None => None case Some((bs, after)) => Some((VBytes(bs), after))
  }

  /** The field decoders. `cur` is what the field holds before: submessages are merged into it. */
  function DecodeValue(t: LType, s: Bytes, cur: Value): (r: Option<(Value, Bytes)>)
    ensures r.Some? ==> |r.value.1| < |s|
    decreases |s|, 0
  {
    match t
    case BoolField => DecodeBool(s)
    case VarintField(bits) => DecodeVarint(bits, s)
    case UVarintField(bits) => DecodeUVarint(bits, s)
    case SVarintField(bits) => DecodeSVarint(bits, s)
    case Fixed32Field => DecodeFixedField(4, s)
    case Fixed64Field => DecodeFixedField(8, s)
    case BytesField(max) => DecodeBounded(Fitting(max), s)
    case StringField(dataSize) => DecodeBounded(Fitting(dataSize) - 1, s)
    case FixedBytes(size) => DecodeFixedBytes(size, s)
    case Submessage(fields) =>
      match Substream(s)
      case None => None
      case Some((sub, rest)) =>
        match DecodeInto(fields, sub, SubOf(cur, fields))
        case None => None
        case Some(m) => Some((VMessage(m), rest))
  }

  /** The items of a packed array, as many as the array still has room for. */
  function DecodePacked(t: LType, sub: Bytes, vs: seq<Value>, arraySize: nat): (r: Option<seq<Value>>)
    decreases |sub|, 1
  {
    if |sub| == 0 then Some(vs)
    else if |vs| >= arraySize then None
    else
      match DecodeValue(t, sub, Zero(t))
      case None => None
      case Some((v, rest)) => DecodePacked(t, rest, vs + [v], arraySize)
  }

  /** decode_static_field. */
  function DecodeField(f: Field, wire: nat, s: Bytes, slot: Slot): (r: Option<(Slot, Bytes)>)
    ensures r.Some? ==> |r.value.1| < |s|
    decreases |s|, 2
  {
    match f.htype
    case Required =>
      (match DecodeValue(f.ltype, s, if slot.One? then slot.v else Zero(f.ltype))
       case None => None
       case Some((v, rest)) => Some((One(v), rest)))
    case Optional =>
      (match DecodeValue(f.ltype, s, if slot.Maybe? && slot.o.Some? then slot.o.value else Zero(f.ltype))
       case None => None
       case Some((v, rest)) => Some((Maybe(Some(v)), rest)))
    case Repeated(arraySize) =>
      var vs := if slot.Many? then slot.vs else [];
      if wire == WT_STRING && Packable(f.ltype) then
        match Substream(s)
        case None => None
        case Some((sub, rest)) =>
          match DecodePacked(f.ltype, sub, vs, arraySize)
          case None => None
          case Some(vs') => Some((Many(vs'), rest))
      else if |vs| >= arraySize then None
      else
        match DecodeValue(f.ltype, s, Zero(f.ltype))
        case None => None
        case Some((v, rest)) => Some((Many(vs + [v]), rest))
  }

  /** What follows a tag that no field has is skipped. Without any fields, tag zero finds the
      terminator of the descriptor, which decodes as a bool that no field receives. */
  function PassOver(fields: seq<Field>, word: nat, s: Bytes): (r: Option<Bytes>)
    ensures r.Some? ==> |r.value| <= |s|
  {
    if |fields| == 0 && word / 8 == 0 then (match DecodeBool(s) case None => None case Some((_, rest)) => Some(rest))
    else Skip(word % 8, s)
  }

  /** The loop of pb_decode_noinit. A zero tag ends the message early. */
  function DecodeLoop(fields: seq<Field>, s: Bytes, m: Message, seen: set<nat>): (r: Option<(Message, set<nat>)>)
    requires |m| == |fields|
    ensures r.Some? ==> |r.value.0| == |fields|
    decreases |s|, 3
  {
    if |s| == 0 then Some((m, seen))
    else
      match ReadVarint32(s)
      case None => None
      case Some((word, rest)) =>
        if word == 0 then Some((m, seen))
        else
          match IndexOf(fields, word / 8)
          case None =>
            (match PassOver(fields, word, rest)
             case None => None
             case Some(after) => DecodeLoop(fields, after, m, seen))
          case Some(i) =>
            match DecodeField(fields[i], word % 8, rest, m[i])
            case None => None
            case Some((slot, after)) => DecodeLoop(fields, after, m[i := slot], Seen(fields, i, seen))
  }

  /** pb_decode_noinit: decode into a message that already has contents. */
  function DecodeInto(fields: seq<Field>, s: Bytes, m: Message): (r: Option<Message>)
    requires |m| == |fields|
    ensures r.Some? ==> |r.value| == |fields|
    decreases |s|, 4
  {
    match DecodeLoop(fields, s, m, {})
    case None => None
    case Some((m', seen)) => if AllSeen(fields, seen) then Some(m') else None
  }

  /** pb_decode. */
  function Decode(fields: seq<Field>, s: Bytes): Option<Message> { DecodeInto(fields, s, Defaults(fields)) }
}
