/** The decoder of nanopb as it runs (nanopb/pb_decode.c, pb_common.c): an input stream that is
    consumed, a field iterator that goes round the descriptor, and a message filled in as fields
    arrive. Each method does what its function in PbDecoding says. */
module PbStreams {
  import opened Coding
  import opened PbMessages
  import opened PbDecoding

  // ---- The field iterator ----------------------------------------------------------------------------

  class FieldIter {
    const fields: seq<Field>
    var pos: nat
    var requiredFieldIndex: nat

    ghost predicate Valid()
      reads this
    {
      && (|fields| == 0 ==> pos == 0)
      && (|fields| > 0 ==> pos < |fields| && requiredFieldIndex == RequiredBefore(fields, pos))
      && (|fields| == 0 ==> requiredFieldIndex == 0)
    }

    /** pb_field_iter_begin. */
    constructor (fields: seq<Field>)
      ensures Valid() && this.fields == fields && pos == 0
    {
      this.fields, pos, requiredFieldIndex := fields, 0, 0;
    }

    /** pb_field_iter_next: false when it wraps to the beginning, or stays on a lone terminator. */
    method Next() returns (more: bool)
      requires Valid()
      modifies this
      ensures Valid()
      ensures more <==> old(pos) + 1 < |fields|
      ensures pos == if more then old(pos) + 1 else 0
    {
      if |fields| == 0 {
        return false;
      }
      if pos + 1 == |fields| {
        pos, requiredFieldIndex := 0, 0;
        return false;
      }
      if fields[pos].htype.Required? {
        requiredFieldIndex := requiredFieldIndex + 1;
      }
      pos := pos + 1;
      return true;
    }

    /** pb_field_iter_find: round the fields from the current one, back to it. A descriptor without
        fields is its terminator, which has tag zero. */
    method Find(tag: nat) returns (found: bool)
      requires Valid() && TagsDiffer(fields)
      modifies this
      ensures Valid()
      ensures |fields| > 0 ==> IndexOf(fields, tag) == if found then Some(pos) else None
      ensures |fields| == 0 ==> (found <==> tag == 0)
      ensures !found ==> pos == old(pos)
    {
      if |fields| == 0 {
        return tag == 0;
      }
      var start := pos;
      ghost var n := 0;
      while true
        invariant Valid() && n < |fields| && pos == (if start + n < |fields| then start + n else start + n - |fields|)
        invariant forall i :: start <= i < start + n && i < |fields| ==> fields[i].tag != tag
        invariant forall i :: 0 <= i < start + n - |fields| ==> fields[i].tag != tag
        decreases |fields| - n
      {
        if fields[pos].tag == tag {
          IndexOfTag(fields, pos);
          return true;
        }
        var _ := Next();
        n := n + 1;
        if pos == start {
          assert forall i :: 0 <= i < |fields| ==> fields[i].tag != tag;
          return false;
        }
      }
    }

    /** The number of required fields, found by walking to the end. */
    method CountRequired() returns (n: nat)
      requires Valid()
      modifies this
      ensures n == RequiredBefore(fields, |fields|)
    {
      n := 0;
      var last, more := pos, |fields| > 0;
      if !more {
        return;
      }
      while more
        invariant Valid() && last < |fields|
        invariant if more then pos == last || pos == last + 1 else last == |fields| - 1 && n == RequiredBefore(fields, last)
        invariant more ==> pos < |fields|
        decreases if more then |fields| - pos else -1
      {
        n := requiredFieldIndex;
        last := pos;
        more := Next();
      }
      if fields[last].htype.Required? {
        n := n + 1;
      }
    }
  }

  // ---- The stream --------------------------------------------------------------------------------------

  /** What the function says, and what the method returned and left in the stream. */
  predicate Took<T(==)>(spec: Option<(T, Bytes)>, r: Option<T>, left: Bytes) {
    match r
    case None => spec.None?
    case Some(v) => spec == Some((v, left))
  }

  class IStream {
    var left: Bytes

    constructor (b: Bytes)
      ensures left == b
    {
      left := b;
    }

    /** pb_read. */
    method Take(n: nat) returns (r: Option<Bytes>)
      modifies this
      ensures Took(Read(old(left), n), r, left)
    {
      if |left| < n {
        return None;
      }
      r := Some(left[..n]);
      left := left[n..];
    }

    method ReadByte() returns (r: Option<Byte>)
      modifies this
      ensures match r
              case None => |old(left)| == 0
              case Some(b) => |old(left)| > 0 && b == old(left)[0] && left == old(left)[1..]
    {
      if |left| == 0 {
        return None;
      }
      r := Some(left[0]);
      left := left[1..];
    }

    /** pb_decode_varint32. */
    method DecodeVarint32() returns (r: Option<nat>)
      modifies this
      ensures Took(ReadVarint32(old(left)), r, left)
    {
      var first := ReadByte();
      if first.None? {
        return None;
      }
      if first.value < 128 {
        return Some(first.value);
      }
      var bitpos: nat, result: nat := 7, first.value % 128;
      while true
        invariant bitpos < 256 && ReadVarint32(old(left)) == More32(left, result, bitpos)
        decreases |left|
      {
        var next := ReadByte();
        if next.None? {
          return None;
        }
        var byte := next.value as int;
        if bitpos >= 32 {
          var signExtension := if bitpos < 63 then 0xff else 1;
          if byte % 128 != 0 && (result / 0x8000_0000 == 0 || byte != signExtension) {
            return None;
          }
        } else {
          result := Taken(result, byte % 128, bitpos);
        }
        bitpos := (bitpos + 7) % 256;
        if byte < 128 {
          if bitpos == 35 && byte / 16 % 8 != 0 {
            return None;
          }
          return Some(result);
        }
      }
    }

    /** pb_decode_varint: the weight is two to the power of bitpos. */
    method DecodeVarint() returns (r: Option<nat>)
      modifies this
      ensures Took(ReadVarint64(old(left)), r, left)
    {
      ghost var s := left;
      var result: nat, weight: nat, i: nat := 0, 1, 0;
      NothingTaken(s, 10);
      assert s == s[0..];
      while i < 10
        invariant Pending(s, 10, i, result, weight) && left == s[i..]
        decreases 10 - i
      {
        var next := ReadByte();
        if next.None? {
          RunsOut(s, 10, i, result, weight);
          return None;
        }
        var taken := result + next.value % 128 * weight;
        TakeByte(s, 10, i, result, weight, taken);
        assert left == s[i + 1..];
        result, weight, i := taken, 128 * weight, i + 1;
        if next.value < 128 {
          return Some(result % TWO64);
        }
      }
      RunsOut(s, 10, i, result, weight);
      return None;
    }

    /** pb_make_string_substream, the parent moved past it. */
    method MakeSubstream() returns (sub: Option<IStream>)
      modifies this
      ensures sub.Some? ==> fresh(sub.value)
      ensures match sub
              case None => Substream(old(left)) == None
              case Some(st) => Substream(old(left)) == Some((st.left, left))
    {
      var size := DecodeVarint32();
      if size.None? {
        return None;
      }
      var bs := Take(size.value);
      if bs.None? {
        return None;
      }
      var st := new IStream(bs.value);
      return Some(st);
    }

    /** pb_skip_field. */
    method SkipField(wire: nat) returns (ok: bool)
      modifies this
      ensures Skip(wire, old(left)) == if ok then Some(left) else None
    {
      if wire == WT_VARINT {
        while true
          invariant SkipVarint(old(left)) == SkipVarint(left)
          decreases |left|
        {
          var b := ReadByte();
          if b.None? {
            return false;
          }
          if b.value < 128 {
            return true;
          }
        }
      } else if wire == WT_64BIT {
        var r := Take(8);
        return r.Some?;
      } else if wire == WT_STRING {
        var sub := MakeSubstream();
        return sub.Some?;
      } else if wire == WT_32BIT {
        var r := Take(4);
        return r.Some?;
      }
      return false;
    }

    // ---- Values ------------------------------------------------------------------------------------

    /** pb_dec_varint, pb_dec_uvarint and pb_dec_svarint: the value must survive the cast to the
        field's width. */
    method DecodeNumber(t: LType) returns (r: Option<Value>)
      requires t.VarintField? || t.UVarintField? || t.SVarintField?
      modifies this
      ensures Took(DecodeValue(t, old(left), VInt(0)), r, left)
    {
      var value := DecodeVarint();
      if value.None? {
        return None;
      }
      var v: int := value.value;
      if t.VarintField? {
        v := if t.bits == 64 then Signed64(v) else Signed32(v);
      } else if t.SVarintField? {
        v := if v % 2 == 1 then -(v / 2) - 1 else v / 2;
      }
      if !Width(t.bits) {
        return None;
      }
      if t.UVarintField? {
        return if v < Power2(t.bits) then Some(VInt(v)) else None;
      }
      return if FitsSigned(v, t.bits) then Some(VInt(v)) else None;
    }

    /** pb_dec_bytes and pb_dec_string: a length that fits, then that many bytes. A string needs one
        byte more, computed in 32 bits. */
    method DecodeBoundedBytes(most: int) returns (r: Option<Value>)
      modifies this
      ensures Took(DecodeBounded(most, old(left)), r, left)
    {
      var size := DecodeVarint32();
      if size.None? || size.value > most {
        return None;
      }
      var bs := Take(size.value);
      return if bs.Some? then Some(VBytes(bs.value)) else None;
    }

    /** pb_dec_fixed_length_bytes: all bytes or, for an empty string, zeros. */
    method DecodeFixedLength(n: nat) returns (r: Option<Value>)
      modifies this
      ensures Took(DecodeFixedBytes(n, old(left)), r, left)
    {
      var size := DecodeVarint32();
      if size.None? {
        return None;
      }
      if size.value == 0 {
        return Some(VBytes(Zeros(n)));
      }
      if size.value > PB_SIZE_MAX || size.value != n {
        return None;
      }
      var bs := Take(size.value);
      return if bs.Some? then Some(VBytes(bs.value)) else None;
    }

    method DecodeFixedWidth(n: nat) returns (r: Option<Value>)
      requires n > 0
      modifies this
      ensures Took(DecodeFixedField(n, old(left)), r, left)
    {
      var bs := Take(n);
      return if bs.Some? then Some(VInt(DecodeFixed(bs.value, n))) else None;
    }

    /** The field decoder of a type. */
    method Decode(t: LType, cur: Value) returns (r: Option<Value>)
      requires t.Submessage? ==> Descriptor(t.fields)
      modifies this
      ensures Took(DecodeValue(t, old(left), cur), r, left)
      decreases |left|, 1
    {
      match t
      case BoolField =>
        var v := DecodeVarint32();
        return if v.Some? then Some(VBool(v.value != 0)) else None;
      case VarintField(_) => r := DecodeNumber(t);
      case UVarintField(_) => r := DecodeNumber(t);
      case SVarintField(_) => r := DecodeNumber(t);
      case Fixed32Field => r := DecodeFixedWidth(4);
      case Fixed64Field => r := DecodeFixedWidth(8);
      case BytesField(max) => r := DecodeBoundedBytes(Fitting(max));
      case StringField(dataSize) => r := DecodeBoundedBytes(Fitting(dataSize) - 1);
      case FixedBytes(size) => r := DecodeFixedLength(size);
      case Submessage(fields) => r := DecodeSubmessage(fields, cur);
    }

    /** pb_dec_submessage: decode a bounded substream over what the field holds. */
    method DecodeSubmessage(fields: seq<Field>, cur: Value) returns (r: Option<Value>)
      requires Descriptor(fields)
      modifies this
      ensures Took(DecodeValue(Submessage(fields), old(left), cur), r, left)
      decreases |left|, 0
    {
      var sub := MakeSubstream();
      if sub.None? {
        return None;
      }
      var m := sub.value.DecodeMessage(fields, SubOf(cur, fields));
      return if m.Some? then Some(VMessage(m.value)) else None;
    }

    // ---- Fields --------------------------------------------------------------------------------------

    /** The loop over a packed array, on its substream. */
    method DecodeItems(t: LType, start: seq<Value>, arraySize: nat) returns (r: Option<seq<Value>>)
      requires t.Submessage? ==> Descriptor(t.fields)
      modifies this
      ensures r == DecodePacked(t, old(left), start, arraySize)
      decreases |left|, 2
    {
      var vs := start;
      while |left| > 0 && |vs| < arraySize
        invariant |left| <= |old(left)|
        invariant DecodePacked(t, old(left), start, arraySize) == DecodePacked(t, left, vs, arraySize)
        decreases |left|
      {
        var item := Decode(t, Zero(t));
        if item.None? {
          return None;
        }
        vs := vs + [item.value];
      }
      return if |left| != 0 then None else Some(vs);
    }

    /** decode_static_field. */
    method DecodeStaticField(f: Field, wire: nat, slot: Slot) returns (r: Option<Slot>)
      requires f.ltype.Submessage? ==> Descriptor(f.ltype.fields)
      modifies this
      ensures Took(DecodeField(f, wire, old(left), slot), r, left)
      decreases |left|, 3
    {
      match f.htype
      case Required =>
        var v := Decode(f.ltype, if slot.One? then slot.v else Zero(f.ltype));
        return if v.Some? then Some(One(v.value)) else None;
      case Optional =>
        var v := Decode(f.ltype, if slot.Maybe? && slot.o.Some? then slot.o.value else Zero(f.ltype));
        return if v.Some? then Some(Maybe(Some(v.value))) else None;
      case Repeated(arraySize) =>
        var vs := if slot.Many? then slot.vs else [];
        if wire == WT_STRING && Packable(f.ltype) {
          var sub := MakeSubstream();
          if sub.None? {
            return None;
          }
          var items := sub.value.DecodeItems(f.ltype, vs, arraySize);
          return if items.Some? then Some(Many(items.value)) else None;
        }
        if |vs| >= arraySize {
          return None;
        }
        var v := Decode(f.ltype, Zero(f.ltype));
        return if v.Some? then Some(Many(vs + [v.value])) else None;
    }

    /** pb_decode_noinit. */
    method DecodeMessage(fields: seq<Field>, start: Message) returns (r: Option<Message>)
      requires |start| == |fields| && Descriptor(fields)
      modifies this
      ensures r == DecodeInto(fields, old(left), start)
      decreases |left|, 4
    {
      var iter := new FieldIter(fields);
      var m, seen, done := start, {}, false;
      while |left| > 0 && !done
        invariant iter.Valid() && iter.fields == fields && |m| == |fields| && |left| <= |old(left)|
        invariant !done ==> DecodeLoop(fields, old(left), start, {}) == DecodeLoop(fields, left, m, seen)
        invariant done ==> DecodeLoop(fields, old(left), start, {}) == Some((m, seen))
        decreases !done, |left|
      {
        var word := DecodeVarint32();
        if word.None? {
          return None;
        }
        if word.value == 0 {
          done := true;
        } else {
          var found := iter.Find(word.value / 8);
          if found && |fields| == 0 {
            var nowhere := Decode(BoolField, VBool(false));
            if nowhere.None? {
              return None;
            }
          } else if found {
            assert DescriptorField(fields[iter.pos]);
            if fields[iter.pos].htype.Required? && iter.requiredFieldIndex < MAX_REQUIRED {
              seen := seen + {iter.requiredFieldIndex};
            }
            var slot := DecodeStaticField(fields[iter.pos], word.value % 8, m[iter.pos]);
            if slot.None? {
              return None;
            }
            m := m[iter.pos := slot.value];
          } else {
            var skipped := SkipField(word.value % 8);
            if !skipped {
              return None;
            }
          }
        }
      }
      var n := iter.CountRequired();
      var i := 0;
      while i < n && i < MAX_REQUIRED
        invariant i <= n
        invariant forall k :: 0 <= k < i ==> k in seen
      {
        if i !in seen {
          return None;
        }
        i := i + 1;
      }
      return Some(m);
    }
  }

  /** pb_decode. */
  method PbDecode(fields: seq<Field>, b: Bytes) returns (r: Option<Message>)
    requires Descriptor(fields)
    ensures r == PbDecoding.Decode(fields, b)
  {
    var stream := new IStream(b);
    r := stream.DecodeMessage(fields, Defaults(fields));
  }
}
