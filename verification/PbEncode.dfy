/** The encoder of nanopb (nanopb/pb_encode.c) on its output streams: a stream either writes to a
    bounded buffer or, without a callback, only counts. Submessages and packed arrays are encoded
    twice, once to find their size and once to write them. */
module PbEncoding {
  import opened Coding
  import opened PbMessages
  import opened PbDecoding

  // ---- What the encoder is given -------------------------------------------------------------------

  /** What the C struct guarantees by its types: no more than that. A string fills its buffer or is
      followed by zeros. */
  ghost predicate ShapedValue(t: LType, v: Value)
    decreases t
  {
    match t
    case BoolField => v.VBool?
    case VarintField(bits) => v.VInt? && Width(bits) && FitsSigned(v.i, bits)
    case UVarintField(bits) => v.VInt? && Width(bits) && 0 <= v.i < Power2(bits)
    case SVarintField(bits) => v.VInt? && Width(bits) && FitsSigned(v.i, bits)
    case Fixed32Field => v.VInt? && 0 <= v.i < TWO32
    case Fixed64Field => v.VInt? && 0 <= v.i < TWO64
    case BytesField(_) => v.VBytes?
    case StringField(dataSize) => v.VBytes? && |v.bs| <= dataSize && forall i :: 0 <= i < |v.bs| ==> v.bs[i] != 0
    case Submessage(fields) => v.VMessage? && ShapedMessage(fields, v.m)
    case FixedBytes(size) => v.VBytes? && |v.bs| == size
  }

  ghost predicate ShapedSlot(f: Field, s: Slot)
    decreases f
  {
    match f.htype
    case Required => s.One? && ShapedValue(f.ltype, s.v)
    case Optional => s.Maybe? && (s.o.Some? ==> ShapedValue(f.ltype, s.o.value))
    case Repeated(_) => s.Many? && forall i :: 0 <= i < |s.vs| ==> ShapedValue(f.ltype, s.vs[i])
  }

  ghost predicate ShapedMessage(fields: seq<Field>, m: Message)
    decreases fields
  {
    |m| == |fields| && forall i :: 0 <= i < |fields| ==> ShapedSlot(fields[i], m[i])
  }

  /** What the encoder checks: no byte string and no array above its bound, at any depth. */
  predicate InBounds(t: LType, v: Value)
    decreases t, 0
  {
    match v
    case VBytes(bs) => t.BytesField? ==> |bs| <= t.max
    case VMessage(m) => t.Submessage? ==> MessageInBounds(t.fields, m, 0)
    case _ => true
  }

  predicate ItemsInBounds(t: LType, vs: seq<Value>, i: nat)
    requires i <= |vs|
    decreases t, 1, |vs| - i
  {
    i < |vs| ==> InBounds(t, vs[i]) && ItemsInBounds(t, vs, i + 1)
  }

  predicate SlotInBounds(f: Field, s: Slot)
    decreases f, 0
  {
    match s
    case One(v) => InBounds(f.ltype, v)
    case Maybe(o) => o.Some? ==> InBounds(f.ltype, o.value)
    case Many(vs) => (f.htype.Repeated? ==> |vs| <= f.htype.arraySize) && ItemsInBounds(f.ltype, vs, 0)
  }

  /** The fields from the i-th on. */
  predicate MessageInBounds(fields: seq<Field>, m: Message, i: nat)
    requires i <= |fields|
    decreases fields, 0, |fields| - i
  {
    i < |fields| && i < |m| ==> SlotInBounds(fields[i], m[i]) && MessageInBounds(fields, m, i + 1)
  }

  // ---- Streams ----------------------------------------------------------------------------------------

  /** An operation that is to write b, if the data is in bounds: it succeeds exactly if it is and a
      counting stream is used or b fits, and then adds b, or the size of b, to the stream. */
  predicate Wrote(sizing: bool, most: nat, out0: Bytes, n0: nat, out1: Bytes, n1: nat, b: Bytes, good: bool, ok: bool) {
    && (ok <==> good && (sizing || n0 + |b| <= most))
    && (ok ==> n1 == n0 + |b| && out1 == if sizing then out0 else out0 + b)
    && (sizing || n1 <= most)
  }

  /** One write after another. */
  lemma WroteBoth(sizing: bool, most: nat, out0: Bytes, n0: nat, out1: Bytes, n1: nat, out2: Bytes, n2: nat,
                  a: Bytes, b: Bytes, good: bool, ok: bool)
    requires Wrote(sizing, most, out0, n0, out1, n1, a, true, true)
    requires Wrote(sizing, most, out1, n1, out2, n2, b, good, ok)
    ensures Wrote(sizing, most, out0, n0, out2, n2, a + b, good, ok)
  {
    assert out0 + (a + b) == out0 + a + b;
  }

  /** The next of several writes, of which `done` have succeeded: with it, or failing with it. */
  lemma WroteNext(sizing: bool, most: nat, out0: Bytes, n0: nat, out1: Bytes, n1: nat, out2: Bytes, n2: nat,
                  done: Bytes, b: Bytes, tail: Bytes, good: bool, ok: bool)
    requires Wrote(sizing, most, out0, n0, out1, n1, done, true, true)
    requires Wrote(sizing, most, out1, n1, out2, n2, b, good, ok)
    ensures done + (b + tail) == done + b + tail
    ensures ok ==> good && Wrote(sizing, most, out0, n0, out2, n2, done + b, true, true)
    ensures !ok ==> Wrote(sizing, most, out0, n0, out2, n2, done + b + tail, good, false)
  {
    assert out0 + (done + b) == out0 + done + b;
  }

  lemma {:induction false} PackedFixed(t: LType, vs: seq<Value>, i: nat)
    requires i <= |vs| && (t.Fixed32Field? || t.Fixed64Field?) && forall k :: 0 <= k < |vs| ==> ShapedValue(t, vs[k])
    ensures |EncodePacked(t, vs, i)| == (|vs| - i) * (if t.Fixed32Field? then 4 else 8)
    decreases |vs| - i
  {
    if i < |vs| {
      PackedFixed(t, vs, i + 1);
    }
  }

  lemma {:induction false} ScalarsInBounds(t: LType, vs: seq<Value>, i: nat)
    requires i <= |vs| && Packable(t) && forall k :: 0 <= k < |vs| ==> ShapedValue(t, vs[k])
    ensures ItemsInBounds(t, vs, i)
    decreases |vs| - i
  {
    if i < |vs| {
      ScalarsInBounds(t, vs, i + 1);
    }
  }

  /** A string as it lies in its buffer. */
  function Buffer(bs: Bytes, dataSize: nat): (r: Bytes)
    requires |bs| <= dataSize
    ensures |r| == dataSize
  {
    bs + Zeros(dataSize - |bs|)
  }

  /** pb_enc_string: the length of the string in its buffer. */
  method StringLength(buffer: Bytes, ghost bs: Bytes) returns (size: nat)
    requires bs <= buffer && (|bs| < |buffer| ==> buffer[|bs|] == 0)
    requires forall i :: 0 <= i < |bs| ==> bs[i] != 0
    ensures size == |bs|
  {
    size := 0;
    while size < |buffer| && buffer[size] != 0
      invariant size <= |bs|
    {
      size := size + 1;
    }
  }

  class OStream {
    var sizing: bool   // no callback
    var out: Bytes
    var bytesWritten: nat
    var maxSize: nat

    ghost predicate Valid()
      reads this
    {
      sizing || bytesWritten <= maxSize
    }

    /** PB_OSTREAM_SIZING. */
    constructor Sizing()
      ensures sizing && bytesWritten == 0 && out == []
    {
      sizing, out, bytesWritten, maxSize := true, [], 0, 0;
    }

    /** pb_ostream_from_buffer, and the bounded substream of pb_encode_submessage. */
    constructor Writing(state: Bytes, size: nat)
      ensures !sizing && bytesWritten == 0 && out == state && maxSize == size
    {
      sizing, out, bytesWritten, maxSize := false, state, 0, size;
    }

    method Write(b: Bytes) returns (ok: bool)
      requires Valid()
      modifies this`out, this`bytesWritten
      ensures Wrote(sizing, maxSize, old(out), old(bytesWritten), out, bytesWritten, b, true, ok)
    {
      if |b| > 0 && !sizing {
        if bytesWritten + |b| > maxSize {
          return false;
        }
        out := out + b;
      }
      bytesWritten := bytesWritten + |b|;
      return true;
    }

    /** pb_write without data, on a counting stream. */
    method Count(n: nat)
      requires sizing
      modifies this`bytesWritten
      ensures bytesWritten == old(bytesWritten) + n
    {
      bytesWritten := bytesWritten + n;
    }

    method PutVarint(v: nat) returns (ok: bool)
      requires Valid()
      modifies this`out, this`bytesWritten
      ensures Wrote(sizing, maxSize, old(out), old(bytesWritten), out, bytesWritten, Varint(v), true, ok)
    {
      if v <= 0x7f {
        ok := Write([v]);
        return;
      }
      var buffer: Bytes, value: nat := [], v;
      while value != 0
        invariant value > 0 ==> buffer + Varint(value) == Varint(v)
        invariant value == 0 ==> |buffer| > 0 && buffer[|buffer| - 1] >= 128
        invariant value == 0 ==> buffer[..|buffer| - 1] + [buffer[|buffer| - 1] % 128] == Varint(v)
        decreases value
      {
        ghost var before := buffer;
        buffer := buffer + [value % 128 + 128];
        value := value / 128;
        assert buffer[..|buffer| - 1] == before;
      }
      buffer := buffer[|buffer| - 1 := buffer[|buffer| - 1] % 128];
      assert buffer == buffer[..|buffer| - 1] + [buffer[|buffer| - 1]];
      ok := Write(buffer);
    }

    /** pb_encode_svarint. */
    method PutSvarint(v: int) returns (ok: bool)
      requires Valid()
      modifies this`out, this`bytesWritten
      ensures Wrote(sizing, maxSize, old(out), old(bytesWritten), out, bytesWritten, Varint(ZigZag(v)), true, ok)
    {
      ok := PutVarint(if v < 0 then -(2 * v) - 1 else 2 * v);
    }

    /** pb_encode_string: the length, then the bytes. */
    method PutString(b: Bytes) returns (ok: bool)
      requires Valid()
      modifies this`out, this`bytesWritten
      ensures Wrote(sizing, maxSize, old(out), old(bytesWritten), out, bytesWritten, Prefixed(b), true, ok)
    {
      ok := PutVarint(|b|);
      if ok {
        ghost var out1, n1 := out, bytesWritten;
        ok := Write(b);
        WroteBoth(sizing, maxSize, old(out), old(bytesWritten), out1, n1, out, bytesWritten, Varint(|b|), b, true, ok);
      }
    }

    /** The encoders of single values. */
    method PutValue(t: LType, v: Value) returns (ok: bool)
      requires Valid() && ShapedValue(t, v)
      modifies this`out, this`bytesWritten
      ensures Wrote(sizing, maxSize, old(out), old(bytesWritten), out, bytesWritten, EncodeValue(t, v), InBounds(t, v), ok)
      decreases t, 2
    {
      match t
      case BoolField => ok := PutVarint(if v.b then 1 else 0);
      case VarintField(_) => ok := PutVarint(v.i % TWO64);
      case UVarintField(_) => ok := PutVarint(v.i % TWO64);
      case SVarintField(_) => ok := PutSvarint(v.i);
      case Fixed32Field => ok := Write(EncodeFixed(v.i % TWO32, 4));
      case Fixed64Field => ok := Write(EncodeFixed(v.i % TWO64, 8));
      case BytesField(max) =>
        if |v.bs| > max {
          return false;
        }
        ok := PutString(v.bs);
      case StringField(dataSize) =>
        var buffer := Buffer(v.bs, dataSize);
        var size := StringLength(buffer, v.bs);
        assert buffer[..size] == v.bs;
        ok := PutString(buffer[..size]);
      case Submessage(fields) => ok := PutSubmessage(fields, v.m);
      case FixedBytes(_) => ok := PutString(v.bs);
    }

    /** pb_encode_submessage: size first, then write to a substream bounded by that size. */
    method PutSubmessage(fields: seq<Field>, m: Message) returns (ok: bool)
      requires Valid() && ShapedMessage(fields, m)
      modifies this`out, this`bytesWritten
      ensures Wrote(sizing, maxSize, old(out), old(bytesWritten), out, bytesWritten,
                    Prefixed(EncodeMessage(fields, m)), MessageInBounds(fields, m, 0), ok)
      decreases fields, 4
    {
      ghost var b := EncodeMessage(fields, m);
      var substream := new OStream.Sizing();
      ok := substream.Encode(fields, m);
      if !ok {
        return;
      }
      var size := substream.bytesWritten;
      assert size == |b|;
      ok := PutVarint(size);
      if !ok {
        return;
      }
      ghost var out1, n1 := out, bytesWritten;
      if sizing {
        Count(size);
      } else {
        if bytesWritten + size > maxSize {
          return false;
        }
        substream := new OStream.Writing(out, size);
        ok := substream.Encode(fields, m);
        bytesWritten := bytesWritten + substream.bytesWritten;
        out := substream.out;
        if substream.bytesWritten != size {
          return false;
        }
      }
      WroteBoth(sizing, maxSize, old(out), old(bytesWritten), out1, n1, out, bytesWritten, Varint(|b|), b, true, ok);
    }

    /** The items of a packed array from the i-th on. */
    method PutItems(t: LType, vs: seq<Value>) returns (ok: bool)
      requires Valid() && Packable(t) && forall k :: 0 <= k < |vs| ==> ShapedValue(t, vs[k])
      modifies this`out, this`bytesWritten
      ensures Wrote(sizing, maxSize, old(out), old(bytesWritten), out, bytesWritten, EncodePacked(t, vs, 0), true, ok)
      decreases t, 3
    {
      ghost var done: Bytes := [];
      assert done + EncodePacked(t, vs, 0) == EncodePacked(t, vs, 0);
      var i := 0;
      while i < |vs|
        invariant i <= |vs| && Valid()
        invariant done + EncodePacked(t, vs, i) == EncodePacked(t, vs, 0)
        invariant Wrote(sizing, maxSize, old(out), old(bytesWritten), out, bytesWritten, done, true, true)
      {
        ghost var out1, n1, b, tail := out, bytesWritten, EncodeValue(t, vs[i]), EncodePacked(t, vs, i + 1);
        ok := PutValue(t, vs[i]);
        WroteNext(sizing, maxSize, old(out), old(bytesWritten), out1, n1, out, bytesWritten, done, b, tail, true, ok);
        if !ok {
          return;
        }
        done := done + b;
        i := i + 1;
      }
      assert done + [] == done;
      return true;
    }

    /** encode_array for types that pack: tag, size of the items, items. The size is known for
        fixed widths and found with a counting stream for the others. */
    method PutPacked(f: Field, vs: seq<Value>) returns (ok: bool)
      requires Valid() && Packable(f.ltype) && forall k :: 0 <= k < |vs| ==> ShapedValue(f.ltype, vs[k])
      modifies this`out, this`bytesWritten
      ensures Wrote(sizing, maxSize, old(out), old(bytesWritten), out, bytesWritten,
                    TagBytes(WT_STRING, f.tag) + Prefixed(EncodePacked(f.ltype, vs, 0)), true, ok)
      decreases f, 1
    {
      ghost var b := EncodePacked(f.ltype, vs, 0);
      ghost var out0, n0 := out, bytesWritten;
      ok := PutVarint(f.tag * 8 + WT_STRING);
      if !ok {
        return;
      }
      ghost var out1, n1 := out, bytesWritten;
      var size: nat;
      if f.ltype.Fixed32Field? {
        size := 4 * |vs|;
        PackedFixed(f.ltype, vs, 0);
      } else if f.ltype.Fixed64Field? {
        size := 8 * |vs|;
        PackedFixed(f.ltype, vs, 0);
      } else {
        var sizestream := new OStream.Sizing();
        ok := sizestream.PutItems(f.ltype, vs);
        if !ok {
          return;
        }
        size := sizestream.bytesWritten;
      }
      assert size == |b|;
      ok := PutVarint(size);
      if !ok {
        return;
      }
      ghost var out2, n2 := out, bytesWritten;
      if sizing {
        Count(size);
      } else {
        ok := PutItems(f.ltype, vs);
      }
      WroteBoth(sizing, maxSize, out1, n1, out2, n2, out, bytesWritten, Varint(|b|), b, true, ok);
      WroteBoth(sizing, maxSize, out0, n0, out1, n1, out, bytesWritten, TagBytes(WT_STRING, f.tag), Prefixed(b), true, ok);
    }

    /** A value under its tag. */
    method PutItem(f: Field, v: Value) returns (ok: bool)
      requires Valid() && ShapedValue(f.ltype, v)
      modifies this`out, this`bytesWritten
      ensures Wrote(sizing, maxSize, old(out), old(bytesWritten), out, bytesWritten, EncodeItem(f, v), InBounds(f.ltype, v), ok)
      decreases f, 1
    {
      ok := PutVarint(f.tag * 8 + WireType(f.ltype));
      if ok {
        ghost var out1, n1 := out, bytesWritten;
        ok := PutValue(f.ltype, v);
        WroteBoth(sizing, maxSize, old(out), old(bytesWritten), out1, n1, out, bytesWritten,
                  TagBytes(WireType(f.ltype), f.tag), EncodeValue(f.ltype, v), InBounds(f.ltype, v), ok);
      }
    }

    /** encode_array for types that do not pack. */
    method PutUnpacked(f: Field, vs: seq<Value>) returns (ok: bool)
      requires Valid() && forall k :: 0 <= k < |vs| ==> ShapedValue(f.ltype, vs[k])
      modifies this`out, this`bytesWritten
      ensures Wrote(sizing, maxSize, old(out), old(bytesWritten), out, bytesWritten,
                    EncodeUnpacked(f, vs, 0), ItemsInBounds(f.ltype, vs, 0), ok)
      decreases f, 2
    {
      ghost var done: Bytes := [];
      assert done + EncodeUnpacked(f, vs, 0) == EncodeUnpacked(f, vs, 0);
      var i := 0;
      while i < |vs|
        invariant i <= |vs| && Valid()
        invariant done + EncodeUnpacked(f, vs, i) == EncodeUnpacked(f, vs, 0)
        invariant ItemsInBounds(f.ltype, vs, i) == ItemsInBounds(f.ltype, vs, 0)
        invariant Wrote(sizing, maxSize, old(out), old(bytesWritten), out, bytesWritten, done, true, true)
      {
        ghost var out1, n1, b, tail := out, bytesWritten, EncodeItem(f, vs[i]), EncodeUnpacked(f, vs, i + 1);
        ok := PutItem(f, vs[i]);
        WroteNext(sizing, maxSize, old(out), old(bytesWritten), out1, n1, out, bytesWritten, done, b, tail,
                  InBounds(f.ltype, vs[i]), ok);
        if !ok {
          return;
        }
        done := done + b;
        i := i + 1;
      }
      assert done + [] == done;
      return true;
    }

    /** encode_basic_field. */
    method PutField(f: Field, s: Slot) returns (ok: bool)
      requires Valid() && ShapedSlot(f, s)
      modifies this`out, this`bytesWritten
      ensures Wrote(sizing, maxSize, old(out), old(bytesWritten), out, bytesWritten, EncodeSlot(f, s), SlotInBounds(f, s), ok)
      decreases f, 3
    {
      match f.htype
      case Required => ok := PutItem(f, s.v);
      case Optional =>
        ok := true;
        if s.o.Some? {
          ok := PutItem(f, s.o.value);
        }
      case Repeated(arraySize) =>
        if |s.vs| == 0 {
          return true;
        }
        if |s.vs| > arraySize {
          return false;
        }
        if Packable(f.ltype) {
          ScalarsInBounds(f.ltype, s.vs, 0);
          ok := PutPacked(f, s.vs);
        } else {
          ok := PutUnpacked(f, s.vs);
        }
    }

    /** pb_encode. */
    method Encode(fields: seq<Field>, m: Message) returns (ok: bool)
      requires Valid() && ShapedMessage(fields, m)
      modifies this`out, this`bytesWritten
      ensures Wrote(sizing, maxSize, old(out), old(bytesWritten), out, bytesWritten,
                    EncodeMessage(fields, m), MessageInBounds(fields, m, 0), ok)
      decreases fields, 3
    {
      ghost var done: Bytes := [];
      assert done + EncodeFrom(fields, m, 0) == EncodeMessage(fields, m);
      var i := 0;
      while i < |fields|
        invariant i <= |fields| && Valid()
        invariant done + EncodeFrom(fields, m, i) == EncodeMessage(fields, m)
        invariant MessageInBounds(fields, m, i) == MessageInBounds(fields, m, 0)
        invariant Wrote(sizing, maxSize, old(out), old(bytesWritten), out, bytesWritten, done, true, true)
      {
        ghost var out1, n1, b, tail := out, bytesWritten, EncodeSlot(fields[i], m[i]), EncodeFrom(fields, m, i + 1);
        ok := PutField(fields[i], m[i]);
        WroteNext(sizing, maxSize, old(out), old(bytesWritten), out1, n1, out, bytesWritten, done, b, tail,
                  SlotInBounds(fields[i], m[i]), ok);
        if !ok {
          return;
        }
        done := done + b;
        i := i + 1;
      }
      assert done + [] == done;
      return true;
    }
  }

  /** pb_get_encoded_size. */
  method GetEncodedSize(fields: seq<Field>, m: Message) returns (size: Option<nat>)
    requires ShapedMessage(fields, m)
    ensures size == if MessageInBounds(fields, m, 0) then Some(|EncodeMessage(fields, m)|) else None
  {
    var stream := new OStream.Sizing();
    var ok := stream.Encode(fields, m);
    return if ok then Some(stream.bytesWritten) else None;
  }
}
