/** Decoding an encoded nanopb message gives the message back, for every descriptor with distinct
    tags and every message it can hold. */
module PbRoundTrips {
  import opened Coding
  import opened PbMessages
  import opened PbDecoding

  // ---- Varints -----------------------------------------------------------------------------------

  lemma Powers()
    ensures Power2(7) == 128 && Power2(14) == 0x4000 && Power2(21) == 0x20_0000 && Power2(28) == 0x1000_0000
  {
    assert Power2(7) == 2 * (2 * (2 * (2 * (2 * (2 * (2 * Power2(0)))))));
    assert Power2(14) == 2 * (2 * (2 * (2 * (2 * (2 * (2 * Power2(7)))))));
    assert Power2(21) == 2 * (2 * (2 * (2 * (2 * (2 * (2 * Power2(14)))))));
    assert Power2(28) == 2 * (2 * (2 * (2 * (2 * (2 * (2 * Power2(21)))))));
  }

  lemma SignPowers()
    ensures Power2(15) == 0x8000 && Power2(16) == 0x1_0000
    ensures Power2(31) == 0x8000_0000 && Power2(32) == TWO32
  {
    Powers();
    assert Power2(15) == 2 * Power2(14) && Power2(16) == 2 * Power2(15);
    assert Power2(31) == 2 * (2 * (2 * Power2(28))) && Power2(32) == 2 * Power2(31);
  }

  lemma SignPowers64()
    ensures Power2(63) == 0x8000_0000_0000_0000 && Power2(64) == TWO64
  {
    SignPowers();
    assert Power2(39) == 2 * (2 * (2 * (2 * (2 * (2 * (2 * Power2(32)))))));
    assert Power2(46) == 2 * (2 * (2 * (2 * (2 * (2 * (2 * Power2(39)))))));
    assert Power2(53) == 2 * (2 * (2 * (2 * (2 * (2 * (2 * Power2(46)))))));
    assert Power2(60) == 2 * (2 * (2 * (2 * (2 * (2 * (2 * Power2(53)))))));
    assert Power2(63) == 2 * (2 * (2 * Power2(60))) && Power2(64) == 2 * Power2(63);
  }

  /** What is left of the bits once `bitpos` of them have been taken. */
  predicate Place(bitpos: nat, weight: nat, limit: nat) {
    || (bitpos == 7 && weight == 128 && limit == 0x200_0000)
    || (bitpos == 14 && weight == 0x4000 && limit == 0x4_0000)
    || (bitpos == 21 && weight == 0x20_0000 && limit == 0x800)
    || (bitpos == 28 && weight == 0x1000_0000 && limit == 16)
  }

  /** The first byte of a varint and the rest of it. */
  lemma VarintHead(v: nat, rest: Bytes)
    ensures var s := Varint(v) + rest;
            && s[0] == (if v < 128 then v else v % 128 + 128)
            && s[0] as int % 128 == v % 128
            && s[1..] == (if v < 128 then rest else Varint(v / 128) + rest)
  {
    var s, r := Varint(v) + rest, v % 128;
    if v < 128 {
      assert s[1..] == rest;
    } else {
      assert s[1..] == Varint(v / 128) + rest;
      assert (r + 128) % 128 == r;
    }
  }

  lemma {:induction false} OrZero(d: nat)
    ensures Or(0, d) == d
  {
    if d > 0 {
      OrZero(d / 2);
    }
  }

  lemma OrEven(a: nat, b: nat)
    ensures Or(a, 2 * b) == a % 2 + 2 * Or(a / 2, b)
  {
    assert 2 * b / 2 == b && 2 * b % 2 == 0;
  }

  lemma Twice(d: nat, p: nat)
    ensures d * (2 * p) == 2 * (d * p)
  {
  }

  /** Bits above those taken so far are added by |. */
  lemma {:induction false} OrAdds(a: nat, d: nat, k: nat, p: nat)
    requires p == Power2(k) && a < p
    ensures Or(a, d * p) == a + d * p
    decreases k
  {
    if k == 0 {
      OrZero(d);
    } else {
      var q := Power2(k - 1);
      OrAdds(a / 2, d, k - 1, q);
      Twice(d, q);
      OrEven(a, d * q);
    }
  }

  lemma StaysIn32(bitpos: nat, weight: nat, limit: nat, digit: nat)
    requires Place(bitpos, weight, limit) && digit < limit
    ensures digit * weight % TWO32 == digit * weight && Power2(bitpos) == weight
  {
    Powers();
  }

  lemma TakenAdds(result: nat, digit: nat, bitpos: nat, weight: nat, limit: nat)
    requires Place(bitpos, weight, limit) && result < weight && digit < limit
    ensures Taken(result, digit, bitpos) == result + digit * weight
  {
    StaysIn32(bitpos, weight, limit, digit);
    OrAdds(result, digit, bitpos, weight);
  }

  lemma HighBitsClear(b: Byte)
    requires b as int % 128 < 16
    ensures b as int / 16 % 8 == 0
  {
    assert b < 16 || 128 <= b < 144;
  }

  /** One turn of the loop below 32 bits. */
  lemma More32Turn(s: Bytes, result: nat, bitpos: nat, taken: nat)
    requires |s| > 0 && bitpos < 32 && taken == Taken(result, s[0] as int % 128, bitpos)
    requires bitpos == 28 ==> s[0] as int / 16 % 8 == 0
    ensures More32(s, result, bitpos) == if s[0] >= 128 then More32(s[1..], taken, bitpos + 7) else Some((taken, s[1..]))
  {
    assert (bitpos + 7) % 256 == bitpos + 7;
  }

  /** One more byte taken by the loop. */
  lemma More32Step(s: Bytes, result: nat, bitpos: nat, weight: nat, limit: nat, digit: nat, taken: nat)
    requires Place(bitpos, weight, limit) && |s| > 0 && result < weight
    requires digit == s[0] as int % 128 < limit && taken == result + digit * weight
    ensures More32(s, result, bitpos) == if s[0] >= 128 then More32(s[1..], taken, bitpos + 7) else Some((taken, s[1..]))
  {
    TakenAdds(result, digit, bitpos, weight, limit);
    if bitpos == 28 {
      HighBitsClear(s[0]);
    }
    More32Turn(s, result, bitpos, taken);
  }

  /** A varint's first digit, and the rest of it. */
  lemma FirstDigit(v: nat, rest: Bytes) returns (digit: nat, more: nat)
    ensures v == 128 * more + digit && digit < 128
    ensures var s := Varint(v) + rest;
            && s[0] as int % 128 == digit && (s[0] >= 128 <==> more > 0)
            && s[1..] == if more > 0 then Varint(more) + rest else rest
  {
    digit, more := v % 128, v / 128;
    VarintHead(v, rest);
  }

  /** What the loop has still to read, and where it stands. */
  predicate Reading(v: nat, result: nat, bitpos: nat, weight: nat, limit: nat, total: nat) {
    Place(bitpos, weight, limit) && v < limit && result < weight && total == result + v * weight
  }

  /** Taking the low digit leaves the next place, and does not change the whole. */
  lemma NextPlace(digit: nat, more: nat, result: nat, bitpos: nat, weight: nat, limit: nat, total: nat)
    returns (taken: nat, weight': nat, limit': nat)
    requires Reading(128 * more + digit, result, bitpos, weight, limit, total) && digit < 128
    ensures digit < limit && taken == result + digit * weight
    ensures if more > 0 then Reading(more, taken, bitpos + 7, weight', limit', total) else taken == total
  {
    taken, weight', limit' := result + digit * weight, 128 * weight, limit / 128;
    assert more * weight' == 128 * more * weight;
    assert (128 * more + digit) * weight == 128 * more * weight + digit * weight;
    assert digit * weight <= 127 * weight;
  }

  /** One turn on a varint: done, or as much nearer to the total. */
  lemma Advance(v: nat, rest: Bytes, result: nat, bitpos: nat, weight: nat, limit: nat, total: nat)
    returns (more: nat, taken: nat, weight': nat, limit': nat)
    requires Reading(v, result, bitpos, weight, limit, total)
    ensures more > 0 ==> more < v && Reading(more, taken, bitpos + 7, weight', limit', total)
    ensures More32(Varint(v) + rest, result, bitpos) ==
            if more > 0 then More32(Varint(more) + rest, taken, bitpos + 7) else Some((total, rest))
  {
    var digit;
    digit, more := FirstDigit(v, rest);
    taken, weight', limit' := NextPlace(digit, more, result, bitpos, weight, limit, total);
    More32Step(Varint(v) + rest, result, bitpos, weight, limit, digit, taken);
  }

  lemma {:induction false} More32RoundTrip(v: nat, rest: Bytes, result: nat, bitpos: nat, weight: nat, limit: nat, total: nat)
    requires Reading(v, result, bitpos, weight, limit, total)
    ensures More32(Varint(v) + rest, result, bitpos) == Some((total, rest))
    decreases v
  {
    var more, taken, weight', limit' := Advance(v, rest, result, bitpos, weight, limit, total);
    if more > 0 {
      More32RoundTrip(more, rest, taken, bitpos + 7, weight', limit', total);
    }
  }

  lemma Read32RoundTrip(v: nat, rest: Bytes)
    requires v < TWO32
    ensures ReadVarint32(Varint(v) + rest) == Some((v, rest))
  {
    VarintHead(v, rest);
    if v >= 128 {
      More32RoundTrip(v / 128, rest, v % 128, 7, 128, 0x200_0000, v);
    }
  }

  lemma Read64RoundTrip(v: nat, rest: Bytes)
    requires v < TWO64
    ensures ReadVarint64(Varint(v) + rest) == Some((v, rest))
  {
    Varint64RoundTrip(v, rest);
    assert (Varint(v) + rest)[|Varint(v)|..] == rest;
  }

  lemma SubstreamRoundTrip(bs: Bytes, rest: Bytes)
    requires |bs| < TWO32
    ensures Substream(Prefixed(bs) + rest) == Some((bs, rest))
  {
    Read32RoundTrip(|bs|, bs + rest);
    assert Prefixed(bs) + rest == Varint(|bs|) + (bs + rest);
    assert (bs + rest)[..|bs|] == bs && (bs + rest)[|bs|..] == rest;
  }

  // ---- Values -----------------------------------------------------------------------------------

  lemma Below64(bits: nat)
    requires Width(bits)
    ensures Power2(bits) <= TWO64 && 2 * Power2(bits - 1) == Power2(bits)
    ensures bits < 64 ==> Power2(bits) <= TWO32
  {
    Powers();
    SignPowers();
    SignPowers64();
    assert Power2(8) == 2 * Power2(7);
  }

  lemma SignedBack(i: int)
    ensures -0x8000_0000_0000_0000 <= i < 0x8000_0000_0000_0000 ==> Signed64(i % TWO64) == i
    ensures -0x8000_0000 <= i < 0x8000_0000 ==> Signed32(i % TWO64) == i
  {
  }

  lemma VarintValue(bits: nat, i: int, rest: Bytes)
    requires Width(bits) && FitsSigned(i, bits)
    ensures DecodeVarint(bits, Varint(i % TWO64) + rest) == Some((VInt(i), rest))
  {
    Below64(bits);
    SignedBack(i);
    Read64RoundTrip(i % TWO64, rest);
  }

  lemma UVarintTaken(bits: nat, i: nat, s: Bytes, rest: Bytes)
    requires Width(bits) && i < Power2(bits) && ReadVarint64(s) == Some((i, rest))
    ensures DecodeUVarint(bits, s) == Some((VInt(i), rest))
  {
  }

  lemma UVarintValue(bits: nat, i: nat, rest: Bytes)
    requires Width(bits) && i < Power2(bits)
    ensures i < TWO64 && DecodeUVarint(bits, Varint(i) + rest) == Some((VInt(i), rest))
  {
    assert i < TWO64 by { Below64(bits); }
    Read64RoundTrip(i, rest);
    UVarintTaken(bits, i, Varint(i) + rest, rest);
  }

  lemma SVarintValue(bits: nat, i: int, rest: Bytes)
    requires Width(bits) && FitsSigned(i, bits)
    ensures DecodeSVarint(bits, Varint(ZigZag(i)) + rest) == Some((VInt(i), rest))
  {
    Below64(bits);
    Read64RoundTrip(ZigZag(i), rest);
    ZigZagRoundTrip(i);
  }

  lemma FixedValue(i: nat, n: nat, rest: Bytes)
    requires n > 0 && i < Pow256(n)
    ensures DecodeFixedField(n, EncodeFixed(i, n) + rest) == Some((VInt(i), rest))
  {
    var s := EncodeFixed(i, n) + rest;
    assert s[..n] == EncodeFixed(i, n) + [] && s[n..] == rest;
    FixedRoundTrip(i, n, []);
  }

  lemma BytesValue(bs: Bytes, most: int, rest: Bytes)
    requires |bs| <= most && |bs| < TWO32
    ensures DecodeBounded(most, Prefixed(bs) + rest) == Some((VBytes(bs), rest))
  {
    SubstreamRoundTrip(bs, rest);
  }

  lemma FixedBytesValue(bs: Bytes, rest: Bytes)
    requires |bs| <= PB_SIZE_MAX
    ensures DecodeFixedBytes(|bs|, Prefixed(bs) + rest) == Some((VBytes(bs), rest))
  {
    SubstreamRoundTrip(bs, rest);
  }

  lemma FixedEncoded(t: LType, i: nat)
    ensures t.Fixed32Field? && i < TWO32 ==> EncodeValue(t, VInt(i)) == EncodeFixed(i, 4)
    ensures t.Fixed64Field? && i < TWO64 ==> EncodeValue(t, VInt(i)) == EncodeFixed(i, 8)
  {
    assert i < TWO32 ==> i % TWO32 == i;
    assert i < TWO64 ==> i % TWO64 == i;
  }

  lemma FixedRoundTrips(t: LType, i: nat, n: nat, rest: Bytes, cur: Value)
    requires (t.Fixed32Field? && n == 4) || (t.Fixed64Field? && n == 8)
    requires i < Pow256(n) && EncodeValue(t, VInt(i)) == EncodeFixed(i, n)
    ensures DecodeValue(t, EncodeValue(t, VInt(i)) + rest, cur) == Some((VInt(i), rest))
  {
    FixedValue(i, n, rest);
  }

  lemma UVarintBytes(t: LType, i: nat)
    requires t.UVarintField? && i < TWO64
    ensures EncodeValue(t, VInt(i)) == Varint(i)
  {
    assert i % TWO64 == i;
  }

  lemma UVarintRoundTrips(t: LType, i: nat, rest: Bytes, cur: Value)
    requires t.UVarintField? && Width(t.bits) && i < Power2(t.bits)
    ensures DecodeValue(t, EncodeValue(t, VInt(i)) + rest, cur) == Some((VInt(i), rest))
  {
    UVarintValue(t.bits, i, rest);
    UVarintBytes(t, i);
  }

  /** Every type but submessages. */
  lemma ScalarRoundTrip(t: LType, v: Value, rest: Bytes, cur: Value)
    requires HoldsValue(t, v) && !t.Submessage?
    ensures DecodeValue(t, EncodeValue(t, v) + rest, cur) == Some((v, rest))
  {
    match t
    case VarintField(bits) => VarintValue(bits, v.i, rest);
    case UVarintField(bits) => UVarintRoundTrips(t, v.i, rest, cur);
    case SVarintField(bits) => SVarintValue(bits, v.i, rest);
    case Fixed32Field => Widths(); FixedEncoded(t, v.i); FixedRoundTrips(t, v.i, 4, rest, cur);
    case Fixed64Field => Widths(); FixedEncoded(t, v.i); FixedRoundTrips(t, v.i, 8, rest, cur);
    case BoolField => Read32RoundTrip(if v.b then 1 else 0, rest);
    case BytesField(max) => BytesValue(v.bs, Fitting(max), rest);
    case StringField(dataSize) => BytesValue(v.bs, Fitting(dataSize) - 1, rest);
    case FixedBytes(_) => FixedBytesValue(v.bs, rest);
  }

  /** Packed arrays: the items are read back in order, until the substream is used up. */
  lemma {:induction false} PackedRoundTrip(t: LType, vs: seq<Value>, i: nat, arraySize: nat)
    requires i <= |vs| <= arraySize && Packable(t) && forall k :: 0 <= k < |vs| ==> HoldsValue(t, vs[k])
    ensures DecodePacked(t, EncodePacked(t, vs, i), vs[..i], arraySize) == Some(vs)
    decreases |vs| - i
  {
    if i == |vs| {
      assert vs[..i] == vs;
    } else {
      PackedStep(t, vs[i], EncodePacked(t, vs, i + 1), vs[..i], arraySize);
      assert vs[..i] + [vs[i]] == vs[..i + 1];
      PackedRoundTrip(t, vs, i + 1, arraySize);
    }
  }

  lemma PackedStep(t: LType, v: Value, rest: Bytes, sofar: seq<Value>, arraySize: nat)
    requires Packable(t) && HoldsValue(t, v) && |sofar| < arraySize
    ensures DecodePacked(t, EncodeValue(t, v) + rest, sofar, arraySize) == DecodePacked(t, rest, sofar + [v], arraySize)
  {
    ScalarRoundTrip(t, v, rest, Zero(t));
  }

  // ---- Fields -----------------------------------------------------------------------------------

  lemma TagWord(tag: nat, wire: nat)
    requires 0 < tag <= MAX_TAG && wire < 8
    ensures 0 < tag * 8 + wire < TWO32 && (tag * 8 + wire) / 8 == tag && (tag * 8 + wire) % 8 == wire
  {
  }

  function AfterField(fields: seq<Field>, i: nat, cur: Message, seen: set<nat>, r: Option<(Slot, Bytes)>):
    Option<(Message, set<nat>)>
    requires i < |fields| == |cur|
  {
    match r
    case None => None
    case Some((slot, after)) => DecodeLoop(fields, after, cur[i := slot], Seen(fields, i, seen))
  }

  /** The loop reads a tag of the i-th field and hands over to its decoder. */
  lemma TagStep(fields: seq<Field>, i: nat, wire: nat, body: Bytes, cur: Message, seen: set<nat>)
    requires Descriptor(fields) && i < |fields| == |cur| && wire < 8
    ensures DecodeLoop(fields, TagBytes(wire, fields[i].tag) + body, cur, seen) ==
            AfterField(fields, i, cur, seen, DecodeField(fields[i], wire, body, cur[i]))
  {
    var tag := fields[i].tag;
    TagWord(tag, wire);
    Read32RoundTrip(tag * 8 + wire, body);
    IndexOfTag(fields, i);
  }

  /** A value is decoded to itself over anything, a submessage over its defaults. */
  lemma ValueRoundTrip(f: Field, v: Value, rest: Bytes, cur: Value)
    requires DescriptorField(f) && HoldsValue(f.ltype, v) && (f.ltype.Submessage? ==> cur == Zero(f.ltype))
    ensures DecodeValue(f.ltype, EncodeValue(f.ltype, v) + rest, cur) == Some((v, rest))
    decreases f, 0
  {
    var t := f.ltype;
    if t.Submessage? {
      var b := EncodeMessage(t.fields, v.m);
      MessageRoundTrip(t.fields, v.m);
      SubstreamRoundTrip(b, rest);
    } else {
      ScalarRoundTrip(t, v, rest, cur);
    }
  }

  /** An array that is not packed: item after item, each with its tag. */
  lemma {:induction false} UnpackedRoundTrip(fields: seq<Field>, i: nat, f: Field, vs: seq<Value>, k: nat, rest: Bytes,
                                             cur: Message, seen: set<nat>)
    requires Descriptor(fields) && i < |fields| == |cur| && f == fields[i]
    requires f.htype.Repeated? && !Packable(f.ltype) && k <= |vs| <= f.htype.arraySize && cur[i] == Many(vs[..k])
    requires forall j :: 0 <= j < |vs| ==> HoldsValue(f.ltype, vs[j])
    ensures DecodeLoop(fields, EncodeUnpacked(f, vs, k) + rest, cur, seen) == DecodeLoop(fields, rest, cur[i := Many(vs)], seen)
    decreases f, 1, |vs| - k
  {
    if k == |vs| {
      assert EncodeUnpacked(f, vs, k) + rest == rest;
      assert vs[..k] == vs && cur[i := Many(vs)] == cur;
    } else {
      var tail := EncodeUnpacked(f, vs, k + 1) + rest;
      var body := EncodeValue(f.ltype, vs[k]) + tail;
      assert EncodeUnpacked(f, vs, k) + rest == TagBytes(WireType(f.ltype), f.tag) + body;
      TagStep(fields, i, WireType(f.ltype), body, cur, seen);
      ValueRoundTrip(f, vs[k], tail, Zero(f.ltype));
      var cur' := cur[i := Many(vs[..k + 1])];
      assert vs[..k] + [vs[k]] == vs[..k + 1];
      UnpackedRoundTrip(fields, i, f, vs, k + 1, rest, cur', seen);
      assert cur'[i := Many(vs)] == cur[i := Many(vs)];
    }
  }

  lemma PackedField(fields: seq<Field>, i: nat, f: Field, vs: seq<Value>, rest: Bytes, cur: Message, seen: set<nat>)
    requires Descriptor(fields) && i < |fields| == |cur| && f == fields[i] && cur[i] == Many([])
    requires f.htype.Repeated? && Packable(f.ltype) && HoldsSlot(f, Many(vs)) && |vs| > 0
    ensures DecodeLoop(fields, EncodeSlot(f, Many(vs)) + rest, cur, seen) == DecodeLoop(fields, rest, cur[i := Many(vs)], seen)
  {
    var b := EncodePacked(f.ltype, vs, 0);
    assert EncodeSlot(f, Many(vs)) + rest == TagBytes(WT_STRING, f.tag) + (Prefixed(b) + rest);
    TagStep(fields, i, WT_STRING, Prefixed(b) + rest, cur, seen);
    SubstreamRoundTrip(b, rest);
    PackedRoundTrip(f.ltype, vs, 0, f.htype.arraySize);
    assert vs[..0] == [];
  }

  function Present(f: Field, v: Value): Slot { if f.htype.Required? then One(v) else Maybe(Some(v)) }

  lemma SingleDecoded(f: Field, wire: nat, v: Value, rest: Bytes)
    requires DescriptorField(f) && HoldsValue(f.ltype, v) && !f.htype.Repeated?
    ensures DecodeField(f, wire, EncodeValue(f.ltype, v) + rest, DefaultSlot(f)) == Some((Present(f, v), rest))
    decreases f, 1
  {
    var slot := DefaultSlot(f);
    ValueRoundTrip(f, v, rest, if slot.One? then slot.v else Zero(f.ltype));
  }

  /** A required or present optional field. */
  lemma SingleField(fields: seq<Field>, i: nat, f: Field, v: Value, rest: Bytes, cur: Message, seen: set<nat>)
    requires Descriptor(fields) && i < |fields| == |cur| && f == fields[i]
    requires DecodeField(f, WireType(f.ltype), EncodeValue(f.ltype, v) + rest, cur[i]) == Some((Present(f, v), rest))
    ensures DecodeLoop(fields, EncodeItem(f, v) + rest, cur, seen) ==
            DecodeLoop(fields, rest, cur[i := Present(f, v)], Seen(fields, i, seen))
  {
    var body := EncodeValue(f.ltype, v) + rest;
    assert EncodeItem(f, v) + rest == TagBytes(WireType(f.ltype), f.tag) + body;
    TagStep(fields, i, WireType(f.ltype), body, cur, seen);
  }

  /** Whatever a slot encodes to turns the default slot into it. */
  lemma SlotRoundTrip(fields: seq<Field>, i: nat, f: Field, s: Slot, rest: Bytes, cur: Message, seen: set<nat>)
    requires Descriptor(fields) && i < |fields| == |cur| && f == fields[i] && HoldsSlot(f, s) && cur[i] == DefaultSlot(f)
    ensures DecodeLoop(fields, EncodeSlot(f, s) + rest, cur, seen) ==
            DecodeLoop(fields, rest, cur[i := s], Seen(fields, i, seen))
    decreases f, 2
  {
    match s
    case One(v) =>
      SingleDecoded(f, WireType(f.ltype), v, rest);
      SingleField(fields, i, f, v, rest, cur, seen);
    case Maybe(o) =>
      if o.Some? {
        SingleDecoded(f, WireType(f.ltype), o.value, rest);
        SingleField(fields, i, f, o.value, rest, cur, seen);
      } else {
        assert EncodeSlot(f, s) + rest == rest && cur[i := s] == cur;
      }
    case Many(vs) =>
      if |vs| == 0 {
        assert EncodeSlot(f, s) + rest == rest && cur[i := s] == cur;
      } else if Packable(f.ltype) {
        PackedField(fields, i, f, vs, rest, cur, seen);
      } else {
        assert vs[..0] == [];
        UnpackedRoundTrip(fields, i, f, vs, 0, rest, cur, seen);
      }
  }

  // ---- Messages ----------------------------------------------------------------------------------

  /** The seen-bits once the first n fields have been read. */
  function SeenUpTo(fields: seq<Field>, n: nat): set<nat>
    requires n <= |fields|
  {
    if n == 0 then {} else Seen(fields, n - 1, SeenUpTo(fields, n - 1))
  }

  lemma {:induction false} SeenBefore(fields: seq<Field>, n: nat)
    requires n <= |fields|
    ensures forall r :: 0 <= r < RequiredBefore(fields, n) && r < MAX_REQUIRED ==> r in SeenUpTo(fields, n)
  {
    if n > 0 {
      SeenBefore(fields, n - 1);
    }
  }

  lemma {:induction false} DefaultsAt(fields: seq<Field>, i: nat, k: nat)
    requires i <= k < |fields|
    ensures DefaultsFrom(fields, i)[k - i] == DefaultSlot(fields[k])
    decreases k - i
  {
    if i < k {
      DefaultsAt(fields, i + 1, k);
    }
  }

  /** The message with its first i fields decoded. */
  function Partly(fields: seq<Field>, m: Message, i: nat): (r: Message)
    requires i <= |fields| == |m|
    ensures |r| == |fields|
  {
    m[..i] + Defaults(fields)[i..]
  }

  lemma {:induction false} FieldsRoundTrip(fields: seq<Field>, m: Message, i: nat)
    requires Descriptor(fields) && HoldsMessage(fields, m) && i <= |fields|
    ensures DecodeLoop(fields, EncodeFrom(fields, m, i), Partly(fields, m, i), SeenUpTo(fields, i)) ==
            Some((m, SeenUpTo(fields, |fields|)))
    decreases fields, 0, |fields| - i
  {
    var cur := Partly(fields, m, i);
    if i == |fields| {
      assert cur == m;
    } else {
      DefaultsAt(fields, 0, i);
      assert cur[i] == DefaultSlot(fields[i]);
      SlotRoundTrip(fields, i, fields[i], m[i], EncodeFrom(fields, m, i + 1), cur, SeenUpTo(fields, i));
      assert cur[i := m[i]] == Partly(fields, m, i + 1);
      FieldsRoundTrip(fields, m, i + 1);
    }
  }

  /** pb_decode of pb_encode restores the message. */
  lemma MessageRoundTrip(fields: seq<Field>, m: Message)
    requires Descriptor(fields) && HoldsMessage(fields, m)
    ensures Decode(fields, EncodeMessage(fields, m)) == Some(m)
    decreases fields, 1
  {
    FieldsRoundTrip(fields, m, 0);
    assert Partly(fields, m, 0) == Defaults(fields);
    SeenBefore(fields, |fields|);
  }
}
