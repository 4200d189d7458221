/** Encoder and decoder of nanopb together: a message sent through a buffer arrives, also at a
    reader whose descriptor does not have the last fields yet. */
module PbTransfers {
  import opened Coding
  import opened PbMessages
  import opened PbDecoding
  import opened PbRoundTrips
  import opened PbEncoding
  import PbStreams

  // ---- A message that a descriptor holds can be encoded ------------------------------------------------

  lemma HeldValue(f: Field, v: Value)
    requires HoldsValue(f.ltype, v)
    ensures ShapedValue(f.ltype, v) && InBounds(f.ltype, v)
    decreases f, 0
  {
    if f.ltype.Submessage? {
      HeldMessage(f.ltype.fields, v.m);
    }
  }

  lemma {:induction false} HeldItems(f: Field, vs: seq<Value>, i: nat)
    requires i <= |vs| && forall k :: 0 <= k < |vs| ==> HoldsValue(f.ltype, vs[k])
    ensures (forall k :: i <= k < |vs| ==> ShapedValue(f.ltype, vs[k])) && ItemsInBounds(f.ltype, vs, i)
    decreases f, 1, |vs| - i
  {
    if i < |vs| {
      HeldValue(f, vs[i]);
      HeldItems(f, vs, i + 1);
    }
  }

  lemma HeldSlot(f: Field, s: Slot)
    requires HoldsSlot(f, s)
    ensures ShapedSlot(f, s) && SlotInBounds(f, s)
    decreases f, 2
  {
    match s
    case One(v) => HeldValue(f, v);
    case Maybe(o) => if o.Some? { HeldValue(f, o.value); }
    case Many(vs) => HeldItems(f, vs, 0);
  }

  lemma {:induction false} HeldFrom(fields: seq<Field>, m: Message, i: nat)
    requires HoldsMessage(fields, m) && i <= |fields|
    ensures (forall k :: i <= k < |fields| ==> ShapedSlot(fields[k], m[k])) && MessageInBounds(fields, m, i)
    decreases fields, 0, |fields| - i
  {
    if i < |fields| {
      HeldSlot(fields[i], m[i]);
      HeldFrom(fields, m, i + 1);
    }
  }

  lemma HeldMessage(fields: seq<Field>, m: Message)
    requires HoldsMessage(fields, m)
    ensures ShapedMessage(fields, m) && MessageInBounds(fields, m, 0)
    decreases fields, 1
  {
    HeldFrom(fields, m, 0);
  }

  /** Encode into a buffer, decode from it: the message comes back if the buffer is large enough, and
      the encoder fails otherwise. */
  method Transfer(fields: seq<Field>, m: Message, size: nat) returns (r: Option<Message>)
    requires Descriptor(fields) && HoldsMessage(fields, m)
    ensures r == if |EncodeMessage(fields, m)| <= size then Some(m) else None
  {
    HeldMessage(fields, m);
    var stream := new OStream.Writing([], size);
    var ok := stream.Encode(fields, m);
    if !ok {
      return None;
    }
    assert stream.out == EncodeMessage(fields, m);
    MessageRoundTrip(fields, m);
    r := PbStreams.PbDecode(fields, stream.out);
  }

  // ---- Fields the reader does not know ---------------------------------------------------------------------

  lemma {:induction false} SkipsVarint(v: nat, rest: Bytes)
    ensures SkipVarint(Varint(v) + rest) == Some(rest)
  {
    VarintHead(v, rest);
    if v >= 128 {
      SkipsVarint(v / 128, rest);
    }
  }

  lemma SkipsFixed(bs: Bytes, rest: Bytes)
    ensures Read(bs + rest, |bs|) == Some((bs, rest))
  {
  }

  /** pb_skip_field passes over exactly the value. */
  lemma SkipsValue(t: LType, v: Value, rest: Bytes)
    requires HoldsValue(t, v)
    ensures Skip(WireType(t), EncodeValue(t, v) + rest) == Some(rest)
  {
    match v
    case VBool(b) => SkipsVarint(if b then 1 else 0, rest);
    case VBytes(bs) => SubstreamRoundTrip(bs, rest);
    case VMessage(m) => SubstreamRoundTrip(EncodeMessage(t.fields, m), rest);
    case VInt(i) =>
      if t.Fixed32Field? || t.Fixed64Field? {
        SkipsFixed(EncodeValue(t, v), rest);
      } else if t.SVarintField? {
        SkipsVarint(ZigZag(i), rest);
      } else {
        SkipsVarint(i % TWO64, rest);
      }
  }

  predicate Unknown(known: seq<Field>, f: Field) {
    0 < f.tag <= MAX_TAG && forall i :: 0 <= i < |known| ==> known[i].tag != f.tag
  }

  /** An unknown tag, and what Skip finds after it. */
  lemma UnknownStep(known: seq<Field>, f: Field, wire: nat, body: Bytes, rest: Bytes, cur: Message, seen: set<nat>)
    requires Unknown(known, f) && |known| == |cur| && wire < 8 && Skip(wire, body) == Some(rest)
    ensures DecodeLoop(known, TagBytes(wire, f.tag) + body, cur, seen) == DecodeLoop(known, rest, cur, seen)
  {
    TagWord(f.tag, wire);
    Read32RoundTrip(f.tag * 8 + wire, body);
    assert IndexOf(known, f.tag) == None;
  }

  lemma UnknownItem(known: seq<Field>, f: Field, v: Value, rest: Bytes, cur: Message, seen: set<nat>)
    requires Unknown(known, f) && |known| == |cur| && HoldsValue(f.ltype, v)
    ensures DecodeLoop(known, EncodeItem(f, v) + rest, cur, seen) == DecodeLoop(known, rest, cur, seen)
  {
    var body := EncodeValue(f.ltype, v) + rest;
    SkipsValue(f.ltype, v, rest);
    assert EncodeItem(f, v) + rest == TagBytes(WireType(f.ltype), f.tag) + body;
    UnknownStep(known, f, WireType(f.ltype), body, rest, cur, seen);
  }

  lemma {:induction false} UnknownItems(known: seq<Field>, f: Field, vs: seq<Value>, k: nat, rest: Bytes, cur: Message, seen: set<nat>)
    requires Unknown(known, f) && |known| == |cur| && k <= |vs|
    requires forall j :: 0 <= j < |vs| ==> HoldsValue(f.ltype, vs[j])
    ensures DecodeLoop(known, EncodeUnpacked(f, vs, k) + rest, cur, seen) == DecodeLoop(known, rest, cur, seen)
    decreases |vs| - k
  {
    if k == |vs| {
      assert EncodeUnpacked(f, vs, k) + rest == rest;
    } else {
      var tail := EncodeUnpacked(f, vs, k + 1) + rest;
      assert EncodeUnpacked(f, vs, k) + rest == EncodeItem(f, vs[k]) + tail;
      UnknownItem(known, f, vs[k], tail, cur, seen);
      UnknownItems(known, f, vs, k + 1, rest, cur, seen);
    }
  }

  /** Whatever an unknown field was encoded to leaves the message as it is. */
  lemma UnknownSlot(known: seq<Field>, f: Field, s: Slot, rest: Bytes, cur: Message, seen: set<nat>)
    requires Unknown(known, f) && |known| == |cur| && HoldsSlot(f, s)
    ensures DecodeLoop(known, EncodeSlot(f, s) + rest, cur, seen) == DecodeLoop(known, rest, cur, seen)
  {
    if EncodeSlot(f, s) == [] {
      assert EncodeSlot(f, s) + rest == rest;
    } else {
      match s
      case One(v) => UnknownItem(known, f, v, rest, cur, seen);
      case Maybe(o) => UnknownItem(known, f, o.value, rest, cur, seen);
      case Many(vs) =>
        if Packable(f.ltype) {
          var b := EncodePacked(f.ltype, vs, 0);
          SubstreamRoundTrip(b, rest);
          assert EncodeSlot(f, s) + rest == TagBytes(WT_STRING, f.tag) + (Prefixed(b) + rest);
          UnknownStep(known, f, WT_STRING, Prefixed(b) + rest, rest, cur, seen);
        } else {
          UnknownItems(known, f, vs, 0, rest, cur, seen);
        }
    }
  }

  /** One field of the newer descriptor, known to the reader or not. */
  lemma KnownField(fields: seq<Field>, n: nat, m: Message, i: nat, rest: Bytes)
    requires i < n <= |fields| && Descriptor(fields[..n]) && HoldsMessage(fields, m)
    ensures DecodeLoop(fields[..n], EncodeSlot(fields[i], m[i]) + rest, Partly(fields[..n], m[..n], i), SeenUpTo(fields[..n], i)) ==
            DecodeLoop(fields[..n], rest, Partly(fields[..n], m[..n], i + 1), SeenUpTo(fields[..n], i + 1))
  {
    var known := fields[..n];
    var cur := Partly(known, m[..n], i);
    DefaultsAt(known, 0, i);
    assert cur[i] == DefaultSlot(known[i]) && known[i] == fields[i];
    SlotRoundTrip(known, i, fields[i], m[i], rest, cur, SeenUpTo(known, i));
    assert cur[i := m[i]] == Partly(known, m[..n], i + 1);
  }

  lemma {:induction false} NewFields(fields: seq<Field>, known: seq<Field>, m: Message, i: nat, cur: Message, seen: set<nat>)
    requires HoldsMessage(fields, m) && |cur| == |known| && i <= |fields|
    requires forall k :: i <= k < |fields| ==> Unknown(known, fields[k])
    ensures DecodeLoop(known, EncodeFrom(fields, m, i), cur, seen) == Some((cur, seen))
    decreases |fields| - i
  {
    if i < |fields| {
      UnknownSlot(known, fields[i], m[i], EncodeFrom(fields, m, i + 1), cur, seen);
      NewFields(fields, known, m, i + 1, cur, seen);
    }
  }

  lemma {:induction false} OlderFields(fields: seq<Field>, n: nat, m: Message, i: nat)
    requires i <= n <= |fields| && Descriptor(fields[..n]) && HoldsMessage(fields, m)
    requires forall k :: n <= k < |fields| ==> Unknown(fields[..n], fields[k])
    ensures DecodeLoop(fields[..n], EncodeFrom(fields, m, i), Partly(fields[..n], m[..n], i), SeenUpTo(fields[..n], i)) ==
            Some((m[..n], SeenUpTo(fields[..n], n)))
    decreases n - i
  {
    if i == n {
      assert Partly(fields[..n], m[..n], n) == m[..n];
      NewFields(fields, fields[..n], m, n, m[..n], SeenUpTo(fields[..n], n));
    } else {
      KnownField(fields, n, m, i, EncodeFrom(fields, m, i + 1));
      OlderFields(fields, n, m, i + 1);
    }
  }

  /** A reader that knows only the first n fields decodes those and skips the others. */
  lemma OlderReader(fields: seq<Field>, n: nat, m: Message)
    requires Descriptor(fields) && HoldsMessage(fields, m) && n <= |fields|
    ensures Decode(fields[..n], EncodeMessage(fields, m)) == Some(m[..n])
  {
    var known := fields[..n];
    forall i | 0 <= i < |known| ensures DescriptorField(known[i]) {
      assert DescriptorField(fields[i]);
    }
    forall k | n <= k < |fields| ensures Unknown(known, fields[k]) {
      assert DescriptorField(fields[k]);
    }
    OlderFields(fields, n, m, 0);
    assert Partly(known, m[..n], 0) == Defaults(known);
    SeenBefore(known, n);
  }
}
