/** Fixed-width and variable-length integers (util/coding.cc). */
module Coding {
  type Byte = x: int | 0 <= x < 256
  type Bytes = seq<Byte>

  datatype Option<+T> = None | Some(value: T)

  const TWO32: nat := 0x1_0000_0000
  const TWO64: nat := 0x1_0000_0000_0000_0000

  // ---- Fixed width -------------------------------------------------------------------

  function Pow256(n: nat): (p: nat)
    ensures p > 0
  {
    if n == 0 then 1 else 256 * Pow256(n - 1)
  }

  /** The low n bytes of v, least significant first. */
  function EncodeFixed(v: nat, n: nat): (r: Bytes)
    ensures |r| == n
  {
    if n == 0 then [] else [v % 256] + EncodeFixed(v / 256, n - 1)
  }

  function DecodeFixed(s: Bytes, n: nat): (v: nat)
    requires |s| >= n
    ensures v < Pow256(n)
  {
    if n == 0 then 0 else s[0] as int + 256 * DecodeFixed(s[1..], n - 1)
  }

  lemma {:induction false} FixedRoundTrip(v: nat, n: nat, rest: Bytes)
    requires v < Pow256(n)
    ensures DecodeFixed(EncodeFixed(v, n) + rest, n) == v
  {
    if n > 0 {
      FixedRoundTrip(v / 256, n - 1, rest);
      assert (EncodeFixed(v, n) + rest)[1..] == EncodeFixed(v / 256, n - 1) + rest;
    }
  }

  lemma Widths()
    ensures Pow256(4) == TWO32 && Pow256(8) == TWO64
  {
    assert Pow256(4) == 256 * (256 * (256 * (256 * 1)));
    assert Pow256(8) == 256 * (256 * (256 * (256 * Pow256(4))));
  }

  function EncodeFixed32(v: nat): (r: Bytes)
    requires v < TWO32
    ensures |r| == 4
  {
    EncodeFixed(v, 4)
  }

  function DecodeFixed32(s: Bytes): (v: nat)
    requires |s| >= 4
    ensures v < TWO32
  {
    Widths();
    DecodeFixed(s, 4)
  }

  lemma Fixed32RoundTrip(v: nat, rest: Bytes)
    requires v < TWO32
    ensures DecodeFixed32(EncodeFixed32(v) + rest) == v
  {
    Widths();
    FixedRoundTrip(v, 4, rest);
  }

  function EncodeFixed64(v: nat): (r: Bytes)
    requires v < TWO64
    ensures |r| == 8
  {
    EncodeFixed(v, 8)
  }

  function DecodeFixed64(s: Bytes): (v: nat)
    requires |s| >= 8
    ensures v < TWO64
  {
    Widths();
    DecodeFixed(s, 8)
  }

  lemma Fixed64RoundTrip(v: nat, rest: Bytes)
    requires v < TWO64
    ensures DecodeFixed64(EncodeFixed64(v) + rest) == v
  {
    Widths();
    FixedRoundTrip(v, 8, rest);
  }

  // ---- Variable length ---------------------------------------------------------------

  /** Seven bits a byte, low bits first, top bit set on all but the last. */
  function Varint(v: nat): (r: Bytes)
    ensures |r| >= 1
  {
    if v < 128 then [v] else [v % 128 + 128] + Varint(v / 128)
  }

  /** The unbounded value of a varint of at most `most` bytes, and its length. */
  function RawVarint(s: Bytes, most: nat): (r: Option<(nat, nat)>)
    ensures r.Some? ==> 0 < r.value.1 <= |s| && r.value.1 <= most
    decreases most
  {
    if most == 0 || s == [] then None
    else if s[0] < 128 then Some((s[0], 1))
    else
      match RawVarint(s[1..], most - 1)
      case None => None
      case Some((v, n)) => Some((s[0] - 128 + 128 * v, n + 1))
  }

  function Pow128(k: nat): nat { if k == 0 then 1 else 128 * Pow128(k - 1) }

  lemma DigitFirst(d: Byte, s: Bytes, most: nat)
    requires d >= 128 && most > 0 && RawVarint(s, most - 1).Some?
    ensures var r := RawVarint(s, most - 1).value; RawVarint([d] + s, most) == Some((d - 128 + 128 * r.0, r.1 + 1))
  {
    assert ([d] + s)[1..] == s;
  }

  lemma {:induction false} RawVarintRoundTrip(v: nat, rest: Bytes, most: nat)
    requires most > 0 && v < Pow128(most)
    ensures |Varint(v)| <= most
    ensures RawVarint(Varint(v) + rest, most) == Some((v, |Varint(v)|))
    decreases most
  {
    if v >= 128 {
      assert Pow128(1) == 128;
      assert v / 128 < Pow128(most - 1);
      RawVarintRoundTrip(v / 128, rest, most - 1);
      DigitFirst(v % 128 + 128, Varint(v / 128) + rest, most);
      assert Varint(v) + rest == [v % 128 + 128] + (Varint(v / 128) + rest);
    }
  }

  /** GetVarint32: five bytes at most; higher bits are shifted out of the 32-bit result. */
  function GetVarint32(s: Bytes): (r: Option<(nat, nat)>)
    ensures r.Some? ==> r.value.0 < TWO32 && 0 < r.value.1 <= |s|
  {
    match RawVarint(s, 5)
    case None => None
    case Some((v, n)) => Some((v % TWO32, n))
  }

  function GetVarint64(s: Bytes): (r: Option<(nat, nat)>)
    ensures r.Some? ==> r.value.0 < TWO64 && 0 < r.value.1 <= |s|
  {
    match RawVarint(s, 10)
    case None => None
    case Some((v, n)) => Some((v % TWO64, n))
  }

  /** EncodeVarint32 as written: one branch per length. */
  function EncodeVarint32(v: nat): Bytes
    requires v < TWO32
  {
    if v < 0x80 then [v]
    else if v < 0x4000 then [v % 128 + 128, v / 0x80]
    else if v < 0x20_0000 then [v % 128 + 128, v / 0x80 % 128 + 128, v / 0x4000]
    else if v < 0x1000_0000 then
      [v % 128 + 128, v / 0x80 % 128 + 128, v / 0x4000 % 128 + 128, v / 0x20_0000]
    else
      [v % 128 + 128, v / 0x80 % 128 + 128, v / 0x4000 % 128 + 128, v / 0x20_0000 % 128 + 128, v / 0x1000_0000]
  }

  lemma EncodeVarint32IsVarint(v: nat)
    requires v < TWO32
    ensures EncodeVarint32(v) == Varint(v)
  {
    var v1 := v / 128;
    var v2 := v1 / 128;
    var v3 := v2 / 128;
    var v4 := v3 / 128;
    assert v4 < 128;
    assert v1 >= 128 ==> Varint(v) == [v % 128 + 128] + Varint(v1);
    assert v2 >= 128 ==> Varint(v1) == [v1 % 128 + 128] + Varint(v2);
    assert v3 >= 128 ==> Varint(v2) == [v2 % 128 + 128] + Varint(v3);
    assert v2 == v / 0x4000 && v3 == v / 0x20_0000 && v4 == v / 0x1000_0000;
  }

  /** A decoder undoes the encoder whatever follows, and reports the length consumed. */
  lemma Varint32RoundTrip(v: nat, rest: Bytes)
    requires v < TWO32
    ensures GetVarint32(EncodeVarint32(v) + rest) == Some((v, |EncodeVarint32(v)|))
    ensures |EncodeVarint32(v)| <= 5
  {
    EncodeVarint32IsVarint(v);
    assert Pow128(5) == 128 * (128 * (128 * (128 * 128)));
    RawVarintRoundTrip(v, rest, 5);
  }

  /** EncodeVarint64: the loop that peels seven bits at a time. */
  method EncodeVarint64(v: nat) returns (r: Bytes)
    requires v < TWO64
    ensures r == Varint(v)
  {
    r := [];
    var left := v;
    while left >= 128
      invariant r + Varint(left) == Varint(v)
    {
      r := r + [left % 128 + 128];
      left := left / 128;
    }
    r := r + [left];
  }

  lemma Varint64RoundTrip(v: nat, rest: Bytes)
    requires v < TWO64
    ensures GetVarint64(Varint(v) + rest) == Some((v, |Varint(v)|))
  {
    assert Pow128(10) == 128 * (128 * (128 * (128 * (128 * Pow128(5)))));
    assert Pow128(5) == 128 * (128 * (128 * (128 * 128)));
    RawVarintRoundTrip(v, rest, 10);
  }

  /** VarintLength: the number of bytes Varint takes. */
  method VarintLength(v: nat) returns (len: nat)
    ensures len == |Varint(v)|
  {
    len := 1;
    var left := v;
    while left >= 128
      invariant len + |Varint(left)| == 1 + |Varint(v)|
    {
      left := left / 128;
      len := len + 1;
    }
  }

  function Extend(result: nat, weight: nat, i: nat, r: Option<(nat, nat)>): Option<(nat, nat)> {
    match r
    case None => None
    case Some((v, n)) => Some((result + weight * v, i + n))
  }

  /** One more digit taken into the running result. */
  lemma TakeDigit(s: Bytes, i: nat, result: nat, weight: nat, most: nat)
    requires i < |s| && most > 0
    ensures var digit: nat := s[i] % 128;
            Extend(result, weight, i, RawVarint(s[i..], most)) ==
              if s[i] < 128 then Some((result + digit * weight, i + 1))
              else Extend(result + digit * weight, 128 * weight, i + 1, RawVarint(s[i + 1..], most - 1))
  {
    assert s[i..][1..] == s[i + 1..];
    match RawVarint(s[i + 1..], most - 1)
    case None =>
    case Some((v, n)) => DistributeDigit(weight, s[i] % 128, v);
  }

  lemma DistributeDigit(w: nat, d: nat, v: nat)
    ensures w * (d + 128 * v) == d * w + (128 * w) * v
    ensures w * d == d * w
  {
    assert w * (d + 128 * v) == w * d + w * (128 * v);
    assert w * (128 * v) == (128 * w) * v;
  }

  /** The first i digits are in the result, and the next one weighs `weight`. */
  ghost predicate Pending(s: Bytes, most: nat, i: nat, result: nat, weight: nat) {
    i <= most && i <= |s| && RawVarint(s, most) == Extend(result, weight, i, RawVarint(s[i..], most - i))
  }

  lemma NothingTaken(s: Bytes, most: nat)
    ensures Pending(s, most, 0, 0, 1)
  {
    assert s[0..] == s;
  }

  lemma TakeByte(s: Bytes, most: nat, i: nat, result: nat, weight: nat, taken: nat)
    requires Pending(s, most, i, result, weight) && i < most && i < |s| && taken == result + s[i] % 128 * weight
    ensures if s[i] < 128 then RawVarint(s, most) == Some((taken, i + 1)) else Pending(s, most, i + 1, taken, 128 * weight)
  {
    TakeDigit(s, i, result, weight, most - i);
  }

  lemma RunsOut(s: Bytes, most: nat, i: nat, result: nat, weight: nat)
    requires Pending(s, most, i, result, weight) && (i == most || i == |s|)
    ensures RawVarint(s, most) == None
  {
    assert i == |s| ==> s[i..] == [];
  }

  /** GetVarint32PtrFallback: the loop over shift, which weighs each digit and adds it. */
  method GetVarint32Loop(s: Bytes) returns (r: Option<(nat, nat)>)
    ensures r == GetVarint32(s)
  {
    var result: nat, i: nat, weight: nat := 0, 0, 1;
    NothingTaken(s, 5);
    while i < 5 && i < |s|
      invariant Pending(s, 5, i, result, weight)
    {
      var taken := result + s[i] % 128 * weight;
      TakeByte(s, 5, i, result, weight, taken);
      result, weight, i := taken, 128 * weight, i + 1;
      if s[i - 1] < 128 {
        return Some((result % TWO32, i));
      }
    }
    RunsOut(s, 5, i, result, weight);
    return None;
  }

  // ---- Length-prefixed slices --------------------------------------------------------

  function PutLengthPrefixed(s: Bytes): Bytes
    requires |s| < TWO32
  {
    EncodeVarint32(|s|) + s
  }

  /** The slice and what follows it. */
  function GetLengthPrefixed(s: Bytes): (r: Option<(Bytes, Bytes)>)
    ensures r.Some? ==> |r.value.0| + |r.value.1| < |s|
  {
    match GetVarint32(s)
    case None => None
    case Some((len, n)) => if |s| - n >= len then Some((s[n..n + len], s[n + len..])) else None
  }

  lemma LengthPrefixedRoundTrip(s: Bytes, rest: Bytes)
    requires |s| < TWO32
    ensures GetLengthPrefixed(PutLengthPrefixed(s) + rest) == Some((s, rest))
  {
    var head := EncodeVarint32(|s|);
    assert PutLengthPrefixed(s) + rest == head + (s + rest);
    Varint32RoundTrip(|s|, s + rest);
    var whole := head + (s + rest);
    assert whole[|head|..|head| + |s|] == s;
    assert whole[|head| + |s|..] == rest;
  }

  // ---- Sequences -----------------------------------------------------------------------

  lemma Assoc(a: Bytes, b: Bytes, c: Bytes)
    ensures a + b + c == a + (b + c)
  {
  }

  lemma SliceOfAppend(a: Bytes, b: Bytes, i: nat)
    ensures i + 4 <= |a| ==> (a + b)[i..i + 4] == a[i..i + 4]
    ensures i == |a| && |b| == 4 ==> (a + b)[i..i + 4] == b
  {
  }

  lemma TakeOneMore<T>(s: seq<T>, i: nat)
    requires i < |s|
    ensures s[..i + 1] == s[..i] + [s[i]]
  {
  }
}
