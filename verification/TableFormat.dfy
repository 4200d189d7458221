/** Block handles, block trailers and the footer of a table file (table/format.cc). */
module TableFormat {
  import opened Coding
  import opened LogFormat

  // ---- Block handles -------------------------------------------------------------------

  datatype Handle = Handle(offset: nat, size: nat)

  predicate Encodable(h: Handle) { h.offset < TWO64 && h.size < TWO64 }

  function EncodeHandle(h: Handle): Bytes { Varint(h.offset) + Varint(h.size) }

  /** The handle and what follows it. */
  function DecodeHandle(s: Bytes): Option<(Handle, Bytes)> {
    match GetVarint64(s)
    case None => None
    case Some((offset, n)) =>
      match GetVarint64(s[n..])
      case None => None
      case Some((size, m)) => Some((Handle(offset, size), s[n..][m..]))
  }

  lemma Varint64Length(v: nat)
    requires v < TWO64
    ensures |Varint(v)| <= 10
  {
    assert Pow128(10) == 128 * (128 * (128 * (128 * (128 * Pow128(5)))));
    assert Pow128(5) == 128 * (128 * (128 * (128 * 128)));
    RawVarintRoundTrip(v, [], 10);
  }

  lemma HandleLength(h: Handle)
    requires Encodable(h)
    ensures |EncodeHandle(h)| <= 20
  {
    Varint64Length(h.offset);
    Varint64Length(h.size);
  }

  lemma TwoParts(a: Bytes, b: Bytes, rest: Bytes)
    ensures a + b + rest == a + (b + rest) && (a + (b + rest))[|a|..] == b + rest && (b + rest)[|b|..] == rest
  {
  }

  lemma HandleRoundTrip(h: Handle, rest: Bytes)
    requires Encodable(h)
    ensures DecodeHandle(EncodeHandle(h) + rest) == Some((h, rest))
  {
    var a, b := Varint(h.offset), Varint(h.size);
    TwoParts(a, b, rest);
    Varint64RoundTrip(h.offset, b + rest);
    Varint64RoundTrip(h.size, rest);
  }

  // ---- The footer ------------------------------------------------------------------------

  const FOOTER: nat := 48
  const MAGIC: nat := 0xdb4775248b80fb57

  datatype Footer = Footer(metaindex: Handle, index: Handle)

  function Padding(n: nat): (r: Bytes)
    ensures |r| == n
  {
    seq(n, _ => 0)
  }

  /** Two handles, padded to their largest size, and the magic number. */
  function EncodeFooter(f: Footer): (r: Bytes)
    requires Encodable(f.metaindex) && Encodable(f.index)
    ensures |r| == FOOTER
  {
    HandleLength(f.metaindex);
    HandleLength(f.index);
    var handles := EncodeHandle(f.metaindex) + EncodeHandle(f.index);
    handles + Padding(40 - |handles|) + EncodeFixed64(MAGIC)
  }

  function DecodeFooter(s: Bytes): Option<Footer>
    requires |s| == FOOTER
  {
    if DecodeFixed64(s[40..]) != MAGIC then None else DecodeTwo(DecodeHandle, s)
  }

  function DecodeTwo(get: Bytes -> Option<(Handle, Bytes)>, s: Bytes): Option<Footer> {
    match get(s)
    case None => None
    case Some((metaindex, rest)) =>
      match get(rest)
      case None => None
      case Some((index, _)) => Some(Footer(metaindex, index))
  }

  lemma DecodedTwo(get: Bytes -> Option<(Handle, Bytes)>, a: Bytes, b: Bytes, pad: Bytes, magic: Bytes, f: Footer)
    requires get(a + (b + (pad + magic))) == Some((f.metaindex, b + (pad + magic)))
    requires get(b + (pad + magic)) == Some((f.index, pad + magic))
    requires |a + b + pad| == 40 && |magic| == 8 && DecodeFixed64(magic + []) == MAGIC
    ensures var s := a + b + pad + magic; DecodeTwo(get, s) == Some(f) && DecodeFixed64(s[40..]) == MAGIC
  {
    FooterParts(a, b, pad, magic);
  }

  lemma FooterRoundTrip(f: Footer)
    requires Encodable(f.metaindex) && Encodable(f.index)
    ensures DecodeFooter(EncodeFooter(f)) == Some(f)
  {
    HandleLength(f.metaindex);
    HandleLength(f.index);
    var a, b := EncodeHandle(f.metaindex), EncodeHandle(f.index);
    var pad, magic := Padding(40 - |a + b|), EncodeFixed64(MAGIC);
    HandleRoundTrip(f.metaindex, b + (pad + magic));
    HandleRoundTrip(f.index, pad + magic);
    Fixed64RoundTrip(MAGIC, []);
    DecodedTwo(DecodeHandle, a, b, pad, magic, f);
    var s := a + b + pad + magic;
    assert EncodeFooter(f) == s;
    assert DecodeTwo(DecodeHandle, s) == Some(f);
    assert DecodeFooter(s) == Some(f);
  }

  lemma FooterParts(a: Bytes, b: Bytes, pad: Bytes, magic: Bytes)
    requires |a + b + pad| == 40 && |magic| == 8
    ensures a + b + pad + magic == a + (b + (pad + magic)) && (a + b + pad + magic)[40..] == magic + []
  {
  }

  // ---- Blocks in the file ------------------------------------------------------------------

  const TRAILER: nat := 5

  /** Any checksum of the contents and the type byte. */
  type BlockChecksum = Bytes -> nat

  function RawBlock(crc: BlockChecksum, contents: Bytes): (r: Bytes)
    ensures |r| == |contents| + TRAILER
  {
    contents + [0] + EncodeFixed32(Mask(crc(contents + [0]) % TWO32))
  }

  /** ReadBlock without compression: None for a truncated read, a bad checksum or an unknown
      block type. */
  function ReadBlock(crc: BlockChecksum, file: Bytes, verify: bool, h: Handle): Option<Bytes> {
    var n := h.size;
    if h.offset + n + TRAILER > |file| then None
    else
      var s := file[h.offset..h.offset + n + TRAILER];
      if verify && Unmask(DecodeFixed32(s[n + 1..])) != crc(s[..n + 1]) % TWO32 then None
      else if s[n] != 0 then None
      else Some(s[..n])
  }

  /** The file has this block at this handle. */
  ghost predicate Holds(crc: BlockChecksum, file: Bytes, h: Handle, contents: Bytes) {
    h.size == |contents| && h.offset + |contents| + TRAILER <= |file|
    && file[h.offset..h.offset + |contents| + TRAILER] == RawBlock(crc, contents)
  }

  lemma RawBlockParts(contents: Bytes, crc: Bytes)
    requires |crc| == 4
    ensures var s := contents + [0] + crc;
            s[..|contents|] == contents && s[|contents|] == 0 && s[|contents| + 1..] == crc + []
            && s[..|contents| + 1] == contents + [0]
  {
  }

  lemma ReadsBack(crc: BlockChecksum, file: Bytes, verify: bool, h: Handle, contents: Bytes)
    requires Holds(crc, file, h, contents)
    ensures ReadBlock(crc, file, verify, h) == Some(contents)
  {
    var sum := crc(contents + [0]) % TWO32;
    RawBlockParts(contents, EncodeFixed32(Mask(sum)));
    Fixed32RoundTrip(Mask(sum), []);
    UnmaskMask(sum);
  }

  /** Writing more does not disturb what is there. */
  lemma HoldsStays(crc: BlockChecksum, file: Bytes, more: Bytes, h: Handle, contents: Bytes)
    requires Holds(crc, file, h, contents)
    ensures Holds(crc, file + more, h, contents)
  {
    assert (file + more)[h.offset..h.offset + |contents| + TRAILER] == file[h.offset..h.offset + |contents| + TRAILER];
  }

  lemma HoldsAtEnd(crc: BlockChecksum, file: Bytes, contents: Bytes)
    ensures Holds(crc, file + RawBlock(crc, contents), Handle(|file|, |contents|), contents)
  {
  }
}
