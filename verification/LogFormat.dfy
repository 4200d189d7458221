/** The layout of a log file (db/log_format.h): records cut into fragments that never cross
    a 32 KiB block. This is the reference the writer and the reader are proved against. */
module LogFormat {
  import opened Coding

  const BLOCK: nat := 32768
  const HEADER: nat := 7

  datatype FragmentType = FullType | FirstType | MiddleType | LastType

  function TypeByte(t: FragmentType): Byte {
    match t case FullType => 1 case FirstType => 2 case MiddleType => 3 case LastType => 4
  }

  datatype Fragment = Fragment(kind: FragmentType, payload: Bytes)

  /** Any checksum of a type byte and a payload. */
  type Checksum = (Byte, Bytes) -> nat

  const MASK_DELTA: nat := 0xa282ead8

  /** crc32c::Mask: rotate right by 15 bits and add a constant, in 32 bits. */
  function Mask(c: nat): (m: nat)
    requires c < TWO32
    ensures m < TWO32
  {
    (c / 0x8000 + c % 0x8000 * 0x2_0000 + MASK_DELTA) % TWO32
  }

  function Unmask(m: nat): (c: nat)
    requires m < TWO32
    ensures c < TWO32
  {
    var rot := (m + TWO32 - MASK_DELTA) % TWO32;
    rot / 0x2_0000 + rot % 0x2_0000 * 0x8000
  }

  lemma UnmaskMask(c: nat)
    requires c < TWO32
    ensures Unmask(Mask(c)) == c
  {
    var hi, lo := c / 0x8000, c % 0x8000;
    var rot := hi + lo * 0x2_0000;
    assert rot < TWO32;
    assert (Mask(c) + TWO32 - MASK_DELTA) % TWO32 == rot;
  }

  function Stored(crc: Checksum, t: Byte, payload: Bytes): (m: nat)
    ensures m < TWO32
  {
    Mask(crc(t, payload) % TWO32)
  }

  /** A physical record: checksum, length, type, payload. */
  function Physical(crc: Checksum, f: Fragment): (r: Bytes)
    requires |f.payload| <= 0xffff
    ensures |r| == HEADER + |f.payload|
  {
    EncodeFixed32(Stored(crc, TypeByte(f.kind), f.payload))
    + [|f.payload| % 256, |f.payload| / 256, TypeByte(f.kind)] + f.payload
  }

  /** Bytes of padding before the fragment written at file position n. */
  function Pad(n: nat): (p: nat)
    ensures p < HEADER && (n + p) % BLOCK <= BLOCK - HEADER
    ensures p > 0 ==> (n + p) % BLOCK == 0
  {
    var left := BLOCK - n % BLOCK;
    if left < HEADER then left else 0
  }

  /** Payload bytes that fit in the block after the header. */
  function Room(n: nat): nat { BLOCK - (n + Pad(n)) % BLOCK - HEADER }

  function Placed(crc: Checksum, n: nat, f: Fragment): (r: Bytes)
    requires |f.payload| <= Room(n)
    ensures |r| == Pad(n) + HEADER + |f.payload|
  {
    seq(Pad(n), _ => 0) + Physical(crc, f)
  }

  ghost predicate Fits(n: nat, fs: seq<Fragment>)
    decreases |fs|
  {
    fs == [] || (|fs[0].payload| <= Room(n) && Fits(n + Pad(n) + HEADER + |fs[0].payload|, fs[1..]))
  }

  /** The bytes of fragments written from position n on. */
  function Layout(crc: Checksum, n: nat, fs: seq<Fragment>): Bytes
    requires Fits(n, fs)
    decreases |fs|
  {
    if fs == [] then [] else Placed(crc, n, fs[0]) + Layout(crc, n + Pad(n) + HEADER + |fs[0].payload|, fs[1..])
  }

  function KindOf(begin: bool, end: bool): FragmentType {
    if begin && end then FullType else if begin then FirstType else if end then LastType else MiddleType
  }

  /** How a record written at position n is cut. */
  function FragmentsOf(n: nat, begin: bool, data: Bytes): (fs: seq<Fragment>)
    ensures fs != [] && Fits(n, fs)
    decreases |data|, if Room(n) == 0 then 1 else 0
  {
    var length := if |data| < Room(n) then |data| else Room(n);
    var end := length == |data|;
    [Fragment(KindOf(begin, end), data[..length])]
    + if end then [] else FragmentsOf(n + Pad(n) + HEADER + length, false, data[length..])
  }

  function RecordBytes(crc: Checksum, n: nat, data: Bytes): Bytes {
    Layout(crc, n, FragmentsOf(n, true, data))
  }

  /** The file holding these records, written from empty. */
  function LogOf(crc: Checksum, records: seq<Bytes>): Bytes {
    if records == [] then [] else
      var before := LogOf(crc, records[..|records| - 1]);
      before + RecordBytes(crc, |before|, records[|records| - 1])
  }

  lemma {:induction false} LogOfPrefix(crc: Checksum, records: seq<Bytes>, k: nat)
    requires k <= |records|
    ensures LogOf(crc, records[..k]) <= LogOf(crc, records)
    decreases |records|
  {
    if k < |records| {
      var init := records[..|records| - 1];
      assert init[..k] == records[..k];
      LogOfPrefix(crc, init, k);
    } else {
      assert records[..k] == records;
    }
  }
}
