/** Bloom filters (util/bloom.cc): whatever the hash, a key that was put in is never ruled out. */
module Bloom {
  import opened Coding

  // ---- Bits ----------------------------------------------------------------------------

  function Pow2(n: nat): (p: nat)
    ensures p > 0
  {
    if n == 0 then 1 else 2 * Pow2(n - 1)
  }

  /** b & (1 << i) */
  predicate TestBit(b: nat, i: nat) {
    if i == 0 then b % 2 == 1 else TestBit(b / 2, i - 1)
  }

  /** b | (1 << i) */
  function SetBit(b: nat, i: nat): nat {
    if i == 0 then b / 2 * 2 + 1 else 2 * SetBit(b / 2, i - 1) + b % 2
  }

  lemma {:induction false} SetBitStaysNarrow(b: nat, i: nat, n: nat)
    requires i < n && b < Pow2(n)
    ensures SetBit(b, i) < Pow2(n)
  {
    if i > 0 { SetBitStaysNarrow(b / 2, i - 1, n - 1); }
  }

  lemma {:induction false} SetBitSets(b: nat, i: nat, j: nat)
    ensures TestBit(SetBit(b, i), j) <==> i == j || TestBit(b, j)
  {
    if i > 0 && j > 0 { SetBitSets(b / 2, i - 1, j - 1); }
  }

  lemma Pow2Of8()
    ensures Pow2(8) == 256
  {
    assert Pow2(8) == 2 * (2 * (2 * (2 * Pow2(4))));
  }

  // ---- The bit array ---------------------------------------------------------------------

  predicate BitAt(bitmap: Bytes, pos: nat)
    requires pos / 8 < |bitmap|
  {
    TestBit(bitmap[pos / 8], pos % 8)
  }

  /** bitmap[pos / 8] |= 1 << (pos % 8) */
  function WithBit(bitmap: Bytes, pos: nat): (r: Bytes)
    requires pos / 8 < |bitmap|
    ensures |r| == |bitmap|
  {
    Pow2Of8();
    SetBitStaysNarrow(bitmap[pos / 8], pos % 8, 8);
    bitmap[pos / 8 := SetBit(bitmap[pos / 8], pos % 8)]
  }

  lemma WithBitSets(bitmap: Bytes, pos: nat, other: nat)
    requires pos / 8 < |bitmap| && other / 8 < |bitmap|
    ensures BitAt(WithBit(bitmap, pos), other) <==> other == pos || BitAt(bitmap, other)
  {
    SetBitSets(bitmap[pos / 8], pos % 8, other % 8);
    assert pos == 8 * (pos / 8) + pos % 8 && other == 8 * (other / 8) + other % 8;
  }

  // ---- Probing -----------------------------------------------------------------------------

  /** BloomHash: any 32-bit hash. */
  type Hash = Bytes -> nat

  /** h % bits, with 8 bits a byte. */
  function Pos(h: nat, bytes: nat): (p: nat)
    requires bytes > 0
    ensures p / 8 < bytes
  {
    h % (8 * bytes)
  }

  function Step(h: nat, delta: nat): nat { (h + delta) % TWO32 }

  /** Rotate right 17 bits. */
  function Delta(h: nat): nat { h / 0x2_0000 + h % 0x2_0000 * 0x8000 }

  /** The k probes of a key, in an array of 8 * |bitmap| bits. */
  predicate AllSet(bitmap: Bytes, h: nat, delta: nat, k: nat)
    requires |bitmap| > 0
    decreases k
  {
    k == 0 || (BitAt(bitmap, Pos(h, |bitmap|)) && AllSet(bitmap, Step(h, delta), delta, k - 1))
  }

  function HashOf(hash: Hash, key: Bytes): nat { hash(key) % TWO32 }

  /** One of the k positions probed. */
  predicate IsProbe(bytes: nat, h: nat, delta: nat, k: nat, pos: nat)
    requires bytes > 0
    decreases k
  {
    k > 0 && (pos == Pos(h, bytes) || IsProbe(bytes, Step(h, delta), delta, k - 1, pos))
  }

  lemma {:induction false} ProbeIsSet(bitmap: Bytes, h: nat, delta: nat, k: nat, pos: nat)
    requires |bitmap| > 0 && IsProbe(|bitmap|, h, delta, k, pos)
    ensures pos / 8 < |bitmap| && (AllSet(bitmap, h, delta, k) ==> BitAt(bitmap, pos))
    decreases k
  {
    if pos != Pos(h, |bitmap|) { ProbeIsSet(bitmap, Step(h, delta), delta, k - 1, pos); }
  }

  lemma {:induction false} MissingProbe(bitmap: Bytes, h: nat, delta: nat, k: nat) returns (pos: nat)
    requires |bitmap| > 0 && !AllSet(bitmap, h, delta, k)
    ensures IsProbe(|bitmap|, h, delta, k, pos) && pos / 8 < |bitmap| && !BitAt(bitmap, pos)
    decreases k
  {
    if BitAt(bitmap, Pos(h, |bitmap|)) {
      pos := MissingProbe(bitmap, Step(h, delta), delta, k - 1);
    } else {
      pos := Pos(h, |bitmap|);
    }
  }

  // ---- Filling -----------------------------------------------------------------------------

  function SetProbes(bitmap: Bytes, h: nat, delta: nat, k: nat): (r: Bytes)
    requires |bitmap| > 0
    ensures |r| == |bitmap|
    decreases k
  {
    if k == 0 then bitmap else SetProbes(WithBit(bitmap, Pos(h, |bitmap|)), Step(h, delta), delta, k - 1)
  }

  lemma {:induction false} SetProbesSets(bitmap: Bytes, h: nat, delta: nat, k: nat, pos: nat)
    requires |bitmap| > 0 && pos / 8 < |bitmap|
    ensures BitAt(SetProbes(bitmap, h, delta, k), pos) <==> BitAt(bitmap, pos) || IsProbe(|bitmap|, h, delta, k, pos)
    decreases k
  {
    if k > 0 {
      WithBitSets(bitmap, Pos(h, |bitmap|), pos);
      SetProbesSets(WithBit(bitmap, Pos(h, |bitmap|)), Step(h, delta), delta, k - 1, pos);
    }
  }

  /** The bit array after the first n keys. */
  function Filled(hash: Hash, k: nat, keys: seq<Bytes>, n: nat, bytes: nat): (r: Bytes)
    requires n <= |keys| && bytes > 0
    ensures |r| == bytes
  {
    if n == 0 then seq(bytes, _ => 0)
    else
      var h := HashOf(hash, keys[n - 1]);
      SetProbes(Filled(hash, k, keys, n - 1, bytes), h, Delta(h), k)
  }

  predicate ProbedBy(hash: Hash, k: nat, bytes: nat, key: Bytes, pos: nat)
    requires bytes > 0
  {
    IsProbe(bytes, HashOf(hash, key), Delta(HashOf(hash, key)), k, pos)
  }

  /** A bit is set exactly when some key probes it. */
  lemma {:induction false} FilledExactly(hash: Hash, k: nat, keys: seq<Bytes>, n: nat, bytes: nat, pos: nat)
    requires n <= |keys| && bytes > 0 && pos / 8 < bytes
    ensures BitAt(Filled(hash, k, keys, n, bytes), pos) <==> exists i :: 0 <= i < n && ProbedBy(hash, k, bytes, keys[i], pos)
  {
    if n == 0 {
      ZeroHasNoBits(pos % 8);
    } else {
      FilledExactly(hash, k, keys, n - 1, bytes, pos);
      var h := HashOf(hash, keys[n - 1]);
      SetProbesSets(Filled(hash, k, keys, n - 1, bytes), h, Delta(h), k, pos);
      assert ProbedBy(hash, k, bytes, keys[n - 1], pos) <==> IsProbe(bytes, h, Delta(h), k, pos);
    }
  }

  lemma {:induction false} ZeroHasNoBits(i: nat)
    ensures !TestBit(0, i)
  {
    if i > 0 { ZeroHasNoBits(i - 1); }
  }

  // ---- The policy ----------------------------------------------------------------------------

  /** Filter size in bytes: at least eight. */
  function FilterSize(n: nat, bitsPerKey: nat): (bytes: nat)
    ensures bytes >= 8
  {
    var bits := if n * bitsPerKey < 64 then 64 else n * bitsPerKey;
    (bits + 7) / 8
  }

  function FilterOf(hash: Hash, bitsPerKey: nat, k: Byte, keys: seq<Bytes>): Bytes {
    Filled(hash, k, keys, |keys|, FilterSize(|keys|, bitsPerKey)) + [k]
  }

  /** BloomFilterPolicy::CreateFilter. */
  method CreateFilter(hash: Hash, bitsPerKey: nat, k: Byte, keys: seq<Bytes>) returns (filter: Bytes)
    ensures filter == FilterOf(hash, bitsPerKey, k, keys)
  {
    var bytes := FilterSize(|keys|, bitsPerKey);
    var bitmap: Bytes := seq(bytes, _ => 0);
    var i := 0;
    while i < |keys|
      invariant i <= |keys| && bitmap == Filled(hash, k, keys, i, bytes)
    {
      bitmap := AddKey(bitmap, hash, k, keys[i]);
      i := i + 1;
    }
    filter := bitmap + [k];
  }

  /** The inner loop of CreateFilter: set the k bits of one key. */
  method AddKey(bitmap: Bytes, hash: Hash, k: nat, key: Bytes) returns (r: Bytes)
    requires |bitmap| > 0
    ensures r == SetProbes(bitmap, HashOf(hash, key), Delta(HashOf(hash, key)), k)
  {
    r := bitmap;
    var h: nat := HashOf(hash, key);
    var delta: nat, j := Delta(h), 0;
    while j < k
      invariant j <= k && |r| == |bitmap|
      invariant SetProbes(r, h, delta, k - j) == SetProbes(bitmap, HashOf(hash, key), delta, k)
    {
      r := WithBit(r, Pos(h, |r|));
      h := Step(h, delta);
      j := j + 1;
    }
  }

  /** BloomFilterPolicy::KeyMayMatch on any filter, also one made with another k. */
  predicate KeyMayMatch(hash: Hash, key: Bytes, filter: Bytes) {
    if |filter| < 2 then false
    else
      var k := filter[|filter| - 1];
      k as int > 30 || AllSet(filter[..|filter| - 1], HashOf(hash, key), Delta(HashOf(hash, key)), k)
  }

  /** Some key that went in probes this bit. */
  ghost predicate Accounted(hash: Hash, k: nat, bytes: nat, keys: seq<Bytes>, pos: nat)
    requires bytes > 0
  {
    exists i :: 0 <= i < |keys| && ProbedBy(hash, k, bytes, keys[i], pos)
  }

  /** The exact answer of a filter: every probe of the key was also a probe of some key put in. */
  lemma MatchesIff(hash: Hash, bitsPerKey: nat, k: Byte, keys: seq<Bytes>, key: Bytes)
    requires 1 <= k <= 30
    ensures var bytes := FilterSize(|keys|, bitsPerKey);
            KeyMayMatch(hash, key, FilterOf(hash, bitsPerKey, k, keys)) <==>
            forall pos: nat {:trigger ProbedBy(hash, k, bytes, key, pos)} ::
              ProbedBy(hash, k, bytes, key, pos) ==> Accounted(hash, k, bytes, keys, pos)
  {
    var bytes := FilterSize(|keys|, bitsPerKey);
    var bitmap := Filled(hash, k, keys, |keys|, bytes);
    var h := HashOf(hash, key);
    MatchIsAllSet(hash, bitsPerKey, k, keys, key);
    forall pos: nat | ProbedBy(hash, k, bytes, key, pos) && AllSet(bitmap, h, Delta(h), k)
      ensures Accounted(hash, k, bytes, keys, pos)
    {
      ProbeIsSet(bitmap, h, Delta(h), k, pos);
      FilledExactly(hash, k, keys, |keys|, bytes, pos);
    }
    if !AllSet(bitmap, h, Delta(h), k) {
      var pos := MissingProbe(bitmap, h, Delta(h), k);
      FilledExactly(hash, k, keys, |keys|, bytes, pos);
      assert ProbedBy(hash, k, bytes, key, pos) && !Accounted(hash, k, bytes, keys, pos);
    }
  }

  lemma MatchIsAllSet(hash: Hash, bitsPerKey: nat, k: Byte, keys: seq<Bytes>, key: Bytes)
    requires 1 <= k <= 30
    ensures var bitmap := Filled(hash, k, keys, |keys|, FilterSize(|keys|, bitsPerKey));
            KeyMayMatch(hash, key, FilterOf(hash, bitsPerKey, k, keys)) <==>
              AllSet(bitmap, HashOf(hash, key), Delta(HashOf(hash, key)), k)
  {
    var filter := FilterOf(hash, bitsPerKey, k, keys);
    assert filter[..|filter| - 1] == Filled(hash, k, keys, |keys|, FilterSize(|keys|, bitsPerKey));
  }

  /** No key that went in is ruled out, for every hash, every number of bits per key and every
      k from 1 to 30. */
  lemma NoFalseNegatives(hash: Hash, bitsPerKey: nat, k: Byte, keys: seq<Bytes>, i: nat)
    requires 1 <= k <= 30 && i < |keys|
    ensures KeyMayMatch(hash, keys[i], FilterOf(hash, bitsPerKey, k, keys))
  {
    MatchesIff(hash, bitsPerKey, k, keys, keys[i]);
  }
}
