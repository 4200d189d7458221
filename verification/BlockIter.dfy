/** Reading a block (table/block.cc): an iterator over the bytes that BlockBuilder wrote is a
    cursor over the pairs that were added. */
module BlockReading {
  import opened Coding
  import opened Blocks

  /** The comparator, as the rank it gives each key. */
  type Order = Bytes -> real

  ghost predicate Ascending(order: Order, pairs: seq<Pair>) {
    forall i, j :: 0 <= i < j < |pairs| ==> order(pairs[i].key) < order(pairs[j].key)
  }

  /** The position of the first pair at or after the target. */
  ghost predicate IsLowerBound(order: Order, pairs: seq<Pair>, target: Bytes, i: nat) {
    i <= |pairs| && (forall j :: 0 <= j < i ==> order(pairs[j].key) < order(target))
    && (forall j :: i <= j < |pairs| ==> order(target) <= order(pairs[j].key))
  }

  // ---- Decoding one entry ------------------------------------------------------------

  /** The three lengths, and the number of bytes they take. */
  datatype Header = Header(shared: nat, nonShared: nat, valueLength: nat, size: nat)

  function DecodeThree(get: Bytes -> Option<(nat, nat)>, s: Bytes): Option<Header>
    requires forall t :: get(t).Some? ==> get(t).value.1 <= |t|
  {
    match get(s)
    case None => None
    case Some((shared, a)) =>
      match get(s[a..])
      case None => None
      case Some((nonShared, b)) =>
        match get(s[a..][b..])
        case None => None
        case Some((valueLength, c)) => Some(Header(shared, nonShared, valueLength, a + b + c))
  }

  function DecodeLengths(s: Bytes): (r: Option<Header>)
    ensures r.Some? ==> r.value.size <= |s|
  {
    DecodeThree(GetVarint32, s)
  }

  /** DecodeEntry: a fast path when all three lengths take one byte. */
  function DecodeEntry(s: Bytes): (r: Option<Header>)
    ensures r.Some? ==> r.value.size + r.value.nonShared + r.value.valueLength <= |s|
  {
    if |s| < 3 then None
    else
      var h := if s[0] < 128 && s[1] < 128 && s[2] < 128 then Some(Header(s[0], s[1], s[2], 3)) else DecodeLengths(s);
      if h.None? || |s| - h.value.size < h.value.nonShared + h.value.valueLength then None else h
  }

  lemma OneByteVarint(v: nat, rest: Bytes)
    requires v < TWO32
    ensures (Varint(v) + rest)[0] < 128 <==> v < 128
    ensures v < 128 ==> Varint(v) == [v] && |Varint(v)| == 1
    ensures GetVarint32(Varint(v) + rest) == Some((v, |Varint(v)|))
  {
    EncodeVarint32IsVarint(v);
    Varint32RoundTrip(v, rest);
  }

  lemma ThreeParts(a: Bytes, b: Bytes, c: Bytes, rest: Bytes)
    ensures a + (b + c) + rest == a + (b + (c + rest))
    ensures (a + (b + c) + rest)[|a|..] == b + (c + rest)
    ensures (b + (c + rest))[|b|..] == c + rest
    ensures |a + (b + c)| == |a| + |b| + |c|
  {
  }

  lemma DecodedThree(get: Bytes -> Option<(nat, nat)>, s: Bytes, s1: Bytes, s2: Bytes, a: (nat, nat), b: (nat, nat), c: (nat, nat))
    requires forall t :: get(t).Some? ==> get(t).value.1 <= |t|
    requires get(s) == Some(a) && s1 == s[a.1..] && get(s1) == Some(b)
    requires s2 == s1[b.1..] && get(s2) == Some(c)
    ensures DecodeThree(get, s) == Some(Header(a.0, b.0, c.0, a.1 + b.1 + c.1))
  {
  }

  /** With three one-byte lengths the fast path reads the same. */
  lemma FirstThree(va: Bytes, vb: Bytes, vc: Bytes, a: nat, b: nat, c: nat, rest: Bytes)
    requires |va| >= 1 && |vb| >= 1 && |vc| >= 1
    requires (va + (vb + (vc + rest)))[0] < 128 ==> va == [a]
    requires (vb + (vc + rest))[0] < 128 ==> vb == [b]
    requires (vc + rest)[0] < 128 ==> vc == [c]
    ensures var s := va + (vb + vc) + rest;
            s[0] < 128 && s[1] < 128 && s[2] < 128 ==> Header(s[0], s[1], s[2], 3) == Header(a, b, c, |va + (vb + vc)|)
  {
    var s := va + (vb + vc) + rest;
    assert s[0] == va[0];
    if s[0] < 128 {
      assert s[1] == vb[0];
      if s[1] < 128 {
        assert s[2] == vc[0];
      }
    }
  }

  lemma BothPaths(get: Bytes -> Option<(nat, nat)>, va: Bytes, vb: Bytes, vc: Bytes, a: nat, b: nat, c: nat, rest: Bytes)
    requires forall t :: get(t).Some? ==> get(t).value.1 <= |t|
    requires |va| >= 1 && |vb| >= 1 && |vc| >= 1
    requires get(va + (vb + (vc + rest))) == Some((a, |va|)) && get(vb + (vc + rest)) == Some((b, |vb|))
    requires get(vc + rest) == Some((c, |vc|))
    requires (va + (vb + (vc + rest)))[0] < 128 ==> va == [a]
    requires (vb + (vc + rest))[0] < 128 ==> vb == [b]
    requires (vc + rest)[0] < 128 ==> vc == [c]
    ensures var s := va + (vb + vc) + rest;
            DecodeThree(get, s) == Some(Header(a, b, c, |va + (vb + vc)|))
            && (s[0] < 128 && s[1] < 128 && s[2] < 128 ==> Header(s[0], s[1], s[2], 3) == Header(a, b, c, |va + (vb + vc)|))
  {
    ThreeParts(va, vb, vc, rest);
    DecodedThree(get, va + (vb + vc) + rest, vb + (vc + rest), vc + rest, (a, |va|), (b, |vb|), (c, |vc|));
    FirstThree(va, vb, vc, a, b, c, rest);
  }

  /** Both paths read back the lengths. */
  lemma LengthsRoundTrip(a: nat, b: nat, c: nat, rest: Bytes)
    requires a < TWO32 && b < TWO32 && c < TWO32
    ensures var s := Lengths(a, b, c) + rest;
            DecodeLengths(s) == Some(Header(a, b, c, |Lengths(a, b, c)|))
            && (s[0] < 128 && s[1] < 128 && s[2] < 128 ==> Header(s[0], s[1], s[2], 3) == Header(a, b, c, |Lengths(a, b, c)|))
  {
    var va, vb, vc := Varint(a), Varint(b), Varint(c);
    OneByteVarint(a, vb + (vc + rest));
    OneByteVarint(b, vc + rest);
    OneByteVarint(c, rest);
    BothPaths(GetVarint32, va, vb, vc, a, b, c, rest);
  }

  /** An entry with these parts stands at offset `at` and ends at `next`. */
  ghost predicate Parses(data: Bytes, at: nat, shared: nat, key: Bytes, value: Bytes, next: nat)
    requires shared <= |key|
  {
    at < next <= |data| && DecodeEntry(data[at..]).Some?
    && var h := DecodeEntry(data[at..]).value;
       var k := at + h.size;
       var v := k + |key| - shared;
       h.shared == shared && h.nonShared == |key| - shared && h.valueLength == |value|
       && v + |value| == next && data[k..v] == key[shared..] && data[v..next] == value
  }

  lemma EntryParts(head: Bytes, k: Bytes, v: Bytes, rest: Bytes)
    ensures var s := head + (k + v) + rest;
            s == head + (k + v + rest) && s[|head|..|head| + |k|] == k && s[|head| + |k|..|head| + |k| + |v|] == v
  {
  }

  /** Decoding undoes encoding, whatever follows. */
  lemma DecodeEntryOfEntry(shared: nat, key: Bytes, value: Bytes, rest: Bytes)
    requires shared <= |key| < TWO32 && |value| < TWO32
    ensures Parses(EntryBytes(shared, key, value) + rest, 0, shared, key, value, |EntryBytes(shared, key, value)|)
  {
    LengthsRoundTrip(shared, |key| - shared, |value|, key[shared..] + value + rest);
    ParsesHere(Lengths(shared, |key| - shared, |value|), shared, key, value, rest);
  }

  lemma ParsesHere(head: Bytes, shared: nat, key: Bytes, value: Bytes, rest: Bytes)
    requires shared <= |key| && 3 <= |head|
    requires var s := head + (key[shared..] + value + rest);
             DecodeLengths(s) == Some(Header(shared, |key| - shared, |value|, |head|))
             && (s[0] < 128 && s[1] < 128 && s[2] < 128 ==>
                   Header(s[0], s[1], s[2], 3) == Header(shared, |key| - shared, |value|, |head|))
    ensures var entry := head + (key[shared..] + value);
            Parses(entry + rest, 0, shared, key, value, |entry|)
  {
    var s := head + (key[shared..] + value) + rest;
    EntryParts(head, key[shared..], value, rest);
    assert s[0..] == s;
  }

  lemma ParsesFurtherOn(data: Bytes, at: nat, entry: Bytes, rest: Bytes, shared: nat, key: Bytes, value: Bytes)
    requires shared <= |key| && at <= |data| && data[at..] == entry + rest && Parses(entry + rest, 0, shared, key, value, |entry|)
    ensures Parses(data, at, shared, key, value, at + |entry|)
  {
    var here := data[at..];
    assert here[0..] == here;
    var size := DecodeEntry(here).value.size;
    Shift(data, at, size, size + |key| - shared);
    Shift(data, at, size + |key| - shared, |entry|);
  }

  lemma Shift(data: Bytes, at: nat, i: nat, j: nat)
    requires i <= j && at + j <= |data|
    ensures data[at..][i..j] == data[at + i..at + j]
  {
  }

  /** What the reader finds at the offset of entry i. */
  lemma EntryReads(pairs: seq<Pair>, starts: seq<nat>, i: nat)
    requires i < |pairs| && SmallPairs(pairs)
    ensures Parses(DataUpTo(pairs, starts, |pairs|), Off(pairs, starts, i), Shared(pairs, starts, i),
                   pairs[i].key, pairs[i].value, Off(pairs, starts, i + 1))
  {
    EntryStands(pairs, starts, i);
    EntryAdvances(pairs, starts, i);
    var data, at, shared := DataUpTo(pairs, starts, |pairs|), Off(pairs, starts, i), Shared(pairs, starts, i);
    var rest := data[Off(pairs, starts, i + 1)..];
    DecodeEntryOfEntry(shared, pairs[i].key, pairs[i].value, rest);
    ParsesFurtherOn(data, at, EntryBytes(shared, pairs[i].key, pairs[i].value), rest, shared, pairs[i].key, pairs[i].value);
  }

  lemma EntryAdvances(pairs: seq<Pair>, starts: seq<nat>, i: nat)
    requires i < |pairs| && SmallPairs(pairs)
    ensures Off(pairs, starts, i + 1) == Off(pairs, starts, i) + |EntryBytes(Shared(pairs, starts, i), pairs[i].key, pairs[i].value)|
  {
  }

  lemma SliceOfPrefix(data: Bytes, n: nat, i: nat, j: nat)
    requires i <= j <= n <= |data|
    ensures data[..n][i..j] == data[i..j]
  {
  }

  // ---- A block as the reader sees it -----------------------------------------------------

  /** The pairs in a block, how many key bytes each shares with the one before, where each
      entry begins, and which entries are restart points. */
  datatype Plan = Plan(pairs: seq<Pair>, shared: seq<nat>, offs: seq<nat>, starts: seq<nat>)

  ghost predicate WellFormed(p: Plan) {
    && |p.shared| == |p.pairs| && |p.offs| == |p.pairs| + 1 && p.offs[0] == 0
    && (forall i, j :: 0 <= i < j < |p.offs| ==> p.offs[i] < p.offs[j])
    && StartsOk(p.starts, |p.pairs|)
  }

  ghost predicate EntryOk(entries: Bytes, p: Plan, i: nat)
    requires WellFormed(p) && i < |p.pairs|
  {
    && p.shared[i] <= |p.pairs[i].key|
    && Parses(entries, p.offs[i], p.shared[i], p.pairs[i].key, p.pairs[i].value, p.offs[i + 1])
    && (i in p.starts ==> p.shared[i] == 0)
    && (i > 0 ==> p.shared[i] <= |p.pairs[i - 1].key|
                  && p.pairs[i - 1].key[..p.shared[i]] == p.pairs[i].key[..p.shared[i]])
  }

  ghost predicate RestartOk(data: Bytes, p: Plan, j: nat)
    requires WellFormed(p) && j < |p.starts|
  {
    var at := p.offs[|p.pairs|] + 4 * j;
    at + 4 <= |data| && DecodeFixed32(data[at..at + 4]) == p.offs[p.starts[j]]
  }

  ghost predicate LaidOut(data: Bytes, p: Plan) {
    && WellFormed(p) && |data| == p.offs[|p.pairs|] + 4 * |p.starts| + 4
    && DecodeFixed32(data[|data| - 4..]) == |p.starts|
    && (forall i {:trigger EntryOk(data[..p.offs[|p.pairs|]], p, i)} :: 0 <= i < |p.pairs| ==>
          EntryOk(data[..p.offs[|p.pairs|]], p, i))
    && (forall j {:trigger RestartOk(data, p, j)} :: 0 <= j < |p.starts| ==> RestartOk(data, p, j))
  }

  ghost function PlanOf(pairs: seq<Pair>, starts: seq<nat>): Plan
    requires SmallPairs(pairs)
  {
    Plan(pairs, seq(|pairs|, i requires 0 <= i < |pairs| => Shared(pairs, starts, i)),
         seq(|pairs| + 1, i requires 0 <= i < |pairs| + 1 => Off(pairs, starts, i)), starts)
  }

  /** What the builder writes is laid out as planned. */
  lemma BuiltIsLaidOut(pairs: seq<Pair>, starts: seq<nat>)
    requires Sound(pairs, starts)
    ensures LaidOut(BlockBytes(pairs, starts), PlanOf(pairs, starts))
  {
    var data, p := BlockBytes(pairs, starts), PlanOf(pairs, starts);
    PlanIsWellFormed(pairs, starts);
    BlockParts(pairs, starts, 0);
    forall i | 0 <= i < |pairs| ensures EntryOk(data[..p.offs[|pairs|]], p, i) {
      PlannedEntry(pairs, starts, i);
    }
    forall j | 0 <= j < |starts| ensures RestartOk(data, p, j) {
      BlockParts(pairs, starts, j);
    }
  }

  lemma PlanIsWellFormed(pairs: seq<Pair>, starts: seq<nat>)
    requires SmallPairs(pairs) && StartsOk(starts, |pairs|)
    ensures WellFormed(PlanOf(pairs, starts))
  {
    forall i, j | 0 <= i < j <= |pairs| ensures Off(pairs, starts, i) < Off(pairs, starts, j) {
      OffsetsAscend(pairs, starts, i, j);
    }
  }

  lemma PlannedEntry(pairs: seq<Pair>, starts: seq<nat>, i: nat)
    requires SmallPairs(pairs) && StartsOk(starts, |pairs|) && i < |pairs| && WellFormed(PlanOf(pairs, starts))
    ensures EntryOk(DataUpTo(pairs, starts, |pairs|), PlanOf(pairs, starts), i)
  {
    SharedBytes(pairs, starts, i);
    EntryReads(pairs, starts, i);
  }

  lemma SharedBytes(pairs: seq<Pair>, starts: seq<nat>, i: nat)
    requires i < |pairs|
    ensures var n := Shared(pairs, starts, i);
            (i in starts ==> n == 0) && (i > 0 ==> n <= |pairs[i - 1].key| && pairs[i - 1].key[..n] == pairs[i].key[..n])
  {
  }

  // ---- The iterator --------------------------------------------------------------------

  class Iter {
    const order: Order
    const data: Bytes          // the whole block
    const restarts: nat        // offset of the restart array
    const numRestarts: nat
    var current: nat
    var restartIndex: nat
    var key: Bytes
    var valueAt: nat           // where the value slice begins
    var valueSize: nat
    var corrupt: bool
    ghost const plan: Plan
    ghost var index: nat       // the pair shown, or |plan.pairs|

    ghost predicate Opened() {
      LaidOut(data, plan) && restarts == plan.offs[|plan.pairs|] && numRestarts == |plan.starts|
    }

    /** The next entry to be parsed is the i-th. */
    ghost predicate Before(i: nat)
      requires Opened()
      reads this
    {
      && i <= |plan.pairs| && valueAt + valueSize == plan.offs[i]
      && restartIndex < |plan.starts| && plan.starts[restartIndex] <= i
      && (i < |plan.pairs| ==> Continues(key, plan, i))
    }

    /** The i-th pair is shown. The restart index may lag by one at the head of a run. */
    ghost predicate At(i: nat)
      requires Opened()
      reads this
    {
      && i < |plan.pairs| && current == plan.offs[i] && key == plan.pairs[i].key
      && valueAt + valueSize == plan.offs[i + 1] <= restarts && data[valueAt..valueAt + valueSize] == plan.pairs[i].value
      && restartIndex < |plan.starts| && plan.starts[restartIndex] <= i
      && (restartIndex + 1 < |plan.starts| ==> i <= plan.starts[restartIndex + 1])
    }

    ghost predicate Valid()
      reads this
    {
      Opened() && index <= |plan.pairs| && !corrupt
      && if index < |plan.pairs| then At(index) else current == restarts && restartIndex == numRestarts
    }

    /** Block's constructor and NewIterator: the restart array is found from the end. */
    constructor (order: Order, block: Bytes, ghost plan: Plan)
      requires LaidOut(block, plan)
      ensures Valid() && this.order == order && this.plan == plan && index == |plan.pairs|
    {
      var count := DecodeFixed32(block[|block| - 4..]);
      this.order, data, numRestarts := order, block, count;
      restarts, current := |block| - (1 + count) * 4, |block| - (1 + count) * 4;
      restartIndex, key, valueAt, valueSize, corrupt := count, [], 0, 0, false;
      this.plan, index := plan, |plan.pairs|;
    }

    predicate HasKey()
      reads this
    {
      current < restarts
    }

    lemma HasKeyIffInside()
      requires Valid()
      ensures HasKey() <==> index < |plan.pairs|
    {
    }

    function Value(): (v: Bytes)
      requires Valid() && HasKey()
      reads this
      ensures v == plan.pairs[index].value
    {
      data[valueAt..valueAt + valueSize]
    }

    method GetRestartPoint(j: nat) returns (at: nat)
      requires Opened() && j < numRestarts
      ensures at == plan.offs[plan.starts[j]]
    {
      assert RestartOk(data, plan, j);
      at := DecodeFixed32(data[restarts + 4 * j..restarts + 4 * j + 4]);
    }

    method SeekToRestartPoint(j: nat)
      requires Opened() && j < numRestarts
      modifies this
      ensures Before(plan.starts[j]) && corrupt == old(corrupt)
    {
      key, restartIndex := [], j;
      var offset := GetRestartPoint(j);
      valueAt, valueSize := offset, 0;
      StartShares(data, plan, j);
    }

    /** ParseNextKey: the entry at the end of the value slice becomes current. */
    method ParseNextKey(ghost i: nat) returns (ok: bool)
      requires Opened() && !corrupt && Before(i)
      modifies this
      ensures Valid() && index == i && ok == (i < |plan.pairs|)
    {
      index, current := i, valueAt + valueSize;
      if current >= restarts {
        current, restartIndex := restarts, numRestarts;
        return false;
      }
      TakeEntry(i);
      AdvanceRestart(i);
      return true;
    }

    /** Rebuilds the key from what it shares with the one before. */
    method TakeEntry(ghost i: nat)
      requires Opened() && i < |plan.pairs| && current == plan.offs[i] && Continues(key, plan, i)
      modifies this`key, this`valueAt, this`valueSize
      ensures key == plan.pairs[i].key && valueAt + valueSize == plan.offs[i + 1] <= restarts
      ensures data[valueAt..valueAt + valueSize] == plan.pairs[i].value
    {
      var entries := data[..restarts];
      EntryParses(entries, plan, i);
      ParsedKey(key, entries, current, plan.shared[i], plan.pairs[i].key, plan.pairs[i].value, plan.offs[i + 1]);
      var header := DecodeEntry(entries[current..]);
      if header.None? || |key| < header.value.shared {
        assert false;
      }
      var h := header.value;
      var p := current + h.size;
      SliceOfPrefix(data, restarts, p + h.nonShared, p + h.nonShared + h.valueLength);
      key := key[..h.shared] + entries[p..p + h.nonShared];
      valueAt, valueSize := p + h.nonShared, h.valueLength;
    }

    method AdvanceRestart(ghost i: nat)
      requires Opened() && i < |plan.pairs| && current == plan.offs[i]
      requires restartIndex < numRestarts && plan.starts[restartIndex] <= i
      modifies this`restartIndex
      ensures restartIndex < numRestarts && plan.starts[restartIndex] <= i
      ensures restartIndex + 1 < numRestarts ==> i <= plan.starts[restartIndex + 1]
    {
      while restartIndex + 1 < numRestarts
        invariant restartIndex < numRestarts && plan.starts[restartIndex] <= i
        decreases numRestarts - restartIndex
      {
        var next := GetRestartPoint(restartIndex + 1);
        OffsetOrder(plan, plan.starts[restartIndex + 1], i);
        if next >= current { break; }
        restartIndex := restartIndex + 1;
      }
    }

    // ---- Moves -----------------------------------------------------------------------

    method Next()
      requires Valid() && HasKey()
      modifies this
      ensures Valid() && index == old(index) + 1
    {
      AtIsBeforeNext();
      var ok := ParseNextKey(index + 1);
    }

    /** The key of an entry begins with the bytes the next entry shares. */
    lemma AtIsBeforeNext()
      requires Valid() && index < |plan.pairs|
      ensures Before(index + 1)
    {
      if index + 1 < |plan.pairs| { assert EntryOk(data[..restarts], plan, index + 1); }
    }

    method SeekToFirst()
      requires Valid()
      modifies this
      ensures Valid() && index == 0
    {
      SeekToRestartPoint(0);
      var ok := ParseNextKey(0);
    }

    /** Parses on, entry by entry, up to the entry that ends at `limit`. */
    method ParseUpTo(ghost from: nat, ghost last: nat, limit: nat)
      requires Opened() && !corrupt && from <= last < |plan.pairs| && Before(from) && limit == plan.offs[last + 1]
      modifies this
      ensures Valid() && index == last
    {
      var more := ParseNextKey(from);
      while more && valueAt + valueSize < limit
        invariant Valid() && from <= index <= last && more
        decreases last - index
      {
        OffsetOrder(plan, index + 1, last + 1);
        AtIsBeforeNext();
        more := ParseNextKey(index + 1);
      }
      OffsetOrder(plan, index + 1, last + 1);
    }

    method SeekToLast()
      requires Valid()
      modifies this
      ensures Valid() && index == if plan.pairs == [] then 0 else |plan.pairs| - 1
    {
      SeekToRestartPoint(numRestarts - 1);
      if restarts == 0 {
        var more := ParseNextKey(0);
      } else {
        ParseUpTo(plan.starts[numRestarts - 1], |plan.pairs| - 1, restarts);
      }
    }

    /** The scan backwards of Prev: a restart point before the current entry, if any. */
    method RestartBefore(original: nat, ghost i: nat) returns (found: bool)
      requires Opened() && i < |plan.pairs| && original == plan.offs[i]
      requires restartIndex < numRestarts && plan.starts[restartIndex] <= i
      modifies this`restartIndex
      ensures restartIndex < numRestarts
      ensures found ==> plan.starts[restartIndex] < i
      ensures !found ==> i == 0
    {
      var at := GetRestartPoint(restartIndex);
      OffsetOrder(plan, plan.starts[restartIndex], i);
      while at >= original
        invariant restartIndex < numRestarts && plan.starts[restartIndex] <= i
        invariant at < original <==> plan.starts[restartIndex] < i
        decreases restartIndex
      {
        if restartIndex == 0 {
          return false;
        }
        restartIndex := restartIndex - 1;
        at := GetRestartPoint(restartIndex);
        OffsetOrder(plan, plan.starts[restartIndex], i);
      }
      return true;
    }

    /** Prev: back to the last restart point before the current entry, then forwards again. */
    method Prev()
      requires Valid() && HasKey()
      modifies this
      ensures Valid() && index == if old(index) == 0 then |plan.pairs| else old(index) - 1
    {
      var original := current;
      ghost var i := index;
      var found := RestartBefore(original, i);
      if !found {
        current, restartIndex := restarts, numRestarts;
        index := |plan.pairs|;
        return;
      }
      ghost var from := plan.starts[restartIndex];
      SeekToRestartPoint(restartIndex);
      ParseUpTo(from, i - 1, original);
    }

    /** Reads the key at a restart point, which shares nothing. */
    method RestartKey(j: nat) returns (k: Bytes)
      requires Opened() && 0 < j < numRestarts
      ensures k == plan.pairs[plan.starts[j]].key
    {
      var at := GetRestartPoint(j);
      var entries := data[..restarts];
      StartShares(data, plan, j);
      assert EntryOk(entries, plan, plan.starts[j]);
      var header := DecodeEntry(entries[at..]);
      if header.None? || header.value.shared != 0 {
        assert false;
      }
      k := entries[at + header.value.size..at + header.value.size + header.value.nonShared];
      assert k == plan.pairs[plan.starts[j]].key[0..];
    }

    /** The binary search of Seek: the last restart point before the target, or the first. */
    method SearchRestarts(target: Bytes) returns (left: nat)
      requires Opened()
      ensures left < numRestarts
      ensures left > 0 ==> order(plan.pairs[plan.starts[left]].key) < order(target)
      ensures left + 1 < numRestarts ==> order(target) <= order(plan.pairs[plan.starts[left + 1]].key)
    {
      left := 0;
      var right := numRestarts - 1;
      while left < right
        invariant left <= right < numRestarts
        invariant left > 0 ==> order(plan.pairs[plan.starts[left]].key) < order(target)
        invariant right + 1 < numRestarts ==> order(target) <= order(plan.pairs[plan.starts[right + 1]].key)
      {
        var mid := (left + right + 1) / 2;
        var midKey := RestartKey(mid);
        if order(midKey) < order(target) {
          left := mid;
        } else {
          right := mid - 1;
        }
      }
    }

    /** Seek: the binary search, then a linear one. The linear one never passes the head of
        the run after the one it starts in. */
    method Seek(target: Bytes)
      requires Valid() && Ascending(order, plan.pairs)
      modifies this
      ensures Valid() && IsLowerBound(order, plan.pairs, target, index)
    {
      var left := SearchRestarts(target);
      SeekToRestartPoint(left);
      ghost var i := plan.starts[left];
      while true
        invariant Opened() && !corrupt && Before(i)
        invariant forall j :: 0 <= j < i ==> order(plan.pairs[j].key) < order(target)
        invariant left + 1 < numRestarts ==> i <= plan.starts[left + 1]
        decreases |plan.pairs| - i
      {
        var more := ParseNextKey(i);
        if !more || order(target) <= order(key) {
          return;
        }
        AtIsBeforeNext();
        i := i + 1;
      }
    }

    method Perform(m: Move)
      requires Valid() && Ascending(order, plan.pairs)
      modifies this
      ensures Valid() && IsMove(order, plan.pairs, old(index), m, index)
    {
      HasKeyIffInside();
      match m
      case ToTarget(target) => Seek(target);
      case ToFirst => SeekToFirst();
      case ToLast => SeekToLast();
      case Forwards => if HasKey() { Next(); }
      case Backwards => if HasKey() { Prev(); }
    }
  }

  lemma EntryParses(entries: Bytes, p: Plan, i: nat)
    requires WellFormed(p) && i < |p.pairs| && EntryOk(entries, p, i)
    ensures Parses(entries, p.offs[i], p.shared[i], p.pairs[i].key, p.pairs[i].value, p.offs[i + 1])
  {
  }

  lemma ParsedKey(before: Bytes, entries: Bytes, at: nat, shared: nat, key: Bytes, value: Bytes, next: nat)
    requires shared <= |key| && shared <= |before| && before[..shared] == key[..shared]
    requires Parses(entries, at, shared, key, value, next)
    ensures at <= |entries| && DecodeEntry(entries[at..]).Some?
    ensures var h := DecodeEntry(entries[at..]).value;
            var p := at + h.size;
            && h.shared <= |before| && p + h.nonShared + h.valueLength == next <= |entries|
            && before[..h.shared] + entries[p..p + h.nonShared] == key && entries[p + h.nonShared..next] == value
  {
  }

  /** Entry i can be decoded with this key as the one before it. */
  ghost predicate Continues(key: Bytes, p: Plan, i: nat)
    requires WellFormed(p) && i < |p.pairs|
  {
    p.shared[i] <= |key| && p.shared[i] <= |p.pairs[i].key| && key[..p.shared[i]] == p.pairs[i].key[..p.shared[i]]
  }

  lemma StartShares(data: Bytes, p: Plan, j: nat)
    requires LaidOut(data, p) && j < |p.starts|
    ensures p.starts[j] < |p.pairs| ==> p.shared[p.starts[j]] == 0
  {
    if p.starts[j] < |p.pairs| { assert EntryOk(data[..p.offs[|p.pairs|]], p, p.starts[j]); }
  }

  lemma OffsetOrder(p: Plan, i: nat, j: nat)
    requires WellFormed(p) && i <= |p.pairs| && j <= |p.pairs|
    ensures p.offs[i] < p.offs[j] <==> i < j
  {
  }

  datatype Move = ToTarget(target: Bytes) | ToFirst | ToLast | Forwards | Backwards

  /** The same move made by an index into the list of pairs. */
  ghost predicate IsMove(order: Order, pairs: seq<Pair>, i: nat, m: Move, j: nat) {
    match m
    case ToTarget(target) => IsLowerBound(order, pairs, target, j)
    case ToFirst => j == 0
    case ToLast => j == if pairs == [] then 0 else |pairs| - 1
    case Forwards => j == if i < |pairs| then i + 1 else i
    case Backwards => j == if i >= |pairs| then i else if i == 0 then |pairs| else i - 1
  }

  lemma LowerBoundUnique(order: Order, pairs: seq<Pair>, target: Bytes, i: nat, j: nat)
    requires IsLowerBound(order, pairs, target, i) && IsLowerBound(order, pairs, target, j)
    ensures i == j
  {
    BelowIffBefore(order, pairs, target, i);
    BelowIffBefore(order, pairs, target, j);
    assert i < |pairs| ==> pairs[i] in pairs;
    assert j < |pairs| ==> pairs[j] in pairs;
  }

  lemma BelowIffBefore(order: Order, pairs: seq<Pair>, target: Bytes, i: nat)
    requires IsLowerBound(order, pairs, target, i)
    ensures forall k: nat {:trigger pairs[k]} :: k < |pairs| ==> (order(pairs[k].key) < order(target) <==> k < i)
  {
  }

  // ---- Whole runs --------------------------------------------------------------------

  method Build(pairs: seq<Pair>, interval: nat) returns (block: Bytes, ghost starts: seq<nat>)
    requires interval >= 1 && Sound(pairs, RunStarts(|pairs|, interval))
    ensures starts == RunStarts(|pairs|, interval) && block == BlockBytes(pairs, starts)
  {
    var builder := new BlockBuilder(interval);
    var i := 0;
    while i < |pairs|
      invariant i <= |pairs| && fresh(builder) && builder.Valid() && !builder.finished && builder.pairs == pairs[..i] && builder.interval == interval
    {
      builder.Add(pairs[i].key, pairs[i].value);
      i := i + 1;
    }
    assert pairs[..i] == pairs;
    block := builder.Finish();
    starts := builder.starts;
  }

  /** What the iterator shows when the plain index is i. */
  ghost function ShownAt(pairs: seq<Pair>, i: nat): Option<Pair> { if i < |pairs| then Some(pairs[i]) else None }

  /** Building a block and walking it: after any run of moves, in any order and direction, the
      iterator shows the pair that the plain index shows. */
  method BuildAndWalk(order: Order, pairs: seq<Pair>, interval: nat, moves: seq<Move>) returns (shown: seq<Option<Pair>>, ghost at: seq<nat>)
    requires interval >= 1 && Ascending(order, pairs) && Sound(pairs, RunStarts(|pairs|, interval))
    ensures |shown| == |moves| && |at| == |moves| + 1 && at[0] == |pairs|
    ensures forall n :: 0 <= n < |moves| ==> IsMove(order, pairs, at[n], moves[n], at[n + 1])
    ensures forall n :: 0 <= n < |moves| ==> shown[n] == ShownAt(pairs, at[n + 1])
  {
    var block; ghost var starts;
    block, starts := Build(pairs, interval);
    BuiltIsLaidOut(pairs, starts);
    var iter := new Iter(order, block, PlanOf(pairs, starts));
    shown, at := Walk(iter, moves);
  }

  method Walk(iter: Iter, moves: seq<Move>) returns (shown: seq<Option<Pair>>, ghost at: seq<nat>)
    requires iter.Valid() && Ascending(iter.order, iter.plan.pairs)
    modifies iter
    ensures |shown| == |moves| && |at| == |moves| + 1 && at[0] == old(iter.index)
    ensures forall n :: 0 <= n < |moves| ==> IsMove(iter.order, iter.plan.pairs, at[n], moves[n], at[n + 1])
    ensures forall n :: 0 <= n < |moves| ==> shown[n] == ShownAt(iter.plan.pairs, at[n + 1])
  {
    ghost var pairs := iter.plan.pairs;
    shown, at := [], [iter.index];
    var n := 0;
    while n < |moves|
      invariant n <= |moves| && |shown| == n && |at| == n + 1 && at[0] == old(iter.index)
      invariant iter.Valid() && at[n] == iter.index
      invariant forall m :: 0 <= m < n ==> IsMove(iter.order, pairs, at[m], moves[m], at[m + 1])
      invariant forall m :: 0 <= m < n ==> shown[m] == ShownAt(pairs, at[m + 1])
    {
      var now := MoveAndShow(iter, moves[n]);
      shown, at := shown + [now], at + [iter.index];
      n := n + 1;
    }
  }

  method MoveAndShow(iter: Iter, m: Move) returns (now: Option<Pair>)
    requires iter.Valid() && Ascending(iter.order, iter.plan.pairs)
    modifies iter
    ensures iter.Valid() && IsMove(iter.order, iter.plan.pairs, old(iter.index), m, iter.index)
    ensures now == ShownAt(iter.plan.pairs, iter.index)
  {
    iter.Perform(m);
    iter.HasKeyIffInside();
    now := if iter.HasKey() then Some(Pair(iter.key, iter.Value())) else None;
  }

  method SeekAndShow(iter: Iter, target: Bytes) returns (now: Option<Pair>, ghost at: nat)
    requires iter.Valid() && Ascending(iter.order, iter.plan.pairs)
    modifies iter
    ensures IsLowerBound(iter.order, iter.plan.pairs, target, at) && now == ShownAt(iter.plan.pairs, at)
  {
    now := MoveAndShow(iter, ToTarget(target));
    at := iter.index;
  }
}
