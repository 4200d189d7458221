/** The layout of a block (table/block_builder.cc): keys share prefixes with their
    predecessor, except at restart points, whose offsets close the block. */
module Blocks {
  import opened Coding

  datatype Pair = Pair(key: Bytes, value: Bytes)

  /** The number of leading bytes two keys have in common. */
  function CommonPrefix(a: Bytes, b: Bytes): (n: nat)
    ensures n <= |a| && n <= |b| && a[..n] == b[..n]
    ensures n < |a| && n < |b| ==> a[n] != b[n]
  {
    if a == [] || b == [] || a[0] != b[0] then 0 else 1 + CommonPrefix(a[1..], b[1..])
  }

  predicate SmallPair(p: Pair) { |p.key| < TWO32 && |p.value| < TWO32 }

  ghost predicate SmallPairs(pairs: seq<Pair>) { forall i :: 0 <= i < |pairs| ==> SmallPair(pairs[i]) }

  /** Bytes the i-th key shares with the one before; none where a restart run begins. */
  ghost function Shared(pairs: seq<Pair>, starts: seq<nat>, i: nat): (n: nat)
    requires i < |pairs|
    ensures n <= |pairs[i].key|
  {
    if i == 0 || i in starts then 0 else CommonPrefix(pairs[i - 1].key, pairs[i].key)
  }

  /** Three lengths, the rest of the key, the value. */
  function EntryBytes(shared: nat, key: Bytes, value: Bytes): (r: Bytes)
    requires shared <= |key| < TWO32 && |value| < TWO32
    ensures |r| >= 3
  {
    Lengths(shared, |key| - shared, |value|) + (key[shared..] + value)
  }

  function Lengths(shared: nat, nonShared: nat, valueLength: nat): (r: Bytes)
    requires shared < TWO32 && nonShared < TWO32 && valueLength < TWO32
    ensures |r| >= 3
  {
    Varint(shared) + (Varint(nonShared) + Varint(valueLength))
  }

  lemma Varint32Length(v: nat)
    requires v < TWO32
    ensures |Varint(v)| <= 5
  {
    assert Pow128(5) == 128 * (128 * (128 * (128 * 128)));
    RawVarintRoundTrip(v, [], 5);
  }

  lemma EntryLength(shared: nat, key: Bytes, value: Bytes)
    requires shared <= |key| < TWO32 && |value| < TWO32
    ensures |EntryBytes(shared, key, value)| <= 15 + |key| + |value|
  {
    Varint32Length(shared);
    Varint32Length(|key| - shared);
    Varint32Length(|value|);
  }

  /** The bytes of the first n entries. */
  ghost function DataUpTo(pairs: seq<Pair>, starts: seq<nat>, n: nat): Bytes
    requires n <= |pairs| && SmallPairs(pairs)
  {
    if n == 0 then [] else
      DataUpTo(pairs, starts, n - 1) + EntryBytes(Shared(pairs, starts, n - 1), pairs[n - 1].key, pairs[n - 1].value)
  }

  ghost function Off(pairs: seq<Pair>, starts: seq<nat>, n: nat): nat
    requires n <= |pairs| && SmallPairs(pairs)
  {
    |DataUpTo(pairs, starts, n)|
  }

  /** Restart runs begin at entry 0 and at ever later entries. */
  ghost predicate StartsOk(starts: seq<nat>, n: nat) {
    && |starts| > 0 && starts[0] == 0
    && (forall i, j :: 0 <= i < j < |starts| ==> starts[i] < starts[j])
    && (forall j :: 0 < j < |starts| ==> starts[j] < n)
  }

  ghost function RestartArray(pairs: seq<Pair>, starts: seq<nat>, k: nat): (r: Bytes)
    requires SmallPairs(pairs) && StartsOk(starts, |pairs|) && k <= |starts| && Off(pairs, starts, |pairs|) < TWO32
    ensures |r| == 4 * k
  {
    if k == 0 then [] else
      OffsetsAscend(pairs, starts, starts[k - 1], |pairs|);
      RestartArray(pairs, starts, k - 1) + EncodeFixed32(Off(pairs, starts, starts[k - 1]))
  }

  ghost predicate Sound(pairs: seq<Pair>, starts: seq<nat>) {
    SmallPairs(pairs) && StartsOk(starts, |pairs|) && Off(pairs, starts, |pairs|) + 4 * |starts| + 4 < TWO32
  }

  ghost function BlockBytes(pairs: seq<Pair>, starts: seq<nat>): (r: Bytes)
    requires Sound(pairs, starts)
    ensures |r| == Off(pairs, starts, |pairs|) + 4 * |starts| + 4
  {
    DataUpTo(pairs, starts, |pairs|) + RestartArray(pairs, starts, |starts|) + EncodeFixed32(|starts|)
  }

  // ---- Facts about the layout ----------------------------------------------------------

  lemma {:induction false} OffsetsAscend(pairs: seq<Pair>, starts: seq<nat>, i: nat, j: nat)
    requires i <= j <= |pairs| && SmallPairs(pairs)
    ensures Off(pairs, starts, i) <= Off(pairs, starts, j)
    ensures i < j ==> Off(pairs, starts, i) < Off(pairs, starts, j)
    ensures DataUpTo(pairs, starts, i) <= DataUpTo(pairs, starts, j)
    decreases j
  {
    if i < j {
      OffsetsAscend(pairs, starts, i, j - 1);
      PrefixOfAppend(DataUpTo(pairs, starts, i), DataUpTo(pairs, starts, j - 1),
                     EntryBytes(Shared(pairs, starts, j - 1), pairs[j - 1].key, pairs[j - 1].value));
    }
  }

  lemma PrefixOfAppend(a: Bytes, b: Bytes, c: Bytes)
    requires a <= b
    ensures a <= b + c
  {
  }

  /** The first n entries do not depend on later ones. */
  lemma {:induction false} DataStable(pairs: seq<Pair>, starts: seq<nat>, pairs': seq<Pair>, starts': seq<nat>, n: nat)
    requires n <= |pairs| && n <= |pairs'| && SmallPairs(pairs) && SmallPairs(pairs')
    requires forall i :: 0 <= i < n ==> pairs[i] == pairs'[i] && (i in starts <==> i in starts')
    ensures DataUpTo(pairs, starts, n) == DataUpTo(pairs', starts', n)
  {
    if n > 0 {
      DataStable(pairs, starts, pairs', starts', n - 1);
      assert n - 1 in starts <==> n - 1 in starts';
    }
  }

  /** Entry i stands at its offset, followed by what comes after. */
  lemma EntryStands(pairs: seq<Pair>, starts: seq<nat>, i: nat)
    requires i < |pairs| && SmallPairs(pairs)
    ensures var data := DataUpTo(pairs, starts, |pairs|);
            Off(pairs, starts, i) <= Off(pairs, starts, i + 1) <= |data|
            && data[Off(pairs, starts, i)..] ==
                 EntryBytes(Shared(pairs, starts, i), pairs[i].key, pairs[i].value) + data[Off(pairs, starts, i + 1)..]
  {
    OffsetsAscend(pairs, starts, i, i + 1);
    OffsetsAscend(pairs, starts, i + 1, |pairs|);
    var before, entry := DataUpTo(pairs, starts, i), EntryBytes(Shared(pairs, starts, i), pairs[i].key, pairs[i].value);
    assert DataUpTo(pairs, starts, i + 1) == before + entry;
    Standing(before, entry, DataUpTo(pairs, starts, |pairs|));
  }

  lemma Standing(before: Bytes, entry: Bytes, data: Bytes)
    requires before + entry <= data
    ensures data[|before|..] == entry + data[|before + entry|..]
  {
    assert data == before + entry + data[|before + entry|..];
  }

  lemma {:induction false} RestartStands(pairs: seq<Pair>, starts: seq<nat>, k: nat, j: nat)
    requires SmallPairs(pairs) && StartsOk(starts, |pairs|) && j < k <= |starts| && Off(pairs, starts, |pairs|) < TWO32
    ensures Off(pairs, starts, starts[j]) < TWO32
    ensures RestartArray(pairs, starts, k)[4 * j..4 * j + 4] == EncodeFixed32(Off(pairs, starts, starts[j]))
    decreases k
  {
    OffsetsAscend(pairs, starts, starts[k - 1], |pairs|);
    var init, last := RestartArray(pairs, starts, k - 1), EncodeFixed32(Off(pairs, starts, starts[k - 1]));
    SliceOfAppend(init, last, 4 * j);
    if j < k - 1 { RestartStands(pairs, starts, k - 1, j); }
  }

  lemma Parts(a: Bytes, b: Bytes, c: Bytes, i: nat, j: nat)
    requires i <= j <= |b|
    ensures (a + b + c)[..|a|] == a && (a + b + c)[|a| + |b|..] == c
    ensures (a + b + c)[|a| + i..|a| + j] == b[i..j]
  {
  }

  /** The block says where its restart array is and what it holds. */
  lemma BlockParts(pairs: seq<Pair>, starts: seq<nat>, j: nat)
    requires Sound(pairs, starts) && j < |starts|
    ensures var block := BlockBytes(pairs, starts);
            var at := Off(pairs, starts, |pairs|);
            block[..at] == DataUpTo(pairs, starts, |pairs|)
            && DecodeFixed32(block[|block| - 4..]) == |starts|
            && DecodeFixed32(block[at + 4 * j..at + 4 * j + 4]) == Off(pairs, starts, starts[j])
  {
    var a, b, c := DataUpTo(pairs, starts, |pairs|), RestartArray(pairs, starts, |starts|), EncodeFixed32(|starts|);
    Parts(a, b, c, 4 * j, 4 * j + 4);
    RestartStands(pairs, starts, |starts|, j);
    FixedAlone(|starts|);
    FixedAlone(Off(pairs, starts, starts[j]));
  }

  lemma FixedAlone(v: nat)
    requires v < TWO32
    ensures DecodeFixed32(EncodeFixed32(v)) == v
  {
    Fixed32RoundTrip(v, []);
    assert EncodeFixed32(v) + [] == EncodeFixed32(v);
  }

  // ---- Building ----------------------------------------------------------------------

  /** Where the restart runs of n entries begin: a new one when the last has `interval` entries. */
  function RunStarts(n: nat, interval: nat): (r: seq<nat>)
    ensures |r| > 0 && r[|r| - 1] <= n
  {
    if n == 0 then [0]
    else
      var r := RunStarts(n - 1, interval);
      if n - 1 - r[|r| - 1] == interval then r + [n - 1] else r
  }

  /** Every restart run but the last is `interval` long, and the last is `counter`. */
  ghost predicate Spaced(starts: seq<nat>, n: nat, interval: nat, counter: nat) {
    interval >= 1 && StartsOk(starts, n) && starts == RunStarts(n, interval) && counter == n - starts[|starts| - 1] <= interval
  }

  lemma SpacedNext(starts: seq<nat>, n: nat, interval: nat, counter: nat)
    requires Spaced(starts, n, interval, counter) && counter < interval
    ensures Spaced(starts, n + 1, interval, counter + 1)
  {
  }

  lemma NewRunSpaced(starts: seq<nat>, n: nat, interval: nat, after: seq<nat>)
    requires Spaced(starts, n, interval, interval) && after == starts + [n]
    ensures n > 0 && Spaced(after, n + 1, interval, 1)
  {
  }

  ghost predicate Runs(pairs: seq<Pair>, starts: seq<nat>, restarts: seq<nat>, interval: nat, counter: nat) {
    Spaced(starts, |pairs|, interval, counter) && SmallPairs(pairs) && restarts == Offsets(pairs, starts, |starts|)
  }

  ghost function OffOf(pairs: seq<Pair>, starts: seq<nat>, j: nat): nat
    requires SmallPairs(pairs) && StartsOk(starts, |pairs|) && j < |starts|
  {
    Off(pairs, starts, starts[j])
  }

  /** The offsets of the first k restart runs. */
  ghost function Offsets(pairs: seq<Pair>, starts: seq<nat>, k: nat): (r: seq<nat>)
    requires SmallPairs(pairs) && StartsOk(starts, |pairs|) && k <= |starts|
    ensures |r| == k
  {
    if k == 0 then [] else Offsets(pairs, starts, k - 1) + [OffOf(pairs, starts, k - 1)]
  }

  lemma {:induction false} OffsetsAt(pairs: seq<Pair>, starts: seq<nat>, k: nat, j: nat)
    requires SmallPairs(pairs) && StartsOk(starts, |pairs|) && j < k <= |starts|
    ensures Offsets(pairs, starts, k)[j] == OffOf(pairs, starts, j)
  {
    if j < k - 1 {
      OffsetsAt(pairs, starts, k - 1, j);
    }
  }

  lemma EmptyRuns(interval: nat)
    requires interval >= 1
    ensures Runs([], [0], [0], interval, 0)
  {
    assert Offsets([], [0], 0) == [] && OffOf([], [0], 0) == 0;
    assert Offsets([], [0], 1) == [0];
  }

  function LastKey(pairs: seq<Pair>): Bytes { if pairs == [] then [] else pairs[|pairs| - 1].key }

  class BlockBuilder {
    const interval: nat
    var buffer: Bytes
    var restarts: seq<nat>
    var counter: nat
    var finished: bool
    var lastKey: Bytes
    ghost var pairs: seq<Pair>
    ghost var starts: seq<nat>

    ghost predicate Valid()
      reads this
    {
      && Runs(pairs, starts, restarts, interval, counter)
      && lastKey == LastKey(pairs)
      && (if finished then Sound(pairs, starts) && buffer == BlockBytes(pairs, starts)
          else buffer == DataUpTo(pairs, starts, |pairs|))
    }

    constructor (interval: nat)
      requires interval >= 1
      ensures Valid() && !finished && pairs == [] && this.interval == interval && Estimate() == 8
    {
      this.interval := interval;
      buffer, restarts, counter, finished, lastKey := [], [0], 0, false, [];
      pairs, starts := [], [0];
      EmptyRuns(interval);
    }

    /** CurrentSizeEstimate. */
    function Estimate(): nat
      reads this
    {
      |buffer| + 4 * |restarts| + 4
    }

    lemma EstimateIsSize()
      requires Valid() && !finished
      ensures Sound(pairs, starts) <==> Estimate() < TWO32
      ensures Sound(pairs, starts) ==> |BlockBytes(pairs, starts)| == Estimate()
      ensures buffer == [] <==> pairs == []
    {
      OffsetsAscend(pairs, starts, 0, |pairs|);
    }

    method Reset()
      requires interval >= 1
      modifies this
      ensures Valid() && !finished && pairs == [] && Estimate() == 8
    {
      EmptyRuns(interval);
      buffer, restarts, counter, finished, lastKey := [], [0], 0, false, [];
      pairs, starts := [], [0];
    }

    method SharedPrefix(key: Bytes) returns (shared: nat)
      ensures shared == CommonPrefix(lastKey, key)
    {
      shared := 0;
      assert lastKey[0..] == lastKey && key[0..] == key;
      while shared < |lastKey| && shared < |key| && lastKey[shared] == key[shared]
        invariant shared <= |lastKey| && shared <= |key|
        invariant shared + CommonPrefix(lastKey[shared..], key[shared..]) == CommonPrefix(lastKey, key)
      {
        assert lastKey[shared..][1..] == lastKey[shared + 1..] && key[shared..][1..] == key[shared + 1..];
        shared := shared + 1;
      }
    }

    method Add(key: Bytes, value: Bytes)
      requires Valid() && !finished && SmallPair(Pair(key, value))
      modifies this
      ensures Valid() && !finished && pairs == old(pairs) + [Pair(key, value)]
      ensures Estimate() <= old(Estimate()) + 19 + |key| + |value|
    {
      if counter < interval {
        AddSharing(key, value);
      } else {
        AddRestart(key, value);
      }
    }

    method AddSharing(key: Bytes, value: Bytes)
      requires Valid() && !finished && counter < interval && SmallPair(Pair(key, value))
      modifies this
      ensures Valid() && !finished && pairs == old(pairs) + [Pair(key, value)]
      ensures Estimate() <= old(Estimate()) + 19 + |key| + |value|
    {
      var shared := SharedPrefix(key);
      ghost var longer := pairs + [Pair(key, value)];
      AddInRun(pairs, starts, restarts, interval, counter, key, value, longer);
      EntryLength(shared, key, value);
      Append(EntryBytes(shared, key, value), lastKey[..shared] + key[shared..], longer, starts);
    }

    /** Restart compression: the key is stored whole and its offset is recorded. */
    method AddRestart(key: Bytes, value: Bytes)
      requires Valid() && !finished && counter == interval && SmallPair(Pair(key, value))
      modifies this
      ensures Valid() && !finished && pairs == old(pairs) + [Pair(key, value)]
      ensures Estimate() <= old(Estimate()) + 19 + |key| + |value|
    {
      ghost var longer, after := pairs + [Pair(key, value)], starts + [|pairs|];
      AddOpensRun(pairs, starts, restarts, interval, counter, key, value, longer, after);
      restarts, counter := restarts + [|buffer|], 0;
      EntryLength(0, key, value);
      Append(EntryBytes(0, key, value), lastKey[..0] + key[0..], longer, after);
    }

    method Append(entry: Bytes, key: Bytes, ghost longer: seq<Pair>, ghost after: seq<nat>)
      requires !finished && Runs(longer, after, restarts, interval, counter + 1) && key == LastKey(longer)
      requires DataUpTo(longer, after, |longer|) == buffer + entry
      modifies this`buffer, this`lastKey, this`counter, this`pairs, this`starts
      ensures Valid() && pairs == longer && Estimate() == old(Estimate()) + |entry|
    {
      buffer := buffer + entry;
      lastKey, counter := key, counter + 1;
      pairs, starts := longer, after;
    }

    /** Finish: the restart array and its length go after the entries. */
    method Finish() returns (block: Bytes)
      requires Valid() && !finished && Sound(pairs, starts)
      modifies this
      ensures Valid() && finished && pairs == old(pairs) && starts == old(starts)
      ensures block == BlockBytes(pairs, starts)
    {
      AppendRestarts();
      buffer := buffer + EncodeFixed32(|restarts|);
      finished := true;
      block := buffer;
    }

    method AppendRestarts()
      requires Valid() && !finished && Sound(pairs, starts)
      modifies this`buffer
      ensures buffer == old(buffer) + RestartArray(pairs, starts, |starts|)
    {
      var i := 0;
      ghost var ps, ss := pairs, starts;
      Unchanged(buffer);
      while i < |restarts|
        invariant i <= |restarts|
        invariant buffer == old(buffer) + RestartArray(ps, ss, i)
      {
        RestartFits(ps, ss, i);
        OffsetsAt(ps, ss, |ss|, i);
        Assoc(old(buffer), RestartArray(ps, ss, i), EncodeFixed32(restarts[i]));
        buffer := buffer + EncodeFixed32(restarts[i]);
        i := i + 1;
      }
    }
  }

  lemma Unchanged(a: Bytes)
    ensures a + [] == a
  {
  }

  lemma RestartFits(pairs: seq<Pair>, starts: seq<nat>, i: nat)
    requires Sound(pairs, starts) && i < |starts|
    ensures Off(pairs, starts, starts[i]) < TWO32
    ensures RestartArray(pairs, starts, i + 1) == RestartArray(pairs, starts, i) + EncodeFixed32(Off(pairs, starts, starts[i]))
  {
    OffsetsAscend(pairs, starts, starts[i], |pairs|);
  }

  /** An entry is added, with or without opening a new restart run before it. */
  ghost predicate Extends(pairs: seq<Pair>, starts: seq<nat>, p: Pair, longer: seq<Pair>, after: seq<nat>) {
    && SmallPairs(pairs) && SmallPair(p) && StartsOk(starts, |pairs|) && longer == pairs + [p]
    && (after == starts || (pairs != [] && after == starts + [|pairs|]))
  }

  lemma ExtendedOk(pairs: seq<Pair>, starts: seq<nat>, p: Pair, longer: seq<Pair>, after: seq<nat>)
    requires Extends(pairs, starts, p, longer, after)
    ensures SmallPairs(longer) && StartsOk(after, |longer|) && starts <= after
  {
  }

  /** The entries before it stay as they are. */
  lemma DataKept(pairs: seq<Pair>, starts: seq<nat>, p: Pair, longer: seq<Pair>, after: seq<nat>, i: nat)
    requires Extends(pairs, starts, p, longer, after) && i <= |pairs|
    ensures SmallPairs(longer) && DataUpTo(longer, after, i) == DataUpTo(pairs, starts, i)
  {
    SameMembers(starts, after, |pairs|);
    DataStable(longer, after, pairs, starts, i);
  }

  lemma AddedEntry(pairs: seq<Pair>, starts: seq<nat>, p: Pair, longer: seq<Pair>, after: seq<nat>)
    requires Extends(pairs, starts, p, longer, after)
    ensures SmallPairs(longer)
    ensures DataUpTo(longer, after, |longer|) ==
              DataUpTo(pairs, starts, |pairs|) + EntryBytes(Shared(longer, after, |pairs|), p.key, p.value)
  {
    DataKept(pairs, starts, p, longer, after, |pairs|);
    DataNext(longer, after, |pairs|);
  }

  lemma DataNext(pairs: seq<Pair>, starts: seq<nat>, n: nat)
    requires n < |pairs| && SmallPairs(pairs)
    ensures DataUpTo(pairs, starts, n + 1) ==
              DataUpTo(pairs, starts, n) + EntryBytes(Shared(pairs, starts, n), pairs[n].key, pairs[n].value)
  {
  }

  lemma SameMembers(before: seq<nat>, after: seq<nat>, n: nat)
    requires after == before || after == before + [n]
    ensures forall i :: 0 <= i < n ==> (i in after <==> i in before)
  {
  }

  lemma Rejoin(last: Bytes, key: Bytes)
    ensures last[..CommonPrefix(last, key)] + key[CommonPrefix(last, key)..] == key
  {
  }

  lemma AddInRun(pairs: seq<Pair>, starts: seq<nat>, restarts: seq<nat>, interval: nat, counter: nat,
                 key: Bytes, value: Bytes, longer: seq<Pair>)
    requires Runs(pairs, starts, restarts, interval, counter) && counter < interval
    requires SmallPair(Pair(key, value)) && longer == pairs + [Pair(key, value)]
    ensures Runs(longer, starts, restarts, interval, counter + 1)
    ensures var shared := CommonPrefix(LastKey(pairs), key);
            LastKey(pairs)[..shared] + key[shared..] == LastKey(longer)
            && DataUpTo(longer, starts, |longer|) == DataUpTo(pairs, starts, |pairs|) + EntryBytes(shared, key, value)
  {
    var p := Pair(key, value);
    Rejoin(LastKey(pairs), key);
    ExtendedOk(pairs, starts, p, longer, starts);
    AddedEntry(pairs, starts, p, longer, starts);
    SpacedNext(starts, |pairs|, interval, counter);
    OffsetsStable(pairs, starts, p, longer, starts, |starts|);
    SharedInRun(pairs, starts, key, value, longer);
  }

  lemma SharedInRun(pairs: seq<Pair>, starts: seq<nat>, key: Bytes, value: Bytes, longer: seq<Pair>)
    requires longer == pairs + [Pair(key, value)] && StartsOk(starts, |pairs|) && (pairs == [] || |pairs| !in starts)
    ensures Shared(longer, starts, |pairs|) == CommonPrefix(LastKey(pairs), key)
  {
  }

  lemma AddOpensRun(pairs: seq<Pair>, starts: seq<nat>, restarts: seq<nat>, interval: nat, counter: nat,
                    key: Bytes, value: Bytes, longer: seq<Pair>, after: seq<nat>)
    requires Runs(pairs, starts, restarts, interval, counter) && counter == interval
    requires SmallPair(Pair(key, value)) && longer == pairs + [Pair(key, value)] && after == starts + [|pairs|]
    ensures Runs(longer, after, restarts + [Off(pairs, starts, |pairs|)], interval, 1)
    ensures LastKey(pairs)[..0] + key[0..] == LastKey(longer)
    ensures DataUpTo(longer, after, |longer|) == DataUpTo(pairs, starts, |pairs|) + EntryBytes(0, key, value)
  {
    OpensRun(pairs, starts, restarts, interval, counter, Pair(key, value), longer, after);
    EntryAtStart(pairs, starts, key, value, longer, after);
    WholeKey(LastKey(pairs), key);
  }

  lemma OpensRun(pairs: seq<Pair>, starts: seq<nat>, restarts: seq<nat>, interval: nat, counter: nat,
                 p: Pair, longer: seq<Pair>, after: seq<nat>)
    requires Runs(pairs, starts, restarts, interval, counter) && counter == interval
    requires SmallPair(p) && longer == pairs + [p] && after == starts + [|pairs|]
    ensures Runs(longer, after, restarts + [Off(pairs, starts, |pairs|)], interval, 1)
  {
    NewRunSpaced(starts, |pairs|, interval, after);
    OffsetAtStart(pairs, starts, p, longer, after);
  }

  lemma WholeKey(last: Bytes, key: Bytes)
    ensures last[..0] + key[0..] == key
  {
  }

  /** The first entry of a run shares nothing. */
  lemma EntryAtStart(pairs: seq<Pair>, starts: seq<nat>, key: Bytes, value: Bytes, longer: seq<Pair>, after: seq<nat>)
    requires Extends(pairs, starts, Pair(key, value), longer, after) && after == starts + [|pairs|]
    ensures SmallPairs(longer)
    ensures DataUpTo(longer, after, |longer|) == DataUpTo(pairs, starts, |pairs|) + EntryBytes(0, key, value)
  {
    AddedEntry(pairs, starts, Pair(key, value), longer, after);
    StartSharesNothing(longer, after, |pairs|);
  }

  lemma OffsetAtStart(pairs: seq<Pair>, starts: seq<nat>, p: Pair, longer: seq<Pair>, after: seq<nat>)
    requires Extends(pairs, starts, p, longer, after) && after == starts + [|pairs|]
    ensures SmallPairs(longer) && StartsOk(after, |longer|)
    ensures Offsets(longer, after, |after|) == Offsets(pairs, starts, |starts|) + [Off(pairs, starts, |pairs|)]
  {
    ExtendedOk(pairs, starts, p, longer, after);
    OffsetsStable(pairs, starts, p, longer, after, |starts|);
    DataKept(pairs, starts, p, longer, after, |pairs|);
    LastOffset(longer, after, |starts|);
  }

  lemma StartSharesNothing(pairs: seq<Pair>, starts: seq<nat>, i: nat)
    requires i < |pairs| && |starts| > 0 && starts[|starts| - 1] == i
    ensures Shared(pairs, starts, i) == 0
  {
    assert i in starts;
  }

  lemma LastOffset(pairs: seq<Pair>, starts: seq<nat>, n: nat)
    requires SmallPairs(pairs) && StartsOk(starts, |pairs|) && |starts| == n + 1
    ensures Offsets(pairs, starts, |starts|) == Offsets(pairs, starts, n) + [Off(pairs, starts, starts[n])]
  {
  }

  /** The runs begin where they began. */
  lemma {:induction false} OffsetsStable(pairs: seq<Pair>, starts: seq<nat>, p: Pair, longer: seq<Pair>, after: seq<nat>, k: nat)
    requires Extends(pairs, starts, p, longer, after) && SmallPairs(longer) && StartsOk(after, |longer|)
    requires k <= |starts|
    ensures Offsets(longer, after, k) == Offsets(pairs, starts, k)
  {
    if k > 0 {
      OffsetsStable(pairs, starts, p, longer, after, k - 1);
      DataKept(pairs, starts, p, longer, after, starts[k - 1]);
    }
  }
}
