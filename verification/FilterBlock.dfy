/** The filter block (table/filter_block.cc): one filter for every 2 KiB of file offset at which
    a data block may begin. */
module FilterBlocks {
  import opened Coding
  import opened TableBuilding
  import Bloom

  /** A filter policy, and the part of a key it looks at. */
  datatype Policy = Policy(create: seq<Bytes> -> Bytes, mayMatch: (Bytes, Bytes) -> bool, user: Bytes -> Bytes)

  /** No key is ruled out whose user key went in. */
  ghost predicate Sound(p: Policy) {
    forall keys, i, k {:trigger p.user(k), p.create(keys), keys[i]} ::
      0 <= i < |keys| && p.user(k) == p.user(keys[i]) ==> p.mayMatch(k, p.create(keys))
  }

  const BASE_LG: Byte := 11
  const BASE: nat := 2048

  ghost function Concat(ks: seq<Bytes>): Bytes {
    if ks == [] then [] else Concat(ks[..|ks| - 1]) + ks[|ks| - 1]
  }

  /** The bytes of the filter for these keys: none at all without keys. */
  function FilterBytes(p: Policy, keys: seq<Bytes>): Bytes { if keys == [] then [] else p.create(keys) }

  ghost function Filters(p: Policy, groups: seq<seq<Bytes>>): Bytes {
    if groups == [] then [] else Filters(p, groups[..|groups| - 1]) + FilterBytes(p, groups[|groups| - 1])
  }

  /** Where filter i begins. */
  ghost function FilterStart(p: Policy, groups: seq<seq<Bytes>>, i: nat): nat
    requires i <= |groups|
  {
    |Filters(p, groups[..i])|
  }

  lemma {:induction false} FilterPlaces(p: Policy, groups: seq<seq<Bytes>>, i: nat)
    requires i <= |groups|
    ensures Filters(p, groups[..i]) <= Filters(p, groups)
    ensures i < |groups| ==> FilterStart(p, groups, i) <= FilterStart(p, groups, i + 1) <= |Filters(p, groups)|
    ensures i < |groups| ==> Filters(p, groups)[FilterStart(p, groups, i)..FilterStart(p, groups, i + 1)] == FilterBytes(p, groups[i])
    decreases |groups|
  {
    if i < |groups| {
      var init := groups[..|groups| - 1];
      assert init[..i] == groups[..i];
      assert groups[..i + 1][..i] == groups[..i];
      FilterPlaces(p, init, i);
      if i + 1 < |groups| {
        assert init[..i + 1] == groups[..i + 1];
        assert init[i] == groups[i];
      } else {
        assert groups[..i + 1] == groups && init == groups[..i];
      }
    } else {
      assert groups[..i] == groups;
    }
  }

  /** Every key the builder was told of is in the group its block offset belongs to. */
  ghost predicate Grouped(calls: seq<FilterCall>, groups: seq<seq<Bytes>>, pending: seq<Bytes>) {
    forall i :: 0 <= i < |calls| && calls[i].AddKey? ==> InGroup(groups, pending, BlockOf(calls, i) / BASE, calls[i].key)
  }

  ghost predicate InGroup(groups: seq<seq<Bytes>>, pending: seq<Bytes>, g: nat, key: Bytes) {
    if g < |groups| then key in groups[g] else g == |groups| && key in pending
  }

  class FilterBlockBuilder {
    const policy: Policy
    var keys: Bytes                 // the keys of the current filter, end to end
    var start: seq<nat>             // where each of them begins
    var result: Bytes
    var filterOffsets: seq<nat>
    ghost var pending: seq<Bytes>
    ghost var groups: seq<seq<Bytes>>
    ghost var calls: seq<FilterCall>

    ghost predicate Valid()
      reads this
    {
      && Flattened(pending, keys, start)
      && result == Filters(policy, groups) && |filterOffsets| == |groups|
      && (forall i :: 0 <= i < |groups| ==> filterOffsets[i] == FilterStart(policy, groups, i))
      && |groups| == BlockOf(calls, |calls|) / BASE && Grouped(calls, groups, pending)
    }

    constructor (policy: Policy)
      ensures Valid() && this.policy == policy && calls == [] && groups == []
    {
      this.policy := policy;
      keys, start, result, filterOffsets := [], [], [], [];
      pending, groups, calls := [], [], [];
    }

    /** GenerateFilter: the keys so far become the next filter. */
    method GenerateFilter()
      requires Flattened(pending, keys, start)
      requires result == Filters(policy, groups) && |filterOffsets| == |groups|
      requires forall i :: 0 <= i < |groups| ==> filterOffsets[i] == FilterStart(policy, groups, i)
      modifies this
      ensures groups == old(groups) + [old(pending)] && pending == [] && calls == old(calls)
      ensures Flattened(pending, keys, start)
      ensures result == Filters(policy, groups) && |filterOffsets| == |groups|
      ensures forall i :: 0 <= i < |groups| ==> filterOffsets[i] == FilterStart(policy, groups, i)
    {
      PushFilter(policy, groups, pending);
      filterOffsets := filterOffsets + [|result|];
      if start != [] {
        var tmpKeys := SplitKeys();
        result := result + policy.create(tmpKeys);
        keys, start := [], [];
      } else {
        assert pending == [];
        assert result + [] == result;
      }
      groups, pending := groups + [pending], [];
    }

    /** The list of keys, cut out of the flattened buffer. */
    method SplitKeys() returns (tmpKeys: seq<Bytes>)
      requires Flattened(pending, keys, start)
      ensures tmpKeys == pending
    {
      var ends := start + [|keys|];
      tmpKeys := [];
      var i := 0;
      while i < |start|
        invariant i <= |start| == |pending| && tmpKeys == pending[..i]
      {
        KeyInBuffer(pending, keys, start, i);
        tmpKeys := tmpKeys + [keys[ends[i]..ends[i + 1]]];
        i := i + 1;
      }
    }

    /** StartBlock: filters are generated up to the one this block belongs to. Blocks start in
        file order. */
    method StartBlock(blockOffset: nat)
      requires Valid() && BlockOf(calls, |calls|) <= blockOffset
      modifies this
      ensures Valid() && calls == old(calls) + [FilterCall.StartBlock(blockOffset)]
    {
      var filterIndex := blockOffset / BASE;
      while filterIndex > |filterOffsets|
        invariant Flattened(pending, keys, start)
        invariant result == Filters(policy, groups) && |filterOffsets| == |groups| <= filterIndex
        invariant forall i :: 0 <= i < |groups| ==> filterOffsets[i] == FilterStart(policy, groups, i)
        invariant calls == old(calls) && Grouped(calls, groups, pending)
        decreases filterIndex - |filterOffsets|
      {
        GroupingMovesOn(calls, groups, pending);
        GenerateFilter();
      }
      CallGrouped(calls, FilterCall.StartBlock(blockOffset), groups, pending, pending);
      calls := calls + [FilterCall.StartBlock(blockOffset)];
    }

    method AddKey(key: Bytes)
      requires Valid()
      modifies this
      ensures Valid() && calls == old(calls) + [FilterCall.AddKey(key)]
    {
      AddToBuffer(pending, keys, start, key);
      CallGrouped(calls, FilterCall.AddKey(key), groups, pending, pending + [key]);
      start := start + [|keys|];
      keys := keys + key;
      pending := pending + [key];
      calls := calls + [FilterCall.AddKey(key)];
    }

    /** Finish: the last filter, the offset of every filter, where that list begins, and the
        logarithm of the spacing. */
    method Finish() returns (contents: Bytes)
      requires Valid() && |result| + |policy.create(pending)| < TWO32
      modifies this
      ensures calls == old(calls) && Complete(calls, groups)
      ensures |Filters(policy, groups)| < TWO32 && contents == FilterBlock(policy, groups)
    {
      EndGroups();
      var arrayOffset := |result|;
      AppendOffsets(groups);
      result := result + EncodeFixed32(arrayOffset);
      result := result + [BASE_LG];
      contents := result;
    }

    method EndGroups()
      requires Valid() && |result| + |policy.create(pending)| < TWO32
      modifies this
      ensures calls == old(calls) && Complete(calls, groups) && |result| < TWO32
      ensures result == Filters(policy, groups) && |filterOffsets| == |groups|
      ensures forall i :: 0 <= i < |groups| ==> filterOffsets[i] == FilterStart(policy, groups, i)
    {
      if start != [] {
        GroupingMovesOn(calls, groups, pending);
        GenerateFilter();
      } else {
        assert pending == [];
      }
      NothingPending(calls, groups);
    }

    method AppendOffsets(ghost gs: seq<seq<Bytes>>)
      requires result == Filters(policy, gs) && |filterOffsets| == |gs| && |result| < TWO32
      requires forall i :: 0 <= i < |gs| ==> filterOffsets[i] == FilterStart(policy, gs, i)
      modifies this`result
      ensures result == Filters(policy, gs) + OffsetArray(policy, gs, |gs|)
    {
      var i := 0;
      ghost var filters := result;
      NothingAfter(result);
      while i < |filterOffsets|
        invariant i <= |filterOffsets| && result == filters + OffsetArray(policy, gs, i)
      {
        FilterPlaces(policy, gs, i);
        Assoc(filters, OffsetArray(policy, gs, i), EncodeFixed32(filterOffsets[i]));
        result := result + EncodeFixed32(filterOffsets[i]);
        i := i + 1;
      }
    }
  }

  lemma NothingAfter(a: Bytes)
    ensures a + [] == a
  {
  }

  // ---- The flattened keys ------------------------------------------------------------------

  ghost predicate Flattened(pending: seq<Bytes>, keys: Bytes, start: seq<nat>) {
    keys == Concat(pending) && |start| == |pending|
    && forall i :: 0 <= i < |pending| ==> start[i] == |Concat(pending[..i])|
  }

  lemma {:induction false} ConcatPrefix(ks: seq<Bytes>, i: nat)
    requires i <= |ks|
    ensures Concat(ks[..i]) <= Concat(ks)
    decreases |ks|
  {
    if i < |ks| {
      assert ks[..|ks| - 1][..i] == ks[..i];
      ConcatPrefix(ks[..|ks| - 1], i);
    } else {
      assert ks[..i] == ks;
    }
  }

  lemma KeyInBuffer(pending: seq<Bytes>, keys: Bytes, start: seq<nat>, i: nat)
    requires Flattened(pending, keys, start) && i < |pending|
    ensures var next := if i + 1 < |start| then start[i + 1] else |keys|;
            start[i] <= next <= |keys| && keys[start[i]..next] == pending[i]
  {
    assert pending[..i + 1][..i] == pending[..i];
    ConcatPrefix(pending, i + 1);
    assert Concat(pending[..i + 1]) == Concat(pending[..i]) + pending[i];
    if i + 1 == |pending| { assert pending[..i + 1] == pending; }
  }

  lemma AddToBuffer(pending: seq<Bytes>, keys: Bytes, start: seq<nat>, key: Bytes)
    requires Flattened(pending, keys, start)
    ensures Flattened(pending + [key], keys + key, start + [|keys|])
  {
    var longer := pending + [key];
    assert longer[..|pending|] == pending;
    forall i | 0 <= i < |longer| ensures (start + [|keys|])[i] == |Concat(longer[..i])| {
      assert i < |pending| ==> longer[..i] == pending[..i];
    }
  }

  lemma PushFilter(p: Policy, groups: seq<seq<Bytes>>, keys: seq<Bytes>)
    ensures Filters(p, groups + [keys]) == Filters(p, groups) + FilterBytes(p, keys)
    ensures forall i :: 0 <= i <= |groups| ==> FilterStart(p, groups + [keys], i) == if i < |groups| then FilterStart(p, groups, i) else |Filters(p, groups)|
  {
    var longer := groups + [keys];
    assert longer[..|groups|] == groups;
    forall i | 0 <= i <= |groups| ensures longer[..i] == groups[..i] {
    }
    assert groups[..|groups|] == groups;
  }

  lemma GroupingMovesOn(calls: seq<FilterCall>, groups: seq<seq<Bytes>>, pending: seq<Bytes>)
    requires Grouped(calls, groups, pending)
    ensures Grouped(calls, groups + [pending], [])
  {
    forall i | 0 <= i < |calls| && calls[i].AddKey?
      ensures InGroup(groups + [pending], [], BlockOf(calls, i) / BASE, calls[i].key)
    {
      assert InGroup(groups, pending, BlockOf(calls, i) / BASE, calls[i].key);
    }
  }

  /** One more call, and perhaps one more pending key. */
  lemma CallGrouped(calls: seq<FilterCall>, call: FilterCall, groups: seq<seq<Bytes>>, pending: seq<Bytes>, pending': seq<Bytes>)
    requires Grouped(calls, groups, pending)
    requires if call.AddKey? then pending' == pending + [call.key] && |groups| == BlockOf(calls, |calls|) / BASE else pending' == pending
    ensures Grouped(calls + [call], groups, pending')
    ensures BlockOf(calls + [call], |calls| + 1) == if call.AddKey? then BlockOf(calls, |calls|) else call.offset
  {
    var more := calls + [call];
    BlockOfStays(calls, more, |calls|);
    forall i | 0 <= i < |more| && more[i].AddKey? ensures InGroup(groups, pending', BlockOf(more, i) / BASE, more[i].key) {
      BlockOfStays(calls, more, i);
      assert i < |calls| ==> InGroup(groups, pending, BlockOf(calls, i) / BASE, calls[i].key);
    }
  }

  // ---- The finished block --------------------------------------------------------------------

  /** Every key is in a finished group. */
  ghost predicate Complete(calls: seq<FilterCall>, groups: seq<seq<Bytes>>) {
    forall i :: 0 <= i < |calls| && calls[i].AddKey? ==>
      BlockOf(calls, i) / BASE < |groups| && calls[i].key in groups[BlockOf(calls, i) / BASE]
  }

  lemma NothingPending(calls: seq<FilterCall>, groups: seq<seq<Bytes>>)
    ensures Grouped(calls, groups, []) ==> Complete(calls, groups)
  {
    forall i | Grouped(calls, groups, []) && 0 <= i < |calls| && calls[i].AddKey?
      ensures BlockOf(calls, i) / BASE < |groups| && calls[i].key in groups[BlockOf(calls, i) / BASE]
    {
      assert InGroup(groups, [], BlockOf(calls, i) / BASE, calls[i].key);
    }
  }

  ghost function OffsetArray(p: Policy, groups: seq<seq<Bytes>>, n: nat): (r: Bytes)
    requires n <= |groups| && |Filters(p, groups)| < TWO32
    ensures |r| == 4 * n
  {
    if n == 0 then [] else
      FilterPlaces(p, groups, n - 1);
      OffsetArray(p, groups, n - 1) + EncodeFixed32(FilterStart(p, groups, n - 1))
  }

  ghost function FilterBlock(p: Policy, groups: seq<seq<Bytes>>): Bytes
    requires |Filters(p, groups)| < TWO32
  {
    Filters(p, groups) + OffsetArray(p, groups, |groups|) + EncodeFixed32(|Filters(p, groups)|) + [BASE_LG]
  }

  lemma {:induction false} OffsetStands(p: Policy, groups: seq<seq<Bytes>>, n: nat, i: nat)
    requires i < n <= |groups| && |Filters(p, groups)| < TWO32
    ensures FilterStart(p, groups, i) < TWO32
    ensures OffsetArray(p, groups, n)[4 * i..4 * i + 4] == EncodeFixed32(FilterStart(p, groups, i))
    decreases n
  {
    FilterPlaces(p, groups, n - 1);
    var init, last := OffsetArray(p, groups, n - 1), EncodeFixed32(FilterStart(p, groups, n - 1));
    SliceOfAppend(init, last, 4 * i);
    if i < n - 1 { OffsetStands(p, groups, n - 1, i); }
  }

  // ---- Reading -----------------------------------------------------------------------------

  /** FilterBlockReader on any contents: the filter list's offset and length, None when the
      contents cannot be a filter block. */
  function Layout(contents: Bytes): (r: Option<(nat, nat)>)
    ensures r.Some? ==> |contents| >= 5 && r.value.0 + 4 * r.value.1 <= |contents| - 5
  {
    var n := |contents|;
    if n < 5 then None
    else
      var lastWord := DecodeFixed32(contents[n - 5..]);
      if lastWord > n - 5 then None else Some((lastWord, (n - 5 - lastWord) / 4))
  }

  /** FilterBlockReader::KeyMayMatch, on any contents: errors count as matches. */
  function KeyMayMatch(p: Policy, contents: Bytes, blockOffset: nat, key: Bytes): bool {
    match Layout(contents)
    case None => true
    case Some((offset, num)) =>
      var index := blockOffset / Bloom.Pow2(contents[|contents| - 1]);
      if index >= num then true
      else
        MatchIn(p, contents, offset, OffsetWord(contents, offset, index), OffsetWord(contents, offset, index + 1), key)
  }

  /** The i-th word of the offset list; the one after the last is the list's own offset. */
  function OffsetWord(contents: Bytes, offset: nat, i: nat): nat
    requires offset + 4 * i + 4 <= |contents|
  {
    DecodeFixed32(contents[offset + 4 * i..])
  }

  function MatchIn(p: Policy, contents: Bytes, offset: nat, start: nat, limit: nat, key: Bytes): bool
    requires offset <= |contents|
  {
    if start <= limit && limit <= offset then p.mayMatch(key, contents[start..limit]) else start != limit
  }

  lemma Tail(a: Bytes, b: Bytes, c: Bytes, d: Bytes)
    requires |c| == 4 && |d| == 1
    ensures var s := a + b + c + d; |s| == |a| + |b| + 5 && s[|s| - 5..] == c + d && s[|s| - 1] == d[0]
  {
  }

  lemma Head(a: Bytes, b: Bytes, c: Bytes, d: Bytes, i: nat, j: nat)
    requires i <= j <= |a|
    ensures (a + b + c + d)[i..j] == a[i..j]
  {
  }

  lemma Middle(a: Bytes, b: Bytes, c: Bytes, d: Bytes, i: nat)
    requires i + 4 <= |b|
    ensures var s := a + b + c + d; s[|a| + i..] == b[i..i + 4] + s[|a| + i + 4..]
  {
  }

  lemma LastPart(a: Bytes, b: Bytes, c: Bytes, d: Bytes)
    ensures (a + b + c + d)[|a| + |b|..] == c + d
  {
  }

  lemma LayoutReads(p: Policy, groups: seq<seq<Bytes>>)
    requires |Filters(p, groups)| < TWO32
    ensures |FilterBlock(p, groups)| >= 5 && FilterBlock(p, groups)[|FilterBlock(p, groups)| - 1] == BASE_LG
    ensures Layout(FilterBlock(p, groups)) == Some((|Filters(p, groups)|, |groups|))
  {
    var a, b, c, d := Filters(p, groups), OffsetArray(p, groups, |groups|), EncodeFixed32(|Filters(p, groups)|), [BASE_LG];
    LayoutOfParts(a, b, c, d, |groups|);
  }

  lemma LayoutOfParts(a: Bytes, b: Bytes, c: Bytes, d: Bytes, num: nat)
    requires |a| < TWO32 && c == EncodeFixed32(|a|) && |b| == 4 * num && d == [BASE_LG]
    ensures var contents := a + b + c + d;
            |contents| >= 5 && contents[|contents| - 1] == BASE_LG && Layout(contents) == Some((|a|, num))
  {
    Tail(a, b, c, d);
    Fixed32RoundTrip(|a|, d);
    LayoutFrom(a + b + c + d, |a|, num);
  }

  lemma LayoutFrom(contents: Bytes, at: nat, num: nat)
    requires |contents| == at + 4 * num + 5 && DecodeFixed32(contents[|contents| - 5..]) == at
    ensures Layout(contents) == Some((at, num))
  {
  }

  /** The i-th filter lies between its offset and the next. */
  lemma FilterLies(p: Policy, groups: seq<seq<Bytes>>, g: nat)
    requires |Filters(p, groups)| < TWO32 && g < |groups|
    ensures var contents := FilterBlock(p, groups);
            FilterStart(p, groups, g) <= FilterStart(p, groups, g + 1) <= |Filters(p, groups)| <= |contents|
            && contents[FilterStart(p, groups, g)..FilterStart(p, groups, g + 1)] == FilterBytes(p, groups[g])
  {
    FilterPlaces(p, groups, g);
    Head(Filters(p, groups), OffsetArray(p, groups, |groups|), EncodeFixed32(|Filters(p, groups)|), [BASE_LG],
         FilterStart(p, groups, g), FilterStart(p, groups, g + 1));
  }

  /** Where filter g begins, or where the list of offsets does. */
  lemma OffsetReads(p: Policy, groups: seq<seq<Bytes>>, g: nat)
    requires |Filters(p, groups)| < TWO32 && g <= |groups|
    ensures |Filters(p, groups)| + 4 * g + 4 <= |FilterBlock(p, groups)|
    ensures OffsetWord(FilterBlock(p, groups), |Filters(p, groups)|, g) == FilterStart(p, groups, g)
  {
    var a, b, c, d := Filters(p, groups), OffsetArray(p, groups, |groups|), EncodeFixed32(|Filters(p, groups)|), [BASE_LG];
    if g < |groups| {
      OffsetStands(p, groups, |groups|, g);
      WordInside(a, b, c, d, g, FilterStart(p, groups, g));
    } else {
      LastFilterEnds(p, groups);
      WordAfter(a, b, c, d, g, |a|);
    }
  }

  lemma WordInside(a: Bytes, b: Bytes, c: Bytes, d: Bytes, g: nat, v: nat)
    requires 4 * g + 4 <= |b| && v < TWO32 && b[4 * g..4 * g + 4] == EncodeFixed32(v)
    ensures OffsetWord(a + b + c + d, |a|, g) == v
  {
    Middle(a, b, c, d, 4 * g);
    Fixed32RoundTrip(v, (a + b + c + d)[|a| + 4 * g + 4..]);
  }

  lemma WordAfter(a: Bytes, b: Bytes, c: Bytes, d: Bytes, g: nat, v: nat)
    requires 4 * g == |b| && v < TWO32 && c == EncodeFixed32(v)
    ensures OffsetWord(a + b + c + d, |a|, g) == v
  {
    LastPart(a, b, c, d);
    Fixed32RoundTrip(v, d);
  }

  lemma LastFilterEnds(p: Policy, groups: seq<seq<Bytes>>)
    ensures FilterStart(p, groups, |groups|) == |Filters(p, groups)|
  {
    assert groups[..|groups|] == groups;
  }

  /** The filter block never rules out a key under the offset of the block it was added for. */
  lemma NeverRulesOut(p: Policy, calls: seq<FilterCall>, groups: seq<seq<Bytes>>, i: nat, k: Bytes)
    requires Sound(p) && Complete(calls, groups) && |Filters(p, groups)| < TWO32
    requires i < |calls| && calls[i].AddKey? && p.user(k) == p.user(calls[i].key)
    ensures KeyMayMatch(p, FilterBlock(p, groups), BlockOf(calls, i), k)
  {
    var g := BlockOf(calls, i) / BASE;
    GroupMayMatch(p, groups[g], calls[i].key, k);
    GroupAnswers(p, groups, g, k);
    AnswersAt(p, FilterBlock(p, groups), groups, BlockOf(calls, i), k);
  }

  /** Which filter answers for a block offset. */
  lemma Consults(p: Policy, contents: Bytes, blockOffset: nat, offset: nat, num: nat, g: nat, k: Bytes)
    requires |contents| > 0 && contents[|contents| - 1] == BASE_LG && Layout(contents) == Some((offset, num))
    requires g == blockOffset / BASE < num && offset + 4 * g + 8 <= |contents|
    requires MatchIn(p, contents, offset, OffsetWord(contents, offset, g), OffsetWord(contents, offset, g + 1), k)
    ensures KeyMayMatch(p, contents, blockOffset, k)
  {
    Pow2OfBase();
  }

  /** A filter block, whatever it is made of: where its filters are, and that they answer. */
  ghost predicate Answers(p: Policy, contents: Bytes, groups: seq<seq<Bytes>>, g: nat, k: Bytes) {
    exists offset: nat ::
      && |contents| > 0 && contents[|contents| - 1] == BASE_LG && Layout(contents) == Some((offset, |groups|))
      && offset + 4 * g + 8 <= |contents|
      && MatchIn(p, contents, offset, OffsetWord(contents, offset, g), OffsetWord(contents, offset, g + 1), k)
  }

  lemma GroupAnswers(p: Policy, groups: seq<seq<Bytes>>, g: nat, k: Bytes)
    requires |Filters(p, groups)| < TWO32 && g < |groups| && p.mayMatch(k, p.create(groups[g])) && |groups[g]| > 0
    ensures Answers(p, FilterBlock(p, groups), groups, g, k)
  {
    GroupMatches(p, groups, g, k);
    LayoutReads(p, groups);
  }

  lemma AnswersAt(p: Policy, contents: Bytes, groups: seq<seq<Bytes>>, blockOffset: nat, k: Bytes)
    requires blockOffset / BASE < |groups| && Answers(p, contents, groups, blockOffset / BASE, k)
    ensures KeyMayMatch(p, contents, blockOffset, k)
  {
    var g := blockOffset / BASE;
    var offset: nat :|
      && |contents| > 0 && contents[|contents| - 1] == BASE_LG && Layout(contents) == Some((offset, |groups|))
      && offset + 4 * g + 8 <= |contents|
      && MatchIn(p, contents, offset, OffsetWord(contents, offset, g), OffsetWord(contents, offset, g + 1), k);
    Consults(p, contents, blockOffset, offset, |groups|, g, k);
  }

  lemma GroupMayMatch(p: Policy, keys: seq<Bytes>, key: Bytes, k: Bytes)
    requires Sound(p) && key in keys && p.user(k) == p.user(key)
    ensures p.mayMatch(k, p.create(keys))
  {
    var n :| 0 <= n < |keys| && keys[n] == key;
    SoundMatches(p, keys, n, k);
  }

  lemma GroupMatches(p: Policy, groups: seq<seq<Bytes>>, g: nat, k: Bytes)
    requires |Filters(p, groups)| < TWO32 && g < |groups| && p.mayMatch(k, p.create(groups[g])) && |groups[g]| > 0
    ensures var contents, offset := FilterBlock(p, groups), |Filters(p, groups)|;
            offset + 4 * g + 8 <= |contents|
            && MatchIn(p, contents, offset, OffsetWord(contents, offset, g), OffsetWord(contents, offset, g + 1), k)
  {
    OffsetReads(p, groups, g);
    OffsetReads(p, groups, g + 1);
    FilterLies(p, groups, g);
  }

  lemma SoundMatches(p: Policy, keys: seq<Bytes>, n: nat, k: Bytes)
    requires Sound(p) && n < |keys| && p.user(k) == p.user(keys[n])
    ensures p.mayMatch(k, p.create(keys))
  {
  }

  lemma Pow2OfBase()
    ensures Bloom.Pow2(BASE_LG) == BASE
  {
    Bloom.Pow2Of8();
    assert Bloom.Pow2(11) == 2 * (2 * (2 * Bloom.Pow2(8)));
  }

  /** A filter block finished after any run of StartBlock and AddKey serves Table::InternalGet. */
  lemma ServesTables(p: Policy, calls: seq<FilterCall>, groups: seq<seq<Bytes>>)
    requires Sound(p) && Complete(calls, groups) && |Filters(p, groups)| < TWO32
    ensures NoFalseNegatives(calls, p.user, (o: nat, k: Bytes) => KeyMayMatch(p, FilterBlock(p, groups), o, k))
  {
    var mayMatch := (o: nat, k: Bytes) => KeyMayMatch(p, FilterBlock(p, groups), o, k);
    forall i, k | 0 <= i < |calls| && calls[i].AddKey? && p.user(k) == p.user(calls[i].key)
      ensures mayMatch(BlockOf(calls, i), k)
    {
      NeverRulesOut(p, calls, groups, i, k);
    }
  }

  // ---- Bloom filters as a policy --------------------------------------------------------------

  function Users(user: Bytes -> Bytes, keys: seq<Bytes>): seq<Bytes> {
    seq(|keys|, i requires 0 <= i < |keys| => user(keys[i]))
  }

  /** InternalFilterPolicy over BloomFilterPolicy: filters hold user keys. */
  function BloomPolicy(hash: Bloom.Hash, bitsPerKey: nat, k: Byte, user: Bytes -> Bytes): Policy {
    Policy(keys => Bloom.FilterOf(hash, bitsPerKey, k, Users(user, keys)),
           (key, filter) => Bloom.KeyMayMatch(hash, user(key), filter), user)
  }

  lemma BloomPolicyIsSound(hash: Bloom.Hash, bitsPerKey: nat, k: Byte, user: Bytes -> Bytes)
    requires 1 <= k <= 30
    ensures Sound(BloomPolicy(hash, bitsPerKey, k, user))
  {
    var p := BloomPolicy(hash, bitsPerKey, k, user);
    forall keys, i, key | 0 <= i < |keys| && p.user(key) == p.user(keys[i]) ensures p.mayMatch(key, p.create(keys)) {
      Bloom.NoFalseNegatives(hash, bitsPerKey, k, Users(user, keys), i);
    }
  }
}
