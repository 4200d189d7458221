/** A table from beginning to end (table/table_builder.cc, table/table.cc): pairs are added, the
    file is finished with a filter block, opened again, scanned and searched. */
module TableFiles {
  import opened Coding
  import opened Blocks
  import opened BlockReading
  import opened TableFormat
  import opened TableBuilding
  import opened TableReading
  import opened InternalTables
  import FilterBlocks
  import Bloom

  /** A filter policy and its name. */
  datatype NamedPolicy = NamedPolicy(name: Bytes, policy: FilterBlocks.Policy)

  function FilterOf(p: FilterBlocks.Policy, contents: Bytes): Filter {
    (o: nat, k: Bytes) => FilterBlocks.KeyMayMatch(p, contents, o, k)
  }

  /** The most that adding these pairs can bring into the file and the blocks in memory. */
  function Cost(pairs: seq<Pair>): nat {
    if pairs == [] then 0
    else
      var last := pairs[|pairs| - 1];
      Cost(pairs[..|pairs| - 1]) + 2 * |last.key| + |last.value| + 71
  }

  lemma {:induction false} CostGrows(pairs: seq<Pair>, n: nat)
    requires n < |pairs|
    ensures Cost(pairs[..n + 1]) == Cost(pairs[..n]) + 2 * |pairs[n].key| + |pairs[n].value| + 71
    ensures Cost(pairs[..n + 1]) <= Cost(pairs)
    decreases |pairs|
  {
    assert pairs[..n + 1][..n] == pairs[..n];
    if n + 1 < |pairs| {
      var init := pairs[..|pairs| - 1];
      CostGrows(init, n);
      assert init[..n + 1] == pairs[..n + 1];
    } else {
      assert pairs[..n + 1] == pairs;
    }
  }

  // ---- Writing ---------------------------------------------------------------------------------

  /** All pairs, and the last block flushed. */
  method BuildTable(cmp: Comparator, crc: BlockChecksum, blockSize: nat, interval: nat, pairs: seq<Pair>) returns (b: TableBuilder)
    requires Shortens(cmp) && interval >= 1 && Ascending(cmp.order, pairs) && Cost(pairs) + 16 < TWO32
    ensures fresh(b) && fresh(b.dataBlock) && fresh(b.indexBlock) && b.Valid() && b.cmp == cmp && b.crc == crc
    ensures b.Added() == pairs && b.Load() <= 29 + Cost(pairs) && b.dataBlock.pairs == []
  {
    b := new TableBuilder(cmp, crc, blockSize, interval);
    AddAll(b, pairs);
    b.Flush();
  }

  method AddAll(b: TableBuilder, pairs: seq<Pair>)
    requires b.Valid() && b.Added() == [] && b.Load() == 16 && Ascending(b.cmp.order, pairs) && Cost(pairs) + 16 < TWO32
    modifies b, b.dataBlock, b.indexBlock
    ensures b.Valid() && b.Added() == pairs && b.Load() <= 16 + Cost(pairs)
  {
    var i := 0;
    while i < |pairs|
      invariant i <= |pairs| && b.Valid() && b.Added() == pairs[..i] && b.Load() <= 16 + Cost(pairs[..i])
    {
      AddNext(b, pairs, i);
      i := i + 1;
    }
    assert pairs[..i] == pairs;
  }

  method AddNext(b: TableBuilder, pairs: seq<Pair>, i: nat)
    requires i < |pairs| && Ascending(b.cmp.order, pairs) && Cost(pairs) + 16 < TWO32
    requires b.Valid() && b.Added() == pairs[..i] && b.Load() <= 16 + Cost(pairs[..i])
    modifies b, b.dataBlock, b.indexBlock
    ensures b.Valid() && b.Added() == pairs[..i + 1] && b.Load() <= 16 + Cost(pairs[..i + 1])
  {
    CostGrows(pairs, i);
    TakeOneMore(pairs, i);
    assert i > 0 ==> LastKeyOf(pairs[..i]) == pairs[i - 1].key;
    assert pairs[i] == Pair(pairs[i].key, pairs[i].value);
    b.Add(pairs[i].key, pairs[i].value);
  }

  /** The filter block for what the table builder said; none if it would not fit 32-bit offsets. */
  method BuildFilter(policy: FilterBlocks.Policy, calls: seq<FilterCall>) returns (contents: Option<Bytes>)
    requires FilterBlocks.Sound(policy) && Growing(calls)
    ensures contents.Some? ==> NoFalseNegatives(calls, policy.user, FilterOf(policy, contents.value)) && |contents.value| < TWO32
  {
    var f := new FilterBlocks.FilterBlockBuilder(policy);
    var i := 0;
    while i < |calls|
      invariant i <= |calls| && fresh(f) && f.Valid() && f.policy == policy && f.calls == calls[..i]
    {
      TakeOneMore(calls, i);
      BlockOfStays(calls[..i], calls, i);
      match calls[i] {
        case StartBlock(offset) => f.StartBlock(offset);
        case AddKey(key) => f.AddKey(key);
      }
      i := i + 1;
    }
    assert calls[..i] == calls;
    var last := f.SplitKeys();
    if |f.result| + |policy.create(last)| >= TWO32 {
      return None;
    }
    var bytes := f.Finish();
    Serves(policy, calls, f.groups);
    return if |bytes| < TWO32 then Some(bytes) else None;
  }

  lemma Serves(policy: FilterBlocks.Policy, calls: seq<FilterCall>, groups: seq<seq<Bytes>>)
    requires FilterBlocks.Sound(policy) && FilterBlocks.Complete(calls, groups) && |FilterBlocks.Filters(policy, groups)| < TWO32
    ensures NoFalseNegatives(calls, policy.user, FilterOf(policy, FilterBlocks.FilterBlock(policy, groups)))
  {
    forall i, k | 0 <= i < |calls| && calls[i].AddKey? && policy.user(k) == policy.user(calls[i].key)
      ensures FilterOf(policy, FilterBlocks.FilterBlock(policy, groups))(BlockOf(calls, i), k)
    {
      FilterBlocks.NeverRulesOut(policy, calls, groups, i, k);
    }
  }

  // ---- Reading ---------------------------------------------------------------------------------

  /** Open, ReadMeta and ReadFilter on a finished table. The filter is used if one was written
      under the name of the reader's policy. */
  method OpenTable(cmp: Comparator, crc: BlockChecksum, file: Bytes, verify: bool, bytewise: Order, policy: Option<NamedPolicy>,
                   ghost shape: Shape, ghost meta: Meta, ghost written: Option<NamedFilter>, ghost calls: seq<FilterCall>)
    returns (t: Table)
    requires IsTable(cmp, crc, file, shape) && HasMeta(crc, file, shape.footer.metaindex, meta, written)
    requires AllTold(calls, shape.blocks)
    requires policy.Some? && written.Some? && written.value.name == policy.value.name ==>
               NoFalseNegatives(calls, cmp.user, FilterOf(policy.value.policy, written.value.contents))
    ensures t.Valid() && t.cmp == cmp && t.shape == shape
    ensures t.filter.Some? <==> policy.Some? && written.Some? && written.value.name == policy.value.name
  {
    var index, metaindex := Open(crc, file, verify, cmp, shape);
    var filter: Option<Filter> := None;
    if policy.Some? {
      var contents := ReadMeta(crc, file, verify, metaindex, bytewise, policy.value.name, meta, written);
      if contents.Some? {
        filter := Some(FilterOf(policy.value.policy, contents.value));
      }
    }
    t := new Table(cmp, crc, file, verify, index.value, filter, shape, calls);
  }

  /** What a lookup may answer: the first pair at or after k whenever it has k's user key, and
      never any other pair. */
  ghost predicate GetIsRight(c: Comparator, pairs: seq<Pair>, k: Bytes, r: Option<Pair>) {
    exists f: nat :: IsLowerBound(c.order, pairs, k, f) && (r.Some? ==> f < |pairs| && r.value == pairs[f])
                     && (f < |pairs| && c.user(pairs[f].key) == c.user(k) ==> r == Some(pairs[f]))
  }

  /** A key that was added is found. */
  lemma AddedIsFound(c: Comparator, pairs: seq<Pair>, i: nat, r: Option<Pair>)
    requires Ascending(c.order, pairs) && i < |pairs| && GetIsRight(c, pairs, pairs[i].key, r)
    ensures r == Some(pairs[i])
  {
    var f: nat :| IsLowerBound(c.order, pairs, pairs[i].key, f) && (r.Some? ==> f < |pairs| && r.value == pairs[f])
                  && (f < |pairs| && c.user(pairs[f].key) == c.user(pairs[i].key) ==> r == Some(pairs[f]));
    assert IsLowerBound(c.order, pairs, pairs[i].key, i);
    LowerBoundUnique(c.order, pairs, pairs[i].key, f, i);
  }

  method GetAll(t: Table, keys: seq<Bytes>) returns (got: seq<Option<Pair>>)
    requires t.Valid()
    ensures |got| == |keys| && forall j :: 0 <= j < |keys| ==> GetIsRight(t.cmp, Flat(t.shape.blocks), keys[j], got[j])
  {
    got := [];
    while |got| < |keys|
      invariant |got| <= |keys| && forall j :: 0 <= j < |got| ==> GetIsRight(t.cmp, Flat(t.shape.blocks), keys[j], got[j])
    {
      var r := GetOne(t, keys[|got|]);
      got := got + [r];
    }
  }

  method GetOne(t: Table, k: Bytes) returns (r: Option<Pair>)
    requires t.Valid()
    ensures GetIsRight(t.cmp, Flat(t.shape.blocks), k, r)
  {
    ghost var f;
    r, f := t.InternalGet(k);
    assert t.Answers(k, f, r);
  }

  /** The finished file. The filter block is made of what the builder said once the last block is
      flushed, as in Finish. */
  method BuildFile(cmp: Comparator, crc: BlockChecksum, blockSize: nat, interval: nat, policy: Option<NamedPolicy>, pairs: seq<Pair>)
    returns (file: Bytes, ghost shape: Shape, ghost meta: Meta, ghost written: Option<NamedFilter>, ghost calls: seq<FilterCall>)
    requires Shortens(cmp) && interval >= 1 && Ascending(cmp.order, pairs) && Cost(pairs) + 100 < TWO32
    requires policy.Some? ==> FilterBlocks.Sound(policy.value.policy) && |policy.value.name| + 60 < TWO32
    ensures IsTable(cmp, crc, file, shape) && Flat(shape.blocks) == pairs && AllTold(calls, shape.blocks)
    ensures HasMeta(crc, file, shape.footer.metaindex, meta, written)
    ensures written.Some? ==> policy.Some? && written.value.name == policy.value.name
                              && NoFalseNegatives(calls, policy.value.policy.user, FilterOf(policy.value.policy, written.value.contents))
  {
    var builder := BuildTable(cmp, crc, blockSize, interval, pairs);
    calls := builder.calls;
    var filter := NameFilter(policy, builder.calls);
    written := filter;
    file, shape, meta := builder.Finish(filter);
  }

  method NameFilter(policy: Option<NamedPolicy>, calls: seq<FilterCall>) returns (filter: Option<NamedFilter>)
    requires Growing(calls) && (policy.Some? ==> FilterBlocks.Sound(policy.value.policy))
    ensures filter.Some? ==> policy.Some? && filter.value.name == policy.value.name && |filter.value.contents| < TWO32
                             && NoFalseNegatives(calls, policy.value.policy.user, FilterOf(policy.value.policy, filter.value.contents))
  {
    filter := None;
    if policy.Some? {
      var contents := BuildFilter(policy.value.policy, calls);
      if contents.Some? { filter := Some(NamedFilter(policy.value.name, contents.value)); }
    }
  }

  /** A finished table, opened again with the same policy, hands back every pair in order when
      scanned, and answers every lookup, whether or not there is a filter block. */
  method BuildAndRead(cmp: Comparator, crc: BlockChecksum, blockSize: nat, interval: nat, verify: bool, bytewise: Order,
                      policy: Option<NamedPolicy>, pairs: seq<Pair>, keys: seq<Bytes>)
    returns (scanned: seq<Pair>, got: seq<Option<Pair>>)
    requires Shortens(cmp) && interval >= 1 && Ascending(cmp.order, pairs) && Cost(pairs) + 100 < TWO32
    requires policy.Some? ==> FilterBlocks.Sound(policy.value.policy) && policy.value.policy.user == cmp.user
                              && |policy.value.name| + 60 < TWO32
    ensures scanned == pairs && |got| == |keys|
    ensures forall j :: 0 <= j < |keys| ==> GetIsRight(cmp, pairs, keys[j], got[j])
  {
    var file; ghost var shape, meta, written, calls;
    file, shape, meta, written, calls := BuildFile(cmp, crc, blockSize, interval, policy, pairs);
    var t := OpenTable(cmp, crc, file, verify, bytewise, policy, shape, meta, written, calls);
    scanned := ScanAll(t);
    got := GetAll(t, keys);
  }

  /** LevelDB's own tables, with Bloom filters on user keys: every internal key that was added is
      found, and the scan is what was added. */
  method BuildAndReadInternal(hash: Bloom.Hash, bitsPerKey: nat, k: Byte, name: Bytes, crc: BlockChecksum, blockSize: nat, interval: nat,
                              verify: bool, bytewise: Order, pairs: seq<Pair>)
    returns (scanned: seq<Pair>, got: seq<Option<Pair>>)
    requires 1 <= k <= 30 && interval >= 1 && |name| + 60 < TWO32
    requires Ascending(InternalComparator().order, pairs) && Cost(pairs) + 100 < TWO32
    ensures scanned == pairs && |got| == |pairs| && forall i :: 0 <= i < |pairs| ==> got[i] == Some(pairs[i])
  {
    var policy := FilterBlocks.BloomPolicy(hash, bitsPerKey, k, UserPart);
    InternalComparatorShortens();
    FilterBlocks.BloomPolicyIsSound(hash, bitsPerKey, k, UserPart);
    var keys := seq(|pairs|, i requires 0 <= i < |pairs| => pairs[i].key);
    scanned, got := BuildAndRead(InternalComparator(), crc, blockSize, interval, verify, bytewise, Some(NamedPolicy(name, policy)), pairs, keys);
    forall i | 0 <= i < |pairs| ensures got[i] == Some(pairs[i]) {
      assert keys[i] == pairs[i].key;
      AddedIsFound(InternalComparator(), pairs, i, got[i]);
    }
  }
}
