/** Reading table files (table/table.cc, table/two_level_iterator.cc). */
module TableReading {
  import opened Coding
  import opened Blocks
  import opened BlockReading
  import opened TableFormat
  import opened TableBuilding

  // ---- Order across blocks ------------------------------------------------------------------

  lemma BlockAscends(order: Order, ds: seq<DataBlock>, b: nat)
    requires Ascending(order, Flat(ds)) && b < |ds|
    ensures Ascending(order, ds[b].pairs)
  {
    forall i, j | 0 <= i < j < |ds[b].pairs| ensures order(ds[b].pairs[i].key) < order(ds[b].pairs[j].key) {
      FlatAt(ds, b, i);
      FlatAt(ds, b, j);
    }
  }

  lemma AcrossBlocks(order: Order, ds: seq<DataBlock>, b: nat, i: nat, c: nat, j: nat)
    requires Ascending(order, Flat(ds)) && b < c < |ds| && i < |ds[b].pairs| && j < |ds[c].pairs|
    ensures order(ds[b].pairs[i].key) < order(ds[c].pairs[j].key)
  {
    FlatAt(ds, b, i);
    FlatAt(ds, c, j);
    StartNext(ds, b);
    StartsAscend(ds, b + 1, c);
  }

  lemma IndexAt(c: Comparator, crc: BlockChecksum, file: Bytes, t: Shape, i: nat)
    requires IsTable(c, crc, file, t) && i < |t.blocks|
    ensures |t.blocks[i].pairs| > 0 && t.index[i].value == EncodeHandle(t.blocks[i].handle)
    ensures c.order(LastKeyOf(t.blocks[i].pairs)) <= c.order(t.index[i].key)
    ensures i + 1 < |t.blocks| ==>
              |t.blocks[i + 1].pairs| > 0
              && Between(c, LastKeyOf(t.blocks[i].pairs), t.index[i].key, t.blocks[i + 1].pairs[0].key)
  {
    assert IndexEntryOk(c, t.blocks, None, t.index, i);
  }

  lemma IndexAscends(c: Comparator, crc: BlockChecksum, file: Bytes, t: Shape)
    requires IsTable(c, crc, file, t)
    ensures Ascending(c.order, t.index)
  {
    forall i, j | 0 <= i < j < |t.index| ensures c.order(t.index[i].key) < c.order(t.index[j].key) {
      IndexAt(c, crc, file, t, i);
      IndexAt(c, crc, file, t, j);
      var last := |t.blocks[j].pairs| - 1;
      if i + 1 < j {
        AcrossBlocks(c.order, t.blocks, i + 1, 0, j, last);
      } else if last > 0 {
        BlockAscends(c.order, t.blocks, j);
      }
    }
  }

  /** Keys of a block lie at or before its index key, and after the index key of any earlier
      block. */
  lemma KeyAgainstIndex(c: Comparator, crc: BlockChecksum, file: Bytes, t: Shape, b: nat, j: nat, i: nat)
    requires IsTable(c, crc, file, t) && b < |t.blocks| && j < |t.blocks[b].pairs| && i < |t.blocks|
    ensures b <= i ==> c.order(t.blocks[b].pairs[j].key) <= c.order(t.index[i].key)
    ensures i < b ==> c.order(t.index[i].key) < c.order(t.blocks[b].pairs[j].key)
  {
    var order := c.order;
    IndexAt(c, crc, file, t, i);
    var last := |t.blocks[i].pairs| - 1;
    if b < i {
      AcrossBlocks(order, t.blocks, b, j, i, last);
    } else if b == i {
      BlockAscends(order, t.blocks, b);
    } else if i + 1 < b {
      AcrossBlocks(order, t.blocks, i + 1, 0, b, j);
    } else {
      BlockAscends(order, t.blocks, b);
    }
  }

  /** Every place in the row is in one block. */
  lemma {:induction false} PlaceOf(ds: seq<DataBlock>, f: nat) returns (b: nat, j: nat)
    requires f < |Flat(ds)|
    ensures b < |ds| && j < |ds[b].pairs| && Start(ds, b) + j == f && Flat(ds)[f] == ds[b].pairs[j]
    decreases |ds|
  {
    var init := ds[..|ds| - 1];
    if f < |Flat(init)| {
      b, j := PlaceOf(init, f);
      assert init[..b] == ds[..b];
    } else {
      b, j := |ds| - 1, f - |Flat(init)|;
    }
    FlatAt(ds, b, j);
  }

  /** Where a search by index key and then within the block ends is the place a search of the
      whole row would end. */
  lemma LandsRight(c: Comparator, crc: BlockChecksum, file: Bytes, t: Shape, k: Bytes, i: nat, j: nat)
    requires IsTable(c, crc, file, t) && IsLowerBound(c.order, t.index, k, i)
    requires if i < |t.blocks| then IsLowerBound(c.order, t.blocks[i].pairs, k, j) else j == 0
    ensures Start(t.blocks, i) + j <= |Flat(t.blocks)| && IsLowerBound(c.order, Flat(t.blocks), k, Start(t.blocks, i) + j)
  {
    var flat, order := Flat(t.blocks), c.order;
    StartsAscend(t.blocks, i, |t.blocks|);
    if i < |t.blocks| {
      StartNext(t.blocks, i);
      StartsAscend(t.blocks, i + 1, |t.blocks|);
    }
    forall f | 0 <= f < |flat| ensures if f < Start(t.blocks, i) + j then order(flat[f].key) < order(k) else order(k) <= order(flat[f].key) {
      var b, n := PlaceOf(t.blocks, f);
      KeyAgainstLanding(c, crc, file, t, k, i, b, n);
      PlaceAgainst(t.blocks, i, j, b, n);
    }
  }

  lemma PlaceAgainst(ds: seq<DataBlock>, i: nat, j: nat, b: nat, n: nat)
    requires i <= |ds| && (if i < |ds| then j <= |ds[i].pairs| else j == 0) && b < |ds| && n < |ds[b].pairs|
    ensures Start(ds, b) + n < Start(ds, i) + j <==> b < i || (b == i && n < j)
  {
    if b < i {
      StartNext(ds, b);
      StartsAscend(ds, b + 1, i);
    } else if i < b {
      StartNext(ds, i);
      StartsAscend(ds, i + 1, b);
    }
  }

  lemma KeyAgainstLanding(c: Comparator, crc: BlockChecksum, file: Bytes, t: Shape, k: Bytes, i: nat, b: nat, n: nat)
    requires IsTable(c, crc, file, t) && IsLowerBound(c.order, t.index, k, i) && b < |t.blocks| && n < |t.blocks[b].pairs|
    ensures b < i ==> c.order(t.blocks[b].pairs[n].key) < c.order(k)
    ensures i < b ==> c.order(k) < c.order(t.blocks[b].pairs[n].key)
  {
    if b < i {
      KeyAgainstIndex(c, crc, file, t, b, n, b);
    } else if i < b {
      KeyAgainstIndex(c, crc, file, t, b, n, i);
    }
  }

  /** When the search runs off the end of the block, the entry that follows belongs to another
      user key: that is what the index keys are chosen for. */
  lemma PastBlockIsAnotherUser(c: Comparator, crc: BlockChecksum, file: Bytes, t: Shape, k: Bytes, i: nat)
    requires IsTable(c, crc, file, t) && IsLowerBound(c.order, t.index, k, i) && i < |t.blocks|
    requires IsLowerBound(c.order, t.blocks[i].pairs, k, |t.blocks[i].pairs|)
    ensures var f := Start(t.blocks, i) + |t.blocks[i].pairs|;
            f < |Flat(t.blocks)| ==> c.user(Flat(t.blocks)[f].key) != c.user(k)
  {
    StartNext(t.blocks, i);
    if i + 1 < |t.blocks| {
      IndexAt(c, crc, file, t, i);
      FlatAt(t.blocks, i + 1, 0);
      BetweenIsAnotherUser(c, LastKeyOf(t.blocks[i].pairs), t.index[i].key, t.blocks[i + 1].pairs[0].key, k);
    } else {
      RowEnds(t.blocks);
    }
  }

  lemma BetweenIsAnotherUser(c: Comparator, last: Bytes, sep: Bytes, next: Bytes, k: Bytes)
    requires Between(c, last, sep, next) && c.order(last) < c.order(k) <= c.order(sep)
    ensures c.user(k) != c.user(next)
  {
  }

  // ---- An open table ---------------------------------------------------------------------------

  type Filter = (nat, Bytes) -> bool

  /** Table::Open: the footer at the end of the file leads to the index block and the metaindex
      block. On any file this either fails or yields a block; on a table it yields its index. */
  method Open(crc: BlockChecksum, file: Bytes, verify: bool, ghost c: Comparator, ghost t: Shape)
    returns (index: Option<Bytes>, metaindex: Handle)
    ensures IsTable(c, crc, file, t) ==> index == Some(BlockBytes(t.index, t.indexStarts)) && metaindex == t.footer.metaindex
  {
    if |file| < FOOTER {
      return None, Handle(0, 0);
    }
    if IsTable(c, crc, file, t) {
      FooterRoundTrip(t.footer);
      ReadsBack(crc, file, verify, t.footer.index, BlockBytes(t.index, t.indexStarts));
    }
    var footer := DecodeFooter(file[|file| - FOOTER..]);
    if footer.None? {
      return None, Handle(0, 0);
    }
    return ReadBlock(crc, file, verify, footer.value.index), footer.value.metaindex;
  }

  /** ReadMeta: the metaindex block names the filter block, if one was written under this name. */
  method ReadMeta(crc: BlockChecksum, file: Bytes, verify: bool, metaindex: Handle, bytewise: Order, name: Bytes,
                  ghost m: Meta, ghost written: Option<NamedFilter>) returns (filter: Option<Bytes>)
    requires HasMeta(crc, file, metaindex, m, written)
    ensures filter == if written.Some? && written.value.name == name then Some(written.value.contents) else None
  {
    ReadsBack(crc, file, verify, metaindex, BlockBytes(m.pairs, m.starts));
    var contents := ReadBlock(crc, file, verify, metaindex);
    if contents.None? {
      assert false;
    }
    BuiltIsLaidOut(m.pairs, m.starts);
    var iter := new Iter(bytewise, contents.value, PlanOf(m.pairs, m.starts));
    var found; ghost var at;
    found, at := SeekAndShow(iter, FilterKey(name));
    SameFilterKey(written, name);
    filter := None;
    if found.Some? && found.value.key == FilterKey(name) {
      filter := ReadFilter(crc, file, verify, found.value.value, m.handle, written.value.contents);
    }
  }

  /** ReadFilter: from the metaindex value to the filter block. */
  method ReadFilter(crc: BlockChecksum, file: Bytes, verify: bool, value: Bytes, ghost h: Handle, ghost contents: Bytes)
    returns (filter: Option<Bytes>)
    requires Encodable(h) && value == EncodeHandle(h) && Holds(crc, file, h, contents)
    ensures filter == Some(contents)
  {
    HandleAlone(h);
    ReadsBack(crc, file, verify, h, contents);
    var handle := DecodeHandle(value);
    if handle.None? {
      assert false;
    }
    return ReadBlock(crc, file, verify, handle.value.0);
  }

  lemma SameFilterKey(written: Option<NamedFilter>, name: Bytes)
    ensures written.Some? && FilterKey(written.value.name) == FilterKey(name) ==> written.value.name == name
  {
    if written.Some? {
      assert FilterKey(written.value.name)[7..] == written.value.name && FilterKey(name)[7..] == name;
    }
  }

  class Table {
    const cmp: Comparator
    const crc: BlockChecksum
    const file: Bytes
    const verify: bool
    const indexBlock: Bytes
    const filter: Option<Filter>
    ghost const shape: Shape
    ghost const calls: seq<FilterCall>

    ghost predicate Valid() {
      && IsTable(cmp, crc, file, shape) && indexBlock == BlockBytes(shape.index, shape.indexStarts)
      && AllTold(calls, shape.blocks) && (filter.Some? ==> NoFalseNegatives(calls, cmp.user, filter.value))
    }

    constructor (cmp: Comparator, crc: BlockChecksum, file: Bytes, verify: bool, indexBlock: Bytes, filter: Option<Filter>,
                 ghost shape: Shape, ghost calls: seq<FilterCall>)
      requires IsTable(cmp, crc, file, shape) && indexBlock == BlockBytes(shape.index, shape.indexStarts)
      requires AllTold(calls, shape.blocks) && (filter.Some? ==> NoFalseNegatives(calls, cmp.user, filter.value))
      ensures Valid() && this.cmp == cmp && this.shape == shape && this.filter == filter
    {
      this.cmp, this.crc, this.file, this.verify, this.indexBlock, this.filter := cmp, crc, file, verify, indexBlock, filter;
      this.shape, this.calls := shape, calls;
    }

    method NewIndexIter() returns (it: Iter)
      requires Valid()
      ensures fresh(it) && it.Valid() && it.order == cmp.order && it.plan.pairs == shape.index && it.index == |shape.index|
      ensures Ascending(cmp.order, shape.index)
    {
      IndexAscends(cmp, crc, file, shape);
      BuiltIsLaidOut(shape.index, shape.indexStarts);
      it := new Iter(cmp.order, indexBlock, PlanOf(shape.index, shape.indexStarts));
    }

    /** BlockReader: from an index value to an iterator over the block it points at. */
    method BlockReader(value: Bytes, ghost b: nat) returns (it: Iter)
      requires Valid() && b < |shape.blocks| && value == EncodeHandle(shape.blocks[b].handle)
      ensures fresh(it) && it.Valid() && it.order == cmp.order && it.plan.pairs == shape.blocks[b].pairs
      ensures it.index == |shape.blocks[b].pairs| && Ascending(cmp.order, shape.blocks[b].pairs)
    {
      ghost var d := shape.blocks[b];
      assert Stored(crc, file, d);
      HandleAlone(d.handle);
      ReadsBack(crc, file, verify, d.handle, BlockBytes(d.pairs, d.starts));
      BuiltIsLaidOut(d.pairs, d.starts);
      BlockAscends(cmp.order, shape.blocks, b);
      var decoded := DecodeHandle(value);
      if decoded.None? {
        assert false;
      }
      var contents := ReadBlock(crc, file, verify, decoded.value.0);
      if contents.None? {
        assert false;
      }
      it := new Iter(cmp.order, contents.value, PlanOf(d.pairs, d.starts));
    }

    /** A filter that has been told of the block's keys does not rule out their user keys. */
    lemma FilterLetsThrough(k: Bytes, b: nat, j: nat)
      requires Valid() && filter.Some? && b < |shape.blocks| && j < |shape.blocks[b].pairs|
      requires cmp.user(k) == cmp.user(shape.blocks[b].pairs[j].key)
      ensures filter.value(shape.blocks[b].handle.offset, k)
    {
      var key, offset := shape.blocks[b].pairs[j].key, shape.blocks[b].handle.offset;
      assert Told(calls, shape.blocks[b].pairs, offset) && ToldKey(calls, key, offset);
      var i :| 0 <= i < |calls| && calls[i] == AddKey(key) && BlockOf(calls, i) == offset;
      assert calls[i].key == key;
    }

    /** The entry at place f, the first at or after k, can be of k's user key only if the search
        found it. */
    lemma MissedIsAnotherUser(k: Bytes, i: nat, j: nat)
      requires Valid() && i < |shape.blocks| && IsLowerBound(cmp.order, shape.index, k, i)
      requires IsLowerBound(cmp.order, shape.blocks[i].pairs, k, j)
      requires j == |shape.blocks[i].pairs| || (filter.Some? && !filter.value(shape.blocks[i].handle.offset, k))
      ensures var f := Start(shape.blocks, i) + j;
              f < |Flat(shape.blocks)| ==> cmp.user(Flat(shape.blocks)[f].key) != cmp.user(k)
    {
      if j == |shape.blocks[i].pairs| {
        PastBlockIsAnotherUser(cmp, crc, file, shape, k, i);
      } else {
        FilteredIsAnotherUser(k, i, j);
      }
    }

    lemma FilteredIsAnotherUser(k: Bytes, i: nat, j: nat)
      requires Valid() && i < |shape.blocks| && j < |shape.blocks[i].pairs|
      requires filter.Some? && !filter.value(shape.blocks[i].handle.offset, k)
      ensures var f := Start(shape.blocks, i) + j;
              f < |Flat(shape.blocks)| && cmp.user(Flat(shape.blocks)[f].key) != cmp.user(k)
    {
      FlatAt(shape.blocks, i, j);
      if cmp.user(k) == cmp.user(shape.blocks[i].pairs[j].key) { FilterLetsThrough(k, i, j); }
    }

    /** InternalGet: reports the first entry at or after k whenever that entry has k's user key,
        and never reports any other entry. */
    method InternalGet(k: Bytes) returns (r: Option<Pair>, ghost f: nat)
      requires Valid()
      ensures Answers(k, f, r)
    {
      var iiter := NewIndexIter();
      iiter.Seek(k);
      iiter.HasKeyIffInside();
      ghost var i := iiter.index;
      if !iiter.HasKey() {
        LandsRight(cmp, crc, file, shape, k, i, 0);
        RowEnds(shape.blocks);
        return None, Start(shape.blocks, i);
      }
      IndexAt(cmp, crc, file, shape, i);
      r, f := LookIn(iiter.Value(), k, i);
    }

    /** What InternalGet may answer when the first entry at or after k is at place f. */
    ghost predicate Answers(k: Bytes, f: nat, r: Option<Pair>) {
      && IsLowerBound(cmp.order, Flat(shape.blocks), k, f)
      && (r.Some? ==> f < |Flat(shape.blocks)| && r.value == Flat(shape.blocks)[f])
      && (f < |Flat(shape.blocks)| && cmp.user(Flat(shape.blocks)[f].key) == cmp.user(k) ==> r == Some(Flat(shape.blocks)[f]))
    }

    method LookIn(value: Bytes, k: Bytes, ghost i: nat) returns (r: Option<Pair>, ghost f: nat)
      requires Valid() && i < |shape.blocks| && IsLowerBound(cmp.order, shape.index, k, i)
      requires value == EncodeHandle(shape.blocks[i].handle)
      ensures Answers(k, f, r)
    {
      assert Stored(crc, file, shape.blocks[i]);
      HandleAlone(shape.blocks[i].handle);
      var handle := DecodeHandle(value);
      if filter.Some? && handle.Some? && !filter.value(handle.value.0.offset, k) {
        f := RuledOut(k, i);
        return None, f;
      }
      r, f := ReadIn(value, k, i);
    }

    lemma RuledOut(k: Bytes, i: nat) returns (f: nat)
      requires Valid() && i < |shape.blocks| && IsLowerBound(cmp.order, shape.index, k, i)
      requires filter.Some? && !filter.value(shape.blocks[i].handle.offset, k)
      ensures Answers(k, f, None)
    {
      BlockAscends(cmp.order, shape.blocks, i);
      var j := LowerBoundExists(cmp.order, shape.blocks[i].pairs, k);
      LandsRight(cmp, crc, file, shape, k, i, j);
      MissedIsAnotherUser(k, i, j);
      f := Start(shape.blocks, i) + j;
    }

    lemma SearchEnds(k: Bytes, i: nat, j: nat)
      requires Valid() && i < |shape.blocks| && IsLowerBound(cmp.order, shape.index, k, i)
      requires IsLowerBound(cmp.order, shape.blocks[i].pairs, k, j)
      ensures Answers(k, Start(shape.blocks, i) + j, ShownAt(shape.blocks[i].pairs, j))
    {
      LandsRight(cmp, crc, file, shape, k, i, j);
      if j < |shape.blocks[i].pairs| { FlatAt(shape.blocks, i, j); } else { MissedIsAnotherUser(k, i, j); }
    }

    method ReadIn(value: Bytes, k: Bytes, ghost i: nat) returns (r: Option<Pair>, ghost f: nat)
      requires Valid() && i < |shape.blocks| && IsLowerBound(cmp.order, shape.index, k, i)
      requires value == EncodeHandle(shape.blocks[i].handle)
      ensures Answers(k, f, r)
    {
      var blockIter := BlockReader(value, i);
      ghost var j;
      r, j := SeekAndShow(blockIter, k);
      SearchEnds(k, i, j);
      f := Start(shape.blocks, i) + j;
    }
  }

  lemma {:induction false} LowerBoundExists(order: Order, pairs: seq<Pair>, k: Bytes) returns (j: nat)
    requires Ascending(order, pairs)
    ensures IsLowerBound(order, pairs, k, j)
    decreases |pairs|
  {
    if |pairs| == 0 || order(pairs[|pairs| - 1].key) < order(k) {
      j := |pairs|;
    } else {
      var init := pairs[..|pairs| - 1];
      assert Ascending(order, init);
      j := LowerBoundExists(order, init, k);
    }
  }

  lemma RowEnds(ds: seq<DataBlock>)
    ensures Start(ds, |ds|) == |Flat(ds)|
  {
    assert ds[..|ds|] == ds;
  }

  lemma HandleAlone(h: Handle)
    requires Encodable(h)
    ensures DecodeHandle(EncodeHandle(h)) == Some((h, []))
  {
    HandleRoundTrip(h, []);
    assert EncodeHandle(h) + [] == EncodeHandle(h);
  }

  // ---- TwoLevelIterator ---------------------------------------------------------------------

  /** An iterator over the index, and one over the block it points at. Together they are an
      index into the row of all pairs. */
  class TwoLevelIterator {
    const table: Table
    const indexIter: Iter
    var dataIter: Iter?
    var dataBlockHandle: Bytes
    ghost var loaded: nat         // the block dataIter is over
    ghost var pos: nat

    ghost function Blocks(): seq<DataBlock> { table.shape.blocks }

    ghost function Row(): seq<Pair> { Flat(Blocks()) }

    /** dataIter, if any, is an iterator over the block whose handle was saved. */
    ghost predicate Loaded()
      reads this`dataIter, this`dataBlockHandle, this`loaded, dataIter
    {
      dataIter != null ==>
        && dataIter != indexIter && dataIter.Valid() && dataIter.order == table.cmp.order && loaded < |Blocks()|
        && dataIter.plan.pairs == Blocks()[loaded].pairs && dataBlockHandle == EncodeHandle(Blocks()[loaded].handle)
    }

    ghost predicate Base()
      reads this`dataIter, this`dataBlockHandle, this`loaded, indexIter, dataIter
    {
      && indexIter.Valid() && indexIter.order == table.cmp.order && indexIter.plan.pairs == table.shape.index
      && Loaded()
    }

    /** Between the two moves of an operation: the data iterator is over the index's block, or
        there is none because the index has run out. */
    ghost predicate Paired()
      reads this`dataIter, this`dataBlockHandle, this`loaded, indexIter, dataIter
    {
      Base() && if indexIter.index < |Blocks()| then dataIter != null && loaded == indexIter.index else dataIter == null
    }

    ghost predicate Valid()
      reads this, indexIter, dataIter
    {
      && Base() && pos <= |Row()|
      && if dataIter == null then pos == |Row()|
         else loaded == indexIter.index && dataIter.index < |Blocks()[loaded].pairs|
              && pos == Start(Blocks(), loaded) + dataIter.index
    }

    constructor (table: Table)
      requires table.Valid()
      ensures Valid() && this.table == table && pos == |Row()| && fresh(indexIter) && dataIter == null
    {
      this.table := table;
      var index := table.NewIndexIter();
      indexIter, dataIter, dataBlockHandle, loaded := index, null, [], 0;
      pos := |Flat(table.shape.blocks)|;
    }

    predicate HasKey()
      reads this, dataIter
    {
      dataIter != null && dataIter.HasKey()
    }

    lemma HasKeyIffInside()
      requires table.Valid()
      requires Valid()
      ensures HasKey() <==> pos < |Row()|
      ensures HasKey() ==> Row()[pos] == Pair(dataIter.key, dataIter.Value())
    {
      if dataIter != null {
        dataIter.HasKeyIffInside();
        FlatAt(Blocks(), loaded, dataIter.index);
      }
    }

    /** InitDataBlock: keep the data iterator when it is over the right block already. */
    method InitDataBlock()
      requires table.Valid()
      requires Base()
      modifies this
      ensures Paired() && (dataIter != null ==> dataIter == old(dataIter) || fresh(dataIter))
    {
      indexIter.HasKeyIffInside();
      if !indexIter.HasKey() {
        dataIter := null;
        return;
      }
      ghost var b := indexIter.index;
      IndexAt(table.cmp, table.crc, table.file, table.shape, b);
      var handle := indexIter.Value();
      if dataIter != null && handle == dataBlockHandle {
        SameHandleSameBlock(table.crc, table.file, Blocks(), b, loaded);
      } else {
        dataIter := table.BlockReader(handle, b);
        dataBlockHandle, loaded := handle, b;
      }
    }

    /** The place in the row of a paired state; a block run out counts as the head of the next. */
    ghost function Place(): nat
      requires Paired()
      reads this`dataIter, this`dataBlockHandle, this`loaded, indexIter, dataIter
    {
      if dataIter == null then |Row()| else Start(Blocks(), loaded) + dataIter.index
    }

    method SkipEmptyDataBlocksForward()
      requires table.Valid()
      requires Paired()
      modifies this, dataIter, indexIter
      ensures Valid() && pos == old(Place()) && (dataIter != null ==> dataIter == old(dataIter) || fresh(dataIter))
    {
      ghost var place := Place();
      while dataIter == null || !dataIter.HasKey()
        invariant Paired() && Place() == place
        invariant dataIter != null ==> dataIter == old(dataIter) || fresh(dataIter)
        decreases |Blocks()| - indexIter.index
      {
        indexIter.HasKeyIffInside();
        if !indexIter.HasKey() {
          RunOut();
          return;
        }
        NextBlock();
      }
      StandHere();
    }

    /** The index has run out, and so has the table. */
    method RunOut()
      requires table.Valid()
      requires Base()
      modifies this`dataIter, this`pos
      ensures Valid() && dataIter == null && pos == |Row()|
    {
      dataIter, pos := null, |Row()|;
    }

    /** The data iterator shows a pair: that is where the whole iterator stands. */
    method StandHere()
      requires table.Valid()
      requires Paired() && dataIter != null && dataIter.HasKey()
      modifies this`pos
      ensures Valid() && pos == old(Place()) && pos + 1 == old(UpTo())
    {
      InsideBlock();
      pos := Start(Blocks(), loaded) + dataIter.index;
    }

    lemma InsideBlock()
      requires table.Valid()
      requires Paired() && dataIter != null && dataIter.HasKey()
      ensures dataIter.index < |Blocks()[loaded].pairs| && Place() < |Row()|
    {
      dataIter.HasKeyIffInside();
      FlatAt(Blocks(), loaded, dataIter.index);
    }

    /** On to the head of the next block, once the data iterator has run out. */
    method NextBlock()
      requires table.Valid()
      requires Paired() && dataIter != null && !dataIter.HasKey() && indexIter.HasKey()
      modifies this, dataIter, indexIter
      ensures Paired() && Place() == old(Place()) && indexIter.index == old(indexIter.index) + 1
      ensures dataIter != null ==> dataIter == old(dataIter) || fresh(dataIter)
    {
      dataIter.HasKeyIffInside();
      indexIter.HasKeyIffInside();
      StartNext(Blocks(), loaded);
      indexIter.Next();
      InitDataBlock();
      if dataIter != null { dataIter.SeekToFirst(); } else { RowEnds(Blocks()); }
    }

    method Seek(target: Bytes)
      requires table.Valid()
      requires Valid()
      modifies this, dataIter, indexIter
      ensures Valid() && IsLowerBound(table.cmp.order, Row(), target, pos)
      ensures dataIter != null ==> dataIter == old(dataIter) || fresh(dataIter)
    {
      Position(target);
      SkipEmptyDataBlocksForward();
    }

    method Position(target: Bytes)
      requires table.Valid()
      requires Valid()
      modifies this, dataIter, indexIter
      ensures Paired() && IsLowerBound(table.cmp.order, Row(), target, Place())
      ensures dataIter != null ==> dataIter == old(dataIter) || fresh(dataIter)
    {
      IndexAscends(table.cmp, table.crc, table.file, table.shape);
      indexIter.Seek(target);
      InitDataBlock();
      PositionInBlock(target);
    }

    /** The second of the two searches. */
    method PositionInBlock(target: Bytes)
      requires table.Valid()
      requires Paired() && IsLowerBound(table.cmp.order, table.shape.index, target, indexIter.index)
      modifies dataIter
      ensures Paired() && IsLowerBound(table.cmp.order, Row(), target, Place())
    {
      ghost var i := indexIter.index;
      if dataIter == null {
        LandsRight(table.cmp, table.crc, table.file, table.shape, target, i, 0);
        RowEnds(Blocks());
      } else {
        BlockAscends(table.cmp.order, Blocks(), i);
        dataIter.Seek(target);
        LandsRight(table.cmp, table.crc, table.file, table.shape, target, i, dataIter.index);
      }
    }

    method SeekToFirst()
      requires table.Valid()
      requires Valid()
      modifies this, dataIter, indexIter
      ensures Valid() && pos == 0
      ensures dataIter != null ==> dataIter == old(dataIter) || fresh(dataIter)
    {
      indexIter.SeekToFirst();
      InitDataBlock();
      assert Blocks()[..0] == [];
      if dataIter != null { dataIter.SeekToFirst(); } else { RowEnds(Blocks()); }
      SkipEmptyDataBlocksForward();
    }

    method Next()
      requires table.Valid()
      requires Valid() && HasKey()
      modifies this, dataIter, indexIter
      ensures Valid() && pos == old(pos) + 1
      ensures dataIter != null ==> dataIter == old(dataIter) || fresh(dataIter)
    {
      dataIter.HasKeyIffInside();
      dataIter.Next();
      SkipEmptyDataBlocksForward();
    }

    // ---- Backwards -----------------------------------------------------------------------

    /** Entries of the row up to and including the current one; a block run out counts as its
        own beginning. */
    ghost function UpTo(): nat
      requires Paired()
      reads this`dataIter, this`dataBlockHandle, this`loaded, indexIter, dataIter
    {
      if dataIter == null then 0
      else Start(Blocks(), loaded) + if dataIter.index < |Blocks()[loaded].pairs| then dataIter.index + 1 else 0
    }

    method SkipEmptyDataBlocksBackward()
      requires table.Valid()
      requires Paired()
      modifies this, dataIter, indexIter
      ensures Valid() && pos == if old(UpTo()) == 0 then |Row()| else old(UpTo()) - 1
      ensures dataIter != null ==> dataIter == old(dataIter) || fresh(dataIter)
    {
      ghost var upTo := UpTo();
      while dataIter == null || !dataIter.HasKey()
        invariant Paired() && UpTo() == upTo
        invariant dataIter != null ==> dataIter == old(dataIter) || fresh(dataIter)
        decreases if dataIter == null then 0 else indexIter.index + 1
      {
        indexIter.HasKeyIffInside();
        if !indexIter.HasKey() {
          RunOut();
          return;
        }
        PrevBlock();
      }
      StandHere();
    }

    /** Back to the end of the block before, once the data iterator has run out. */
    method PrevBlock()
      requires table.Valid()
      requires Paired() && dataIter != null && !dataIter.HasKey() && indexIter.HasKey()
      modifies this, dataIter, indexIter
      ensures Paired() && UpTo() == old(UpTo())
      ensures if old(indexIter.index) == 0 then dataIter == null else indexIter.index == old(indexIter.index) - 1
      ensures dataIter != null ==> dataIter == old(dataIter) || fresh(dataIter)
    {
      AtBlockHead();
      indexIter.HasKeyIffInside();
      NoneBefore(Blocks());
      indexIter.Prev();
      InitDataBlock();
      ToBlockEnd();
    }

    lemma AtBlockHead()
      requires table.Valid()
      requires Paired() && dataIter != null && !dataIter.HasKey()
      ensures UpTo() == Start(Blocks(), indexIter.index)
    {
      dataIter.HasKeyIffInside();
    }

    /** On the last pair of the block the index is at, if it is at one. */
    method ToBlockEnd()
      requires table.Valid()
      requires Paired()
      modifies dataIter
      ensures Paired() && UpTo() == if dataIter == null then 0 else Start(Blocks(), indexIter.index + 1)
    {
      if dataIter != null {
        dataIter.SeekToLast();
        AtBlockEnd();
      }
    }

    lemma AtBlockEnd()
      requires table.Valid()
      requires Paired() && dataIter != null
      requires var n := |dataIter.plan.pairs|; dataIter.index == if n == 0 then 0 else n - 1
      ensures UpTo() == Start(Blocks(), indexIter.index + 1)
    {
      StartNext(Blocks(), loaded);
    }

    method SeekToLast()
      requires table.Valid()
      requires Valid()
      modifies this, dataIter, indexIter
      ensures Valid() && pos == if |Row()| == 0 then 0 else |Row()| - 1
      ensures dataIter != null ==> dataIter == old(dataIter) || fresh(dataIter)
    {
      indexIter.SeekToLast();
      InitDataBlock();
      ToBlockEnd();
      RowEnds(Blocks());
      NoneBefore(Blocks());
      SkipEmptyDataBlocksBackward();
    }

    method Prev()
      requires table.Valid()
      requires Valid() && HasKey()
      modifies this, dataIter, indexIter
      ensures Valid() && pos == if old(pos) == 0 then |Row()| else old(pos) - 1
      ensures dataIter != null ==> dataIter == old(dataIter) || fresh(dataIter)
    {
      dataIter.HasKeyIffInside();
      dataIter.Prev();
      SkipEmptyDataBlocksBackward();
    }

    method Perform(m: Move)
      requires table.Valid()
      requires Valid()
      modifies this, dataIter, indexIter
      ensures Valid() && IsMove(table.cmp.order, Row(), old(pos), m, pos)
      ensures dataIter != null ==> dataIter == old(dataIter) || fresh(dataIter)
    {
      HasKeyIffInside();
      match m
      case ToTarget(target) => Seek(target);
      case ToFirst => SeekToFirst();
      case ToLast => SeekToLast();
      case Forwards => if HasKey() { Next(); }
      case Backwards => if HasKey() { Prev(); }
    }

    /** The pair shown, if any. */
    method Current() returns (now: Option<Pair>)
      requires table.Valid()
      requires Valid()
      ensures now == ShownAt(Row(), pos) && now.Some? == HasKey()
    {
      HasKeyIffInside();
      now := if HasKey() then Some(Pair(dataIter.key, dataIter.Value())) else None;
    }

    /** Any run of moves, in any order and direction, across any number of blocks. */
    method PerformAll(moves: seq<Move>) returns (shown: seq<Option<Pair>>, ghost at: seq<nat>)
      requires table.Valid()
      requires Valid()
      modifies this, dataIter, indexIter
      ensures Valid() && |shown| == |moves| && |at| == |moves| + 1 && at[0] == old(pos)
      ensures forall n :: 0 <= n < |moves| ==> IsMove(table.cmp.order, Row(), at[n], moves[n], at[n + 1])
      ensures forall n :: 0 <= n < |moves| ==> shown[n] == ShownAt(Row(), at[n + 1])
    {
      shown, at := [], [pos];
      ghost var row := Row();
      while |shown| < |moves|
        invariant |shown| <= |moves| && Traces(table.cmp.order, row, moves[..|shown|], at, shown)
        invariant at[0] == old(pos) && at[|shown|] == pos
        invariant Valid() && (dataIter != null ==> dataIter == old(dataIter) || fresh(dataIter))
      {
        Perform(moves[|shown|]);
        var now := Current();
        TraceOneMore(table.cmp.order, row, moves, at, shown, pos, now);
        shown, at := shown + [now], at + [pos];
      }
      assert moves[..|shown|] == moves;
    }

    /** Everything from here on. */
    method RestOfRow() returns (rest: seq<Pair>)
      requires table.Valid()
      requires Valid()
      modifies this, dataIter, indexIter
      ensures rest == Row()[old(pos)..]
      decreases |Row()| - pos
    {
      var now := Current();
      if now.None? {
        return [];
      }
      HeadOfSlice(Row(), pos);
      Next();
      var more := RestOfRow();
      rest := [now.value] + more;
    }
  }

  /** A run of moves through a row: where each began and ended, and what was shown after it. */
  ghost predicate Traces(order: Order, row: seq<Pair>, moves: seq<Move>, at: seq<nat>, shown: seq<Option<Pair>>) {
    && |shown| == |moves| && |at| == |moves| + 1
    && (forall n :: 0 <= n < |moves| ==> IsMove(order, row, at[n], moves[n], at[n + 1]))
    && (forall n :: 0 <= n < |moves| ==> shown[n] == ShownAt(row, at[n + 1]))
  }

  lemma TraceOneMore(order: Order, row: seq<Pair>, moves: seq<Move>, at: seq<nat>, shown: seq<Option<Pair>>, next: nat, now: Option<Pair>)
    requires |shown| < |moves| && Traces(order, row, moves[..|shown|], at, shown)
    requires IsMove(order, row, at[|shown|], moves[|shown|], next) && now == ShownAt(row, next)
    ensures Traces(order, row, moves[..|shown| + 1], at + [next], shown + [now])
  {
  }

  lemma HeadOfSlice<T>(s: seq<T>, a: nat)
    requires a < |s|
    ensures s[a..] == [s[a]] + s[a + 1..]
  {
  }

  lemma NoneBefore(ds: seq<DataBlock>)
    ensures Start(ds, 0) == 0 && (|ds| == 0 ==> |Flat(ds)| == 0)
  {
    assert ds[..0] == [];
  }

  /** A scan of a table hands back every pair that was added, in order. */
  method ScanAll(t: Table) returns (pairs: seq<Pair>)
    requires t.Valid()
    ensures pairs == Flat(t.shape.blocks)
  {
    var it := new TwoLevelIterator(t);
    it.SeekToFirst();
    pairs := it.RestOfRow();
    assert it.Row()[0..] == it.Row();
  }

  lemma SameHandleSameBlock(crc: BlockChecksum, file: Bytes, ds: seq<DataBlock>, a: nat, b: nat)
    requires a < |ds| && b < |ds| && AllStored(crc, file, ds) && InFileOrder(ds)
    requires EncodeHandle(ds[a].handle) == EncodeHandle(ds[b].handle)
    ensures a == b
  {
    assert Stored(crc, file, ds[a]) && Stored(crc, file, ds[b]);
    HandleAlone(ds[a].handle);
    HandleAlone(ds[b].handle);
    assert !(a < b) && !(b < a);
  }
}
