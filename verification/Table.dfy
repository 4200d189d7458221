/** Building table files (table/table_builder.cc): data blocks, and an index entry for each that
    is only written once the first key of the next block is known. */
module TableBuilding {
  import opened Coding
  import opened Blocks
  import opened BlockReading
  import opened TableFormat

  /** A key comparator: ranks, the two functions that shorten keys, and the part of a key that
      filters look at. */
  datatype Comparator = Comparator(order: Order, separator: (Bytes, Bytes) -> Bytes, successor: Bytes -> Bytes, user: Bytes -> Bytes)

  /** sep can stand in the index for a block that ends at `last` when the next begins at `next`. */
  ghost predicate Between(c: Comparator, last: Bytes, sep: Bytes, next: Bytes) {
    && c.order(last) <= c.order(sep) < c.order(next)
    && forall k {:trigger c.user(k)} :: c.order(last) < c.order(k) <= c.order(sep) ==> c.user(k) != c.user(next)
  }

  ghost predicate Shortens(c: Comparator) {
    && (forall a, b {:trigger c.separator(a, b)} :: c.order(a) < c.order(b) ==> |c.separator(a, b)| <= |a| && Between(c, a, c.separator(a, b), b))
    && (forall a {:trigger c.successor(a)} :: |c.successor(a)| <= |a| && c.order(a) <= c.order(c.successor(a)))
  }

  /** A data block in the file. */
  datatype DataBlock = DataBlock(pairs: seq<Pair>, starts: seq<nat>, handle: Handle)

  ghost predicate Stored(crc: BlockChecksum, file: Bytes, d: DataBlock) {
    && d.pairs != [] && Sound(d.pairs, d.starts) && Encodable(d.handle)
    && Holds(crc, file, d.handle, BlockBytes(d.pairs, d.starts))
  }

  // ---- The pairs of several blocks, in a row -----------------------------------------------

  ghost function Flat(ds: seq<DataBlock>): seq<Pair> {
    if ds == [] then [] else Flat(ds[..|ds| - 1]) + ds[|ds| - 1].pairs
  }

  /** Where block b begins in the row. */
  ghost function Start(ds: seq<DataBlock>, b: nat): nat
    requires b <= |ds|
  {
    |Flat(ds[..b])|
  }

  lemma StartNext(ds: seq<DataBlock>, b: nat)
    requires b < |ds|
    ensures Start(ds, b + 1) == Start(ds, b) + |ds[b].pairs|
  {
    assert ds[..b + 1][..b] == ds[..b];
  }

  lemma {:induction false} FlatPrefix(ds: seq<DataBlock>, b: nat)
    requires b <= |ds|
    ensures Flat(ds[..b]) <= Flat(ds)
    decreases |ds|
  {
    if b < |ds| {
      assert ds[..|ds| - 1][..b] == ds[..b];
      FlatPrefix(ds[..|ds| - 1], b);
    } else {
      assert ds[..b] == ds;
    }
  }

  lemma FlatAt(ds: seq<DataBlock>, b: nat, j: nat)
    requires b < |ds| && j < |ds[b].pairs|
    ensures Start(ds, b) + j < |Flat(ds)| && Flat(ds)[Start(ds, b) + j] == ds[b].pairs[j]
  {
    StartNext(ds, b);
    FlatPrefix(ds, b + 1);
    assert ds[..b + 1][..b] == ds[..b];
    assert Flat(ds[..b + 1])[Start(ds, b) + j] == ds[b].pairs[j];
  }

  lemma {:induction false} StartsAscend(ds: seq<DataBlock>, b: nat, c: nat)
    requires b <= c <= |ds|
    ensures Start(ds, b) <= Start(ds, c) <= |Flat(ds)|
    decreases c
  {
    FlatPrefix(ds, c);
    if b < c {
      StartNext(ds, c - 1);
      StartsAscend(ds, b, c - 1);
    }
  }

  lemma FlatPush(ds: seq<DataBlock>, d: DataBlock)
    ensures Flat(ds + [d]) == Flat(ds) + d.pairs
  {
    assert (ds + [d])[..|ds|] == ds;
  }

  // ---- The index -----------------------------------------------------------------------------

  /** Index entry i points at block i, and its key lies between that block and the next. */
  ghost predicate IndexEntryOk(c: Comparator, ds: seq<DataBlock>, next: Option<Bytes>, index: seq<Pair>, i: nat)
    requires i < |index| <= |ds| && forall b :: 0 <= b < |ds| ==> ds[b].pairs != []
  {
    var last := ds[i].pairs[|ds[i].pairs| - 1].key;
    index[i].value == EncodeHandle(ds[i].handle)
    && if i + 1 < |ds| then Between(c, last, index[i].key, ds[i + 1].pairs[0].key)
       else if next.Some? then Between(c, last, index[i].key, next.value)
       else c.order(last) <= c.order(index[i].key)
  }

  ghost predicate IndexOk(c: Comparator, ds: seq<DataBlock>, next: Option<Bytes>, index: seq<Pair>) {
    && (forall b :: 0 <= b < |ds| ==> ds[b].pairs != []) && |index| <= |ds|
    && forall i {:trigger IndexEntryOk(c, ds, next, index, i)} :: 0 <= i < |index| ==> IndexEntryOk(c, ds, next, index, i)
  }

  ghost predicate AllStored(crc: BlockChecksum, file: Bytes, ds: seq<DataBlock>) {
    forall b {:trigger Stored(crc, file, ds[b])} :: 0 <= b < |ds| ==> Stored(crc, file, ds[b])
  }

  /** Blocks are written one after another. */
  ghost predicate InFileOrder(ds: seq<DataBlock>) {
    forall a, b :: 0 <= a < b < |ds| ==> ds[a].handle.offset < ds[b].handle.offset
  }

  lemma PushInFileOrder(crc: BlockChecksum, file: Bytes, ds: seq<DataBlock>, d: DataBlock)
    requires AllStored(crc, file, ds) && InFileOrder(ds) && d.handle.offset == |file|
    ensures InFileOrder(ds + [d])
  {
    forall a | 0 <= a < |ds| ensures ds[a].handle.offset < |file| {
      assert Stored(crc, file, ds[a]);
    }
  }

  /** What the filter builder is told. */
  datatype FilterCall = StartBlock(offset: nat) | AddKey(key: Bytes)

  /** The block a key added at place i belongs to. */
  ghost function BlockOf(calls: seq<FilterCall>, i: nat): nat
    requires i <= |calls|
  {
    if i == 0 then 0 else if calls[i - 1].StartBlock? then calls[i - 1].offset else BlockOf(calls, i - 1)
  }

  /** A filter that never rules out a key, or another key of the same user key, under the block
      it was added to. */
  ghost predicate NoFalseNegatives(calls: seq<FilterCall>, user: Bytes -> Bytes, mayMatch: (nat, Bytes) -> bool) {
    forall i, k {:trigger calls[i].key, user(k)} :: 0 <= i < |calls| && calls[i].AddKey? && user(k) == user(calls[i].key) ==>
      mayMatch(BlockOf(calls, i), k)
  }

  ghost predicate ToldKey(calls: seq<FilterCall>, key: Bytes, offset: nat) {
    exists i :: 0 <= i < |calls| && calls[i] == AddKey(key) && BlockOf(calls, i) == offset
  }

  /** The filter has been told of every key of the block, under the block's offset. */
  ghost predicate Told(calls: seq<FilterCall>, pairs: seq<Pair>, offset: nat) {
    forall j {:trigger ToldKey(calls, pairs[j].key, offset)} :: 0 <= j < |pairs| ==> ToldKey(calls, pairs[j].key, offset)
  }

  lemma {:induction false} BlockOfStays(calls: seq<FilterCall>, more: seq<FilterCall>, i: nat)
    requires i <= |calls| && calls <= more
    ensures BlockOf(more, i) == BlockOf(calls, i)
  {
    if i > 0 { BlockOfStays(calls, more, i - 1); }
  }

  lemma ToldKeyStays(calls: seq<FilterCall>, more: seq<FilterCall>, key: Bytes, offset: nat)
    requires ToldKey(calls, key, offset) && calls <= more
    ensures ToldKey(more, key, offset)
  {
    var i :| 0 <= i < |calls| && calls[i] == AddKey(key) && BlockOf(calls, i) == offset;
    BlockOfStays(calls, more, i);
    assert more[i] == AddKey(key);
  }

  lemma ToldStays(calls: seq<FilterCall>, more: seq<FilterCall>, pairs: seq<Pair>, offset: nat)
    requires Told(calls, pairs, offset) && calls <= more
    ensures Told(more, pairs, offset)
  {
    forall j | 0 <= j < |pairs| ensures ToldKey(more, pairs[j].key, offset) {
      ToldKeyStays(calls, more, pairs[j].key, offset);
    }
  }

  /** A key just added belongs to the block the filter is at. */
  lemma NewestKeyTold(calls: seq<FilterCall>, key: Bytes)
    ensures ToldKey(calls + [AddKey(key)], key, BlockOf(calls, |calls|))
    ensures BlockOf(calls + [AddKey(key)], |calls| + 1) == BlockOf(calls, |calls|)
  {
    var more := calls + [AddKey(key)];
    BlockOfStays(calls, more, |calls|);
    assert more[|calls|] == AddKey(key);
  }

  lemma ToldOfOneMore(calls: seq<FilterCall>, pairs: seq<Pair>, offset: nat, p: Pair)
    requires Told(calls, pairs, offset) && BlockOf(calls, |calls|) == offset
    ensures Told(calls + [AddKey(p.key)], pairs + [p], offset)
    ensures BlockOf(calls + [AddKey(p.key)], |calls| + 1) == offset
  {
    var more, longer := calls + [AddKey(p.key)], pairs + [p];
    NewestKeyTold(calls, p.key);
    forall j | 0 <= j < |longer| ensures ToldKey(more, longer[j].key, offset) {
      if j < |pairs| { ToldKeyStays(calls, more, pairs[j].key, offset); }
    }
  }

  /** Blocks are announced in file order. */
  ghost predicate Growing(calls: seq<FilterCall>) {
    forall i {:trigger BlockOf(calls, i)} :: 0 <= i < |calls| && calls[i].StartBlock? ==> BlockOf(calls, i) <= calls[i].offset
  }

  lemma GrowsBy(calls: seq<FilterCall>, call: FilterCall)
    requires Growing(calls) && (call.StartBlock? ==> BlockOf(calls, |calls|) <= call.offset)
    ensures Growing(calls + [call])
  {
    var more := calls + [call];
    forall i | 0 <= i < |more| && more[i].StartBlock? ensures BlockOf(more, i) <= more[i].offset {
      BlockOfStays(calls, more, i);
    }
  }

  // ---- The builder -----------------------------------------------------------------------------

  ghost predicate AllTold(calls: seq<FilterCall>, ds: seq<DataBlock>) {
    forall b {:trigger Told(calls, ds[b].pairs, ds[b].handle.offset)} :: 0 <= b < |ds| ==>
      Told(calls, ds[b].pairs, ds[b].handle.offset)
  }

  /** The key that decides the index entry of the last finished block: the first of the block
      being filled. */
  ghost function NextKey(pairs: seq<Pair>): Option<Bytes> { if pairs == [] then None else Some(pairs[0].key) }

  /** Everything but the heap objects: the file, the finished blocks, the index so far, the
      block being filled, and what the filter knows. */
  ghost predicate Consistent(c: Comparator, crc: BlockChecksum, file: Bytes, ds: seq<DataBlock>, filling: seq<Pair>,
                             index: seq<Pair>, pending: bool, calls: seq<FilterCall>) {
    && AllStored(crc, file, ds) && InFileOrder(ds) && IndexOk(c, ds, NextKey(filling), index)
    && Ascending(c.order, Flat(ds) + filling)
    && |index| + (if pending then 1 else 0) == |ds|
    && (pending ==> filling == []) && (filling == [] && ds != [] ==> pending)
    && AllTold(calls, ds) && Told(calls, filling, |file|) && BlockOf(calls, |calls|) == |file|
  }

  lemma IndexStays(c: Comparator, ds: seq<DataBlock>, next: Option<Bytes>, more: seq<DataBlock>, next': Option<Bytes>, index: seq<Pair>)
    requires IndexOk(c, ds, next, index) && ds <= more && forall b :: 0 <= b < |more| ==> more[b].pairs != []
    requires |index| == |ds| && next.Some? ==>
               if |more| == |ds| then next' == next else more[|ds|].pairs[0].key == next.value
    requires |index| == |ds| > 0 ==> next.Some?
    ensures IndexOk(c, more, next', index)
  {
    forall i | 0 <= i < |index| ensures IndexEntryOk(c, more, next', index, i) {
      assert IndexEntryOk(c, ds, next, index, i);
    }
  }

  /** A key is added to the block being filled; the index entry of the block before is in place. */
  lemma AddKeepsConsistent(c: Comparator, crc: BlockChecksum, file: Bytes, ds: seq<DataBlock>, filling: seq<Pair>,
                           index: seq<Pair>, calls: seq<FilterCall>, p: Pair)
    requires Consistent(c, crc, file, ds, filling, index, false, calls)
    requires Ascending(c.order, Flat(ds) + filling + [p])
    requires ds == [] || filling != []
    ensures Consistent(c, crc, file, ds, filling + [p], index, false, calls + [AddKey(p.key)])
  {
    assert Flat(ds) + (filling + [p]) == Flat(ds) + filling + [p];
    var more := calls + [AddKey(p.key)];
    ToldOfOneMore(calls, filling, |file|, p);
    TellsStay(calls, more, ds);
    IndexStays(c, ds, NextKey(filling), ds, NextKey(filling + [p]), index);
  }

  /** The first key after a finished block, which settles that block's index entry. */
  lemma FirstAddKeepsConsistent(c: Comparator, crc: BlockChecksum, file: Bytes, ds: seq<DataBlock>,
                                index: seq<Pair>, calls: seq<FilterCall>, p: Pair, entry: Pair)
    requires Consistent(c, crc, file, ds, [], index, true, calls)
    requires Ascending(c.order, Flat(ds) + [p]) && entry.value == EncodeHandle(ds[|ds| - 1].handle)
    requires Between(c, ds[|ds| - 1].pairs[|ds[|ds| - 1].pairs| - 1].key, entry.key, p.key)
    ensures Consistent(c, crc, file, ds, [p], index + [entry], false, calls + [AddKey(p.key)])
  {
    var more, longer := calls + [AddKey(p.key)], index + [entry];
    assert [] + [p] == [p];
    ToldOfOneMore(calls, [], |file|, p);
    TellsStay(calls, more, ds);
    forall i | 0 <= i < |longer| ensures IndexEntryOk(c, ds, NextKey([p]), longer, i) {
      if i < |index| { assert IndexEntryOk(c, ds, NextKey([]), index, i); }
    }
  }

  /** The block being filled goes into the file. */
  lemma FlushKeepsConsistent(c: Comparator, crc: BlockChecksum, file: Bytes, ds: seq<DataBlock>, filling: seq<Pair>,
                             index: seq<Pair>, calls: seq<FilterCall>, d: DataBlock,
                             file': Bytes, ds': seq<DataBlock>, filling': seq<Pair>, calls': seq<FilterCall>)
    requires Consistent(c, crc, file, ds, filling, index, false, calls) && filling != []
    requires d.pairs == filling && Sound(filling, d.starts) && Encodable(d.handle)
    requires d.handle == Handle(|file|, |BlockBytes(filling, d.starts)|)
    requires file' == file + RawBlock(crc, BlockBytes(filling, d.starts)) && ds' == ds + [d] && filling' == []
    requires calls' == calls + [StartBlock(|file'|)] && Growing(calls)
    ensures Consistent(c, crc, file', ds', filling', index, true, calls') && Growing(calls')
    ensures Flat(ds') + filling' == Flat(ds) + filling
  {
    var raw := RawBlock(crc, BlockBytes(filling, d.starts));
    HoldsAtEnd(crc, file, BlockBytes(filling, d.starts));
    GrowsBy(calls, StartBlock(|file'|));
    StoredStays(crc, file, raw, ds);
    assert Stored(crc, file', d);
    PushInFileOrder(crc, file, ds, d);
    FlatPush(ds, d);
    TellsStay(calls, calls', ds);
    ToldStays(calls, calls', filling, |file|);
    IndexStays(c, ds, NextKey(filling), ds', None, index);
  }

  lemma StoredStays(crc: BlockChecksum, file: Bytes, more: Bytes, ds: seq<DataBlock>)
    requires AllStored(crc, file, ds)
    ensures AllStored(crc, file + more, ds)
  {
    forall b | 0 <= b < |ds| ensures Stored(crc, file + more, ds[b]) {
      assert Stored(crc, file, ds[b]);
      HoldsStays(crc, file, more, ds[b].handle, BlockBytes(ds[b].pairs, ds[b].starts));
    }
  }

  lemma TellsStay(calls: seq<FilterCall>, more: seq<FilterCall>, ds: seq<DataBlock>)
    requires AllTold(calls, ds) && calls <= more
    ensures AllTold(more, ds)
  {
    forall b | 0 <= b < |ds| ensures Told(more, ds[b].pairs, ds[b].handle.offset) {
      ToldStays(calls, more, ds[b].pairs, ds[b].handle.offset);
    }
  }

  lemma NothingYet(c: Comparator, crc: BlockChecksum)
    ensures Consistent(c, crc, [], [], [], [], false, [StartBlock(0)]) && Growing([StartBlock(0)])
  {
  }

  ghost function LastKeyOf(pairs: seq<Pair>): Bytes
    requires |pairs| > 0
  {
    pairs[|pairs| - 1].key
  }

  class TableBuilder {
    const cmp: Comparator
    const crc: BlockChecksum
    const blockSize: nat
    const dataBlock: BlockBuilder
    const indexBlock: BlockBuilder
    var file: Bytes               // what has been appended; r->offset is its length
    var lastKey: Bytes
    var pendingIndexEntry: bool
    var pendingHandle: Handle
    var calls: seq<FilterCall>    // what r->filter_block has been told
    ghost var blocks: seq<DataBlock>

    /** Every pair added so far. */
    ghost function Added(): seq<Pair>
      reads this, dataBlock
    {
      Flat(blocks) + dataBlock.pairs
    }

    ghost predicate Valid()
      reads this, dataBlock, indexBlock
    {
      && dataBlock != indexBlock && Shortens(cmp) && Filling(dataBlock) && Filling(indexBlock)
      && Consistent(cmp, crc, file, blocks, dataBlock.pairs, indexBlock.pairs, pendingIndexEntry, calls)
      && (pendingIndexEntry ==> pendingHandle == blocks[|blocks| - 1].handle)
      && (|Added()| > 0 ==> lastKey == LastKeyOf(Added())) && Growing(calls)
    }

    /** What the file and the blocks in memory come to. */
    function Load(): nat
      reads this, dataBlock, indexBlock
    {
      |file| + dataBlock.Estimate() + indexBlock.Estimate() + |lastKey|
    }

    /** Sizes stay below the widths the format gives them. */
    ghost predicate HasRoom(key: Bytes, value: Bytes)
      reads this, dataBlock, indexBlock
    {
      && |key| < TWO32 && |value| < TWO32 && dataBlock.Estimate() + 19 + |key| + |value| < TWO32
      && indexBlock.Estimate() + 39 + |lastKey| < TWO32 && |file| + 2 * TWO32 < TWO64
    }

    constructor (cmp: Comparator, crc: BlockChecksum, blockSize: nat, interval: nat)
      requires Shortens(cmp) && interval >= 1
      ensures Valid() && this.cmp == cmp && this.crc == crc && Added() == [] && Load() == 16 && fresh(dataBlock) && fresh(indexBlock)
    {
      NothingYet(cmp, crc);
      this.cmp, this.crc, this.blockSize := cmp, crc, blockSize;
      dataBlock := new BlockBuilder(interval);
      indexBlock := new BlockBuilder(1);
      file, lastKey, pendingIndexEntry, pendingHandle := [], [], false, Handle(0, 0);
      blocks, calls := [], [StartBlock(0)];
    }

    method Add(key: Bytes, value: Bytes)
      requires Valid() && HasRoom(key, value)
      requires |Added()| > 0 ==> cmp.order(lastKey) < cmp.order(key)
      modifies this, dataBlock, indexBlock
      ensures Valid() && Added() == old(Added()) + [Pair(key, value)]
      ensures Load() <= old(Load()) + 2 * |key| + |value| + 71 && lastKey == key
    {
      AscendsBy(cmp.order, Added(), Pair(key, value));
      if pendingIndexEntry {
        AddAfterBlock(key, value);
      } else {
        AddToBlock(key, value);
      }
      if dataBlock.Estimate() >= blockSize {
        Flush();
      }
    }

    /** The first key after a block: its index entry can be written now, under a short key. */
    method AddAfterBlock(key: Bytes, value: Bytes)
      requires Valid() && pendingIndexEntry && HasRoom(key, value)
      requires Ascending(cmp.order, Added() + [Pair(key, value)])
      modifies this, dataBlock, indexBlock
      ensures Valid() && !pendingIndexEntry && Added() == old(Added()) + [Pair(key, value)]
      ensures dataBlock.Estimate() < TWO32 && |file| + 2 * TWO32 < TWO64
      ensures Load() <= old(Load()) + 2 * |key| + |value| + 58 && lastKey == key
    {
      SettleIndex(cmp, crc, file, blocks, indexBlock.pairs, calls, lastKey, Pair(key, value), pendingHandle);
      var separator, encoding := cmp.separator(lastKey, key), EncodeHandle(pendingHandle);
      indexBlock.Add(separator, encoding);
      pendingIndexEntry := false;
      GrowsBy(calls, AddKey(key));
      Record(key, value);
      SameRow(Flat(blocks), [], Pair(key, value));
      assert Consistent(cmp, crc, file, blocks, dataBlock.pairs, indexBlock.pairs, pendingIndexEntry, calls);
    }

    method AddToBlock(key: Bytes, value: Bytes)
      requires Valid() && !pendingIndexEntry && HasRoom(key, value)
      requires Ascending(cmp.order, Added() + [Pair(key, value)])
      modifies this, dataBlock
      ensures Valid() && !pendingIndexEntry && Added() == old(Added()) + [Pair(key, value)]
      ensures dataBlock.Estimate() < TWO32 && |file| + 2 * TWO32 < TWO64
      ensures Load() <= old(Load()) + 2 * |key| + |value| + 58 && lastKey == key
    {
      AddKeepsConsistent(cmp, crc, file, blocks, dataBlock.pairs, indexBlock.pairs, calls, Pair(key, value));
      SameRow(Flat(blocks), dataBlock.pairs, Pair(key, value));
      GrowsBy(calls, AddKey(key));
      Record(key, value);
      assert Consistent(cmp, crc, file, blocks, dataBlock.pairs, indexBlock.pairs, pendingIndexEntry, calls);
    }

    /** The pair itself, and the filter's copy of its key. */
    method Record(key: Bytes, value: Bytes)
      requires dataBlock != indexBlock && Filling(dataBlock) && SmallPair(Pair(key, value))
      requires dataBlock.Estimate() + 19 + |key| + |value| < TWO32
      modifies this`calls, this`lastKey, dataBlock
      ensures Filling(dataBlock) && dataBlock.pairs == old(dataBlock.pairs) + [Pair(key, value)]
      ensures calls == old(calls) + [AddKey(key)] && lastKey == key
      ensures dataBlock.Estimate() <= old(dataBlock.Estimate()) + 19 + |key| + |value|
    {
      calls := calls + [AddKey(key)];
      lastKey := key;
      dataBlock.Add(key, value);
    }

    method Flush()
      requires Valid() && dataBlock.Estimate() < TWO32 && |file| + 2 * TWO32 < TWO64
      modifies this, dataBlock
      ensures Valid() && Added() == old(Added()) && dataBlock.pairs == []
      ensures |file| <= |old(file)| + TWO32 + TRAILER && lastKey == old(lastKey) && Load() <= old(Load()) + 13
      ensures old(dataBlock.pairs) == [] ==> calls == old(calls)
    {
      dataBlock.EstimateIsSize();
      if dataBlock.buffer != [] {
        FlushBlock();
      }
    }

    method FlushBlock()
      requires Valid() && |dataBlock.pairs| > 0 && Sound(dataBlock.pairs, dataBlock.starts) && |file| + 2 * TWO32 < TWO64
      modifies this`file, this`pendingHandle, this`pendingIndexEntry, this`blocks, this`calls, dataBlock
      ensures Valid() && Added() == old(Added()) && dataBlock.pairs == []
      ensures |file| == |old(file)| + old(dataBlock.Estimate()) + TRAILER && dataBlock.Estimate() == 8
    {
      ghost var filling, starts := dataBlock.pairs, dataBlock.starts;
      ghost var d := DataBlock(filling, starts, Handle(|file|, |BlockBytes(filling, starts)|));
      pendingHandle := WriteBlock(dataBlock);
      pendingIndexEntry := true;
      blocks, calls := blocks + [d], calls + [StartBlock(|file|)];
      FlushKeepsConsistent(cmp, crc, old(file), old(blocks), filling, indexBlock.pairs, old(calls), d,
                           file, blocks, dataBlock.pairs, calls);
    }

    /** WriteBlock without compression: the block and its trailer go to the end of the file. */
    method WriteBlock(block: BlockBuilder) returns (handle: Handle)
      requires Filling(block) && Sound(block.pairs, block.starts)
      modifies this`file, block
      ensures Filling(block) && block.pairs == [] && block.Estimate() == 8
      ensures handle == Handle(|old(file)|, |BlockBytes(old(block.pairs), old(block.starts))|)
      ensures file == old(file) + RawBlock(crc, BlockBytes(old(block.pairs), old(block.starts)))
      ensures |file| == |old(file)| + old(block.Estimate()) + TRAILER
    {
      block.EstimateIsSize();
      var contents := block.Finish();
      handle := WriteRawBlock(contents);
      block.Reset();
    }

    method WriteRawBlock(contents: Bytes) returns (handle: Handle)
      modifies this`file
      ensures handle == Handle(|old(file)|, |contents|) && file == old(file) + RawBlock(crc, contents)
    {
      handle := Handle(|file|, |contents|);
      file := file + RawBlock(crc, contents);
    }

    /** Finish: the last data block, the filter block if there is one, the metaindex block that
        names it, the index block and the footer. */
    method Finish(filter: Option<NamedFilter>) returns (whole: Bytes, ghost shape: Shape, ghost meta: Meta)
      requires Valid() && dataBlock.Estimate() < TWO32 && indexBlock.Estimate() + 39 + |lastKey| < TWO32
      requires |file| + FilterSize(filter) + 4 * TWO32 < TWO64 && ShortName(filter)
      modifies this, dataBlock, indexBlock
      ensures IsTable(cmp, crc, whole, shape) && Flat(shape.blocks) == old(Added()) && AllTold(calls, shape.blocks)
      ensures HasMeta(crc, whole, shape.footer.metaindex, meta, filter)
      ensures old(dataBlock.pairs) == [] ==> calls == old(calls)
    {
      Flush();
      whole, shape, meta := FinishBlocks(filter);
    }

    /** Every data block has its index entry. */
    ghost predicate Indexed()
      reads this`blocks, this`calls, indexBlock
    {
      && InFileOrder(blocks) && Ascending(cmp.order, Flat(blocks)) && AllTold(calls, blocks)
      && Filling(indexBlock) && Sound(indexBlock.pairs, indexBlock.starts)
      && IndexOk(cmp, blocks, None, indexBlock.pairs) && |indexBlock.pairs| == |blocks|
    }

    /** After the last data block. The index entry it still lacks can be settled first: nothing
        else reads the index block. */
    method FinishBlocks(filter: Option<NamedFilter>) returns (whole: Bytes, ghost shape: Shape, ghost meta: Meta)
      requires Valid() && dataBlock.pairs == [] && indexBlock.Estimate() + 39 + |lastKey| < TWO32
      requires |file| + FilterSize(filter) + 2 * TWO32 + 2 * TRAILER < TWO64 && ShortName(filter)
      modifies this, indexBlock
      ensures IsTable(cmp, crc, whole, shape) && Flat(shape.blocks) == old(Added()) && AllTold(calls, shape.blocks)
      ensures HasMeta(crc, whole, shape.footer.metaindex, meta, filter) && calls == old(calls)
    {
      assert dataBlock.interval >= 1;
      EndData();
      var metaindex;
      metaindex, meta := WriteMeta(filter);
      whole, shape := WriteIndex(metaindex, meta, filter);
    }

    /** The filter block goes into the file as it is, and the metaindex block says where. */
    method WriteMeta(filter: Option<NamedFilter>) returns (metaindex: Handle, ghost meta: Meta)
      requires |file| + FilterSize(filter) + TWO32 < TWO64 && ShortName(filter) && dataBlock.interval >= 1
      requires AllStored(crc, file, blocks)
      modifies this`file
      ensures |file| <= |old(file)| + FilterSize(filter) + TWO32 + 2 * TRAILER && AllStored(crc, file, blocks)
      ensures Encodable(metaindex) && HasMeta(crc, file, metaindex, meta, filter)
    {
      ghost var body := file;
      var block := new BlockBuilder(dataBlock.interval);
      ghost var at := Handle(0, 0);
      if filter.Some? {
        var handle := WriteRawBlock(filter.value.contents);
        HandleLength(handle);
        block.Add(FilterKey(filter.value.name), EncodeHandle(handle));
        at := handle;
      }
      block.EstimateIsSize();
      meta := Meta(block.pairs, block.starts, at);
      MetaWritten(crc, body, blocks, filter, meta);
      metaindex := WriteBlock(block);
    }

    method WriteIndex(metaindex: Handle, ghost meta: Meta, ghost filter: Option<NamedFilter>) returns (whole: Bytes, ghost shape: Shape)
      requires Indexed() && AllStored(crc, file, blocks)
      requires |file| + TWO32 < TWO64 && Encodable(metaindex) && HasMeta(crc, file, metaindex, meta, filter)
      modifies this`file, indexBlock
      ensures IsTable(cmp, crc, whole, shape) && shape.blocks == blocks
      ensures shape.footer.metaindex == metaindex && HasMeta(crc, whole, metaindex, meta, filter)
    {
      shape := Shape(blocks, indexBlock.pairs, indexBlock.starts,
                     Footer(metaindex, Handle(|file|, |BlockBytes(indexBlock.pairs, indexBlock.starts)|)));
      FinishedTable(cmp, crc, file, blocks, shape.footer, shape.index, shape.indexStarts);
      MetaStays(crc, file, RawBlock(crc, BlockBytes(shape.index, shape.indexStarts)) + EncodeFooter(shape.footer), metaindex, meta, filter);
      var handle := WriteBlock(indexBlock);
      whole := file + EncodeFooter(Footer(metaindex, handle));
    }

    /** After the last block: every block has its index entry. */
    method EndData()
      requires Valid() && dataBlock.pairs == [] && indexBlock.Estimate() + 39 + |lastKey| < TWO32
      modifies this`pendingIndexEntry, indexBlock
      ensures Indexed() && AllStored(crc, file, blocks) && Flat(blocks) == Added()
    {
      NothingMore(Flat(blocks));
      if pendingIndexEntry {
        AddLastIndexEntry();
      }
      indexBlock.EstimateIsSize();
    }

    method AddLastIndexEntry()
      requires Valid() && pendingIndexEntry && indexBlock.Estimate() + 39 + |lastKey| < TWO32
      modifies this`pendingIndexEntry, indexBlock
      ensures !pendingIndexEntry && Filling(indexBlock) && indexBlock.Estimate() < TWO32
      ensures IndexOk(cmp, blocks, None, indexBlock.pairs) && |indexBlock.pairs| == |blocks|
    {
      SettleLast(cmp, crc, file, blocks, indexBlock.pairs, calls, lastKey, pendingHandle);
      var successor, encoding := cmp.successor(lastKey), EncodeHandle(pendingHandle);
      indexBlock.Add(successor, encoding);
      pendingIndexEntry := false;
    }
  }

  /** The index entry of the last block, once the next key is known. */
  lemma SettleIndex(c: Comparator, crc: BlockChecksum, file: Bytes, ds: seq<DataBlock>, index: seq<Pair>,
                    calls: seq<FilterCall>, lastKey: Bytes, p: Pair, handle: Handle)
    requires Shortens(c) && Consistent(c, crc, file, ds, [], index, true, calls)
    requires |Flat(ds) + []| > 0 && lastKey == LastKeyOf(Flat(ds) + []) && handle == ds[|ds| - 1].handle
    requires Ascending(c.order, Flat(ds) + [] + [p])
    ensures |c.separator(lastKey, p.key)| <= |lastKey| && |EncodeHandle(handle)| <= 20
    ensures Consistent(c, crc, file, ds, [p], index + [Pair(c.separator(lastKey, p.key), EncodeHandle(handle))], false, calls + [AddKey(p.key)])
  {
    var flat := Flat(ds);
    assert flat + [] == flat;
    LastHandle(crc, file, ds);
    assert (flat + [p])[|flat| - 1].key == lastKey && (flat + [p])[|flat|] == p;
    FirstAddKeepsConsistent(c, crc, file, ds, index, calls, p, Pair(c.separator(lastKey, p.key), EncodeHandle(handle)));
  }

  lemma LastHandle(crc: BlockChecksum, file: Bytes, ds: seq<DataBlock>)
    requires ds != [] && AllStored(crc, file, ds)
    ensures ds[|ds| - 1].pairs != [] && |EncodeHandle(ds[|ds| - 1].handle)| <= 20
    ensures |Flat(ds)| > 0 && LastKeyOf(Flat(ds)) == LastKeyOf(ds[|ds| - 1].pairs)
  {
    assert Stored(crc, file, ds[|ds| - 1]);
    HandleLength(ds[|ds| - 1].handle);
    LastOfBlocks(ds);
  }

  /** The index entry of the last block of the table. */
  lemma SettleLast(c: Comparator, crc: BlockChecksum, file: Bytes, ds: seq<DataBlock>, index: seq<Pair>,
                   calls: seq<FilterCall>, lastKey: Bytes, handle: Handle)
    requires Shortens(c) && Consistent(c, crc, file, ds, [], index, true, calls)
    requires |Flat(ds) + []| > 0 && lastKey == LastKeyOf(Flat(ds) + []) && handle == ds[|ds| - 1].handle
    ensures |c.successor(lastKey)| <= |lastKey| && |EncodeHandle(handle)| <= 20
    ensures IndexOk(c, ds, None, index + [Pair(c.successor(lastKey), EncodeHandle(handle))])
  {
    assert Flat(ds) + [] == Flat(ds);
    LastHandle(crc, file, ds);
    var longer := index + [Pair(c.successor(lastKey), EncodeHandle(handle))];
    forall i | 0 <= i < |longer| ensures IndexEntryOk(c, ds, None, longer, i) {
      if i < |index| { assert IndexEntryOk(c, ds, NextKey([]), index, i); }
    }
  }

  lemma NothingMore(flat: seq<Pair>)
    ensures flat + [] == flat
  {
  }

  lemma SameRow(flat: seq<Pair>, filling: seq<Pair>, p: Pair)
    ensures flat + (filling + [p]) == flat + filling + [p] && [] + [p] == [p]
    ensures LastKeyOf(flat + (filling + [p])) == p.key
  {
  }

  ghost predicate Filling(b: BlockBuilder)
    reads b
  {
    b.Valid() && !b.finished
  }

  lemma AscendsBy(order: Order, pairs: seq<Pair>, p: Pair)
    requires Ascending(order, pairs) && (|pairs| > 0 ==> order(LastKeyOf(pairs)) < order(p.key))
    ensures Ascending(order, pairs + [p])
  {
  }

  lemma LastOfBlocks(ds: seq<DataBlock>)
    requires ds != [] && ds[|ds| - 1].pairs != []
    ensures |Flat(ds)| > 0 && LastKeyOf(Flat(ds)) == LastKeyOf(ds[|ds| - 1].pairs)
  {
    var before, last := Flat(ds[..|ds| - 1]), ds[|ds| - 1].pairs;
    assert (before + last)[|before + last| - 1] == last[|last| - 1];
  }

  // ---- The finished file -----------------------------------------------------------------------

  datatype Shape = Shape(blocks: seq<DataBlock>, index: seq<Pair>, indexStarts: seq<nat>, footer: Footer)

  /** A table file: data blocks, an index entry for each, and a footer that finds the index. */
  ghost predicate IsTable(c: Comparator, crc: BlockChecksum, file: Bytes, t: Shape) {
    && AllStored(crc, file, t.blocks) && InFileOrder(t.blocks) && Ascending(c.order, Flat(t.blocks))
    && IndexOk(c, t.blocks, None, t.index) && |t.index| == |t.blocks|
    && Sound(t.index, t.indexStarts) && Encodable(t.footer.metaindex) && Encodable(t.footer.index)
    && Holds(crc, file, t.footer.index, BlockBytes(t.index, t.indexStarts))
    && |file| >= FOOTER && file[|file| - FOOTER..] == EncodeFooter(t.footer)
  }

  lemma FinishedTable(c: Comparator, crc: BlockChecksum, body: Bytes, ds: seq<DataBlock>, footer: Footer,
                      index: seq<Pair>, starts: seq<nat>)
    requires AllStored(crc, body, ds) && InFileOrder(ds) && Ascending(c.order, Flat(ds))
    requires IndexOk(c, ds, None, index) && |index| == |ds| && Sound(index, starts)
    requires footer.index == Handle(|body|, |BlockBytes(index, starts)|)
    requires Encodable(footer.metaindex) && Encodable(footer.index)
    ensures IsTable(c, crc, body + RawBlock(crc, BlockBytes(index, starts)) + EncodeFooter(footer), Shape(ds, index, starts, footer))
    ensures body + RawBlock(crc, BlockBytes(index, starts)) + EncodeFooter(footer) ==
            body + (RawBlock(crc, BlockBytes(index, starts)) + EncodeFooter(footer))
  {
    var raw, tail := RawBlock(crc, BlockBytes(index, starts)), EncodeFooter(footer);
    Assoc(body, raw, tail);
    StoredStays(crc, body, raw + tail, ds);
    HoldsAtEnd(crc, body, BlockBytes(index, starts));
    HoldsStays(crc, body + raw, tail, footer.index, BlockBytes(index, starts));
    FooterAtEnd(body + raw, tail);
  }

  lemma FooterAtEnd(body: Bytes, tail: Bytes)
    ensures |body + tail| >= |tail| && (body + tail)[|body + tail| - |tail|..] == tail
  {
  }

  // ---- The filter block and the metaindex --------------------------------------------------------

  /** What FilterBlockBuilder::Finish returned, and the policy's name. */
  datatype NamedFilter = NamedFilter(name: Bytes, contents: Bytes)

  /** The metaindex block, and where the filter block is, if there is one. */
  datatype Meta = Meta(pairs: seq<Pair>, starts: seq<nat>, handle: Handle)

  /** "filter." and the name. */
  function FilterKey(name: Bytes): Bytes { [102, 105, 108, 116, 101, 114, 46] + name }

  ghost function FilterSize(filter: Option<NamedFilter>): nat { if filter.Some? then |filter.value.contents| else 0 }

  ghost predicate ShortName(filter: Option<NamedFilter>) { filter.Some? ==> |filter.value.name| + 60 < TWO32 }

  ghost predicate HasMeta(crc: BlockChecksum, file: Bytes, metaindex: Handle, m: Meta, filter: Option<NamedFilter>) {
    && Sound(m.pairs, m.starts) && Holds(crc, file, metaindex, BlockBytes(m.pairs, m.starts))
    && match filter
       case None => m.pairs == []
       case Some(f) => m.pairs == [Pair(FilterKey(f.name), EncodeHandle(m.handle))] && Encodable(m.handle)
                       && Holds(crc, file, m.handle, f.contents)
  }

  lemma MetaStays(crc: BlockChecksum, file: Bytes, more: Bytes, metaindex: Handle, m: Meta, filter: Option<NamedFilter>)
    requires HasMeta(crc, file, metaindex, m, filter)
    ensures HasMeta(crc, file + more, metaindex, m, filter)
  {
    HoldsStays(crc, file, more, metaindex, BlockBytes(m.pairs, m.starts));
    if filter.Some? { HoldsStays(crc, file, more, m.handle, filter.value.contents); }
  }

  /** The file up to the metaindex block, after the data blocks. */
  ghost function WithFilter(crc: BlockChecksum, body: Bytes, filter: Option<NamedFilter>): Bytes {
    if filter.Some? then body + RawBlock(crc, filter.value.contents) else body
  }

  lemma MetaWritten(crc: BlockChecksum, body: Bytes, ds: seq<DataBlock>, filter: Option<NamedFilter>, m: Meta)
    requires AllStored(crc, body, ds) && Sound(m.pairs, m.starts)
    requires if filter.None? then m.pairs == []
             else m.pairs == [Pair(FilterKey(filter.value.name), EncodeHandle(m.handle))] && Encodable(m.handle)
                  && m.handle == Handle(|body|, |filter.value.contents|)
    ensures var file := WithFilter(crc, body, filter); var raw := RawBlock(crc, BlockBytes(m.pairs, m.starts));
            AllStored(crc, file + raw, ds)
            && HasMeta(crc, file + raw, Handle(|file|, |BlockBytes(m.pairs, m.starts)|), m, filter)
  {
    var file := WithFilter(crc, body, filter);
    var raw := RawBlock(crc, BlockBytes(m.pairs, m.starts));
    if filter.Some? {
      StoredStays(crc, body, RawBlock(crc, filter.value.contents), ds);
      HoldsAtEnd(crc, body, filter.value.contents);
      HoldsStays(crc, file, raw, m.handle, filter.value.contents);
    }
    StoredStays(crc, file, raw, ds);
    HoldsAtEnd(crc, file, BlockBytes(m.pairs, m.starts));
  }
}
