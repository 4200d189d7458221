/** A run of the store that reaches the tree of Resurrection, and the compaction that then brings
    a deleted key back: writes, a snapshot between two versions of a key, a compaction whose
    output is cut between them, the snapshot released, and one more write. */
module ReachedSplits {
  import opened Coding
  import opened InternalKeys
  import opened Lookup
  import opened Versions
  import opened Selection
  import opened DropRules
  import opened Compactions
  import opened Install
  import opened Stores
  import opened UncutRuns
  import opened Resurrection

  const TWO_KEYS: seq<Op> := [Put(1.0, [6]), Put(2.0, [9])]
  const ONE_GONE: seq<Op> := [Delete(2.0)]
  const ONE_MORE: seq<Op> := [Put(1.0, [7])]

  const WHOLE: seq<Entry> := [OLD_ONE, GONE_TWO, OLD_TWO]
  const FLUSHED := File(1, 1, WHOLE)
  const FLUSHED_TREE: Version := [[], [], [FLUSHED], [], [], [], []]
  const CUT_TREE: Version := [[], [], [], [LEFT, RIGHT], [], [], []]

  const EMPTY_TREE: Version := [[], [], [], [], [], [], []]

  // ---- Making a run longer ---------------------------------------------------------------------------

  /** A run that has got to db. */
  ghost predicate GotTo(run: seq<Store>, events: seq<Event>, db: Store) {
    IsCodeRun(run, events) && run[|run| - 1] == db && Inv(db)
  }

  lemma OneMoreStep(run: seq<Store>, events: seq<Event>, db: Store, db': Store, ev: Event)
    requires GotTo(run, events, db) && CodeStep(db, db', ev)
    ensures IsCodeRun(run + [db'], events + [ev])
  {
    var longer, did := run + [db'], events + [ev];
    forall i | 0 <= i < |did| ensures TreeInv(longer[i].version) && CodeStep(longer[i], longer[i + 1], did[i]) {
      if i < |events| {
        assert longer[i] == run[i] && longer[i + 1] == run[i + 1] && did[i] == events[i];
      }
    }
  }

  lemma Onwards(run: seq<Store>, events: seq<Event>, db: Store, db': Store, ev: Event)
    requires GotTo(run, events, db) && CodeStep(db, db', ev) && ChecksNextLevel(db, db', ev)
    ensures GotTo(run + [db'], events + [ev], db')
  {
    CheckedStep(db, db', ev);
    StepKeepsInv(db, db', ev);
    OneMoreStep(run, events, db, db', ev);
  }

  lemma Writing(run: seq<Store>, events: seq<Event>, db: Store, ops: seq<Op>, news: seq<Entry>, mem: seq<Entry>)
      returns (db': Store)
    requires GotTo(run, events, db) && db.lastSequence + |ops| < MAX_SEQUENCE
    requires news == BatchSeq(ops, db.lastSequence) && SortedEntries(mem) && EntrySet(mem) == EntrySet(db.mem) + EntrySet(news)
    ensures db' == db.(mem := mem, lastSequence := db.lastSequence + |ops|, history := db.history + EntrySet(news))
    ensures GotTo(run + [db'], events + [Write(ops)], db')
  {
    db' := db.(mem := mem, lastSequence := db.lastSequence + |ops|, history := db.history + EntrySet(news));
    assert CanWrite(db, db', ops);
    Onwards(run, events, db, db', Write(ops));
  }

  lemma Flushing(run: seq<Store>, events: seq<Event>, db: Store, level: nat, f: File, tree: Version) returns (db': Store)
    requires GotTo(run, events, db) && db.imm == Some(f.entries) && f.Valid() && f.number == db.nextFile
    requires FlushLevel(db.version, level, f) && tree == AddFile(db.version, level, f)
    ensures db' == db.(imm := None, nextFile := db.nextFile + 1, version := tree)
    ensures GotTo(run + [db'], events + [Flush(level)], db')
  {
    db' := db.(imm := None, nextFile := db.nextFile + 1, version := tree);
    assert File(db.nextFile, f.size, db.imm.value) == f;
    assert CanFlush(db, db', level);
    Onwards(run, events, db, db', Flush(level));
  }

  lemma Compacting(db: Store, level: nat, in0: Level, in1: Level, merged: seq<Entry>, outs: Level) returns (db': Store)
    requires TreeInv(db.version) && level + 1 < NUM_LEVELS && ValidInputs(db.version, level, in0, in1)
    requires ValidFiles(in1) && ValidFiles(outs) && IsMerge(in0 + in1, merged) && NumberedFrom(outs, db.nextFile)
    requires Flatten(outs) == KeptOf(merged, |merged|, Oldest(db), BaseOf(db.version, level))
    ensures db' == db.(version := InstallResults(db.version, level, in0, in1, outs), nextFile := db.nextFile + |outs|)
    ensures CodeStep(db, db', Compact(level, in0, in1, merged, outs))
  {
    db' := db.(version := InstallResults(db.version, level, in0, in1, outs), nextFile := db.nextFile + |outs|);
  }

  // ---- The entries and files of this run -----------------------------------------------------------------

  lemma Batches()
    ensures BatchSeq(TWO_KEYS, 0) == [OLD_ONE, OLD_TWO] && BatchSeq(ONE_GONE, 2) == [GONE_TWO] && BatchSeq(ONE_MORE, 3) == [NEW_ONE]
  {
  }

  lemma Memtables()
    ensures SortedEntries([OLD_ONE, OLD_TWO]) && EntrySet([OLD_ONE, OLD_TWO]) == EntrySet([]) + EntrySet([OLD_ONE, OLD_TWO])
    ensures SortedEntries(WHOLE) && EntrySet(WHOLE) == EntrySet([OLD_ONE, OLD_TWO]) + EntrySet([GONE_TWO])
    ensures SortedEntries([NEW_ONE]) && EntrySet([NEW_ONE]) == EntrySet([]) + EntrySet([NEW_ONE])
  {
    assert WHOLE[0] == OLD_ONE && WHOLE[1] == GONE_TWO && WHOLE[2] == OLD_TWO;
    forall e ensures e in WHOLE <==> e in [OLD_ONE, OLD_TWO] || e in [GONE_TWO] {
    }
  }

  lemma FirstFlush()
    requires TreeInv(EMPTY_TREE)
    ensures FLUSHED.Valid() && FlushLevel(EMPTY_TREE, 2, FLUSHED) && AddFile(EMPTY_TREE, 2, FLUSHED) == FLUSHED_TREE
  {
    assert InsertFile([], FLUSHED) == [FLUSHED];
    assert EMPTY_TREE[2 := [FLUSHED]] == FLUSHED_TREE;
  }

  lemma SecondFlush()
    requires TreeInv(CUT_TREE)
    ensures UPPER.Valid() && FlushLevel(CUT_TREE, 2, UPPER) && AddFile(CUT_TREE, 2, UPPER) == SPLIT
  {
    assert InsertFile([], UPPER) == [UPPER];
    assert CUT_TREE[2 := [UPPER]] == SPLIT;
  }

  // ---- The compaction that cuts key 2 in two -----------------------------------------------------------

  lemma FirstInputs()
    requires TreeInv(FLUSHED_TREE)
    ensures ValidInputs(FLUSHED_TREE, 2, [FLUSHED], [])
  {
    assert SliceOf(FLUSHED_TREE[2], [FLUSHED], 0, 1);
    assert [FLUSHED][0].Smallest().user == 1.0 && [FLUSHED][0].Largest().user == 2.0;
    assert SpansUsers([FLUSHED], 1.0, 2.0);
    assert Overlapping(FLUSHED_TREE[3], Span(1.0, 2.0)) == [];
  }

  lemma FirstMerge()
    requires TreeInv(FLUSHED_TREE)
    ensures IsMerge([FLUSHED] + [], WHOLE)
    ensures Flatten([LEFT, RIGHT]) == KeptOf(WHOLE, 3, 2, BaseOf(FLUSHED_TREE, 2)) == WHOLE
  {
    var inputs, base := [FLUSHED] + [], BaseOf(FLUSHED_TREE, 2);
    assert inputs[0] == FLUSHED && FLUSHED in inputs;
    assert KeptOf(WHOLE, 0, 2, base) == [];
    assert KeptOf(WHOLE, 1, 2, base) == [OLD_ONE];
    assert KeptOf(WHOLE, 2, 2, base) == [OLD_ONE, GONE_TWO];
    assert [LEFT, RIGHT][..1] == [LEFT] && [LEFT][..0] == [];
    assert Flatten([]) == [];
    assert Flatten([LEFT]) == LEFT.entries;
  }

  lemma CutInstalled()
    requires TreeInv(FLUSHED_TREE)
    ensures ValidFiles([LEFT, RIGHT]) && InstallResults(FLUSHED_TREE, 2, [FLUSHED], [], [LEFT, RIGHT]) == CUT_TREE
  {
    SplitLevels();
    assert FLUSHED_TREE[2][1..] == [] && [FLUSHED][0].number in Numbers([FLUSHED]);
    assert WithoutNumbers(FLUSHED_TREE[2], Numbers([FLUSHED])) == [];
    assert WithoutNumbers(FLUSHED_TREE[3], Numbers([])) == [];
    BothInserted();
  }

  lemma BothInserted()
    ensures ValidFiles([LEFT, RIGHT]) && InsertFiles([], [LEFT, RIGHT]) == [LEFT, RIGHT]
  {
    SplitLevels();
    assert [LEFT, RIGHT][1..] == [RIGHT] && [RIGHT][1..] == [];
    assert InsertFile([], LEFT) == [LEFT];
    assert [LEFT][1..] == [] && InsertFile([], RIGHT) == [RIGHT];
    assert InsertFile([LEFT], RIGHT) == [LEFT, RIGHT];
    assert InsertFiles([], [LEFT, RIGHT]) == InsertFiles([LEFT], [RIGHT]) == InsertFiles([LEFT, RIGHT], []);
  }

  // ---- The whole run --------------------------------------------------------------------------------------

  /** Two writes with a snapshot between them. */
  lemma Written() returns (run: seq<Store>, events: seq<Event>, db: Store)
    ensures GotTo(run, events, db)
    ensures db == Store(WHOLE, None, EMPTY_TREE, 3, 1, [2], db.history)
  {
    var db0 := Store([], None, EMPTY_TREE, 0, 1, [], iset{});
    InitHolds(db0);
    Batches();
    Memtables();
    var db1 := Writing([db0], [], db0, TWO_KEYS, [OLD_ONE, OLD_TWO], [OLD_ONE, OLD_TWO]);
    var db2 := db1.(snapshots := [2]);
    Onwards([db0] + [db1], [] + [Write(TWO_KEYS)], db1, db2, TakeSnapshot);
    run, events := [db0] + [db1] + [db2], [] + [Write(TWO_KEYS)] + [TakeSnapshot];
    db := Writing(run, events, db2, ONE_GONE, [GONE_TWO], WHOLE);
    run, events := run + [db], events + [Write(ONE_GONE)];
  }

  lemma Flushed() returns (run: seq<Store>, events: seq<Event>, db: Store)
    ensures GotTo(run, events, db)
    ensures db == Store([], None, FLUSHED_TREE, 3, 2, [2], db.history)
  {
    var db0;
    run, events, db0 := Written();
    var db1 := db0.(imm := Some(WHOLE), mem := []);
    Onwards(run, events, db0, db1, Rotate);
    run, events := run + [db1], events + [Rotate];
    FirstFlush();
    db := Flushing(run, events, db1, 2, FLUSHED, FLUSHED_TREE);
    run, events := run + [db], events + [Flush(2)];
  }

  /** The compaction under the snapshot is cut between the two versions. */
  lemma FirstCompaction(db: Store) returns (db': Store)
    requires Inv(db) && db == Store([], None, FLUSHED_TREE, 3, 2, [2], db.history)
    ensures db' == Store([], None, CUT_TREE, 3, 4, [2], db.history)
    ensures CodeStep(db, db', Compact(2, [FLUSHED], [], WHOLE, [LEFT, RIGHT]))
  {
    FirstInputs();
    FirstMerge();
    CutInstalled();
    db' := Compacting(db, 2, [FLUSHED], [], WHOLE, [LEFT, RIGHT]);
  }

  lemma CutInTwo() returns (run: seq<Store>, events: seq<Event>, db: Store)
    ensures GotTo(run, events, db)
    ensures db == Store([], None, CUT_TREE, 3, 4, [2], db.history)
  {
    var db0;
    run, events, db0 := Flushed();
    db := FirstCompaction(db0);
    var ev := Compact(2, [FLUSHED], [], WHOLE, [LEFT, RIGHT]);
    Onwards(run, events, db0, db, ev);
    run, events := run + [db], events + [ev];
  }

  lemma SnapshotGone() returns (run: seq<Store>, events: seq<Event>, db: Store)
    ensures GotTo(run, events, db)
    ensures db == Store([], None, CUT_TREE, 3, 4, [], db.history)
  {
    var db0;
    run, events, db0 := CutInTwo();
    db := db0.(snapshots := []);
    assert [2][..0] + [2][1..] == [];
    Onwards(run, events, db0, db, ReleaseSnapshot(0));
    run, events := run + [db], events + [ReleaseSnapshot(0)];
  }

  lemma GotToSplit() returns (run: seq<Store>, events: seq<Event>, db: Store)
    ensures GotTo(run, events, db)
    ensures db == Store([], None, SPLIT, 4, 5, [], db.history)
  {
    var db0;
    run, events, db0 := SnapshotGone();
    Batches();
    Memtables();
    var db1 := Writing(run, events, db0, ONE_MORE, [NEW_ONE], [NEW_ONE]);
    run, events := run + [db1], events + [Write(ONE_MORE)];
    var db2 := db1.(imm := Some([NEW_ONE]), mem := []);
    Onwards(run, events, db1, db2, Rotate);
    run, events := run + [db2], events + [Rotate];
    SecondFlush();
    db := Flushing(run, events, db2, 2, UPPER, SPLIT);
    run, events := run + [db], events + [Flush(2)];
  }

  lemma NothingInMemory(db: Store)
    requires db.mem == [] && db.imm == None
    ensures Contents(db) == TreeEntries(db.version)
  {
  }

  /** The store can get there, and what it does next brings the key back: a read at the last
      sequence number returns a value that the history has deleted. */
  lemma RunBringsKeyBack() returns (run: seq<Store>, events: seq<Event>, db: Store)
    ensures IsCodeRun(run, events) && db == run[|run| - 1] && Live(db, 4)
    ensures Read(db.history, 2.0, 4) == None && Read(Contents(db), 2.0, 4).Some?
  {
    var db0;
    run, events, db0 := GotToSplit();
    DeletedKeyComesBack();
    SplitInputs();
    SplitNumbers();
    db := Compacting(db0, 2, [UPPER], [LEFT], MERGED, [OUTPUT]);
    OneMoreStep(run, events, db0, db, Compact(2, [UPPER], [LEFT], MERGED, [OUTPUT]));
    run, events := run + [db], events + [Compact(2, [UPPER], [LEFT], MERGED, [OUTPUT])];
    NothingInMemory(db0);
    NothingInMemory(db);
  }
}
