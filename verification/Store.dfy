/** The whole store as a state machine: writes, memtable rotation, flush, trivial move,
    compaction and snapshots, with DBImpl::Get proved against the history of all writes. */
module Stores {
  import opened Coding
  import opened InternalKeys
  import opened Lookup
  import opened Versions
  import opened Selection
  import opened DropRules
  import opened Compactions
  import opened Install

  /** `history` is every entry ever written; it exists to say what reads should return. */
  datatype Store = Store(
    mem: seq<Entry>, imm: Option<seq<Entry>>, version: Version,
    lastSequence: nat, nextFile: nat, snapshots: seq<nat>, history: iset<Entry>)

  ghost function ImmEntries(db: Store): iset<Entry> {
    match db.imm case None => iset{} case Some(es) => EntrySet(es)
  }

  ghost function InMemory(db: Store): iset<Entry> { EntrySet(db.mem) + ImmEntries(db) }

  ghost function Contents(db: Store): iset<Entry> { InMemory(db) + TreeEntries(db.version) }

  /** The smallest snapshot a compaction must respect. */
  function Oldest(db: Store): nat {
    if db.snapshots == [] then db.lastSequence else db.snapshots[0]
  }

  predicate Live(db: Store, s: nat) { s in db.snapshots || s == db.lastSequence }

  ghost predicate DistinctAcross(v: Version) {
    forall l, m, i, j :: 0 <= l < |v| && 0 <= m < |v| && l != m && 0 <= i < |v[l]| && 0 <= j < |v[m]| ==>
      v[l][i].number != v[m][j].number
  }

  ghost predicate Layered(db: Store) {
    && TreeInv(db.version)
    && SortedEntries(db.mem) && (db.imm.Some? ==> SortedEntries(db.imm.value))
    && NewerThan(EntrySet(db.mem), ImmEntries(db) + TreeEntries(db.version))
    && NewerThan(ImmEntries(db), TreeEntries(db.version))
  }

  ghost predicate Bounded(db: Store) {
    && db.lastSequence < MAX_SEQUENCE
    && (forall e :: e in db.history ==> e.Seq() <= db.lastSequence)
    && (forall i, j :: 0 <= i < j < |db.snapshots| ==> db.snapshots[i] <= db.snapshots[j])
    && (forall i :: 0 <= i < |db.snapshots| ==> db.snapshots[i] <= db.lastSequence)
  }

  /** Nothing invented, and every read a live snapshot can make is the read of the history. */
  ghost predicate Faithful(db: Store) {
    && Unique(db.history) && Contents(db) <= db.history
    && forall k, s: nat :: s >= Oldest(db) ==> Read(Contents(db), k, s) == Read(db.history, k, s)
  }

  ghost predicate Inv(db: Store) {
    && Layered(db) && Bounded(db) && Faithful(db)
    && NumbersBelow(db.version, db.nextFile) && DistinctAcross(db.version)
  }

  // ---- Steps -------------------------------------------------------------------------

  function EntryOf(op: Op, seqno: SequenceNumber): Entry {
    match op
    case Put(k, v) => Entry(InternalKey(k, seqno, TypeValue), v)
    case Delete(k) => Entry(InternalKey(k, seqno, TypeDeletion), [])
  }

  /** The entries a batch gets: consecutive sequence numbers after the last one used. */
  function BatchSeq(ops: seq<Op>, last: nat): seq<Entry>
    requires last + |ops| <= MAX_SEQUENCE
  {
    seq(|ops|, i requires 0 <= i < |ops| => EntryOf(ops[i], last + 1 + i))
  }

  ghost function BatchEntries(ops: seq<Op>, last: nat): iset<Entry>
    requires last + |ops| <= MAX_SEQUENCE
  {
    EntrySet(BatchSeq(ops, last))
  }

  datatype Event =
    | Write(ops: seq<Op>)
    | Rotate
    | Flush(level: nat)
    | Move(from: nat, file: File)
    | Compact(level: nat, in0: Level, in1: Level, merged: seq<Entry>, outs: Level)
    | TakeSnapshot
    | ReleaseSnapshot(index: nat)

  ghost predicate CanWrite(db: Store, db': Store, ops: seq<Op>) {
    && db.lastSequence + |ops| < MAX_SEQUENCE
    && SortedEntries(db'.mem)
    && var fresh' := BatchEntries(ops, db.lastSequence);
       EntrySet(db'.mem) == EntrySet(db.mem) + fresh'
       && db' == db.(mem := db'.mem, lastSequence := db.lastSequence + |ops|, history := db.history + fresh')
  }

  ghost predicate CanFlush(db: Store, db': Store, level: nat)
    requires TreeInv(db.version)
  {
    db.imm.Some? &&
    if db.imm.value == [] then db' == db.(imm := None, nextFile := db.nextFile + 1)
    else exists size ::
      var f := File(db.nextFile, size, db.imm.value);
      f.Valid() && FlushLevel(db.version, level, f)
      && db' == db.(imm := None, nextFile := db.nextFile + 1, version := AddFile(db.version, level, f))
  }

  ghost predicate CanMove(db: Store, db': Store, level: nat, f: File)
    requires TreeInv(db.version)
  {
    level + 1 < NUM_LEVELS && f.Valid() && ValidInputs(db.version, level, [f], [])
    && db' == db.(version := MoveFile(db.version, level, f))
  }

  /** The condition the code does not check: no marker is dropped in front of the value it hides. */
  ghost predicate Harmless(db: Store, level: nat, in0: Level, in1: Level)
    requires TreeInv(db.version) && level + 1 < NUM_LEVELS && ValidFiles(in1)
  {
    !UncoversValue(InMemory(db), db.version, level, in0, in1, Oldest(db))
  }

  /** What the code does. */
  ghost predicate Compacts(db: Store, db': Store, level: nat, in0: Level, in1: Level, merged: seq<Entry>, outs: Level)
    requires TreeInv(db.version)
  {
    && level + 1 < NUM_LEVELS && ValidInputs(db.version, level, in0, in1) && ValidFiles(in1) && ValidFiles(outs)
    && IsMerge(in0 + in1, merged) && NumberedFrom(outs, db.nextFile)
    && Flatten(outs) == KeptOf(merged, |merged|, Oldest(db), BaseOf(db.version, level))
    && db' == db.(version := InstallResults(db.version, level, in0, in1, outs), nextFile := db.nextFile + |outs|)
  }

  ghost predicate CanCompact(db: Store, db': Store, level: nat, in0: Level, in1: Level, merged: seq<Entry>, outs: Level)
    requires TreeInv(db.version)
  {
    Compacts(db, db', level, in0, in1, merged, outs) && Harmless(db, level, in0, in1)
  }

  ghost predicate Step(db: Store, db': Store, ev: Event)
    requires TreeInv(db.version)
  {
    match ev
    case Write(ops) => CanWrite(db, db', ops)
    case Rotate => db.imm.None? && db' == db.(imm := Some(db.mem), mem := [])
    case Flush(level) => CanFlush(db, db', level)
    case Move(level, f) => CanMove(db, db', level, f)
    case Compact(level, in0, in1, merged, outs) => CanCompact(db, db', level, in0, in1, merged, outs)
    case TakeSnapshot => db' == db.(snapshots := db.snapshots + [db.lastSequence])
    case ReleaseSnapshot(i) => i < |db.snapshots| && db' == db.(snapshots := db.snapshots[..i] + db.snapshots[i + 1..])
  }

  ghost predicate Init(db: Store) {
    db == Store([], None, seq(NUM_LEVELS, _ => []), 0, db.nextFile, [], iset{})
  }

  // ---- Each step keeps the invariant -------------------------------------------------

  lemma InitHolds(db: Store)
    requires Init(db)
    ensures Inv(db)
  {
    assert forall e :: !InTree(db.version, e);
    assert Contents(db) == db.history;
  }

  lemma ContentsUnique(db: Store)
    requires Inv(db)
    ensures Unique(Contents(db)) && NewerThan(InMemory(db), TreeEntries(db.version))
    ensures forall e :: e in Contents(db) ==> e.Seq() <= db.lastSequence
  {
    UniqueSubset(db.history, Contents(db));
  }

  lemma BatchIsNew(db: Store, ops: seq<Op>)
    requires Inv(db) && db.lastSequence + |ops| <= MAX_SEQUENCE
    ensures Unique(BatchEntries(ops, db.lastSequence))
    ensures NewerThan(BatchEntries(ops, db.lastSequence), db.history)
    ensures forall e :: e in BatchEntries(ops, db.lastSequence) ==> e.Seq() <= db.lastSequence + |ops|
  {
  }

  lemma WriteKeepsInv(db: Store, db': Store, ops: seq<Op>)
    requires Inv(db) && CanWrite(db, db', ops)
    ensures Inv(db')
  {
    var added := BatchEntries(ops, db.lastSequence);
    BatchIsNew(db, ops);
    ContentsUnique(db);
    assert Contents(db') == added + Contents(db);
    assert db'.history == added + db.history;
    assert ImmEntries(db') == ImmEntries(db);
    UpperLayerAnswers(added, db.history, 0.0, 0);
    forall k, s: nat | s >= Oldest(db') ensures Read(Contents(db'), k, s) == Read(db'.history, k, s) {
      assert s >= Oldest(db);
      ReadUnderNewLayer(added, Contents(db), db.history, k, s);
    }
  }

  lemma ReadUnderNewLayer(added: iset<Entry>, A: iset<Entry>, B: iset<Entry>, k: UserKey, s: nat)
    requires Unique(added) && Unique(A) && Unique(B) && NewerThan(added, A) && NewerThan(added, B)
    requires Read(A, k, s) == Read(B, k, s)
    ensures Read(added + A, k, s) == Read(added + B, k, s)
  {
    UpperLayerAnswers(added, A, k, s);
    UpperLayerAnswers(added, B, k, s);
  }

  lemma RotateKeepsInv(db: Store, db': Store)
    requires Inv(db) && Step(db, db', Rotate)
    ensures Inv(db')
  {
    assert EntrySet(db'.mem) == iset{};
    assert Contents(db') == Contents(db);
  }

  lemma FlushKeepsInv(db: Store, db': Store, level: nat)
    requires Inv(db) && CanFlush(db, db', level)
    ensures Inv(db')
  {
    if db.imm.value == [] {
      assert ImmEntries(db) == ImmEntries(db');
      assert Contents(db') == Contents(db);
    } else {
      var size :| var f := File(db.nextFile, size, db.imm.value);
        f.Valid() && FlushLevel(db.version, level, f)
        && db' == db.(imm := None, nextFile := db.nextFile + 1, version := AddFile(db.version, level, f));
      var f := File(db.nextFile, size, db.imm.value);
      FlushKeepsTree(db.version, level, f, db.nextFile);
      assert Contents(db') == Contents(db);
      FlushKeepsNumbers(db.version, level, f, db.nextFile);
    }
  }

  lemma FlushKeepsNumbers(v: Version, level: nat, f: File, next: nat)
    requires TreeInv(v) && f.Valid() && level < NUM_LEVELS && NumbersBelow(v, next) && DistinctAcross(v) && f.number == next
    ensures NumbersBelow(AddFile(v, level, f), next + 1) && DistinctAcross(AddFile(v, level, f))
  {
    var v' := AddFile(v, level, f);
    InsertFileMembers(v[level], f);
    forall l, i | 0 <= l < |v'| && 0 <= i < |v'[l]|
      ensures v'[l][i] in v[l] || (l == level && v'[l][i] == f)
    {
      assert v'[l][i] in v'[l];
    }
  }

  lemma MoveKeepsInv(db: Store, db': Store, level: nat, f: File)
    requires Inv(db) && CanMove(db, db', level, f)
    ensures Inv(db')
  {
    var v := db.version;
    InputsValid(v, level, [f], []);
    assert f in [f];
    MoveKeepsTree(v, level, f);
    assert Contents(db') == Contents(db);
    MoveKeepsNumbers(v, level, f, db.nextFile);
  }

  lemma MoveKeepsNumbers(v: Version, level: nat, f: File, next: nat)
    requires TreeInv(v) && level + 1 < NUM_LEVELS && f.Valid() && f in v[level] && NumbersBelow(v, next) && DistinctAcross(v)
    ensures NumbersBelow(MoveFile(v, level, f), next) && DistinctAcross(MoveFile(v, level, f))
  {
    var v' := MoveFile(v, level, f);
    forall l, i | 0 <= l < |v'| && 0 <= i < |v'[l]|
      ensures (v'[l][i] in v[l] && v'[l][i].number != f.number) || (l == level + 1 && v'[l][i] == f)
    {
      MovedMember(v, level, f, l, i);
    }
  }

  lemma MovedMember(v: Version, level: nat, f: File, l: nat, i: nat)
    requires TreeInv(v) && level + 1 < NUM_LEVELS && f.Valid() && f in v[level] && DistinctAcross(v)
    requires l < NUM_LEVELS && i < |MoveFile(v, level, f)[l]|
    ensures var g := MoveFile(v, level, f)[l][i];
            (g in v[l] && g.number != f.number) || (l == level + 1 && g == f)
  {
    var g := MoveFile(v, level, f)[l][i];
    WithoutNumbersMembers(v[level], {f.number});
    InsertFileMembers(v[level + 1], f);
    assert g in MoveFile(v, level, f)[l];
    if g in v[l] && l != level {
      NumbersApart(v, l, level, g, f);
    }
  }

  lemma NumbersApart(v: Version, l: nat, m: nat, f: File, g: File)
    requires DistinctAcross(v) && l < |v| && m < |v| && l != m && f in v[l] && g in v[m]
    ensures f.number != g.number
  {
    var i :| 0 <= i < |v[l]| && v[l][i] == f;
    var j :| 0 <= j < |v[m]| && v[m][j] == g;
  }

  lemma CompactKeepsNumbers(v: Version, level: nat, in0: Level, in1: Level, outs: Level, next: nat)
    requires TreeInv(v) && level + 1 < NUM_LEVELS && ValidFiles(outs)
    requires NumbersBelow(v, next) && DistinctAcross(v) && NumberedFrom(outs, next)
    ensures NumbersBelow(InstallResults(v, level, in0, in1, outs), next + |outs|)
    ensures DistinctAcross(InstallResults(v, level, in0, in1, outs))
  {
    var v' := InstallResults(v, level, in0, in1, outs);
    WithoutNumbersMembers(v[level], Numbers(in0));
    WithoutNumbersMembers(v[level + 1], Numbers(in1));
    WithoutNumbersValid(v[level + 1], Numbers(in1));
    InsertFilesMembers(WithoutNumbers(v[level + 1], Numbers(in1)), outs);
    forall l, i | 0 <= l < |v'| && 0 <= i < |v'[l]|
      ensures v'[l][i] in v[l] || (l == level + 1 && v'[l][i] in outs)
    {
      assert v'[l][i] in v'[l];
    }
  }

  lemma CompactKeepsInv(db: Store, db': Store, level: nat, in0: Level, in1: Level, merged: seq<Entry>, outs: Level)
    requires Inv(db) && CanCompact(db, db', level, in0, in1, merged, outs)
    ensures Inv(db')
  {
    ContentsUnique(db);
    CompactionReads(InMemory(db), db.version, level, in0, in1, merged, Oldest(db), outs, db.nextFile);
    CompactKeepsNumbers(db.version, level, in0, in1, outs, db.nextFile);
    assert Contents(db') <= Contents(db);
  }

  lemma StepKeepsInv(db: Store, db': Store, ev: Event)
    requires Inv(db) && Step(db, db', ev)
    ensures Inv(db')
  {
    match ev
    case Write(ops) => WriteKeepsInv(db, db', ops);
    case Rotate => RotateKeepsInv(db, db');
    case Flush(level) => FlushKeepsInv(db, db', level);
    case Move(level, f) => MoveKeepsInv(db, db', level, f);
    case Compact(level, in0, in1, merged, outs) => CompactKeepsInv(db, db', level, in0, in1, merged, outs);
    case TakeSnapshot =>
    case ReleaseSnapshot(i) =>
  }

  // ---- Whole runs --------------------------------------------------------------------

  /** A run of the store: consecutive states joined by events. */
  ghost predicate IsRun(run: seq<Store>, events: seq<Event>) {
    |run| == |events| + 1 && Init(run[0])
    && forall i :: 0 <= i < |events| ==> TreeInv(run[i].version) && Step(run[i], run[i + 1], events[i])
  }

  lemma {:induction false} RunKeepsInv(run: seq<Store>, events: seq<Event>, n: nat)
    requires IsRun(run, events) && n < |run|
    ensures Inv(run[n])
  {
    if n == 0 {
      InitHolds(run[0]);
    } else {
      RunKeepsInv(run, events, n - 1);
      StepKeepsInv(run[n - 1], run[n], events[n - 1]);
    }
  }

  /** A snapshot taken at state i answers the same at every later state of the run, until
      it is released: the history below it never changes. */
  lemma {:induction false} SnapshotsAreStable(run: seq<Store>, events: seq<Event>, i: nat, j: nat, k: UserKey, s: nat)
    requires IsRun(run, events) && i <= j < |run|
    requires s <= run[i].lastSequence && s >= Oldest(run[i]) && s >= Oldest(run[j])
    ensures Read(Contents(run[j]), k, s) == Read(Contents(run[i]), k, s)
  {
    RunKeepsInv(run, events, i);
    RunKeepsInv(run, events, j);
    HistoryBelowIsFixed(run, events, i, j, k, s);
  }

  lemma {:induction false} HistoryBelowIsFixed(run: seq<Store>, events: seq<Event>, i: nat, j: nat, k: UserKey, s: nat)
    requires IsRun(run, events) && i <= j < |run| && s <= run[i].lastSequence
    ensures s <= run[j].lastSequence && Read(run[j].history, k, s) == Read(run[i].history, k, s)
    decreases j
  {
    if i < j {
      HistoryBelowIsFixed(run, events, i, j - 1, k, s);
      RunStepKeepsHistory(run, events, j - 1, k, s);
    }
  }

  lemma RunStepKeepsHistory(run: seq<Store>, events: seq<Event>, n: nat, k: UserKey, s: nat)
    requires IsRun(run, events) && n < |events| && s <= run[n].lastSequence
    ensures s <= run[n + 1].lastSequence && Read(run[n + 1].history, k, s) == Read(run[n].history, k, s)
  {
    RunKeepsInv(run, events, n);
    StepKeepsHistoryBelow(run[n], run[n + 1], events[n], k, s);
  }

  lemma StepKeepsHistoryBelow(db: Store, db': Store, ev: Event, k: UserKey, s: nat)
    requires Inv(db) && Step(db, db', ev) && s <= db.lastSequence
    ensures s <= db'.lastSequence && Read(db'.history, k, s) == Read(db.history, k, s)
  {
    match ev
    case Write(ops) => WriteKeepsHistoryBelow(db, db', ops, k, s);
    case Flush(_) =>
    case _ =>
  }

  lemma WriteKeepsHistoryBelow(db: Store, db': Store, ops: seq<Op>, k: UserKey, s: nat)
    requires Inv(db) && CanWrite(db, db', ops) && s <= db.lastSequence
    ensures Read(db'.history, k, s) == Read(db.history, k, s)
  {
    var added := BatchEntries(ops, db.lastSequence);
    BatchIsNew(db, ops);
    assert db'.history == added + db.history;
    UpperLayerAnswers(added, db.history, k, s);
  }

  // ---- DBImpl::Get -------------------------------------------------------------------

  /** MemTable::Get: seek to the lookup key and check the user key of what is found. */
  method MemTableGet(es: seq<Entry>, k: UserKey, s: SequenceNumber) returns (r: GetResult)
    requires SortedEntries(es)
    ensures r == Outcome(NewestOf(EntrySet(es), k, s))
  {
    SeekFindsNewest(es, k, s);
    var i := LowerBound(es, LookupKey(k, s));
    if i < |es| && es[i].User() == k {
      return if es[i].IsValue() then Found(es[i].value) else Deleted;
    }
    return Missing;
  }

  /** The newest visible entry of the store is the first that the layers, newest first, show. */
  lemma LayersAnswer(db: Store, k: UserKey, s: SequenceNumber)
    requires Inv(db)
    ensures var m, i, t := NewestOf(EntrySet(db.mem), k, s), NewestOf(ImmEntries(db), k, s), NewestOf(TreeEntries(db.version), k, s);
            NewestOf(Contents(db), k, s) == if m.Some? then m else if i.Some? then i else t
  {
    ContentsUnique(db);
    var lower := ImmEntries(db) + TreeEntries(db.version);
    assert Contents(db) == EntrySet(db.mem) + lower;
    UniqueSubset(Contents(db), lower);
    UniqueSubset(Contents(db), EntrySet(db.mem));
    UniqueSubset(Contents(db), ImmEntries(db));
    UniqueSubset(Contents(db), TreeEntries(db.version));
    UpperLayerAnswers(EntrySet(db.mem), lower, k, s);
    UpperLayerAnswers(ImmEntries(db), TreeEntries(db.version), k, s);
  }

  /** DBImpl::Get at a live snapshot returns what the history of all writes says, although it
      stops at the first layer that knows the key. */
  method Get(db: Store, k: UserKey, s: SequenceNumber) returns (r: Option<Value>)
    requires Inv(db) && Live(db, s)
    ensures r == Read(db.history, k, s)
  {
    LayersAnswer(db, k, s);
    var found := MemTableGet(db.mem, k, s);
    if found.Missing? && db.imm.Some? {
      found := MemTableGet(db.imm.value, k, s);
    }
    if found.Missing? {
      found := Versions.Get(db.version, k, s);
    }
    return if found.Found? then Some(found.value) else None;
  }

  /** After any run, Get at any live snapshot is the history's answer. */
  lemma EveryRunServesReads(run: seq<Store>, events: seq<Event>, n: nat, s: SequenceNumber)
    requires IsRun(run, events) && n < |run| && Live(run[n], s)
    ensures Inv(run[n]) && s >= Oldest(run[n])
    ensures forall k :: Read(Contents(run[n]), k, s) == Read(run[n].history, k, s)
  {
    RunKeepsInv(run, events, n);
  }
}
