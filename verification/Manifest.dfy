/** The manifest (db/version_set.cc, db/db_impl.cc): the edit that every step of the store logs,
    and recovery, which feeds all of them to one builder. */
module Manifests {
  import opened Coding
  import opened InternalKeys
  import opened Lookup
  import opened Versions
  import opened Selection
  import opened Compactions
  import opened Install
  import opened Stores
  import opened UncutRuns
  import opened Builders

  /** The edit a step hands to LogAndApply; an empty one stands for no edit. */
  ghost predicate Logs(db: Store, db': Store, ev: Event, e: FileEdit)
    requires TreeInv(db.version)
  {
    match ev
    case Flush(level) =>
      db.imm.Some? &&
      if db.imm.value == [] then e == NO_FILES
      else exists size ::
        var f := File(db.nextFile, size, db.imm.value);
        level < NUM_LEVELS && f.Valid() && db'.version == AddFile(db.version, level, f) && e == FileEdit([], [(level, f)])
    case Move(level, f) => e == MoveEdit(level, f)
    case Compact(level, in0, in1, _, outs) => e == CompactionEdit(level, in0, in1, outs)
    case _ => e == NO_FILES
  }

  const NO_FILES := FileEdit([], [])

  /** The builder, given v and the edit, saves v'. */
  ghost predicate Saved(v: Version, v': Version, e: FileEdit) {
    |v| == |v'| == NUM_LEVELS && forall l :: 0 <= l < NUM_LEVELS ==> Lists(v'[l], After(FilesOf(v[l]), e, l))
  }

  ghost predicate FilesOk(v: Version, next: nat) {
    BaseOk(v) && NumbersBelow(v, next) && DistinctAcross(v)
  }

  // ---- Each step is the edit it logs -------------------------------------------------------------

  lemma NothingIsSaved(v: Version)
    requires BaseOk(v)
    ensures Saved(v, v, NO_FILES)
  {
  }

  lemma FlushIsSaved(v: Version, level: nat, f: File, next: nat)
    requires TreeInv(v) && FilesOk(v, next) && level < NUM_LEVELS && f.Valid() && f.number == next
    ensures Saved(v, AddFile(v, level, f), FileEdit([], [(level, f)]))
  {
    InsertFileByKey(v[level], f);
    InsertFileMembers(v[level], f);
  }

  function MoveEdit(level: nat, f: File): FileEdit { FileEdit([(level, f.number)], [(level + 1, f)]) }

  lemma MoveIsSaved(v: Version, level: nat, f: File, next: nat)
    requires TreeInv(v) && FilesOk(v, next) && level + 1 < NUM_LEVELS && f.Valid() && f in v[level]
    ensures Saved(v, MoveFile(v, level, f), MoveEdit(level, f))
  {
    WithoutNumbersByKey(v[level], {f.number});
    NumberFreeBelow(v, level, f);
    InsertFileByKey(v[level + 1], f);
    forall l, g | 0 <= l < NUM_LEVELS
      ensures g in MoveFile(v, level, f)[l] <==> g in After(FilesOf(v[l]), MoveEdit(level, f), l)
    {
      MoveEditFiles(v, level, f, l, g);
    }
  }

  lemma MoveEditFiles(v: Version, level: nat, f: File, l: nat, g: File)
    requires TreeInv(v) && level + 1 < NUM_LEVELS && f.Valid() && l < NUM_LEVELS
    ensures g in MoveFile(v, level, f)[l] <==> g in After(FilesOf(v[l]), MoveEdit(level, f), l)
  {
    WithoutNumbersMembers(v[level], {f.number});
    InsertFileMembers(v[level + 1], f);
  }

  lemma NumberFreeBelow(v: Version, level: nat, f: File)
    requires |v| == NUM_LEVELS && DistinctAcross(v) && level + 1 < NUM_LEVELS && f in v[level]
    ensures NumberFreeAt(v[level + 1], f.number)
  {
    var i :| 0 <= i < |v[level]| && v[level][i] == f;
  }

  lemma CompactionIsSaved(v: Version, level: nat, in0: Level, in1: Level, outs: Level, next: nat)
    requires TreeInv(v) && FilesOk(v, next) && level + 1 < NUM_LEVELS && ValidFiles(outs) && NumberedFrom(outs, next)
    ensures Saved(v, InstallResults(v, level, in0, in1, outs), CompactionEdit(level, in0, in1, outs))
  {
    forall l | 0 <= l < NUM_LEVELS
      ensures Lists(InstallResults(v, level, in0, in1, outs)[l], After(FilesOf(v[l]), CompactionEdit(level, in0, in1, outs), l))
    {
      InstallIsSaved(v, level, in0, in1, outs, next, l);
    }
  }

  // ---- What an edit adds -------------------------------------------------------------------------

  /** A file with a new number, or one that stood a level higher. */
  ghost predicate Addition(v: Version, next: nat, next': nat, l: nat, f: File) {
    && l < NUM_LEVELS == |v| && f.Valid() && f.number < next'
    && (f.number >= next || (l > 0 && f in v[l - 1]))
  }

  ghost predicate NotAdded(added: seq<(nat, File)>, number: nat) {
    forall n :: 0 <= n < |added| ==> added[n].1.number != number
  }

  ghost predicate Adds(v: Version, next: nat, v': Version, next': nat, added: seq<(nat, File)>) {
    && next <= next'
    && (forall n :: 0 <= n < |added| ==> Addition(v, next, next', added[n].0, added[n].1))
    && (forall n, m :: 0 <= n < m < |added| ==> added[n].0 == added[m].0 && added[n].1.number != added[m].1.number)
    && |v'| == |v|
    && forall l, i :: 0 <= l < |v'| && 0 <= i < |v'[l]| ==>
         (l, v'[l][i]) in added || (v'[l][i] in v[l] && NotAdded(added, v'[l][i].number))
  }

  lemma FlushAdds(v: Version, level: nat, f: File, next: nat)
    requires TreeInv(v) && FilesOk(v, next) && level < NUM_LEVELS && f.Valid() && f.number == next
    ensures Adds(v, next, AddFile(v, level, f), next + 1, [(level, f)])
  {
    var v': Version := AddFile(v, level, f);
    InsertFileMembers(v[level], f);
    forall l, i | 0 <= l < |v'| && 0 <= i < |v'[l]|
      ensures (l, v'[l][i]) in [(level, f)] || (v'[l][i] in v[l] && NotAdded([(level, f)], v'[l][i].number))
    {
      assert v'[l][i] in v'[l];
      if v'[l][i] in v[l] { NumberIsBelow(v, l, v'[l][i], next); }
    }
  }

  lemma NumberIsBelow(v: Version, l: nat, f: File, next: nat)
    requires NumbersBelow(v, next) && l < |v| && f in v[l]
    ensures f.number < next
  {
    var i :| 0 <= i < |v[l]| && v[l][i] == f;
  }

  lemma MoveAdds(v: Version, level: nat, f: File, next: nat)
    requires TreeInv(v) && FilesOk(v, next) && level + 1 < NUM_LEVELS && f.Valid() && f in v[level]
    ensures Adds(v, next, MoveFile(v, level, f), next, [(level + 1, f)])
  {
    var v': Version := MoveFile(v, level, f);
    NumberIsBelow(v, level, f, next);
    forall l, i | 0 <= l < |v'| && 0 <= i < |v'[l]|
      ensures (l, v'[l][i]) in [(level + 1, f)] || (v'[l][i] in v[l] && NotAdded([(level + 1, f)], v'[l][i].number))
    {
      MovedMember(v, level, f, l, i);
    }
  }

  lemma CompactionAdds(v: Version, level: nat, in0: Level, in1: Level, outs: Level, next: nat)
    requires TreeInv(v) && FilesOk(v, next) && level + 1 < NUM_LEVELS && ValidFiles(outs) && NumberedFrom(outs, next)
    ensures Adds(v, next, InstallResults(v, level, in0, in1, outs), next + |outs|, Additions(outs, level + 1))
  {
    var v': Version, added := InstallResults(v, level, in0, in1, outs), Additions(outs, level + 1);
    forall l, i | 0 <= l < |v'| && 0 <= i < |v'[l]|
      ensures (l, v'[l][i]) in added || (v'[l][i] in v[l] && NotAdded(added, v'[l][i].number))
    {
      AdditionsAre(outs, level + 1, l, v'[l][i]);
      InstalledMember(v, level, in0, in1, outs, l, i);
      if v'[l][i] in v[l] { NumberIsBelow(v, l, v'[l][i], next); }
    }
  }

  lemma InstalledMember(v: Version, level: nat, in0: Level, in1: Level, outs: Level, l: nat, i: nat)
    requires TreeInv(v) && level + 1 < NUM_LEVELS && ValidFiles(outs)
    requires l < NUM_LEVELS && i < |InstallResults(v, level, in0, in1, outs)[l]|
    ensures var g := InstallResults(v, level, in0, in1, outs)[l][i]; g in v[l] || (l == level + 1 && g in outs)
  {
    WithoutNumbersMembers(v[level], Numbers(in0));
    WithoutNumbersMembers(v[level + 1], Numbers(in1));
    WithoutNumbersValid(v[level + 1], Numbers(in1));
    InsertFilesMembers(WithoutNumbers(v[level + 1], Numbers(in1)), outs);
    assert InstallResults(v, level, in0, in1, outs)[l][i] in InstallResults(v, level, in0, in1, outs)[l];
  }

  // ---- Steps -------------------------------------------------------------------------------------

  lemma StepIsSaved(db: Store, db': Store, ev: Event, e: FileEdit)
    requires TreeInv(db.version) && FilesOk(db.version, db.nextFile) && CodeStep(db, db', ev) && Logs(db, db', ev, e)
    ensures Saved(db.version, db'.version, e) && EditOk(e)
    ensures Adds(db.version, db.nextFile, db'.version, db'.nextFile, e.added) && FilesOk(db'.version, db'.nextFile)
  {
    var v := db.version;
    match ev
    case Flush(level) =>
      if db.imm.value == [] {
        NothingIsSaved(v);
      } else {
        FlushStepIsSaved(db, db', level, e);
      }
    case Move(level, f) => MoveStepIsSaved(db, db', ev, e);
    case Compact(_, _, _, _, _) => CompactStepIsSaved(db, db', ev, e);
    case _ => NothingIsSaved(v);
  }

  lemma MoveStepIsSaved(db: Store, db': Store, ev: Event, e: FileEdit)
    requires TreeInv(db.version) && FilesOk(db.version, db.nextFile) && ev.Move? && CodeStep(db, db', ev) && Logs(db, db', ev, e)
    ensures Saved(db.version, db'.version, e) && EditOk(e)
    ensures Adds(db.version, db.nextFile, db'.version, db'.nextFile, e.added) && FilesOk(db'.version, db'.nextFile)
  {
    var v, level, f := db.version, ev.from, ev.file;
    InputsValid(v, level, [f], []);
    assert f in [f];
    MoveIsSaved(v, level, f, db.nextFile);
    MoveAdds(v, level, f, db.nextFile);
    MoveKeepsNumbers(v, level, f, db.nextFile);
  }

  lemma FlushStepIsSaved(db: Store, db': Store, level: nat, e: FileEdit)
    requires TreeInv(db.version) && FilesOk(db.version, db.nextFile) && CanFlush(db, db', level) && Logs(db, db', Flush(level), e)
    requires db.imm.value != []
    ensures Saved(db.version, db'.version, e) && EditOk(e)
    ensures Adds(db.version, db.nextFile, db'.version, db'.nextFile, e.added) && FilesOk(db'.version, db'.nextFile)
  {
    var size :| var f := File(db.nextFile, size, db.imm.value);
      level < NUM_LEVELS && f.Valid() && db'.version == AddFile(db.version, level, f) && e == FileEdit([], [(level, f)]);
    var f := File(db.nextFile, size, db.imm.value);
    FlushIsSaved(db.version, level, f, db.nextFile);
    FlushAdds(db.version, level, f, db.nextFile);
    FlushKeepsNumbers(db.version, level, f, db.nextFile);
  }

  lemma CompactStepIsSaved(db: Store, db': Store, ev: Event, e: FileEdit)
    requires TreeInv(db.version) && FilesOk(db.version, db.nextFile) && ev.Compact? && CodeStep(db, db', ev) && Logs(db, db', ev, e)
    ensures Saved(db.version, db'.version, e) && EditOk(e)
    ensures Adds(db.version, db.nextFile, db'.version, db'.nextFile, e.added) && FilesOk(db'.version, db'.nextFile)
  {
    CompactionIsSaved(db.version, ev.level, ev.in0, ev.in1, ev.outs, db.nextFile);
    CompactionAdds(db.version, ev.level, ev.in0, ev.in1, ev.outs, db.nextFile);
    CompactKeepsNumbers(db.version, ev.level, ev.in0, ev.in1, ev.outs, db.nextFile);
  }

  // ---- No level is given a number twice ------------------------------------------------------------

  /** Level l had a file of this number at the start, or has been given one since. */
  ghost predicate Recorded(base: Version, log: seq<(nat, File)>, l: nat, number: nat) {
    || (l < |base| && exists i :: 0 <= i < |base[l]| && base[l][i].number == number)
    || exists i :: 0 <= i < |log| && log[i].0 == l && log[i].1.number == number
  }

  /** Files only ever move down: a number is recorded at no level below its file's. */
  ghost predicate Sinks(base: Version, log: seq<(nat, File)>, v: Version) {
    forall l: nat, m, i :: 0 <= m < |v| && 0 <= i < |v[m]| && Recorded(base, log, l, v[m][i].number) ==> l <= m
  }

  ghost predicate LogInv(base: Version, log: seq<(nat, File)>, v: Version, next: nat) {
    && AddedOnce(base, log) && Sinks(base, log, v)
    && forall l: nat, number: nat :: Recorded(base, log, l, number) ==> number < next
  }

  lemma RecordedMore(base: Version, log: seq<(nat, File)>, added: seq<(nat, File)>, l: nat, number: nat)
    requires Recorded(base, log + added, l, number)
    ensures Recorded(base, log, l, number) || exists n :: 0 <= n < |added| && added[n].0 == l && added[n].1.number == number
  {
    if !Recorded(base, log, l, number) {
      var i :| 0 <= i < |log + added| && (log + added)[i].0 == l && (log + added)[i].1.number == number;
      assert i >= |log|;
      assert added[i - |log|] == (log + added)[i];
    }
  }

  /** What is added has only been recorded above the level it goes to. */
  lemma RecordedAbove(base: Version, log: seq<(nat, File)>, v: Version, next: nat, next': nat, m: nat, f: File, l: nat)
    requires LogInv(base, log, v, next) && Addition(v, next, next', m, f) && Recorded(base, log, l, f.number)
    ensures l < m
  {
    var i :| 0 <= i < |v[m - 1]| && v[m - 1][i] == f;
  }

  lemma AddedOnceMore(base: Version, log: seq<(nat, File)>, v: Version, next: nat, v': Version, next': nat, added: seq<(nat, File)>)
    requires LogInv(base, log, v, next) && Adds(v, next, v', next', added) && |base| == NUM_LEVELS
    ensures AddedOnce(base, log + added)
  {
    var more := log + added;
    forall i, j | 0 <= i < j < |more| && more[i].0 == more[j].0 ensures more[i].1.number != more[j].1.number {
      if i < |log| <= j && more[i].1.number == more[j].1.number {
        assert log[i] == more[i] && added[j - |log|] == more[j];
        RecordedAbove(base, log, v, next, next', more[j].0, more[j].1, more[i].0);
      }
    }
    forall i, j | 0 <= i < |more| && 0 <= j < |base[more[i].0]| ensures base[more[i].0][j].number != more[i].1.number {
      if i >= |log| && base[more[i].0][j].number == more[i].1.number {
        assert added[i - |log|] == more[i];
        RecordedAbove(base, log, v, next, next', more[i].0, more[i].1, more[i].0);
      }
    }
  }

  lemma SinksOn(base: Version, log: seq<(nat, File)>, v: Version, next: nat, v': Version, next': nat, added: seq<(nat, File)>,
                l: nat, m: nat, i: nat)
    requires LogInv(base, log, v, next) && Adds(v, next, v', next', added)
    requires m < |v'| && i < |v'[m]| && Recorded(base, log + added, l, v'[m][i].number)
    ensures l <= m
  {
    var g := v'[m][i];
    RecordedMore(base, log, added, l, g.number);
    if (m, g) in added {
      var n :| 0 <= n < |added| && added[n] == (m, g);
      if Recorded(base, log, l, g.number) {
        RecordedAbove(base, log, v, next, next', m, g, l);
      }
    } else {
      var j :| 0 <= j < |v[m]| && v[m][j] == g;
    }
  }

  lemma StepKeepsLog(base: Version, log: seq<(nat, File)>, v: Version, next: nat, v': Version, next': nat, added: seq<(nat, File)>)
    requires LogInv(base, log, v, next) && Adds(v, next, v', next', added) && |base| == NUM_LEVELS
    ensures LogInv(base, log + added, v', next')
  {
    AddedOnceMore(base, log, v, next, v', next', added);
    forall l: nat, m, i | 0 <= m < |v'| && 0 <= i < |v'[m]| && Recorded(base, log + added, l, v'[m][i].number) ensures l <= m {
      SinksOn(base, log, v, next, v', next', added, l, m, i);
    }
    forall l: nat, number: nat | Recorded(base, log + added, l, number) ensures number < next' {
      RecordedMore(base, log, added, l, number);
    }
  }

  // ---- Whole runs ----------------------------------------------------------------------------------

  /** A stretch of a run, from any state on, and the edits it logs. */
  ghost predicate Logged(run: seq<Store>, events: seq<Event>, es: seq<FileEdit>) {
    && |run| == |events| + 1 == |es| + 1 && FilesOk(run[0].version, run[0].nextFile) && TreeInv(run[0].version)
    && forall i {:trigger LoggedAt(run, events, es, i)} :: 0 <= i < |events| ==> LoggedAt(run, events, es, i)
  }

  ghost predicate LoggedAt(run: seq<Store>, events: seq<Event>, es: seq<FileEdit>, i: nat)
    requires |run| == |events| + 1 == |es| + 1 && i < |events|
  {
    TreeInv(run[i].version) && CodeStep(run[i], run[i + 1], events[i]) && Logs(run[i], run[i + 1], events[i], es[i])
  }

  /** After n steps the version is what the first n edits make of the first one. */
  ghost predicate Replayed(run: seq<Store>, es: seq<FileEdit>, n: nat)
    requires n < |run| && n <= |es|
  {
    var base := run[0].version;
    && |base| == NUM_LEVELS && FilesOk(run[n].version, run[n].nextFile)
    && LogInv(base, AllAdded(es[..n]), run[n].version, run[n].nextFile)
    && (forall i :: 0 <= i < n ==> EditOk(es[i]))
    && forall l :: 0 <= l < NUM_LEVELS ==> Lists(run[n].version[l], AfterAll(FilesOf(base[l]), es[..n], l))
  }

  lemma StartsReplayed(run: seq<Store>, events: seq<Event>, es: seq<FileEdit>)
    requires Logged(run, events, es)
    ensures Replayed(run, es, 0)
  {
    var base: Version, next := run[0].version, run[0].nextFile;
    assert AllAdded(es[..0]) == [];
    forall l: nat, m, i | 0 <= m < |base| && 0 <= i < |base[m]| && Recorded(base, [], l, base[m][i].number) ensures l <= m {
      var j :| 0 <= j < |base[l]| && base[l][j].number == base[m][i].number;
    }
  }

  lemma {:induction false} RunIsReplayed(run: seq<Store>, events: seq<Event>, es: seq<FileEdit>, n: nat)
    requires Logged(run, events, es) && n < |run|
    ensures Replayed(run, es, n)
  {
    if n == 0 {
      StartsReplayed(run, events, es);
    } else {
      RunIsReplayed(run, events, es, n - 1);
      NextIsReplayed(run, events, es, n - 1);
    }
  }

  lemma NextIsReplayed(run: seq<Store>, events: seq<Event>, es: seq<FileEdit>, n: nat)
    requires Logged(run, events, es) && n < |events| && Replayed(run, es, n)
    ensures Replayed(run, es, n + 1)
  {
    assert LoggedAt(run, events, es, n);
    var base, db, db' := run[0].version, run[n], run[n + 1];
    StepIsSaved(db, db', events[n], es[n]);
    StepKeepsLog(base, AllAdded(es[..n]), db.version, db.nextFile, db'.version, db'.nextFile, es[n].added);
    AddedGrows(es, n);
    forall l | 0 <= l < NUM_LEVELS ensures Lists(db'.version[l], AfterAll(FilesOf(base[l]), es[..n + 1], l)) {
      AfterOneMore(FilesOf(base[l]), es, n, l);
      assert FilesOf(db.version[l]) == AfterAll(FilesOf(base[l]), es[..n], l);
    }
  }

  /** Every run of the store logs edits, one for each step. */
  lemma {:induction false} RunIsLogged(run: seq<Store>, events: seq<Event>) returns (es: seq<FileEdit>)
    requires IsCodeRun(run, events)
    ensures Logged(run, events, es)
    decreases |events|
  {
    if |events| == 0 {
      InitHolds(run[0]);
      es := [];
    } else {
      var n := |events| - 1;
      var before := RunIsLogged(run[..n + 1], events[..n]);
      var e := StepLogs(run[n], run[n + 1], events[n]);
      es := before + [e];
      forall i | 0 <= i < |events| ensures LoggedAt(run, events, es, i) {
        if i < n { assert LoggedAt(run[..n + 1], events[..n], before, i); }
      }
    }
  }

  lemma StepLogs(db: Store, db': Store, ev: Event) returns (e: FileEdit)
    requires TreeInv(db.version) && CodeStep(db, db', ev)
    ensures Logs(db, db', ev, e)
  {
    match ev
    case Flush(level) =>
      e := NO_FILES;
      if db.imm.value != [] {
        var size :| var f := File(db.nextFile, size, db.imm.value);
          f.Valid() && FlushLevel(db.version, level, f)
          && db' == db.(imm := None, nextFile := db.nextFile + 1, version := AddFile(db.version, level, f));
        e := FileEdit([], [(level, File(db.nextFile, size, db.imm.value))]);
      }
    case Move(level, f) => e := MoveEdit(level, f);
    case Compact(level, in0, in1, _, outs) => e := CompactionEdit(level, in0, in1, outs);
    case _ => e := NO_FILES;
  }

  lemma LoggedTail(run: seq<Store>, events: seq<Event>, es: seq<FileEdit>, m: nat)
    requires Logged(run, events, es) && m <= |events| && TreeInv(run[m].version)
    ensures Logged(run[m..], events[m..], es[m..])
  {
    RunIsReplayed(run, events, es, m);
    forall i | 0 <= i < |events| - m ensures LoggedAt(run[m..], events[m..], es[m..], i) {
      assert LoggedAt(run, events, es, m + i);
    }
  }

  // ---- The snapshot a manifest begins with -----------------------------------------------------------

  const EMPTY: Version := seq(NUM_LEVELS, _ => [])

  function FilesInOrder(v: Version, n: nat): seq<(nat, File)>
    requires n <= |v|
  {
    if n == 0 then [] else FilesInOrder(v, n - 1) + Additions(v[n - 1], n - 1)
  }

  /** WriteSnapshot: one edit that adds every file of the version. */
  function SnapshotEdit(v: Version): FileEdit { FileEdit([], FilesInOrder(v, |v|)) }

  lemma {:induction false} InOrderAre(v: Version, n: nat, l: nat, f: File)
    requires n <= |v|
    ensures (l, f) in FilesInOrder(v, n) <==> l < n && f in v[l]
  {
    if n > 0 {
      InOrderAre(v, n - 1, l, f);
      AdditionsAre(v[n - 1], n - 1, l, f);
    }
  }

  lemma {:induction false} InOrderOnce(v: Version, n: nat)
    requires TreeInv(v) && n <= NUM_LEVELS
    ensures AddedOnce(EMPTY, FilesInOrder(v, n)) && forall i :: 0 <= i < |FilesInOrder(v, n)| ==> FilesInOrder(v, n)[i].0 < n
  {
    if n > 0 { InOrderOnce(v, n - 1); }
  }

  /** From nothing, the snapshot and then the log add no number twice to a level. */
  lemma SnapshotThenLog(v: Version, log: seq<(nat, File)>)
    requires TreeInv(v) && AddedOnce(v, log)
    ensures AddedOnce(EMPTY, FilesInOrder(v, NUM_LEVELS) + log)
  {
    var first := FilesInOrder(v, NUM_LEVELS);
    var more := first + log;
    InOrderOnce(v, NUM_LEVELS);
    forall i, j | 0 <= i < j < |more| && more[i].0 == more[j].0 ensures more[i].1.number != more[j].1.number {
      if i < |first| <= j {
        assert first[i] in first && more[j] == log[j - |first|];
        InOrderAre(v, NUM_LEVELS, first[i].0, first[i].1);
        var k :| 0 <= k < |v[first[i].0]| && v[first[i].0][k] == first[i].1;
      }
    }
  }

  lemma {:induction false} AllAddedFront(e: FileEdit, es: seq<FileEdit>)
    ensures AllAdded([e] + es) == e.added + AllAdded(es)
    decreases |es|
  {
    if |es| == 0 {
      assert [e] + es == [e] && [e][..0] == [];
    } else {
      var n := |es| - 1;
      AllAddedFront(e, es[..n]);
      assert ([e] + es)[..n + 1] == [e] + es[..n];
      assert e.added + (AllAdded(es[..n]) + es[n].added) == e.added + AllAdded(es[..n]) + es[n].added;
    }
  }

  lemma {:induction false} AfterFront(files: iset<File>, e: FileEdit, es: seq<FileEdit>, l: nat)
    ensures AfterAll(files, [e] + es, l) == AfterAll(After(files, e, l), es, l)
    decreases |es|
  {
    if |es| == 0 {
      assert [e] + es == [e] && [e][..0] == [];
    } else {
      var n := |es| - 1;
      AfterFront(files, e, es[..n], l);
      assert ([e] + es)[..n + 1] == [e] + es[..n];
    }
  }

  lemma AfterSnapshot(v: Version, l: nat)
    requires |v| == NUM_LEVELS && l < NUM_LEVELS
    ensures After(FilesOf(EMPTY[l]), SnapshotEdit(v), l) == FilesOf(v[l])
  {
    forall f ensures f in After(FilesOf(EMPTY[l]), SnapshotEdit(v), l) <==> f in FilesOf(v[l]) {
      InOrderAre(v, NUM_LEVELS, l, f);
    }
  }

  // ---- Recovery --------------------------------------------------------------------------------------

  /** Recover: whenever its manifest was begun, and whatever the store did since, the edits in it,
      fed to one builder, give back the version, file by file and in the same order. */
  method Recover(ghost run: seq<Store>, ghost events: seq<Event>, ghost es: seq<FileEdit>, ghost m: nat, records: seq<FileEdit>)
    returns (v: Version)
    requires Logged(run, events, es) && m <= |events| && TreeInv(run[m].version)
    requires records == [SnapshotEdit(run[m].version)] + es[m..]
    ensures v == run[|run| - 1].version
  {
    LoggedTail(run, events, es, m);
    ManifestOk(run[m..], events[m..], es[m..], records);
    v := SaveAll(EMPTY, records);
    ManifestLists(run[m..], events[m..], es[m..], records);
    forall l | 0 <= l < NUM_LEVELS ensures v[l] == run[|run| - 1].version[l] {
      ListedOnce(v[l], run[|run| - 1].version[l], AfterAll(FilesOf(EMPTY[l]), records, l));
    }
  }

  lemma ManifestOk(run: seq<Store>, events: seq<Event>, es: seq<FileEdit>, records: seq<FileEdit>)
    requires Logged(run, events, es) && records == [SnapshotEdit(run[0].version)] + es
    ensures BaseOk(EMPTY) && (forall i :: 0 <= i < |records| ==> EditOk(records[i])) && AddedOnce(EMPTY, AllAdded(records))
  {
    var base := run[0].version;
    RunIsReplayed(run, events, es, |es|);
    assert es[..|es|] == es;
    AllAddedFront(SnapshotEdit(base), es);
    SnapshotThenLog(base, AllAdded(es));
    InOrderOnce(base, NUM_LEVELS);
    forall i | 0 <= i < |records| ensures EditOk(records[i]) {
      if i > 0 { assert records[i] == es[i - 1]; }
    }
  }

  lemma ManifestLists(run: seq<Store>, events: seq<Event>, es: seq<FileEdit>, records: seq<FileEdit>)
    requires Logged(run, events, es) && records == [SnapshotEdit(run[0].version)] + es
    ensures |run[|run| - 1].version| == NUM_LEVELS
    ensures forall l :: 0 <= l < NUM_LEVELS ==> Lists(run[|run| - 1].version[l], AfterAll(FilesOf(EMPTY[l]), records, l))
  {
    var base := run[0].version;
    RunIsReplayed(run, events, es, |es|);
    assert es[..|es|] == es;
    forall l | 0 <= l < NUM_LEVELS ensures Lists(run[|run| - 1].version[l], AfterAll(FilesOf(EMPTY[l]), records, l)) {
      AfterFront(FilesOf(EMPTY[l]), SnapshotEdit(base), es, l);
      AfterSnapshot(base, l);
    }
  }
}
