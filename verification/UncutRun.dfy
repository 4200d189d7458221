/** Runs of the store as the code makes them, without the check that a compaction is harmless
    (db/db_impl.cc), and two conditions under which they need none. */
module UncutRuns {
  import opened Coding
  import opened InternalKeys
  import opened Lookup
  import opened Versions
  import opened Selection
  import opened Compactions
  import opened Install
  import opened Stores

  ghost predicate CodeStep(db: Store, db': Store, ev: Event)
    requires TreeInv(db.version)
  {
    match ev
    case Compact(level, in0, in1, merged, outs) => Compacts(db, db', level, in0, in1, merged, outs)
    case _ => Step(db, db', ev)
  }

  ghost predicate IsCodeRun(run: seq<Store>, events: seq<Event>) {
    |run| == |events| + 1 && Init(run[0])
    && forall i :: 0 <= i < |events| ==> TreeInv(run[i].version) && CodeStep(run[i], run[i + 1], events[i])
  }

  // ---- Compactions that check their level+1 inputs ------------------------------------------------

  /** No file of level+1 continues the last user key of the level+1 inputs. */
  ghost predicate ChecksNextLevel(db: Store, db': Store, ev: Event)
    requires TreeInv(db.version) && CodeStep(db, db', ev)
  {
    ev.Compact? ==> NextLevelClosed(db.version, ev.level, ev.in1)
  }

  lemma CheckedStep(db: Store, db': Store, ev: Event)
    requires TreeInv(db.version) && CodeStep(db, db', ev) && ChecksNextLevel(db, db', ev)
    ensures Step(db, db', ev)
  {
    if ev.Compact? { ClosedIsHarmless(db, ev.level, ev.in0, ev.in1); }
  }

  lemma ClosedIsHarmless(db: Store, level: nat, in0: Level, in1: Level)
    requires TreeInv(db.version) && level + 1 < NUM_LEVELS && ValidFiles(in1) && NextLevelClosed(db.version, level, in1)
    ensures Harmless(db, level, in0, in1)
  {
  }

  /** A run whose compactions all make that check serves every live read. */
  lemma CheckedRun(run: seq<Store>, events: seq<Event>, n: nat, k: UserKey, s: SequenceNumber)
    requires IsCodeRun(run, events) && n < |run| && Live(run[n], s)
    requires forall i :: 0 <= i < |events| ==> ChecksNextLevel(run[i], run[i + 1], events[i])
    ensures IsRun(run, events) && Read(Contents(run[n]), k, s) == Read(run[n].history, k, s)
  {
    forall i | 0 <= i < |events| ensures TreeInv(run[i].version) && Step(run[i], run[i + 1], events[i]) {
      CheckedStep(run[i], run[i + 1], events[i]);
    }
    EveryRunServesReads(run, events, n, s);
  }

  // ---- Outputs cut between user keys ------------------------------------------------------------------

  ghost predicate UsersApart(f: File, g: File)
    requires f.Valid() && g.Valid()
  {
    f.Largest().user < g.Smallest().user || g.Largest().user < f.Smallest().user
  }

  /** No two files of the level share a user key. */
  ghost predicate Apart(fs: Level)
    requires ValidFiles(fs)
  {
    forall i, j :: 0 <= i < |fs| && 0 <= j < |fs| && fs[i] != fs[j] ==> UsersApart(fs[i], fs[j])
  }

  ghost predicate Uncut(v: Version)
    requires TreeInv(v)
  {
    forall l :: 1 <= l < NUM_LEVELS ==> Apart(v[l])
  }

  /** Files of two such levels, the new ones apart from the others. */
  lemma ApartTogether(fs: Level, news: Level, all: Level)
    requires ValidFiles(fs) && ValidFiles(news) && ValidFiles(all) && Apart(fs) && Apart(news)
    requires forall f :: f in all ==> f in fs || f in news
    requires forall i, j :: 0 <= i < |fs| && 0 <= j < |news| && fs[i] in all ==> UsersApart(fs[i], news[j])
    ensures Apart(all)
  {
    forall i, j | 0 <= i < |all| && 0 <= j < |all| && all[i] != all[j] ensures UsersApart(all[i], all[j]) {
      var f, g := all[i], all[j];
      if f in fs { var a :| 0 <= a < |fs| && fs[a] == f; }
      if g in fs { var b :| 0 <= b < |fs| && fs[b] == g; }
      if f in news { var c :| 0 <= c < |news| && news[c] == f; }
      if g in news { var d :| 0 <= d < |news| && news[d] == g; }
    }
  }

  lemma FlushKeepsUncut(v: Version, level: nat, f: File)
    requires TreeInv(v) && Uncut(v) && f.Valid() && FlushLevel(v, level, f) && TreeInv(AddFile(v, level, f))
    ensures Uncut(AddFile(v, level, f))
  {
    InsertFileMembers(v[level], f);
    if level > 0 {
      FirstBeforeLast(f);
      forall j | 0 <= j < |v[level]| ensures UsersApart(v[level][j], f) {
        assert !Span(f.Smallest().user, f.Largest().user).Overlaps(v[level][j]);
      }
      ApartTogether(v[level], [f], InsertFile(v[level], f));
    }
  }

  lemma FewerApart(fs: Level, less: Level)
    requires ValidFiles(fs) && ValidFiles(less) && Apart(fs) && forall f :: f in less ==> f in fs
    ensures Apart(less)
  {
    ApartTogether(fs, [], less);
  }

  lemma LevelShrinksApart(v: Version, level: nat, gone: set<nat>)
    requires TreeInv(v) && Uncut(v) && 1 <= level < NUM_LEVELS
    ensures ValidFiles(WithoutNumbers(v[level], gone)) && Apart(WithoutNumbers(v[level], gone))
  {
    WithoutNumbersMembers(v[level], gone);
    WithoutNumbersValid(v[level], gone);
    FewerApart(v[level], WithoutNumbers(v[level], gone));
  }

  /** A file that stays at level+1 has no user key of an input in its range. */
  lemma StaysOutside(v: Version, level: nat, in0: Level, in1: Level, g: File, e: Entry)
    requires TreeInv(v) && Uncut(v) && level + 1 < NUM_LEVELS && ValidInputs(v, level, in0, in1)
    requires g in v[level + 1] && g !in in1 && e in InputEntries(in0, in1)
    ensures g.Valid() && (e.User() < g.Smallest().user || g.Largest().user < e.User())
  {
    if e in LevelEntries(in0) {
      var lo, hi :| SpansUsers(in0, lo, hi) && in1 == Overlapping(v[level + 1], Span(lo, hi));
      EntryInSpan(in0, lo, hi, e);
      OutsideOfSpan(v[level + 1], lo, hi, g);
    } else {
      InputsValid(v, level, in0, in1);
      var f :| f in in1 && e in f.entries;
      OutsideOfFile(v[level + 1], f, g, e);
    }
  }

  lemma OutsideOfSpan(fs: Level, lo: UserKey, hi: UserKey, g: File)
    requires ValidFiles(fs) && g in fs && g !in Overlapping(fs, Span(lo, hi))
    ensures g.Valid() && (hi < g.Smallest().user || g.Largest().user < lo)
  {
    var m :| 0 <= m < |fs| && fs[m] == g;
    OverlappingMember(fs, Span(lo, hi), fs[m]);
  }

  lemma OutsideOfFile(fs: Level, f: File, g: File, e: Entry)
    requires ValidFiles(fs) && Apart(fs) && f in fs && g in fs && f != g && e in f.entries
    ensures g.Valid() && (e.User() < g.Smallest().user || g.Largest().user < e.User())
  {
    var i :| 0 <= i < |fs| && fs[i] == f;
    var m :| 0 <= m < |fs| && fs[m] == g;
    EntryBetweenEnds(fs[i], e);
  }

  lemma EntryInSpan(files: Level, lo: UserKey, hi: UserKey, e: Entry)
    requires ValidFiles(files) && SpansUsers(files, lo, hi) && e in LevelEntries(files)
    ensures lo <= e.User() <= hi
  {
    var f :| f in files && e in f.entries;
    var i :| 0 <= i < |files| && files[i] == f;
    EntryBetweenEnds(files[i], e);
  }

  /** What is written from the inputs is apart from what stays. */
  lemma OutputApart(v: Version, level: nat, in0: Level, in1: Level, g: File, o: File)
    requires TreeInv(v) && Uncut(v) && level + 1 < NUM_LEVELS && ValidInputs(v, level, in0, in1)
    requires g in v[level + 1] && g !in in1 && o.Valid() && forall e :: e in o.entries ==> e in InputEntries(in0, in1)
    ensures g.Valid() && UsersApart(g, o)
  {
    var first, last := o.entries[0], o.entries[|o.entries| - 1];
    StayedFileIsBeside(v, level, in0, in1, g);
    StaysOutside(v, level, in0, in1, g, first);
    StaysOutside(v, level, in0, in1, g, last);
    FirstBeforeLast(g);
  }

  lemma MoveKeepsUncut(v: Version, level: nat, f: File)
    requires TreeInv(v) && Uncut(v) && level + 1 < NUM_LEVELS && ValidInputs(v, level, [f], []) && f.Valid()
    requires TreeInv(MoveFile(v, level, f))
    ensures Uncut(MoveFile(v, level, f))
  {
    var fs := v[level + 1];
    InsertFileMembers(fs, f);
    assert f in [f];
    forall j | 0 <= j < |fs| ensures UsersApart(fs[j], f) {
      OutputApart(v, level, [f], [], fs[j], f);
    }
    ApartTogether(fs, [f], InsertFile(fs, f));
    if level > 0 {
      LevelShrinksApart(v, level, {f.number});
    }
  }

  lemma CompactionKeepsUncut(v: Version, level: nat, in0: Level, in1: Level, outs: Level)
    requires TreeInv(v) && Uncut(v) && level + 1 < NUM_LEVELS && ValidInputs(v, level, in0, in1)
    requires ValidFiles(outs) && Apart(outs) && LevelEntries(outs) <= InputEntries(in0, in1)
    requires TreeInv(InstallResults(v, level, in0, in1, outs))
    ensures Uncut(InstallResults(v, level, in0, in1, outs))
  {
    var fs := v[level + 1];
    var kept := WithoutNumbers(fs, Numbers(in1));
    LevelShrinksApart(v, level + 1, Numbers(in1));
    InsertFilesMembers(kept, outs);
    InputsValid(v, level, in0, in1);
    RemovesExactly(fs, in1);
    forall i, j | 0 <= i < |kept| && 0 <= j < |outs| ensures UsersApart(kept[i], outs[j]) {
      assert kept[i] in kept && outs[j] in outs;
      assert forall e :: e in outs[j].entries ==> e in LevelEntries(outs);
      OutputApart(v, level, in0, in1, kept[i], outs[j]);
    }
    ApartTogether(kept, outs, InsertFiles(kept, outs));
    if level > 0 {
      LevelShrinksApart(v, level, Numbers(in0));
    }
  }

  lemma UncutIsClosed(v: Version, level: nat, in0: Level, in1: Level)
    requires TreeInv(v) && Uncut(v) && level + 1 < NUM_LEVELS && ValidInputs(v, level, in0, in1) && ValidFiles(in1)
    ensures NextLevelClosed(v, level, in1)
  {
    if in1 != [] {
      InputsValid(v, level, in0, in1);
      var fs, f := v[level + 1], in1[|in1| - 1];
      assert f in in1 && f in fs;
      var j :| 0 <= j < |fs| && fs[j] == f;
      FirstBeforeLast(f);
      forall i | 0 <= i < |fs| ensures !IsBoundary(fs[i], f.Largest()) {
        FirstBeforeLast(fs[i]);
        assert fs[i] != fs[j] ==> UsersApart(fs[i], fs[j]);
      }
    }
  }

  /** Output files are cut only between user keys. */
  ghost predicate CutsBetweenKeys(ev: Event) {
    ev.Compact? && ValidFiles(ev.outs) ==> Apart(ev.outs)
  }

  lemma UncutStep(db: Store, db': Store, ev: Event)
    requires Inv(db) && Uncut(db.version) && CodeStep(db, db', ev) && CutsBetweenKeys(ev)
    ensures Step(db, db', ev) && Inv(db') && Uncut(db'.version)
  {
    if ev.Compact? {
      UncutIsClosed(db.version, ev.level, ev.in0, ev.in1);
    }
    CheckedStep(db, db', ev);
    StepKeepsInv(db, db', ev);
    match ev
    case Flush(level) => UncutFlush(db, db', level);
    case Move(level, f) => MoveKeepsUncut(db.version, level, f);
    case Compact(level, in0, in1, merged, outs) => UncutCompact(db, db', level, in0, in1, merged, outs);
    case _ =>
  }

  lemma UncutFlush(db: Store, db': Store, level: nat)
    requires Inv(db) && Uncut(db.version) && CanFlush(db, db', level) && Inv(db')
    ensures Uncut(db'.version)
  {
    if db.imm.value != [] {
      var size :| var f := File(db.nextFile, size, db.imm.value);
        f.Valid() && FlushLevel(db.version, level, f)
        && db' == db.(imm := None, nextFile := db.nextFile + 1, version := AddFile(db.version, level, f));
      FlushKeepsUncut(db.version, level, File(db.nextFile, size, db.imm.value));
    }
  }

  lemma UncutCompact(db: Store, db': Store, level: nat, in0: Level, in1: Level, merged: seq<Entry>, outs: Level)
    requires Inv(db) && Uncut(db.version) && Compacts(db, db', level, in0, in1, merged, outs) && Apart(outs) && Inv(db')
    ensures Uncut(db'.version)
  {
    OutputsOfMerge(db.version, level, in0, in1, merged, Oldest(db), outs, db.nextFile);
    CompactionKeepsUncut(db.version, level, in0, in1, outs);
  }

  lemma {:induction false} UncutUpTo(run: seq<Store>, events: seq<Event>, n: nat)
    requires IsCodeRun(run, events) && n < |run| && forall i :: 0 <= i < |events| ==> CutsBetweenKeys(events[i])
    ensures Inv(run[n]) && Uncut(run[n].version)
    ensures n < |events| ==> Step(run[n], run[n + 1], events[n])
  {
    if n == 0 {
      InitHolds(run[0]);
    } else {
      UncutUpTo(run, events, n - 1);
      UncutStep(run[n - 1], run[n], events[n - 1]);
    }
    if n < |events| {
      UncutStep(run[n], run[n + 1], events[n]);
    }
  }

  /** A run whose compactions never cut a user key in two needs no check: every compaction of it
      is harmless, and every live read is the history's. */
  lemma UncutRun(run: seq<Store>, events: seq<Event>, n: nat, k: UserKey, s: SequenceNumber)
    requires IsCodeRun(run, events) && n < |run| && Live(run[n], s)
    requires forall i :: 0 <= i < |events| ==> CutsBetweenKeys(events[i])
    ensures IsRun(run, events) && Read(Contents(run[n]), k, s) == Read(run[n].history, k, s)
  {
    forall i | 0 <= i < |events| ensures TreeInv(run[i].version) && Step(run[i], run[i + 1], events[i]) {
      UncutUpTo(run, events, i);
    }
    EveryRunServesReads(run, events, n, s);
  }
}
