/** Installing results as a new version (db/version_set.cc: Builder; db/db_impl.cc:
    InstallCompactionResults, BackgroundCompaction, WriteLevel0Table): the tree invariant
    survives every step, and reads survive exactly when no key resurrects. */
module Install {
  import opened Coding
  import opened InternalKeys
  import opened Lookup
  import opened Versions
  import opened Selection
  import opened DropRules
  import opened Compactions

  // ---- Version edits applied to one level --------------------------------------------

  function Numbers(files: Level): set<nat> {
    set i | 0 <= i < |files| :: files[i].number
  }

  function WithoutNumbers(fs: Level, gone: set<nat>): Level {
    if fs == [] then [] else
      (if fs[0].number in gone then [] else [fs[0]]) + WithoutNumbers(fs[1..], gone)
  }

  /** BySmallestKey: smallest internal key, then file number. */
  predicate SmallestFirst(f: File, g: File)
    requires f.Valid() && g.Valid()
  {
    Less(f.Smallest(), g.Smallest()) || (f.Smallest() == g.Smallest() && f.number < g.number)
  }

  function InsertFile(fs: Level, f: File): Level
    requires ValidFiles(fs) && f.Valid()
  {
    if fs == [] || SmallestFirst(f, fs[0]) then [f] + fs else [fs[0]] + InsertFile(fs[1..], f)
  }

  lemma {:induction false} InsertFileMembers(fs: Level, f: File)
    requires ValidFiles(fs) && f.Valid()
    ensures ValidFiles(InsertFile(fs, f))
    ensures forall g :: g in InsertFile(fs, f) <==> g in fs || g == f
  {
    if fs != [] && !SmallestFirst(f, fs[0]) {
      InsertFileMembers(fs[1..], f);
      assert fs == [fs[0]] + fs[1..];
    }
  }

  function InsertFiles(fs: Level, added: Level): Level
    requires ValidFiles(fs) && ValidFiles(added)
    decreases |added|
  {
    if added == [] then fs else
      InsertFileMembers(fs, added[0]);
      InsertFiles(InsertFile(fs, added[0]), added[1..])
  }

  lemma {:induction false} InsertFilesMembers(fs: Level, added: Level)
    requires ValidFiles(fs) && ValidFiles(added)
    ensures ValidFiles(InsertFiles(fs, added))
    ensures forall g :: g in InsertFiles(fs, added) <==> g in fs || g in added
    decreases |added|
  {
    if added != [] {
      InsertFileMembers(fs, added[0]);
      InsertFilesMembers(InsertFile(fs, added[0]), added[1..]);
      assert added == [added[0]] + added[1..];
    }
  }

  ghost predicate Ordered(f: File, g: File)
    requires f.Valid() && g.Valid()
  {
    Before(f.Largest(), g.Smallest()) || Before(g.Largest(), f.Smallest())
  }

  lemma {:induction false} InsertFileKeepsSorted(fs: Level, f: File)
    requires ValidFiles(fs) && SortedLevel(fs) && f.Valid()
    requires forall i :: 0 <= i < |fs| ==> Ordered(f, fs[i])
    ensures ValidFiles(InsertFile(fs, f)) && SortedLevel(InsertFile(fs, f))
  {
    InsertFileMembers(fs, f);
    if fs == [] {
    } else {
      FileEndsOrdered(f);
      FileEndsOrdered(fs[0]);
      if SmallestFirst(f, fs[0]) {
        forall i | 0 <= i < |fs| ensures Before(f.Largest(), fs[i].Smallest()) {
          if i > 0 { SmallestIncreases(fs, 0, i); }
        }
      } else {
        InsertFileKeepsSorted(fs[1..], f);
        InsertFileMembers(fs[1..], f);
        var rest := InsertFile(fs[1..], f);
        forall j | 0 <= j < |rest| ensures Before(fs[0].Largest(), rest[j].Smallest()) {
          assert rest[j] in rest;
        }
      }
    }
  }

  lemma FileEndsOrdered(f: File)
    requires f.Valid()
    ensures f.Smallest() == f.Largest() || Before(f.Smallest(), f.Largest())
  {
    EntryBetweenEnds(f, f.entries[0]);
  }

  lemma {:induction false} InsertFilesKeepsSorted(fs: Level, added: Level)
    requires ValidFiles(fs) && SortedLevel(fs) && ValidFiles(added) && SortedLevel(added)
    requires forall i, j :: 0 <= i < |added| && 0 <= j < |fs| ==> Ordered(added[i], fs[j])
    ensures ValidFiles(InsertFiles(fs, added)) && SortedLevel(InsertFiles(fs, added))
    decreases |added|
  {
    InsertFilesMembers(fs, added);
    if added != [] {
      var next := InsertFile(fs, added[0]);
      InsertFileKeepsSorted(fs, added[0]);
      InsertFileMembers(fs, added[0]);
      forall i, j | 0 <= i < |added[1..]| && 0 <= j < |next| ensures Ordered(added[1..][i], next[j]) {
        assert next[j] in next;
        assert Before(added[0].Largest(), added[i + 1].Smallest());
      }
      InsertFilesKeepsSorted(next, added[1..]);
    }
  }

  lemma {:induction false} InsertFileDistinct(fs: Level, f: File)
    requires ValidFiles(fs) && f.Valid() && DistinctNumbers(fs)
    requires forall i :: 0 <= i < |fs| ==> fs[i].number != f.number
    ensures DistinctNumbers(InsertFile(fs, f))
  {
    if fs != [] && !SmallestFirst(f, fs[0]) {
      InsertFileDistinct(fs[1..], f);
      InsertFileMembers(fs[1..], f);
      var rest := InsertFile(fs[1..], f);
      forall j | 0 <= j < |rest| ensures fs[0].number != rest[j].number {
        assert rest[j] in rest;
      }
    }
  }

  lemma {:induction false} InsertFilesDistinct(fs: Level, added: Level)
    requires ValidFiles(fs) && ValidFiles(added) && DistinctNumbers(fs) && DistinctNumbers(added)
    requires forall i, j :: 0 <= i < |fs| && 0 <= j < |added| ==> fs[i].number != added[j].number
    ensures DistinctNumbers(InsertFiles(fs, added))
    decreases |added|
  {
    if added != [] {
      var next := InsertFile(fs, added[0]);
      InsertFileDistinct(fs, added[0]);
      InsertFileMembers(fs, added[0]);
      forall i, j | 0 <= i < |next| && 0 <= j < |added[1..]| ensures next[i].number != added[1..][j].number {
        assert next[i] in next;
      }
      InsertFilesDistinct(next, added[1..]);
    }
  }

  lemma {:induction false} WithoutNumbersMembers(fs: Level, gone: set<nat>)
    ensures forall f :: f in WithoutNumbers(fs, gone) <==> f in fs && f.number !in gone
  {
    if fs != [] {
      WithoutNumbersMembers(fs[1..], gone);
      assert fs == [fs[0]] + fs[1..];
    }
  }

  lemma WithoutNumbersValid(fs: Level, gone: set<nat>)
    requires ValidFiles(fs)
    ensures ValidFiles(WithoutNumbers(fs, gone))
  {
    WithoutNumbersMembers(fs, gone);
    MembersValid(fs, WithoutNumbers(fs, gone));
  }

  lemma {:induction false} WithoutNumbersDistinct(fs: Level, gone: set<nat>)
    requires DistinctNumbers(fs)
    ensures DistinctNumbers(WithoutNumbers(fs, gone))
  {
    if fs != [] {
      WithoutNumbersDistinct(fs[1..], gone);
      WithoutNumbersMembers(fs[1..], gone);
      var rest := WithoutNumbers(fs[1..], gone);
      forall j | 0 <= j < |rest| ensures rest[j].number != fs[0].number {
        assert rest[j] in fs[1..];
      }
    }
  }

  lemma {:induction false} WithoutNumbersSorted(fs: Level, gone: set<nat>)
    requires ValidFiles(fs) && SortedLevel(fs)
    ensures ValidFiles(WithoutNumbers(fs, gone)) && SortedLevel(WithoutNumbers(fs, gone))
  {
    WithoutNumbersValid(fs, gone);
    if fs != [] {
      WithoutNumbersSorted(fs[1..], gone);
      WithoutNumbersMembers(fs[1..], gone);
      var rest := WithoutNumbers(fs[1..], gone);
      forall j | 0 <= j < |rest| ensures Before(fs[0].Largest(), rest[j].Smallest()) {
        assert rest[j] in fs[1..];
      }
    }
  }

  /** Deleting by number removes exactly the named files. */
  lemma RemovesExactly(fs: Level, files: Level)
    requires DistinctNumbers(fs) && forall f :: f in files ==> f in fs
    ensures forall f :: f in WithoutNumbers(fs, Numbers(files)) <==> f in fs && f !in files
  {
    WithoutNumbersMembers(fs, Numbers(files));
    forall f | f in fs ensures f.number in Numbers(files) <==> f in files {
      if f.number in Numbers(files) {
        var i :| 0 <= i < |files| && files[i].number == f.number;
        assert files[i] in files;
        SameNumberSameFile(fs, f, files[i]);
      }
    }
  }

  /** InstallCompactionResults: one edit deletes the inputs and adds the outputs. */
  ghost function InstallResults(v: Version, level: nat, in0: Level, in1: Level, outs: Level): Version
    requires TreeInv(v) && level + 1 < NUM_LEVELS && ValidFiles(outs)
  {
    WithoutNumbersValid(v[level + 1], Numbers(in1));
    v[level := WithoutNumbers(v[level], Numbers(in0))]
     [level + 1 := InsertFiles(WithoutNumbers(v[level + 1], Numbers(in1)), outs)]
  }

  ghost predicate NumbersBelow(v: Version, next: nat) {
    forall l, i :: 0 <= l < |v| && 0 <= i < |v[l]| ==> v[l][i].number < next
  }

  // ---- Where entries are -------------------------------------------------------------

  ghost function InputEntries(in0: Level, in1: Level): iset<Entry> {
    LevelEntries(in0) + LevelEntries(in1)
  }

  lemma LevelNewerEntries(fs: Level, gs: Level)
    ensures LevelNewer(fs, gs) <==> NewerThan(LevelEntries(fs), LevelEntries(gs))
  {
    if NewerThan(LevelEntries(fs), LevelEntries(gs)) {
      forall i, j | 0 <= i < |fs| && 0 <= j < |gs| ensures FileNewer(fs[i], gs[j]) {
        forall a, b | a in fs[i].entries && b in gs[j].entries && a.User() == b.User() ensures a.Seq() > b.Seq() {
          assert fs[i] in fs && gs[j] in gs;
          assert a in LevelEntries(fs) && b in LevelEntries(gs);
        }
      }
    }
  }

  /** Output at level+1 lies wholly to one side of every file that stayed there. */
  lemma StayedFileIsBeside(v: Version, level: nat, in0: Level, in1: Level, r: File)
    requires TreeInv(v) && level + 1 < NUM_LEVELS && ValidInputs(v, level, in0, in1)
    requires r in v[level + 1] && r !in in1
    ensures (forall e :: e in InputEntries(in0, in1) ==> Before(r.Largest(), e.ikey))
         || (forall e :: e in InputEntries(in0, in1) ==> Before(e.ikey, r.Smallest()))
  {
    var fs := v[level + 1];
    var lo, hi :| SpansUsers(in0, lo, hi) && in1 == Overlapping(fs, Span(lo, hi));
    OverlappingMembers(fs, Span(lo, hi));
    var m :| 0 <= m < |fs| && fs[m] == r;
    forall e | e in LevelEntries(in0) ensures lo <= e.User() <= hi {
      var f :| f in in0 && e in f.entries;
      EntryBetweenEnds(f, e);
    }
    forall e | e in LevelEntries(in1)
      ensures if r.Largest().user < lo then Before(r.Largest(), e.ikey) else Before(e.ikey, r.Smallest())
    {
      var f :| f in in1 && e in f.entries;
      var i :| 0 <= i < |fs| && fs[i] == f;
      InputBesideStayed(fs, lo, hi, i, m, e);
    }
  }

  lemma InputBesideStayed(fs: Level, lo: UserKey, hi: UserKey, i: nat, m: nat, e: Entry)
    requires ValidFiles(fs) && SortedLevel(fs) && i < |fs| && m < |fs| && e in fs[i].entries
    requires Span(lo, hi).Overlaps(fs[i]) && !Span(lo, hi).Overlaps(fs[m])
    ensures if fs[m].Largest().user < lo then Before(fs[m].Largest(), e.ikey) else Before(e.ikey, fs[m].Smallest())
  {
    var first, last := fs[m].entries[0], fs[m].entries[|fs[m].entries| - 1];
    LargestIsMonotone(fs, if i < m then i else m, if i < m then m else i);
    if i < m {
      SmallestIncreases(fs, i, m);
      EntriesOfOrderedFiles(fs, i, m, e, first);
    } else if m < i {
      SmallestIncreases(fs, m, i);
      EntriesOfOrderedFiles(fs, m, i, last, e);
    }
  }

  ghost predicate OutputsFit(v: Version, level: nat, in0: Level, in1: Level, outs: Level, next: nat)
    requires TreeInv(v)
  {
    && NumbersBelow(v, next) && NumberedFrom(outs, next)
    && ValidFiles(outs) && SortedLevel(outs) && DistinctNumbers(outs)
    && LevelEntries(outs) <= InputEntries(in0, in1)
  }

  lemma StayedOrderedWithOutputs(v: Version, level: nat, in0: Level, in1: Level, outs: Level, next: nat, r: File, o: File)
    requires TreeInv(v) && level + 1 < NUM_LEVELS && ValidInputs(v, level, in0, in1)
    requires OutputsFit(v, level, in0, in1, outs, next)
    requires r in v[level + 1] && r !in in1 && o in outs && r.Valid() && o.Valid()
    ensures Ordered(o, r)
  {
    StayedFileIsBeside(v, level, in0, in1, r);
    var first, last := o.entries[0], o.entries[|o.entries| - 1];
    assert first in LevelEntries(outs) && last in LevelEntries(outs);
  }

  /** The new level+1: still sorted, disjoint and distinctly numbered. */
  lemma NextLevelStaysSorted(v: Version, level: nat, in0: Level, in1: Level, outs: Level, next: nat)
    requires TreeInv(v) && level + 1 < NUM_LEVELS && ValidInputs(v, level, in0, in1)
    requires OutputsFit(v, level, in0, in1, outs, next)
    ensures var fs := InstallResults(v, level, in0, in1, outs)[level + 1];
            ValidFiles(fs) && SortedLevel(fs) && DistinctNumbers(fs)
            && forall f :: f in fs <==> (f in v[level + 1] && f !in in1) || f in outs
  {
    var fs, gone := v[level + 1], Numbers(in1);
    var stay := WithoutNumbers(fs, gone);
    InputsValid(v, level, in0, in1);
    RemovesExactly(fs, in1);
    WithoutNumbersSorted(fs, gone);
    WithoutNumbersDistinct(fs, gone);
    forall i, j | 0 <= i < |outs| && 0 <= j < |stay| ensures Ordered(outs[i], stay[j]) {
      assert outs[i] in outs && stay[j] in stay;
      StayedOrderedWithOutputs(v, level, in0, in1, outs, next, stay[j], outs[i]);
    }
    forall i, j | 0 <= i < |stay| && 0 <= j < |outs| ensures stay[i].number != outs[j].number {
      assert stay[i] in stay;
      assert stay[i] in fs;
    }
    InsertFilesKeepsSorted(stay, outs);
    InsertFilesDistinct(stay, outs);
    InsertFilesMembers(stay, outs);
  }

  lemma LevelShrinks(v: Version, level: nat, in0: Level)
    requires TreeInv(v) && level < NUM_LEVELS && forall f :: f in in0 ==> f in v[level]
    ensures var fs := WithoutNumbers(v[level], Numbers(in0));
            ValidFiles(fs) && DistinctNumbers(fs)
            && (level == 0 ==> NumbersFollowAge(fs)) && (level > 0 ==> SortedLevel(fs))
            && forall f :: f in fs <==> f in v[level] && f !in in0
  {
    var fs, gone := v[level], Numbers(in0);
    RemovesExactly(fs, in0);
    WithoutNumbersValid(fs, gone);
    WithoutNumbersDistinct(fs, gone);
    if level > 0 { WithoutNumbersSorted(fs, gone); }
    var left := WithoutNumbers(fs, gone);
    forall i | 0 <= i < |left| ensures left[i] in fs {
      assert left[i] in left;
    }
  }

  /** Input entries are newer than everything below level+1, and older than what is above
      or stays at the level. */
  lemma InputsAreBetween(v: Version, level: nat, in0: Level, in1: Level, l: nat)
    requires TreeInv(v) && level + 1 < NUM_LEVELS && ValidInputs(v, level, in0, in1) && l < NUM_LEVELS
    ensures l < level ==> NewerThan(LevelEntries(v[l]), InputEntries(in0, in1))
    ensures l > level + 1 ==> NewerThan(InputEntries(in0, in1), LevelEntries(v[l]))
    ensures l == level ==> forall a, b :: InLevelOutside(v[l], in0, a) && b in InputEntries(in0, in1) && a.User() == b.User() ==> a.Seq() > b.Seq()
  {
    InputsValid(v, level, in0, in1);
    assert LevelEntries(in0) <= LevelEntries(v[level]);
    assert LevelEntries(in1) <= LevelEntries(v[level + 1]);
    if l != level { if l < level { LevelNewerEntries(v[l], v[level]); } else { LevelNewerEntries(v[level], v[l]); } }
    if l != level + 1 { if l < level + 1 { LevelNewerEntries(v[l], v[level + 1]); } else { LevelNewerEntries(v[level + 1], v[l]); } }
    if l == level {
      forall a, b | InLevelOutside(v[l], in0, a) && b in LevelEntries(in0) && a.User() == b.User() ensures a.Seq() > b.Seq() {
        var f :| f in v[l] && f !in in0 && a in f.entries;
        var g :| g in in0 && b in g.entries;
        var i :| 0 <= i < |v[l]| && v[l][i] == f;
        assert FileNewer(v[l][i], g);
      }
      forall a | InLevelOutside(v[l], in0, a) ensures a in LevelEntries(v[l]) {
      }
    }
  }

  /** An entry in a file of the level that is not one of `files`. */
  ghost predicate InLevelOutside(fs: Level, files: Level, e: Entry) {
    exists f :: f in fs && f !in files && e in f.entries
  }

  lemma NewLevelEntries(v: Version, level: nat, in0: Level, in1: Level, outs: Level, next: nat, l: nat, e: Entry)
    requires TreeInv(v) && level + 1 < NUM_LEVELS && ValidInputs(v, level, in0, in1) && l < NUM_LEVELS
    requires OutputsFit(v, level, in0, in1, outs, next)
    ensures var v' := InstallResults(v, level, in0, in1, outs);
            InLevel(v'[l], e) <==>
              if l == level then InLevelOutside(v[l], in0, e)
              else if l == level + 1 then InLevelOutside(v[l], in1, e) || InLevel(outs, e)
              else InLevel(v[l], e)
  {
    InputsValid(v, level, in0, in1);
    LevelShrinks(v, level, in0);
    NextLevelStaysSorted(v, level, in0, in1, outs, next);
  }

  lemma NewLevelsStayOrdered(v: Version, level: nat, in0: Level, in1: Level, outs: Level, next: nat, l: nat, m: nat)
    requires TreeInv(v) && level + 1 < NUM_LEVELS && ValidInputs(v, level, in0, in1) && l < m < NUM_LEVELS
    requires OutputsFit(v, level, in0, in1, outs, next)
    ensures var v' := InstallResults(v, level, in0, in1, outs);
            LevelNewer(v'[l], v'[m])
  {
    var v' := InstallResults(v, level, in0, in1, outs);
    LevelNewerEntries(v[l], v[m]);
    LevelNewerEntries(v'[l], v'[m]);
    forall a, b | InLevel(v'[l], a) && InLevel(v'[m], b) && a.User() == b.User() ensures a.Seq() > b.Seq() {
      NewLevelEntries(v, level, in0, in1, outs, next, l, a);
      NewLevelEntries(v, level, in0, in1, outs, next, m, b);
      InputsAreBetween(v, level, in0, in1, l);
      InputsAreBetween(v, level, in0, in1, m);
      assert InLevel(outs, a) ==> a in LevelEntries(outs);
      assert InLevel(outs, b) ==> b in LevelEntries(outs);
      assert InLevel(v[l], a) ==> a in LevelEntries(v[l]);
      assert InLevel(v[m], b) ==> b in LevelEntries(v[m]);
    }
  }

  /** Installing a compaction keeps the tree invariant. */
  lemma CompactionKeepsTree(v: Version, level: nat, in0: Level, in1: Level, outs: Level, next: nat)
    requires TreeInv(v) && level + 1 < NUM_LEVELS && ValidInputs(v, level, in0, in1)
    requires OutputsFit(v, level, in0, in1, outs, next)
    ensures TreeInv(InstallResults(v, level, in0, in1, outs))
  {
    var v' := InstallResults(v, level, in0, in1, outs);
    InputsValid(v, level, in0, in1);
    LevelShrinks(v, level, in0);
    NextLevelStaysSorted(v, level, in0, in1, outs, next);
    forall l, m | 0 <= l < m < NUM_LEVELS ensures LevelNewer(v'[l], v'[m]) {
      NewLevelsStayOrdered(v, level, in0, in1, outs, next, l, m);
    }
  }

  // ---- Reads across a compaction -----------------------------------------------------

  /** The entries of the tree that are not compaction inputs. */
  ghost function StayingEntries(v: Version, in0: Level, in1: Level): iset<Entry> {
    TreeEntries(v) - InputEntries(in0, in1)
  }

  lemma EntryInOneFile(v: Version, l: nat, f: File, g: File, e: Entry)
    requires TreeInv(v) && l < NUM_LEVELS && f in v[l] && g in v[l]
    requires e in f.entries && e in g.entries
    ensures f == g
  {
    var i :| 0 <= i < |v[l]| && v[l][i] == f;
    var j :| 0 <= j < |v[l]| && v[l][j] == g;
    if l == 0 {
      assert !FileNewer(v[l][i], v[l][j]) && !FileNewer(v[l][j], v[l][i]);
      SameNumberSameFile(v[l], f, g);
    } else {
      if i < j { EntriesOfOrderedFiles(v[l], i, j, e, e); }
      if j < i { EntriesOfOrderedFiles(v[l], j, i, e, e); }
    }
  }

  lemma NewerLevelSharesNothing(fs: Level, gs: Level, e: Entry)
    requires LevelNewer(fs, gs) && InLevel(fs, e)
    ensures !InLevel(gs, e)
  {
    LevelNewerEntries(fs, gs);
    assert e in LevelEntries(fs);
  }

  lemma EntryInOneLevel(v: Version, l: nat, m: nat, e: Entry)
    requires TreeInv(v) && l < NUM_LEVELS && m < NUM_LEVELS
    requires InLevel(v[l], e) && InLevel(v[m], e)
    ensures l == m
  {
    forall i, j | 0 <= i < j < NUM_LEVELS && InLevel(v[i], e) ensures !InLevel(v[j], e) {
      NewerLevelSharesNothing(v[i], v[j], e);
    }
  }

  lemma OutsideIsNotInside(v: Version, l: nat, files: Level, e: Entry)
    requires TreeInv(v) && l < NUM_LEVELS && InLevel(v[l], e)
    requires forall f :: f in files ==> f in v[l]
    ensures InLevel(files, e) <==> !InLevelOutside(v[l], files, e)
  {
    var f :| f in v[l] && e in f.entries;
    if InLevel(files, e) && InLevelOutside(v[l], files, e) {
      var g :| g in files && e in g.entries;
      var h :| h in v[l] && h !in files && e in h.entries;
      EntryInOneFile(v, l, g, h, e);
    }
  }

  lemma OutsideIsStaying(v: Version, level: nat, in0: Level, in1: Level, l: nat, e: Entry)
    requires TreeInv(v) && level + 1 < NUM_LEVELS && ValidInputs(v, level, in0, in1) && l < NUM_LEVELS
    requires InLevel(v[l], e)
    ensures e in StayingEntries(v, in0, in1) <==>
      (l == level ==> InLevelOutside(v[l], in0, e)) && (l == level + 1 ==> InLevelOutside(v[l], in1, e))
  {
    InputsValid(v, level, in0, in1);
    InputsHoldOnlyTheirLevel(v, level, in0, l, e);
    InputsHoldOnlyTheirLevel(v, level + 1, in1, l, e);
    StayingIs(v, in0, in1, l, e);
  }

  lemma StayingIs(v: Version, in0: Level, in1: Level, l: nat, e: Entry)
    requires l < |v| && InLevel(v[l], e)
    ensures e in StayingEntries(v, in0, in1) <==> !InLevel(in0, e) && !InLevel(in1, e)
  {
    assert InTree(v, e);
  }

  lemma InputsHoldOnlyTheirLevel(v: Version, m: nat, ins: Level, l: nat, e: Entry)
    requires TreeInv(v) && m < NUM_LEVELS && l < NUM_LEVELS && InLevel(v[l], e)
    requires forall f :: f in ins ==> f in v[m]
    ensures InLevel(ins, e) <==> l == m && !InLevelOutside(v[m], ins, e)
  {
    if InLevel(ins, e) {
      assert InLevel(v[m], e);
      EntryInOneLevel(v, l, m, e);
    }
    if l == m { OutsideIsNotInside(v, m, ins, e); }
  }

  /** After installation the tree holds what stayed and what was written. */
  lemma TreeAfterCompaction(v: Version, level: nat, in0: Level, in1: Level, outs: Level, next: nat)
    requires TreeInv(v) && level + 1 < NUM_LEVELS && ValidInputs(v, level, in0, in1)
    requires OutputsFit(v, level, in0, in1, outs, next)
    ensures TreeEntries(InstallResults(v, level, in0, in1, outs)) == StayingEntries(v, in0, in1) + LevelEntries(outs)
    ensures TreeEntries(v) == StayingEntries(v, in0, in1) + InputEntries(in0, in1)
  {
    var v' := InstallResults(v, level, in0, in1, outs);
    InputsValid(v, level, in0, in1);
    forall e | InTree(v', e) ensures e in StayingEntries(v, in0, in1) + LevelEntries(outs) {
      var l :| 0 <= l < |v'| && InLevel(v'[l], e);
      NewLevelEntries(v, level, in0, in1, outs, next, l, e);
      if !InLevel(outs, e) { OutsideIsStaying(v, level, in0, in1, l, e); }
    }
    forall e | e in StayingEntries(v, in0, in1) ensures InTree(v', e) {
      var l :| 0 <= l < |v| && InLevel(v[l], e);
      OutsideIsStaying(v, level, in0, in1, l, e);
      NewLevelEntries(v, level, in0, in1, outs, next, l, e);
      assert InLevel(v'[l], e);
    }
    forall e | InLevel(outs, e) ensures InTree(v', e) {
      NewLevelEntries(v, level, in0, in1, outs, next, level + 1, e);
      assert InLevel(v'[level + 1], e);
    }
    InputsInTree(v, level, in0, in1);
  }

  /** No file of level+1 continues the last user key of the level+1 inputs. A compaction can
      check this before it starts; SetupOtherInputs does not. */
  ghost predicate NextLevelClosed(v: Version, level: nat, in1: Level)
    requires TreeInv(v) && level + 1 < NUM_LEVELS && ValidFiles(in1)
  {
    in1 == [] || NoBoundary(v[level + 1], in1[|in1| - 1].Largest())
  }

  /** The tombstone that would be dropped and the older value behind it. */
  lemma ResurrectionWitness(Upper: iset<Entry>, T: iset<Entry>, In: iset<Entry>, ss: nat, base: UserKey -> bool, k: UserKey)
      returns (n: Entry, r: Entry)
    requires NewerThan(Upper, T) && Unique(Upper + T) && In <= T
    requires Resurrects(Upper + (T - In), In, ss, base, k)
    ensures n in In && r in T - In && n.User() == r.User() == k && r.Seq() < n.Seq()
  {
    var Rest := T - In;
    n, r :| Newest(Upper + Rest + In, k, ss, n) && n in In && !n.IsValue() && Newest(Upper + Rest, k, ss, r) && r.IsValue();
    assert r in Upper + T && n in Upper + T;
  }

  /** The file of the level that continues the last user key of `files` first. */
  ghost predicate NextBoundary(fs: Level, files: Level, g: File)
    requires ValidFiles(fs) && ValidFiles(files)
  {
    files != [] && IsFirstBoundary(fs, files[|files| - 1].Largest(), g)
  }

  /** Entry r is in the file that continues the last user key of `files`, or after it. */
  ghost predicate LeftBehind(fs: Level, files: Level, r: Entry, g: File)
    requires ValidFiles(fs) && ValidFiles(files)
  {
    NextBoundary(fs, files, g) && r.User() == g.Smallest().user && r.Seq() <= g.Smallest().seqno
  }

  /** Where a resurrecting key's older value must be: in a file of level+1 right after the
      inputs, continuing the last user key of the inputs. */
  lemma ResurrectionNeedsBoundary(Upper: iset<Entry>, v: Version, level: nat, in0: Level, in1: Level, ss: nat, k: UserKey)
      returns (r: Entry, g: File)
    requires TreeInv(v) && level + 1 < NUM_LEVELS && ValidInputs(v, level, in0, in1) && ValidFiles(in1)
    requires NewerThan(Upper, TreeEntries(v)) && Unique(Upper + TreeEntries(v))
    requires Resurrects(Upper + StayingEntries(v, in0, in1), InputEntries(in0, in1), ss, BaseOf(v, level), k)
    ensures r in StayingEntries(v, in0, in1) && r.User() == k && LeftBehind(v[level + 1], in1, r, g)
    ensures !NextLevelClosed(v, level, in1) && k == in1[|in1| - 1].Largest().user
  {
    InputsInTree(v, level, in0, in1);
    var n;
    n, r := ResurrectionWitness(Upper, TreeEntries(v), InputEntries(in0, in1), ss, BaseOf(v, level), k);
    g := OlderIsLeftBehind(v, level, in0, in1, n, r);
  }

  /** Anything staying that is older than an input of its key, when no deeper level has the key. */
  lemma OlderIsLeftBehind(v: Version, level: nat, in0: Level, in1: Level, n: Entry, r: Entry) returns (g: File)
    requires TreeInv(v) && level + 1 < NUM_LEVELS && ValidInputs(v, level, in0, in1) && ValidFiles(in1)
    requires n in InputEntries(in0, in1) && r in StayingEntries(v, in0, in1)
    requires r.User() == n.User() && r.Seq() < n.Seq() && BaseLevel(v, level, n.User())
    ensures LeftBehind(v[level + 1], in1, r, g) && n.User() == in1[|in1| - 1].Largest().user
  {
    OlderStayedIsNextLevel(v, level, in0, in1, n, r);
    var lo, hi :| SpansUsers(in0, lo, hi) && in1 == Overlapping(v[level + 1], Span(lo, hi));
    g := StayedOlderIsBoundary(v[level + 1], in0, in1, lo, hi, n, r);
  }

  lemma InputsInTree(v: Version, level: nat, in0: Level, in1: Level)
    requires TreeInv(v) && level + 1 < NUM_LEVELS && ValidInputs(v, level, in0, in1)
    ensures InputEntries(in0, in1) <= TreeEntries(v)
  {
    InputsValid(v, level, in0, in1);
    forall e | e in InputEntries(in0, in1) ensures InTree(v, e) {
      assert InLevel(v[level], e) || InLevel(v[level + 1], e);
    }
  }

  lemma OlderStayedIsNextLevel(v: Version, level: nat, in0: Level, in1: Level, n: Entry, r: Entry)
    requires TreeInv(v) && level + 1 < NUM_LEVELS && ValidInputs(v, level, in0, in1)
    requires n in InputEntries(in0, in1) && r in StayingEntries(v, in0, in1)
    requires r.User() == n.User() && r.Seq() < n.Seq() && BaseLevel(v, level, n.User())
    ensures InLevelOutside(v[level + 1], in1, r)
  {
    var l :| 0 <= l < |v| && InLevel(v[l], r);
    assert r in LevelEntries(v[l]);
    OutsideIsStaying(v, level, in0, in1, l, r);
    InputsAreBetween(v, level, in0, in1, l);
    if l > level + 1 { KeyBelowIsNotBase(v, level, l, r); }
  }

  lemma KeyBelowIsNotBase(v: Version, level: nat, l: nat, r: Entry)
    requires TreeInv(v) && level + 2 <= l < NUM_LEVELS && InLevel(v[l], r)
    ensures !BaseLevel(v, level, r.User())
  {
    var f :| f in v[l] && r in f.entries;
    var i :| 0 <= i < |v[l]| && v[l][i] == f;
    UncoveredHasNoEntry(v[l][i], r.User(), r);
  }

  lemma StayedOlderIsBoundary(fs: Level, in0: Level, in1: Level, lo: UserKey, hi: UserKey, n: Entry, r: Entry) returns (g: File)
    requires ValidFiles(fs) && SortedLevel(fs) && ValidFiles(in0) && SpansUsers(in0, lo, hi)
    requires in1 == Overlapping(fs, Span(lo, hi)) && ValidFiles(in1)
    requires n in InputEntries(in0, in1) && InLevelOutside(fs, in1, r)
    requires r.User() == n.User() && r.Seq() < n.Seq()
    ensures LeftBehind(fs, in1, r, g)
  {
    var f :| f in fs && f !in in1 && r in f.entries;
    var m :| 0 <= m < |fs| && fs[m] == f;
    OverlappingMember(fs, Span(lo, hi), fs[m]);
    EntryBetweenEnds(f, r);
    KeyOutsideSpan(in0, lo, hi, n);
    var a, b := OverlappingIsSlice(fs, Span(lo, hi));
    g := OlderPastSliceIsBoundary(fs, in1, a, b, m, n, r);
  }

  lemma KeyOutsideSpan(in0: Level, lo: UserKey, hi: UserKey, n: Entry)
    requires ValidFiles(in0) && SpansUsers(in0, lo, hi) && !(lo <= n.User() <= hi)
    ensures n !in LevelEntries(in0)
  {
    forall g | g in in0 ensures n !in g.entries {
      var i :| 0 <= i < |in0| && in0[i] == g;
      forall e | e in g.entries ensures lo <= e.User() <= hi { EntryBetweenEnds(in0[i], e); }
    }
  }

  lemma OlderPastSliceIsBoundary(fs: Level, files: Level, a: nat, b: nat, m: nat, n: Entry, r: Entry) returns (g: File)
    requires ValidFiles(fs) && SortedLevel(fs) && SliceOf(fs, files, a, b) && m < |fs| && ValidFiles(files)
    requires n in LevelEntries(files) && r in fs[m].entries && fs[m] !in files
    requires r.User() == n.User() && r.Seq() < n.Seq()
    ensures LeftBehind(fs, files, r, g)
  {
    var f :| f in files && n in f.entries;
    var j :| a <= j < b && fs[j] == f;
    LastOfSlice(fs, files, a, b);
    SliceMember(fs, a, b, m);
    OlderIsPast(fs, a, b, j, m, n, r);
    g := fs[b];
    FirstPastSlice(fs, b, j, m, n, r);
  }

  lemma OlderIsPast(fs: Level, a: nat, b: nat, j: nat, m: nat, n: Entry, r: Entry)
    requires ValidFiles(fs) && SortedLevel(fs) && a <= j < b <= |fs| && m < |fs| && !(a <= m < b)
    requires n in fs[j].entries && r in fs[m].entries && r.User() == n.User() && r.Seq() < n.Seq()
    ensures b <= m
  {
    if m < a {
      EntriesOfOrderedFiles(fs, m, j, r, n);
    }
  }

  /** Of two versions of a key on both sides of place b, the older is at or after the first entry
      of file b, which continues the key. */
  lemma FirstPastSlice(fs: Level, b: nat, j: nat, m: nat, n: Entry, r: Entry)
    requires ValidFiles(fs) && SortedLevel(fs) && j < b <= m < |fs|
    requires n in fs[j].entries && r in fs[m].entries && r.User() == n.User()
    ensures IsFirstBoundary(fs, fs[b - 1].Largest(), fs[b])
    ensures r.User() == fs[b].Smallest().user && r.Seq() <= fs[b].Smallest().seqno
  {
    var last, first := fs[b - 1].entries[|fs[b - 1].entries| - 1], fs[b].entries[0];
    EntriesOfOrderedFiles(fs, b - 1, b, last, first);
    EntryOrFile(fs, j, b - 1, n, last);
    EntryOrFile(fs, b, m, first, r);
    forall i | 0 <= i < |fs| && IsBoundary(fs[i], last.ikey) ensures !Less(fs[i].Smallest(), first.ikey) {
      BoundaryIsPast(fs, b, i);
    }
  }

  /** The last entry of its file at the latest, or the first of its file at the earliest. */
  lemma EntryOrFile(fs: Level, i: nat, j: nat, x: Entry, y: Entry)
    requires ValidFiles(fs) && SortedLevel(fs) && i <= j < |fs| && x in fs[i].entries && y in fs[j].entries
    requires x == fs[i].entries[0] || y == fs[j].entries[|fs[j].entries| - 1]
    ensures x.ikey == y.ikey || Before(x.ikey, y.ikey)
  {
    if i < j {
      EntriesOfOrderedFiles(fs, i, j, x, y);
    } else if x == fs[i].entries[0] {
      EntryBetweenEnds(fs[i], y);
    } else {
      EntryBetweenEnds(fs[i], x);
    }
  }

  lemma BoundaryIsPast(fs: Level, b: nat, i: nat)
    requires ValidFiles(fs) && SortedLevel(fs) && 0 < b < |fs| && i < |fs| && IsBoundary(fs[i], fs[b - 1].Largest())
    ensures !Less(fs[i].Smallest(), fs[b].Smallest())
  {
    var here := fs[i].entries[0];
    BoundaryIsBehind(fs, b, i);
    EntryOrFile(fs, b, i, fs[b].entries[0], here);
    LessIsStrictTotalOrder(here.ikey, fs[b].Smallest(), here.ikey);
  }

  // ---- What a caller can check -------------------------------------------------------------

  /** A lookup of k at ss ends on a deletion marker that is among the inputs. */
  ghost predicate EndsOnInputMarker(S: iset<Entry>, In: iset<Entry>, k: UserKey, ss: nat) {
    match NewestOf(S, k, ss)
    case None => false
    case Some(n) => n in In && !n.IsValue()
  }

  /** The compaction drops a marker in front of the value it hides. One key, one file and one
      lookup decide this before the compaction: the last user key of the level+1 inputs is on no
      deeper level, the next file of level+1 continues it with a value, and a lookup at the
      smallest snapshot ends on a marker in the inputs. */
  ghost predicate UncoversValue(Upper: iset<Entry>, v: Version, level: nat, in0: Level, in1: Level, ss: nat)
    requires TreeInv(v) && level + 1 < NUM_LEVELS && ValidFiles(in1)
  {
    && in1 != [] && BaseLevel(v, level, in1[|in1| - 1].Largest().user)
    && (exists g :: NextBoundary(v[level + 1], in1, g) && g.entries[0].IsValue())
    && EndsOnInputMarker(Upper + TreeEntries(v), InputEntries(in0, in1), in1[|in1| - 1].Largest().user, ss)
  }

  /** The boundary file's first entry is older than every entry of its key in the slice. */
  lemma BoundaryPastSlice(fs: Level, files: Level, a: nat, b: nat, g: File, n: Entry)
    requires ValidFiles(fs) && SortedLevel(fs) && SliceOf(fs, files, a, b) && ValidFiles(files) && NextBoundary(fs, files, g)
    requires n in LevelEntries(files) && n.User() == g.Smallest().user
    ensures g.Smallest().seqno < n.Seq()
  {
    var f :| f in files && n in f.entries;
    var j :| a <= j < b && fs[j] == f;
    LastOfSlice(fs, files, a, b);
    BoundaryIsOlder(fs, b, g);
    EntryOrFile(fs, j, b - 1, n, fs[b - 1].entries[|fs[b - 1].entries| - 1]);
  }

  lemma BoundaryIsOlder(fs: Level, b: nat, g: File)
    requires ValidFiles(fs) && SortedLevel(fs) && 0 < b <= |fs| && g in fs && g.Valid() && IsBoundary(g, fs[b - 1].Largest())
    ensures g.Smallest().seqno < fs[b - 1].Largest().seqno
  {
    var i :| 0 <= i < |fs| && fs[i] == g;
    var last := fs[b - 1].entries[|fs[b - 1].entries| - 1];
    BoundaryIsBehind(fs, b, i);
    EntriesOfOrderedFiles(fs, b - 1, i, last, g.entries[0]);
  }

  lemma BoundaryIsBehind(fs: Level, b: nat, i: nat)
    requires ValidFiles(fs) && SortedLevel(fs) && 0 < b <= |fs| && i < |fs| && IsBoundary(fs[i], fs[b - 1].Largest())
    ensures b <= i
  {
    FirstBeforeLast(fs[b - 1]);
    FirstBeforeLast(fs[i]);
  }

  lemma FirstBeforeLast(f: File)
    requires f.Valid()
    ensures f.Smallest() == f.Largest() || Before(f.Smallest(), f.Largest())
  {
    EntryBetweenEnds(f, f.entries[0]);
  }

  lemma LastOfSlice(fs: Level, files: Level, a: nat, b: nat)
    requires SliceOf(fs, files, a, b) && files != []
    ensures b > 0 && files[|files| - 1] == fs[b - 1]
  {
  }

  /** The boundary file's first entry stays, and is older than every input of its key. */
  lemma BoundaryStays(v: Version, level: nat, in0: Level, in1: Level, g: File)
    requires TreeInv(v) && level + 1 < NUM_LEVELS && ValidInputs(v, level, in0, in1) && ValidFiles(in1)
    requires NextBoundary(v[level + 1], in1, g)
    ensures g.entries[0] in StayingEntries(v, in0, in1)
    ensures forall n :: n in InputEntries(in0, in1) && n.User() == g.Smallest().user ==> g.Smallest().seqno < n.Seq()
  {
    var e0 := g.entries[0];
    BoundaryInTree(v, level, in1, g);
    forall n | n in InputEntries(in0, in1) && n.User() == e0.User() ensures e0.Seq() < n.Seq() {
      InputIsNewer(v, level, in0, in1, g, n);
    }
  }

  lemma InputIsNewer(v: Version, level: nat, in0: Level, in1: Level, g: File, n: Entry)
    requires TreeInv(v) && level + 1 < NUM_LEVELS && ValidInputs(v, level, in0, in1) && ValidFiles(in1)
    requires NextBoundary(v[level + 1], in1, g) && n in InputEntries(in0, in1) && n.User() == g.Smallest().user
    ensures g.Smallest().seqno < n.Seq()
  {
    BoundaryInTree(v, level, in1, g);
    if n in LevelEntries(in1) {
      BoundaryPastInputs(v, level, in0, in1, g, n);
    } else {
      InputsValid(v, level, in0, in1);
      ShallowerIsNewer(v, level, in0, g.entries[0]);
    }
  }

  lemma BoundaryInTree(v: Version, level: nat, in1: Level, g: File)
    requires TreeInv(v) && level + 1 < NUM_LEVELS && ValidFiles(in1) && NextBoundary(v[level + 1], in1, g)
    ensures |g.entries| > 0 && InLevel(v[level + 1], g.entries[0]) && InTree(v, g.entries[0])
  {
    assert g.entries[0] in g.entries;
  }

  lemma BoundaryPastInputs(v: Version, level: nat, in0: Level, in1: Level, g: File, n: Entry)
    requires TreeInv(v) && level + 1 < NUM_LEVELS && ValidInputs(v, level, in0, in1) && ValidFiles(in1)
    requires NextBoundary(v[level + 1], in1, g) && n in LevelEntries(in1) && n.User() == g.Smallest().user
    ensures g.Smallest().seqno < n.Seq()
  {
    var lo, hi :| SpansUsers(in0, lo, hi) && in1 == Overlapping(v[level + 1], Span(lo, hi));
    var a, b := OverlappingIsSlice(v[level + 1], Span(lo, hi));
    BoundaryPastSlice(v[level + 1], in1, a, b, g, n);
  }

  lemma ShallowerIsNewer(v: Version, level: nat, in0: Level, e: Entry)
    requires TreeInv(v) && level + 1 < NUM_LEVELS && InLevel(v[level + 1], e) && forall f :: f in in0 ==> f in v[level]
    ensures forall n :: n in LevelEntries(in0) && n.User() == e.User() ==> e.Seq() < n.Seq()
  {
    LevelNewerEntries(v[level], v[level + 1]);
    forall n | n in LevelEntries(in0) ensures n in LevelEntries(v[level]) {
      var f :| f in in0 && n in f.entries;
    }
    assert e in LevelEntries(v[level + 1]);
  }

  lemma SameFirst(fs: Level, files: Level, f: File, g: File)
    requires ValidFiles(fs) && ValidFiles(files) && NextBoundary(fs, files, f) && NextBoundary(fs, files, g)
    ensures f.Smallest() == g.Smallest()
  {
    var i :| 0 <= i < |fs| && fs[i] == f;
    var j :| 0 <= j < |fs| && fs[j] == g;
    LessIsStrictTotalOrder(fs[i].Smallest(), fs[j].Smallest(), fs[i].Smallest());
  }

  /** In terms of sets: e0 is the first entry behind the inputs, and everything that stays and is
      older than an input of its key is of e0's key and no newer than e0. */
  lemma ResurrectsIff(Upper: iset<Entry>, T: iset<Entry>, In: iset<Entry>, ss: nat, base: UserKey -> bool, e0: Entry, k: UserKey)
    requires NewerThan(Upper, T) && Unique(Upper + T) && In <= T && e0 in T - In
    requires forall n :: n in In && n.User() == e0.User() ==> e0.Seq() < n.Seq()
    requires forall n, r :: n in In && r in T - In && r.User() == n.User() && r.Seq() < n.Seq() && base(n.User()) ==>
               r.User() == e0.User() && r.Seq() <= e0.Seq()
    ensures Resurrects(Upper + (T - In), In, ss, base, k) <==>
            k == e0.User() && base(k) && e0.IsValue() && EndsOnInputMarker(Upper + T, In, k, ss)
  {
    var Rest := Upper + (T - In);
    assert Rest + In == Upper + T;
    if Resurrects(Rest, In, ss, base, k) {
      var n, r :| Newest(Rest + In, k, ss, n) && n in In && !n.IsValue() && Newest(Rest, k, ss, r) && r.IsValue();
      assert r in Upper + T && n in Upper + T && r in T - In;
      assert e0.User() == k && Visible(e0, k, ss) && r.Seq() == e0.Seq();
      NewestIs(Upper + T, k, ss, n);
    }
    if k == e0.User() && base(k) && e0.IsValue() && EndsOnInputMarker(Upper + T, In, k, ss) {
      var n := NewestOf(Upper + T, k, ss).value;
      forall x | x in Rest && Visible(x, k, ss) ensures x.Seq() <= e0.Seq() {
        assert x in Upper + T && n in Upper + T && x != n;
      }
      assert Newest(Rest, k, ss, e0);
    }
  }

  /** Some key resurrects exactly if the marker of that one key is dropped in front of its value. */
  lemma ResurrectionIsUncovering(Upper: iset<Entry>, v: Version, level: nat, in0: Level, in1: Level, ss: nat)
    requires TreeInv(v) && level + 1 < NUM_LEVELS && ValidInputs(v, level, in0, in1) && ValidFiles(in1)
    requires NewerThan(Upper, TreeEntries(v)) && Unique(Upper + TreeEntries(v))
    ensures UncoversValue(Upper, v, level, in0, in1, ss) <==>
            exists k :: Resurrects(Upper + StayingEntries(v, in0, in1), InputEntries(in0, in1), ss, BaseOf(v, level), k)
    ensures UncoversValue(Upper, v, level, in0, in1, ss) ==> !NextLevelClosed(v, level, in1)
  {
    var Rest, In, base := Upper + StayingEntries(v, in0, in1), InputEntries(in0, in1), BaseOf(v, level);
    forall k | Resurrects(Rest, In, ss, base, k) ensures UncoversValue(Upper, v, level, in0, in1, ss) {
      var r, g := ResurrectionNeedsBoundary(Upper, v, level, in0, in1, ss, k);
      AtBoundary(Upper, v, level, in0, in1, ss, g, k);
    }
    if UncoversValue(Upper, v, level, in0, in1, ss) {
      var g :| NextBoundary(v[level + 1], in1, g) && g.entries[0].IsValue();
      AtBoundary(Upper, v, level, in0, in1, ss, g, g.Smallest().user);
    }
  }

  lemma AtBoundary(Upper: iset<Entry>, v: Version, level: nat, in0: Level, in1: Level, ss: nat, g: File, k: UserKey)
    requires TreeInv(v) && level + 1 < NUM_LEVELS && ValidInputs(v, level, in0, in1) && ValidFiles(in1)
    requires NewerThan(Upper, TreeEntries(v)) && Unique(Upper + TreeEntries(v)) && NextBoundary(v[level + 1], in1, g)
    ensures Resurrects(Upper + StayingEntries(v, in0, in1), InputEntries(in0, in1), ss, BaseOf(v, level), k) <==>
            k == g.Smallest().user && BaseLevel(v, level, k) && g.entries[0].IsValue()
            && EndsOnInputMarker(Upper + TreeEntries(v), InputEntries(in0, in1), k, ss)
  {
    var T, In := TreeEntries(v), InputEntries(in0, in1);
    InputsInTree(v, level, in0, in1);
    BoundaryStays(v, level, in0, in1, g);
    forall n, r | n in In && r in T - In && r.User() == n.User() && r.Seq() < n.Seq() && BaseLevel(v, level, n.User())
      ensures r.User() == g.Smallest().user && r.Seq() <= g.Smallest().seqno
    {
      var h := OlderIsLeftBehind(v, level, in0, in1, n, r);
      SameFirst(v[level + 1], in1, g, h);
    }
    ResurrectsIff(Upper, T, In, ss, BaseOf(v, level), g.entries[0], k);
  }

  /** The effect of one compaction on readers, whatever newer entries sit in memory: no read
      at or above the smallest snapshot changes if and only if no value is uncovered, and checking
      that the level+1 inputs are closed rules that out. */
  lemma CompactionReads(Upper: iset<Entry>, v: Version, level: nat, in0: Level, in1: Level,
                        merged: seq<Entry>, ss: nat, outs: Level, next: nat)
    requires TreeInv(v) && level + 1 < NUM_LEVELS && ValidInputs(v, level, in0, in1) && ValidFiles(in1)
    requires NewerThan(Upper, TreeEntries(v)) && Unique(Upper + TreeEntries(v))
    requires NumbersBelow(v, next) && NumberedFrom(outs, next)
    requires IsMerge(in0 + in1, merged) && Flatten(outs) == KeptOf(merged, |merged|, ss, BaseOf(v, level))
    ensures ValidFiles(outs) && TreeInv(InstallResults(v, level, in0, in1, outs))
    ensures TreeEntries(InstallResults(v, level, in0, in1, outs)) <= TreeEntries(v)
    ensures var after := TreeEntries(InstallResults(v, level, in0, in1, outs));
            (forall k, s: nat :: s >= ss ==> Read(Upper + after, k, s) == Read(Upper + TreeEntries(v), k, s))
            <==> !UncoversValue(Upper, v, level, in0, in1, ss)
    ensures NextLevelClosed(v, level, in1) ==> !UncoversValue(Upper, v, level, in0, in1, ss)
  {
    var Rest, In, base := StayingEntries(v, in0, in1), InputEntries(in0, in1), BaseOf(v, level);
    CompactedTree(v, level, in0, in1, merged, ss, outs, next);
    CompactedUnder(Upper, TreeEntries(v), Rest, In, ss, base);
    ResurrectionIsUncovering(Upper, v, level, in0, in1, ss);
  }

  /** The same drops under newer entries in memory. */
  lemma CompactedUnder(Upper: iset<Entry>, T: iset<Entry>, Rest: iset<Entry>, In: iset<Entry>, ss: nat, base: UserKey -> bool)
    requires T == Rest + In && Rest !! In && NewerThan(Upper, T) && Unique(Upper + T)
    ensures (forall k, s: nat :: s >= ss ==> Read(Upper + (Rest + Kept(In, ss, base)), k, s) == Read(Upper + T, k, s))
       <==> !exists k :: Resurrects(Upper + Rest, In, ss, base, k)
  {
    assert Upper + T == (Upper + Rest) + In;
    assert Upper + (Rest + Kept(In, ss, base)) == (Upper + Rest) + Kept(In, ss, base);
    DropsInvisibleIff(Upper + Rest, In, ss, base);
  }

  /** The tree after the compaction: well formed, and holding what stayed and what was kept. */
  lemma CompactedTree(v: Version, level: nat, in0: Level, in1: Level,
                      merged: seq<Entry>, ss: nat, outs: Level, next: nat)
    requires TreeInv(v) && level + 1 < NUM_LEVELS && ValidInputs(v, level, in0, in1)
    requires NumbersBelow(v, next) && NumberedFrom(outs, next)
    requires IsMerge(in0 + in1, merged) && Flatten(outs) == KeptOf(merged, |merged|, ss, BaseOf(v, level))
    ensures ValidFiles(outs) && TreeInv(InstallResults(v, level, in0, in1, outs))
    ensures TreeEntries(InstallResults(v, level, in0, in1, outs)) ==
            StayingEntries(v, in0, in1) + Kept(InputEntries(in0, in1), ss, BaseOf(v, level))
    ensures TreeEntries(v) == StayingEntries(v, in0, in1) + InputEntries(in0, in1)
    ensures TreeEntries(InstallResults(v, level, in0, in1, outs)) <= TreeEntries(v)
  {
    OutputsOfMerge(v, level, in0, in1, merged, ss, outs, next);
    CompactionKeepsTree(v, level, in0, in1, outs, next);
    TreeAfterCompaction(v, level, in0, in1, outs, next);
  }

  lemma OutputsOfMerge(v: Version, level: nat, in0: Level, in1: Level, merged: seq<Entry>, ss: nat, outs: Level, next: nat)
    requires TreeInv(v) && NumbersBelow(v, next) && NumberedFrom(outs, next)
    requires IsMerge(in0 + in1, merged) && Flatten(outs) == KeptOf(merged, |merged|, ss, BaseOf(v, level))
    ensures OutputsFit(v, level, in0, in1, outs, next)
    ensures LevelEntries(outs) == Kept(InputEntries(in0, in1), ss, BaseOf(v, level))
  {
    var base := BaseOf(v, level);
    OutputsSorted(merged, ss, base, outs, next);
    OutputsKept(in0, in1, merged, ss, base, outs);
  }

  lemma OutputsSorted(merged: seq<Entry>, ss: nat, base: UserKey -> bool, outs: Level, next: nat)
    requires NumberedFrom(outs, next) && SortedEntries(merged)
    requires Flatten(outs) == KeptOf(merged, |merged|, ss, base)
    ensures ValidFiles(outs) && SortedLevel(outs) && DistinctNumbers(outs)
  {
    KeptOfSorted(merged, |merged|, ss, base);
    CutsGiveSortedLevel(outs, next);
  }

  lemma OutputsKept(in0: Level, in1: Level, merged: seq<Entry>, ss: nat, base: UserKey -> bool, outs: Level)
    requires IsMerge(in0 + in1, merged)
    requires Flatten(outs) == KeptOf(merged, |merged|, ss, base)
    ensures LevelEntries(outs) == Kept(InputEntries(in0, in1), ss, base)
  {
    FlattenEntries(outs);
    LoopKeeps(merged, ss, base);
    BothInputs(in0, in1);
    assert EntrySet(merged) == InputEntries(in0, in1);
    assert LevelEntries(outs) == EntrySet(Flatten(outs));
  }

  lemma BothInputs(in0: Level, in1: Level)
    ensures forall e :: InLevel(in0 + in1, e) <==> InLevel(in0, e) || InLevel(in1, e)
  {
    forall e ensures InLevel(in0 + in1, e) <==> InLevel(in0, e) || InLevel(in1, e) {
      if InLevel(in0, e) { var f :| f in in0 && e in f.entries; assert f in in0 + in1; }
      if InLevel(in1, e) { var f :| f in in1 && e in f.entries; assert f in in0 + in1; }
    }
  }

  // ---- Moving one file ---------------------------------------------------------------

  /** A trivial move: one input file, nothing to merge it with in the next level. */
  ghost function MoveFile(v: Version, level: nat, f: File): Version
    requires TreeInv(v) && level + 1 < NUM_LEVELS && f.Valid()
  {
    v[level := WithoutNumbers(v[level], {f.number})][level + 1 := InsertFile(v[level + 1], f)]
  }

  ghost predicate NumberFreeAt(fs: Level, number: nat) {
    forall i :: 0 <= i < |fs| ==> fs[i].number != number
  }

  lemma MoveKeepsTree(v: Version, level: nat, f: File)
    requires TreeInv(v) && level + 1 < NUM_LEVELS && ValidInputs(v, level, [f], []) && f.Valid()
    requires NumberFreeAt(v[level + 1], f.number)
    ensures TreeInv(MoveFile(v, level, f))
    ensures TreeEntries(MoveFile(v, level, f)) == TreeEntries(v)
  {
    var v' := MoveFile(v, level, f);
    InputsValid(v, level, [f], []);
    assert f in [f];
    MovedLevel(v, level, f);
    LevelShrinks(v, level, [f]);
    assert Numbers([f]) == {f.number};
    forall l, m | 0 <= l < m < NUM_LEVELS ensures LevelNewer(v'[l], v'[m]) {
      MovedLevelsStayOrdered(v, level, f, l, m);
    }
    forall e ensures InTree(v', e) <==> InTree(v, e) {
      MovedEntries(v, level, f, e);
    }
  }

  lemma MovedLevel(v: Version, level: nat, f: File)
    requires TreeInv(v) && level + 1 < NUM_LEVELS && ValidInputs(v, level, [f], []) && f.Valid()
    requires NumberFreeAt(v[level + 1], f.number)
    ensures var fs := MoveFile(v, level, f)[level + 1];
            ValidFiles(fs) && SortedLevel(fs) && DistinctNumbers(fs) && forall g :: g in fs <==> g in v[level + 1] || g == f
  {
    var fs := v[level + 1];
    forall i | 0 <= i < |fs| ensures Ordered(f, fs[i]) {
      StayedFileIsBeside(v, level, [f], [], fs[i]);
      assert f in [f] && f.entries[0] in LevelEntries([f]) && f.entries[|f.entries| - 1] in LevelEntries([f]);
    }
    InsertFileMembers(fs, f);
    InsertFileKeepsSorted(fs, f);
    InsertFileDistinct(fs, f);
  }

  lemma MovedLevelEntries(v: Version, level: nat, f: File, l: nat, e: Entry)
    requires TreeInv(v) && level + 1 < NUM_LEVELS && ValidInputs(v, level, [f], []) && f.Valid() && l < NUM_LEVELS
    ensures InLevel(MoveFile(v, level, f)[l], e) <==>
              if l == level then InLevelOutside(v[l], [f], e)
              else if l == level + 1 then InLevel(v[l], e) || e in f.entries
              else InLevel(v[l], e)
  {
    InputsValid(v, level, [f], []);
    LevelShrinks(v, level, [f]);
    InsertFileMembers(v[level + 1], f);
    assert Numbers([f]) == {f.number};
  }

  lemma MovedLevelsStayOrdered(v: Version, level: nat, f: File, l: nat, m: nat)
    requires TreeInv(v) && level + 1 < NUM_LEVELS && ValidInputs(v, level, [f], []) && f.Valid() && l < m < NUM_LEVELS
    ensures LevelNewer(MoveFile(v, level, f)[l], MoveFile(v, level, f)[m])
  {
    var v' := MoveFile(v, level, f);
    LevelNewerEntries(v[l], v[m]);
    LevelNewerEntries(v'[l], v'[m]);
    InputsAreBetween(v, level, [f], [], l);
    InputsAreBetween(v, level, [f], [], m);
    assert f in [f];
    forall a, b | InLevel(v'[l], a) && InLevel(v'[m], b) && a.User() == b.User() ensures a.Seq() > b.Seq() {
      MovedLevelEntries(v, level, f, l, a);
      MovedLevelEntries(v, level, f, m, b);
      assert a in f.entries ==> a in InputEntries([f], []);
      assert b in f.entries ==> b in InputEntries([f], []);
      assert InLevel(v[l], a) ==> a in LevelEntries(v[l]);
      assert InLevel(v[m], b) ==> b in LevelEntries(v[m]);
    }
  }

  lemma MovedEntries(v: Version, level: nat, f: File, e: Entry)
    requires TreeInv(v) && level + 1 < NUM_LEVELS && ValidInputs(v, level, [f], []) && f.Valid()
    ensures InTree(MoveFile(v, level, f), e) <==> InTree(v, e)
  {
    var v' := MoveFile(v, level, f);
    InputsValid(v, level, [f], []);
    assert f in [f];
    if InTree(v', e) {
      var l :| 0 <= l < |v'| && InLevel(v'[l], e);
      MovedLevelEntries(v, level, f, l, e);
      assert InLevel(v[l], e) || InLevel(v[level], e);
    }
    if InTree(v, e) {
      var l :| 0 <= l < |v| && InLevel(v[l], e);
      MovedLevelEntries(v, level, f, l, e);
      MovedLevelEntries(v, level, f, level + 1, e);
      assert InLevel(v'[l], e) || InLevel(v'[level + 1], e);
    }
  }

  // ---- Flushing a memtable -----------------------------------------------------------

  ghost function AddFile(v: Version, level: nat, f: File): Version
    requires TreeInv(v) && level < NUM_LEVELS && f.Valid()
  {
    v[level := InsertFile(v[level], f)]
  }

  /** Where PickLevelForMemTableOutput may put a file: level zero, or a level such that no
      file at it or above overlaps the file's user keys. */
  ghost predicate FlushLevel(v: Version, level: nat, f: File)
    requires TreeInv(v) && f.Valid()
  {
    level < NUM_LEVELS
    && (level > 0 ==> forall l, i :: 0 <= l <= level && 0 <= i < |v[l]| ==>
          !Span(f.Smallest().user, f.Largest().user).Overlaps(v[l][i]))
  }

  lemma DisjointUsers(f: File, g: File)
    requires f.Valid() && g.Valid() && !Span(f.Smallest().user, f.Largest().user).Overlaps(g)
    ensures Ordered(f, g)
    ensures forall a, b :: a in f.entries && b in g.entries ==> a.User() != b.User()
  {
    FileEndsInOrder(f);
    FileEndsInOrder(g);
    forall a, b | a in f.entries && b in g.entries ensures a.User() != b.User() {
      EntryBetweenEnds(f, a);
      EntryBetweenEnds(g, b);
    }
  }

  lemma FlushedLevel(v: Version, level: nat, f: File, next: nat)
    requires TreeInv(v) && f.Valid() && FlushLevel(v, level, f) && NumbersBelow(v, next) && f.number == next
    requires NewerThan(EntrySet(f.entries), TreeEntries(v))
    ensures var fs := AddFile(v, level, f)[level];
            ValidFiles(fs) && DistinctNumbers(fs)
            && (level > 0 ==> SortedLevel(fs)) && (level == 0 ==> NumbersFollowAge(fs))
  {
    var fs := v[level];
    InsertFileMembers(fs, f);
    InsertFileDistinct(fs, f);
    if level > 0 {
      forall i | 0 <= i < |fs| ensures Ordered(f, fs[i]) {
        DisjointUsers(f, fs[i]);
      }
      InsertFileKeepsSorted(fs, f);
    } else {
      var grown := InsertFile(fs, f);
      forall i, j | 0 <= i < |grown| && 0 <= j < |grown| && grown[i].number > grown[j].number ensures FileNewer(grown[i], grown[j]) {
        assert grown[i] in grown && grown[j] in grown;
        if grown[i] == f { NewFileIsNewer(v, 0, f, grown[j]); }
      }
    }
  }

  lemma NewFileIsNewer(v: Version, l: nat, f: File, g: File)
    requires |v| == NUM_LEVELS && l < NUM_LEVELS && g in v[l]
    requires NewerThan(EntrySet(f.entries), TreeEntries(v))
    ensures FileNewer(f, g)
  {
    forall a, b | a in f.entries && b in g.entries && a.User() == b.User() ensures a.Seq() > b.Seq() {
      assert InLevel(v[l], b);
    }
  }

  /** Flushing a memtable keeps the tree invariant and adds exactly its entries. */
  lemma FlushKeepsTree(v: Version, level: nat, f: File, next: nat)
    requires TreeInv(v) && f.Valid() && FlushLevel(v, level, f) && NumbersBelow(v, next) && f.number == next
    requires NewerThan(EntrySet(f.entries), TreeEntries(v))
    ensures TreeInv(AddFile(v, level, f))
    ensures TreeEntries(AddFile(v, level, f)) == TreeEntries(v) + EntrySet(f.entries)
  {
    var v' := AddFile(v, level, f);
    FlushedLevel(v, level, f, next);
    InsertFileMembers(v[level], f);
    forall l, m | 0 <= l < m < NUM_LEVELS ensures LevelNewer(v'[l], v'[m]) {
      FlushedLevelsStayOrdered(v, level, f, l, m);
    }
    forall e ensures InTree(v', e) <==> InTree(v, e) || e in f.entries {
      FlushedEntries(v, level, f, e);
    }
  }

  lemma FlushedLevelsStayOrdered(v: Version, level: nat, f: File, l: nat, m: nat)
    requires TreeInv(v) && f.Valid() && FlushLevel(v, level, f) && l < m < NUM_LEVELS
    requires NewerThan(EntrySet(f.entries), TreeEntries(v))
    ensures LevelNewer(AddFile(v, level, f)[l], AddFile(v, level, f)[m])
  {
    var v' := AddFile(v, level, f);
    InsertFileMembers(v[level], f);
    forall i, j | 0 <= i < |v'[l]| && 0 <= j < |v'[m]| ensures FileNewer(v'[l][i], v'[m][j]) {
      var g, h := v'[l][i], v'[m][j];
      assert g in v'[l] && h in v'[m];
      if g !in v[l] {
        NewFileIsNewer(v, m, f, h);
      } else if h !in v[m] {
        var n :| 0 <= n < |v[l]| && v[l][n] == g;
        DisjointUsers(f, v[l][n]);
      } else {
        assert LevelNewer(v[l], v[m]);
      }
    }
  }

  lemma FlushedEntries(v: Version, level: nat, f: File, e: Entry)
    requires TreeInv(v) && f.Valid() && level < NUM_LEVELS
    ensures InTree(AddFile(v, level, f), e) <==> InTree(v, e) || e in f.entries
  {
    var v' := AddFile(v, level, f);
    InsertFileMembers(v[level], f);
    if InTree(v', e) {
      var l :| 0 <= l < |v'| && InLevel(v'[l], e);
      assert InLevel(v[l], e) || e in f.entries;
    }
    if InTree(v, e) {
      var l :| 0 <= l < |v| && InLevel(v[l], e);
      assert InLevel(v'[l], e);
    }
    if e in f.entries { assert f in v'[level] && InLevel(v'[level], e); }
  }
}
