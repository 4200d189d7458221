/** VersionSet::Builder (db/version_set.cc): a run of version edits applied to a base version
    without building the versions in between. */
module Builders {
  import opened Coding
  import opened InternalKeys
  import opened Lookup
  import opened Versions
  import opened Selection
  import opened Compactions
  import opened Install

  // ---- Levels in BySmallestKey order -----------------------------------------------------------

  ghost predicate ByKey(fs: Level)
    requires ValidFiles(fs)
  {
    forall i, j :: 0 <= i < j < |fs| ==> SmallestFirst(fs[i], fs[j])
  }

  lemma SmallestFirstIsStrictOrder(f: File, g: File, h: File)
    requires f.Valid() && g.Valid() && h.Valid()
    ensures !(SmallestFirst(f, g) && SmallestFirst(g, f)) && !SmallestFirst(f, f)
    ensures SmallestFirst(f, g) && SmallestFirst(g, h) ==> SmallestFirst(f, h)
    ensures f.number != g.number ==> SmallestFirst(f, g) || SmallestFirst(g, f)
  {
  }

  /** These are the files of the level, each once and in order. */
  ghost predicate Lists(fs: Level, files: iset<File>) {
    ValidFiles(fs) && ByKey(fs) && forall f :: f in fs <==> f in files
  }

  /** Only one sequence lists a set. */
  lemma {:induction false} ListedOnce(a: Level, b: Level, files: iset<File>)
    requires Lists(a, files) && Lists(b, files)
    ensures a == b
    decreases |a|
  {
    if |a| == 0 {
      if |b| > 0 { HeadListed(b, files); }
    } else {
      assert a[0] in a && a[0] in b;
      FirstIsLeast(a, b);
      assert a[0] == b[0];
      RestLists(a, files);
      RestLists(b, files);
      ListedOnce(a[1..], b[1..], files - iset{a[0]});
      assert a == [a[0]] + a[1..] && b == [b[0]] + b[1..];
    }
  }

  lemma HeadListed(a: Level, files: iset<File>)
    requires Lists(a, files) && |a| > 0
    ensures a[0] in files
  {
  }

  lemma FirstIsLeast(a: Level, b: Level)
    requires ValidFiles(a) && ValidFiles(b) && ByKey(a) && ByKey(b) && |a| > 0
    requires forall f :: f in a <==> f in b
    ensures |b| > 0 && a[0] == b[0]
  {
    assert a[0] in b;
    var i :| 0 <= i < |b| && b[i] == a[0];
    assert b[0] in a;
    var j :| 0 <= j < |a| && a[j] == b[0];
    OneOfTwoFirst(a, b, i, j);
  }

  lemma OneOfTwoFirst(a: Level, b: Level, i: nat, j: nat)
    requires ValidFiles(a) && ValidFiles(b) && ByKey(a) && ByKey(b)
    requires i < |b| && j < |a| && b[i] == a[0] && a[j] == b[0]
    ensures a[0] == b[0]
  {
    SmallestFirstIsStrictOrder(a[0], b[0], a[0]);
    assert !(i > 0 && j > 0);
  }

  lemma RestLists(a: Level, files: iset<File>)
    requires Lists(a, files) && |a| > 0
    ensures Lists(a[1..], files - iset{a[0]})
  {
    forall f ensures f in a[1..] <==> f in a && f != a[0] {
      if f in a[1..] {
        var i :| 0 <= i < |a| - 1 && a[i + 1] == f;
        SmallestFirstIsStrictOrder(a[0], a[i + 1], a[0]);
      }
      assert f in a ==> f == a[0] || f in a[1..];
    }
  }

  lemma {:induction false} InsertFileByKey(fs: Level, f: File)
    requires ValidFiles(fs) && f.Valid() && ByKey(fs) && forall i :: 0 <= i < |fs| ==> fs[i].number != f.number
    ensures ValidFiles(InsertFile(fs, f)) && ByKey(InsertFile(fs, f))
  {
    InsertFileMembers(fs, f);
    if |fs| > 0 {
      SmallestFirstIsStrictOrder(f, fs[0], f);
      if SmallestFirst(f, fs[0]) {
        forall i | 0 <= i < |fs| ensures SmallestFirst(f, fs[i]) {
          SmallestFirstIsStrictOrder(f, fs[0], fs[i]);
        }
      } else {
        InsertFileByKey(fs[1..], f);
        InsertFileMembers(fs[1..], f);
        var rest := InsertFile(fs[1..], f);
        forall j | 0 <= j < |rest| ensures SmallestFirst(fs[0], rest[j]) {
          assert rest[j] in rest;
        }
      }
    }
  }

  // ---- Edits -----------------------------------------------------------------------------------

  /** The part of a version edit that concerns files. */
  datatype FileEdit = FileEdit(deleted: seq<(nat, nat)>, added: seq<(nat, File)>)

  /** The files of level l after one edit. */
  ghost function After(files: iset<File>, e: FileEdit, l: nat): iset<File> {
    iset f | (f in files && (l, f.number) !in e.deleted) || (l, f) in e.added
  }

  ghost function AfterAll(files: iset<File>, es: seq<FileEdit>, l: nat): iset<File> {
    if |es| == 0 then files else After(AfterAll(files, es[..|es| - 1], l), es[|es| - 1], l)
  }

  ghost function FilesOf(fs: Level): iset<File> { iset f | f in fs }

  ghost predicate EditOk(e: FileEdit) {
    && (forall i :: 0 <= i < |e.added| ==> e.added[i].0 < NUM_LEVELS && e.added[i].1.Valid())
    && (forall i :: 0 <= i < |e.deleted| ==> e.deleted[i].0 < NUM_LEVELS)
  }

  /** No level gets a file number twice, nor one its base already has. */
  ghost predicate AddedOnce(base: Version, log: seq<(nat, File)>) {
    && (forall i :: 0 <= i < |log| ==> log[i].0 < |base| && log[i].1.Valid())
    && (forall i, j :: 0 <= i < j < |log| && log[i].0 == log[j].0 ==> log[i].1.number != log[j].1.number)
    && (forall i, j :: 0 <= i < |log| && 0 <= j < |base[log[i].0]| ==> base[log[i].0][j].number != log[i].1.number)
  }

  /** Everything the edits add, in order. */
  ghost function AllAdded(es: seq<FileEdit>): seq<(nat, File)> {
    if |es| == 0 then [] else AllAdded(es[..|es| - 1]) + es[|es| - 1].added
  }

  ghost predicate BaseOk(base: Version) {
    |base| == NUM_LEVELS && forall l :: 0 <= l < NUM_LEVELS ==> ValidFiles(base[l]) && ByKey(base[l])
  }

  /** Level l of the builder holds what the log added to it. */
  ghost predicate HoldsLog(added: Level, log: seq<(nat, File)>, l: nat) {
    ValidFiles(added) && ByKey(added) && forall f :: f in added <==> (l, f) in log
  }

  class Builder {
    const base: Version
    var deletedFiles: seq<set<nat>>
    var addedFiles: seq<Level>
    ghost var log: seq<(nat, File)>

    ghost predicate Valid()
      reads this
    {
      && BaseOk(base) && |deletedFiles| == |addedFiles| == NUM_LEVELS && AddedOnce(base, log)
      && forall l {:trigger addedFiles[l]} :: 0 <= l < NUM_LEVELS ==> HoldsLog(addedFiles[l], log, l)
    }

    /** The files level l will have if saved now. */
    ghost function Files(l: nat): iset<File>
      requires l < |base| && l < |deletedFiles| && l < |addedFiles|
      reads this
    {
      Remaining(base[l], addedFiles[l], deletedFiles[l])
    }

    constructor (base: Version)
      requires BaseOk(base)
      ensures Valid() && this.base == base && log == []
      ensures forall l :: 0 <= l < NUM_LEVELS ==> Files(l) == FilesOf(base[l])
    {
      this.base := base;
      deletedFiles := seq(NUM_LEVELS, _ => {});
      addedFiles := seq(NUM_LEVELS, _ => []);
      log := [];
    }

    method AddOne(level: nat, f: File)
      requires Valid() && AddedOnce(base, log + [(level, f)])
      modifies this
      ensures Valid() && log == old(log) + [(level, f)]
      ensures forall l :: 0 <= l < NUM_LEVELS ==> Files(l) == old(Files(l)) + if l == level then iset{f} else iset{}
    {
      ghost var longer := log + [(level, f)];
      assert longer[|log|] == (level, f);
      NumberIsNew(base, log, level, f, addedFiles[level]);
      InsertFileByKey(addedFiles[level], f);
      InsertFileMembers(addedFiles[level], f);
      deletedFiles := deletedFiles[level := deletedFiles[level] - {f.number}];
      addedFiles := addedFiles[level := InsertFile(addedFiles[level], f)];
      log := longer;
    }

    /** Apply: deletions first, then additions, which take back a deletion of the same number. */
    method Apply(e: FileEdit)
      requires Valid() && EditOk(e) && AddedOnce(base, log + e.added)
      modifies this
      ensures Valid() && log == old(log) + e.added
      ensures forall l :: 0 <= l < NUM_LEVELS ==> Files(l) == After(old(Files(l)), e, l)
    {
      DeleteAll(e.deleted);
      AddAll(e);
    }

    method DeleteAll(deleted: seq<(nat, nat)>)
      requires Valid() && forall i :: 0 <= i < |deleted| ==> deleted[i].0 < NUM_LEVELS
      modifies this`deletedFiles
      ensures Valid()
      ensures forall l :: 0 <= l < NUM_LEVELS ==> Files(l) == After(old(Files(l)), FileEdit(deleted, []), l)
    {
      var i := 0;
      while i < |deleted|
        invariant i <= |deleted| && Valid()
        invariant forall l :: 0 <= l < NUM_LEVELS ==> Files(l) == After(old(Files(l)), FileEdit(deleted[..i], []), l)
      {
        TakeOneMore(deleted, i);
        DeleteOne(deleted[i].0, deleted[i].1);
        i := i + 1;
      }
      assert deleted[..i] == deleted;
    }

    method DeleteOne(level: nat, number: nat)
      requires Valid() && level < NUM_LEVELS
      modifies this`deletedFiles
      ensures Valid()
      ensures forall l :: 0 <= l < NUM_LEVELS ==>
                Files(l) == (iset f | f in old(Files(l)) && !(l == level && f.number == number))
    {
      deletedFiles := deletedFiles[level := deletedFiles[level] + {number}];
    }

    method AddAll(e: FileEdit)
      requires Valid() && EditOk(e) && AddedOnce(base, log + e.added)
      modifies this
      ensures Valid() && log == old(log) + e.added
      ensures forall l :: 0 <= l < NUM_LEVELS ==> Files(l) == (iset f | f in old(Files(l)) || (l, f) in e.added)
    {
      var i := 0;
      assert log + e.added[..0] == log;
      while i < |e.added|
        invariant i <= |e.added| && Valid() && log == old(log) + e.added[..i]
        invariant forall l :: 0 <= l < NUM_LEVELS ==> Files(l) == (iset f | f in old(Files(l)) || (l, f) in e.added[..i])
      {
        NextAddition(base, old(log), e.added, i);
        AddOne(e.added[i].0, e.added[i].1);
        i := i + 1;
      }
      assert e.added[..i] == e.added;
    }

    /** SaveTo: every level in turn. */
    method SaveTo() returns (v: Version)
      requires Valid()
      ensures |v| == NUM_LEVELS && forall l :: 0 <= l < NUM_LEVELS ==> Lists(v[l], Files(l))
    {
      v := [];
      var level := 0;
      while level < NUM_LEVELS
        invariant level <= NUM_LEVELS && |v| == level
        invariant forall l :: 0 <= l < level ==> Lists(v[l], Files(l))
      {
        LogIsApart(base, log, addedFiles[level], level);
        var files := SaveLevel(base[level], addedFiles[level], deletedFiles[level]);
        v := v + [files];
        level := level + 1;
      }
    }
  }

  lemma NextAddition(base: Version, log: seq<(nat, File)>, added: seq<(nat, File)>, i: nat)
    requires i < |added| && AddedOnce(base, log + added)
    ensures added[..i + 1] == added[..i] + [added[i]]
    ensures log + added[..i + 1] == log + added[..i] + [(added[i].0, added[i].1)]
    ensures AddedOnce(base, log + added[..i] + [(added[i].0, added[i].1)])
  {
    AddedOncePrefix(base, log + added, |log| + i + 1);
    assert (log + added)[..|log| + i + 1] == log + added[..i] + [(added[i].0, added[i].1)];
  }

  lemma AddedOncePrefix(base: Version, log: seq<(nat, File)>, n: nat)
    requires AddedOnce(base, log) && n <= |log|
    ensures AddedOnce(base, log[..n])
  {
  }

  lemma NumberIsNew(base: Version, log: seq<(nat, File)>, level: nat, f: File, added: Level)
    requires AddedOnce(base, log + [(level, f)]) && HoldsLog(added, log, level)
    ensures level < |base| && f.Valid()
    ensures forall i :: 0 <= i < |added| ==> added[i].number != f.number
    ensures forall i :: 0 <= i < |base[level]| ==> base[level][i].number != f.number
  {
    var longer := log + [(level, f)];
    assert longer[|log|] == (level, f);
    forall i | 0 <= i < |added| ensures added[i].number != f.number {
      assert (level, added[i]) in log;
      var j :| 0 <= j < |log| && log[j] == (level, added[i]);
      assert longer[j] == log[j];
    }
  }

  lemma LogIsApart(base: Version, log: seq<(nat, File)>, added: Level, l: nat)
    requires BaseOk(base) && l < NUM_LEVELS && AddedOnce(base, log) && HoldsLog(added, log, l)
    ensures LevelOk(base[l], added)
  {
    forall i, j | 0 <= i < |base[l]| && 0 <= j < |added| ensures base[l][i].number != added[j].number {
      assert (l, added[j]) in log;
      var k :| 0 <= k < |log| && log[k] == (l, added[j]);
    }
  }

  ghost predicate LevelOk(base: Level, added: Level) {
    && ValidFiles(base) && ByKey(base) && ValidFiles(added) && ByKey(added)
    && forall i, j :: 0 <= i < |base| && 0 <= j < |added| ==> base[i].number != added[j].number
  }

  ghost function Remaining(base: Level, added: Level, deleted: set<nat>): iset<File> {
    iset f | (f in base || f in added) && f.number !in deleted
  }

  // ---- Many edits at once or one at a time -------------------------------------------------------

  /** All edits through one builder, as recovery reads a manifest. */
  method SaveAll(v: Version, es: seq<FileEdit>) returns (v': Version)
    requires BaseOk(v) && (forall i :: 0 <= i < |es| ==> EditOk(es[i])) && AddedOnce(v, AllAdded(es))
    ensures |v'| == NUM_LEVELS && forall l :: 0 <= l < NUM_LEVELS ==> Lists(v'[l], AfterAll(FilesOf(v[l]), es, l))
  {
    var builder := new Builder(v);
    var i := 0;
    assert AllAdded(es[..0]) == [];
    while i < |es|
      invariant i <= |es| && fresh(builder) && builder.Valid() && builder.base == v && builder.log == AllAdded(es[..i])
      invariant forall l :: 0 <= l < NUM_LEVELS ==> builder.Files(l) == AfterAll(FilesOf(v[l]), es[..i], l)
    {
      OneMoreEdit(v, es, i);
      forall l | 0 <= l < NUM_LEVELS
        ensures AfterAll(FilesOf(v[l]), es[..i + 1], l) == After(AfterAll(FilesOf(v[l]), es[..i], l), es[i], l)
      {
        AfterOneMore(FilesOf(v[l]), es, i, l);
      }
      builder.Apply(es[i]);
      i := i + 1;
    }
    assert es[..i] == es;
    v' := builder.SaveTo();
  }

  lemma {:induction false} AllAddedPrefix(es: seq<FileEdit>, i: nat)
    requires i <= |es|
    ensures AllAdded(es[..i]) <= AllAdded(es)
    decreases |es|
  {
    if i < |es| {
      assert es[..|es| - 1][..i] == es[..i];
      AllAddedPrefix(es[..|es| - 1], i);
    } else {
      assert es[..i] == es;
    }
  }

  lemma AddedGrows(es: seq<FileEdit>, i: nat)
    requires i < |es|
    ensures AllAdded(es[..i + 1]) == AllAdded(es[..i]) + es[i].added
  {
    assert es[..i + 1][..i] == es[..i];
  }

  lemma OneMoreEdit(v: Version, es: seq<FileEdit>, i: nat)
    requires i < |es| && AddedOnce(v, AllAdded(es))
    ensures AllAdded(es[..i + 1]) == AllAdded(es[..i]) + es[i].added && AddedOnce(v, AllAdded(es[..i + 1]))
  {
    AddedGrows(es, i);
    AllAddedPrefix(es, i + 1);
    PrefixOnce(v, AllAdded(es[..i + 1]), AllAdded(es));
  }

  lemma PrefixOnce(base: Version, part: seq<(nat, File)>, log: seq<(nat, File)>)
    requires AddedOnce(base, log) && part <= log
    ensures AddedOnce(base, part)
  {
    AddedOncePrefix(base, log, |part|);
    assert log[..|part|] == part;
  }

  lemma AfterOneMore(files: iset<File>, es: seq<FileEdit>, i: nat, l: nat)
    requires i < |es|
    ensures AfterAll(files, es[..i + 1], l) == After(AfterAll(files, es[..i], l), es[i], l)
  {
    assert es[..i + 1][..i] == es[..i];
  }

  lemma {:induction false} FilesComeFrom(fs: Level, es: seq<FileEdit>, l: nat, f: File)
    requires f in AfterAll(FilesOf(fs), es, l)
    ensures f in fs || (l, f) in AllAdded(es)
    decreases |es|
  {
    if |es| > 0 && f in AfterAll(FilesOf(fs), es[..|es| - 1], l) { FilesComeFrom(fs, es[..|es| - 1], l, f); }
  }

  /** An edit adds nothing that the version before it has under the same number. */
  lemma StillNew(v: Version, cur: Version, es: seq<FileEdit>, i: nat)
    requires BaseOk(v) && BaseOk(cur) && i < |es| && AddedOnce(v, AllAdded(es))
    requires forall l :: 0 <= l < NUM_LEVELS ==> Lists(cur[l], AfterAll(FilesOf(v[l]), es[..i], l))
    ensures AddedOnce(cur, es[i].added)
  {
    OneMoreEdit(v, es, i);
    SuffixOnce(v, AllAdded(es[..i]), es[i].added);
    forall n, j | 0 <= n < |es[i].added| && 0 <= j < |cur[es[i].added[n].0]|
      ensures cur[es[i].added[n].0][j].number != es[i].added[n].1.number
    {
      NotThereYet(v, cur[es[i].added[n].0], es, i, n, j);
    }
  }

  lemma SuffixOnce(v: Version, before: seq<(nat, File)>, added: seq<(nat, File)>)
    requires AddedOnce(v, before + added)
    ensures forall n :: 0 <= n < |added| ==> added[n].0 < |v| && added[n].1.Valid()
    ensures forall n, m :: 0 <= n < m < |added| && added[n].0 == added[m].0 ==> added[n].1.number != added[m].1.number
  {
    var log := before + added;
    forall n | 0 <= n < |added| ensures added[n].0 < |v| && added[n].1.Valid() {
      assert log[|before| + n] == added[n];
    }
    forall n, m | 0 <= n < m < |added| && added[n].0 == added[m].0 ensures added[n].1.number != added[m].1.number {
      assert log[|before| + n] == added[n] && log[|before| + m] == added[m];
    }
  }

  lemma NotThereYet(v: Version, fs: Level, es: seq<FileEdit>, i: nat, n: nat, j: nat)
    requires BaseOk(v) && i < |es| && n < |es[i].added| && AddedOnce(v, AllAdded(es[..i]) + es[i].added)
    requires es[i].added[n].0 < NUM_LEVELS && j < |fs|
    requires Lists(fs, AfterAll(FilesOf(v[es[i].added[n].0]), es[..i], es[i].added[n].0))
    ensures fs[j].number != es[i].added[n].1.number
  {
    var before := AllAdded(es[..i]);
    var log, l, f := before + es[i].added, es[i].added[n].0, es[i].added[n].1;
    assert log[|before| + n] == (l, f);
    assert fs[j] in fs;
    FilesComeFrom(v[l], es[..i], l, fs[j]);
    if fs[j] in v[l] {
      var k :| 0 <= k < |v[l]| && v[l][k] == fs[j];
    } else {
      var k :| 0 <= k < |before| && before[k] == (l, fs[j]);
      assert log[k] == (l, fs[j]);
    }
  }

  /** One new version for every edit, as a running store does. */
  method SaveOneByOne(v: Version, es: seq<FileEdit>) returns (v': Version)
    requires BaseOk(v) && (forall i :: 0 <= i < |es| ==> EditOk(es[i])) && AddedOnce(v, AllAdded(es))
    ensures |v'| == NUM_LEVELS && forall l :: 0 <= l < NUM_LEVELS ==> Lists(v'[l], AfterAll(FilesOf(v[l]), es, l))
  {
    v' := v;
    var i := 0;
    while i < |es|
      invariant i <= |es| && BaseOk(v')
      invariant forall l :: 0 <= l < NUM_LEVELS ==> Lists(v'[l], AfterAll(FilesOf(v[l]), es[..i], l))
    {
      StillNew(v, v', es, i);
      forall l | 0 <= l < NUM_LEVELS
        ensures AfterAll(FilesOf(v[l]), es[..i + 1], l) == After(FilesOf(v'[l]), es[i], l)
      {
        AfterOneMore(FilesOf(v[l]), es, i, l);
        assert FilesOf(v'[l]) == AfterAll(FilesOf(v[l]), es[..i], l);
      }
      v' := SaveOne(v', es[i]);
      i := i + 1;
    }
    assert es[..i] == es;
  }

  /** LogAndApply's use of the builder: one edit, one new version. */
  method SaveOne(v: Version, e: FileEdit) returns (v': Version)
    requires BaseOk(v) && EditOk(e) && AddedOnce(v, e.added)
    ensures BaseOk(v') && forall l :: 0 <= l < NUM_LEVELS ==> Lists(v'[l], After(FilesOf(v[l]), e, l))
  {
    var builder := new Builder(v);
    assert [] + e.added == e.added;
    builder.Apply(e);
    v' := builder.SaveTo();
  }

  /** Feeding edits to one builder and saving once gives, level by level and file by file, the
      version that applying them one at a time gives. */
  method BothWays(v: Version, es: seq<FileEdit>) returns (atOnce: Version, stepwise: Version)
    requires BaseOk(v) && (forall i :: 0 <= i < |es| ==> EditOk(es[i])) && AddedOnce(v, AllAdded(es))
    ensures atOnce == stepwise
  {
    atOnce := SaveAll(v, es);
    stepwise := SaveOneByOne(v, es);
    forall l | 0 <= l < NUM_LEVELS ensures atOnce[l] == stepwise[l] {
      ListedOnce(atOnce[l], stepwise[l], AfterAll(FilesOf(v[l]), es, l));
    }
  }

  // ---- The edit of a compaction ------------------------------------------------------------------

  lemma {:induction false} WithoutNumbersByKey(fs: Level, gone: set<nat>)
    requires ValidFiles(fs) && ByKey(fs)
    ensures ValidFiles(WithoutNumbers(fs, gone)) && ByKey(WithoutNumbers(fs, gone))
  {
    WithoutNumbersValid(fs, gone);
    if |fs| > 0 {
      WithoutNumbersByKey(fs[1..], gone);
      WithoutNumbersMembers(fs[1..], gone);
      var rest := WithoutNumbers(fs[1..], gone);
      forall j | 0 <= j < |rest| ensures SmallestFirst(fs[0], rest[j]) {
        assert rest[j] in fs[1..];
      }
    }
  }

  lemma {:induction false} InsertFilesByKey(fs: Level, added: Level)
    requires ValidFiles(fs) && ValidFiles(added) && ByKey(fs) && DistinctNumbers(added)
    requires forall i, j :: 0 <= i < |fs| && 0 <= j < |added| ==> fs[i].number != added[j].number
    ensures ValidFiles(InsertFiles(fs, added)) && ByKey(InsertFiles(fs, added))
    decreases |added|
  {
    InsertFilesMembers(fs, added);
    if |added| > 0 {
      var next := InsertFile(fs, added[0]);
      InsertFileByKey(fs, added[0]);
      InsertFileMembers(fs, added[0]);
      forall i, j | 0 <= i < |next| && 0 <= j < |added[1..]| ensures next[i].number != added[1..][j].number {
        assert next[i] in next;
      }
      InsertFilesByKey(next, added[1..]);
    }
  }

  function Deletions(files: Level, l: nat): seq<(nat, nat)> {
    seq(|files|, i requires 0 <= i < |files| => (l, files[i].number))
  }

  function Additions(files: Level, l: nat): seq<(nat, File)> {
    seq(|files|, i requires 0 <= i < |files| => (l, files[i]))
  }

  /** InstallCompactionResults: delete the inputs, add the outputs one level down. */
  function CompactionEdit(level: nat, in0: Level, in1: Level, outs: Level): FileEdit {
    FileEdit(Deletions(in0, level) + Deletions(in1, level + 1), Additions(outs, level + 1))
  }

  lemma DeletionsAre(files: Level, l: nat, m: nat, n: nat)
    ensures (m, n) in Deletions(files, l) <==> m == l && n in Numbers(files)
  {
    if m == l && n in Numbers(files) {
      var i :| 0 <= i < |files| && files[i].number == n;
      assert Deletions(files, l)[i] == (l, n);
    }
  }

  lemma AdditionsAre(files: Level, l: nat, m: nat, f: File)
    ensures (m, f) in Additions(files, l) <==> m == l && f in files
  {
    if m == l && f in files {
      var i :| 0 <= i < |files| && files[i] == f;
      assert Additions(files, l)[i] == (l, f);
    }
  }

  lemma CompactionEditFiles(fs: Level, level: nat, in0: Level, in1: Level, outs: Level, l: nat, f: File)
    ensures f in After(FilesOf(fs), CompactionEdit(level, in0, in1, outs), l) <==>
            (f in fs && !(l == level && f.number in Numbers(in0)) && !(l == level + 1 && f.number in Numbers(in1)))
            || (l == level + 1 && f in outs)
  {
    DeletionsAre(in0, level, l, f.number);
    DeletionsAre(in1, level + 1, l, f.number);
    AdditionsAre(outs, level + 1, l, f);
  }

  /** The version that the compaction theorems speak of is the one the builder saves. */
  lemma InstallIsSaved(v: Version, level: nat, in0: Level, in1: Level, outs: Level, next: nat, l: nat)
    requires TreeInv(v) && BaseOk(v) && level + 1 < NUM_LEVELS && l < NUM_LEVELS
    requires ValidFiles(outs) && DistinctNumbers(outs) && NumbersBelow(v, next) && NumberedFrom(outs, next)
    ensures Lists(InstallResults(v, level, in0, in1, outs)[l], After(FilesOf(v[l]), CompactionEdit(level, in0, in1, outs), l))
  {
    var v' := InstallResults(v, level, in0, in1, outs);
    WithoutNumbersByKey(v[level], Numbers(in0));
    WithoutNumbersMembers(v[level], Numbers(in0));
    WithoutNumbersByKey(v[level + 1], Numbers(in1));
    WithoutNumbersMembers(v[level + 1], Numbers(in1));
    var kept := WithoutNumbers(v[level + 1], Numbers(in1));
    KeptHaveOlderNumbers(v, level + 1, kept, outs, next);
    InsertFilesByKey(kept, outs);
    InsertFilesMembers(kept, outs);
    forall f ensures f in v'[l] <==> f in After(FilesOf(v[l]), CompactionEdit(level, in0, in1, outs), l) {
      CompactionEditFiles(v[l], level, in0, in1, outs, l, f);
    }
  }

  lemma KeptHaveOlderNumbers(v: Version, l: nat, kept: Level, outs: Level, next: nat)
    requires l < |v| && NumbersBelow(v, next) && NumberedFrom(outs, next) && forall f :: f in kept ==> f in v[l]
    ensures forall i, j :: 0 <= i < |kept| && 0 <= j < |outs| ==> kept[i].number != outs[j].number
  {
    forall i, j | 0 <= i < |kept| && 0 <= j < |outs| ensures kept[i].number != outs[j].number {
      assert kept[i] in v[l];
      var k :| 0 <= k < |v[l]| && v[l][k] == kept[i];
    }
  }

  // ---- Saving one level ------------------------------------------------------------------------

  /** SaveTo, one level: the base files and the added ones in order, without the deleted. */
  method SaveLevel(base: Level, added: Level, deleted: set<nat>) returns (out: Level)
    requires LevelOk(base, added)
    ensures Lists(out, Remaining(base, added, deleted))
  {
    out := [];
    var b, a := 0, 0;
    while a < |added|
      invariant a <= |added| && b <= |base| && Merged(base, added, deleted, b, a, out)
    {
      while b < |base| && !SmallestFirst(added[a], base[b])
        invariant b <= |base| && Merged(base, added, deleted, b, a, out)
      {
        TakeBase(base, added, deleted, b, a, out);
        if base[b].number !in deleted {
          out := out + [base[b]];
        }
        b := b + 1;
      }
      TakeAdded(base, added, deleted, b, a, out);
      if added[a].number !in deleted {
        out := out + [added[a]];
      }
      a := a + 1;
    }
    while b < |base|
      invariant a == |added| && b <= |base| && Merged(base, added, deleted, b, a, out)
    {
      TakeBase(base, added, deleted, b, a, out);
      if base[b].number !in deleted {
        out := out + [base[b]];
      }
      b := b + 1;
    }
    assert base[..b] == base && added[..a] == added;
  }

  /** Of the two lists the first b and a files are dealt with; the others come after them. */
  ghost predicate Merged(base: Level, added: Level, deleted: set<nat>, b: nat, a: nat, out: Level)
    requires LevelOk(base, added) && b <= |base| && a <= |added|
  {
    && Lists(out, Remaining(base[..b], added[..a], deleted))
    && (forall i, j :: 0 <= i < b && a <= j < |added| ==> SmallestFirst(base[i], added[j]))
    && (forall i, j :: b <= i < |base| && 0 <= j < a ==> SmallestFirst(added[j], base[i]))
  }

  lemma Grow(out: Level, files: iset<File>, f: File)
    requires Lists(out, files) && f.Valid() && forall g :: g in files ==> g.Valid() && SmallestFirst(g, f)
    ensures Lists(out + [f], files + iset{f})
  {
    forall i | 0 <= i < |out| ensures SmallestFirst(out[i], f) {
      assert out[i] in out;
    }
  }

  lemma TakeBase(base: Level, added: Level, deleted: set<nat>, b: nat, a: nat, out: Level)
    requires LevelOk(base, added) && b < |base| && a <= |added| && Merged(base, added, deleted, b, a, out)
    requires a < |added| ==> !SmallestFirst(added[a], base[b])
    ensures Merged(base, added, deleted, b + 1, a, if base[b].number in deleted then out else out + [base[b]])
  {
    var f := base[b];
    var before, now := Remaining(base[..b], added[..a], deleted), Remaining(base[..b + 1], added[..a], deleted);
    assert base[..b + 1] == base[..b] + [f];
    forall g | g in before ensures g.Valid() && SmallestFirst(g, f) {
      if g in base[..b] {
        var i :| 0 <= i < b && base[i] == g;
      } else {
        var j :| 0 <= j < a && added[j] == g;
      }
    }
    if f.number in deleted {
      assert now == before;
    } else {
      Grow(out, before, f);
      assert now == before + iset{f};
    }
    forall j | a <= j < |added| ensures SmallestFirst(f, added[j]) {
      SmallestFirstIsStrictOrder(f, added[a], added[j]);
    }
  }

  lemma TakeAdded(base: Level, added: Level, deleted: set<nat>, b: nat, a: nat, out: Level)
    requires LevelOk(base, added) && b <= |base| && a < |added| && Merged(base, added, deleted, b, a, out)
    requires b < |base| ==> SmallestFirst(added[a], base[b])
    ensures Merged(base, added, deleted, b, a + 1, if added[a].number in deleted then out else out + [added[a]])
  {
    var f := added[a];
    var before, now := Remaining(base[..b], added[..a], deleted), Remaining(base[..b], added[..a + 1], deleted);
    assert added[..a + 1] == added[..a] + [f];
    forall g | g in before ensures g.Valid() && SmallestFirst(g, f) {
      if g in base[..b] {
        var i :| 0 <= i < b && base[i] == g;
      } else {
        var j :| 0 <= j < a && added[j] == g;
      }
    }
    if f.number in deleted {
      assert now == before;
    } else {
      Grow(out, before, f);
      assert now == before + iset{f};
    }
    forall i | b <= i < |base| ensures SmallestFirst(f, base[i]) {
      SmallestFirstIsStrictOrder(f, base[b], base[i]);
    }
  }
}
