/** Choosing the inputs of a compaction and the level of a flushed memtable
    (db/version_set.cc: SomeFileOverlapsRange, GetOverlappingInputs, AddBoundaryInputs,
    SetupOtherInputs, PickLevelForMemTableOutput). */
module Selection {
  import opened Coding
  import opened InternalKeys
  import opened Lookup
  import opened Versions

  const MAX_MEM_COMPACT_LEVEL: nat := 2

  /** A user-key range; an absent bound is open on that side. */
  datatype Range = Range(begin: Option<UserKey>, end: Option<UserKey>) {
    predicate Contains(k: UserKey) {
      (begin.Some? ==> begin.value <= k) && (end.Some? ==> k <= end.value)
    }

    /** The test the selection code applies: the file is neither wholly before the range
        nor wholly after it. */
    predicate Overlaps(f: File)
      requires |f.entries| > 0
    {
      !(begin.Some? && f.Largest().user < begin.value) && !(end.Some? && f.Smallest().user > end.value)
    }
  }

  function Span(lo: UserKey, hi: UserKey): Range { Range(Some(lo), Some(hi)) }

  predicate FilesMeet(f: File, g: File)
    requires |f.entries| > 0 && |g.entries| > 0
  {
    f.Smallest().user <= g.Largest().user && g.Smallest().user <= f.Largest().user
  }

  lemma FileEndsInOrder(f: File)
    requires f.Valid()
    ensures f.Smallest().user <= f.Largest().user
  {
    EntryBetweenEnds(f, f.entries[0]);
  }

  // ---- SomeFileOverlapsRange ---------------------------------------------------------

  /** OverlapInLevel: level zero is scanned, the others are binary searched. */
  method OverlapInLevel(v: Version, level: nat, r: Range) returns (overlap: bool)
    requires TreeInv(v) && level < NUM_LEVELS
    requires r.begin.Some? && r.end.Some? ==> r.begin.value <= r.end.value
    ensures overlap <==> exists i :: 0 <= i < |v[level]| && r.Overlaps(v[level][i])
  {
    var files := v[level];
    if level == 0 {
      var i := 0;
      while i < |files|
        invariant i <= |files|
        invariant forall j :: 0 <= j < i ==> !r.Overlaps(files[j])
      {
        if r.Overlaps(files[i]) { return true; }
        i := i + 1;
      }
      return false;
    }
    var index := 0;
    if r.begin.Some? {
      index := FindFile(files, InternalKey(r.begin.value, MAX_SEQUENCE, TypeValue));
    }
    if index >= |files| {
      return false;
    }
    overlap := !(r.end.Some? && r.end.value < files[index].Smallest().user);
    FileEndsInOrder(files[index]);
    if overlap {
      assert r.Overlaps(files[index]);
    } else {
      forall i | 0 <= i < |files| ensures !r.Overlaps(files[i]) {
        if i > index { SmallestIncreases(files, index, i); }
      }
    }
  }

  lemma SmallestIncreases(fs: Level, i: nat, j: nat)
    requires ValidFiles(fs) && SortedLevel(fs) && i < j < |fs|
    ensures Before(fs[i].Smallest(), fs[j].Smallest())
  {
    EntryBetweenEnds(fs[i], fs[i].entries[0]);
  }

  /** PickLevelForMemTableOutput. `tooMuchGrandparent` stands for the size test on the
      grandparent level. */
  method PickLevelForMemTableOutput(v: Version, lo: UserKey, hi: UserKey, tooMuchGrandparent: nat -> bool)
      returns (level: nat)
    requires TreeInv(v) && lo <= hi
    ensures level <= MAX_MEM_COMPACT_LEVEL
    ensures level > 0 ==> forall l, i :: 0 <= l <= level && 0 <= i < |v[l]| ==> !Span(lo, hi).Overlaps(v[l][i])
  {
    level := 0;
    var here := OverlapInLevel(v, 0, Span(lo, hi));
    if !here {
      while level < MAX_MEM_COMPACT_LEVEL
        invariant level <= MAX_MEM_COMPACT_LEVEL
        invariant forall l, i :: 0 <= l <= level && 0 <= i < |v[l]| ==> !Span(lo, hi).Overlaps(v[l][i])
      {
        var next := OverlapInLevel(v, level + 1, Span(lo, hi));
        if next {
          break;
        }
        if level + 2 < NUM_LEVELS && tooMuchGrandparent(level + 2) {
          break;
        }
        level := level + 1;
      }
    }
  }

  // ---- GetOverlappingInputs ----------------------------------------------------------

  function Overlapping(fs: Level, r: Range): Level
    requires forall i :: 0 <= i < |fs| ==> |fs[i].entries| > 0
  {
    if fs == [] then [] else
      (if r.Overlaps(fs[0]) then [fs[0]] else []) + Overlapping(fs[1..], r)
  }

  lemma OverlappingMembers(fs: Level, r: Range)
    requires ValidFiles(fs)
    ensures forall f :: f in Overlapping(fs, r) <==> f in fs && r.Overlaps(f)
  {
    if fs != [] {
      OverlappingMembers(fs[1..], r);
      assert fs == [fs[0]] + fs[1..];
    }
  }

  lemma {:induction false} OverlappingSnoc(fs: Level, r: Range, f: File)
    requires ValidFiles(fs) && |f.entries| > 0
    ensures Overlapping(fs + [f], r) == Overlapping(fs, r) + (if r.Overlaps(f) then [f] else [])
  {
    if fs == [] {
    } else {
      OverlappingSnoc(fs[1..], r, f);
      assert (fs + [f])[1..] == fs[1..] + [f];
    }
  }

  /** Above level zero one pass suffices: the files that overlap the range. */
  method GetOverlappingAbove(v: Version, level: nat, r: Range) returns (inputs: Level)
    requires TreeInv(v) && 1 <= level < NUM_LEVELS
    ensures inputs == Overlapping(v[level], r)
  {
    var files := v[level];
    inputs := [];
    var i := 0;
    while i < |files|
      invariant i <= |files|
      invariant inputs == Overlapping(files[..i], r)
    {
      assert files[..i + 1] == files[..i] + [files[i]];
      OverlappingSnoc(files[..i], r, files[i]);
      if r.Overlaps(files[i]) {
        inputs := inputs + [files[i]];
      }
      i := i + 1;
    }
    assert files[..i] == files;
  }

  /** A set of level-zero files that no outside file reaches: it holds every file that
      overlaps the requested range or one of its own members. */
  ghost predicate Closed(fs: Level, r: Range, C: set<File>)
    requires ValidFiles(fs)
  {
    forall i :: 0 <= i < |fs| ==>
      (r.Overlaps(fs[i]) || exists g :: g in C && g in fs && FilesMeet(fs[i], g)) ==> fs[i] in C
  }

  ghost predicate Widens(r: Range, cur: Range) {
    && (cur.begin.Some? <==> r.begin.Some?)
    && (cur.end.Some? <==> r.end.Some?)
    && (r.begin.Some? ==> cur.begin.value <= r.begin.value)
    && (r.end.Some? ==> r.end.value <= cur.end.value)
  }

  /** Every file that overlaps `cur` is in every closed set: the range has not been widened
      further than closure demands. */
  ghost predicate Forced(fs: Level, r: Range, cur: Range)
    requires ValidFiles(fs)
  {
    forall i, C: set<File> :: 0 <= i < |fs| && cur.Overlaps(fs[i]) && Closed(fs, r, C) ==> fs[i] in C
  }

  lemma WidenKeepsForced(fs: Level, r: Range, cur: Range, next: Range, n: nat)
    requires ValidFiles(fs) && n < |fs| && Forced(fs, r, cur) && cur.Overlaps(fs[n])
    requires
      || (cur.begin.Some? && fs[n].Smallest().user < cur.begin.value && next == cur.(begin := Some(fs[n].Smallest().user)))
      || (cur.end.Some? && cur.end.value < fs[n].Largest().user && next == cur.(end := Some(fs[n].Largest().user)))
    ensures Forced(fs, r, next)
  {
    forall i, C: set<File> | 0 <= i < |fs| && next.Overlaps(fs[i]) && Closed(fs, r, C)
      ensures fs[i] in C
    {
      FileEndsInOrder(fs[i]);
      FileEndsInOrder(fs[n]);
      assert fs[n] in fs && fs[n] in C;
      if !cur.Overlaps(fs[i]) {
        assert FilesMeet(fs[i], fs[n]);
      }
    }
  }

  function CountBelow(fs: Level, k: Option<UserKey>): nat
    requires forall i :: 0 <= i < |fs| ==> |fs[i].entries| > 0
  {
    if fs == [] || k.None? then 0
    else CountBelow(fs[1..], k) + if fs[0].Smallest().user < k.value then 1 else 0
  }

  function CountAbove(fs: Level, k: Option<UserKey>): nat
    requires forall i :: 0 <= i < |fs| ==> |fs[i].entries| > 0
  {
    if fs == [] || k.None? then 0
    else CountAbove(fs[1..], k) + if fs[0].Largest().user > k.value then 1 else 0
  }

  lemma CountBelowDrops(fs: Level, a: UserKey, b: UserKey, n: nat)
    requires ValidFiles(fs) && a < b
    ensures CountBelow(fs, Some(a)) <= CountBelow(fs, Some(b))
    ensures n < |fs| && a <= fs[n].Smallest().user < b ==> CountBelow(fs, Some(a)) < CountBelow(fs, Some(b))
  {
    if fs != [] { CountBelowDrops(fs[1..], a, b, if n == 0 then 0 else n - 1); }
  }

  lemma CountAboveDrops(fs: Level, a: UserKey, b: UserKey, n: nat)
    requires ValidFiles(fs) && a < b
    ensures CountAbove(fs, Some(b)) <= CountAbove(fs, Some(a))
    ensures n < |fs| && a < fs[n].Largest().user <= b ==> CountAbove(fs, Some(b)) < CountAbove(fs, Some(a))
  {
    if fs != [] { CountAboveDrops(fs[1..], a, b, if n == 0 then 0 else n - 1); }
  }

  ghost predicate AllWithin(files: Level, r: Range) {
    ValidFiles(files)
    && forall i :: 0 <= i < |files| ==>
         (r.begin.Some? ==> r.begin.value <= files[i].Smallest().user) && (r.end.Some? ==> files[i].Largest().user <= r.end.value)
  }

  /** Level zero: each file that sticks out of the range widens it and restarts the scan.
      The result is the least closed set of files, so it is the transitive closure of user-key
      overlap starting from the requested range. */
  method GetOverlappingLevelZero(v: Version, r: Range) returns (inputs: Level, cur: Range)
    requires TreeInv(v)
    ensures Widens(r, cur) && inputs == Overlapping(v[0], cur)
    ensures AllWithin(inputs, cur)
    ensures Closed(v[0], r, set f | f in inputs)
    ensures forall C: set<File> :: Closed(v[0], r, C) ==> (set f | f in inputs) <= C
  {
    var files := v[0];
    inputs, cur := [], r;
    var i := 0;
    while i < |files|
      invariant i <= |files|
      invariant Widens(r, cur) && Forced(files, r, cur)
      invariant inputs == Overlapping(files[..i], cur)
      invariant AllWithin(inputs, cur)
      decreases CountBelow(files, cur.begin) + CountAbove(files, cur.end), |files| - i
    {
      var f := files[i];
      assert files[..i + 1] == files[..i] + [f];
      OverlappingSnoc(files[..i], cur, f);
      ghost var was, n := cur, i;
      i := i + 1;
      if cur.Overlaps(f) {
        inputs := inputs + [f];
        if cur.begin.Some? && f.Smallest().user < cur.begin.value {
          cur := cur.(begin := Some(f.Smallest().user));
          CountBelowDrops(files, cur.begin.value, was.begin.value, n);
          WidenKeepsForced(files, r, was, cur, n);
          inputs, i := [], 0;
        } else if cur.end.Some? && f.Largest().user > cur.end.value {
          cur := cur.(end := Some(f.Largest().user));
          CountAboveDrops(files, was.end.value, cur.end.value, n);
          WidenKeepsForced(files, r, was, cur, n);
          inputs, i := [], 0;
        }
      }
    }
    assert files[..i] == files;
    ResultIsClosed(files, r, cur, inputs);
  }

  lemma ResultIsClosed(fs: Level, r: Range, cur: Range, inputs: Level)
    requires ValidFiles(fs) && Widens(r, cur) && Forced(fs, r, cur)
    requires inputs == Overlapping(fs, cur)
    requires AllWithin(inputs, cur)
    ensures Closed(fs, r, set f | f in inputs)
    ensures forall C: set<File> :: Closed(fs, r, C) ==> (set f | f in inputs) <= C
  {
    var I := set f | f in inputs;
    OverlappingMembers(fs, cur);
    forall i | 0 <= i < |fs| && (r.Overlaps(fs[i]) || exists g :: g in I && g in fs && FilesMeet(fs[i], g))
      ensures fs[i] in I
    {
      assert fs[i] in fs;
      assert cur.Overlaps(fs[i]);
    }
  }

  method GetOverlappingInputs(v: Version, level: nat, r: Range) returns (inputs: Level)
    requires TreeInv(v) && level < NUM_LEVELS
    ensures level > 0 ==> inputs == Overlapping(v[level], r)
    ensures forall f :: f in v[level] && r.Overlaps(f) ==> f in inputs
    ensures inputs != [] ==> Seeded(v, level, inputs)
    ensures inputs != [] ==> exists i :: 0 <= i < |v[level]| && r.Overlaps(v[level][i])
  {
    if level == 0 {
      var cur;
      inputs, cur := GetOverlappingLevelZero(v, r);
      OverlappingMembers(v[0], cur);
      ClosedIsIsolated(v[0], r, inputs, cur);
      OverlappingDistinct(v[0], cur);
      SomeFileStartsTheClosure(v[0], r, inputs);
    } else {
      inputs := GetOverlappingAbove(v, level, r);
      OverlappingMembers(v[level], r);
      ghost var a, b := OverlappingIsSlice(v[level], r);
      assert inputs != [] ==> inputs[0] in v[level] && r.Overlaps(inputs[0]);
    }
  }

  lemma SomeFileStartsTheClosure(fs: Level, r: Range, inputs: Level)
    requires ValidFiles(fs)
    requires forall C: set<File> :: Closed(fs, r, C) ==> (set f | f in inputs) <= C
    ensures inputs != [] ==> exists i :: 0 <= i < |fs| && r.Overlaps(fs[i])
  {
    var I := set f | f in inputs;
    assert inputs != [] ==> inputs[0] in I;
    if forall i :: 0 <= i < |fs| ==> !r.Overlaps(fs[i]) {
      assert Closed(fs, r, {});
      assert I <= {};
    }
  }

  lemma OverlappingMember(fs: Level, r: Range, f: File)
    requires ValidFiles(fs) && f.Valid()
    ensures f in Overlapping(fs, r) <==> f in fs && r.Overlaps(f)
  {
    OverlappingMembers(fs, r);
  }

  lemma OverlappingDistinct(fs: Level, r: Range)
    requires ValidFiles(fs) && DistinctNumbers(fs)
    ensures DistinctNumbers(Overlapping(fs, r))
  {
    if fs != [] {
      OverlappingDistinct(fs[1..], r);
      OverlappingMembers(fs[1..], r);
      var s := Overlapping(fs[1..], r);
      forall j | 0 <= j < |s| ensures s[j].number != fs[0].number {
        assert s[j] in fs[1..];
      }
    }
  }

  // ---- AddBoundaryInputs -------------------------------------------------------------

  /** A file that starts right where `key` ends: same user key, older entries. */
  predicate IsBoundary(f: File, key: InternalKey)
    requires |f.entries| > 0
  {
    Less(key, f.Smallest()) && f.Smallest().user == key.user
  }

  ghost predicate NoBoundary(fs: Level, key: InternalKey)
    requires ValidFiles(fs)
  {
    forall i :: 0 <= i < |fs| ==> !IsBoundary(fs[i], key)
  }

  ghost predicate IsFirstBoundary(fs: Level, key: InternalKey, f: File)
    requires ValidFiles(fs)
  {
    f in fs && IsBoundary(f, key)
    && forall i :: 0 <= i < |fs| && IsBoundary(fs[i], key) ==> !Less(fs[i].Smallest(), f.Smallest())
  }

  method FindSmallestBoundaryFile(fs: Level, key: InternalKey) returns (r: Option<File>)
    requires ValidFiles(fs)
    ensures r.None? ==> NoBoundary(fs, key)
    ensures r.Some? ==> IsFirstBoundary(fs, key, r.value)
  {
    r := None;
    var i := 0;
    while i < |fs|
      invariant i <= |fs|
      invariant r.None? ==> forall j :: 0 <= j < i ==> !IsBoundary(fs[j], key)
      invariant r.Some? ==> r.value in fs && IsBoundary(r.value, key)
      invariant r.Some? ==> forall j :: 0 <= j < i && IsBoundary(fs[j], key) ==> !Less(fs[j].Smallest(), r.value.Smallest())
    {
      if IsBoundary(fs[i], key) && (r.None? || Less(fs[i].Smallest(), r.value.Smallest())) {
        r := Some(fs[i]);
      }
      i := i + 1;
    }
  }

  ghost predicate IsLargestKey(files: Level, key: InternalKey)
    requires ValidFiles(files)
  {
    (exists i :: 0 <= i < |files| && files[i].Largest() == key)
    && forall i :: 0 <= i < |files| ==> !Less(key, files[i].Largest())
  }

  method FindLargestKey(files: Level) returns (key: Option<InternalKey>)
    requires ValidFiles(files)
    ensures key.None? <==> files == []
    ensures key.Some? ==> IsLargestKey(files, key.value)
  {
    if files == [] {
      return None;
    }
    var largest := files[0].Largest();
    var i := 1;
    while i < |files|
      invariant 1 <= i <= |files|
      invariant IsLargestKey(files[..i], largest)
    {
      assert files[..i + 1] == files[..i] + [files[i]];
      if Less(largest, files[i].Largest()) {
        largest := files[i].Largest();
        assert files[..i + 1][i].Largest() == largest;
      } else {
        var j :| 0 <= j < i && files[..i][j].Largest() == largest;
        assert files[..i + 1][j].Largest() == largest;
      }
      i := i + 1;
    }
    assert files[..i] == files;
    return Some(largest);
  }

  function KeyBefore(key: InternalKey, added: Level, i: nat): InternalKey
    requires i <= |added| && (i > 0 ==> added[i - 1].entries != [])
  {
    if i == 0 then key else added[i - 1].Largest()
  }

  /** Each file appended is the first boundary of the one before it. */
  ghost predicate Linked(fs: Level, key: InternalKey, added: Level)
    requires ValidFiles(fs)
  {
    ValidFiles(added)
    && forall i {:trigger KeyBefore(key, added, i)} :: 0 <= i < |added| ==> IsFirstBoundary(fs, KeyBefore(key, added, i), added[i])
  }

  /** The files AddBoundaryInputs appends: linked, until no boundary file is left. */
  ghost predicate IsChain(fs: Level, key: InternalKey, added: Level)
    requires ValidFiles(fs)
  {
    Linked(fs, key, added) && NoBoundary(fs, KeyBefore(key, added, |added|))
  }

  /** The files that start above `key`. */
  function CountStartingAbove(fs: Level, key: InternalKey): nat
    requires forall i :: 0 <= i < |fs| ==> |fs[i].entries| > 0
  {
    if fs == [] then 0 else CountStartingAbove(fs[1..], key) + if Less(key, fs[0].Smallest()) then 1 else 0
  }

  lemma {:induction false} CountStartingAboveDrops(fs: Level, a: InternalKey, b: InternalKey, n: nat)
    requires ValidFiles(fs) && Less(a, b)
    ensures CountStartingAbove(fs, b) <= CountStartingAbove(fs, a)
    ensures n < |fs| && Less(a, fs[n].Smallest()) && !Less(b, fs[n].Smallest()) ==>
            CountStartingAbove(fs, b) < CountStartingAbove(fs, a)
  {
    if fs != [] { CountStartingAboveDrops(fs[1..], a, b, if n == 0 then 0 else n - 1); }
  }

  /** AddBoundaryInputs, for any level and any starting set. It terminates because the files
      starting above `largest` shrink with every file added. */
  method AddBoundaryInputs(fs: Level, files: Level) returns (r: Level)
    requires ValidFiles(fs) && ValidFiles(files)
    ensures files <= r
    ensures files == [] ==> r == []
    ensures files != [] ==> exists key :: IsLargestKey(files, key) && IsChain(fs, key, r[|files|..])
  {
    r := files;
    var start := FindLargestKey(files);
    if start.None? {
      return;
    }
    var largest := start.value;
    ghost var added: Level := [];
    var continueSearching := true;
    while continueSearching
      invariant r == files + added && Linked(fs, start.value, added)
      invariant largest == KeyBefore(start.value, added, |added|)
      invariant !continueSearching ==> NoBoundary(fs, largest)
      decreases CountStartingAbove(fs, largest), continueSearching
    {
      var found := FindSmallestBoundaryFile(fs, largest);
      if found.Some? {
        LinkGrows(fs, start.value, added, found.value);
        added := added + [found.value];
        r := r + [found.value];
        largest := found.value.Largest();
      } else {
        continueSearching := false;
      }
    }
    assert r[|files|..] == added;
  }

  lemma LinkGrows(fs: Level, key: InternalKey, added: Level, f: File)
    requires ValidFiles(fs) && Linked(fs, key, added)
    requires IsFirstBoundary(fs, KeyBefore(key, added, |added|), f)
    ensures f.Valid() && Linked(fs, key, added + [f])
    ensures CountStartingAbove(fs, f.Largest()) < CountStartingAbove(fs, KeyBefore(key, added, |added|))
  {
    var n :| 0 <= n < |fs| && fs[n] == f;
    FileEndsInternally(f);
    CountStartingAboveDrops(fs, KeyBefore(key, added, |added|), f.Largest(), n);
    var more := added + [f];
    forall i | 0 <= i < |more| ensures IsFirstBoundary(fs, KeyBefore(key, more, i), more[i]) {
      assert KeyBefore(key, more, i) == KeyBefore(key, added, i);
    }
  }

  lemma FileEndsInternally(f: File)
    requires f.Valid()
    ensures f.Smallest() == f.Largest() || Less(f.Smallest(), f.Largest())
    ensures !Less(f.Largest(), f.Smallest())
  {
    EntryBetweenEnds(f, f.entries[0]);
  }

  lemma FirstBoundaryIsNext(fs: Level, b: nat, i: nat)
    requires ValidFiles(fs) && SortedLevel(fs) && 0 < b <= |fs| && i < |fs|
    requires IsFirstBoundary(fs, fs[b - 1].Largest(), fs[i])
    ensures i == b
  {
    StartsAfter(fs, b, i);
    SmallestIsMonotone(fs, b, i);
    assert Before(fs[b - 1].Largest(), fs[b].Smallest());
  }

  lemma {:induction false} LinkedKey(fs: Level, b: nat, added: Level, n: nat)
    requires ValidFiles(fs) && SortedLevel(fs) && 0 < b <= |fs| && n <= |added|
    requires Linked(fs, fs[b - 1].Largest(), added)
    ensures b + n <= |fs| && KeyBefore(fs[b - 1].Largest(), added, n) == fs[b + n - 1].Largest()
  {
    if n > 0 {
      LinkedKey(fs, b, added, n - 1);
      NextLink(fs, fs[b - 1].Largest(), added, b + n - 1, n - 1);
    }
  }

  /** In a sorted level the chain is the run of files right after the selected ones. */
  lemma ChainIsNextRun(fs: Level, b: nat, added: Level)
    requires ValidFiles(fs) && SortedLevel(fs) && 0 < b <= |fs|
    requires Linked(fs, fs[b - 1].Largest(), added)
    ensures b + |added| <= |fs| && forall i :: 0 <= i < |added| ==> added[i] == fs[b + i]
  {
    LinkedKey(fs, b, added, |added|);
    forall i | 0 <= i < |added| ensures added[i] == fs[b + i] {
      LinkedKey(fs, b, added, i);
      NextLink(fs, fs[b - 1].Largest(), added, b + i, i);
    }
  }

  lemma NextLink(fs: Level, key: InternalKey, added: Level, b: nat, n: nat)
    requires ValidFiles(fs) && SortedLevel(fs) && 0 < b <= |fs|
    requires Linked(fs, key, added) && n < |added| && KeyBefore(key, added, n) == fs[b - 1].Largest()
    ensures b < |fs| && added[n] == fs[b]
  {
    assert IsFirstBoundary(fs, KeyBefore(key, added, n), added[n]);
    var i :| 0 <= i < |fs| && fs[i] == added[n];
    FirstBoundaryIsNext(fs, b, i);
  }

  lemma SmallestIsMonotone(fs: Level, i: nat, j: nat)
    requires ValidFiles(fs) && SortedLevel(fs) && i <= j < |fs|
    ensures i == j || Before(fs[i].Smallest(), fs[j].Smallest())
  {
    if i < j { SmallestIncreases(fs, i, j); }
  }

  lemma StartsAfter(fs: Level, b: nat, i: nat)
    requires ValidFiles(fs) && SortedLevel(fs) && 0 < b <= |fs| && i < |fs|
    requires Less(fs[b - 1].Largest(), fs[i].Smallest())
    ensures b <= i
  {
    if i < b {
      EntryBetweenEnds(fs[i], fs[i].entries[0]);
      if i < b - 1 { LargestIncreases(fs, i, b - 1); }
    }
  }

  /** Files no outside file of the level shares a user key with. */
  ghost predicate Isolated(fs: Level, files: Level)
    requires ValidFiles(fs)
  {
    (forall f :: f in files ==> f in fs)
    && forall i, g :: 0 <= i < |fs| && g in files && g in fs && FilesMeet(fs[i], g) ==> fs[i] in files
  }

  lemma ClosedIsIsolated(fs: Level, r: Range, inputs: Level, cur: Range)
    requires ValidFiles(fs) && inputs == Overlapping(fs, cur)
    requires Closed(fs, r, set f | f in inputs)
    ensures Isolated(fs, inputs)
  {
    var I := set f | f in inputs;
    OverlappingMembers(fs, cur);
    forall i, g | 0 <= i < |fs| && g in inputs && g in fs && FilesMeet(fs[i], g) ensures fs[i] in inputs {
      assert g in I;
      assert fs[i] in I;
    }
  }

  lemma MembersValid(fs: Level, files: Level)
    requires ValidFiles(fs) && forall f :: f in files ==> f in fs
    ensures ValidFiles(files)
  {
    forall i | 0 <= i < |files| ensures files[i].Valid() {
      assert files[i] in files;
    }
  }

  /** At level zero the closure already holds every boundary file, so none is added. */
  lemma IsolatedHasNoBoundary(fs: Level, files: Level, key: InternalKey)
    requires ValidFiles(fs) && Isolated(fs, files) && ValidFiles(files) && IsLargestKey(files, key)
    ensures NoBoundary(fs, key)
  {
    var m :| 0 <= m < |files| && files[m].Largest() == key;
    forall i | 0 <= i < |fs| ensures !IsBoundary(fs[i], key) {
      if IsBoundary(fs[i], key) {
        FileEndsInOrder(files[m]);
        FileEndsInOrder(fs[i]);
        assert files[m] in files && files[m] in fs && FilesMeet(fs[i], files[m]);
        assert fs[i] in files;
        var j :| 0 <= j < |files| && files[j] == fs[i];
        EntryBetweenEnds(files[j], files[j].entries[0]);
      }
    }
  }

  lemma ChainFromNoBoundary(fs: Level, key: InternalKey, added: Level)
    requires ValidFiles(fs) && NoBoundary(fs, key) && IsChain(fs, key, added)
    ensures added == []
  {
    if added != [] { FirstLink(fs, key, added); }
  }

  lemma FirstLink(fs: Level, key: InternalKey, added: Level)
    requires ValidFiles(fs) && Linked(fs, key, added) && added != []
    ensures !NoBoundary(fs, key)
  {
    assert IsFirstBoundary(fs, KeyBefore(key, added, 0), added[0]);
  }

  // ---- Valid inputs ------------------------------------------------------------------

  ghost predicate SliceOf(fs: Level, files: Level, a: nat, b: nat) {
    a <= b <= |fs| && files == fs[a..b]
  }

  /** What every caller hands to SetupOtherInputs. */
  ghost predicate Seeded(v: Version, level: nat, files: Level)
    requires TreeInv(v) && level < NUM_LEVELS
  {
    files != [] && if level == 0 then Isolated(v[0], files) && DistinctNumbers(files)
                   else exists a: nat, b: nat :: SliceOf(v[level], files, a, b)
  }

  /** Level inputs with nothing older of theirs left behind in the level. */
  ghost predicate NoOlderLeft(fs: Level, files: Level) {
    forall i, g :: 0 <= i < |fs| && fs[i] !in files && g in files ==> FileNewer(fs[i], g)
  }

  lemma IsolatedLeavesNothingOlder(fs: Level, files: Level)
    requires ValidFiles(fs) && Isolated(fs, files)
    ensures NoOlderLeft(fs, files)
  {
    forall i, g | 0 <= i < |fs| && fs[i] !in files && g in files
      ensures FileNewer(fs[i], g)
    {
      assert !FilesMeet(fs[i], g);
      forall a, b | a in fs[i].entries && b in g.entries ensures a.User() != b.User() {
        EntryBetweenEnds(fs[i], a);
        EntryBetweenEnds(g, b);
      }
    }
  }

  lemma NothingSharedPastBoundary(fs: Level, b: nat, i: nat, j: nat, x: Entry, y: Entry)
    requires ValidFiles(fs) && SortedLevel(fs) && j < b <= i < |fs|
    requires NoBoundary(fs, fs[b - 1].Largest())
    requires x in fs[i].entries && y in fs[j].entries
    ensures y.User() < x.User()
  {
    var last := fs[b - 1].entries[|fs[b - 1].entries| - 1];
    EntriesOfOrderedFiles(fs, b - 1, i, last, fs[i].entries[0]);
    assert !IsBoundary(fs[i], last.ikey);
    EntryBetweenEnds(fs[i], x);
    if j < b - 1 { EntriesOfOrderedFiles(fs, j, b - 1, y, last); } else { EntryBetweenEnds(fs[j], y); }
  }

  /** A slice with no boundary file after it leaves only newer entries of its user keys. */
  lemma ClosedSliceLeavesNothingOlder(fs: Level, files: Level, a: nat, b: nat, last: InternalKey)
    requires ValidFiles(fs) && SortedLevel(fs) && a < b && SliceOf(fs, files, a, b)
    requires last == fs[b - 1].Largest() && NoBoundary(fs, last)
    ensures NoOlderLeft(fs, files)
  {
    assert forall m :: a <= m < b ==> fs[m] == files[m - a] && files[m - a] in files;
    forall i, g | 0 <= i < |fs| && fs[i] !in files && g in files
      ensures FileNewer(fs[i], g)
    {
      var j :| a <= j < b && fs[j] == g;
      forall x, y | x in fs[i].entries && y in g.entries && x.User() == y.User()
        ensures x.Seq() > y.Seq()
      {
        if i < a { EntriesOfOrderedFiles(fs, i, j, x, y); } else { NothingSharedPastBoundary(fs, b, i, j, x, y); }
      }
    }
  }

  lemma SeededValid(v: Version, level: nat, files: Level)
    requires TreeInv(v) && level < NUM_LEVELS && Seeded(v, level, files)
    ensures (forall f :: f in files ==> f in v[level]) && ValidFiles(files) && DistinctNumbers(files)
  {
    if level > 0 {
      var a: nat, b: nat :| SliceOf(v[level], files, a, b);
    }
    MembersValid(v[level], files);
  }

  lemma ChainClosesLevelZero(fs: Level, files: Level, r: Level, key: InternalKey)
    requires ValidFiles(fs) && Isolated(fs, files) && ValidFiles(files) && IsLargestKey(files, key)
    requires files <= r && IsChain(fs, key, r[|files|..])
    ensures r == files && NoOlderLeft(fs, r)
  {
    IsolatedHasNoBoundary(fs, files, key);
    ChainFromNoBoundary(fs, key, r[|files|..]);
    assert r == files + r[|files|..];
    IsolatedLeavesNothingOlder(fs, files);
  }

  lemma ChainClosesSlice(fs: Level, files: Level, added: Level, key: InternalKey, a: nat, b: nat)
    requires ValidFiles(fs) && SortedLevel(fs) && a < b && SliceOf(fs, files, a, b)
    requires ValidFiles(files) && IsLargestKey(files, key) && IsChain(fs, key, added)
    ensures SliceOf(fs, files + added, a, b + |added|) && NoOlderLeft(fs, files + added)
  {
    LargestOfSlice(fs, a, b, key);
    ChainIsNextRun(fs, b, added);
    LinkedKey(fs, b, added, |added|);
    ConsecutiveSlices(fs, files, added, a, b);
    ClosedSliceLeavesNothingOlder(fs, files + added, a, b + |added|, KeyBefore(key, added, |added|));
  }

  lemma ConsecutiveSlices(fs: Level, files: Level, added: Level, a: nat, b: nat)
    requires SliceOf(fs, files, a, b) && b + |added| <= |fs|
    requires forall i :: 0 <= i < |added| ==> added[i] == fs[b + i]
    ensures SliceOf(fs, files + added, a, b + |added|)
  {
    assert fs[b..b + |added|] == added;
  }

  method CloseOverBoundaries(v: Version, level: nat, files: Level) returns (r: Level)
    requires TreeInv(v) && level < NUM_LEVELS && Seeded(v, level, files)
    ensures files <= r && Seeded(v, level, r) && NoOlderLeft(v[level], r)
  {
    SeededValid(v, level, files);
    r := AddBoundaryInputs(v[level], files);
    ghost var key :| IsLargestKey(files, key) && IsChain(v[level], key, r[|files|..]);
    if level == 0 {
      ChainClosesLevelZero(v[0], files, r, key);
    } else {
      ghost var a: nat, b: nat :| SliceOf(v[level], files, a, b);
      ChainClosesSlice(v[level], files, r[|files|..], key, a, b);
      assert r == files + r[|files|..];
    }
  }

  lemma LargestIsMonotone(fs: Level, i: nat, j: nat)
    requires ValidFiles(fs) && SortedLevel(fs) && i <= j < |fs|
    ensures i == j || Before(fs[i].Largest(), fs[j].Largest())
  {
    if i < j { LargestIncreases(fs, i, j); }
  }

  lemma LargestOfSlice(fs: Level, a: nat, b: nat, key: InternalKey)
    requires ValidFiles(fs) && SortedLevel(fs) && a < b <= |fs| && IsLargestKey(fs[a..b], key)
    ensures key == fs[b - 1].Largest()
  {
    var i :| 0 <= i < b - a && fs[a..b][i].Largest() == key;
    assert !Less(key, fs[a..b][b - 1 - a].Largest());
    LargestIsMonotone(fs, a + i, b - 1);
  }

  // ---- GetRange and SetupOtherInputs -------------------------------------------------

  ghost predicate SpansUsers(files: Level, lo: UserKey, hi: UserKey)
    requires ValidFiles(files)
  {
    && (forall i :: 0 <= i < |files| ==> lo <= files[i].Smallest().user && files[i].Largest().user <= hi)
    && (exists i :: 0 <= i < |files| && files[i].Smallest().user == lo)
    && (exists i :: 0 <= i < |files| && files[i].Largest().user == hi)
  }

  method GetRange(files: Level) returns (smallest: InternalKey, largest: InternalKey)
    requires ValidFiles(files) && files != []
    ensures SpansUsers(files, smallest.user, largest.user)
    ensures IsLargestKey(files, largest)
  {
    smallest, largest := files[0].Smallest(), files[0].Largest();
    ghost var s, l := 0, 0;
    var i := 1;
    while i < |files|
      invariant 1 <= i <= |files| && 0 <= s < i && 0 <= l < i
      invariant files[s].Smallest() == smallest && files[l].Largest() == largest
      invariant forall j :: 0 <= j < i ==> !Less(files[j].Smallest(), smallest) && !Less(largest, files[j].Largest())
    {
      if Less(files[i].Smallest(), smallest) {
        smallest, s := files[i].Smallest(), i;
      }
      if Less(largest, files[i].Largest()) {
        largest, l := files[i].Largest(), i;
      }
      i := i + 1;
    }
  }

  function TotalFileSize(files: Level): nat {
    if files == [] then 0 else files[0].size + TotalFileSize(files[1..])
  }

  lemma SliceMember(fs: Level, a: nat, b: nat, i: nat)
    requires ValidFiles(fs) && SortedLevel(fs) && a <= b <= |fs| && i < |fs|
    ensures fs[i] in fs[a..b] <==> a <= i < b
  {
    if a <= i < b { assert fs[a..b][i - a] == fs[i]; }
    if fs[i] in fs[a..b] {
      var j :| a <= j < b && fs[j] == fs[i];
      if i < j { SmallestIncreases(fs, i, j); }
      if j < i { SmallestIncreases(fs, j, i); }
    }
  }

  lemma OverlapIsConvex(fs: Level, r: Range, i: nat, j: nat, k: nat)
    requires ValidFiles(fs) && SortedLevel(fs) && i <= j <= k < |fs|
    requires r.Overlaps(fs[i]) && r.Overlaps(fs[k])
    ensures r.Overlaps(fs[j])
  {
    if i < j { LargestIncreases(fs, i, j); }
    if j < k { SmallestIncreases(fs, j, k); }
  }

  /** Above level zero the files overlapping a range form one slice of the level. */
  lemma {:induction false} OverlappingIsSlice(fs: Level, r: Range) returns (a: nat, b: nat)
    requires ValidFiles(fs) && SortedLevel(fs)
    ensures SliceOf(fs, Overlapping(fs, r), a, b)
  {
    if fs == [] {
      a, b := 0, 0;
    } else {
      var rest := fs[1..];
      a, b := OverlappingIsSlice(rest, r);
      assert rest[a..b] == fs[a + 1..b + 1];
      if !r.Overlaps(fs[0]) {
        a, b := a + 1, b + 1;
      } else if a == b {
        a, b := 0, 1;
      } else {
        FirstOverlapsToo(fs, r, a, b);
        a, b := 0, b + 1;
      }
    }
  }

  lemma FirstOverlapsToo(fs: Level, r: Range, a: nat, b: nat)
    requires ValidFiles(fs) && SortedLevel(fs) && fs != [] && r.Overlaps(fs[0])
    requires a < b && SliceOf(fs[1..], Overlapping(fs[1..], r), a, b)
    ensures a == 0
  {
    var rest := fs[1..];
    OverlappingMembers(rest, r);
    assert rest[a] in rest[a..b];
    OverlapIsConvex(fs, r, 0, 1, a + 1);
    assert rest[0] in rest;
    SliceMember(rest, a, b, 0);
  }

  lemma {:induction false} WiderRangeSameCount(fs: Level, r: Range, wide: Range)
    requires ValidFiles(fs)
    requires forall i :: 0 <= i < |fs| && r.Overlaps(fs[i]) ==> wide.Overlaps(fs[i])
    ensures |Overlapping(fs, r)| <= |Overlapping(fs, wide)|
    ensures |Overlapping(fs, r)| == |Overlapping(fs, wide)| ==> Overlapping(fs, r) == Overlapping(fs, wide)
  {
    if fs != [] { WiderRangeSameCount(fs[1..], r, wide); }
  }

  /** The level+1 inputs that go with `files` of the level. */
  ghost predicate NextLevelInputs(v: Version, level: nat, files: Level, next: Level)
    requires TreeInv(v) && level + 1 < NUM_LEVELS
  {
    ValidFiles(files)
    && exists lo, hi :: SpansUsers(files, lo, hi) && next == Overlapping(v[level + 1], Span(lo, hi))
  }

  ghost predicate ClosedInputs(v: Version, level: nat, files: Level)
    requires TreeInv(v) && level < NUM_LEVELS
  {
    Seeded(v, level, files) && NoOlderLeft(v[level], files) && ValidFiles(files)
  }

  /** The inputs of a compaction of `level` into `level + 1`. */
  ghost predicate ValidInputs(v: Version, level: nat, in0: Level, in1: Level)
    requires TreeInv(v) && level + 1 < NUM_LEVELS
  {
    ClosedInputs(v, level, in0) && NextLevelInputs(v, level, in0, in1)
  }

  /** The files of the level that the whole compaction's range reaches. */
  method ExpandInputs(v: Version, level: nat, in0: Level, in1: Level) returns (expanded0: Level)
    requires TreeInv(v) && level < NUM_LEVELS && ClosedInputs(v, level, in0) && ValidFiles(in1)
    ensures ClosedInputs(v, level, expanded0)
    ensures forall f :: f in in0 ==> f in expanded0
  {
    var allStart, allLimit := GetRange(in0 + in1);
    RangeReachesMembers(in0, in1, allStart.user, allLimit.user);
    SeededValid(v, level, in0);
    var overlapping := GetOverlappingInputs(v, level, Span(allStart.user, allLimit.user));
    assert in0[0] in overlapping;
    expanded0 := CloseOverBoundaries(v, level, overlapping);
    SeededValid(v, level, expanded0);
  }

  lemma SameNextLevel(v: Version, level: nat, in0: Level, in1: Level, expanded0: Level, expanded1: Level,
                      lo: UserKey, hi: UserKey)
    requires TreeInv(v) && level + 1 < NUM_LEVELS
    requires ValidInputs(v, level, in0, in1) && ClosedInputs(v, level, expanded0)
    requires forall f :: f in in0 ==> f in expanded0
    requires SpansUsers(expanded0, lo, hi) && expanded1 == Overlapping(v[level + 1], Span(lo, hi))
    requires |expanded1| == |in1|
    ensures expanded1 == in1 && ValidInputs(v, level, expanded0, expanded1)
  {
    var lo0, hi0 :| SpansUsers(in0, lo0, hi0) && in1 == Overlapping(v[level + 1], Span(lo0, hi0));
    SpanGrows(in0, expanded0, lo0, hi0, lo, hi);
    WiderRangeSameCount(v[level + 1], Span(lo0, hi0), Span(lo, hi));
  }

  lemma InputsValid(v: Version, level: nat, in0: Level, in1: Level)
    requires TreeInv(v) && level + 1 < NUM_LEVELS && ValidInputs(v, level, in0, in1)
    ensures ValidFiles(in0) && ValidFiles(in1)
    ensures forall f :: f in in0 ==> f in v[level]
    ensures forall f :: f in in1 ==> f in v[level + 1]
  {
    SeededValid(v, level, in0);
    var lo, hi :| SpansUsers(in0, lo, hi) && in1 == Overlapping(v[level + 1], Span(lo, hi));
    OverlappingMembers(v[level + 1], Span(lo, hi));
    MembersValid(v[level + 1], in1);
  }

  /** The wider inputs are adopted only when the next level's set is the same size. */
  method AdoptIfSame(v: Version, level: nat, in0: Level, in1: Level, expanded0: Level)
      returns (grown0: Level, grown1: Level)
    requires TreeInv(v) && level + 1 < NUM_LEVELS && ValidInputs(v, level, in0, in1)
    requires ClosedInputs(v, level, expanded0) && ValidFiles(expanded0)
    requires forall f :: f in in0 ==> f in expanded0
    ensures ValidInputs(v, level, grown0, grown1) && grown1 == in1
    ensures forall f :: f in in0 ==> f in grown0
  {
    var newStart, newLimit := GetRange(expanded0);
    var expanded1 := GetOverlappingInputs(v, level + 1, Span(newStart.user, newLimit.user));
    if |expanded1| == |in1| {
      SameNextLevel(v, level, in0, in1, expanded0, expanded1, newStart.user, newLimit.user);
      return expanded0, expanded1;
    }
    return in0, in1;
  }

  /** The growing step of SetupOtherInputs: take more files of the level when that leaves the
      next level's inputs as they are. */
  method GrowInputs(v: Version, level: nat, in0: Level, in1: Level, sizeLimit: nat)
      returns (grown0: Level, grown1: Level)
    requires TreeInv(v) && level + 1 < NUM_LEVELS && ValidInputs(v, level, in0, in1)
    ensures ValidInputs(v, level, grown0, grown1) && grown1 == in1
    ensures forall f :: f in in0 ==> f in grown0
  {
    InputsValid(v, level, in0, in1);
    var expanded0 := ExpandInputs(v, level, in0, in1);
    grown0, grown1 := in0, in1;
    if |expanded0| > |in0| && TotalFileSize(in1) + TotalFileSize(expanded0) < sizeLimit {
      SeededValid(v, level, expanded0);
      grown0, grown1 := AdoptIfSame(v, level, in0, in1, expanded0);
    }
  }

  /** SetupOtherInputs: close the level inputs over boundary files, take the files they
      overlap in the next level, and grow the level inputs while that set stays the same. */
  method SetupOtherInputs(v: Version, level: nat, files: Level, sizeLimit: nat)
      returns (in0: Level, in1: Level, ghost closed0: Level)
    requires TreeInv(v) && level + 1 < NUM_LEVELS && Seeded(v, level, files)
    ensures ValidInputs(v, level, in0, in1)
    ensures files <= closed0 && NoOlderLeft(v[level], closed0) && NextLevelInputs(v, level, closed0, in1)
    ensures forall f :: f in closed0 ==> f in in0
  {
    in0 := CloseOverBoundaries(v, level, files);
    SeededValid(v, level, in0);
    closed0 := in0;
    var smallest, largest := GetRange(in0);
    in1 := GetOverlappingInputs(v, level + 1, Span(smallest.user, largest.user));
    if in1 != [] {
      in0, in1 := GrowInputs(v, level, in0, in1, sizeLimit);
    }
  }

  lemma RangeReachesMembers(in0: Level, in1: Level, lo: UserKey, hi: UserKey)
    requires ValidFiles(in0) && ValidFiles(in1) && SpansUsers(in0 + in1, lo, hi)
    ensures forall f :: f in in0 ==> Span(lo, hi).Overlaps(f)
  {
    forall f | f in in0 ensures f.Valid() && Span(lo, hi).Overlaps(f) {
      var i :| 0 <= i < |in0| && in0[i] == f;
      assert (in0 + in1)[i] == f;
      FileEndsInOrder(f);
    }
  }

  lemma SpanGrows(files: Level, more: Level, lo: UserKey, hi: UserKey, lo': UserKey, hi': UserKey)
    requires ValidFiles(files) && ValidFiles(more) && forall f :: f in files ==> f in more
    requires SpansUsers(files, lo, hi) && SpansUsers(more, lo', hi')
    ensures lo' <= lo && hi <= hi'
  {
    var i :| 0 <= i < |files| && files[i].Smallest().user == lo;
    var j :| 0 <= j < |files| && files[j].Largest().user == hi;
    assert files[i] in more && files[j] in more;
  }

  // ---- Starting a compaction ---------------------------------------------------------

  lemma OneFileSeeded(v: Version, level: nat, i: nat)
    requires TreeInv(v) && 1 <= level < NUM_LEVELS && i < |v[level]|
    ensures Seeded(v, level, [v[level][i]])
  {
    assert SliceOf(v[level], [v[level][i]], i, i + 1);
  }

  /** What triggered the compaction: a level that is too big, resumed after its compaction
      pointer, or a file that was seeked too often. */
  datatype Trigger = TooBig(level: nat, pointer: Option<InternalKey>) | TooManySeeks(level: nat, index: nat)

  method PickCompaction(v: Version, t: Trigger, sizeLimit: nat) returns (in0: Level, in1: Level)
    requires TreeInv(v) && t.level + 1 < NUM_LEVELS
    requires t.TooBig? ==> v[t.level] != []
    requires t.TooManySeeks? ==> t.index < |v[t.level]|
    ensures ValidInputs(v, t.level, in0, in1)
    ensures t.TooManySeeks? ==> v[t.level][t.index] in in0
  {
    var fs := v[t.level];
    var first := 0;
    match t {
      case TooManySeeks(_, index) => first := index;
      case TooBig(_, pointer) =>
        while first < |fs| && pointer.Some? && !Less(pointer.value, fs[first].Largest())
          invariant first <= |fs|
        {
          first := first + 1;
        }
        if first == |fs| { first := 0; }
    }
    var files := [fs[first]];
    if t.level == 0 {
      var smallest, largest := GetRange(files);
      FileEndsInOrder(fs[first]);
      assert files[0] == fs[first];
      files := GetOverlappingInputs(v, 0, Span(smallest.user, largest.user));
      assert fs[first] in files;
    } else {
      OneFileSeeded(v, t.level, first);
    }
    ghost var closed0;
    in0, in1, closed0 := SetupOtherInputs(v, t.level, files, sizeLimit);
    assert t.level > 0 ==> files[0] in closed0;
  }

  lemma PrefixSeeded(v: Version, level: nat, files: Level, n: nat)
    requires TreeInv(v) && 1 <= level < NUM_LEVELS && Seeded(v, level, files) && 0 < n <= |files|
    ensures Seeded(v, level, files[..n])
  {
    var a: nat, b: nat :| SliceOf(v[level], files, a, b);
    assert SliceOf(v[level], files[..n], a, a + n);
  }

  /** CompactRange (manual compaction): the overlapping files, cut short by size above level
      zero. Nothing to do when no file overlaps. */
  method CompactRange(v: Version, level: nat, r: Range, fileLimit: nat, sizeLimit: nat)
      returns (in0: Level, in1: Level)
    requires TreeInv(v) && level + 1 < NUM_LEVELS
    ensures in0 == [] <==> forall i :: 0 <= i < |v[level]| ==> !r.Overlaps(v[level][i])
    ensures in0 != [] ==> ValidInputs(v, level, in0, in1)
  {
    var inputs := GetOverlappingInputs(v, level, r);
    if inputs == [] {
      in0, in1 := [], [];
      return;
    }
    if level > 0 {
      var total, i := 0, 0;
      while i < |inputs|
        invariant i <= |inputs|
      {
        total := total + inputs[i].size;
        if total >= fileLimit {
          PrefixSeeded(v, level, inputs, i + 1);
          inputs := inputs[..i + 1];
          break;
        }
        i := i + 1;
      }
    }
    ghost var closed0;
    in0, in1, closed0 := SetupOtherInputs(v, level, inputs, sizeLimit);
  }
}
