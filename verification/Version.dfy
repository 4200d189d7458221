/** A version: seven levels of sorted table files (db/version_set.h, db/version_set.cc),
    the recency and disjointness invariant they keep, and point lookup through them. */
module Versions {
  import opened Coding
  import opened InternalKeys
  import opened Lookup

  const NUM_LEVELS: nat := 7

  /** FileMetaData together with the entries of the table it names. */
  datatype File = File(number: nat, size: nat, entries: seq<Entry>) {
    ghost predicate Valid() { |entries| > 0 && SortedEntries(entries) }

    function Smallest(): InternalKey
      requires |entries| > 0
    { entries[0].ikey }

    function Largest(): InternalKey
      requires |entries| > 0
    { entries[|entries| - 1].ikey }
  }

  type Level = seq<File>
  type Version = seq<Level>

  ghost predicate InLevel(fs: Level, e: Entry) {
    exists f :: f in fs && e in f.entries
  }

  ghost predicate InTree(v: Version, e: Entry) {
    exists l :: 0 <= l < |v| && InLevel(v[l], e)
  }

  ghost function LevelEntries(fs: Level): iset<Entry> { iset e | InLevel(fs, e) }

  ghost function TreeEntries(v: Version): iset<Entry> { iset e | InTree(v, e) }

  ghost predicate ValidFiles(fs: Level) { forall i :: 0 <= i < |fs| ==> fs[i].Valid() }

  ghost predicate DistinctNumbers(fs: Level) {
    forall i, j :: 0 <= i < j < |fs| ==> fs[i].number != fs[j].number
  }

  /** Levels above zero: files in key order, no two sharing any internal key range. */
  ghost predicate SortedLevel(fs: Level)
    requires ValidFiles(fs)
  {
    forall i, j :: 0 <= i < j < |fs| ==> Before(fs[i].Largest(), fs[j].Smallest())
  }

  ghost predicate FileNewer(f: File, g: File) {
    forall a, b :: a in f.entries && b in g.entries && a.User() == b.User() ==> a.Seq() > b.Seq()
  }

  /** Level zero: a higher file number means newer data for every shared user key. */
  ghost predicate NumbersFollowAge(fs: Level) {
    forall i, j :: 0 <= i < |fs| && 0 <= j < |fs| && fs[i].number > fs[j].number ==> FileNewer(fs[i], fs[j])
  }

  ghost predicate LevelNewer(fs: Level, gs: Level) {
    forall i, j :: 0 <= i < |fs| && 0 <= j < |gs| ==> FileNewer(fs[i], gs[j])
  }

  ghost predicate TreeInv(v: Version) {
    && |v| == NUM_LEVELS
    && (forall l :: 0 <= l < NUM_LEVELS ==> ValidFiles(v[l]) && DistinctNumbers(v[l]))
    && NumbersFollowAge(v[0])
    && (forall l :: 1 <= l < NUM_LEVELS ==> SortedLevel(v[l]))
    && (forall l, m :: 0 <= l < m < NUM_LEVELS ==> LevelNewer(v[l], v[m]))
  }

  // ---- Consequences of the invariant -------------------------------------------------

  lemma EntryBetweenEnds(f: File, e: Entry)
    requires f.Valid() && e in f.entries
    ensures f.Smallest() == e.ikey || Before(f.Smallest(), e.ikey)
    ensures e.ikey == f.Largest() || Before(e.ikey, f.Largest())
  {
    var i :| 0 <= i < |f.entries| && f.entries[i] == e;
    assert i > 0 ==> Before(f.entries[0].ikey, f.entries[i].ikey);
    assert i < |f.entries| - 1 ==> Before(f.entries[i].ikey, f.entries[|f.entries| - 1].ikey);
  }

  lemma EntriesOfOrderedFiles(fs: Level, i: nat, j: nat, a: Entry, b: Entry)
    requires ValidFiles(fs) && SortedLevel(fs)
    requires i < j < |fs| && a in fs[i].entries && b in fs[j].entries
    ensures Before(a.ikey, b.ikey)
  {
    EntryBetweenEnds(fs[i], a);
    EntryBetweenEnds(fs[j], b);
  }

  lemma FileUnique(f: File, a: Entry, b: Entry)
    requires f.Valid() && a in f.entries && b in f.entries
    requires a.User() == b.User() && a.Seq() == b.Seq()
    ensures a == b
  {
    var i :| 0 <= i < |f.entries| && f.entries[i] == a;
    var j :| 0 <= j < |f.entries| && f.entries[j] == b;
    assert !(i < j) && !(j < i);
  }

  lemma SameNumberSameFile(fs: Level, f: File, g: File)
    requires DistinctNumbers(fs) && f in fs && g in fs && f.number == g.number
    ensures f == g
  {
    var i :| 0 <= i < |fs| && fs[i] == f;
    var j :| 0 <= j < |fs| && fs[j] == g;
    assert !(i < j) && !(j < i);
  }

  lemma LevelUnique(fs: Level)
    requires ValidFiles(fs) && DistinctNumbers(fs)
    requires NumbersFollowAge(fs) || SortedLevel(fs)
    ensures Unique(LevelEntries(fs))
  {
    forall a, b | InLevel(fs, a) && InLevel(fs, b) && a.User() == b.User() && a.Seq() == b.Seq()
      ensures a == b
    {
      var i :| 0 <= i < |fs| && a in fs[i].entries;
      var j :| 0 <= j < |fs| && b in fs[j].entries;
      if i == j {
        FileUnique(fs[i], a, b);
      } else if SortedLevel(fs) {
        if i < j { EntriesOfOrderedFiles(fs, i, j, a, b); } else { EntriesOfOrderedFiles(fs, j, i, b, a); }
        assert false;
      } else {
        assert false;
      }
    }
  }

  /** Sequence numbers identify entries of a user key across the whole tree. */
  lemma TreeUnique(v: Version)
    requires TreeInv(v)
    ensures Unique(TreeEntries(v))
  {
    forall a, b | InTree(v, a) && InTree(v, b) && a.User() == b.User() && a.Seq() == b.Seq()
      ensures a == b
    {
      var l :| 0 <= l < |v| && InLevel(v[l], a);
      var m :| 0 <= m < |v| && InLevel(v[m], b);
      if l == m {
        LevelUnique(v[l]);
        assert a in LevelEntries(v[l]) && b in LevelEntries(v[l]);
      } else if l < m {
        assert false;
      } else {
        assert false;
      }
    }
  }

  // ---- Searching one level -----------------------------------------------------------

  /** FindFile: binary search for the first file whose largest key is at or after `key`. */
  method FindFile(fs: Level, key: InternalKey) returns (right: nat)
    requires ValidFiles(fs) && SortedLevel(fs)
    ensures right <= |fs|
    ensures forall i :: 0 <= i < right ==> Less(fs[i].Largest(), key)
    ensures forall i :: right <= i < |fs| ==> !Less(fs[i].Largest(), key)
  {
    var left := 0;
    right := |fs|;
    while left < right
      invariant left <= right <= |fs|
      invariant forall i :: 0 <= i < left ==> Less(fs[i].Largest(), key)
      invariant forall i :: right <= i < |fs| ==> !Less(fs[i].Largest(), key)
    {
      var mid := (left + right) / 2;
      var f := fs[mid];
      if Less(f.Largest(), key) {
        forall i | 0 <= i <= mid ensures Less(fs[i].Largest(), key) {
          if i < mid { LargestIncreases(fs, i, mid); }
        }
        left := mid + 1;
      } else {
        forall i | mid <= i < |fs| ensures !Less(fs[i].Largest(), key) {
          if mid < i { LargestIncreases(fs, mid, i); }
        }
        right := mid;
      }
    }
  }

  lemma LargestIncreases(fs: Level, i: nat, j: nat)
    requires ValidFiles(fs) && SortedLevel(fs) && i < j < |fs|
    ensures Before(fs[i].Largest(), fs[j].Largest())
  {
    EntryBetweenEnds(fs[j], fs[j].entries[|fs[j].entries| - 1]);
  }

  /** TableCache::Get as Version::Get uses it: the entry found in one table, if it belongs
      to the user key looked up (SaveValue ignores any other). */
  function TableGet(f: File, k: UserKey, s: SequenceNumber): Option<Entry> {
    var i := LowerBound(f.entries, LookupKey(k, s));
    if i < |f.entries| && f.entries[i].User() == k then Some(f.entries[i]) else None
  }

  ghost function EntrySet(es: seq<Entry>): iset<Entry> { iset e | e in es }

  lemma LaterVisibleIsOlder(es: seq<Entry>, k: UserKey, s: SequenceNumber, j: nat)
    requires SortedEntries(es) && j < |es| && Visible(es[j], k, s)
    ensures var i := LowerBound(es, LookupKey(k, s));
            i <= j && es[i].User() == k && es[i].Seq() >= es[j].Seq()
  {
    var i := LowerBound(es, LookupKey(k, s));
    if i < j { assert Before(es[i].ikey, es[j].ikey); }
  }

  /** Where Seek(LookupKey(k, s)) stops in a sorted run decides a read of that run. */
  lemma SeekFindsNewest(es: seq<Entry>, k: UserKey, s: SequenceNumber)
    requires SortedEntries(es)
    ensures Unique(EntrySet(es))
    ensures var i := LowerBound(es, LookupKey(k, s));
            NewestOf(EntrySet(es), k, s) == if i < |es| && es[i].User() == k then Some(es[i]) else None
  {
    var i := LowerBound(es, LookupKey(k, s));
    var S := EntrySet(es);
    SortedUnique(es);
    forall x | x in S && Visible(x, k, s)
      ensures i < |es| && es[i].User() == k && x.Seq() <= es[i].Seq()
    {
      var j :| 0 <= j < |es| && es[j] == x;
      LaterVisibleIsOlder(es, k, s, j);
    }
    if i < |es| && es[i].User() == k {
      assert Newest(S, k, s, es[i]);
      NewestIs(S, k, s, es[i]);
    }
  }

  lemma SortedUnique(es: seq<Entry>)
    requires SortedEntries(es)
    ensures Unique(EntrySet(es))
  {
    forall x, y | x in es && y in es && x.User() == y.User() && x.Seq() == y.Seq()
      ensures x == y
    {
      var i :| 0 <= i < |es| && es[i] == x;
      var j :| 0 <= j < |es| && es[j] == y;
      assert !(i < j) && !(j < i);
    }
  }

  predicate CoversUser(f: File, k: UserKey)
    requires |f.entries| > 0
  {
    f.Smallest().user <= k <= f.Largest().user
  }

  /** One step of the level-zero scan: a newer file answers for the older ones when it
      holds a visible entry. */
  lemma NewerFileFirst(f: File, rest: Level, k: UserKey, s: SequenceNumber)
    requires f.Valid() && ValidFiles(rest) && DistinctNumbers(rest) && NumbersFollowAge(rest)
    requires forall g :: g in rest ==> FileNewer(f, g)
    ensures NewestOf(LevelEntries([f] + rest), k, s) ==
            if TableGet(f, k, s).Some? then TableGet(f, k, s) else NewestOf(LevelEntries(rest), k, s)
  {
    SeekFindsNewest(f.entries, k, s);
    LevelUnique(rest);
    assert LevelEntries([f] + rest) == EntrySet(f.entries) + LevelEntries(rest) by {
      forall e ensures InLevel([f] + rest, e) <==> e in f.entries || InLevel(rest, e) {
        if InLevel([f] + rest, e) {
          var g :| g in [f] + rest && e in g.entries;
        }
        if e in f.entries { assert f in [f] + rest; }
        if InLevel(rest, e) {
          var g :| g in rest && e in g.entries;
          assert g in [f] + rest;
        }
      }
    }
    assert NewerThan(EntrySet(f.entries), LevelEntries(rest));
    UpperLayerAnswers(EntrySet(f.entries), LevelEntries(rest), k, s);
  }

  ghost predicate NewestFirst(fs: Level) {
    forall i, j :: 0 <= i < j < |fs| ==> fs[i].number > fs[j].number
  }

  /** std::sort with NewestFirst: strictly descending numbers and the same members leave
      exactly one possible result. */
  method SortNewestFirst(fs: Level) returns (r: Level)
    requires DistinctNumbers(fs)
    ensures NewestFirst(r)
    ensures forall f :: f in r <==> f in fs
  {
    r := [];
    var n := 0;
    while n < |fs|
      invariant n <= |fs|
      invariant forall f :: f in r <==> f in fs[..n]
      invariant NewestFirst(r)
    {
      r := InsertByAge(r, fs[n]);
      assert fs[..n + 1] == fs[..n] + [fs[n]];
      n := n + 1;
    }
    assert fs[..n] == fs;
  }

  method InsertByAge(r: Level, f: File) returns (r': Level)
    requires NewestFirst(r) && forall g :: g in r ==> g.number != f.number
    ensures NewestFirst(r') && forall g :: g in r' <==> g in r || g == f
  {
    var i := 0;
    while i < |r| && r[i].number > f.number
      invariant i <= |r|
      invariant forall j :: 0 <= j < i ==> r[j].number > f.number
    {
      i := i + 1;
    }
    assert i < |r| ==> r[i] in r;
    r' := r[..i] + [f] + r[i..];
    assert r == r[..i] + r[i..];
  }

  /** Files of level zero whose user-key range contains k, in their stored order. */
  function Covering(fs: Level, k: UserKey): (r: Level)
    requires forall i :: 0 <= i < |fs| ==> |fs[i].entries| > 0
    ensures forall f :: f in r <==> f in fs && CoversUser(f, k)
  {
    if fs == [] then [] else
      (if CoversUser(fs[0], k) then [fs[0]] else []) + Covering(fs[1..], k)
  }

  lemma CoveringDistinct(fs: Level, k: UserKey)
    requires ValidFiles(fs) && DistinctNumbers(fs)
    ensures DistinctNumbers(Covering(fs, k))
  {
    if fs != [] {
      CoveringDistinct(fs[1..], k);
      var r := Covering(fs[1..], k);
      forall j | 0 <= j < |r| ensures r[j].number != fs[0].number {
        assert r[j] in fs[1..];
      }
    }
  }

  lemma UncoveredHasNoEntry(f: File, k: UserKey, e: Entry)
    requires f.Valid() && e in f.entries && e.User() == k
    ensures CoversUser(f, k)
  {
    EntryBetweenEnds(f, e);
  }

  lemma CoveringSuffices(fs: Level, k: UserKey, s: nat)
    requires ValidFiles(fs) && Unique(LevelEntries(fs))
    ensures NewestOf(LevelEntries(Covering(fs, k)), k, s) == NewestOf(LevelEntries(fs), k, s)
  {
    var c := Covering(fs, k);
    assert forall e :: InLevel(c, e) ==> InLevel(fs, e);
    forall e | InLevel(fs, e) && e.User() == k ensures InLevel(c, e) {
      var f :| f in fs && e in f.entries;
      UncoveredHasNoEntry(f, k, e);
    }
    forall e ensures Newest(LevelEntries(c), k, s, e) <==> Newest(LevelEntries(fs), k, s, e) {
    }
    SameNewest(LevelEntries(c), LevelEntries(fs), k, s);
  }

  lemma SameFilesSameEntries(fs: Level, gs: Level)
    requires forall f :: f in fs <==> f in gs
    ensures LevelEntries(fs) == LevelEntries(gs)
  {
  }

  lemma ScanStaysOrdered(fs: Level, files: Level, i: nat)
    requires ValidFiles(fs) && NumbersFollowAge(fs)
    requires NewestFirst(files) && (forall f :: f in files ==> f in fs) && i < |files|
    ensures files[i].Valid() && ValidFiles(files[i + 1..])
    ensures DistinctNumbers(files[i + 1..]) && NumbersFollowAge(files[i + 1..])
    ensures forall g :: g in files[i + 1..] ==> FileNewer(files[i], g)
  {
    assert forall j :: 0 <= j < |files| ==> files[j] in fs;
    assert forall j, m :: 0 <= j < m < |files| ==> FileNewer(files[j], files[m]);
  }

  /** Level zero of Version::Get: every covering file, newest first, until one answers. */
  method GetFromLevelZero(fs: Level, k: UserKey, s: SequenceNumber) returns (r: Option<Entry>)
    requires ValidFiles(fs) && DistinctNumbers(fs) && NumbersFollowAge(fs)
    ensures r == NewestOf(LevelEntries(fs), k, s)
  {
    var tmp := Covering(fs, k);
    CoveringDistinct(fs, k);
    var files := SortNewestFirst(tmp);
    LevelUnique(fs);
    CoveringSuffices(fs, k, s);
    SameFilesSameEntries(files, tmp);
    ghost var goal := NewestOf(LevelEntries(files), k, s);
    var i := 0;
    assert files[0..] == files;
    while i < |files|
      invariant i <= |files|
      invariant NewestOf(LevelEntries(files[i..]), k, s) == goal
    {
      var f := files[i];
      var rest := files[i + 1..];
      assert files[i..] == [f] + rest;
      ScanStaysOrdered(fs, files, i);
      NewerFileFirst(f, rest, k, s);
      var found := TableGet(f, k, s);
      if found.Some? {
        return found;
      }
      i := i + 1;
    }
    assert files[i..] == [];
    return None;
  }

  /** Levels above zero of Version::Get: at most one file can answer. */
  method GetFromSortedLevel(fs: Level, k: UserKey, s: SequenceNumber) returns (r: Option<Entry>)
    requires ValidFiles(fs) && DistinctNumbers(fs) && SortedLevel(fs)
    ensures r == NewestOf(LevelEntries(fs), k, s)
  {
    var target := LookupKey(k, s);
    var index := FindFile(fs, target);
    LevelUnique(fs);
    if index >= |fs| {
      forall e | InLevel(fs, e) ensures !Visible(e, k, s) {
        var i :| 0 <= i < |fs| && e in fs[i].entries;
        EntryBetweenEnds(fs[i], e);
      }
      return None;
    }
    var f := fs[index];
    SeekFindsNewest(f.entries, k, s);
    forall e | InLevel(fs, e) && Visible(e, k, s)
      ensures exists x :: x in f.entries && Visible(x, k, s) && x.Seq() >= e.Seq()
    {
      var i :| 0 <= i < |fs| && e in fs[i].entries;
      EntryBetweenEnds(fs[i], e);
      assert i >= index;
      if i == index {
        assert e in f.entries;
      } else {
        var last := f.entries[|f.entries| - 1];
        EntriesOfOrderedFiles(fs, index, i, last, e);
        assert Visible(last, k, s);
      }
    }
    assert f in fs;
    if k < f.Smallest().user {
      forall e | e in f.entries ensures !Visible(e, k, s) {
        EntryBetweenEnds(f, e);
      }
      return None;
    }
    r := TableGet(f, k, s);
    match r
    case Some(x) =>
      assert Newest(EntrySet(f.entries), k, s, x);
      assert Newest(LevelEntries(fs), k, s, x);
      NewestIs(LevelEntries(fs), k, s, x);
    case None =>
      forall e | InLevel(fs, e) ensures !Visible(e, k, s) {
        if Visible(e, k, s) {
          var x :| x in f.entries && Visible(x, k, s) && x.Seq() >= e.Seq();
          NewestExists(EntrySet(f.entries), k, s, x);
        }
      }
  }

  // ---- Searching all levels ----------------------------------------------------------

  ghost function EntriesFrom(v: Version, l: nat): iset<Entry>
    requires l <= |v|
  {
    TreeEntries(v[l..])
  }

  lemma SplitLevel(v: Version, l: nat)
    requires TreeInv(v) && l < NUM_LEVELS
    ensures EntriesFrom(v, l) == LevelEntries(v[l]) + EntriesFrom(v, l + 1)
    ensures NewerThan(LevelEntries(v[l]), EntriesFrom(v, l + 1))
    ensures Unique(LevelEntries(v[l])) && Unique(EntriesFrom(v, l + 1))
  {
    var low, high := v[l..], v[l + 1..];
    assert low[0] == v[l];
    assert forall i :: 0 <= i < |high| ==> high[i] == low[i + 1] == v[l + 1 + i];
    forall e ensures InTree(low, e) <==> InLevel(v[l], e) || InTree(high, e) {
      if InTree(low, e) {
        var i :| 0 <= i < |low| && InLevel(low[i], e);
        if i > 0 { assert InLevel(high[i - 1], e); }
      }
      if InTree(high, e) {
        var i :| 0 <= i < |high| && InLevel(high[i], e);
        assert InLevel(low[i + 1], e);
      }
      if InLevel(v[l], e) { assert InLevel(low[0], e); }
    }
    forall a, b | InLevel(v[l], a) && InTree(high, b) && a.User() == b.User()
      ensures a.Seq() > b.Seq()
    {
      var i :| 0 <= i < |high| && InLevel(high[i], b);
      assert LevelNewer(v[l], v[l + 1 + i]);
    }
    LevelUnique(v[l]);
    TreeUnique(v);
    forall e | InTree(high, e) ensures InTree(v, e) {
      var i :| 0 <= i < |high| && InLevel(high[i], e);
      assert InLevel(v[l + 1 + i], e);
    }
  }

  datatype GetResult = Found(value: Value) | Deleted | Missing

  function Outcome(e: Option<Entry>): GetResult {
    match e
    case None => Missing
    case Some(x) => if x.IsValue() then Found(x.value) else Deleted
  }

  /** Version::Get: the first level that holds a visible entry of the key answers, and that
      answer is the newest visible entry of the whole tree. */
  method Get(v: Version, k: UserKey, s: SequenceNumber) returns (r: GetResult)
    requires TreeInv(v)
    ensures r == Outcome(NewestOf(TreeEntries(v), k, s))
  {
    var level := 0;
    assert v[0..] == v;
    while level < NUM_LEVELS
      invariant level <= NUM_LEVELS
      invariant NewestOf(EntriesFrom(v, level), k, s) == NewestOf(TreeEntries(v), k, s)
    {
      SplitLevel(v, level);
      UpperLayerAnswers(LevelEntries(v[level]), EntriesFrom(v, level + 1), k, s);
      var found;
      if level == 0 {
        found := GetFromLevelZero(v[level], k, s);
      } else {
        found := GetFromSortedLevel(v[level], k, s);
      }
      if found.Some? {
        return Outcome(found);
      }
      level := level + 1;
    }
    assert v[level..] == [];
    return Missing;
  }
}
