/** Running a compaction: the merge loop with its drop rules, the base-level test and the
    output files (db/db_impl.cc: DoCompactionWork; db/version_set.cc: IsBaseLevelForKey). */
module Compactions {
  import opened Coding
  import opened InternalKeys
  import opened Lookup
  import opened Versions
  import opened DropRules

  /** No file below level+1 has the key in its user-key range. */
  ghost predicate BaseLevel(v: Version, level: nat, k: UserKey)
    requires TreeInv(v)
  {
    forall l, i :: level + 2 <= l < NUM_LEVELS && 0 <= i < |v[l]| ==> !CoversUser(v[l][i], k)
  }

  class Compaction {
    const version: Version
    const level: nat
    var levelPtrs: seq<nat>
    ghost var floor: Option<UserKey>

    ghost predicate Passed(f: File)
      requires |f.entries| > 0
      reads this
    {
      floor.Some? && f.Largest().user < floor.value
    }

    /** Each pointer has only moved past files that end before the last key asked about. */
    ghost predicate Valid()
      reads this
    {
      TreeInv(version) && level + 1 < NUM_LEVELS && |levelPtrs| == NUM_LEVELS
      && forall l :: level + 2 <= l < NUM_LEVELS ==>
           levelPtrs[l] <= |version[l]| && forall i :: 0 <= i < levelPtrs[l] ==> Passed(version[l][i])
    }

    constructor (v: Version, level: nat)
      requires TreeInv(v) && level + 1 < NUM_LEVELS
      ensures Valid() && floor == None && version == v && this.level == level
    {
      version, this.level := v, level;
      levelPtrs := seq(NUM_LEVELS, _ => 0);
      floor := None;
    }

    /** Asked about ascending user keys, the remembered pointers give the same answer as a
        search of every deeper level from the start. */
    method IsBaseLevelForKey(k: UserKey) returns (base: bool)
      requires Valid() && (floor.Some? ==> floor.value <= k)
      modifies this
      ensures Valid() && floor == Some(k)
      ensures base <==> BaseLevel(version, level, k)
    {
      floor := Some(k);
      var lvl := level + 2;
      while lvl < NUM_LEVELS
        invariant Valid() && floor == Some(k)
        invariant forall l, i :: level + 2 <= l < lvl && l < NUM_LEVELS && 0 <= i < |version[l]| ==> !CoversUser(version[l][i], k)
      {
        var files := version[lvl];
        while levelPtrs[lvl] < |files|
          invariant Valid() && floor == Some(k)
          invariant levelPtrs[lvl] <= |files|
          invariant forall i :: 0 <= i < levelPtrs[lvl] ==> !CoversUser(files[i], k)
          decreases |files| - levelPtrs[lvl]
        {
          var f := files[levelPtrs[lvl]];
          if k <= f.Largest().user {
            if k >= f.Smallest().user {
              return false;
            }
            break;
          }
          levelPtrs := levelPtrs[lvl := levelPtrs[lvl] + 1];
        }
        LaterFilesStartLater(files, levelPtrs[lvl], k);
        lvl := lvl + 1;
      }
      return true;
    }
  }

  lemma LaterFilesStartLater(fs: Level, p: nat, k: UserKey)
    requires ValidFiles(fs) && SortedLevel(fs) && p <= |fs|
    requires p < |fs| ==> k < fs[p].Smallest().user
    ensures forall i :: p <= i < |fs| ==> !CoversUser(fs[i], k)
  {
    forall i | p < i < |fs| ensures !CoversUser(fs[i], k) {
      EntryBetweenEnds(fs[p], fs[p].entries[0]);
      assert Before(fs[p].Largest(), fs[i].Smallest());
    }
  }

  // ---- The merge loop ----------------------------------------------------------------

  /** The merging iterator over the inputs yields exactly their entries, in key order. */
  ghost predicate IsMerge(inputs: Level, merged: seq<Entry>) {
    SortedEntries(merged) && forall e :: e in merged <==> InLevel(inputs, e)
  }

  ghost predicate IsHiddenAt(merged: seq<Entry>, ss: nat, i: nat)
    requires i < |merged|
  {
    exists j :: 0 <= j < i && merged[j].User() == merged[i].User() && merged[j].Seq() <= ss
  }

  /** The entries the loop writes out of the first n it reads. */
  ghost function KeptOf(merged: seq<Entry>, n: nat, ss: nat, base: UserKey -> bool): seq<Entry>
    requires n <= |merged|
  {
    if n == 0 then [] else
      KeptOf(merged, n - 1, ss, base) +
      (if IsHiddenAt(merged, ss, n - 1) || Obsolete(base, ss, merged[n - 1]) then [] else [merged[n - 1]])
  }

  ghost function Flatten(files: Level): seq<Entry> {
    if files == [] then [] else Flatten(files[..|files| - 1]) + files[|files| - 1].entries
  }

  ghost function BaseOf(v: Version, level: nat): UserKey -> bool
    requires TreeInv(v)
  {
    k => BaseLevel(v, level, k)
  }

  /** Output files: numbered upwards from `next`, none empty. */
  ghost predicate NumberedFrom(files: Level, next: nat) {
    forall i :: 0 <= i < |files| ==> files[i].number == next + i && files[i].entries != []
  }

  /** Rules (A) and (B): hidden by a newer entry of the same user key that every snapshot
      sees, or an obsolete deletion marker. */
  method ShouldDrop(c: Compaction, e: Entry, ss: nat, lastSequenceForKey: nat) returns (drop: bool)
    requires c.Valid() && (c.floor.Some? ==> c.floor.value <= e.User())
    modifies c
    ensures c.Valid() && (c.floor == old(c.floor) || c.floor == Some(e.User()))
    ensures drop <==> lastSequenceForKey <= ss || Obsolete(BaseOf(c.version, c.level), ss, e)
  {
    drop := false;
    if lastSequenceForKey <= ss {
      drop := true;
    } else if !e.IsValue() && e.Seq() <= ss {
      drop := c.IsBaseLevelForKey(e.User());
    }
  }

  /** DoCompactionWork. Where output files are cut depends on sizes and on overlap with the
      grandparent level; here any cut is possible. */
  method DoCompactionWork(c: Compaction, merged: seq<Entry>, ss: nat, nextFile: nat) returns (outputs: Level)
    requires c.Valid() && c.floor == None
    requires SortedEntries(merged) && ss < MAX_SEQUENCE
    modifies c
    ensures Flatten(outputs) == KeptOf(merged, |merged|, ss, BaseOf(c.version, c.level))
    ensures NumberedFrom(outputs, nextFile)
  {
    outputs := [];
    var building: seq<Entry> := [];
    var currentUserKey: Option<UserKey> := None;
    var lastSequenceForKey: nat := MAX_SEQUENCE;
    ghost var base := BaseOf(c.version, c.level);
    var n := 0;
    while n < |merged|
      invariant n <= |merged| && c.Valid()
      invariant n == 0 ==> currentUserKey == None && c.floor == None
      invariant n > 0 ==> currentUserKey == Some(merged[n - 1].User()) && lastSequenceForKey == merged[n - 1].Seq()
      invariant n > 0 && c.floor.Some? ==> c.floor.value <= merged[n - 1].User()
      invariant NumberedFrom(outputs, nextFile)
      invariant Flatten(outputs) + building == KeptOf(merged, n, ss, base)
    {
      var e := merged[n];
      assert n > 0 ==> Before(merged[n - 1].ikey, e.ikey);
      if * {
        if building != [] {
          outputs, building := FinishOutput(outputs, building, nextFile);
        }
      }
      if currentUserKey == None || currentUserKey.value != e.User() {
        currentUserKey := Some(e.User());
        lastSequenceForKey := MAX_SEQUENCE;
      }
      HiddenByPrevious(merged, ss, n);
      var drop := ShouldDrop(c, e, ss, lastSequenceForKey);
      lastSequenceForKey := e.Seq();
      if !drop {
        building := building + [e];
        if * {
          outputs, building := FinishOutput(outputs, building, nextFile);
        }
      }
      n := n + 1;
    }
    if building != [] {
      outputs, building := FinishOutput(outputs, building, nextFile);
    }
  }

  /** Only the entry just read needs remembering: if any earlier entry of the user key is
      visible at ss, the previous one is. */
  lemma HiddenByPrevious(merged: seq<Entry>, ss: nat, n: nat)
    requires SortedEntries(merged) && n < |merged|
    ensures IsHiddenAt(merged, ss, n) <==>
            n > 0 && merged[n - 1].User() == merged[n].User() && merged[n - 1].Seq() <= ss
  {
    if IsHiddenAt(merged, ss, n) {
      var j :| 0 <= j < n && merged[j].User() == merged[n].User() && merged[j].Seq() <= ss;
      if j < n - 1 {
        assert Before(merged[j].ikey, merged[n - 1].ikey) && Before(merged[n - 1].ikey, merged[n].ikey);
      }
    }
  }

  method FinishOutput(outputs: Level, building: seq<Entry>, nextFile: nat) returns (r: Level, left: seq<Entry>)
    requires building != [] && NumberedFrom(outputs, nextFile)
    ensures left == [] && NumberedFrom(r, nextFile)
    ensures Flatten(r) + left == Flatten(outputs) + building
  {
    var f := File(nextFile + |outputs|, |building|, building);
    r, left := outputs + [f], [];
    assert r[..|r| - 1] == outputs;
  }

  // ---- What the outputs are ----------------------------------------------------------

  lemma {:induction false} KeptOfIsKept(merged: seq<Entry>, n: nat, ss: nat, base: UserKey -> bool)
    requires SortedEntries(merged) && n <= |merged|
    ensures forall e :: e in KeptOf(merged, n, ss, base) <==>
              exists i :: 0 <= i < n && merged[i] == e && !IsHiddenAt(merged, ss, i) && !Obsolete(base, ss, e)
  {
    if n > 0 { KeptOfIsKept(merged, n - 1, ss, base); }
  }

  lemma HiddenAgrees(merged: seq<Entry>, ss: nat, i: nat)
    requires SortedEntries(merged) && i < |merged|
    ensures IsHiddenAt(merged, ss, i) <==> Hidden(EntrySet(merged), ss, merged[i])
  {
    if IsHiddenAt(merged, ss, i) {
      var j :| 0 <= j < i && merged[j].User() == merged[i].User() && merged[j].Seq() <= ss;
      assert Before(merged[j].ikey, merged[i].ikey);
    }
    if Hidden(EntrySet(merged), ss, merged[i]) {
      var h :| h in EntrySet(merged) && h.User() == merged[i].User() && h.Seq() > merged[i].Seq() && h.Seq() <= ss;
      var j :| 0 <= j < |merged| && merged[j] == h;
      assert j < i || j == i || Before(merged[i].ikey, merged[j].ikey);
    }
  }

  /** The loop's output is the set the drop rules keep. */
  lemma LoopKeeps(merged: seq<Entry>, ss: nat, base: UserKey -> bool)
    requires SortedEntries(merged)
    ensures EntrySet(KeptOf(merged, |merged|, ss, base)) == Kept(EntrySet(merged), ss, base)
  {
    KeptOfIsKept(merged, |merged|, ss, base);
    forall i | 0 <= i < |merged| ensures IsHiddenAt(merged, ss, i) <==> Hidden(EntrySet(merged), ss, merged[i]) {
      HiddenAgrees(merged, ss, i);
    }
  }

  lemma {:induction false} KeptOfSorted(merged: seq<Entry>, n: nat, ss: nat, base: UserKey -> bool)
    requires SortedEntries(merged) && n <= |merged|
    ensures SortedEntries(KeptOf(merged, n, ss, base))
  {
    if n > 0 {
      KeptOfSorted(merged, n - 1, ss, base);
      KeptOfIsKept(merged, n - 1, ss, base);
      var kept := KeptOf(merged, n - 1, ss, base);
      forall j | 0 <= j < |kept| ensures Before(kept[j].ikey, merged[n - 1].ikey) {
        assert kept[j] in kept;
      }
    }
  }

  lemma {:induction false} FlattenEntries(files: Level)
    ensures forall e :: e in Flatten(files) <==> InLevel(files, e)
  {
    if files != [] {
      var n := |files| - 1;
      FlattenEntries(files[..n]);
      assert files == files[..n] + [files[n]];
      forall e ensures e in Flatten(files) <==> InLevel(files, e) {
        if InLevel(files, e) {
          var f :| f in files && e in f.entries;
        }
        if e in files[n].entries { assert files[n] in files; }
        if e in Flatten(files[..n]) {
          var f :| f in files[..n] && e in f.entries;
          assert f in files;
        }
      }
    }
  }

  lemma {:induction false} SplitSorted(a: seq<Entry>, b: seq<Entry>)
    requires SortedEntries(a + b)
    ensures SortedEntries(a) && SortedEntries(b)
    ensures forall i, j :: 0 <= i < |a| && 0 <= j < |b| ==> Before(a[i].ikey, b[j].ikey)
  {
    var c := a + b;
    assert forall i :: 0 <= i < |a| ==> c[i] == a[i];
    assert forall j :: 0 <= j < |b| ==> c[|a| + j] == b[j];
    forall i, j | 0 <= i < |a| && 0 <= j < |b| ensures Before(a[i].ikey, b[j].ikey) {
      assert Before(c[i].ikey, c[|a| + j].ikey);
    }
    forall i, j | 0 <= i < j < |b| ensures Before(b[i].ikey, b[j].ikey) {
      assert Before(c[|a| + i].ikey, c[|a| + j].ikey);
    }
  }

  /** Cutting a sorted run into files gives a sorted level, wherever the cuts fall. */
  lemma {:induction false} CutsGiveSortedLevel(files: Level, next: nat)
    requires NumberedFrom(files, next) && SortedEntries(Flatten(files))
    ensures ValidFiles(files) && SortedLevel(files) && DistinctNumbers(files)
  {
    if files != [] {
      var n := |files| - 1;
      var init, last := files[..n], files[n];
      SplitSorted(Flatten(init), last.entries);
      CutsGiveSortedLevel(init, next);
      FlattenEntries(init);
      forall i | 0 <= i < n ensures Before(files[i].Largest(), last.Smallest()) {
        var e := files[i].entries[|files[i].entries| - 1];
        assert init[i] == files[i] && init[i] in init;
        assert e in Flatten(init);
      }
      assert ValidFiles(files) by {
        assert forall i :: 0 <= i < n ==> files[i] == init[i];
      }
      forall i, j | 0 <= i < j < |files| ensures Before(files[i].Largest(), files[j].Smallest()) {
        if j < n { assert files[i] == init[i] && files[j] == init[j]; }
      }
    }
  }
}
