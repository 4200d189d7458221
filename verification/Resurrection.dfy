/** A concrete compaction that brings a deleted key back.

    SetupOtherInputs closes the level inputs over boundary files but never the level+1 inputs
    (db/version_set.cc). Here level 3 holds the deletion of key 2 at the end of one file and
    the value it deletes at the start of the next. Compacting a level-2 file that only covers
    key 1 takes in the first of the two; the tombstone is dropped because no level below 3
    has the key, and the older value, left behind, becomes visible again. */
module Resurrection {
  import opened Coding
  import opened InternalKeys
  import opened Lookup
  import opened Versions
  import opened Selection
  import opened DropRules
  import opened Compactions
  import opened Install

  const NEW_ONE := Entry(InternalKey(1.0, 4, TypeValue), [7])
  const OLD_ONE := Entry(InternalKey(1.0, 1, TypeValue), [6])
  const GONE_TWO := Entry(InternalKey(2.0, 3, TypeDeletion), [])
  const OLD_TWO := Entry(InternalKey(2.0, 2, TypeValue), [9])

  const UPPER := File(4, 1, [NEW_ONE])
  const LEFT := File(2, 1, [OLD_ONE, GONE_TWO])
  const RIGHT := File(3, 1, [OLD_TWO])
  const SPLIT: Version := [[], [], [UPPER], [LEFT, RIGHT], [], [], []]
  const MERGED := [NEW_ONE, OLD_ONE, GONE_TWO]
  const OUTPUT := File(5, 1, [NEW_ONE])

  lemma SplitIsATree()
    ensures TreeInv(SPLIT)
  {
    SplitLevels();
    forall l, m | 0 <= l < m < NUM_LEVELS ensures LevelNewer(SPLIT[l], SPLIT[m]) {
      assert SPLIT[l] == [] || SPLIT[m] == [] || (l == 2 && m == 3);
    }
  }

  lemma SplitLevels()
    ensures ValidFiles([UPPER]) && ValidFiles([LEFT, RIGHT]) && ValidFiles([])
    ensures SortedLevel([LEFT, RIGHT]) && LevelNewer([UPPER], [LEFT, RIGHT])
  {
    assert UPPER.Valid() && LEFT.Valid() && RIGHT.Valid();
  }

  lemma SplitInputs()
    ensures TreeInv(SPLIT) && ValidInputs(SPLIT, 2, [UPPER], [LEFT])
    ensures ValidFiles([LEFT]) && !NextLevelClosed(SPLIT, 2, [LEFT])
  {
    SplitIsATree();
    assert SliceOf(SPLIT[2], [UPPER], 0, 1);
    assert [UPPER][0].Smallest().user == 1.0 && [UPPER][0].Largest().user == 1.0;
    assert SpansUsers([UPPER], 1.0, 1.0);
    assert SPLIT[3][1..] == [RIGHT] && [RIGHT][1..] == [];
    assert Overlapping([RIGHT], Span(1.0, 1.0)) == [];
    assert Overlapping(SPLIT[3], Span(1.0, 1.0)) == [LEFT];
    assert IsBoundary(SPLIT[3][1], LEFT.Largest());
  }

  lemma SplitMerge()
    ensures TreeInv(SPLIT) && IsMerge([UPPER] + [LEFT], MERGED)
    ensures Flatten([OUTPUT]) == KeptOf(MERGED, 3, 4, BaseOf(SPLIT, 2)) == [NEW_ONE]
  {
    SplitIsATree();
    var inputs := [UPPER] + [LEFT];
    assert inputs[0] == UPPER && inputs[1] == LEFT && UPPER in inputs && LEFT in inputs;
    forall e ensures e in MERGED <==> InLevel(inputs, e) {
      assert e in MERGED <==> e == MERGED[0] || e == MERGED[1] || e == MERGED[2];
      assert UPPER.entries[0] == NEW_ONE && LEFT.entries[0] == OLD_ONE && LEFT.entries[1] == GONE_TWO;
    }
    var base := BaseOf(SPLIT, 2);
    assert BaseLevel(SPLIT, 2, 2.0);
    HiddenByPrevious(MERGED, 4, 0);
    HiddenByPrevious(MERGED, 4, 1);
    HiddenByPrevious(MERGED, 4, 2);
    assert KeptOf(MERGED, 0, 4, base) == [];
    assert KeptOf(MERGED, 1, 4, base) == [NEW_ONE];
    assert KeptOf(MERGED, 2, 4, base) == [NEW_ONE];
    assert [OUTPUT][..0] == [];
    assert Flatten([]) == [];
  }

  lemma OnlyTwoVersions(e: Entry)
    requires InTree(SPLIT, e) && e.User() == 2.0
    ensures e == GONE_TWO || e == OLD_TWO
  {
    var l :| 0 <= l < |SPLIT| && InLevel(SPLIT[l], e);
    assert l == 2 || l == 3;
  }

  lemma BothVersionsThere()
    ensures InTree(SPLIT, GONE_TWO) && InTree(SPLIT, OLD_TWO)
  {
    assert LEFT in SPLIT[3] && RIGHT in SPLIT[3];
    assert LEFT.entries[1] == GONE_TWO && RIGHT.entries[0] == OLD_TWO;
    assert InLevel(SPLIT[3], GONE_TWO) && InLevel(SPLIT[3], OLD_TWO);
  }

  lemma ReadBefore()
    ensures TreeInv(SPLIT) && Newest(TreeEntries(SPLIT), 2.0, 4, GONE_TWO)
    ensures Read(TreeEntries(SPLIT), 2.0, 4) == None
  {
    SplitIsATree();
    BothVersionsThere();
    forall e | InTree(SPLIT, e) && Visible(e, 2.0, 4) ensures e.Seq() <= GONE_TWO.Seq() {
      OnlyTwoVersions(e);
    }
    TreeUnique(SPLIT);
    NewestIs(TreeEntries(SPLIT), 2.0, 4, GONE_TWO);
  }

  lemma OldTwoStays()
    ensures OLD_TWO in StayingEntries(SPLIT, [UPPER], [LEFT])
    ensures GONE_TWO in InputEntries([UPPER], [LEFT])
  {
    BothVersionsThere();
    assert LEFT in [LEFT] && LEFT.entries[1] == GONE_TWO;
  }

  lemma WitnessesResurrect(Rest: iset<Entry>, In: iset<Entry>, ss: nat, base: UserKey -> bool, k: UserKey, n: Entry, r: Entry)
    requires base(k) && n in In && !n.IsValue() && r in Rest && r.IsValue()
    requires Newest(Rest + In, k, ss, n)
    requires Visible(r, k, ss) && forall e :: e in Rest && Visible(e, k, ss) ==> e == n || e == r
    requires n !in Rest
    ensures Resurrects(Rest, In, ss, base, k)
  {
    assert Newest(Rest, k, ss, r);
  }

  /** The key meets the exact condition under which reads change. */
  lemma KeyTwoResurrects()
    ensures TreeInv(SPLIT)
    ensures Resurrects(StayingEntries(SPLIT, [UPPER], [LEFT]), InputEntries([UPPER], [LEFT]), 4, BaseOf(SPLIT, 2), 2.0)
  {
    ReadBefore();
    OldTwoStays();
    NothingBelow();
    SplitParts();
    var Rest, In := StayingEntries(SPLIT, [UPPER], [LEFT]), InputEntries([UPPER], [LEFT]);
    WitnessesResurrect(Rest, In, 4, BaseOf(SPLIT, 2), 2.0, GONE_TWO, OLD_TWO);
  }

  lemma SplitParts()
    ensures StayingEntries(SPLIT, [UPPER], [LEFT]) + InputEntries([UPPER], [LEFT]) == TreeEntries(SPLIT)
    ensures forall e :: e in StayingEntries(SPLIT, [UPPER], [LEFT]) && Visible(e, 2.0, 4) ==> e == GONE_TWO || e == OLD_TWO
  {
    SplitInputs();
    InputsInTree(SPLIT, 2, [UPPER], [LEFT]);
    forall e | e in StayingEntries(SPLIT, [UPPER], [LEFT]) && Visible(e, 2.0, 4) ensures e == GONE_TWO || e == OLD_TWO {
      OnlyTwoVersions(e);
    }
  }

  lemma NothingBelow()
    ensures TreeInv(SPLIT) && BaseOf(SPLIT, 2)(2.0)
  {
    SplitIsATree();
  }

  lemma SplitNumbers()
    ensures NumbersBelow(SPLIT, 5) && NumberedFrom([OUTPUT], 5)
  {
  }

  lemma OutputFits()
    ensures TreeInv(SPLIT) && NumbersBelow(SPLIT, 5) && NumberedFrom([OUTPUT], 5)
    ensures OutputsFit(SPLIT, 2, [UPPER], [LEFT], [OUTPUT], 5)
    ensures LevelEntries([OUTPUT]) == Kept(InputEntries([UPPER], [LEFT]), 4, BaseOf(SPLIT, 2))
  {
    SplitMerge();
    SplitNumbers();
    OutputsOfMerge(SPLIT, 2, [UPPER], [LEFT], MERGED, 4, [OUTPUT], 5);
  }

  /** Everything the code checks holds, yet after the compaction a read of key 2, deleted
      before, returns something. */
  lemma DeletedKeyComesBack()
    ensures TreeInv(SPLIT) && ValidInputs(SPLIT, 2, [UPPER], [LEFT]) && ValidFiles([OUTPUT])
    ensures IsMerge([UPPER] + [LEFT], MERGED) && Flatten([OUTPUT]) == KeptOf(MERGED, |MERGED|, 4, BaseOf(SPLIT, 2))
    ensures Read(TreeEntries(SPLIT), 2.0, 4) == None
    ensures Read(TreeEntries(InstallResults(SPLIT, 2, [UPPER], [LEFT], [OUTPUT])), 2.0, 4).Some?
  {
    SplitInputs();
    SplitMerge();
    ReadBefore();
    KeyTwoResurrects();
    OutputFits();
    TreeAfterCompaction(SPLIT, 2, [UPPER], [LEFT], [OUTPUT], 5);
    TreeUnique(SPLIT);
    ReadChangesIffResurrects(StayingEntries(SPLIT, [UPPER], [LEFT]), InputEntries([UPPER], [LEFT]), 4, BaseOf(SPLIT, 2), 2.0, 4);
  }
}
