/** Cursors over sorted entries and the merging iterator (table/merger.cc).

    The merging iterator keeps one cursor per child and, whatever moves it is asked to make
    and in whatever direction, behaves like a single index into the sorted union. */
module Merging {
  import opened InternalKeys

  /** A child iterator: a position in a sorted run; |entries| means not valid. */
  class Cursor {
    const entries: seq<Entry>
    var pos: nat

    ghost predicate Valid()
      reads this
    {
      SortedEntries(entries) && pos <= |entries|
    }

    constructor (es: seq<Entry>)
      requires SortedEntries(es)
      ensures Valid() && entries == es && pos == |es|
    {
      entries, pos := es, |es|;
    }

    predicate HasKey()
      reads this
    {
      pos < |entries|
    }

    function Key(): InternalKey
      requires HasKey()
      reads this
    {
      entries[pos].ikey
    }

    method SeekToFirst()
      requires Valid()
      modifies this
      ensures Valid() && pos == 0
    {
      pos := 0;
    }

    method SeekToLast()
      requires Valid()
      modifies this
      ensures Valid() && pos == if entries == [] then 0 else |entries| - 1
    {
      pos := if |entries| == 0 then 0 else |entries| - 1;
    }

    method Seek(target: InternalKey)
      requires Valid()
      modifies this
      ensures Valid() && pos == LowerBound(entries, target)
    {
      pos := LowerBound(entries, target);
    }

    method Next()
      requires Valid() && HasKey()
      modifies this
      ensures Valid() && pos == old(pos) + 1
    {
      pos := pos + 1;
    }

    method Prev()
      requires Valid() && HasKey()
      modifies this
      ensures Valid() && pos == if old(pos) == 0 then |entries| else old(pos) - 1
    {
      pos := if pos == 0 then |entries| else pos - 1;
    }
  }

  datatype Direction = Forward | Reverse

  /** `all` is the sorted union of the runs, which share no entry. */
  ghost predicate IsUnion(runs: seq<seq<Entry>>, all: seq<Entry>) {
    && SortedEntries(all)
    && (forall i :: 0 <= i < |runs| ==> SortedEntries(runs[i]))
    && (forall i, j :: 0 <= i < |runs| && 0 <= j < |runs[i]| ==> runs[i][j] in all)
    && (forall e :: e in all ==> exists i :: 0 <= i < |runs| && e in runs[i])
    && (forall i, j, e :: 0 <= i < |runs| && 0 <= j < |runs| && e in runs[i] && e in runs[j] ==> i == j)
  }

  /** Entries before index m of the union. */
  ghost predicate Below(all: seq<Entry>, m: nat, e: Entry)
    requires m <= |all|
  {
    m == |all| || Before(e.ikey, all[m].ikey)
  }

  /** A forward-moving child at union index m stands on its first entry not below m. */
  ghost predicate ForwardAt(all: seq<Entry>, m: nat, run: seq<Entry>, pos: nat)
    requires m <= |all|
  {
    pos <= |run| && forall j :: 0 <= j < |run| ==> (j < pos <==> Below(all, m, run[j]))
  }

  /** A backward-moving child at union index m stands on its last entry below m + 1, or is
      not valid when it has none. */
  ghost predicate ReverseAt(all: seq<Entry>, m: nat, run: seq<Entry>, pos: nat)
    requires m <= |all|
  {
    pos <= |run| && forall j :: 0 <= j < |run| ==> ((pos < |run| && j <= pos) <==> Below(all, m, run[j]))
  }

  lemma RankOf(all: seq<Entry>, e: Entry) returns (r: nat)
    requires SortedEntries(all) && e in all
    ensures r < |all| && all[r] == e
    ensures forall m :: 0 <= m <= |all| ==> (Below(all, m, e) <==> r < m)
  {
    r :| 0 <= r < |all| && all[r] == e;
    forall m | 0 <= m <= |all| ensures Below(all, m, e) <==> r < m {
      if m < |all| {
        assert r < m ==> Before(all[r].ikey, all[m].ikey);
        assert m < r ==> Before(all[m].ikey, all[r].ikey);
      }
    }
  }

  /** Stepping the union index past one entry moves only that entry below. */
  lemma BelowNext(all: seq<Entry>, m: nat, e: Entry)
    requires SortedEntries(all) && m < |all| && e in all
    ensures Below(all, m + 1, e) <==> Below(all, m, e) || e == all[m]
  {
    var r := RankOf(all, e);
    if e == all[m] {
      assert !(r < m) && !(m < r);
    }
  }

  class MergingIterator {
    const children: seq<Cursor>
    ghost const all: seq<Entry>
    var current: int
    var direction: Direction
    ghost var index: nat

    ghost function Repr(): set<object> { {this} + (set i | 0 <= i < |children| :: children[i] as object) }

    ghost function Runs(): seq<seq<Entry>> { seq(|children|, i requires 0 <= i < |children| => children[i].entries) }

    /** What holds between any two child moves. */
    ghost predicate Structure()
      reads Repr()
    {
      && (forall i, j :: 0 <= i < j < |children| ==> children[i] != children[j])
      && (forall i :: 0 <= i < |children| ==> children[i].Valid())
      && IsUnion(Runs(), all)
    }

    ghost predicate AllForward(m: nat)
      requires m <= |all|
      reads Repr()
    {
      forall i :: 0 <= i < |children| ==> ForwardAt(all, m, children[i].entries, children[i].pos)
    }

    ghost predicate AllReverse(m: nat)
      requires m <= |all|
      reads Repr()
    {
      forall i :: 0 <= i < |children| ==> ReverseAt(all, m, children[i].entries, children[i].pos)
    }

    ghost predicate CurrentAt(m: nat)
      requires m < |all|
      reads Repr()
    {
      0 <= current < |children| && children[current].HasKey() && children[current].entries[children[current].pos] == all[m]
    }

    /** The invariant: the iterator stands at `index` of the union. */
    ghost predicate Valid()
      reads Repr()
    {
      && Structure() && index <= |all|
      && (current == -1 <==> index == |all|)
      && (index < |all| ==> CurrentAt(index))
      && (index < |all| && direction == Forward ==> AllForward(index))
      && (index < |all| && direction == Reverse ==> AllReverse(index + 1))
    }

    constructor (kids: seq<Cursor>, ghost union: seq<Entry>)
      requires forall i, j :: 0 <= i < j < |kids| ==> kids[i] != kids[j]
      requires forall i :: 0 <= i < |kids| ==> kids[i].Valid()
      requires IsUnion(seq(|kids|, i requires 0 <= i < |kids| => kids[i].entries), union)
      ensures Valid() && children == kids && all == union && index == |all|
    {
      children, all := kids, union;
      current, direction, index := -1, Forward, |union|;
      new;
      assert Runs() == seq(|kids|, i requires 0 <= i < |kids| => kids[i].entries);
    }

    predicate HasKey()
      reads this
    {
      current != -1
    }

    function CurrentEntry(): (e: Entry)
      requires Valid() && HasKey()
      reads Repr()
      ensures index < |all| && e == all[index]
    {
      children[current].entries[children[current].pos]
    }

    lemma ChildEntry(i: nat, j: nat)
      requires Structure() && i < |children| && j < |children[i].entries|
      ensures children[i].entries[j] in all
    {
      assert Runs()[i] == children[i].entries;
    }

    lemma EntryIsInAChild(m: nat) returns (i: nat, j: nat)
      requires Structure() && m < |all|
      ensures i < |children| && j < |children[i].entries| && children[i].entries[j] == all[m]
    {
      assert all[m] in all;
      var n :| 0 <= n < |Runs()| && all[m] in Runs()[n];
      i := n;
      assert Runs()[i] == children[i].entries;
      j :| 0 <= j < |children[i].entries| && children[i].entries[j] == all[m];
    }

    lemma OneChildHasIt(i: nat, i': nat, e: Entry)
      requires Structure() && i < |children| && i' < |children| && e in children[i].entries && e in children[i'].entries
      ensures i == i'
    {
      assert Runs()[i] == children[i].entries && Runs()[i'] == children[i'].entries;
    }

    lemma NoEarlierEntry(c: nat, p: nat, j: nat, m: nat)
      requires Structure() && m < |all| && c < |children| && p <= j < |children[c].entries|
      requires children[c].entries[j] == all[m] && !Below(all, m, children[c].entries[p])
      ensures p == j
    {
    }

    lemma NoLaterEntry(c: nat, p: nat, j: nat, m: nat)
      requires Structure() && m < |all| && c < |children| && j <= p < |children[c].entries|
      requires children[c].entries[j] == all[m] && Below(all, m + 1, children[c].entries[p])
      ensures p == j
    {
      ChildEntry(c, p);
      BelowNext(all, m, children[c].entries[p]);
    }

    /** Some child stands on entry m of the union, the others beyond it. */
    lemma SmallestIsNext(m: nat) returns (c: nat)
      requires Structure() && m < |all| && AllForward(m)
      ensures c < |children| && children[c].HasKey() && children[c].entries[children[c].pos] == all[m]
      ensures forall i :: 0 <= i < |children| && i != c && children[i].HasKey() ==> Less(all[m].ikey, children[i].Key())
    {
      var j;
      c, j := EntryIsInAChild(m);
      var r := RankOf(all, all[m]);
      ChildEntry(c, j);
      assert !Below(all, m, all[m]);
      assert children[c].pos <= j;
      ChildEntry(c, children[c].pos);
      NoEarlierEntry(c, children[c].pos, j, m);
      forall i | 0 <= i < |children| && i != c && children[i].HasKey() ensures Less(all[m].ikey, children[i].Key()) {
        var e := children[i].entries[children[i].pos];
        ChildEntry(i, children[i].pos);
        var q := RankOf(all, e);
        assert !Below(all, m, e);
        if q == m { OneChildHasIt(i, c, e); }
        assert Before(all[m].ikey, all[q].ikey);
      }
    }

    /** Mirror image: some child stands on the entry before m, the others before it. */
    lemma LargestIsPrevious(m: nat) returns (c: nat)
      requires Structure() && 0 < m <= |all| && AllReverse(m)
      ensures c < |children| && children[c].HasKey() && children[c].entries[children[c].pos] == all[m - 1]
      ensures forall i :: 0 <= i < |children| && i != c && children[i].HasKey() ==> Less(children[i].Key(), all[m - 1].ikey)
    {
      var j;
      c, j := EntryIsInAChild(m - 1);
      BelowNext(all, m - 1, all[m - 1]);
      assert Below(all, m, children[c].entries[j]);
      NoLaterEntry(c, children[c].pos, j, m - 1);
      forall i | 0 <= i < |children| && i != c && children[i].HasKey() ensures Less(children[i].Key(), all[m - 1].ikey) {
        var e := children[i].entries[children[i].pos];
        ChildEntry(i, children[i].pos);
        BelowNext(all, m - 1, e);
        if e == all[m - 1] { OneChildHasIt(i, c, e); }
      }
    }

    lemma NothingAhead()
      requires Structure() && AllForward(|all|)
      ensures forall i :: 0 <= i < |children| ==> !children[i].HasKey()
    {
      forall i | 0 <= i < |children| ensures !children[i].HasKey() {
        assert children[i].HasKey() ==> Below(all, |all|, children[i].entries[children[i].pos]);
      }
    }

    lemma NothingBehind()
      requires Structure() && AllReverse(0)
      ensures forall i :: 0 <= i < |children| ==> !children[i].HasKey()
    {
      forall i | 0 <= i < |children| ensures !children[i].HasKey() {
        if children[i].HasKey() {
          ChildEntry(i, children[i].pos);
          var r := RankOf(all, children[i].entries[children[i].pos]);
        }
      }
    }

    method FindSmallest(ghost m: nat)
      requires Structure() && m <= |all| && AllForward(m)
      modifies this`current
      ensures current == -1 <==> m == |all|
      ensures m < |all| ==> CurrentAt(m)
    {
      ghost var c := 0;
      if m < |all| { c := SmallestIsNext(m); } else { NothingAhead(); }
      var smallest := -1;
      var i := 0;
      while i < |children|
        invariant 0 <= i <= |children| && -1 <= smallest < i
        invariant smallest == -1 ==> forall j :: 0 <= j < i ==> !children[j].HasKey()
        invariant smallest != -1 ==> children[smallest].HasKey()
        invariant m < |all| && c < i ==> smallest == c
      {
        if children[i].HasKey() {
          if smallest == -1 {
            smallest := i;
          } else if Less(children[i].Key(), children[smallest].Key()) {
            smallest := i;
          }
        }
        i := i + 1;
      }
      current := smallest;
    }

    method FindLargest(ghost m: nat)
      requires Structure() && m <= |all| && AllReverse(m)
      modifies this`current
      ensures current == -1 <==> m == 0
      ensures m > 0 ==> CurrentAt(m - 1)
    {
      ghost var c := 0;
      if m > 0 { c := LargestIsPrevious(m); } else { NothingBehind(); }
      var largest := -1;
      var i := |children| - 1;
      while i >= 0
        invariant -1 <= i < |children| && (largest == -1 || i < largest < |children|)
        invariant largest == -1 ==> forall j :: i < j < |children| ==> !children[j].HasKey()
        invariant largest != -1 ==> children[largest].HasKey()
        invariant m > 0 && i < c ==> largest == c
      {
        if children[i].HasKey() {
          if largest == -1 {
            largest := i;
          } else if Less(children[largest].Key(), children[i].Key()) {
            largest := i;
          }
        }
        i := i - 1;
      }
      current := largest;
    }

    // ---- Positioning every child -----------------------------------------------------

    lemma FirstIsForward(i: nat)
      requires Structure() && i < |children| && children[i].pos == 0
      ensures ForwardAt(all, 0, children[i].entries, children[i].pos)
    {
      var run := children[i].entries;
      forall j | 0 <= j < |run| ensures !Below(all, 0, run[j]) {
        ChildEntry(i, j);
        var r := RankOf(all, run[j]);
      }
    }

    lemma LastIsReverse(i: nat)
      requires Structure() && i < |children|
      requires children[i].pos == if children[i].entries == [] then 0 else |children[i].entries| - 1
      ensures ReverseAt(all, |all|, children[i].entries, children[i].pos)
    {
    }

    /** Seeking a child to a target puts it at the union's lower bound of the target. */
    lemma SoughtIsForward(i: nat, target: InternalKey)
      requires Structure() && i < |children| && children[i].pos == LowerBound(children[i].entries, target)
      ensures ForwardAt(all, LowerBound(all, target), children[i].entries, children[i].pos)
    {
      var run, m := children[i].entries, LowerBound(all, target);
      LowerBoundSplits(all, target);
      LowerBoundSplits(run, target);
      forall j | 0 <= j < |run| ensures Less(run[j].ikey, target) <==> Below(all, m, run[j]) {
        ChildEntry(i, j);
        var r := RankOf(all, run[j]);
      }
    }

    lemma LowerBoundOfMember(m: nat)
      requires SortedEntries(all) && m < |all|
      ensures LowerBound(all, all[m].ikey) == m
    {
      var b := LowerBound(all, all[m].ikey);
      LowerBoundSplits(all, all[m].ikey);
      assert m < b ==> Less(all[m].ikey, all[m].ikey);
      assert b < m ==> Before(all[b].ikey, all[m].ikey);
    }

    method SeekToFirst()
      requires Valid()
      modifies Repr()
      ensures Valid() && index == 0
    {
      var i := 0;
      while i < |children|
        invariant 0 <= i <= |children| && Structure()
        invariant forall j :: 0 <= j < i ==> children[j].pos == 0
      {
        children[i].SeekToFirst();
        i := i + 1;
      }
      forall j | 0 <= j < |children| ensures ForwardAt(all, 0, children[j].entries, children[j].pos) {
        FirstIsForward(j);
      }
      FindSmallest(0);
      index := 0;
      direction := Forward;
    }

    method SeekToLast()
      requires Valid()
      modifies Repr()
      ensures Valid() && index == if all == [] then 0 else |all| - 1
    {
      var i := 0;
      while i < |children|
        invariant 0 <= i <= |children| && Structure()
        invariant forall j :: 0 <= j < i ==> children[j].pos == if children[j].entries == [] then 0 else |children[j].entries| - 1
      {
        children[i].SeekToLast();
        i := i + 1;
      }
      forall j | 0 <= j < |children| ensures ReverseAt(all, |all|, children[j].entries, children[j].pos) {
        LastIsReverse(j);
      }
      FindLargest(|all|);
      index := if |all| == 0 then 0 else |all| - 1;
      direction := Reverse;
    }

    method Seek(target: InternalKey)
      requires Valid()
      modifies Repr()
      ensures Valid() && index == LowerBound(all, target)
    {
      var i := 0;
      while i < |children|
        invariant 0 <= i <= |children| && Structure()
        invariant forall j :: 0 <= j < i ==> children[j].pos == LowerBound(children[j].entries, target)
      {
        children[i].Seek(target);
        i := i + 1;
      }
      forall j | 0 <= j < |children|
        ensures ForwardAt(all, LowerBound(all, target), children[j].entries, children[j].pos)
      {
        SoughtIsForward(j, target);
      }
      FindSmallest(LowerBound(all, target));
      index := LowerBound(all, target);
      direction := Forward;
    }

    /** The direction switch of Next: every other child is sought to the current key, and
        stepped past it if it stands on it. */
    method TurnForward()
      requires Valid() && HasKey() && direction == Reverse
      modifies Repr()
      ensures Valid() && index == old(index) && current == old(current) && direction == Forward
    {
      var key := children[current].Key();
      ghost var c := children[current].pos;
      CurrentIsForward(index);
      LowerBoundOfMember(index);
      var i := 0;
      while i < |children|
        invariant 0 <= i <= |children| && Structure() && index == old(index) && current == old(current)
        invariant children[current].pos == c && CurrentAt(index)
        invariant forall j :: 0 <= j < i ==> ForwardAt(all, index, children[j].entries, children[j].pos)
      {
        if i != current {
          children[i].Seek(key);
          SoughtIsForward(i, key);
          OthersStandElsewhere(i);
          if children[i].HasKey() && children[i].Key() == key {
            assert false;  // the source steps past the key here; distinct children never reach it
          }
        } else {
          CurrentIsForward(index);
        }
        i := i + 1;
      }
      direction := Forward;
    }

    lemma CurrentIsForward(m: nat)
      requires Structure() && m < |all| && CurrentAt(m)
      ensures ForwardAt(all, m, children[current].entries, children[current].pos)
      ensures ReverseAt(all, m + 1, children[current].entries, children[current].pos)
    {
      var run, p := children[current].entries, children[current].pos;
      forall j | 0 <= j < |run| ensures (j < p <==> Below(all, m, run[j])) && (j <= p <==> Below(all, m + 1, run[j])) {
        ChildEntry(current, j);
        BelowNext(all, m, run[j]);
        assert j < p ==> Before(run[j].ikey, run[p].ikey);
        assert p < j ==> Before(run[p].ikey, run[j].ikey);
        var r := RankOf(all, run[j]);
      }
    }

    /** Children share no entry, so a child other than the current never stands on its key. */
    lemma OthersStandElsewhere(i: nat)
      requires Structure() && index < |all| && CurrentAt(index) && i < |children| && i != current
      ensures children[i].HasKey() ==> children[i].Key() != all[index].ikey
    {
      if children[i].HasKey() {
        var e := children[i].entries[children[i].pos];
        ChildEntry(i, children[i].pos);
        var r := RankOf(all, e);
        if r == index { OneChildHasIt(i, current, e); }
      }
    }

    method Next()
      requires Valid() && HasKey()
      modifies Repr()
      ensures Valid() && index == old(index) + 1
    {
      if direction != Forward {
        TurnForward();
      }
      StepForward();
    }

    method StepForward()
      requires Valid() && HasKey() && direction == Forward
      modifies Repr()
      ensures Valid() && index == old(index) + 1
    {
      StepCurrentForward();
      FindSmallest(index + 1);
      index := index + 1;
    }

    method StepCurrentForward()
      requires Valid() && HasKey() && direction == Forward
      modifies Repr() - {this}
      ensures Structure() && AllForward(index + 1)
    {
      ghost var m, c := index, current;
      forall i | 0 <= i < |children| && i != c
        ensures ForwardAt(all, m + 1, children[i].entries, children[i].pos)
      {
        OthersUnmoved(i);
      }
      CurrentIsForward(m);
      children[current].Next();
    }

    /** For a child other than the current, the union index may step over the current entry. */
    lemma OthersUnmoved(i: nat)
      requires Structure() && index < |all| && CurrentAt(index) && i < |children| && i != current
      ensures forall pos :: ForwardAt(all, index, children[i].entries, pos) <==> ForwardAt(all, index + 1, children[i].entries, pos)
      ensures forall pos :: ReverseAt(all, index, children[i].entries, pos) <==> ReverseAt(all, index + 1, children[i].entries, pos)
    {
      var run := children[i].entries;
      forall j | 0 <= j < |run| ensures Below(all, index, run[j]) <==> Below(all, index + 1, run[j]) {
        ChildEntry(i, j);
        BelowNext(all, index, run[j]);
        if run[j] == all[index] { OneChildHasIt(i, current, run[j]); }
      }
    }

    /** The direction switch of Prev. */
    method TurnReverse()
      requires Valid() && HasKey() && direction == Forward
      modifies Repr()
      ensures Valid() && index == old(index) && current == old(current) && direction == Reverse
    {
      var key := children[current].Key();
      CurrentIsForward(index);
      LowerBoundOfMember(index);
      var i := 0;
      while i < |children|
        invariant 0 <= i <= |children| && Structure() && index == old(index) && current == old(current)
        invariant CurrentAt(index)
        invariant forall j :: 0 <= j < i ==> ReverseAt(all, index + 1, children[j].entries, children[j].pos)
      {
        if i != current {
          OthersUnmoved(i);
          SeekBefore(i, key);
        } else {
          CurrentIsForward(index);
        }
        i := i + 1;
      }
      direction := Reverse;
    }

    /** Puts a child on its last entry before the key. */
    method SeekBefore(i: nat, key: InternalKey)
      requires Structure() && i < |children|
      modifies children[i]
      ensures Structure() && ReverseAt(all, LowerBound(all, key), children[i].entries, children[i].pos)
    {
      children[i].Seek(key);
      SoughtIsForward(i, key);
      if children[i].HasKey() {
        // The child is at its first entry at or after the key: step back one.
        children[i].Prev();
      } else {
        children[i].SeekToLast();
      }
    }

    method Prev()
      requires Valid() && HasKey()
      modifies Repr()
      ensures Valid() && index == if old(index) == 0 then |all| else old(index) - 1
    {
      if direction != Reverse {
        TurnReverse();
      }
      StepBack();
    }

    method StepBack()
      requires Valid() && HasKey() && direction == Reverse
      modifies Repr()
      ensures Valid() && index == if old(index) == 0 then |all| else old(index) - 1
    {
      StepCurrentBack();
      FindLargest(index);
      index := if index == 0 then |all| else index - 1;
    }

    method StepCurrentBack()
      requires Valid() && HasKey() && direction == Reverse
      modifies Repr() - {this}
      ensures Structure() && AllReverse(index)
    {
      ghost var m, c := index, current;
      forall i | 0 <= i < |children| && i != c
        ensures ReverseAt(all, m, children[i].entries, children[i].pos)
      {
        OthersUnmoved(i);
      }
      CurrentIsForward(m);
      children[current].Prev();
    }
  }
}
