/** The memtable's skip list (db/skiplist.h). Every level is a sorted list and a sublist of the
    level below, after every single link that Insert writes. */
module SkipLists {
  import opened Coding

  /** Keys as ranks in the comparator's order. */
  type Key = real

  const MAX_HEIGHT: nat := 12

  class Node {
    const key: Key
    var next: seq<Node?>

    constructor (key: Key, height: nat)
      ensures this.key == key && next == seq(height, _ => null)
    {
      this.key, next := key, seq(height, _ => null);
    }
  }

  ghost predicate SortedNodes(ns: seq<Node>) {
    forall i, j :: 0 <= i < j < |ns| ==> ns[i].key < ns[j].key
  }

  /** The first p nodes are before the key, the others at or after it. */
  ghost predicate Splits(ns: seq<Node>, key: Key, p: nat) {
    p <= |ns| && (forall i :: 0 <= i < p ==> ns[i].key < key) && (forall i :: p <= i < |ns| ==> key <= ns[i].key)
  }

  ghost predicate Sublist(upper: seq<Node>, lower: seq<Node>) {
    forall n :: n in upper ==> n in lower
  }

  ghost predicate OnLevelBelow(levels: seq<seq<Node>>, l: nat)
    requires 0 < l < |levels|
  {
    Sublist(levels[l], levels[l - 1])
  }

  /** Twelve sorted lists, each a sublist of the one below, empty above the height in use. */
  ghost predicate Shape(levels: seq<seq<Node>>, maxHeight: nat, nodes: set<Node>, head: Node) {
    && |levels| == MAX_HEIGHT && 1 <= maxHeight <= MAX_HEIGHT && head !in nodes
    && (forall l, i :: 0 <= l < MAX_HEIGHT && 0 <= i < |levels[l]| ==> levels[l][i] in nodes)
    && (forall l :: 0 <= l < MAX_HEIGHT ==> SortedNodes(levels[l]))
    && (forall l {:trigger OnLevelBelow(levels, l)} :: 0 < l < MAX_HEIGHT ==> OnLevelBelow(levels, l))
    && (forall l :: maxHeight <= l < MAX_HEIGHT ==> levels[l] == [])
  }

  /** The i-th node of a level, counting the head as the first. */
  ghost function NodeAt(head: Node, ns: seq<Node>, i: nat): Node
    requires i <= |ns|
  {
    if i == 0 then head else ns[i - 1]
  }

  ghost function After(ns: seq<Node>, i: nat): Node?
    requires i <= |ns|
  {
    if i < |ns| then ns[i] else null
  }

  /** The links at level l of these nodes and the head are the list. */
  ghost predicate Linked(head: Node, ns: seq<Node>, l: nat)
    reads head, ns
  {
    forall i {:trigger NodeAt(head, ns, i)} :: 0 <= i <= |ns| ==>
      l < |NodeAt(head, ns, i).next| && NodeAt(head, ns, i).next[l] == After(ns, i)
  }

  class SkipList {
    const head: Node
    var maxHeight: nat
    ghost var levels: seq<seq<Node>>   // the nodes linked at each level, in order
    ghost var nodes: set<Node>

    ghost predicate Valid()
      reads this, head, nodes
    {
      && Shape(levels, maxHeight, nodes, head)
      && forall l {:trigger Linked(head, levels[l], l)} :: 0 <= l < MAX_HEIGHT ==> Linked(head, levels[l], l)
    }

    constructor ()
      ensures Valid() && fresh(head) && levels == seq(MAX_HEIGHT, _ => []) && nodes == {}
    {
      head := new Node(0.0, MAX_HEIGHT);
      maxHeight := 1;
      levels, nodes := seq(MAX_HEIGHT, _ => []), {};
    }

    // ---- Searching -------------------------------------------------------------------

    /** FindGreaterOrEqual: the earliest node at or after the key, and the node before it on
        every level in use. */
    method FindGreaterOrEqual(key: Key) returns (found: Node?, prev: seq<Node>, ghost at: seq<nat>)
      requires Valid()
      ensures |prev| == |at| == maxHeight
      ensures forall l :: 0 <= l < maxHeight ==> Splits(levels[l], key, at[l]) && prev[l] == NodeAt(head, levels[l], at[l])
      ensures found == if at[0] < |levels[0]| then levels[0][at[0]] else null
    {
      var x: Node, level: nat := head, maxHeight - 1;
      ghost var p: nat := 0;
      prev, at := seq(maxHeight, _ => head), seq(maxHeight, _ => 0);
      while true
        invariant level < maxHeight && |prev| == |at| == maxHeight && Standing(x, level, p, key)
        invariant forall l :: level < l < maxHeight ==> Splits(levels[l], key, at[l]) && prev[l] == NodeAt(head, levels[l], at[l])
        decreases level, |levels[level]| - p
      {
        assert Linked(head, levels[level], level) && NodeAt(head, levels[level], p) == x;
        var next := x.next[level];
        if next != null && next.key < key {
          x, p := next, p + 1;
        } else {
          StopsHere(x, level, p, key);
          prev, at := prev[level := x], at[level := p];
          if level == 0 {
            return next, prev, at;
          }
          p := Below(x, level, p, key);
          level := level - 1;
        }
      }
    }

    /** FindLessThan: the latest node before the key, or the head. */
    method FindLessThan(key: Key) returns (x: Node, ghost p: nat)
      requires Valid()
      ensures Splits(levels[0], key, p) && x == NodeAt(head, levels[0], p)
    {
      x, p := head, 0;
      var level: nat := maxHeight - 1;
      while true
        invariant level < maxHeight && Standing(x, level, p, key)
        decreases level, |levels[level]| - p
      {
        assert Linked(head, levels[level], level) && NodeAt(head, levels[level], p) == x;
        var next := x.next[level];
        if next == null || next.key >= key {
          if level == 0 {
            return;
          }
          p := Below(x, level, p, key);
          level := level - 1;
        } else {
          x, p := next, p + 1;
        }
      }
    }

    /** FindLast: the last node, or the head when there is none. */
    method FindLast() returns (x: Node)
      requires Valid()
      ensures x == NodeAt(head, levels[0], |levels[0]|)
    {
      x := head;
      ghost var p: nat := 0;
      var level: nat := maxHeight - 1;
      while true
        invariant level < maxHeight && p <= |levels[level]| && x == NodeAt(head, levels[level], p)
        decreases level, |levels[level]| - p
      {
        assert Linked(head, levels[level], level) && NodeAt(head, levels[level], p) == x;
        var next := x.next[level];
        if next == null {
          if level == 0 {
            return;
          }
          p := BelowSame(x, level, p);
          level := level - 1;
        } else {
          x, p := next, p + 1;
        }
      }
    }

    /** x stands at place p of the level, behind nodes that are all before the key. */
    ghost predicate Standing(x: Node, l: nat, p: nat, key: Key)
      requires Shape(levels, maxHeight, nodes, head) && l < MAX_HEIGHT
      reads this
    {
      p <= |levels[l]| && x == NodeAt(head, levels[l], p) && forall i :: 0 <= i < p ==> levels[l][i].key < key
    }

    lemma BelowSame(x: Node, l: nat, p: nat) returns (q: nat)
      requires Shape(levels, maxHeight, nodes, head) && 0 < l < MAX_HEIGHT
      requires p <= |levels[l]| && x == NodeAt(head, levels[l], p)
      ensures q <= |levels[l - 1]| && x == NodeAt(head, levels[l - 1], q)
    {
      q := 0;
      if p > 0 {
        assert OnLevelBelow(levels, l) && x in levels[l];
        var i :| 0 <= i < |levels[l - 1]| && levels[l - 1][i] == x;
        q := i + 1;
      }
    }

    /** When the next node is not before the key, the level splits here. */
    lemma StopsHere(x: Node, l: nat, p: nat, key: Key)
      requires Valid() && l < MAX_HEIGHT && Standing(x, l, p, key)
      requires p < |levels[l]| ==> key <= levels[l][p].key
      ensures Splits(levels[l], key, p)
    {
    }

    /** Dropping to the level below. */
    lemma Below(x: Node, l: nat, p: nat, key: Key) returns (q: nat)
      requires Shape(levels, maxHeight, nodes, head) && 0 < l < MAX_HEIGHT && Standing(x, l, p, key)
      ensures Standing(x, l - 1, q, key)
    {
      q := 0;
      if p > 0 {
        assert OnLevelBelow(levels, l);
        assert x in levels[l];
        var i :| 0 <= i < |levels[l - 1]| && levels[l - 1][i] == x;
        q := i + 1;
      }
    }

    method Contains(key: Key) returns (found: bool)
      requires Valid()
      ensures found <==> exists n :: n in levels[0] && n.key == key
    {
      var x, prev; ghost var at;
      x, prev, at := FindGreaterOrEqual(key);
      assert Splits(levels[0], key, at[0]);
      found := x != null && x.key == key;
    }

    // ---- Inserting -------------------------------------------------------------------

    /** One turn of Insert's loop: link x at level l behind `prev`. The list is whole again
        after it, with x on one level more. */
    method Link(l: nat, x: Node, prev: Node, ghost p: nat)
      requires Valid() && l < maxHeight && l < |x.next| && x != head
      requires Splits(levels[l], x.key, p) && prev == NodeAt(head, levels[l], p)
      requires forall i :: 0 <= i < |levels[l]| ==> levels[l][i].key != x.key
      requires if l == 0 then x !in nodes else x in levels[l - 1]
      requires forall m :: l <= m < MAX_HEIGHT ==> x !in levels[m]
      modifies this`levels, this`nodes, x, prev
      ensures Valid() && nodes == old(nodes) + {x} && |x.next| == old(|x.next|)
      ensures levels == old(levels)[l := InsertAt(old(levels)[l], p, x)]
    {
      ghost var before, ns := levels, InsertAt(levels[l], p, x);
      assert forall m :: 0 <= m < MAX_HEIGHT ==> Linked(head, before[m], m);
      ShapeAfterLink(before, maxHeight, nodes, head, l, x, p);
      x.next := x.next[l := prev.next[l]];
      prev.next := prev.next[l := x];
      levels, nodes := levels[l := ns], nodes + {x};
      NodesAfterInsert(head, before[l], p, x);
      forall m | 0 <= m < MAX_HEIGHT ensures Linked(head, levels[m], m) {
        forall i | 0 <= i <= |levels[m]|
          ensures m < |NodeAt(head, levels[m], i).next| && NodeAt(head, levels[m], i).next[m] == After(levels[m], i)
        {
          if m != l {
            assert old(NodeAt(head, before[m], i).next[m]) == After(before[m], i);
          } else if i <= p {
            assert old(NodeAt(head, before[l], i).next[l]) == After(before[l], i);
          } else {
            assert old(NodeAt(head, before[l], i - 1).next[l]) == After(before[l], i - 1);
          }
        }
      }
    }

    ghost function Keys(): seq<Key>
      requires |levels| > 0
      reads this
    {
      KeysOf(levels[0])
    }

    /** Insert, for whatever height the coin flips give. */
    method Insert(key: Key, height: nat)
      requires Valid() && 1 <= height <= MAX_HEIGHT && key !in Keys()
      modifies this, head, nodes
      ensures Valid() && fresh(nodes - old(nodes)) && old(nodes) <= nodes
      ensures exists p :: 0 <= p <= |old(levels)[0]| && Splits(old(levels)[0], key, p)
                && Keys() == old(Keys())[..p] + [key] + old(Keys())[p..]
    {
      var x, prev; ghost var at;
      x, prev, at := FindGreaterOrEqual(key);
      if height > maxHeight {
        at := at + seq(height - maxHeight, _ => 0);
        prev := prev + seq<Node>(height - maxHeight, _ => head);
        maxHeight := height;
      }
      var n := new Node(key, height);
      KeysAre(levels[0]);
      LinkAll(n, prev, at);
      KeysAfterInsert(old(levels)[0], at[0], n);
    }

    /** Insert's loop: the new node is linked level by level from the bottom, each link leaving
        a valid list. */
    method LinkAll(x: Node, prev: seq<Node>, ghost at: seq<nat>)
      requires Valid() && x != head && x !in nodes && 0 < |x.next| <= maxHeight && |prev| == |at| == maxHeight
      requires forall i :: 0 <= i < |levels[0]| ==> levels[0][i].key != x.key
      requires forall l :: 0 <= l < maxHeight ==> Splits(levels[l], x.key, at[l]) && prev[l] == NodeAt(head, levels[l], at[l])
      modifies this`levels, this`nodes, x, head, nodes
      ensures Valid() && nodes == old(nodes) + {x} && at[0] <= |old(levels)[0]|
      ensures levels[0] == InsertAt(old(levels)[0], at[0], x)
    {
      var i, height := 0, |x.next|;
      while i < height
        invariant 0 <= i <= height == |x.next| && Valid() && nodes == old(nodes) + if i == 0 then {} else {x}
        invariant forall l :: 0 <= l < i ==> levels[l] == InsertAt(old(levels)[l], at[l], x)
        invariant forall l :: i <= l < MAX_HEIGHT ==> levels[l] == old(levels)[l]
      {
        NotYetAbove(old(levels), old(maxHeight), old(nodes), head, x, i);
        Link(i, x, prev[i], at[i]);
        i := i + 1;
      }
    }
  }

  ghost function KeysOf(ns: seq<Node>): seq<Key> {
    seq(|ns|, i requires 0 <= i < |ns| => ns[i].key)
  }

  lemma KeysAre(ns: seq<Node>)
    ensures forall i :: 0 <= i < |ns| ==> ns[i].key in KeysOf(ns)
  {
    forall i | 0 <= i < |ns| ensures ns[i].key in KeysOf(ns) {
      assert KeysOf(ns)[i] == ns[i].key;
    }
  }

  lemma KeysAfterInsert(ns: seq<Node>, p: nat, x: Node)
    requires p <= |ns|
    ensures KeysOf(InsertAt(ns, p, x)) == KeysOf(ns)[..p] + [x.key] + KeysOf(ns)[p..]
  {
  }

  /** Levels that have not been linked hold neither x nor anything with its key. */
  lemma NotYetAbove(levels: seq<seq<Node>>, maxHeight: nat, nodes: set<Node>, head: Node, x: Node, i: nat)
    requires Shape(levels, maxHeight, nodes, head) && x !in nodes && i < MAX_HEIGHT
    requires forall j :: 0 <= j < |levels[0]| ==> levels[0][j].key != x.key
    ensures forall l :: 0 <= l < MAX_HEIGHT ==> x !in levels[l]
    ensures forall j :: 0 <= j < |levels[i]| ==> levels[i][j].key != x.key
  {
    forall l | 0 <= l < MAX_HEIGHT ensures x !in levels[l] {
      assert forall j :: 0 <= j < |levels[l]| ==> levels[l][j] in nodes;
    }
    forall j | 0 <= j < |levels[i]| ensures levels[i][j] in levels[0] {
      DownToBottom(levels, maxHeight, nodes, head, i, levels[i][j]);
    }
  }

  lemma {:induction false} DownToBottom(levels: seq<seq<Node>>, maxHeight: nat, nodes: set<Node>, head: Node, l: nat, n: Node)
    requires Shape(levels, maxHeight, nodes, head) && l < MAX_HEIGHT && n in levels[l]
    ensures n in levels[0]
  {
    if l > 0 {
      assert OnLevelBelow(levels, l);
      DownToBottom(levels, maxHeight, nodes, head, l - 1, n);
    }
  }

  ghost function InsertAt(ns: seq<Node>, p: nat, x: Node): seq<Node>
    requires p <= |ns|
  {
    ns[..p] + [x] + ns[p..]
  }

  lemma NodesAfterInsert(head: Node, ns: seq<Node>, p: nat, x: Node)
    requires p <= |ns|
    ensures var longer := InsertAt(ns, p, x);
            |longer| == |ns| + 1
            && (forall i :: 0 <= i <= p ==> NodeAt(head, longer, i) == NodeAt(head, ns, i))
            && NodeAt(head, longer, p + 1) == x
            && (forall i :: p + 1 < i <= |longer| ==> NodeAt(head, longer, i) == NodeAt(head, ns, i - 1))
            && (forall i :: 0 <= i < p ==> After(longer, i) == After(ns, i)) && After(longer, p) == x
            && (forall i :: p < i <= |longer| ==> After(longer, i) == After(ns, i - 1))
  {
  }

  /** Adding x to one level keeps the lists sorted and each a sublist of the one below. */
  lemma ShapeAfterLink(levels: seq<seq<Node>>, maxHeight: nat, nodes: set<Node>, head: Node, l: nat, x: Node, p: nat)
    requires Shape(levels, maxHeight, nodes, head) && l < maxHeight && x != head
    requires Splits(levels[l], x.key, p)
    requires forall i :: 0 <= i < |levels[l]| ==> levels[l][i].key != x.key
    requires l > 0 ==> x in levels[l - 1]
    ensures Shape(levels[l := InsertAt(levels[l], p, x)], maxHeight, nodes + {x}, head)
  {
    var after := levels[l := InsertAt(levels[l], p, x)];
    assert forall n :: n in after[l] <==> n == x || n in levels[l];
    forall m | 0 < m < MAX_HEIGHT ensures OnLevelBelow(after, m) {
      assert OnLevelBelow(levels, m);
    }
  }

  // ---- Iterating -----------------------------------------------------------------------

  /** SkipList::Iterator: a node pointer that stands for a place in the list of keys. */
  class Iterator {
    const list: SkipList
    var node: Node?
    ghost var index: nat

    ghost predicate Valid()
      reads this, list, list.head, list.nodes
    {
      list.Valid() && index <= |list.levels[0]| && node == After(list.levels[0], index)
    }

    constructor (list: SkipList)
      requires list.Valid()
      ensures Valid() && this.list == list && index == |list.levels[0]|
    {
      this.list, node, index := list, null, |list.levels[0]|;
    }

    method Next()
      requires Valid() && node != null
      modifies this
      ensures Valid() && index == old(index) + 1
    {
      assert Linked(list.head, list.levels[0], 0) && NodeAt(list.head, list.levels[0], index + 1) == node;
      node, index := node.next[0], index + 1;
    }

    /** There are no back links: the predecessor is searched for from the head. */
    method Prev()
      requires Valid() && node != null
      modifies this
      ensures Valid() && index == if old(index) == 0 then |list.levels[0]| else old(index) - 1
    {
      var x; ghost var p;
      x, p := list.FindLessThan(node.key);
      SplitAtOwnKey(list.levels[0], index, p);
      HeadIsNoMember(list, p);
      if x == list.head {
        node, index := null, |list.levels[0]|;
      } else {
        node, index := x, p - 1;
      }
    }

    method Seek(target: Key)
      requires Valid()
      modifies this
      ensures Valid() && Splits(list.levels[0], target, index)
    {
      var found, prev; ghost var at;
      found, prev, at := list.FindGreaterOrEqual(target);
      node, index := found, at[0];
    }

    method SeekToFirst()
      requires Valid()
      modifies this
      ensures Valid() && index == 0
    {
      assert Linked(list.head, list.levels[0], 0) && NodeAt(list.head, list.levels[0], 0) == list.head;
      node, index := list.head.next[0], 0;
    }

    method SeekToLast()
      requires Valid()
      modifies this
      ensures Valid() && index == if list.levels[0] == [] then 0 else |list.levels[0]| - 1
    {
      var x := list.FindLast();
      HeadIsNoMember(list, |list.levels[0]|);
      if x == list.head {
        node, index := null, 0;
      } else {
        node, index := x, |list.levels[0]| - 1;
      }
    }
  }

  lemma SplitAtOwnKey(ns: seq<Node>, i: nat, p: nat)
    requires SortedNodes(ns) && i < |ns| && Splits(ns, ns[i].key, p)
    ensures p == i
  {
    assert ns[p..] == [] || ns[p].key >= ns[i].key;
  }

  lemma HeadIsNoMember(list: SkipList, p: nat)
    requires list.Valid() && p <= |list.levels[0]|
    ensures NodeAt(list.head, list.levels[0], p) == list.head <==> p == 0
  {
  }

  // ---- One writer, lock-free readers -----------------------------------------------------

  /** What a reader sees: the keys on each level. */
  type Levels = seq<seq<Key>>

  ghost predicate Sorted(ks: seq<Key>) {
    forall i, j :: 0 <= i < j < |ks| ==> ks[i] < ks[j]
  }

  ghost predicate SortedLevels(levels: Levels) {
    |levels| == MAX_HEIGHT && forall l :: 0 <= l < MAX_HEIGHT ==> Sorted(levels[l])
  }

  /** Every key of a level is on the level below. */
  ghost predicate Nested(levels: Levels)
    requires |levels| == MAX_HEIGHT
  {
    forall l, k {:trigger OnLevel(levels, l, k)} :: 0 < l < MAX_HEIGHT && OnLevel(levels, l, k) ==> OnLevel(levels, l - 1, k)
  }

  ghost predicate OnLevel(levels: Levels, l: int, k: Key)
    requires 0 <= l < |levels|
  {
    k in levels[l]
  }

  /** The writer publishes one link: k joins level l. */
  ghost predicate WriterLinks(levels: Levels, levels': Levels) {
    SortedLevels(levels) && SortedLevels(levels') && Nested(levels) && Nested(levels')
    && forall l, k {:trigger OnLevel(levels, l, k)} :: 0 <= l < MAX_HEIGHT && OnLevel(levels, l, k) ==> OnLevel(levels', l, k)
  }

  /** A FindGreaterOrEqual under way: behind a key (None: behind the head) on some level. */
  datatype Reader = Searching(behind: Option<Key>, level: nat) | Found(key: Option<Key>)

  /** The key that follows on the list: what one read of a next pointer returns. */
  ghost predicate IsNext(ks: seq<Key>, behind: Option<Key>, next: Option<Key>) {
    && (next.Some? ==> next.value in ks && (behind.Some? ==> behind.value < next.value))
    && forall k :: k in ks && (behind.Some? ==> behind.value < k) ==> next.Some? && next.value <= k
  }

  /** One turn of the search loop: read the next pointer, then move right, drop or return. */
  ghost predicate ReaderMoves(levels: Levels, target: Key, r: Reader, r': Reader)
    requires |levels| == MAX_HEIGHT
  {
    r.Searching? && r.level < MAX_HEIGHT
    && exists next :: IsNext(levels[r.level], r.behind, next)
         && r' == if next.Some? && next.value < target then Searching(next, r.level)
                  else if r.level == 0 then Found(next) else Searching(r.behind, r.level - 1)
  }

  /** Any interleaving of link stores and reader turns. The reader may start at any height: it
      reads max_height_ without synchronisation. */
  ghost predicate IsRun(target: Key, run: seq<(Levels, Reader)>) {
    && |run| > 0 && SortedLevels(run[0].0) && Nested(run[0].0)
    && run[0].1.Searching? && run[0].1.behind.None? && run[0].1.level < MAX_HEIGHT
    && forall n :: 0 <= n < |run| - 1 ==> RunStep(target, run[n], run[n + 1])
  }

  ghost predicate RunStep(target: Key, s: (Levels, Reader), s': (Levels, Reader)) {
    || (s'.1 == s.1 && WriterLinks(s.0, s'.0))
    || (s'.0 == s.0 && |s.0| == MAX_HEIGHT && ReaderMoves(s.0, target, s.1, s'.1))
  }

  /** What holds at every point: the reader stands on the list it is walking, and a reader that
      is done has skipped nothing that was there when it started. */
  ghost predicate ReaderInv(target: Key, start: Levels, s: (Levels, Reader)) {
    && SortedLevels(s.0) && Nested(s.0) && |start| == MAX_HEIGHT
    && (forall k :: k in start[0] ==> k in s.0[0])
    && match s.1
       case Searching(behind, level) => level < MAX_HEIGHT && (behind.Some? ==> behind.value < target && OnLevel(s.0, level, behind.value))
       case Found(key) => (key.Some? ==> target <= key.value && key.value in s.0[0])
                          && forall k :: k in start[0] && target <= k ==> key.Some? && key.value <= k
  }

  lemma StepKeepsReader(target: Key, start: Levels, s: (Levels, Reader), s': (Levels, Reader))
    requires ReaderInv(target, start, s) && RunStep(target, s, s')
    ensures ReaderInv(target, start, s')
  {
    if s'.1 == s.1 && WriterLinks(s.0, s'.0) {
      assert forall k :: k in s.0[0] ==> OnLevel(s.0, 0, k) && OnLevel(s'.0, 0, k);
    } else {
      var r := s.1;
      var next :| IsNext(s.0[r.level], r.behind, next)
        && s'.1 == if next.Some? && next.value < target then Searching(next, r.level)
                   else if r.level == 0 then Found(next) else Searching(r.behind, r.level - 1);
      if next.Some? { assert OnLevel(s.0, r.level, next.value); }
    }
  }

  lemma {:induction false} RunKeepsReader(target: Key, run: seq<(Levels, Reader)>, n: nat)
    requires IsRun(target, run) && n < |run|
    ensures ReaderInv(target, run[0].0, run[n])
  {
    if n > 0 {
      RunKeepsReader(target, run, n - 1);
      StepKeepsReader(target, run[0].0, run[n - 1], run[n]);
    }
  }

  /** However link stores fall between its steps, a search ends on a key at or after its target
      and misses no key that was in the list when it began. */
  lemma ReadersFindEarlierKeys(target: Key, run: seq<(Levels, Reader)>, n: nat)
    requires IsRun(target, run) && n < |run| && run[n].1.Found?
    ensures var found := run[n].1.key;
            |run[0].0| == MAX_HEIGHT && |run[n].0| == MAX_HEIGHT
            && (found.Some? ==> target <= found.value && found.value in run[n].0[0])
            && forall k :: k in run[0].0[0] && target <= k ==> found.Some? && found.value <= k
  {
    RunKeepsReader(target, run, n);
  }

  /** The keys on the levels of a real list. */
  ghost function KeyLevels(levels: seq<seq<Node>>): Levels {
    seq(|levels|, l requires 0 <= l < |levels| => KeysOf(levels[l]))
  }

  lemma ShapeIsSeen(levels: seq<seq<Node>>, maxHeight: nat, nodes: set<Node>, head: Node)
    requires Shape(levels, maxHeight, nodes, head)
    ensures SortedLevels(KeyLevels(levels)) && Nested(KeyLevels(levels))
  {
    var ks := KeyLevels(levels);
    forall l, k | 0 < l < MAX_HEIGHT && OnLevel(ks, l, k) ensures OnLevel(ks, l - 1, k) {
      var i :| 0 <= i < |levels[l]| && levels[l][i].key == k;
      assert OnLevelBelow(levels, l) && levels[l][i] in levels[l];
      KeysAre(levels[l - 1]);
    }
  }

  /** Each turn of Insert's loop is a link in the sense of readers. */
  lemma LinkIsALink(levels: seq<seq<Node>>, maxHeight: nat, nodes: set<Node>, head: Node, l: nat, x: Node, p: nat)
    requires Shape(levels, maxHeight, nodes, head) && l < maxHeight && x != head && Splits(levels[l], x.key, p)
    requires forall i :: 0 <= i < |levels[l]| ==> levels[l][i].key != x.key
    requires l > 0 ==> x in levels[l - 1]
    ensures WriterLinks(KeyLevels(levels), KeyLevels(levels[l := InsertAt(levels[l], p, x)]))
  {
    var after := levels[l := InsertAt(levels[l], p, x)];
    ShapeIsSeen(levels, maxHeight, nodes, head);
    ShapeAfterLink(levels, maxHeight, nodes, head, l, x, p);
    ShapeIsSeen(after, maxHeight, nodes + {x}, head);
    forall m, k | 0 <= m < MAX_HEIGHT && OnLevel(KeyLevels(levels), m, k) ensures OnLevel(KeyLevels(after), m, k) {
      var i :| 0 <= i < |levels[m]| && levels[m][i].key == k;
      assert m == l ==> after[l][if i < p then i else i + 1] == levels[l][i];
      KeysAre(after[m]);
    }
  }

  /** Reading a node's next pointer returns the key that follows on its level. */
  lemma NextPointerIsNext(head: Node, ns: seq<Node>, l: nat, i: nat)
    requires Linked(head, ns, l) && SortedNodes(ns) && i <= |ns|
    ensures l < |NodeAt(head, ns, i).next|
    ensures var next := NodeAt(head, ns, i).next[l];
            IsNext(KeysOf(ns), if i == 0 then None else Some(ns[i - 1].key), if next == null then None else Some(next.key))
  {
    if i < |ns| { assert KeysOf(ns)[i] == ns[i].key; }
  }
}
