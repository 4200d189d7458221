/** The hash table of the LRU cache (util/cache.cc: HandleTable): chained buckets that double in
    number as they fill, standing for a map. */
module HandleTables {
  import opened Coding

  /** LRUHandle. Keys are looked up together with their hash. */
  class Handle {
    const key: Bytes
    const hash: nat
    const value: Bytes
    const charge: nat
    var inCache: bool
    var refs: nat
    ghost var deleterRuns: nat    // how often the deleter has been called

    constructor (key: Bytes, hash: nat, value: Bytes, charge: nat, refs: nat)
      ensures this.key == key && this.hash == hash && this.value == value && this.charge == charge
      ensures !inCache && this.refs == refs && deleterRuns == 0
    {
      this.key, this.hash, this.value, this.charge := key, hash, value, charge;
      inCache, this.refs, deleterRuns := false, refs, 0;
    }
  }

  type Id = (Bytes, nat)

  function IdOf(h: Handle): Id { (h.key, h.hash) }

  ghost predicate NoDuplicates(s: seq<Handle>) {
    forall i, j :: 0 <= i < j < |s| ==> s[i] != s[j]
  }

  predicate PowerOfTwo(n: nat) { n == 1 || (n > 0 && n % 2 == 0 && PowerOfTwo(n / 2)) }

  /** hash & (length - 1): the length is always a power of two. */
  function Slot(hash: nat, length: nat): (b: nat)
    requires length > 0
    ensures b < length
  {
    hash % length
  }

  /** Each bucket lists, once each, the members that hash into it. */
  ghost predicate Buckets(list: seq<seq<Handle>>, members: set<Handle>) {
    && |list| > 0
    && (forall b :: 0 <= b < |list| ==> NoDuplicates(list[b]))
    && (forall b, h :: 0 <= b < |list| && h in list[b] ==> h in members && Slot(h.hash, |list|) == b)
    && (forall h {:trigger Slot(h.hash, |list|)} :: h in members ==> h in list[Slot(h.hash, |list|)])
  }

  ghost predicate IdsDiffer(members: set<Handle>) {
    forall g, h {:trigger IdOf(g), IdOf(h)} :: g in members && h in members && IdOf(g) == IdOf(h) ==> g == h
  }

  class HandleTable {
    var list: seq<seq<Handle>>
    var elems: nat
    ghost var members: set<Handle>

    ghost predicate Valid()
      reads this
    {
      Buckets(list, members) && IdsDiffer(members) && elems == |members| <= |list| && PowerOfTwo(|list|)
    }

    constructor ()
      ensures Valid() && members == {}
    {
      list := [[], [], [], []];
      elems, members := 0, {};
    }

    /** FindPointer: the place of the entry in its bucket, or the end of the bucket. */
    method FindPointer(key: Bytes, hash: nat) returns (b: nat, i: nat)
      requires Valid()
      ensures b == Slot(hash, |list|) && i <= |list[b]|
      ensures i < |list[b]| ==> IdOf(list[b][i]) == (key, hash) && list[b][i] in members
      ensures i == |list[b]| ==> forall h :: h in members ==> IdOf(h) != (key, hash)
    {
      b, i := Slot(hash, |list|), 0;
      while i < |list[b]| && IdOf(list[b][i]) != (key, hash)
        invariant i <= |list[b]| && forall j :: 0 <= j < i ==> IdOf(list[b][j]) != (key, hash)
      {
        i := i + 1;
      }
    }

    method Lookup(key: Bytes, hash: nat) returns (h: Handle?)
      requires Valid()
      ensures h != null ==> h in members && IdOf(h) == (key, hash)
      ensures h == null ==> forall g :: g in members ==> IdOf(g) != (key, hash)
    {
      var b, i := FindPointer(key, hash);
      h := if i < |list[b]| then list[b][i] else null;
    }

    /** Insert: takes the place of an entry with the same key and hash, which is returned. */
    method Insert(h: Handle) returns (old_: Handle?)
      requires Valid() && h !in members
      modifies this
      ensures Valid()
      ensures old_ != null ==> old_ in old(members) && IdOf(old_) == IdOf(h) && members == old(members) - {old_} + {h}
      ensures old_ == null ==> members == old(members) + {h} && forall g :: g in old(members) ==> IdOf(g) != IdOf(h)
    {
      var b, i := FindPointer(h.key, h.hash);
      if i < |list[b]| {
        old_ := list[b][i];
        ReplaceInBucket(list, members, b, i, h);
        list := list[b := list[b][i := h]];
        members := members - {old_} + {h};
      } else {
        old_ := null;
        PushToBucket(list, members, b, h);
        list := list[b := list[b] + [h]];
        members := members + {h};
        elems := elems + 1;
        if elems > |list| {
          Resize();
        }
      }
    }

    method Remove(key: Bytes, hash: nat) returns (result: Handle?)
      requires Valid()
      modifies this
      ensures Valid()
      ensures result != null ==> result in old(members) && IdOf(result) == (key, hash) && members == old(members) - {result}
      ensures result == null ==> members == old(members) && forall h :: h in members ==> IdOf(h) != (key, hash)
    {
      var b, i := FindPointer(key, hash);
      result := null;
      if i < |list[b]| {
        result := list[b][i];
        RemoveFromBucket(list, members, b, i);
        list := list[b := list[b][..i] + list[b][i + 1..]];
        members := members - {result};
        elems := elems - 1;
      }
    }

    /** Resize: every entry moves to the head of its bucket in a larger list. */
    method Resize()
      requires Buckets(list, members) && IdsDiffer(members) && elems == |members|
      modifies this
      ensures Valid() && members == old(members)
    {
      var newLength := 4;
      while newLength < elems
        invariant newLength > 0 && PowerOfTwo(newLength)
        invariant list == old(list) && members == old(members) && elems == old(elems)
      {
        newLength := newLength * 2;
      }
      var newList: seq<seq<Handle>> := seq(newLength, _ => []);
      ghost var moved: set<Handle> := {};
      var i := 0;
      while i < |list|
        invariant list == old(list) && members == old(members) && elems == old(elems)
        invariant i <= |list| && |newList| == newLength && Buckets(newList, moved)
        invariant moved <= members && forall h :: h in members ==> (h in moved <==> Slot(h.hash, |list|) < i)
      {
        newList, moved := MoveBucket(i, newList, moved);
        i := i + 1;
      }
      assert moved == members;
      list := newList;
    }

    method MoveBucket(i: nat, newList0: seq<seq<Handle>>, ghost moved0: set<Handle>)
        returns (newList: seq<seq<Handle>>, ghost moved: set<Handle>)
      requires Buckets(list, members) && i < |list| && Buckets(newList0, moved0) && moved0 <= members
      requires forall h :: h in members ==> (h in moved0 <==> Slot(h.hash, |list|) < i)
      ensures |newList| == |newList0| && Buckets(newList, moved) && moved <= members
      ensures forall h :: h in members ==> (h in moved <==> Slot(h.hash, |list|) < i + 1)
    {
      newList, moved := newList0, moved0;
      var bucket := list[i];
      var j := 0;
      while j < |bucket|
        invariant j <= |bucket| && |newList| == |newList0| && Buckets(newList, moved) && moved <= members
        invariant forall h :: h in moved <==> h in moved0 || h in bucket[..j]
      {
        var h := bucket[j];
        TakeOneMore(bucket, j);
        assert h !in moved;
        var b := Slot(h.hash, |newList|);
        HeadOfBucket(newList, moved, b, h);
        newList := newList[b := [h] + newList[b]];
        moved := moved + {h};
        j := j + 1;
      }
      assert bucket[..j] == bucket;
    }
  }

  lemma ReplaceInBucket(list: seq<seq<Handle>>, members: set<Handle>, b: nat, i: nat, h: Handle)
    requires Buckets(list, members) && IdsDiffer(members) && b < |list| && i < |list[b]| && h !in members
    requires IdOf(list[b][i]) == IdOf(h) && list[b][i] in members
    ensures Buckets(list[b := list[b][i := h]], members - {list[b][i]} + {h})
    ensures IdsDiffer(members - {list[b][i]} + {h}) && |members - {list[b][i]} + {h}| == |members|
  {
    var bucket, out := list[b], list[b][i];
    var bucket' := bucket[i := h];
    forall g ensures g in bucket' <==> g == h || (g in bucket && g != out) {
      if g in bucket && g != out {
        var j :| 0 <= j < |bucket| && bucket[j] == g;
        assert bucket'[j] == g;
      }
      assert bucket'[i] == h;
    }
  }

  lemma PushToBucket(list: seq<seq<Handle>>, members: set<Handle>, b: nat, h: Handle)
    requires Buckets(list, members) && IdsDiffer(members) && b < |list| && b == Slot(h.hash, |list|) && h !in members
    requires forall g :: g in members ==> IdOf(g) != IdOf(h)
    ensures Buckets(list[b := list[b] + [h]], members + {h})
    ensures IdsDiffer(members + {h}) && |members + {h}| == |members| + 1
  {
  }

  lemma HeadOfBucket(list: seq<seq<Handle>>, members: set<Handle>, b: nat, h: Handle)
    requires Buckets(list, members) && b < |list| && b == Slot(h.hash, |list|) && h !in members
    ensures Buckets(list[b := [h] + list[b]], members + {h})
  {
  }

  lemma RemoveFromBucket(list: seq<seq<Handle>>, members: set<Handle>, b: nat, i: nat)
    requires Buckets(list, members) && IdsDiffer(members) && b < |list| && i < |list[b]|
    ensures list[b][i] in members && Buckets(list[b := list[b][..i] + list[b][i + 1..]], members - {list[b][i]})
    ensures IdsDiffer(members - {list[b][i]}) && |members - {list[b][i]}| == |members| - 1
  {
    var bucket, out := list[b], list[b][i];
    var bucket' := bucket[..i] + bucket[i + 1..];
    forall g ensures g in bucket' <==> g in bucket && g != out {
      if g in bucket && g != out {
        var j :| 0 <= j < |bucket| && bucket[j] == g;
        assert bucket'[if j < i then j else j - 1] == g;
      }
    }
  }
}
