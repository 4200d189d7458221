/** One shard of the LRU cache (util/cache.cc: LRUCache): reference counts, the two lists, the
    charge in use and eviction. */
module LRUCaches {
  import opened Coding
  import opened HandleTables

  function Without(s: seq<Handle>, e: Handle): seq<Handle> {
    if |s| == 0 then [] else if s[0] == e then Without(s[1..], e) else [s[0]] + Without(s[1..], e)
  }

  function Charges(s: seq<Handle>): nat { if |s| == 0 then 0 else s[0].charge + Charges(s[1..]) }

  /** The entries under another key. */
  function Others(members: set<Handle>, id: Id): set<Handle> { set h | h in members && IdOf(h) != id }

  function WithoutReplaced(s: seq<Handle>, replaced: Handle?): seq<Handle> {
    if replaced == null then s else Without(s, replaced)
  }

  /** The usage once a new entry is in, before anything is evicted. */
  function UsageWith(usage: nat, charge: nat, replaced: Handle?, capacity: nat): int {
    usage + (if capacity > 0 then charge else 0) - ChargeOf(replaced)
  }

  function ChargeOf(h: Handle?): nat { if h == null then 0 else h.charge }

  /** The entries once e is in, before anything is evicted. Capacity zero turns caching off. */
  function MembersAfter(members: set<Handle>, e: Handle, capacity: nat): set<Handle> {
    if capacity > 0 then Others(members, IdOf(e)) + {e} else members
  }

  lemma {:induction false} WithoutMembers(s: seq<Handle>, e: Handle)
    ensures forall h :: h in Without(s, e) <==> h in s && h != e
  {
    if |s| > 0 {
      WithoutMembers(s[1..], e);
      assert s == [s[0]] + s[1..];
    }
  }

  lemma {:induction false} WithoutDistinct(s: seq<Handle>, e: Handle)
    requires NoDuplicates(s)
    ensures NoDuplicates(Without(s, e))
  {
    if |s| > 0 {
      WithoutDistinct(s[1..], e);
      WithoutMembers(s[1..], e);
      var rest := Without(s[1..], e);
      forall j | 0 <= j < |rest| ensures rest[j] != s[0] {
        assert rest[j] in rest;
      }
    }
  }

  lemma {:induction false} WithoutAbsent(s: seq<Handle>, e: Handle)
    requires e !in s
    ensures Without(s, e) == s
  {
    if |s| > 0 {
      WithoutAbsent(s[1..], e);
      assert s == [s[0]] + s[1..];
    }
  }

  lemma {:induction false} WithoutCharges(s: seq<Handle>, e: Handle)
    requires NoDuplicates(s) && e in s
    ensures Charges(Without(s, e)) == Charges(s) - e.charge && Charges(s) >= e.charge
  {
    assert s == [s[0]] + s[1..];
    if s[0] == e {
      WithoutAbsent(s[1..], e);
    } else {
      WithoutCharges(s[1..], e);
    }
  }

  lemma {:induction false} ChargesAppend(s: seq<Handle>, e: Handle)
    ensures Charges(s + [e]) == Charges(s) + e.charge
  {
    if |s| > 0 {
      ChargesAppend(s[1..], e);
      assert (s + [e])[1..] == s[1..] + [e];
    }
  }

  class LRUCache {
    const capacity: nat
    var usage: nat
    var lru: seq<Handle>          // oldest first
    var inUse: seq<Handle>
    const table: HandleTable
    ghost var handles: set<Handle>          // every handle ever made
    ghost var held: multiset<Handle>        // the references that clients have not released

    /** What each handle's fields say, given which references are out. */
    ghost predicate CountsAgree()
      reads this, handles
    {
      && (forall h :: h in held ==> h in handles)
      && forall h :: h in handles ==>
           h.refs == held[h] + (if h.inCache then 1 else 0) && h.deleterRuns == if h.refs == 0 then 1 else 0
    }

    /** Every cached handle, but for `off`, which has just been taken off, is on exactly one list,
        the one that the references given out dictate. */
    ghost predicate ListsMatch(out: multiset<Handle>, off: set<Handle>)
      reads this, handles
    {
      && NoDuplicates(lru) && NoDuplicates(inUse) && usage == Charges(lru) + Charges(inUse)
      && (forall h :: h in lru ==> h in handles) && (forall h :: h in inUse ==> h in handles)
      && (forall h :: h in handles ==> (h in lru <==> h.inCache && h !in off && out[h] == 0))
      && (forall h :: h in handles ==> (h in inUse <==> h.inCache && h !in off && out[h] > 0))
    }

    ghost predicate ListsAgree()
      reads this, handles
    {
      ListsMatch(held, {})
    }

    /** The table holds exactly the cached handles, but for `taken`, which has just been taken
        out of it. */
    ghost predicate TableAgrees(taken: set<Handle>)
      reads this, handles, table
    {
      && table.Valid() && (forall h :: h in table.members ==> h in handles)
      && forall h :: h in handles ==> (h in table.members <==> h.inCache && h !in taken)
    }

    ghost predicate Valid()
      reads this, handles, table
    {
      CountsAgree() && ListsAgree() && TableAgrees({})
    }

    constructor (capacity: nat)
      ensures Valid() && this.capacity == capacity && handles == {} && held == multiset{} && fresh(table)
    {
      this.capacity, usage, lru, inUse := capacity, 0, [], [];
      table := new HandleTable();
      handles, held := {}, multiset{};
    }

    // ---- References ------------------------------------------------------------------

    /** Ref: a handle that gets its first client leaves the LRU list. */
    method Ref(e: Handle)
      requires CountsAgree() && ListsAgree() && e in handles && e.inCache
      modifies this`lru, this`inUse, this`held, e`refs
      ensures CountsAgree() && ListsAgree() && held == old(held) + multiset{e} && lru == Without(old(lru), e)
    {
      if e !in lru { WithoutAbsent(lru, e); }
      if e.refs == 1 && e.inCache {
        BecomeUsed(e);
      }
      assert ListsMatch(held + multiset{e}, {});
      CountUp(e);
    }

    method BecomeUsed(e: Handle)
      requires ListsAgree() && e in handles && e.inCache && held[e] == 0
      modifies this`lru, this`inUse
      ensures ListsMatch(held + multiset{e}, {}) && lru == Without(old(lru), e)
    {
      MovesBetweenLists(lru, inUse, e);
      lru := Without(lru, e);
      inUse := inUse + [e];
    }

    method CountUp(e: Handle)
      requires CountsAgree() && e in handles && e.refs > 0
      modifies this`held, e`refs
      ensures CountsAgree() && held == old(held) + multiset{e}
    {
      e.refs := e.refs + 1;
      held := held + multiset{e};
    }

    /** Unref, for a reference a client gives back: at zero the deleter runs, and a cached handle
        without clients becomes the newest of the LRU list. */
    method UnrefClient(e: Handle)
      requires CountsAgree() && ListsAgree() && e in held
      modifies this`lru, this`inUse, this`held, e`refs, e`deleterRuns
      ensures CountsAgree() && ListsAgree() && held == old(held) - multiset{e}
      ensures lru == if e.inCache && old(held)[e] == 1 then old(lru) + [e] else old(lru)
    {
      CountDown(e);
      assert ListsMatch(old(held), {});
      if e.inCache && e.refs == 1 {
        BecomeIdle(e, old(held));
      }
    }

    method CountDown(e: Handle)
      requires CountsAgree() && e in held
      modifies this`held, e`refs, e`deleterRuns
      ensures CountsAgree() && held == old(held) - multiset{e}
    {
      e.refs := e.refs - 1;
      held := held - multiset{e};
      if e.refs == 0 {
        e.deleterRuns := e.deleterRuns + 1;
      }
    }

    method BecomeIdle(e: Handle, ghost before: multiset<Handle>)
      requires ListsMatch(before, {}) && e in handles && e.inCache && before[e] == 1 && held == before - multiset{e}
      modifies this`lru, this`inUse
      ensures ListsAgree() && lru == old(lru) + [e]
    {
      MovesBetweenLists(inUse, lru, e);
      inUse := Without(inUse, e);
      lru := lru + [e];
    }

    method Lookup(key: Bytes, hash: nat) returns (e: Handle?)
      requires Valid()
      modifies this`lru, this`inUse, this`held, handles
      ensures Valid() && handles == old(handles) && table.members == old(table.members)
      ensures e != null ==> e in table.members && IdOf(e) == (key, hash) && held == old(held) + multiset{e}
      ensures e != null ==> lru == Without(old(lru), e)
      ensures e == null ==> held == old(held) && lru == old(lru) && forall h :: h in table.members ==> IdOf(h) != (key, hash)
    {
      e := table.Lookup(key, hash);
      if e != null {
        Ref(e);
      }
    }

    method Release(e: Handle)
      requires Valid() && e in held
      modifies this`lru, this`inUse, this`held, handles
      ensures Valid() && handles == old(handles) && table.members == old(table.members) && held == old(held) - multiset{e}
      ensures lru == if e.inCache && old(held)[e] == 1 then old(lru) + [e] else old(lru)
    {
      UnrefClient(e);
    }

    // ---- Leaving the cache -------------------------------------------------------------

    /** FinishErase: e, already out of the table, leaves the lists; the cache's reference goes
        with it. */
    method FinishErase(e: Handle?) returns (erased: bool)
      requires CountsAgree() && ListsAgree() && (e != null ==> e in handles && e.inCache)
      requires TableAgrees(if e == null then {} else {e})
      modifies this`lru, this`inUse, this`usage, handles
      ensures CountsAgree() && ListsAgree() && TableAgrees({}) && erased == (e != null)
      ensures held == old(held) && handles == old(handles)
      ensures e == null ==> usage == old(usage) && lru == old(lru) && inUse == old(inUse)
      ensures e != null ==> usage == old(usage) - e.charge && lru == Without(old(lru), e) && inUse == Without(old(inUse), e)
      ensures e != null ==> !e.inCache && (e.deleterRuns == 1 <==> held[e] == 0)
    {
      if e != null {
        TakeOffList(e);
        Uncache(e);
      }
      erased := e != null;
    }

    /** LRU_Remove, from whichever list the handle is on. */
    method TakeOffList(e: Handle)
      requires ListsAgree() && e in handles && e.inCache
      modifies this`lru, this`inUse, this`usage
      ensures ListsMatch(held, {e}) && usage == old(usage) - e.charge
      ensures lru == Without(old(lru), e) && inUse == Without(old(inUse), e)
    {
      LeavesLists(lru, inUse, e);
      lru, inUse := Without(lru, e), Without(inUse, e);
      usage := usage - e.charge;
    }

    /** The cache gives its own reference back. */
    method Uncache(e: Handle)
      requires CountsAgree() && ListsMatch(held, {e}) && TableAgrees({e}) && e in handles && e.inCache
      modifies e`inCache, e`refs, e`deleterRuns
      ensures CountsAgree() && ListsAgree() && TableAgrees({})
      ensures !e.inCache && (e.deleterRuns == 1 <==> held[e] == 0)
    {
      e.inCache := false;
      e.refs := e.refs - 1;
      if e.refs == 0 {
        e.deleterRuns := e.deleterRuns + 1;
      }
    }

    /** Removes one entry, if it is there. Clients that hold it keep it. */
    method Erase(key: Bytes, hash: nat)
      requires Valid()
      modifies this`lru, this`inUse, this`usage, handles, table
      ensures Valid() && handles == old(handles) && held == old(held)
      ensures table.members == Others(old(table.members), (key, hash))
    {
      ghost var before := table.members;
      var e := table.Remove(key, hash);
      OneLess(before, e, (key, hash));
      var erased := FinishErase(e);
    }

    /** Evicts the oldest entry that no client holds. */
    method EvictOldest()
      requires Valid() && |lru| > 0
      modifies this`lru, this`inUse, this`usage, handles, table
      ensures Valid() && handles == old(handles) && held == old(held)
      ensures lru == old(lru)[1..] && inUse == old(inUse) && table.members == old(table.members) - {old(lru)[0]}
      ensures usage == old(usage) - old(lru)[0].charge && old(lru)[0].deleterRuns == 1
    {
      var e := lru[0];
      assert e in lru;
      WithoutHead(lru);
      WithoutAbsent(inUse, e);
      var removed := TakeOut(e);
      var erased := FinishErase(removed);
    }

    method TakeOut(e: Handle) returns (removed: Handle?)
      requires table.Valid() && e in table.members
      modifies table
      ensures removed == e && table.Valid() && table.members == old(table.members) - {e}
    {
      removed := table.Remove(e.key, e.hash);
      assert IdOf(e) == (e.key, e.hash);
    }

    /** Prune: everything no client holds is dropped. */
    method Prune()
      requires Valid()
      modifies this`lru, this`inUse, this`usage, handles, table
      ensures Valid() && handles == old(handles) && held == old(held) && lru == [] && inUse == old(inUse)
      ensures table.members == set h | h in old(table.members) && held[h] > 0
    {
      while |lru| > 0
        invariant Valid() && handles == old(handles) && held == old(held) && inUse == old(inUse)
        invariant table.members <= old(table.members)
        invariant forall h :: h in old(table.members) && held[h] > 0 ==> h in table.members
        decreases |lru|
      {
        EvictOldest();
      }
      assert forall h :: h in table.members ==> h in inUse;
    }

    // ---- Inserting -------------------------------------------------------------------

    /** Insert: the new entry replaces one with the same key, and then the oldest unreferenced
        entries go, one by one, only as long as the charge in use exceeds the capacity. */
    method Insert(key: Bytes, hash: nat, value: Bytes, charge: nat)
        returns (e: Handle, ghost replaced: Handle?, ghost evicted: set<Handle>)
      requires Valid()
      modifies this, handles, table
      ensures Valid() && fresh(e) && handles == old(handles) + {e} && held == old(held) + multiset{e}
      ensures IdOf(e) == (key, hash) && e.value == value && e.charge == charge
      ensures usage <= capacity || |lru| == 0
      ensures table.members == MembersAfter(old(table.members), e, capacity) - evicted
      ensures e !in evicted && forall h :: h in evicted ==> held[h] == 0 && h.deleterRuns == 1
      ensures EvictedOldest(WithoutReplaced(old(lru), replaced), lru, UsageWith(old(usage), charge, replaced, capacity), capacity)
    {
      e, replaced := InsertOnly(key, hash, value, charge);
      ghost var lru0, usage0, members0 := lru, usage, table.members;
      evicted := EvictToFit();
      assert EvictedOldest(lru0, lru, usage0, capacity) && table.members == members0 - evicted;
      assert held[e] > 0;
    }

    /** Everything but the eviction. */
    method InsertOnly(key: Bytes, hash: nat, value: Bytes, charge: nat) returns (e: Handle, ghost replaced: Handle?)
      requires Valid()
      modifies this, handles, table
      ensures Valid() && fresh(e) && handles == old(handles) + {e} && held == old(held) + multiset{e}
      ensures IdOf(e) == (key, hash) && e.value == value && e.charge == charge
      ensures table.members == MembersAfter(old(table.members), e, capacity)
      ensures lru == WithoutReplaced(old(lru), replaced)
      ensures usage == UsageWith(old(usage), charge, replaced, capacity)
    {
      e := NewHandle(key, hash, value, charge);
      replaced := null;
      if capacity > 0 {
        replaced := AddToCache(e);
      }
    }

    /** A handle with one reference, the client's. */
    method NewHandle(key: Bytes, hash: nat, value: Bytes, charge: nat) returns (e: Handle)
      requires Valid()
      modifies this`handles, this`held
      ensures Valid() && fresh(e) && handles == old(handles) + {e} && held == old(held) + multiset{e} && held[e] == 1
      ensures !e.inCache && IdOf(e) == (key, hash) && e.value == value && e.charge == charge
    {
      e := new Handle(key, hash, value, charge, 1);
      assert e !in held;
      handles, held := handles + {e}, held + multiset{e};
    }

    /** A new entry with its client's reference gets the cache's too and goes into the table. */
    method AddToCache(e: Handle) returns (ghost replaced: Handle?)
      requires Valid() && e in handles && !e.inCache && held[e] == 1
      modifies this`lru, this`inUse, this`usage, handles, table
      ensures Valid() && handles == old(handles) && held == old(held) && e.inCache
      ensures table.members == Others(old(table.members), IdOf(e)) + {e}
      ensures lru == WithoutReplaced(old(lru), replaced) && usage == old(usage) + e.charge - ChargeOf(replaced)
    {
      Enlist(e);
      var out := PutIn(e);
      replaced := out;
      var erased := FinishErase(out);
    }

    /** Table insertion; what it replaced is still on its list. */
    method PutIn(e: Handle) returns (replaced: Handle?)
      requires CountsAgree() && ListsAgree() && TableAgrees({e}) && e in handles && e.inCache
      modifies table
      ensures TableAgrees(if replaced == null then {} else {replaced})
      ensures replaced != null ==> replaced in handles && replaced.inCache && replaced != e
      ensures table.members == Others(old(table.members), IdOf(e)) + {e}
    {
      ghost var before := table.members;
      replaced := table.Insert(e);
      OneLess(before, replaced, IdOf(e));
      if replaced == null {
        assert TableAgrees({});
      } else {
        assert TableAgrees({replaced});
      }
    }

    method Enlist(e: Handle)
      requires Valid() && e in handles && !e.inCache && held[e] == 1
      modifies this`inUse, this`usage, e
      ensures CountsAgree() && ListsAgree() && TableAgrees({e}) && e.inCache && usage == old(usage) + e.charge
    {
      e.refs := e.refs + 1;
      e.inCache := true;
      ChargesAppend(inUse, e);
      inUse := inUse + [e];
      usage := usage + e.charge;
    }

    method EvictToFit() returns (ghost evicted: set<Handle>)
      requires Valid()
      modifies this`lru, this`inUse, this`usage, handles, table
      ensures Valid() && handles == old(handles) && held == old(held)
      ensures usage <= capacity || lru == []
      ensures evicted <= old(table.members) && table.members == old(table.members) - evicted
      ensures forall h :: h in evicted ==> held[h] == 0 && h.deleterRuns == 1
      ensures EvictedOldest(old(lru), lru, old(usage), capacity)
    {
      ghost var lru0 := lru;
      ghost var k := EvictLoop();
      evicted := Elements(lru0[..k]);
      forall h | h in evicted ensures h in lru0 && h in handles && h !in table.members {
      }
    }

    /** The loop: the oldest goes while the charge is over capacity and there is an oldest. */
    method EvictLoop() returns (ghost k: nat)
      requires Valid()
      modifies this`lru, this`inUse, this`usage, handles, table
      ensures Valid() && handles == old(handles) && held == old(held)
      ensures usage <= capacity || |lru| == 0
      ensures EvictedFirst(old(lru), lru, old(usage), usage, capacity, k)
      ensures table.members == old(table.members) - Elements(old(lru)[..k])
    {
      k := 0;
      ghost var lru0, usage0 := lru, usage;
      while usage > capacity && |lru| > 0
        invariant Valid() && handles == old(handles) && held == old(held)
        invariant EvictedFirst(lru0, lru, usage0, usage, capacity, k)
        invariant table.members == old(table.members) - Elements(lru0[..k])
        decreases |lru|
      {
        EvictStep(lru0, usage0, k, old(table.members));
        k := k + 1;
      }
    }

    method EvictStep(ghost lru0: seq<Handle>, ghost usage0: nat, ghost k: nat, ghost members0: set<Handle>)
      requires Valid() && |lru| > 0 && usage > capacity && EvictedFirst(lru0, lru, usage0, usage, capacity, k)
      requires table.members == members0 - Elements(lru0[..k])
      modifies this`lru, this`inUse, this`usage, handles, table
      ensures Valid() && handles == old(handles) && held == old(held) && |lru| == |old(lru)| - 1
      ensures EvictedFirst(lru0, lru, usage0, usage, capacity, k + 1)
      ensures table.members == members0 - Elements(lru0[..k + 1])
    {
      EvictOneMore(lru0, lru, usage0, usage, capacity, k);
      EvictOldest();
    }
  }

  ghost function Elements(s: seq<Handle>): set<Handle> { set h | h in s }

  /** The first k entries are gone from the list, and the last of them only because the charge
      still exceeded the capacity. */
  ghost predicate EvictedFirst(before: seq<Handle>, after: seq<Handle>, usage0: nat, usage: nat, capacity: nat, k: nat) {
    && k <= |before| && after == before[k..] && usage == usage0 - Charges(before[..k])
    && (k > 0 ==> usage0 - Charges(before[..k - 1]) > capacity)
  }

  lemma EvictOneMore(before: seq<Handle>, after: seq<Handle>, usage0: nat, usage: nat, capacity: nat, k: nat)
    requires EvictedFirst(before, after, usage0, usage, capacity, k) && usage > capacity && |after| > 0
    requires usage >= after[0].charge
    ensures EvictedFirst(before, after[1..], usage0, usage - after[0].charge, capacity, k + 1)
    ensures Elements(before[..k + 1]) == Elements(before[..k]) + {after[0]}
  {
    assert before[..k + 1] == before[..k] + [after[0]];
    ChargesAppend(before[..k], after[0]);
  }

  lemma MovesBetweenLists(from: seq<Handle>, to: seq<Handle>, e: Handle)
    requires NoDuplicates(from) && NoDuplicates(to) && e in from && e !in to
    ensures NoDuplicates(Without(from, e)) && NoDuplicates(to + [e])
    ensures forall h :: h in Without(from, e) <==> h in from && h != e
    ensures forall h :: h in to + [e] <==> h in to || h == e
    ensures Charges(Without(from, e)) + Charges(to + [e]) == Charges(from) + Charges(to)
  {
    WithoutMembers(from, e);
    WithoutDistinct(from, e);
    WithoutCharges(from, e);
    ChargesAppend(to, e);
  }

  lemma LeavesLists(lru: seq<Handle>, inUse: seq<Handle>, e: Handle)
    requires NoDuplicates(lru) && NoDuplicates(inUse) && (e in lru <==> e !in inUse)
    ensures NoDuplicates(Without(lru, e)) && NoDuplicates(Without(inUse, e))
    ensures forall h :: h in Without(lru, e) <==> h in lru && h != e
    ensures forall h :: h in Without(inUse, e) <==> h in inUse && h != e
    ensures Charges(Without(lru, e)) + Charges(Without(inUse, e)) == Charges(lru) + Charges(inUse) - e.charge
  {
    WithoutMembers(lru, e);
    WithoutMembers(inUse, e);
    WithoutDistinct(lru, e);
    WithoutDistinct(inUse, e);
    if e in lru {
      WithoutCharges(lru, e);
      WithoutAbsent(inUse, e);
    } else {
      WithoutCharges(inUse, e);
      WithoutAbsent(lru, e);
    }
  }

  /** Which entries stay when one is taken out or replaced. */
  lemma OneLess(members: set<Handle>, removed: Handle?, id: Id)
    requires IdsDiffer(members)
    requires removed != null ==> removed in members && IdOf(removed) == id
    requires removed == null ==> forall g :: g in members ==> IdOf(g) != id
    ensures Others(members, id) == if removed == null then members else members - {removed}
  {
  }

  lemma WithoutHead(s: seq<Handle>)
    requires |s| > 0 && NoDuplicates(s)
    ensures Without(s, s[0]) == s[1..]
  {
    WithoutAbsent(s[1..], s[0]);
  }

  /** The entries that left are the oldest, and no more of them than it took. */
  ghost predicate EvictedOldest(before: seq<Handle>, after: seq<Handle>, usage0: int, capacity: nat) {
    usage0 >= 0 && exists usage, k :: EvictedFirst(before, after, usage0, usage, capacity, k)
  }
}
