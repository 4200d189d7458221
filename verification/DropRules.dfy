/** What a compaction may forget (db/db_impl.cc: DoCompactionWork).

    `In` is the set of entries being merged, `Rest` every other entry of the store, `Out`
    the entries written back. The results say exactly when readers cannot tell. */
module DropRules {
  import opened Coding
  import opened InternalKeys
  import opened Lookup

  /** Rule (A): a newer entry of the same user key is already visible at every snapshot. */
  ghost predicate Hidden(In: iset<Entry>, ss: nat, e: Entry) {
    exists h :: h in In && h.User() == e.User() && h.Seq() > e.Seq() && h.Seq() <= ss
  }

  /** The second rule: a deletion marker old enough, with nothing deeper to delete. */
  ghost predicate Obsolete(base: UserKey -> bool, ss: nat, e: Entry) {
    !e.IsValue() && e.Seq() <= ss && base(e.User())
  }

  ghost function Kept(In: iset<Entry>, ss: nat, base: UserKey -> bool): iset<Entry> {
    iset e | e in In && !Hidden(In, ss, e) && !Obsolete(base, ss, e)
  }

  lemma UniqueSubset(S: iset<Entry>, T: iset<Entry>)
    requires Unique(S) && T <= S
    ensures Unique(T)
  {
  }

  /** Key k loses its tombstone while an older value survives outside the inputs. */
  ghost predicate Resurrects(Rest: iset<Entry>, In: iset<Entry>, ss: nat, base: UserKey -> bool, k: UserKey) {
    base(k)
    && exists n, r :: Newest(Rest + In, k, ss, n) && n in In && !n.IsValue()
                   && Newest(Rest, k, ss, r) && r.IsValue()
  }

  /** Reads at s >= ss: what the drop rules do to the newest visible entry. */
  lemma NewestAfterDrops(Rest: iset<Entry>, In: iset<Entry>, ss: nat, base: UserKey -> bool, k: UserKey, s: nat, n: Entry)
    requires Unique(Rest + In) && Rest !! In && s >= ss && Newest(Rest + In, k, s, n)
    ensures n in Rest || !Obsolete(base, ss, n) ==> NewestOf(Rest + Kept(In, ss, base), k, s) == Some(n)
    ensures n in In && Obsolete(base, ss, n) ==>
            NewestOf(Rest + Kept(In, ss, base), k, s) == NewestOf(Rest, k, s)
  {
    var Out := Kept(In, ss, base);
    UniqueSubset(Rest + In, Rest + Out);
    UniqueSubset(Rest + In, Rest);
    if n in Rest || !Obsolete(base, ss, n) {
      assert n in Rest + Out;
      NewestIs(Rest + Out, k, s, n);
    } else {
      forall y | y in Out ensures !Visible(y, k, s) {
        assert y in In && y != n && !Hidden(In, ss, y);
      }
      forall e ensures Newest(Rest + Out, k, s, e) <==> Newest(Rest, k, s, e) {
      }
      SameNewest(Rest + Out, Rest, k, s);
    }
  }

  lemma NothingVisibleStaysSo(S: iset<Entry>, T: iset<Entry>, k: UserKey, s: nat)
    requires T <= S && NewestOf(S, k, s).None?
    ensures NewestOf(T, k, s).None?
  {
    match NewestOf(T, k, s)
    case Some(e) => NewestExists(S, k, s, e);
    case None =>
  }

  /** At one key: dropping changes some read at or above ss exactly when the key resurrects. */
  lemma ReadChangesIffResurrects(Rest: iset<Entry>, In: iset<Entry>, ss: nat, base: UserKey -> bool, k: UserKey, s: nat)
    requires Unique(Rest + In) && Rest !! In && s >= ss
    ensures Read(Rest + Kept(In, ss, base), k, s) != Read(Rest + In, k, s) ==> Resurrects(Rest, In, ss, base, k)
    ensures s == ss && Resurrects(Rest, In, ss, base, k) ==>
            Read(Rest + Kept(In, ss, base), k, s) != Read(Rest + In, k, s)
  {
    var Out := Kept(In, ss, base);
    UniqueSubset(Rest + In, Rest);
    match NewestOf(Rest + In, k, s)
    case None =>
      NothingVisibleStaysSo(Rest + In, Rest + Out, k, s);
    case Some(n) =>
      NewestAfterDrops(Rest, In, ss, base, k, s, n);
      if s == ss && Resurrects(Rest, In, ss, base, k) {
        var m, r :| Newest(Rest + In, k, ss, m) && m in In && !m.IsValue() && Newest(Rest, k, ss, r) && r.IsValue();
        NewestIs(Rest + In, k, ss, m);
        NewestIs(Rest, k, ss, r);
      }
      if n in In && Obsolete(base, ss, n) && Read(Rest, k, s).Some? {
        var r := NewestOf(Rest, k, s).value;
        assert Newest(Rest + In, k, ss, n);
        assert Newest(Rest, k, ss, r);
      }
  }

  /** The two drop rules are invisible to every reader at or above the smallest snapshot if
      and only if no key resurrects. */
  lemma DropsInvisibleIff(Rest: iset<Entry>, In: iset<Entry>, ss: nat, base: UserKey -> bool)
    requires Unique(Rest + In) && Rest !! In
    ensures (forall k, s: nat :: s >= ss ==> Read(Rest + Kept(In, ss, base), k, s) == Read(Rest + In, k, s))
       <==> (forall k :: !Resurrects(Rest, In, ss, base, k))
  {
    forall k, s: nat | s >= ss
      ensures Read(Rest + Kept(In, ss, base), k, s) != Read(Rest + In, k, s) ==> Resurrects(Rest, In, ss, base, k)
    {
      ReadChangesIffResurrects(Rest, In, ss, base, k, s);
    }
    forall k | Resurrects(Rest, In, ss, base, k)
      ensures Read(Rest + Kept(In, ss, base), k, ss) != Read(Rest + In, k, ss)
    {
      ReadChangesIffResurrects(Rest, In, ss, base, k, ss);
    }
  }
}
