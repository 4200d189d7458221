/** Tables of internal keys: LevelDB's own comparator and Bloom filters meet what the table code
    asks of them. */
module InternalTables {
  import opened Coding
  import opened Comparators
  import opened TableBuilding
  import opened FilterBlocks
  import Bloom

  /** The user key, for what is an internal key. */
  function UserPart(k: Bytes): Bytes { if IsInternal(k) then UserOf(k) else [] }

  function InternalComparator(): Comparator { Comparator(InternalRank, InternalSeparator, InternalSuccessor, UserPart) }

  lemma RankPositiveIffInternal(k: Bytes)
    ensures InternalRank(k) > 0.0 <==> IsInternal(k)
    ensures InternalRank(k) >= 0.0
  {
  }

  lemma SeparatorWorks(a: Bytes, b: Bytes)
    requires InternalRank(a) < InternalRank(b)
    ensures |InternalSeparator(a, b)| <= |a| && Between(InternalComparator(), a, InternalSeparator(a, b), b)
  {
    RankPositiveIffInternal(a);
    RankPositiveIffInternal(b);
    var sep := InternalSeparator(a, b);
    if IsInternal(a) {
      InternalRankIsOrder(a, b);
      InternalSeparatorSeparates(a, b, a);
      InternalRankIsOrder(sep, b);
      InternalRankIsOrder(a, sep);
      forall k {:trigger UserPart(k)} | InternalRank(a) < InternalRank(k) <= InternalRank(sep) ensures UserPart(k) != UserPart(b) {
        BetweenIsAnotherUser(a, b, k);
      }
    }
  }

  lemma BetweenIsAnotherUser(a: Bytes, b: Bytes, k: Bytes)
    requires IsInternal(a) && IsInternal(b) && InternalRank(a) < InternalRank(b)
    requires InternalRank(a) < InternalRank(k) <= InternalRank(InternalSeparator(a, b))
    ensures UserPart(k) != UserPart(b)
  {
    RankPositiveIffInternal(a);
    RankPositiveIffInternal(k);
    var sep := InternalSeparator(a, b);
    InternalRankIsOrder(a, b);
    InternalRankIsOrder(a, k);
    InternalSeparatorSeparates(a, b, k);
    InternalRankIsOrder(sep, k);
  }

  lemma SuccessorWorks(a: Bytes)
    ensures |InternalSuccessor(a)| <= |a| && InternalRank(a) <= InternalRank(InternalSuccessor(a))
  {
    if IsInternal(a) {
      InternalSuccessorIsLater(a);
      InternalRankIsOrder(a, InternalSuccessor(a));
    }
  }

  /** InternalKeyComparator's short keys suit the index block, whatever byte strings it is
      asked about. */
  lemma InternalComparatorShortens()
    ensures Shortens(InternalComparator())
  {
    var c := InternalComparator();
    forall a, b {:trigger c.separator(a, b)} | c.order(a) < c.order(b)
      ensures |c.separator(a, b)| <= |a| && Between(c, a, c.separator(a, b), b)
    {
      SeparatorWorks(a, b);
    }
    forall a {:trigger c.successor(a)} ensures |c.successor(a)| <= |a| && c.order(a) <= c.order(c.successor(a)) {
      SuccessorWorks(a);
    }
  }

  /** A filter block built with Bloom filters on user keys never hides an entry from a lookup of
      its user key in a table of internal keys. */
  lemma BloomFiltersServeInternalTables(hash: Bloom.Hash, bitsPerKey: nat, k: Byte, calls: seq<FilterCall>, groups: seq<seq<Bytes>>)
    requires 1 <= k <= 30 && Complete(calls, groups)
    requires |Filters(BloomPolicy(hash, bitsPerKey, k, UserPart), groups)| < TWO32
    ensures var p := BloomPolicy(hash, bitsPerKey, k, UserPart);
            NoFalseNegatives(calls, InternalComparator().user, (o: nat, key: Bytes) => KeyMayMatch(p, FilterBlock(p, groups), o, key))
  {
    BloomPolicyIsSound(hash, bitsPerKey, k, UserPart);
    ServesTables(BloomPolicy(hash, bitsPerKey, k, UserPart), calls, groups);
  }
}
