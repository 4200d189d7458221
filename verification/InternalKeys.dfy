/** Internal keys and their order (db/dbformat.h, db/dbformat.cc).

    A user key is represented by its rank in the user comparator's order, a real number.
    The store never looks at a user key except through that comparator, and every total
    order on the countable set of byte strings embeds in the reals, so no comparator is
    excluded; the reals are dense, so no proof can lean on a "next" key. */
module InternalKeys {
  import opened Coding

  type UserKey = real

  type Value = Bytes

  datatype ValueType = TypeDeletion | TypeValue

  const MAX_SEQUENCE: nat := 0xFF_FFFF_FFFF_FFFF
  type SequenceNumber = x: nat | x <= MAX_SEQUENCE

  datatype InternalKey = InternalKey(user: UserKey, seqno: SequenceNumber, kind: ValueType)

  datatype Entry = Entry(ikey: InternalKey, value: Value) {
    function User(): UserKey { ikey.user }
    function Seq(): SequenceNumber { ikey.seqno }
    predicate IsValue() { ikey.kind == TypeValue }
  }

  /** One operation of a write batch. */
  datatype Op = Put(key: UserKey, value: Value) | Delete(key: UserKey)

  /** The trailer of an internal key: sequence number and type in one number. */
  function Packed(k: InternalKey): nat {
    k.seqno * 256 + if k.kind == TypeValue then 1 else 0
  }

  /** InternalKeyComparator: user key ascending, then packed trailer descending. */
  predicate Less(a: InternalKey, b: InternalKey) {
    a.user < b.user || (a.user == b.user && Packed(a) > Packed(b))
  }

  lemma LessIsStrictTotalOrder(a: InternalKey, b: InternalKey, c: InternalKey)
    ensures !Less(a, a)
    ensures Less(a, b) && Less(b, c) ==> Less(a, c)
    ensures Less(a, b) || Less(b, a) || a == b
  {
  }

  /** The key a reader at snapshot `s` seeks to: the earliest key of `k` it may see. */
  function LookupKey(k: UserKey, s: SequenceNumber): InternalKey {
    InternalKey(k, s, TypeValue)
  }

  /** Seeking to LookupKey(k, s) skips exactly the entries of smaller user keys and the
      entries of k that are newer than s. */
  lemma SeekSkipsInvisible(x: InternalKey, k: UserKey, s: SequenceNumber)
    ensures Less(x, LookupKey(k, s)) <==> x.user < k || (x.user == k && x.seqno > s)
  {
  }

  /** `a` comes before `b` and the two never share both user key and sequence number. */
  predicate Before(a: InternalKey, b: InternalKey) {
    a.user < b.user || (a.user == b.user && a.seqno > b.seqno)
  }

  /** Strictly increasing runs of entries: memtables, table files, merged inputs. */
  predicate SortedEntries(es: seq<Entry>) {
    forall i, j :: 0 <= i < j < |es| ==> Before(es[i].ikey, es[j].ikey)
  }

  /** The position of the first entry at or after `target`: what every Seek must reach. */
  function LowerBound(es: seq<Entry>, target: InternalKey): (i: nat)
    ensures i <= |es|
    ensures forall j :: 0 <= j < i ==> Less(es[j].ikey, target)
    ensures i < |es| ==> !Less(es[i].ikey, target)
  {
    if es == [] || !Less(es[0].ikey, target) then 0 else 1 + LowerBound(es[1..], target)
  }

  lemma LowerBoundSplits(es: seq<Entry>, target: InternalKey)
    requires SortedEntries(es)
    ensures forall j :: LowerBound(es, target) <= j < |es| ==> !Less(es[j].ikey, target)
  {
    var i := LowerBound(es, target);
    forall j | i <= j < |es| ensures !Less(es[j].ikey, target) {
      if i < j { assert Before(es[i].ikey, es[j].ikey); }
    }
  }
}
