/** The memtable (db/memtable.cc): entries encoded into one buffer each, kept by a skip list in
    internal key order, and looked up by seeking. */
module MemTables {
  import opened Coding
  import opened Comparators
  import InternalKeys
  import SkipLists

  datatype MemEntry = MemEntry(seqno: nat, kind: Byte, key: Bytes, value: Bytes)

  predicate EntryOk(e: MemEntry) {
    e.seqno <= InternalKeys.MAX_SEQUENCE && e.kind <= 1 && |e.key| + 8 < TWO32 && |e.value| < TWO32
  }

  function InternalKeyOf(e: MemEntry): (k: Bytes)
    requires EntryOk(e)
    ensures IsInternal(k) && UserOf(k) == e.key && |k| == |e.key| + 8
  {
    WithTag(e.key, e.seqno * 256 + e.kind)
  }

  function EncodeEntry(e: MemEntry): Bytes
    requires EntryOk(e)
  {
    PutLengthPrefixed(InternalKeyOf(e)) + PutLengthPrefixed(e.value)
  }

  lemma TagComesBack(user: Bytes, tag: nat)
    requires tag < TWO64
    ensures TagOf(WithTag(user, tag)) == tag
  {
    Fixed64RoundTrip(tag, []);
    assert (user + EncodeFixed64(tag))[|user|..] == EncodeFixed64(tag) + [];
  }

  /** ParseInternalKey: sequence number, type and user key; other types are refused. */
  function ParseInternalKey(k: Bytes): Option<(nat, Byte, Bytes)> {
    if |k| < 8 then None
    else
      var num := TagOf(k);
      if num % 256 <= 1 then Some((num / 256, num % 256, UserOf(k))) else None
  }

  /** Parsing undoes packing. */
  lemma ParseRoundTrip(e: MemEntry)
    requires EntryOk(e)
    ensures ParseInternalKey(InternalKeyOf(e)) == Some((e.seqno, e.kind, e.key))
  {
    TagComesBack(e.key, e.seqno * 256 + e.kind);
  }

  // ---- What a lookup finds -----------------------------------------------------------------------

  predicate VisibleAt(e: MemEntry, user: Bytes, s: nat) { e.key == user && e.seqno <= s }

  ghost predicate IsNewest(es: seq<MemEntry>, user: Bytes, s: nat, i: nat) {
    && i < |es| && VisibleAt(es[i], user, s)
    && forall j :: 0 <= j < |es| && VisibleAt(es[j], user, s) ==> es[j].seqno <= es[i].seqno
  }

  datatype Outcome = Found(value: Bytes) | Deleted | Missing

  function OutcomeOf(e: MemEntry): Outcome { if e.kind == 1 then Found(e.value) else Deleted }

  /** The outcome of the newest visible entry; Missing if there is none. */
  ghost predicate Answers(es: seq<MemEntry>, user: Bytes, s: nat, r: Outcome) {
    || (r == Missing && forall i :: 0 <= i < |es| ==> !VisibleAt(es[i], user, s))
    || exists i: nat :: IsNewest(es, user, s, i) && r == OutcomeOf(es[i])
  }

  ghost predicate AllOk(es: seq<MemEntry>) { forall i :: 0 <= i < |es| ==> EntryOk(es[i]) }

  ghost predicate InOrder(es: seq<MemEntry>)
    requires AllOk(es)
  {
    forall i, j :: 0 <= i < j < |es| ==> InternalLess(InternalKeyOf(es[i]), InternalKeyOf(es[j]))
  }

  /** LookupKey: the memtable form, a length-prefixed internal key that comes before every entry
      the reader may see. */
  function LookupKey(user: Bytes, s: nat): Bytes
    requires s <= InternalKeys.MAX_SEQUENCE
  {
    WithTag(user, s * 256 + 1)
  }

  /** An entry against the key looked up. */
  lemma AgainstLookup(e: MemEntry, user: Bytes, s: nat)
    requires EntryOk(e) && s <= InternalKeys.MAX_SEQUENCE
    ensures e.key == user ==> (InternalLess(InternalKeyOf(e), LookupKey(user, s)) <==> e.seqno > s)
    ensures e.key != user ==> (InternalLess(InternalKeyOf(e), LookupKey(user, s)) <==> LexLess(e.key, user))
  {
    TagComesBack(e.key, e.seqno * 256 + e.kind);
    TagComesBack(user, s * 256 + 1);
    LexTrichotomy(user, user);
  }

  lemma TwoEntries(a: MemEntry, b: MemEntry)
    requires EntryOk(a) && EntryOk(b) && InternalLess(InternalKeyOf(a), InternalKeyOf(b))
    ensures if a.key == b.key then a.seqno >= b.seqno else LexLess(a.key, b.key)
  {
    TagComesBack(a.key, a.seqno * 256 + a.kind);
    TagComesBack(b.key, b.seqno * 256 + b.kind);
    LexTrichotomy(a.key, b.key);
  }

  /** Where the seek stops decides the lookup: no entry of the key before it may be seen, and if
      the entry found has another key, none after it either. */
  lemma SeekDecides(es: seq<MemEntry>, user: Bytes, s: nat, p: nat)
    requires AllOk(es) && InOrder(es) && s <= InternalKeys.MAX_SEQUENCE && p <= |es|
    requires forall i :: 0 <= i < p ==> InternalLess(InternalKeyOf(es[i]), LookupKey(user, s))
    requires forall i :: p <= i < |es| ==> !InternalLess(InternalKeyOf(es[i]), LookupKey(user, s))
    ensures Answers(es, user, s, if p < |es| && es[p].key == user then OutcomeOf(es[p]) else Missing)
  {
    forall i | 0 <= i < |es| && VisibleAt(es[i], user, s)
      ensures p <= i && es[p].key == user && es[i].seqno <= es[p].seqno
    {
      AgainstLookup(es[i], user, s);
      AgainstLookup(es[p], user, s);
      if p < i {
        TwoEntries(es[p], es[i]);
      }
    }
    if p < |es| && es[p].key == user {
      AgainstLookup(es[p], user, s);
      assert IsNewest(es, user, s, p);
    }
  }

  // ---- The table --------------------------------------------------------------------------------------

  /** The list of nodes stands for the entries: each under the rank of its internal key, which
      names its buffer. */
  ghost predicate Represents(ns: seq<SkipLists.Node>, buffers: map<real, Bytes>, es: seq<MemEntry>) {
    && |ns| == |es| && AllOk(es)
    && forall i {:trigger ns[i]} :: 0 <= i < |ns| ==> Stored(ns[i].key, buffers, es[i])
  }

  ghost predicate Stored(rank: real, buffers: map<real, Bytes>, e: MemEntry) {
    EntryOk(e) && rank == InternalRank(InternalKeyOf(e)) && rank in buffers && buffers[rank] == EncodeEntry(e)
  }

  lemma RanksInOrder(ns: seq<SkipLists.Node>, buffers: map<real, Bytes>, es: seq<MemEntry>)
    requires Represents(ns, buffers, es) && SkipLists.SortedNodes(ns)
    ensures InOrder(es)
  {
    forall i, j | 0 <= i < j < |es| ensures InternalLess(InternalKeyOf(es[i]), InternalKeyOf(es[j])) {
      assert Stored(ns[i].key, buffers, es[i]) && Stored(ns[j].key, buffers, es[j]);
      InternalRankIsOrder(InternalKeyOf(es[i]), InternalKeyOf(es[j]));
    }
  }

  lemma SplitByKey(ns: seq<SkipLists.Node>, buffers: map<real, Bytes>, es: seq<MemEntry>, k: Bytes, p: nat)
    requires Represents(ns, buffers, es) && IsInternal(k) && SkipLists.Splits(ns, InternalRank(k), p)
    ensures forall i :: 0 <= i < p ==> InternalLess(InternalKeyOf(es[i]), k)
    ensures forall i :: p <= i < |es| ==> !InternalLess(InternalKeyOf(es[i]), k)
  {
    forall i | 0 <= i < |es| ensures InternalLess(InternalKeyOf(es[i]), k) <==> i < p {
      assert Stored(ns[i].key, buffers, es[i]);
      InternalRankIsOrder(InternalKeyOf(es[i]), k);
    }
  }

  lemma SameRankSameParts(k: Bytes, m: Bytes)
    requires IsInternal(k) && IsInternal(m) && InternalRank(k) == InternalRank(m)
    ensures UserOf(k) == UserOf(m) && TagOf(k) == TagOf(m)
  {
    InternalRankIsOrder(k, m);
    InternalRankIsOrder(m, k);
    LexTrichotomy(UserOf(k), UserOf(m));
  }

  /** Two entries share a rank only if they share user key, sequence number and type. */
  lemma RankNames(a: MemEntry, b: MemEntry)
    requires EntryOk(a) && EntryOk(b) && InternalRank(InternalKeyOf(a)) == InternalRank(InternalKeyOf(b))
    ensures a.key == b.key && a.seqno == b.seqno && a.kind == b.kind
  {
    SameRankSameParts(InternalKeyOf(a), InternalKeyOf(b));
    TagComesBack(a.key, a.seqno * 256 + a.kind);
    TagComesBack(b.key, b.seqno * 256 + b.kind);
  }

  /** The table's comparator tells the two apart. */
  predicate SomethingDiffers(a: MemEntry, b: MemEntry) { a.key != b.key || a.seqno != b.seqno || a.kind != b.kind }

  ghost function Inserted(es: seq<MemEntry>, p: nat, e: MemEntry): seq<MemEntry>
    requires p <= |es|
  {
    es[..p] + [e] + es[p..]
  }

  class MemTable {
    const table: SkipLists.SkipList
    var buffers: map<real, Bytes>     // the arena, by the rank of the key each buffer begins with
    ghost var entries: seq<MemEntry>  // in table order

    ghost predicate Valid()
      reads this, table, table.head, table.nodes
    {
      table.Valid() && Represents(table.levels[0], buffers, entries)
    }

    constructor ()
      ensures Valid() && entries == [] && fresh(table) && fresh(table.head) && fresh(table.nodes)
    {
      table := new SkipLists.SkipList();
      buffers, entries := map[], [];
    }

    /** MemTable::Add: fills a buffer of exactly the computed length and links it into the table. */
    method Add(e: MemEntry, height: nat)
      requires Valid() && EntryOk(e) && 1 <= height <= SkipLists.MAX_HEIGHT
      requires forall i :: 0 <= i < |entries| ==> SomethingDiffers(entries[i], e)
      modifies this, table, table.head, table.nodes
      ensures Valid() && fresh(table.nodes - old(table.nodes))
      ensures exists p :: 0 <= p <= |old(entries)| && entries == Inserted(old(entries), p, e)
    {
      var buf := Fill(e);
      var rank := InternalRank(InternalKeyOf(e));
      ghost var ns, es, bs := table.levels[0], entries, buffers;
      IsNew(ns, bs, es, e);
      table.Insert(rank, height);
      ghost var p :| 0 <= p <= |ns| && SkipLists.Splits(ns, rank, p)
                     && table.Keys() == SkipLists.KeysOf(ns)[..p] + [rank] + SkipLists.KeysOf(ns)[p..];
      buffers := buffers[rank := buf];
      entries := Inserted(es, p, e);
      Placed(ns, bs, es, table.levels[0], buffers, e, p);
    }

    /** MemTable::Get. */
    method Get(user: Bytes, s: nat) returns (r: Outcome)
      requires Valid() && s <= InternalKeys.MAX_SEQUENCE
      ensures Answers(entries, user, s, r)
    {
      var iter := new SkipLists.Iterator(table);
      iter.Seek(InternalRank(LookupKey(user, s)));
      SplitByKey(table.levels[0], buffers, entries, LookupKey(user, s), iter.index);
      RanksInOrder(table.levels[0], buffers, entries);
      SeekDecides(entries, user, s, iter.index);
      if iter.node == null {
        return Missing;
      }
      ghost var e := entries[iter.index];
      assert Stored(table.levels[0][iter.index].key, buffers, e);
      EntryReads(e);
      r := ReadEntry(buffers[iter.node.key], user, e, InternalKeyOf(e), PutLengthPrefixed(e.value));
    }
  }

  /** The buffer of an entry, filled part by part. */
  method Fill(e: MemEntry) returns (buf: Bytes)
    requires EntryOk(e)
    ensures buf == EncodeEntry(e)
  {
    var keySize, valSize := |e.key| + 8, |e.value|;
    var n := VarintLength(keySize);
    var m := VarintLength(valSize);
    ghost var encodedLen := n + keySize + m + valSize;
    buf := EncodeVarint32(keySize);
    buf := buf + e.key;
    buf := buf + EncodeFixed64(e.seqno * 256 + e.kind);
    buf := buf + EncodeVarint32(valSize);
    buf := buf + e.value;
    EncodeVarint32IsVarint(keySize);
    EncodeVarint32IsVarint(valSize);
    assert |buf| == encodedLen;
    InFiveParts(EncodeVarint32(keySize), e.key, EncodeFixed64(e.seqno * 256 + e.kind), EncodeVarint32(valSize), e.value);
  }

  lemma InFiveParts(a: Bytes, b: Bytes, c: Bytes, d: Bytes, e: Bytes)
    ensures a + b + c + d + e == a + (b + c) + (d + e)
  {
  }

  /** What stands in a buffer. */
  lemma EntryReads(e: MemEntry)
    requires EntryOk(e)
    ensures GetLengthPrefixed(EncodeEntry(e)) == Some((InternalKeyOf(e), PutLengthPrefixed(e.value)))
    ensures GetLengthPrefixed(PutLengthPrefixed(e.value)) == Some((e.value, []))
    ensures TagOf(InternalKeyOf(e)) == e.seqno * 256 + e.kind
  {
    LengthPrefixedRoundTrip(InternalKeyOf(e), PutLengthPrefixed(e.value));
    LengthPrefixedRoundTrip(e.value, []);
    assert PutLengthPrefixed(e.value) + [] == PutLengthPrefixed(e.value);
    TagComesBack(e.key, e.seqno * 256 + e.kind);
  }

  /** What Get makes of the entry it finds: a key, its tag, and a value. */
  method ReadEntry(entry: Bytes, user: Bytes, ghost e: MemEntry, ghost k: Bytes, ghost v: Bytes) returns (r: Outcome)
    requires GetLengthPrefixed(entry) == Some((k, v)) && IsInternal(k) && UserOf(k) == e.key
    requires TagOf(k) == e.seqno * 256 + e.kind && e.kind <= 1 && GetLengthPrefixed(v) == Some((e.value, []))
    ensures r == if e.key == user then OutcomeOf(e) else Missing
  {
    var parts := GetLengthPrefixed(entry).value;
    if UserOf(parts.0) != user {
      return Missing;
    }
    var kind := TagOf(parts.0) % 256;
    assert kind == e.kind;
    if kind == 1 {
      return Found(GetLengthPrefixed(parts.1).value.0);
    }
    return if kind == 0 then Deleted else Missing;
  }

  lemma IsNew(ns: seq<SkipLists.Node>, buffers: map<real, Bytes>, es: seq<MemEntry>, e: MemEntry)
    requires Represents(ns, buffers, es) && EntryOk(e)
    requires forall i :: 0 <= i < |es| ==> SomethingDiffers(es[i], e)
    ensures InternalRank(InternalKeyOf(e)) !in SkipLists.KeysOf(ns)
  {
    forall i | 0 <= i < |ns| ensures ns[i].key != InternalRank(InternalKeyOf(e)) {
      assert Stored(ns[i].key, buffers, es[i]);
      if ns[i].key == InternalRank(InternalKeyOf(e)) {
        RankNames(es[i], e);
      }
    }
  }

  /** The new node stands for the new entry; the others for what they stood for. */
  lemma Placed(ns: seq<SkipLists.Node>, bs: map<real, Bytes>, es: seq<MemEntry>, ns': seq<SkipLists.Node>, bs': map<real, Bytes>,
               e: MemEntry, p: nat)
    requires Represents(ns, bs, es) && EntryOk(e) && p <= |ns|
    requires InternalRank(InternalKeyOf(e)) !in SkipLists.KeysOf(ns)
    requires bs' == bs[InternalRank(InternalKeyOf(e)) := EncodeEntry(e)]
    requires SkipLists.KeysOf(ns') == SkipLists.KeysOf(ns)[..p] + [InternalRank(InternalKeyOf(e))] + SkipLists.KeysOf(ns)[p..]
    ensures Represents(ns', bs', Inserted(es, p, e))
  {
    var es', rank := Inserted(es, p, e), InternalRank(InternalKeyOf(e));
    assert |ns'| == |SkipLists.KeysOf(ns')| == |es'|;
    forall i {:trigger ns'[i]} | 0 <= i < |ns'| ensures Stored(ns'[i].key, bs', es'[i]) {
      assert ns'[i].key == SkipLists.KeysOf(ns')[i];
      if i != p {
        var j := if i < p then i else i - 1;
        assert SkipLists.KeysOf(ns)[j] == ns[j].key && es'[i] == es[j];
        assert Stored(ns[j].key, bs, es[j]);
      }
    }
  }
}
