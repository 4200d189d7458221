/** The bytewise comparator, internal keys as bytes, and the short keys put into index blocks
    (util/comparator.cc, db/dbformat.cc). */
module Comparators {
  import opened Coding

  /** Slice::compare, as an order. */
  predicate LexLess(a: Bytes, b: Bytes) {
    b != [] && (a == [] || a[0] < b[0] || (a[0] == b[0] && LexLess(a[1..], b[1..])))
  }

  lemma {:induction false} LexTrichotomy(a: Bytes, b: Bytes)
    ensures LexLess(a, b) || a == b || LexLess(b, a)
    ensures !(LexLess(a, b) && LexLess(b, a)) && !LexLess(a, a)
  {
    if a != [] { LexTrichotomy(a[1..], a[1..]); }
    if a != [] && b != [] {
      LexTrichotomy(a[1..], b[1..]);
      assert a == [a[0]] + a[1..] && b == [b[0]] + b[1..];
    }
  }

  // ---- Byte strings as reals -------------------------------------------------------------

  /** A real for a byte string followed by a fraction: bytes are digits 2 to 257 in base 300,
      the end of the string is digit 1. */
  function Rank(s: Bytes, tail: real): (r: real)
    requires 0.0 <= tail < 1.0
    ensures 0.0 < r < 1.0
  {
    if s == [] then (1.0 + tail) / 300.0
    else (s[0] as int as real + 2.0 + Rank(s[1..], tail)) / 300.0
  }

  /** The order of byte strings, ties broken by the fraction, is the order of their reals. So
      user keys can be taken to be reals. */
  lemma {:induction false} RankIsOrder(a: Bytes, s: real, b: Bytes, t: real)
    requires 0.0 <= s < 1.0 && 0.0 <= t < 1.0
    ensures Rank(a, s) < Rank(b, t) <==> LexLess(a, b) || (a == b && s < t)
    ensures Rank(a, s) == Rank(b, t) <==> a == b && s == t
  {
    if a != [] && b != [] {
      RankIsOrder(a[1..], s, b[1..], t);
      assert a == [a[0]] + a[1..] && b == [b[0]] + b[1..];
    }
  }

  // ---- Shortening byte strings -----------------------------------------------------------

  /** Up to where two strings agree, their order is decided later. */
  lemma {:induction false} LexAfterPrefix(a: Bytes, b: Bytes, n: nat)
    requires n <= |a| && n <= |b| && a[..n] == b[..n]
    ensures LexLess(a, b) <==> LexLess(a[n..], b[n..])
    decreases n
  {
    if n > 0 {
      assert a[0] == a[..n][0] == b[..n][0] == b[0];
      assert a[1..][..n - 1] == a[..n][1..] == b[1..][..n - 1];
      LexAfterPrefix(a[1..], b[1..], n - 1);
      assert a[1..][n - 1..] == a[n..] && b[1..][n - 1..] == b[n..];
    } else {
      assert a[0..] == a && b[0..] == b;
    }
  }

  /** Raising the byte at n and cutting after it gives a larger string. */
  lemma RaisedIsLarger(s: Bytes, n: nat)
    requires n < |s| && s[n] < 255
    ensures LexLess(s, s[..n] + [s[n] + 1])
  {
    var r := s[..n] + [s[n] + 1];
    assert r[..n] == s[..n] && r[n..] == [s[n] + 1];
    LexAfterPrefix(s, r, n);
    assert s[n..][0] == s[n];
  }

  lemma RaisedIsBelow(s: Bytes, limit: Bytes, n: nat)
    requires n < |s| && n < |limit| && s[..n] == limit[..n] && s[n] as int + 1 < limit[n] as int
    ensures LexLess(s[..n] + [s[n] + 1], limit)
  {
    var r := s[..n] + [s[n] + 1];
    assert r[..n] == limit[..n] && r[n..] == [s[n] + 1];
    LexAfterPrefix(r, limit, n);
    assert limit[n..][0] == limit[n];
  }

  /** BytewiseComparatorImpl::FindShortestSeparator: between start and limit, never longer
      than start. */
  method FindShortestSeparator(start: Bytes, limit: Bytes) returns (r: Bytes)
    ensures |r| <= |start| && (r == start || LexLess(start, r))
    ensures LexLess(start, limit) ==> LexLess(r, limit)
    ensures r != start ==> LexLess(r, limit)
    ensures r == Separator(start, limit)
  {
    var minLength := if |start| < |limit| then |start| else |limit|;
    var diff := 0;
    while diff < minLength && start[diff] == limit[diff]
      invariant diff <= minLength && start[..diff] == limit[..diff]
      invariant Separator(start, limit) == start[..diff] + Separator(start[diff..], limit[diff..])
    {
      SeparatorSteps(start, limit, diff);
      diff := diff + 1;
    }
    assert start == start[..diff] + start[diff..];
    if diff < minLength && start[diff] < 255 && start[diff] as int + 1 < limit[diff] as int {
      RaisedIsLarger(start, diff);
      RaisedIsBelow(start, limit, diff);
      return start[..diff] + [start[diff] + 1];
    }
    return start;
  }

  /** The same, as a function of both strings. */
  function Separator(start: Bytes, limit: Bytes): Bytes {
    if start == [] || limit == [] then start
    else if start[0] == limit[0] then [start[0]] + Separator(start[1..], limit[1..])
    else if start[0] < 255 && start[0] as int + 1 < limit[0] as int then [start[0] + 1]
    else start
  }

  lemma SeparatorSteps(start: Bytes, limit: Bytes, n: nat)
    requires n < |start| && n < |limit| && start[n] == limit[n]
    requires Separator(start, limit) == start[..n] + Separator(start[n..], limit[n..])
    ensures Separator(start, limit) == start[..n + 1] + Separator(start[n + 1..], limit[n + 1..])
  {
    assert start[n..][1..] == start[n + 1..] && limit[n..][1..] == limit[n + 1..];
    OneMore(start, n, Separator(start[n + 1..], limit[n + 1..]));
  }

  lemma OneMore(s: Bytes, n: nat, more: Bytes)
    requires n < |s|
    ensures s[..n + 1] + more == s[..n] + ([s[n]] + more)
  {
  }

  /** BytewiseComparatorImpl::FindShortSuccessor: at or after the key, never longer. */
  method FindShortSuccessor(key: Bytes) returns (r: Bytes)
    ensures |r| <= |key| && (r == key || LexLess(key, r))
    ensures r == Successor(key)
  {
    var i := 0;
    assert key[0..] == key;
    while i < |key|
      invariant i <= |key| && forall j :: 0 <= j < i ==> key[j] == 255
      invariant Successor(key) == key[..i] + Successor(key[i..])
    {
      if key[i] != 255 {
        RaisedIsLarger(key, i);
        return key[..i] + [key[i] + 1];
      }
      assert key[i..][1..] == key[i + 1..] && key[..i + 1] == key[..i] + [key[i]];
      i := i + 1;
    }
    assert key[..i] == key && key[i..] == [];
    return key;
  }

  function Successor(key: Bytes): Bytes {
    if key == [] then [] else if key[0] != 255 then [key[0] + 1] else [key[0]] + Successor(key[1..])
  }

  // ---- Internal keys -----------------------------------------------------------------------

  /** A user key and the 8 bytes of sequence number and type, little-endian. */
  predicate IsInternal(k: Bytes) { |k| >= 8 }

  function UserOf(k: Bytes): Bytes
    requires IsInternal(k)
  {
    k[..|k| - 8]
  }

  function TagOf(k: Bytes): (t: nat)
    requires IsInternal(k)
    ensures t < TWO64
  {
    DecodeFixed64(k[|k| - 8..])
  }

  /** InternalKeyComparator::Compare < 0: user key ascending, sequence and type descending. */
  predicate InternalLess(a: Bytes, b: Bytes)
    requires IsInternal(a) && IsInternal(b)
  {
    LexLess(UserOf(a), UserOf(b)) || (UserOf(a) == UserOf(b) && TagOf(a) > TagOf(b))
  }

  /** The same order as a rank; byte strings that are no internal keys come first. */
  function InternalRank(k: Bytes): real {
    if IsInternal(k) then Rank(UserOf(k), (TWO64 - 1 - TagOf(k)) as real / TWO64 as real) else 0.0
  }

  lemma InternalRankIsOrder(a: Bytes, b: Bytes)
    requires IsInternal(a) && IsInternal(b)
    ensures InternalRank(a) < InternalRank(b) <==> InternalLess(a, b)
  {
    var s, t := (TWO64 - 1 - TagOf(a)) as real / TWO64 as real, (TWO64 - 1 - TagOf(b)) as real / TWO64 as real;
    RankIsOrder(UserOf(a), s, UserOf(b), t);
  }

  /** The largest tag: kMaxSequenceNumber with the type used for seeking. */
  const SEEK_TAG: nat := 0xff_ffff_ffff_ffff * 256 + 1

  function WithTag(user: Bytes, tag: nat): (k: Bytes)
    requires tag < TWO64
    ensures IsInternal(k) && UserOf(k) == user && |k| == |user| + 8
  {
    user + EncodeFixed64(tag)
  }

  /** InternalKeyComparator::FindShortestSeparator. */
  function InternalSeparator(start: Bytes, limit: Bytes): Bytes {
    if !IsInternal(start) || !IsInternal(limit) then start
    else
      var tmp := Separator(UserOf(start), UserOf(limit));
      if |tmp| < |UserOf(start)| && LexLess(UserOf(start), tmp) then WithTag(tmp, SEEK_TAG) else start
  }

  function InternalSuccessor(key: Bytes): Bytes {
    if !IsInternal(key) then key
    else
      var tmp := Successor(UserOf(key));
      if |tmp| < |UserOf(key)| && LexLess(UserOf(key), tmp) then WithTag(tmp, SEEK_TAG) else key
  }

  lemma SeparatorBetween(start: Bytes, limit: Bytes)
    ensures var r := Separator(start, limit);
            |r| <= |start| && (LexLess(start, limit) ==> LexLess(r, limit)) && (r != start ==> LexLess(start, r) && LexLess(r, limit))
  {
    if start != [] && limit != [] && start[0] == limit[0] {
      SeparatorBetween(start[1..], limit[1..]);
    }
  }

  /** An index key lies at or after the last key of its block and before the first key of the
      next; and no key in between has the next key's user key. */
  lemma InternalSeparatorSeparates(start: Bytes, limit: Bytes, k: Bytes)
    requires IsInternal(start) && IsInternal(limit) && InternalLess(start, limit) && IsInternal(k)
    ensures var sep := InternalSeparator(start, limit);
            IsInternal(sep) && |sep| <= |start|
            && (sep == start || InternalLess(start, sep)) && InternalLess(sep, limit)
            && (InternalLess(start, k) && !InternalLess(sep, k) ==> UserOf(k) != UserOf(limit))
  {
    SeparatorBetween(UserOf(start), UserOf(limit));
    var sep := InternalSeparator(start, limit);
    LexTrichotomy(UserOf(start), UserOf(start));
    if sep == start {
      InternalTotal(start, k);
    } else {
      LexTrichotomy(UserOf(sep), UserOf(limit));
    }
  }

  lemma InternalTotal(a: Bytes, b: Bytes)
    requires IsInternal(a) && IsInternal(b)
    ensures !(InternalLess(a, b) && InternalLess(b, a)) && !InternalLess(a, a)
  {
    LexTrichotomy(UserOf(a), UserOf(b));
    LexTrichotomy(UserOf(a), UserOf(a));
  }

  lemma SuccessorIsLater(key: Bytes)
    ensures |Successor(key)| <= |key| && (Successor(key) == key || LexLess(key, Successor(key)))
  {
    if key != [] && key[0] == 255 {
      SuccessorIsLater(key[1..]);
      assert key == [key[0]] + key[1..];
    }
  }

  lemma InternalSuccessorIsLater(key: Bytes)
    requires IsInternal(key)
    ensures var r := InternalSuccessor(key); IsInternal(r) && |r| <= |key| && (r == key || InternalLess(key, r))
  {
    SuccessorIsLater(UserOf(key));
  }
}
