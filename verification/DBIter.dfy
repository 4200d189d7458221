/** The database iterator (db/db_iter.cc): a cursor over the live keys at one snapshot.

    Underneath it moves a merging iterator over all internal entries. Whatever mix of Seek,
    SeekToFirst, SeekToLast, Next and Prev it is asked for, it shows one element of the
    sorted list of user keys whose newest visible entry is a value. */
module DBIteration {
  import opened Coding
  import opened InternalKeys
  import opened Lookup
  import opened Versions
  import opened Merging

  // ---- The list of live entries ------------------------------------------------------

  predicate Seen(es: seq<Entry>, snap: nat, i: nat)
    requires i < |es|
  {
    es[i].Seq() <= snap
  }

  /** Entry i is the newest visible entry of its user key, and a value. */
  ghost predicate LiveAt(es: seq<Entry>, snap: nat, i: nat)
    requires i < |es|
  {
    Seen(es, snap, i) && es[i].IsValue()
    && forall j :: 0 <= j < i && es[j].User() == es[i].User() ==> !Seen(es, snap, j)
  }

  ghost function LiveBefore(es: seq<Entry>, snap: nat, n: nat): seq<Entry>
    requires n <= |es|
  {
    if n == 0 then [] else
      LiveBefore(es, snap, n - 1) + (if LiveAt(es, snap, n - 1) then [es[n - 1]] else [])
  }

  /** What the iterator iterates over. */
  ghost function View(es: seq<Entry>, snap: nat): seq<Entry> { LiveBefore(es, snap, |es|) }

  lemma {:induction false} LiveBeforePrefix(es: seq<Entry>, snap: nat, m: nat, n: nat)
    requires m <= n <= |es|
    ensures LiveBefore(es, snap, m) <= LiveBefore(es, snap, n)
    decreases n
  {
    if m < n { LiveBeforePrefix(es, snap, m, n - 1); }
  }

  lemma {:induction false} NoneLiveBetween(es: seq<Entry>, snap: nat, m: nat, n: nat)
    requires m <= n <= |es| && forall i :: m <= i < n ==> !LiveAt(es, snap, i)
    ensures LiveBefore(es, snap, m) == LiveBefore(es, snap, n)
    decreases n
  {
    if m < n { NoneLiveBetween(es, snap, m, n - 1); }
  }

  /** A live entry's place in the view is the number of live entries before it. */
  lemma PlaceOfLive(es: seq<Entry>, snap: nat, i: nat)
    requires i < |es| && LiveAt(es, snap, i)
    ensures |LiveBefore(es, snap, i)| < |View(es, snap)|
    ensures View(es, snap)[|LiveBefore(es, snap, i)|] == es[i]
    ensures |LiveBefore(es, snap, i + 1)| == |LiveBefore(es, snap, i)| + 1
  {
    LiveBeforePrefix(es, snap, i + 1, |es|);
    assert LiveBefore(es, snap, i + 1)[|LiveBefore(es, snap, i)|] == es[i];
  }

  lemma {:induction false} LiveBeforeMembers(es: seq<Entry>, snap: nat, n: nat)
    requires n <= |es|
    ensures forall e :: e in LiveBefore(es, snap, n) <==> exists i :: 0 <= i < n && es[i] == e && LiveAt(es, snap, i)
  {
    if n > 0 { LiveBeforeMembers(es, snap, n - 1); }
  }

  lemma {:induction false} LiveBeforeAscends(es: seq<Entry>, snap: nat, n: nat)
    requires SortedEntries(es) && n <= |es|
    ensures forall i, j :: 0 <= i < j < |LiveBefore(es, snap, n)| ==>
              LiveBefore(es, snap, n)[i].User() < LiveBefore(es, snap, n)[j].User()
  {
    if n > 0 {
      LiveBeforeAscends(es, snap, n - 1);
      LiveBeforeMembers(es, snap, n - 1);
      var live := LiveBefore(es, snap, n - 1);
      if LiveAt(es, snap, n - 1) {
        forall i | 0 <= i < |live| ensures live[i].User() < es[n - 1].User() {
          assert live[i] in live;
          var m :| 0 <= m < n - 1 && es[m] == live[i] && LiveAt(es, snap, m);
          assert Before(es[m].ikey, es[n - 1].ikey);
        }
      }
    }
  }

  lemma LiveIsNewest(es: seq<Entry>, snap: nat, i: nat)
    requires SortedEntries(es) && i < |es|
    ensures LiveAt(es, snap, i) <==> Newest(EntrySet(es), es[i].User(), snap, es[i]) && es[i].IsValue()
  {
    if LiveAt(es, snap, i) {
      forall x | x in EntrySet(es) && Visible(x, es[i].User(), snap) ensures x.Seq() <= es[i].Seq() {
        var j :| 0 <= j < |es| && es[j] == x;
        assert i < j ==> Before(es[i].ikey, es[j].ikey);
      }
    }
    if Newest(EntrySet(es), es[i].User(), snap, es[i]) && es[i].IsValue() {
      forall j | 0 <= j < i && es[j].User() == es[i].User() ensures !Seen(es, snap, j) {
        assert Before(es[j].ikey, es[i].ikey) && es[j] in EntrySet(es);
      }
    }
  }

  /** The view is exactly the table of reads at the snapshot, in ascending user-key order. */
  lemma ViewIsTheReads(es: seq<Entry>, snap: nat)
    requires SortedEntries(es)
    ensures forall i, j :: 0 <= i < j < |View(es, snap)| ==> View(es, snap)[i].User() < View(es, snap)[j].User()
    ensures forall k, v :: Read(EntrySet(es), k, snap) == Some(v) <==>
              exists e :: e in View(es, snap) && e.User() == k && e.value == v
  {
    LiveBeforeAscends(es, snap, |es|);
    LiveBeforeMembers(es, snap, |es|);
    SortedUnique(es);
    var S := EntrySet(es);
    forall k, v ensures Read(S, k, snap) == Some(v) <==> exists e :: e in View(es, snap) && e.User() == k && e.value == v {
      if Read(S, k, snap) == Some(v) {
        var e := NewestOf(S, k, snap).value;
        var i :| 0 <= i < |es| && es[i] == e;
        LiveIsNewest(es, snap, i);
        assert e in View(es, snap);
      }
      if e :| e in View(es, snap) && e.User() == k && e.value == v {
        var i :| 0 <= i < |es| && es[i] == e && LiveAt(es, snap, i);
        LiveIsNewest(es, snap, i);
        NewestIs(S, k, snap, e);
      }
    }
  }

  // ---- What a forward scan may skip --------------------------------------------------

  /** Entry x is what a forward scan looks for: live, and past the key being left. */
  ghost predicate Wanted(es: seq<Entry>, snap: nat, floor: Option<UserKey>, x: nat)
    requires x < |es|
  {
    LiveAt(es, snap, x) && (floor.Some? ==> es[x].User() > floor.value)
  }

  ghost predicate NoneWanted(es: seq<Entry>, snap: nat, floor: Option<UserKey>, p: nat, x: nat)
    requires p <= x <= |es|
  {
    forall y {:trigger Wanted(es, snap, floor, y)} :: p <= y < x ==> !Wanted(es, snap, floor, y)
  }

  /** Entry x, or the end, is where a forward scan from entry p on stops. */
  ghost predicate FirstWanted(es: seq<Entry>, snap: nat, floor: Option<UserKey>, p: nat, x: nat) {
    p <= x <= |es| && NoneWanted(es, snap, floor, p, x) && (x < |es| ==> Wanted(es, snap, floor, x))
  }

  lemma NoneWantedYet(es: seq<Entry>, snap: nat, floor: Option<UserKey>, p: nat, x: nat)
    requires p <= x < |es| && NoneWanted(es, snap, floor, p, x) && !Wanted(es, snap, floor, x)
    ensures NoneWanted(es, snap, floor, p, x + 1)
  {
  }

  /** The scan's skip key covers every entry shadowed by one already passed, and covers no
      wanted entry still ahead. */
  ghost predicate SkipIsRight(es: seq<Entry>, snap: nat, floor: Option<UserKey>, p: nat, skip: Option<UserKey>)
    requires p <= |es|
  {
    && (floor.Some? ==> skip.Some? && floor.value <= skip.value)
    && (forall j, x :: 0 <= j < p <= x < |es| && Seen(es, snap, j) && es[j].User() == es[x].User() ==> Covers(skip, es[x]))
    && (forall x :: p <= x < |es| && Wanted(es, snap, floor, x) ==> !Covers(skip, es[x]))
    && (forall x :: p <= x < |es| && Seen(es, snap, x) && floor.Some? ==> es[x].User() >= floor.value)
  }

  predicate Covers(skip: Option<UserKey>, e: Entry) {
    skip.Some? && e.User() <= skip.value
  }

  lemma UsersAscend(es: seq<Entry>, j: nat, x: nat)
    requires SortedEntries(es) && j <= x < |es|
    ensures es[j].User() <= es[x].User()
  {
    if j < x { assert Before(es[j].ikey, es[x].ikey); }
  }

  lemma SkipPastDeletion(es: seq<Entry>, snap: nat, floor: Option<UserKey>, p: nat, skip: Option<UserKey>)
    requires SortedEntries(es) && p < |es| && SkipIsRight(es, snap, floor, p, skip)
    requires Seen(es, snap, p) && !es[p].IsValue()
    ensures SkipIsRight(es, snap, floor, p + 1, Some(es[p].User())) && !Wanted(es, snap, floor, p)
  {
    var next := Some(es[p].User());
    forall j, x | 0 <= j < p + 1 <= x < |es| && Seen(es, snap, j) && es[j].User() == es[x].User() ensures Covers(next, es[x]) {
      UsersAscend(es, j, p);
    }
    forall x | p + 1 <= x < |es| && Wanted(es, snap, floor, x) ensures !Covers(next, es[x]) {
      UsersAscend(es, p, x);
    }
  }

  lemma SkipPastUnseenOrHidden(es: seq<Entry>, snap: nat, floor: Option<UserKey>, p: nat, skip: Option<UserKey>)
    requires SortedEntries(es) && p < |es| && SkipIsRight(es, snap, floor, p, skip)
    requires !Seen(es, snap, p) || Covers(skip, es[p])
    ensures SkipIsRight(es, snap, floor, p + 1, skip) && !Wanted(es, snap, floor, p)
  {
  }

  lemma StopIsWanted(es: seq<Entry>, snap: nat, floor: Option<UserKey>, p: nat, skip: Option<UserKey>)
    requires SortedEntries(es) && p < |es| && SkipIsRight(es, snap, floor, p, skip)
    requires Seen(es, snap, p) && es[p].IsValue() && !Covers(skip, es[p])
    ensures Wanted(es, snap, floor, p)
  {
  }

  lemma NoneWantedNoneLive(es: seq<Entry>, snap: nat, p: nat, x: nat)
    requires p <= x <= |es| && NoneWanted(es, snap, None, p, x)
    ensures |LiveBefore(es, snap, x)| == |LiveBefore(es, snap, p)|
  {
    forall y | p <= y < x ensures !LiveAt(es, snap, y) {
      assert !Wanted(es, snap, None, y);
    }
    NoneLiveBetween(es, snap, p, x);
  }

  lemma SeekStartsRight(es: seq<Entry>, snap: SequenceNumber, target: UserKey)
    requires SortedEntries(es)
    ensures SkipIsRight(es, snap, None, LowerBound(es, LookupKey(target, snap)), None)
  {
    LowerBoundSplits(es, LookupKey(target, snap));
  }

  /** The live entries before the seek position are those of smaller user keys. */
  lemma SeekSplitsView(es: seq<Entry>, snap: SequenceNumber, target: UserKey)
    requires SortedEntries(es)
    ensures var n := |LiveBefore(es, snap, LowerBound(es, LookupKey(target, snap)))|;
            n <= |View(es, snap)|
            && (forall i :: 0 <= i < n ==> View(es, snap)[i].User() < target)
            && (forall i :: n <= i < |View(es, snap)| ==> target <= View(es, snap)[i].User())
  {
    var p := LowerBound(es, LookupKey(target, snap));
    var before, view := LiveBefore(es, snap, p), View(es, snap);
    LowerBoundSplits(es, LookupKey(target, snap));
    LiveBeforePrefix(es, snap, p, |es|);
    LiveBeforeMembers(es, snap, p);
    forall i | 0 <= i < |before| ensures view[i].User() < target {
      assert before[i] in before;
    }
    forall i | |before| <= i < |view| ensures target <= view[i].User() {
      LiveAfter(es, snap, p, |es|, i);
    }
  }

  /** Elements of the view past the first p entries' share come from entry p on. */
  lemma {:induction false} LiveAfter(es: seq<Entry>, snap: nat, p: nat, n: nat, i: nat)
    requires p <= n <= |es| && |LiveBefore(es, snap, p)| <= i < |LiveBefore(es, snap, n)|
    ensures exists m :: p <= m < n && es[m] == LiveBefore(es, snap, n)[i] && LiveAt(es, snap, m)
    decreases n
  {
    if i < |LiveBefore(es, snap, n - 1)| {
      LiveAfter(es, snap, p, n - 1, i);
    } else {
      assert LiveAt(es, snap, n - 1);
    }
  }

  /** Leaving live entry i forwards, from it or from the invisible entries before it. */
  lemma NextSkipIsRight(es: seq<Entry>, snap: nat, i: nat, p: nat)
    requires SortedEntries(es) && p <= i < |es| && LiveAt(es, snap, i)
    requires forall j :: p <= j < i ==> !Seen(es, snap, j)
    ensures SkipIsRight(es, snap, Some(es[i].User()), p, Some(es[i].User()))
  {
    var k := Some(es[i].User());
    forall j, x | 0 <= j < p <= x < |es| && Seen(es, snap, j) && es[j].User() == es[x].User() ensures Covers(k, es[x]) {
      UsersAscend(es, j, i);
    }
    forall x | p <= x < |es| && Seen(es, snap, x) ensures es[x].User() >= es[i].User() {
      UsersAscend(es, i, x);
    }
  }

  /** The first wanted entry past live entry i is the next one in the view. */
  lemma NextPlace(es: seq<Entry>, snap: nat, i: nat, p: nat, x: nat)
    requires SortedEntries(es) && p <= i < |es| && LiveAt(es, snap, i)
    requires forall j :: p <= j < i ==> !Seen(es, snap, j)
    requires FirstWanted(es, snap, Some(es[i].User()), p, x)
    ensures |LiveBefore(es, snap, x)| == |LiveBefore(es, snap, i)| + 1
  {
    assert i < x by {
      if x <= i { UsersAscend(es, x, i); }
    }
    forall y | i < y < x ensures !LiveAt(es, snap, y) {
      UsersAscend(es, i, y);
      assert !Wanted(es, snap, Some(es[i].User()), y);
    }
    NoneLiveBetween(es, snap, i + 1, x);
    PlaceOfLive(es, snap, i);
  }

  // ---- What a backward scan remembers ------------------------------------------------

  /** Entry x is the value to show unless a newer entry of its key lies below r. */
  ghost predicate Candidate(es: seq<Entry>, snap: nat, r: nat, q: nat, x: nat) {
    && r <= x < q <= |es| && Seen(es, snap, x) && es[x].IsValue()
    && (forall j :: r <= j < x ==> !Seen(es, snap, j))
    && (forall j :: x < j < q ==> !LiveAt(es, snap, j))
  }

  lemma NewerHidesCandidate(es: seq<Entry>, snap: nat, r: nat, q: nat, x: nat)
    requires SortedEntries(es) && Candidate(es, snap, r, q, x) && r > 0
    requires Seen(es, snap, r - 1) && !(es[r - 1].User() < es[x].User())
    ensures forall j :: r <= j < q ==> !LiveAt(es, snap, j)
  {
    UsersAscend(es, r - 1, x);
  }

  lemma CandidateIsLast(es: seq<Entry>, snap: nat, r: nat, q: nat, x: nat)
    requires SortedEntries(es) && Candidate(es, snap, r, q, x)
    requires r > 0 ==> es[r - 1].User() < es[x].User()
    ensures LiveAt(es, snap, x) && |LiveBefore(es, snap, q)| == |LiveBefore(es, snap, x)| + 1
  {
    forall j | 0 <= j < x && es[j].User() == es[x].User() ensures !Seen(es, snap, j) {
      if j < r { UsersAscend(es, j, r - 1); }
    }
    NoneLiveBetween(es, snap, x + 1, q);
    PlaceOfLive(es, snap, x);
  }

  // ---- The reference cursor ----------------------------------------------------------

  datatype Command = Seek(target: UserKey) | First | Last | Forwards | Backwards

  /** The first element of the view at or after a user key. */
  ghost function FirstFrom(view: seq<Entry>, k: UserKey): nat {
    if view == [] || view[0].User() >= k then 0 else 1 + FirstFrom(view[1..], k)
  }

  lemma {:induction false} FirstFromIs(view: seq<Entry>, k: UserKey, n: nat)
    requires n <= |view|
    requires forall i :: 0 <= i < n ==> view[i].User() < k
    requires forall i :: n <= i < |view| ==> k <= view[i].User()
    ensures FirstFrom(view, k) == n
  {
    if n > 0 { FirstFromIs(view[1..], k, n - 1); }
  }

  /** A cursor over a plain list; stepping is only asked of it while it shows something. */
  ghost function Move(view: seq<Entry>, at: nat, c: Command): nat {
    match c
    case Seek(k) => FirstFrom(view, k)
    case First => 0
    case Last => if view == [] then 0 else |view| - 1
    case Forwards => if at < |view| then at + 1 else at
    case Backwards => if at >= |view| then at else if at == 0 then |view| else at - 1
  }

  ghost function MoveAll(view: seq<Entry>, at: nat, cs: seq<Command>): nat
    decreases |cs|
  {
    if cs == [] then at else MoveAll(view, Move(view, at, cs[0]), cs[1..])
  }

  // ---- The iterator ------------------------------------------------------------------

  class DBIter {
    const iter: MergingIterator
    const snap: SequenceNumber
    var direction: Direction
    var valid: bool
    var savedKey: Option<UserKey>
    var savedValue: Value
    /** Where we are in the view; its length when not valid. */
    ghost var cursor: nat

    ghost function Repr(): set<object> { {this} + iter.Repr() }

    /** How many internal entries lie before the internal iterator's resting place, counting
        the one it stands on: the backward scan goes through exactly these. */
    ghost function Reached(): nat
      reads iter.Repr()
    {
      if iter.index < |iter.all| then iter.index + 1 else 0
    }

    /** Moving forwards, the internal iterator stands on the entry shown. */
    ghost predicate ForwardState()
      reads this, iter.Repr()
    {
      iter.index < |iter.all| && LiveAt(iter.all, snap, iter.index)
      && cursor == |LiveBefore(iter.all, snap, iter.index)|
    }

    /** Moving backwards, it stands before all entries of the key shown, and every entry in
        between is invisible. (The comment in the source allows no entries in between.) */
    ghost predicate ReverseState(i: nat)
      reads this, iter.Repr()
    {
      && Reached() <= i < |iter.all| && LiveAt(iter.all, snap, i) && cursor == |LiveBefore(iter.all, snap, i)|
      && savedKey == Some(iter.all[i].User()) && savedValue == iter.all[i].value
      && (forall j :: Reached() <= j < i ==> !Seen(iter.all, snap, j))
      && (Reached() > 0 ==> iter.all[Reached() - 1].User() < iter.all[i].User())
    }

    ghost predicate Valid()
      reads this, iter.Repr()
    {
      && this !in iter.Repr() && iter.Valid()
      && (valid ==> cursor < |View(iter.all, snap)|)
      && (!valid ==> cursor == |View(iter.all, snap)|)
      && (valid && direction == Forward ==> ForwardState())
      && (valid && direction == Reverse ==> exists i :: ReverseState(i))
    }

    constructor (internalIter: MergingIterator, s: SequenceNumber)
      requires internalIter.Valid()
      ensures Valid() && !valid && iter == internalIter && snap == s
    {
      iter, snap := internalIter, s;
      direction, valid, savedKey, savedValue := Forward, false, None, [];
      cursor := |View(internalIter.all, s)|;
    }

    function Key(): (k: UserKey)
      requires Valid() && valid
      reads this, iter.Repr()
      ensures k == View(iter.all, snap)[cursor].User()
    {
      if direction == Forward then
        PlaceOfLive(iter.all, snap, iter.index);
        iter.CurrentEntry().User()
      else
        assert savedKey.Some? && View(iter.all, snap)[cursor].User() == savedKey.value by {
          var i :| ReverseState(i);
          PlaceOfLive(iter.all, snap, i);
        }
        savedKey.value
    }

    function CurrentValue(): (v: Value)
      requires Valid() && valid
      reads this, iter.Repr()
      ensures v == View(iter.all, snap)[cursor].value
    {
      if direction == Forward then
        PlaceOfLive(iter.all, snap, iter.index);
        iter.CurrentEntry().value
      else
        assert View(iter.all, snap)[cursor].value == savedValue by {
          var i :| ReverseState(i);
          PlaceOfLive(iter.all, snap, i);
        }
        savedValue
    }

    // ---- Scanning forwards -----------------------------------------------------------

    /** One turn of the forward scan: stop at the entry under the internal iterator, or note
        what it hides. */
    method Examine(skip: Option<UserKey>, ghost floor: Option<UserKey>, ghost start: nat) returns (stop: bool, skip': Option<UserKey>)
      requires iter.Valid() && iter.HasKey() && SkipIsRight(iter.all, snap, floor, iter.index, skip)
      requires start <= iter.index && NoneWanted(iter.all, snap, floor, start, iter.index)
      ensures stop ==> FirstWanted(iter.all, snap, floor, start, iter.index)
      ensures !stop ==> NoneWanted(iter.all, snap, floor, start, iter.index + 1)
      ensures !stop ==> SkipIsRight(iter.all, snap, floor, iter.index + 1, skip')
    {
      var e := iter.CurrentEntry();
      if e.Seq() <= snap {
        if !e.IsValue() {
          SkipPastDeletion(iter.all, snap, floor, iter.index, skip);
          NoneWantedYet(iter.all, snap, floor, start, iter.index);
          return false, Some(e.User());
        }
        if !Covers(skip, e) {
          StopIsWanted(iter.all, snap, floor, iter.index, skip);
          return true, skip;
        }
      }
      SkipPastUnseenOrHidden(iter.all, snap, floor, iter.index, skip);
      NoneWantedYet(iter.all, snap, floor, start, iter.index);
      return false, skip;
    }

    /** FindNextUserEntry: stop at the first wanted entry, whatever deletions and hidden
        entries lie on the way. An absent skip key is the source's `skipping == false`. */
    method ScanForward(skip0: Option<UserKey>, ghost floor: Option<UserKey>)
      requires iter.Valid() && iter.HasKey() && SkipIsRight(iter.all, snap, floor, iter.index, skip0)
      modifies iter.Repr()
      ensures iter.Valid() && FirstWanted(iter.all, snap, floor, old(iter.index), iter.index)
    {
      var skip := skip0;
      ghost var all, start := iter.all, iter.index;
      while iter.HasKey()
        invariant iter.Valid() && iter.all == all && start <= iter.index <= |all|
        invariant SkipIsRight(all, snap, floor, iter.index, skip) && NoneWanted(all, snap, floor, start, iter.index)
        decreases |all| - iter.index
      {
        var stop;
        stop, skip := Examine(skip, floor, start);
        if stop {
          return;
        }
        iter.Next();
      }
    }

    method FindNextUserEntry(skip: Option<UserKey>, ghost floor: Option<UserKey>)
      requires this !in iter.Repr() && iter.Valid() && iter.HasKey() && direction == Forward
      requires SkipIsRight(iter.all, snap, floor, iter.index, skip)
      modifies this, iter.Repr()
      ensures Valid() && direction == Forward
      ensures exists x :: FirstWanted(iter.all, snap, floor, old(iter.index), x) && cursor == |LiveBefore(iter.all, snap, x)|
    {
      ScanForward(skip, floor);
      valid, savedKey := iter.HasKey(), None;
      cursor := |LiveBefore(iter.all, snap, iter.index)|;
      if valid { PlaceOfLive(iter.all, snap, iter.index); }
    }

    /** Seek: the first live user key at or after the target. */
    method Seek(target: UserKey)
      requires Valid()
      modifies Repr()
      ensures Valid()
      ensures forall i :: 0 <= i < cursor ==> View(iter.all, snap)[i].User() < target
      ensures forall i :: cursor <= i < |View(iter.all, snap)| ==> target <= View(iter.all, snap)[i].User()
    {
      direction, savedValue := Forward, [];
      iter.Seek(LookupKey(target, snap));
      SeekStartsRight(iter.all, snap, target);
      SeekSplitsView(iter.all, snap, target);
      StartFromHere();
    }

    method SeekToFirst()
      requires Valid()
      modifies Repr()
      ensures Valid() && cursor == 0
    {
      direction, savedValue := Forward, [];
      iter.SeekToFirst();
      StartFromHere();
    }

    /** The tail of both seeks: show the first live entry from here on. */
    method StartFromHere()
      requires this !in iter.Repr() && iter.Valid() && direction == Forward
      requires SkipIsRight(iter.all, snap, None, iter.index, None)
      modifies Repr()
      ensures Valid() && cursor == |LiveBefore(iter.all, snap, old(iter.index))|
    {
      ghost var p := iter.index;
      if iter.HasKey() {
        FindNextUserEntry(None, None);
        ghost var x :| FirstWanted(iter.all, snap, None, p, x) && cursor == |LiveBefore(iter.all, snap, x)|;
        NoneWantedNoneLive(iter.all, snap, p, x);
      } else {
        valid := false;
        cursor := |View(iter.all, snap)|;
      }
    }

    method Next()
      requires Valid() && valid
      modifies Repr()
      ensures Valid() && cursor == old(cursor) + 1
    {
      ghost var i := iter.index;
      if direction == Reverse {
        i :| ReverseState(i);
        direction := Forward;
        if !iter.HasKey() {
          iter.SeekToFirst();
        } else {
          iter.Next();
        }
        assert iter.HasKey();
      } else {
        savedKey := Some(iter.CurrentEntry().User());
      }
      NextSkipIsRight(iter.all, snap, i, iter.index);
      ghost var p := iter.index;
      FindNextUserEntry(savedKey, savedKey);
      ghost var x :| FirstWanted(iter.all, snap, Some(iter.all[i].User()), p, x) && cursor == |LiveBefore(iter.all, snap, x)|;
      NextPlace(iter.all, snap, i, p, x);
    }

    // ---- Scanning backwards ----------------------------------------------------------

    /** The scanning loop of FindPrevUserEntry: remember the last value seen, drop it when a
        newer deletion of the key turns up, stop at the next smaller visible key. */
    method ScanBack() returns (found: Option<Entry>, ghost x0: nat)
      requires iter.Valid()
      modifies iter.Repr()
      ensures iter.Valid() && Reached() <= old(Reached())
      ensures found.None? ==> forall x :: 0 <= x < old(Reached()) ==> !LiveAt(iter.all, snap, x)
      ensures found.Some? ==> Candidate(iter.all, snap, Reached(), old(Reached()), x0) && found.value == iter.all[x0]
      ensures found.Some? && Reached() > 0 ==> iter.all[Reached() - 1].User() < iter.all[x0].User()
    {
      found, x0 := None, 0;
      ghost var all, q := iter.all, Reached();
      while iter.HasKey()
        invariant iter.Valid() && iter.all == all && Reached() <= q <= |all|
        invariant found.None? ==> forall x :: Reached() <= x < q ==> !LiveAt(all, snap, x)
        invariant found.Some? ==> Candidate(all, snap, Reached(), q, x0) && found.value == all[x0]
        decreases Reached()
      {
        var e := iter.CurrentEntry();
        if e.Seq() <= snap {
          if found.Some? && e.User() < found.value.User() {
            return;
          }
          if found.Some? { NewerHidesCandidate(all, snap, Reached(), q, x0); }
          if e.IsValue() {
            found, x0 := Some(e), iter.index;
          } else {
            found := None;
          }
        }
        iter.Prev();
      }
      assert found.None? ==> Reached() == 0;
    }

    method FindPrevUserEntry()
      requires this !in iter.Repr() && iter.Valid() && direction == Reverse
      modifies Repr()
      ensures Valid()
      ensures var n := |LiveBefore(iter.all, snap, old(Reached()))|;
              cursor == if n == 0 then |View(iter.all, snap)| else n - 1
    {
      ghost var q := Reached();
      var found;
      ghost var x0;
      found, x0 := ScanBack();
      if found.None? {
        NoneLiveBetween(iter.all, snap, 0, q);
        ShowNothing();
      } else {
        CandidateIsLast(iter.all, snap, Reached(), q, x0);
        ShowSaved(found.value, x0);
      }
    }

    method ShowNothing()
      requires this !in iter.Repr() && iter.Valid()
      modifies this
      ensures Valid() && cursor == |View(iter.all, snap)|
    {
      valid, savedKey, savedValue, direction := false, None, [], Forward;
      cursor := |View(iter.all, snap)|;
    }

    method ShowSaved(e: Entry, ghost x0: nat)
      requires this !in iter.Repr() && iter.Valid() && direction == Reverse
      requires Reached() <= x0 < |iter.all| && e == iter.all[x0] && LiveAt(iter.all, snap, x0)
      requires forall j :: Reached() <= j < x0 ==> !Seen(iter.all, snap, j)
      requires Reached() > 0 ==> iter.all[Reached() - 1].User() < e.User()
      modifies this
      ensures Valid() && cursor == |LiveBefore(iter.all, snap, x0)|
    {
      PlaceOfLive(iter.all, snap, x0);
      valid, savedKey, savedValue := true, Some(e.User()), e.value;
      cursor := |LiveBefore(iter.all, snap, x0)|;
      assert ReverseState(x0);
    }

    /** Leaves the entries of the key shown, backwards. */
    method BackOutOfKey(ghost i: nat)
      requires iter.Valid() && iter.HasKey() && i == iter.index && LiveAt(iter.all, snap, i)
      modifies iter.Repr()
      ensures iter.Valid() && Reached() <= i
      ensures |LiveBefore(iter.all, snap, Reached())| == |LiveBefore(iter.all, snap, i)|
    {
      var key := iter.CurrentEntry().User();
      ghost var all := iter.all;
      iter.Prev();
      while iter.HasKey() && !(iter.CurrentEntry().User() < key)
        invariant iter.Valid() && iter.all == all && Reached() <= i
        invariant forall j :: Reached() <= j < i ==> all[j].User() == key
        decreases Reached()
      {
        UsersAscend(all, iter.index, i);
        iter.Prev();
      }
      NoneLiveBetween(all, snap, Reached(), i);
    }

    method Prev()
      requires Valid() && valid
      modifies Repr()
      ensures Valid() && cursor == if old(cursor) == 0 then |View(iter.all, snap)| else old(cursor) - 1
    {
      if direction == Forward {
        savedKey := Some(iter.CurrentEntry().User());
        BackOutOfKey(iter.index);
        if !iter.HasKey() {
          valid, savedKey, savedValue := false, None, [];
          cursor := |View(iter.all, snap)|;
          return;
        }
        direction := Reverse;
      } else {
        ghost var i :| ReverseState(i);
        NoneLiveBetween(iter.all, snap, Reached(), i);
      }
      FindPrevUserEntry();
    }

    method SeekToLast()
      requires Valid()
      modifies Repr()
      ensures Valid() && cursor == if View(iter.all, snap) == [] then 0 else |View(iter.all, snap)| - 1
    {
      direction, savedValue := Reverse, [];
      iter.SeekToLast();
      FindPrevUserEntry();
    }

    method Perform(c: Command)
      requires Valid()
      modifies Repr()
      ensures Valid() && cursor == Move(View(iter.all, snap), old(cursor), c)
    {
      match c
      case Seek(k) =>
        Seek(k);
        FirstFromIs(View(iter.all, snap), k, cursor);
      case First => SeekToFirst();
      case Last => SeekToLast();
      case Forwards => if valid { Next(); }
      case Backwards => if valid { Prev(); }
    }

    /** Any run of moves, in any order and direction, ends where the plain cursor ends. */
    method PerformAll(cs: seq<Command>)
      requires Valid()
      modifies Repr()
      ensures Valid() && cursor == MoveAll(View(iter.all, snap), old(cursor), cs)
    {
      var i := 0;
      ghost var goal := MoveAll(View(iter.all, snap), cursor, cs);
      assert cs[0..] == cs;
      while i < |cs|
        invariant 0 <= i <= |cs| && Valid()
        invariant MoveAll(View(iter.all, snap), cursor, cs[i..]) == goal
      {
        assert cs[i..][1..] == cs[i + 1..];
        Perform(cs[i]);
        i := i + 1;
      }
      assert cs[i..] == [];
    }
  }
}
