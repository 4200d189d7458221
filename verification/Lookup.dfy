/** The reference meaning of a read: the newest entry of a user key that is no newer than
    the snapshot. Every part of the store is proved against this definition. */
module Lookup {
  import opened Coding
  import opened InternalKeys

  predicate Visible(e: Entry, k: UserKey, s: nat) {
    e.User() == k && e.Seq() <= s
  }

  ghost predicate Newest(S: iset<Entry>, k: UserKey, s: nat, e: Entry) {
    e in S && Visible(e, k, s)
    && forall x :: x in S && Visible(x, k, s) ==> x.Seq() <= e.Seq()
  }

  /** No two entries share user key and sequence number. */
  ghost predicate Unique(S: iset<Entry>) {
    forall x, y :: x in S && y in S && x.User() == y.User() && x.Seq() == y.Seq() ==> x == y
  }

  /** The newest visible entry, whatever its type. */
  ghost function NewestOf(S: iset<Entry>, k: UserKey, s: nat): (r: Option<Entry>)
    ensures r.Some? ==> Newest(S, k, s, r.value)
    ensures r.None? ==> forall e :: !Newest(S, k, s, e)
  {
    if e :| Newest(S, k, s, e) then Some(e) else None
  }

  /** What a reader of key k at snapshot s is told: a value, or nothing. */
  ghost function Read(S: iset<Entry>, k: UserKey, s: nat): Option<Value> {
    match NewestOf(S, k, s)
    case Some(e) => if e.IsValue() then Some(e.value) else None
    case None => None
  }

  lemma {:induction false} NewestExists(S: iset<Entry>, k: UserKey, s: nat, e: Entry)
    requires e in S && Visible(e, k, s)
    ensures NewestOf(S, k, s).Some?
    ensures NewestOf(S, k, s).value.Seq() >= e.Seq()
    decreases s - e.Seq()
  {
    if !Newest(S, k, s, e) {
      var x :| x in S && Visible(x, k, s) && x.Seq() > e.Seq();
      NewestExists(S, k, s, x);
    }
  }

  lemma NewestIs(S: iset<Entry>, k: UserKey, s: nat, e: Entry)
    requires Unique(S) && Newest(S, k, s, e)
    ensures NewestOf(S, k, s) == Some(e)
  {
    NewestExists(S, k, s, e);
  }

  /** Reads agree when both sets have the same newest entry, or neither sees the key. */
  lemma SameNewest(S: iset<Entry>, T: iset<Entry>, k: UserKey, s: nat)
    requires Unique(S) && Unique(T)
    requires forall e :: Newest(S, k, s, e) ==> Newest(T, k, s, e)
    requires (forall e :: !Newest(S, k, s, e)) ==> (forall e :: !Newest(T, k, s, e))
    ensures NewestOf(S, k, s) == NewestOf(T, k, s)
    ensures Read(S, k, s) == Read(T, k, s)
  {
    match NewestOf(S, k, s)
    case Some(e) => NewestIs(T, k, s, e);
    case None =>
  }

  /** A layer whose entries are all newer than those below it answers alone when it holds
      any visible entry of the key. */
  ghost predicate NewerThan(A: iset<Entry>, B: iset<Entry>) {
    forall a, b :: a in A && b in B && a.User() == b.User() ==> a.Seq() > b.Seq()
  }

  lemma UpperLayerAnswers(A: iset<Entry>, B: iset<Entry>, k: UserKey, s: nat)
    requires NewerThan(A, B)
    requires Unique(A) && Unique(B)
    ensures Unique(A + B)
    ensures NewestOf(A + B, k, s) == if NewestOf(A, k, s).Some? then NewestOf(A, k, s) else NewestOf(B, k, s)
  {
    match NewestOf(A, k, s)
    case Some(e) =>
      assert Newest(A + B, k, s, e);
      NewestIs(A + B, k, s, e);
    case None =>
      forall x | x in A ensures !Visible(x, k, s) {
        if Visible(x, k, s) { NewestExists(A, k, s, x); }
      }
      match NewestOf(B, k, s)
      case Some(e) =>
        assert Newest(A + B, k, s, e);
        NewestIs(A + B, k, s, e);
      case None =>
        if NewestOf(A + B, k, s).Some? {
          NewestExists(B, k, s, NewestOf(A + B, k, s).value);
        }
  }
}
