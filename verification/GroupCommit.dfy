/** Group commit (db/db_impl.cc: DBImpl::Write, BuildBatchGroup) as interleaved steps.

    Each caller of Write is a thread with its own program counter; a step is what one thread
    does while it holds the mutex, or one action of the thread that has let go of it. */
module GroupCommit {
  import opened Coding
  import opened InternalKeys
  import opened Lookup

  /** One call of Write. An absent batch only asks for a fresh memtable. */
  datatype Call = Call(batch: Option<seq<Op>>, sync: bool, bytes: nat)

  datatype Pc =
    | Waiting
    | Room                                  // at the front, in MakeRoomForWrite
    | Logging                               // mutex released from here on
    | Syncing
    | Inserting(k: nat)                     // k entries of the group are in the memtable
    | Relocking(ok: bool, syncError: bool)
    | Returned(ok: bool)

  datatype Outcome = Running | Ok | Failed

  /** A group: the calls lo..hi in arrival order, and the sequence numbers it was given. */
  datatype Commit = Commit(lo: nat, hi: nat, first: nat, ops: seq<Op>, logged: bool, synced: bool, outcome: Outcome)

  /** A record of the log: the group's batch with its first sequence number. */
  datatype Record = Record(first: nat, ops: seq<Op>)

  datatype Applied = Applied(seqno: nat, op: Op)

  datatype State = State(
    calls: seq<Call>,           // every call so far, in arrival order
    pcs: seq<Pc>,
    done: seq<Option<bool>>,    // Writer::done with its status
    queue: seq<nat>,            // writers_
    tmp: seq<Op>,               // tmp_batch_
    commits: seq<Commit>,       // groups formed so far; the last may be running
    log: seq<Record>,           // oldest first
    applied: seq<Applied>,      // memtable insertions, oldest first
    lastSequence: nat,
    bgError: bool)

  // ---- BuildBatchGroup ---------------------------------------------------------------

  function OpsOf(c: Call): seq<Op> { if c.batch.Some? then c.batch.value else [] }

  /** The batches of calls[lo..hi], one after the other. */
  function ConcatOps(calls: seq<Call>, lo: nat, hi: nat): seq<Op>
    requires lo <= hi <= |calls|
  {
    if lo == hi then [] else ConcatOps(calls, lo, hi - 1) + OpsOf(calls[hi - 1])
  }

  function CountBatches(calls: seq<Call>, lo: nat, hi: nat): nat
    requires lo <= hi <= |calls|
  {
    if lo == hi then 0 else CountBatches(calls, lo, hi - 1) + if calls[hi - 1].batch.Some? then 1 else 0
  }

  function TotalBytes(calls: seq<Call>, lo: nat, hi: nat): nat
    requires lo <= hi <= |calls|
  {
    if lo == hi then 0 else TotalBytes(calls, lo, hi - 1) + if calls[hi - 1].batch.Some? then calls[hi - 1].bytes else 0
  }

  function MaxGroupBytes(first: nat): nat {
    if first <= 131072 then first + 131072 else 1048576
  }

  /** A synced call never rides in a group whose leader does not sync. */
  ghost predicate SyncRespected(calls: seq<Call>, lo: nat, hi: nat)
    requires lo < hi <= |calls|
  {
    forall i :: lo < i < hi && calls[i].sync ==> calls[lo].sync
  }

  /** BuildBatchGroup over the queue lo, lo+1, ...: how far the group reaches, its combined
      batch, and what is left in tmp_batch_. It stops early for exactly two reasons. */
  method BuildBatchGroup(calls: seq<Call>, lo: nat, tmp: seq<Op>) returns (hi: nat, group: seq<Op>, tmp': seq<Op>)
    requires lo < |calls| && calls[lo].batch.Some? && tmp == []
    ensures lo < hi <= |calls| && SyncRespected(calls, lo, hi)
    ensures group == ConcatOps(calls, lo, hi)
    ensures tmp' == if CountBatches(calls, lo, hi) >= 2 then group else []
    ensures hi - lo >= 2 ==> TotalBytes(calls, lo, hi) <= MaxGroupBytes(calls[lo].bytes) || CountBatches(calls, lo, hi) == 1
    ensures hi < |calls| ==>
      || (calls[hi].sync && !calls[lo].sync)
      || (calls[hi].batch.Some? && TotalBytes(calls, lo, hi + 1) > MaxGroupBytes(calls[lo].bytes))
  {
    var size := calls[lo].bytes;
    var maxSize := MaxGroupBytes(size);
    group, tmp', hi := calls[lo].batch.value, tmp, lo + 1;
    var useTmp := false;
    assert ConcatOps(calls, lo, lo) == [] && CountBatches(calls, lo, lo) == 0 && TotalBytes(calls, lo, lo) == 0;
    while hi < |calls|
      invariant lo < hi <= |calls| && SyncRespected(calls, lo, hi)
      invariant group == ConcatOps(calls, lo, hi) && size == TotalBytes(calls, lo, hi)
      invariant CountBatches(calls, lo, hi) >= 1 && (useTmp <==> CountBatches(calls, lo, hi) >= 2)
      invariant tmp' == if useTmp then group else []
      invariant CountBatches(calls, lo, hi) == 1 || size <= maxSize
    {
      var w := calls[hi];
      if w.sync && !calls[lo].sync {
        break;
      }
      if w.batch.Some? {
        size := size + w.bytes;
        if size > maxSize {
          break;
        }
        if !useTmp {
          useTmp := true;
          tmp' := tmp' + group;
        }
        tmp' := tmp' + w.batch.value;
        group := tmp';
      }
      hi := hi + 1;
    }
  }

  // ---- Steps -------------------------------------------------------------------------

  datatype Event =
    | Arrive(call: Call)
    | TakeLead(w: nat)
    | ReturnDone(w: nat)
    | RoomFails(w: nat)
    | NullBatch(w: nat)
    | Form(w: nat, hi: nat)
    | LogRecord(w: nat, ok: bool)
    | Sync(w: nat, ok: bool)
    | Insert(w: nat)
    | Inserted(w: nat)
    | Finish(w: nat)

  predicate AtFront(s: State, w: nat) { s.queue != [] && s.queue[0] == w && w < |s.calls| && w < |s.pcs| }

  function Last(commits: seq<Commit>): Commit
    requires commits != []
  {
    commits[|commits| - 1]
  }

  function SetLast(commits: seq<Commit>, c: Commit): seq<Commit>
    requires commits != []
  {
    commits[|commits| - 1 := c]
  }

  function EntriesOf(c: Commit): seq<Applied> {
    seq(|c.ops|, i requires 0 <= i < |c.ops| => Applied(c.first + i, c.ops[i]))
  }

  /** Pops lo..hi off the queue and tells everyone but the leader. */
  function TellFollowers(done: seq<Option<bool>>, lo: nat, hi: nat, ok: bool): seq<Option<bool>> {
    seq(|done|, i requires 0 <= i < |done| => if lo < i < hi then Some(ok) else done[i])
  }

  ghost predicate Arrives(s: State, s': State, call: Call) {
    s' == s.(calls := s.calls + [call], pcs := s.pcs + [Waiting], done := s.done + [None], queue := s.queue + [|s.calls|])
  }

  ghost predicate TakesLead(s: State, s': State, w: nat) {
    AtFront(s, w) && s.pcs[w] == Waiting && w < |s.done| && s.done[w] == None && s' == s.(pcs := s.pcs[w := Room])
  }

  ghost predicate ReturnsDone(s: State, s': State, w: nat) {
    w < |s.pcs| && w < |s.done| && s.pcs[w] == Waiting && s.done[w].Some?
    && s' == s.(pcs := s.pcs[w := Returned(s.done[w].value)])
  }

  /** MakeRoomForWrite failed, or there is no batch to write: only w leaves the queue. */
  ghost predicate LeavesAlone(s: State, s': State, w: nat, ok: bool) {
    AtFront(s, w) && s.pcs[w] == Room && (ok ==> !s.bgError && s.calls[w].batch.None?)
    && s' == s.(pcs := s.pcs[w := Returned(ok)], queue := s.queue[1..])
  }

  ghost predicate Forms(s: State, s': State, w: nat, hi: nat) {
    AtFront(s, w) && s.pcs[w] == Room && !s.bgError && s.calls[w].batch.Some?
    && w < hi <= |s.calls| && SyncRespected(s.calls, w, hi)
    && var group := ConcatOps(s.calls, w, hi);
       s' == s.(pcs := s.pcs[w := Logging],
                tmp := if CountBatches(s.calls, w, hi) >= 2 then s.tmp + group else s.tmp,
                commits := s.commits + [Commit(w, hi, s.lastSequence + 1, group, false, false, Running)])
  }

  ghost predicate LogsRecord(s: State, s': State, w: nat, ok: bool) {
    AtFront(s, w) && s.pcs[w] == Logging && s.commits != []
    && if ok then
         var c := Last(s.commits).(logged := true);
         s' == s.(pcs := s.pcs[w := if s.calls[w].sync then Syncing else Inserting(0)],
                  commits := SetLast(s.commits, c), log := s.log + [Record(c.first, c.ops)])
       else s' == s.(pcs := s.pcs[w := Relocking(false, false)])
  }

  ghost predicate Syncs(s: State, s': State, w: nat, ok: bool) {
    AtFront(s, w) && s.pcs[w] == Syncing && s.commits != []
    && if ok then s' == s.(pcs := s.pcs[w := Inserting(0)], commits := SetLast(s.commits, Last(s.commits).(synced := true)))
       else s' == s.(pcs := s.pcs[w := Relocking(false, true)])
  }

  ghost predicate InsertsOne(s: State, s': State, w: nat) {
    AtFront(s, w) && s.pcs[w].Inserting? && s.commits != [] && s.pcs[w].k < |Last(s.commits).ops|
    && s' == s.(pcs := s.pcs[w := Inserting(s.pcs[w].k + 1)],
                applied := s.applied + [EntriesOf(Last(s.commits))[s.pcs[w].k]])
  }

  ghost predicate InsertedAll(s: State, s': State, w: nat) {
    AtFront(s, w) && s.pcs[w].Inserting? && s.commits != [] && s.pcs[w].k == |Last(s.commits).ops|
    && s' == s.(pcs := s.pcs[w := Relocking(true, false)])
  }

  /** Back under the mutex: publish the new last sequence, clear tmp_batch_ if it was used,
      pop the group and tell its members. */
  ghost predicate Finishes(s: State, s': State, w: nat) {
    AtFront(s, w) && s.pcs[w].Relocking? && s.commits != []
    && var c, ok := Last(s.commits), s.pcs[w].ok;
       w < c.hi && c.hi - w <= |s.queue|
       && s' == s.(pcs := s.pcs[w := Returned(ok)],
                   done := TellFollowers(s.done, w, c.hi, ok),
                   queue := s.queue[c.hi - w..],
                   tmp := if UsedTmp(s.calls, c) then [] else s.tmp,
                   commits := SetLast(s.commits, c.(outcome := if ok then Ok else Failed)),
                   lastSequence := s.lastSequence + |c.ops|,
                   bgError := s.bgError || s.pcs[w].syncError)
  }

  ghost predicate Step(s: State, s': State, ev: Event) {
    match ev
    case Arrive(call) => Arrives(s, s', call)
    case TakeLead(w) => TakesLead(s, s', w)
    case ReturnDone(w) => ReturnsDone(s, s', w)
    case RoomFails(w) => LeavesAlone(s, s', w, false)
    case NullBatch(w) => LeavesAlone(s, s', w, true)
    case Form(w, hi) => Forms(s, s', w, hi)
    case LogRecord(w, ok) => LogsRecord(s, s', w, ok)
    case Sync(w, ok) => Syncs(s, s', w, ok)
    case Insert(w) => InsertsOne(s, s', w)
    case Inserted(w) => InsertedAll(s, s', w)
    case Finish(w) => Finishes(s, s', w)
  }

  /** `updates == tmp_batch_`: the group was gathered in the temporary batch. */
  predicate UsedTmp(calls: seq<Call>, c: Commit) {
    c.lo <= c.hi <= |calls| && CountBatches(calls, c.lo, c.hi) >= 2
  }

  ghost predicate Init(s: State) {
    s == State([], [], [], [], [], [], [], [], 0, false)
  }

  // ---- The invariant -----------------------------------------------------------------

  predicate Busy(p: Pc) { p.Logging? || p.Syncing? || p.Inserting? || p.Relocking? }

  /** The number of calls that have left the queue. */
  function Head(s: State): nat { if |s.queue| <= |s.calls| then |s.calls| - |s.queue| else 0 }

  /** What the thread at the front of the queue is doing. */
  function FrontPc(s: State): Pc { if s.queue != [] && Head(s) < |s.pcs| then s.pcs[Head(s)] else Waiting }

  ghost predicate QueueInv(calls: seq<Call>, pcs: seq<Pc>, done: seq<Option<bool>>, queue: seq<nat>, head: nat) {
    && |pcs| == |done| == |calls| && head + |queue| == |calls|
    && (forall i :: 0 <= i < |queue| ==> queue[i] == head + i)
    && (forall w :: head <= w < |calls| ==> done[w] == None && !pcs[w].Returned?)
    && (forall w :: head < w < |calls| ==> pcs[w] == Waiting)
    && (forall w :: 0 <= w < head ==> pcs[w].Returned? || (pcs[w] == Waiting && done[w].Some?))
  }

  ghost predicate WellFormed(calls: seq<Call>, c: Commit) {
    && c.lo < c.hi <= |calls| && calls[c.lo].batch.Some? && SyncRespected(calls, c.lo, c.hi)
    && c.ops == ConcatOps(calls, c.lo, c.hi)
    && (c.outcome == Ok ==> c.logged && (calls[c.lo].sync ==> c.synced))
  }

  /** Groups are disjoint runs of calls in arrival order, with adjoining sequence ranges. */
  ghost predicate Chained(commits: seq<Commit>) {
    && (forall i, j :: 0 <= i < j < |commits| ==>
          commits[i].hi <= commits[j].lo && commits[i].first + |commits[i].ops| <= commits[j].first)
    && (forall i, j :: 0 <= i < j < |commits| && j == i + 1 ==> commits[j].first == commits[i].first + |commits[i].ops|)
    && (commits != [] ==> commits[0].first == 1)
  }

  ghost predicate CommitsInv(calls: seq<Call>, commits: seq<Commit>) {
    && (forall i :: 0 <= i < |commits| ==> WellFormed(calls, commits[i]))
    && (forall i :: 0 <= i < |commits| - 1 ==> commits[i].outcome != Running)
    && Chained(commits)
  }

  /** What the thread at the front, if it is between Form and Finish, has done so far. */
  ghost predicate LeaderInv(calls: seq<Call>, commits: seq<Commit>, tmp: seq<Op>, last: nat, head: nat, p: Pc) {
    if Busy(p) then
      && commits != []
      && var c := Last(commits);
         && c.outcome == Running && c.lo == head && c.lo < c.hi <= |calls| && c.first == last + 1
         && (p.Logging? ==> !c.logged)
         && (p.Syncing? || p.Inserting? ==> c.logged)
         && (p.Inserting? ==> p.k <= |c.ops| && (calls[c.lo].sync ==> c.synced))
         && (p.Relocking? && p.ok ==> c.logged && (calls[c.lo].sync ==> c.synced))
         && tmp == if UsedTmp(calls, c) then c.ops else []
    else
      && tmp == []
      && (commits == [] ==> last == 0)
      && (commits != [] ==> Last(commits).outcome != Running && Last(commits).hi <= head)
      && (commits != [] ==> last + 1 == Last(commits).first + |Last(commits).ops|)
  }

  function LoggedOf(commits: seq<Commit>): seq<Record> {
    if commits == [] then [] else
      var c := Last(commits);
      LoggedOf(commits[..|commits| - 1]) + (if c.logged then [Record(c.first, c.ops)] else [])
  }

  function AppliedOf(commits: seq<Commit>): seq<Applied> {
    if commits == [] then [] else
      var c := Last(commits);
      AppliedOf(commits[..|commits| - 1]) + (if c.outcome == Ok then EntriesOf(c) else [])
  }

  /** The part of the running group already in the memtable. */
  function PartlyApplied(commits: seq<Commit>, p: Pc): seq<Applied> {
    if commits == [] then [] else
      match p
      case Inserting(k) => if k <= |Last(commits).ops| then EntriesOf(Last(commits))[..k] else []
      case Relocking(ok, _) => if ok then EntriesOf(Last(commits)) else []
      case _ => []
  }

  ghost predicate StoreInv(commits: seq<Commit>, applied: seq<Applied>, log: seq<Record>, p: Pc) {
    applied == AppliedOf(commits) + PartlyApplied(commits, p) && log == LoggedOf(commits)
  }

  /** The status a call has been or will be told, once it has left the queue. */
  function Result(pcs: seq<Pc>, done: seq<Option<bool>>, w: nat): bool
    requires w < |pcs| && w < |done|
  {
    if pcs[w].Returned? then pcs[w].ok else done[w].Some? && done[w].value
  }

  ghost predicate InCommit(commits: seq<Commit>, i: nat, w: nat) {
    i < |commits| && commits[i].lo <= w < commits[i].hi
  }

  /** A call told success had its batch in a group that was applied; a call in a group is
      told how the group ended. */
  ghost predicate ResultInv(calls: seq<Call>, pcs: seq<Pc>, done: seq<Option<bool>>, commits: seq<Commit>, head: nat) {
    && |pcs| == |done| == |calls|
    && (forall w {:trigger Result(pcs, done, w)} :: 0 <= w < head && w < |calls| && Result(pcs, done, w) && calls[w].batch.Some? ==>
          exists i: nat :: InCommit(commits, i, w))
    && (forall w: nat, i: nat :: w < head && w < |calls| && InCommit(commits, i, w) ==>
          (Result(pcs, done, w) <==> commits[i].outcome == Ok))
  }

  ghost predicate Inv(s: State) {
    && |s.queue| <= |s.calls|
    && QueueInv(s.calls, s.pcs, s.done, s.queue, Head(s))
    && CommitsInv(s.calls, s.commits)
    && LeaderInv(s.calls, s.commits, s.tmp, s.lastSequence, Head(s), FrontPc(s))
    && StoreInv(s.commits, s.applied, s.log, FrontPc(s))
    && ResultInv(s.calls, s.pcs, s.done, s.commits, Head(s))
  }

  lemma InitHolds(s: State)
    requires Init(s)
    ensures Inv(s)
  {
  }

  // ---- Every step keeps it -----------------------------------------------------------

  lemma {:induction false} ConcatOpsStable(calls: seq<Call>, more: seq<Call>, lo: nat, hi: nat)
    requires lo <= hi <= |calls| && calls <= more
    ensures ConcatOps(more, lo, hi) == ConcatOps(calls, lo, hi)
    ensures CountBatches(more, lo, hi) == CountBatches(calls, lo, hi)
  {
    if lo < hi { ConcatOpsStable(calls, more, lo, hi - 1); }
  }

  lemma ArriveKeepsCommits(calls: seq<Call>, more: seq<Call>, commits: seq<Commit>)
    requires CommitsInv(calls, commits) && calls <= more
    ensures CommitsInv(more, commits)
    ensures forall i :: 0 <= i < |commits| ==> UsedTmp(more, commits[i]) == UsedTmp(calls, commits[i])
  {
    forall i | 0 <= i < |commits|
      ensures WellFormed(more, commits[i]) && UsedTmp(more, commits[i]) == UsedTmp(calls, commits[i])
    {
      assert WellFormed(calls, commits[i]);
      ConcatOpsStable(calls, more, commits[i].lo, commits[i].hi);
    }
  }

  lemma ArriveKeepsInv(s: State, s': State, call: Call)
    requires Inv(s) && Arrives(s, s', call)
    ensures Inv(s')
  {
    ArriveKeepsCommits(s.calls, s'.calls, s.commits);
    assert Head(s') == Head(s);
    ArriveKeepsResults(s, s', call);
    if s.queue == [] { assert FrontPc(s') == Waiting == FrontPc(s); } else { assert FrontPc(s') == FrontPc(s); }
  }

  lemma ArriveKeepsResults(s: State, s': State, call: Call)
    requires Inv(s) && Arrives(s, s', call)
    ensures ResultInv(s'.calls, s'.pcs, s'.done, s'.commits, Head(s'))
  {
    assert forall w :: 0 <= w < Head(s) ==> Result(s'.pcs, s'.done, w) == Result(s.pcs, s.done, w);
  }

  lemma TakeLeadKeepsInv(s: State, s': State, w: nat)
    requires Inv(s) && TakesLead(s, s', w)
    ensures Inv(s')
  {
    FrontMoves(s, s', w, Room);
    FrontKeepsResults(s, s', w, Room);
  }

  lemma ReturnDoneKeepsInv(s: State, s': State, w: nat)
    requires Inv(s) && ReturnsDone(s, s', w)
    ensures Inv(s')
  {
    assert w < Head(s) == Head(s') && FrontPc(s') == FrontPc(s);
    assert forall v :: 0 <= v < Head(s) ==> Result(s'.pcs, s'.done, v) == Result(s.pcs, s.done, v);
  }

  /** The front thread moves on without leaving the queue. */
  lemma FrontMoves(s: State, s': State, w: nat, p: Pc)
    requires Inv(s) && AtFront(s, w) && !p.Returned?
    requires s'.calls == s.calls && s'.pcs == s.pcs[w := p] && s'.done == s.done && s'.queue == s.queue
    ensures w == Head(s) == Head(s') && FrontPc(s) == s.pcs[w] && FrontPc(s') == p
    ensures QueueInv(s'.calls, s'.pcs, s'.done, s'.queue, Head(s'))
  {
  }

  lemma FrontKeepsResults(s: State, s': State, w: nat, p: Pc)
    requires Inv(s) && AtFront(s, w)
    requires s'.pcs == s.pcs[w := p] && s'.done == s.done && s'.queue == s.queue && s'.calls == s.calls && s'.commits == s.commits
    ensures ResultInv(s'.calls, s'.pcs, s'.done, s'.commits, Head(s'))
  {
    assert w == Head(s) == Head(s');
    assert forall v :: 0 <= v < Head(s) ==> Result(s'.pcs, s'.done, v) == Result(s.pcs, s.done, v);
  }

  lemma GroupsAreBehind(s: State)
    requires Inv(s) && !Busy(FrontPc(s))
    ensures forall i :: 0 <= i < |s.commits| ==> s.commits[i].hi <= Head(s)
  {
    forall i | 0 <= i < |s.commits| - 1 ensures s.commits[i].hi <= Head(s) {
      assert s.commits[i].hi <= s.commits[|s.commits| - 1].lo;
      assert WellFormed(s.calls, s.commits[|s.commits| - 1]);
    }
  }

  lemma LeaveAloneKeepsQueue(s: State, s': State, w: nat, ok: bool)
    requires Inv(s) && LeavesAlone(s, s', w, ok)
    ensures w == Head(s) && Head(s') == w + 1 && FrontPc(s) == Room && FrontPc(s') == Waiting
    ensures QueueInv(s'.calls, s'.pcs, s'.done, s'.queue, Head(s'))
  {
    assert w == Head(s) && Head(s') == w + 1;
    assert forall i :: 0 <= i < |s'.queue| ==> s'.queue[i] == s.queue[i + 1];
  }

  lemma LeaveAloneKeepsResults(s: State, s': State, w: nat, ok: bool)
    requires Inv(s) && LeavesAlone(s, s', w, ok)
    ensures ResultInv(s'.calls, s'.pcs, s'.done, s'.commits, Head(s'))
  {
    LeaveAloneKeepsQueue(s, s', w, ok);
    GroupsAreBehind(s);
    assert forall v :: 0 <= v < w ==> Result(s'.pcs, s'.done, v) == Result(s.pcs, s.done, v);
    assert forall i: nat :: !InCommit(s.commits, i, w);
  }

  lemma LeaveAloneKeepsInv(s: State, s': State, w: nat, ok: bool)
    requires Inv(s) && LeavesAlone(s, s', w, ok)
    ensures Inv(s')
  {
    LeaveAloneKeepsQueue(s, s', w, ok);
    LeaveAloneKeepsResults(s, s', w, ok);
  }

  lemma ChainGrows(commits: seq<Commit>, c: Commit)
    requires Chained(commits)
    requires commits == [] ==> c.first == 1
    requires commits != [] ==> Last(commits).lo <= Last(commits).hi <= c.lo && c.first == Last(commits).first + |Last(commits).ops|
    ensures Chained(commits + [c])
  {
    var n := |commits|;
    forall i | 0 <= i < n ensures commits[i].hi <= c.lo && commits[i].first + |commits[i].ops| <= c.first {
      assert i < n - 1 ==> commits[i].hi <= commits[n - 1].lo;
    }
    var more := commits + [c];
    assert forall i :: 0 <= i < n ==> more[i] == commits[i];
    assert more[n] == c;
  }

  lemma FormKeepsCommits(calls: seq<Call>, commits: seq<Commit>, c: Commit)
    requires CommitsInv(calls, commits) && WellFormed(calls, c)
    requires commits == [] ==> c.first == 1
    requires commits != [] ==> Last(commits).outcome != Running && Last(commits).hi <= c.lo
    requires commits != [] ==> c.first == Last(commits).first + |Last(commits).ops|
    ensures CommitsInv(calls, commits + [c])
  {
    if commits != [] { assert WellFormed(calls, commits[|commits| - 1]); }
    ChainGrows(commits, c);
  }

  lemma FormKeepsHistory(commits: seq<Commit>, c: Commit)
    requires c.outcome == Running && !c.logged
    ensures AppliedOf(commits + [c]) == AppliedOf(commits) && LoggedOf(commits + [c]) == LoggedOf(commits)
  {
    assert (commits + [c])[..|commits|] == commits;
  }

  lemma FormKeepsInv(s: State, s': State, w: nat, hi: nat)
    requires Inv(s) && Forms(s, s', w, hi)
    ensures Inv(s')
  {
    FrontMoves(s, s', w, Logging);
    var c := Commit(w, hi, s.lastSequence + 1, ConcatOps(s.calls, w, hi), false, false, Running);
    FormKeepsCommits(s.calls, s.commits, c);
    FormKeepsHistory(s.commits, c);
    FormKeepsResults(s, s', w, hi);
  }

  lemma FormKeepsResults(s: State, s': State, w: nat, hi: nat)
    requires Inv(s) && Forms(s, s', w, hi)
    ensures ResultInv(s'.calls, s'.pcs, s'.done, s'.commits, Head(s'))
  {
    assert w == Head(s) == Head(s');
    assert forall v :: 0 <= v < Head(s) ==> Result(s'.pcs, s'.done, v) == Result(s.pcs, s.done, v);
    forall v: nat, i: nat | v < w && InCommit(s'.commits, i, v) ensures InCommit(s.commits, i, v) {
    }
    forall v: nat, i: nat | v < w && InCommit(s.commits, i, v) ensures InCommit(s'.commits, i, v) {
    }
  }

  /** The running group may record progress without disturbing the finished ones. */
  lemma ProgressKeepsHistory(commits: seq<Commit>, c: Commit)
    requires commits != [] && Last(commits).outcome == Running && c.outcome == Running
    ensures AppliedOf(SetLast(commits, c)) == AppliedOf(commits)
    ensures LoggedOf(SetLast(commits, c)) ==
            LoggedOf(commits[..|commits| - 1]) + (if c.logged then [Record(c.first, c.ops)] else [])
  {
    assert SetLast(commits, c)[..|commits| - 1] == commits[..|commits| - 1];
  }

  lemma ProgressKeepsCommits(calls: seq<Call>, commits: seq<Commit>, c: Commit)
    requires CommitsInv(calls, commits) && commits != [] && WellFormed(calls, c)
    requires var was := Last(commits); c.lo == was.lo && c.hi == was.hi && c.first == was.first && c.ops == was.ops
    ensures CommitsInv(calls, SetLast(commits, c))
  {
  }

  lemma ProgressKeepsResults(s: State, s': State, w: nat, c: Commit)
    requires Inv(s) && AtFront(s, w) && Busy(s.pcs[w]) && s.commits != []
    requires s'.commits == SetLast(s.commits, c) && c.lo == Last(s.commits).lo && c.hi == Last(s.commits).hi
    requires s'.calls == s.calls && s'.queue == s.queue && s'.done == s.done && |s'.pcs| == |s.pcs|
    requires forall v :: 0 <= v < |s.pcs| && v != w ==> s'.pcs[v] == s.pcs[v]
    ensures ResultInv(s'.calls, s'.pcs, s'.done, s'.commits, Head(s'))
  {
    assert w == Head(s) == Head(s') && FrontPc(s) == s.pcs[w];
    assert forall v :: 0 <= v < Head(s) ==> Result(s'.pcs, s'.done, v) == Result(s.pcs, s.done, v);
    forall v: nat, i: nat | v < w ensures InCommit(s'.commits, i, v) <==> InCommit(s.commits, i, v) {
    }
    forall v: nat, i: nat | v < w && InCommit(s.commits, i, v) ensures s'.commits[i] == s.commits[i] {
    }
  }

  /** Any progress of the running group: same group, the history of the others untouched. */
  lemma GroupProgresses(s: State, s': State, w: nat, p: Pc, c: Commit)
    requires Inv(s) && AtFront(s, w) && Busy(s.pcs[w]) && Busy(p) && s.commits != []
    requires s'.calls == s.calls && s'.pcs == s.pcs[w := p] && s'.done == s.done && s'.queue == s.queue
    requires s'.commits == SetLast(s.commits, c) && s'.tmp == s.tmp && s'.lastSequence == s.lastSequence
    requires var was := Last(s.commits); c == was.(logged := c.logged, synced := c.synced)
    requires LeaderInv(s.calls, s'.commits, s.tmp, s.lastSequence, w, p)
    requires StoreInv(s'.commits, s'.applied, s'.log, p)
    ensures Inv(s')
  {
    FrontMoves(s, s', w, p);
    assert WellFormed(s.calls, s.commits[|s.commits| - 1]);
    ProgressKeepsCommits(s.calls, s.commits, c);
    ProgressKeepsResults(s, s', w, c);
  }

  lemma FrontIsBusy(s: State, w: nat)
    requires Inv(s) && AtFront(s, w) && Busy(s.pcs[w])
    ensures w == Head(s) && FrontPc(s) == s.pcs[w] && s.commits != [] && Last(s.commits).outcome == Running
    ensures LeaderInv(s.calls, s.commits, s.tmp, s.lastSequence, w, s.pcs[w])
    ensures StoreInv(s.commits, s.applied, s.log, s.pcs[w])
  {
  }

  lemma LogFailKeepsInv(s: State, s': State, w: nat)
    requires Inv(s) && LogsRecord(s, s', w, false)
    ensures Inv(s')
  {
    FrontIsBusy(s, w);
    assert SetLast(s.commits, Last(s.commits)) == s.commits;
    GroupProgresses(s, s', w, Relocking(false, false), Last(s.commits));
  }

  lemma LogRecordKeepsInv(s: State, s': State, w: nat)
    requires Inv(s) && LogsRecord(s, s', w, true)
    ensures Inv(s')
  {
    FrontIsBusy(s, w);
    var c := Last(s.commits).(logged := true);
    LogRecordKeepsStore(s.commits, c, s.applied, s.log, s'.pcs[w]);
    GroupProgresses(s, s', w, s'.pcs[w], c);
  }

  lemma LogRecordKeepsStore(commits: seq<Commit>, c: Commit, applied: seq<Applied>, log: seq<Record>, p: Pc)
    requires commits != [] && Last(commits).outcome == Running && !Last(commits).logged
    requires c == Last(commits).(logged := true) && StoreInv(commits, applied, log, Logging)
    requires p == Syncing || p == Inserting(0)
    ensures StoreInv(SetLast(commits, c), applied, log + [Record(c.first, c.ops)], p)
  {
    ProgressKeepsHistory(commits, Last(commits));
    ProgressKeepsHistory(commits, c);
    assert SetLast(commits, Last(commits)) == commits;
  }

  lemma SyncFailKeepsInv(s: State, s': State, w: nat)
    requires Inv(s) && Syncs(s, s', w, false)
    ensures Inv(s')
  {
    FrontIsBusy(s, w);
    assert SetLast(s.commits, Last(s.commits)) == s.commits;
    GroupProgresses(s, s', w, Relocking(false, true), Last(s.commits));
  }

  lemma SyncKeepsInv(s: State, s': State, w: nat)
    requires Inv(s) && Syncs(s, s', w, true)
    ensures Inv(s')
  {
    FrontIsBusy(s, w);
    var c := Last(s.commits).(synced := true);
    SyncKeepsStore(s.commits, c, s.applied, s.log);
    GroupProgresses(s, s', w, Inserting(0), c);
  }

  lemma SyncKeepsStore(commits: seq<Commit>, c: Commit, applied: seq<Applied>, log: seq<Record>)
    requires commits != [] && Last(commits).outcome == Running
    requires c == Last(commits).(synced := true) && StoreInv(commits, applied, log, Syncing)
    ensures StoreInv(SetLast(commits, c), applied, log, Inserting(0))
  {
    ProgressKeepsHistory(commits, Last(commits));
    ProgressKeepsHistory(commits, c);
    assert SetLast(commits, Last(commits)) == commits;
  }

  lemma InsertKeepsInv(s: State, s': State, w: nat)
    requires Inv(s) && InsertsOne(s, s', w)
    ensures Inv(s')
  {
    FrontIsBusy(s, w);
    var es, k := EntriesOf(Last(s.commits)), s.pcs[w].k;
    assert es[..k + 1] == es[..k] + [es[k]];
    assert SetLast(s.commits, Last(s.commits)) == s.commits;
    GroupProgresses(s, s', w, Inserting(k + 1), Last(s.commits));
  }

  lemma InsertedKeepsInv(s: State, s': State, w: nat)
    requires Inv(s) && InsertedAll(s, s', w)
    ensures Inv(s')
  {
    FrontIsBusy(s, w);
    var es := EntriesOf(Last(s.commits));
    assert es[..|es|] == es;
    assert SetLast(s.commits, Last(s.commits)) == s.commits;
    GroupProgresses(s, s', w, Relocking(true, false), Last(s.commits));
  }

  lemma FinishKeepsHistory(commits: seq<Commit>, c: Commit)
    requires commits != [] && Last(commits).outcome == Running && c.logged == Last(commits).logged
    requires c.ops == Last(commits).ops && c.first == Last(commits).first && c.outcome != Running
    ensures AppliedOf(SetLast(commits, c)) == AppliedOf(commits) + (if c.outcome == Ok then EntriesOf(c) else [])
    ensures LoggedOf(SetLast(commits, c)) == LoggedOf(commits)
  {
    assert SetLast(commits, c)[..|commits| - 1] == commits[..|commits| - 1];
  }

  lemma FinishKeepsQueue(s: State, s': State, w: nat)
    requires Inv(s) && Finishes(s, s', w)
    ensures w == Head(s) && Head(s') == Last(s.commits).hi && FrontPc(s') == Waiting
    ensures QueueInv(s'.calls, s'.pcs, s'.done, s'.queue, Head(s'))
  {
    var c := Last(s.commits);
    assert w == Head(s) && FrontPc(s) == s.pcs[w];
    assert forall i :: 0 <= i < |s'.queue| ==> s'.queue[i] == s.queue[c.hi - w + i];
  }

  lemma FinishedResults(s: State, s': State, w: nat, v: nat)
    requires Inv(s) && Finishes(s, s', w) && v < Last(s.commits).hi
    ensures w == Head(s) && Last(s.commits).lo == w && v < |s.calls| && |s'.pcs| == |s'.done| == |s.calls|
    ensures Result(s'.pcs, s'.done, v) == if v < w then Result(s.pcs, s.done, v) else s.pcs[w].ok
    ensures forall i: nat :: InCommit(s'.commits, i, v) <==> InCommit(s.commits, i, v)
    ensures v >= w ==> forall i: nat :: InCommit(s'.commits, i, v) <==> i == |s.commits| - 1
    ensures v < w ==> forall i: nat :: InCommit(s'.commits, i, v) ==> s'.commits[i] == s.commits[i]
  {
    FrontIsBusy(s, w);
    FinishKeepsQueue(s, s', w);
  }

  lemma FinishKeepsResults(s: State, s': State, w: nat)
    requires Inv(s) && Finishes(s, s', w)
    ensures ResultInv(s'.calls, s'.pcs, s'.done, s'.commits, Head(s'))
  {
    FinishKeepsQueue(s, s', w);
    forall v: nat | v < Last(s.commits).hi && Result(s'.pcs, s'.done, v) && s.calls[v].batch.Some?
      ensures exists i: nat :: InCommit(s'.commits, i, v)
    {
      FinishedResults(s, s', w, v);
      if v < w {
        var i: nat :| InCommit(s.commits, i, v);
        assert InCommit(s'.commits, i, v);
      } else {
        assert InCommit(s'.commits, |s.commits| - 1, v);
      }
    }
    forall v: nat, i: nat | v < Last(s.commits).hi && InCommit(s'.commits, i, v)
      ensures Result(s'.pcs, s'.done, v) <==> s'.commits[i].outcome == Ok
    {
      FinishedResults(s, s', w, v);
    }
  }

  lemma FinishKeepsInv(s: State, s': State, w: nat)
    requires Inv(s) && Finishes(s, s', w)
    ensures Inv(s')
  {
    FrontIsBusy(s, w);
    FinishKeepsQueue(s, s', w);
    FinishKeepsResults(s, s', w);
    var was, c := Last(s.commits), Last(s'.commits);
    assert s'.commits == SetLast(s.commits, c);
    FinishKeepsStore(s, s', w);
    assert WellFormed(s.calls, s.commits[|s.commits| - 1]);
    ProgressKeepsCommits(s.calls, s.commits, c);
  }

  lemma FinishKeepsStore(s: State, s': State, w: nat)
    requires Inv(s) && Finishes(s, s', w)
    ensures StoreInv(s'.commits, s'.applied, s'.log, Waiting)
  {
    FrontIsBusy(s, w);
    var was, c := Last(s.commits), Last(s'.commits);
    ProgressKeepsHistory(s.commits, was);
    FinishKeepsHistory(s.commits, c);
    assert SetLast(s.commits, was) == s.commits && EntriesOf(c) == EntriesOf(was);
  }

  lemma StepKeepsInv(s: State, s': State, ev: Event)
    requires Inv(s) && Step(s, s', ev)
    ensures Inv(s')
  {
    match ev
    case Arrive(call) => ArriveKeepsInv(s, s', call);
    case TakeLead(w) => TakeLeadKeepsInv(s, s', w);
    case ReturnDone(w) => ReturnDoneKeepsInv(s, s', w);
    case RoomFails(w) => LeaveAloneKeepsInv(s, s', w, false);
    case NullBatch(w) => LeaveAloneKeepsInv(s, s', w, true);
    case Form(w, hi) => FormKeepsInv(s, s', w, hi);
    case LogRecord(w, ok) => if ok { LogRecordKeepsInv(s, s', w); } else { LogFailKeepsInv(s, s', w); }
    case Sync(w, ok) => if ok { SyncKeepsInv(s, s', w); } else { SyncFailKeepsInv(s, s', w); }
    case Insert(w) => InsertKeepsInv(s, s', w);
    case Inserted(w) => InsertedKeepsInv(s, s', w);
    case Finish(w) => FinishKeepsInv(s, s', w);
  }

  // ---- Whole runs --------------------------------------------------------------------

  ghost predicate StepsAt(run: seq<State>, events: seq<Event>, n: nat)
    requires n < |events| && |run| == |events| + 1
  {
    Step(run[n], run[n + 1], events[n])
  }

  ghost predicate IsRun(run: seq<State>, events: seq<Event>) {
    |run| == |events| + 1 && Init(run[0])
    && forall n {:trigger StepsAt(run, events, n)} :: 0 <= n < |events| ==> StepsAt(run, events, n)
  }

  lemma {:induction false} RunKeepsInv(run: seq<State>, events: seq<Event>, n: nat)
    requires IsRun(run, events) && n < |run|
    ensures Inv(run[n])
  {
    if n == 0 {
      InitHolds(run[0]);
    } else {
      RunKeepsInv(run, events, n - 1);
      NextKeepsInv(run, events, n - 1);
    }
  }

  lemma NextKeepsInv(run: seq<State>, events: seq<Event>, n: nat)
    requires IsRun(run, events) && n < |events| && Inv(run[n])
    ensures Inv(run[n + 1])
  {
    assert StepsAt(run, events, n);
    StepKeepsInv(run[n], run[n + 1], events[n]);
  }

  /** At every point of every interleaving: one thread at most is past the queue, it is the
      oldest one waiting, and tmp_batch_ is empty whenever a group is about to be formed. */
  lemma OneLeader(run: seq<State>, events: seq<Event>, n: nat, w: nat)
    requires IsRun(run, events) && n < |run| && w < |run[n].pcs|
    requires run[n].pcs[w] == Room || Busy(run[n].pcs[w])
    ensures AtFront(run[n], w)
    ensures forall v :: 0 <= v < |run[n].pcs| && (run[n].pcs[v] == Room || Busy(run[n].pcs[v])) ==> v == w
    ensures run[n].pcs[w] == Room ==> run[n].tmp == []
  {
    RunKeepsInv(run, events, n);
  }

  // ---- Sequence ranges and what readers see ------------------------------------------

  /** Where call w's own batch starts within its group. */
  function StartOf(calls: seq<Call>, c: Commit, w: nat): nat
    requires c.lo <= w <= |calls|
  {
    c.first + |ConcatOps(calls, c.lo, w)|
  }

  lemma {:induction false} ConcatSplits(calls: seq<Call>, lo: nat, w: nat, hi: nat)
    requires lo <= w <= hi <= |calls|
    ensures ConcatOps(calls, lo, hi) == ConcatOps(calls, lo, w) + ConcatOps(calls, w, hi)
    decreases hi
  {
    if w < hi { ConcatSplits(calls, lo, w, hi - 1); }
  }

  /** Call w's batch sits in its group's batch, right after those of the earlier calls. */
  lemma BatchSitsInGroup(calls: seq<Call>, lo: nat, w: nat, hi: nat)
    requires lo <= w < hi <= |calls|
    ensures var a, n := |ConcatOps(calls, lo, w)|, |OpsOf(calls[w])|;
            a + n <= |ConcatOps(calls, lo, hi)| && ConcatOps(calls, lo, hi)[a..a + n] == OpsOf(calls[w])
  {
    ConcatSplits(calls, lo, w + 1, hi);
    var front := ConcatOps(calls, lo, w);
    assert ConcatOps(calls, lo, w + 1) == front + OpsOf(calls[w]);
    assert ConcatOps(calls, lo, hi) == front + OpsOf(calls[w]) + ConcatOps(calls, w + 1, hi);
  }

  lemma {:induction false} AppliedOfMembers(commits: seq<Commit>, a: Applied)
    ensures a in AppliedOf(commits) <==> exists i :: 0 <= i < |commits| && commits[i].outcome == Ok && a in EntriesOf(commits[i])
  {
    if commits != [] {
      var n := |commits| - 1;
      AppliedOfMembers(commits[..n], a);
      assert forall i :: 0 <= i < n ==> commits[..n][i] == commits[i];
      if i :| 0 <= i < n && commits[i].outcome == Ok && a in EntriesOf(commits[i]) {
        assert commits[..n][i] == commits[i];
      }
    }
  }

  /** A group has either been wholly published or not at all. */
  lemma GroupIsPublishedWhole(s: State, i: nat)
    requires Inv(s) && i < |s.commits|
    ensures var c := s.commits[i];
            if c.outcome == Running then c.first == s.lastSequence + 1
            else c.first + |c.ops| <= s.lastSequence + 1
  {
    if i < |s.commits| - 1 { assert s.commits[i].first + |s.commits[i].ops| <= s.commits[|s.commits| - 1].first; }
  }

  /** Exactly which insertions a reader at LastSequence can see: all entries of the groups
      that succeeded, none of a failed or running one. */
  lemma VisibleIsWholeGroups(s: State, a: Applied)
    requires Inv(s)
    ensures a in s.applied && a.seqno <= s.lastSequence <==>
            exists i :: 0 <= i < |s.commits| && s.commits[i].outcome == Ok && a in EntriesOf(s.commits[i])
  {
    AppliedOfMembers(s.commits, a);
    if i :| 0 <= i < |s.commits| && s.commits[i].outcome == Ok && a in EntriesOf(s.commits[i]) {
      GroupIsPublishedWhole(s, i);
    }
    if a in PartlyApplied(s.commits, FrontPc(s)) {
      assert a in EntriesOf(Last(s.commits));
    }
  }

  /** Call w's whole batch is visible at LastSequence, in order and with consecutive sequence
      numbers. */
  ghost predicate BatchVisible(s: State, c: Commit, w: nat)
    requires c.lo <= w < |s.calls|
  {
    forall j :: 0 <= j < |OpsOf(s.calls[w])| ==>
      var a := Applied(StartOf(s.calls, c, w) + j, OpsOf(s.calls[w])[j]);
      a in s.applied && a.seqno <= s.lastSequence
  }

  /** No entry with one of call w's sequence numbers is visible at LastSequence. */
  ghost predicate BatchInvisible(s: State, c: Commit, w: nat)
    requires c.lo <= w < |s.calls|
  {
    forall a :: a in s.applied && StartOf(s.calls, c, w) <= a.seqno < StartOf(s.calls, c, w) + |OpsOf(s.calls[w])| ==>
      a.seqno > s.lastSequence
  }

  lemma EntriesInRange(c: Commit, a: Applied)
    requires a in EntriesOf(c)
    ensures c.first <= a.seqno < c.first + |c.ops|
  {
  }

  lemma EntryAt(c: Commit, k: nat)
    requires k < |c.ops|
    ensures Applied(c.first + k, c.ops[k]) in EntriesOf(c)
  {
    assert EntriesOf(c)[k] == Applied(c.first + k, c.ops[k]);
  }

  lemma BatchEntryInGroup(calls: seq<Call>, c: Commit, w: nat, j: nat)
    requires c.lo <= w < c.hi <= |calls| && c.ops == ConcatOps(calls, c.lo, c.hi) && j < |OpsOf(calls[w])|
    ensures Applied(StartOf(calls, c, w) + j, OpsOf(calls[w])[j]) in EntriesOf(c)
  {
    BatchSitsInGroup(calls, c.lo, w, c.hi);
    var at, n := |ConcatOps(calls, c.lo, w)|, |OpsOf(calls[w])|;
    assert c.ops[at..at + n][j] == c.ops[at + j];
    EntryAt(c, at + j);
  }

  lemma SuccessIsSeenWhole(s: State, i: nat, w: nat)
    requires Inv(s) && InCommit(s.commits, i, w) && w < |s.calls| && s.commits[i].outcome == Ok
    ensures BatchVisible(s, s.commits[i], w)
  {
    var c := s.commits[i];
    forall j | 0 <= j < |OpsOf(s.calls[w])|
      ensures var a := Applied(StartOf(s.calls, c, w) + j, OpsOf(s.calls[w])[j]); a in s.applied && a.seqno <= s.lastSequence
    {
      BatchEntrySeen(s, i, w, j);
    }
  }

  lemma BatchEntrySeen(s: State, i: nat, w: nat, j: nat)
    requires Inv(s) && InCommit(s.commits, i, w) && w < |s.calls| && s.commits[i].outcome == Ok && j < |OpsOf(s.calls[w])|
    ensures var a := Applied(StartOf(s.calls, s.commits[i], w) + j, OpsOf(s.calls[w])[j]);
            a in s.applied && a.seqno <= s.lastSequence
  {
    assert WellFormed(s.calls, s.commits[i]);
    BatchEntryInGroup(s.calls, s.commits[i], w, j);
    VisibleIsWholeGroups(s, Applied(StartOf(s.calls, s.commits[i], w) + j, OpsOf(s.calls[w])[j]));
  }

  lemma OthersAreNotSeen(s: State, i: nat, w: nat)
    requires Inv(s) && InCommit(s.commits, i, w) && w < |s.calls| && s.commits[i].outcome != Ok
    ensures BatchInvisible(s, s.commits[i], w)
  {
    var c := s.commits[i];
    assert WellFormed(s.calls, c);
    BatchSitsInGroup(s.calls, c.lo, w, c.hi);
    forall a | a in s.applied && StartOf(s.calls, c, w) <= a.seqno < StartOf(s.calls, c, w) + |OpsOf(s.calls[w])|
      ensures a.seqno > s.lastSequence
    {
      OtherGroupsElsewhere(s, i, a);
    }
  }

  /** A reader at LastSequence sees all of a batch or none of it: all when its group
      succeeded, none while the group runs or after it failed. */
  lemma ReadersSeeAllOrNone(s: State, i: nat, w: nat)
    requires Inv(s) && InCommit(s.commits, i, w) && w < |s.calls|
    ensures if s.commits[i].outcome == Ok then BatchVisible(s, s.commits[i], w) else BatchInvisible(s, s.commits[i], w)
  {
    if s.commits[i].outcome == Ok { SuccessIsSeenWhole(s, i, w); } else { OthersAreNotSeen(s, i, w); }
  }

  lemma RangesAreDisjoint(s: State, i: nat, j: nat, a: Applied)
    requires Inv(s) && i < |s.commits| && j < |s.commits| && i != j
    requires s.commits[i].first <= a.seqno < s.commits[i].first + |s.commits[i].ops|
    ensures a !in EntriesOf(s.commits[j])
  {
    forall x | x in EntriesOf(s.commits[j]) ensures x.seqno != a.seqno {
      EntriesInRange(s.commits[j], x);
    }
  }

  lemma OtherGroupsElsewhere(s: State, i: nat, a: Applied)
    requires Inv(s) && i < |s.commits| && s.commits[i].outcome != Ok
    requires s.commits[i].first <= a.seqno < s.commits[i].first + |s.commits[i].ops| && a in s.applied
    ensures a.seqno > s.lastSequence
  {
    VisibleIsWholeGroups(s, a);
    forall j | 0 <= j < |s.commits| && s.commits[j].outcome == Ok ensures a !in EntriesOf(s.commits[j]) {
      RangesAreDisjoint(s, i, j, a);
    }
  }

  /** A call that reported success had its whole batch applied once, under its own range of
      sequence numbers; if it asked for a sync, its group's record was synced first. */
  lemma SuccessMeansApplied(s: State, w: nat)
    requires Inv(s) && w < |s.calls| && w < Head(s) && Result(s.pcs, s.done, w) && s.calls[w].batch.Some?
    ensures exists i: nat :: InCommit(s.commits, i, w) && s.commits[i].outcome == Ok
              && BatchVisible(s, s.commits[i], w)
              && Record(s.commits[i].first, s.commits[i].ops) in s.log
              && (s.calls[w].sync ==> s.commits[i].synced)
              && forall j: nat :: InCommit(s.commits, j, w) ==> j == i
  {
    var i: nat :| InCommit(s.commits, i, w);
    var c := s.commits[i];
    assert WellFormed(s.calls, c) && c.outcome == Ok;
    ReadersSeeAllOrNone(s, i, w);
    LoggedOfMembers(s.commits, i);
    forall j: nat | InCommit(s.commits, j, w) ensures j == i {
      assert !(i < j) && !(j < i);
    }
  }

  lemma {:induction false} LoggedOfMembers(commits: seq<Commit>, i: nat)
    requires i < |commits| && commits[i].logged
    ensures Record(commits[i].first, commits[i].ops) in LoggedOf(commits)
  {
    if i < |commits| - 1 {
      LoggedOfMembers(commits[..|commits| - 1], i);
    }
  }

  ghost predicate Ascending(es: seq<Applied>) {
    forall i, j :: 0 <= i < j < |es| ==> es[i].seqno < es[j].seqno
  }

  lemma AscendingJoin(a: seq<Applied>, b: seq<Applied>, m: nat)
    requires Ascending(a) && Ascending(b)
    requires (forall i :: 0 <= i < |a| ==> a[i].seqno < m) && (forall j :: 0 <= j < |b| ==> m <= b[j].seqno)
    ensures Ascending(a + b)
  {
  }

  lemma {:induction false} AppliedBelow(commits: seq<Commit>, m: nat)
    requires forall i :: 0 <= i < |commits| ==> commits[i].first + |commits[i].ops| <= m
    ensures forall i :: 0 <= i < |AppliedOf(commits)| ==> AppliedOf(commits)[i].seqno < m
  {
    if commits != [] { AppliedBelow(commits[..|commits| - 1], m); }
  }

  /** Sequence numbers in the memtable only ever grow, so no entry is inserted twice. */
  lemma {:induction false} AppliedAscends(commits: seq<Commit>)
    requires Chained(commits)
    ensures Ascending(AppliedOf(commits))
  {
    if commits != [] {
      var n := |commits| - 1;
      var init, c := commits[..n], commits[n];
      assert forall i :: 0 <= i < n ==> init[i] == commits[i];
      AppliedAscends(init);
      AppliedBelow(init, c.first);
      AscendingJoin(AppliedOf(init), EntriesOf(c), c.first);
    }
  }

  /** In any reachable state the memtable was filled in order, each sequence number once. */
  lemma InsertionsAscend(s: State)
    requires Inv(s)
    ensures Ascending(s.applied)
  {
    AppliedAscends(s.commits);
    var part := PartlyApplied(s.commits, FrontPc(s));
    if part != [] {
      var c := Last(s.commits);
      assert forall i :: 0 <= i < |part| ==> part[i] == EntriesOf(c)[i];
      FinishedBelow(s);
      AscendingJoin(AppliedOf(s.commits), part, c.first);
    }
  }

  lemma FinishedBelow(s: State)
    requires Inv(s) && s.commits != [] && Last(s.commits).outcome == Running
    ensures forall i :: 0 <= i < |AppliedOf(s.commits)| ==> AppliedOf(s.commits)[i].seqno < Last(s.commits).first
  {
    var n := |s.commits| - 1;
    var init := s.commits[..n];
    assert AppliedOf(s.commits) == AppliedOf(init);
    assert forall i :: 0 <= i < n ==> s.commits[i].first + |s.commits[i].ops| <= s.commits[n].first;
    AppliedBelow(init, s.commits[n].first);
  }

  // ---- Snapshots stay fixed ----------------------------------------------------------

  ghost predicate SeenAt(s: State, q: nat, a: Applied) { a in s.applied && a.seqno <= q }

  /** What a reader at snapshot q = LastSequence of some moment sees never changes after. */
  lemma StepKeepsSnapshots(s: State, s': State, ev: Event, q: nat, a: Applied)
    requires Inv(s) && Step(s, s', ev) && q <= s.lastSequence
    ensures q <= s'.lastSequence && (SeenAt(s', q, a) <==> SeenAt(s, q, a))
  {
    match ev
    case Insert(w) =>
      FrontIsBusy(s, w);
      assert EntriesOf(Last(s.commits))[s.pcs[w].k].seqno > s.lastSequence;
    case _ =>
  }

  lemma {:induction false} SnapshotsAreFixed(run: seq<State>, events: seq<Event>, i: nat, j: nat, a: Applied)
    requires IsRun(run, events) && i <= j < |run|
    ensures run[i].lastSequence <= run[j].lastSequence
    ensures SeenAt(run[j], run[i].lastSequence, a) <==> SeenAt(run[i], run[i].lastSequence, a)
    decreases j
  {
    if i < j {
      SnapshotsAreFixed(run, events, i, j - 1, a);
      RunStepKeepsSnapshots(run, events, j - 1, run[i].lastSequence, a);
    }
  }

  lemma RunStepKeepsSnapshots(run: seq<State>, events: seq<Event>, n: nat, q: nat, a: Applied)
    requires IsRun(run, events) && n < |events| && q <= run[n].lastSequence
    ensures q <= run[n + 1].lastSequence && (SeenAt(run[n + 1], q, a) <==> SeenAt(run[n], q, a))
  {
    RunKeepsInv(run, events, n);
    assert StepsAt(run, events, n);
    StepKeepsSnapshots(run[n], run[n + 1], events[n], q, a);
  }
}
