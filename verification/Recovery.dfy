/** Replaying a log after a crash (db/db_impl.cc: RecoverLogFile). */
module Recovery {
  import opened Coding
  import opened LogFormat
  import opened LogReading
  import opened WriteBatches

  /** A batch as it went into the log. */
  datatype Logged = Logged(first: nat, ops: seq<BatchOp>)

  ghost predicate Sound(b: Logged) {
    0 < b.first && b.first + |b.ops| < TWO64 && |b.ops| < MAX_COUNT && AllEncodable(b.ops)
  }

  ghost predicate AllSound(bs: seq<Logged>) { forall i :: 0 <= i < |bs| ==> Sound(bs[i]) }

  ghost function Records(bs: seq<Logged>): seq<Bytes>
    requires AllSound(bs)
  {
    seq(|bs|, i requires 0 <= i < |bs| => BatchBytes(bs[i].first, bs[i].ops))
  }

  /** One insertion into the memtable. */
  datatype Inserted = Inserted(seqno: nat, op: BatchOp)

  function Numbered(first: nat, ops: seq<BatchOp>): seq<Inserted> {
    seq(|ops|, i requires 0 <= i < |ops| => Inserted(first + i, ops[i]))
  }

  ghost function AllEntries(bs: seq<Logged>): seq<Inserted> {
    if bs == [] then [] else AllEntries(bs[..|bs| - 1]) + Numbered(bs[|bs| - 1].first, bs[|bs| - 1].ops)
  }

  /** The last sequence number of a batch, in 64-bit arithmetic. */
  function LastOf(first: nat, count: int): nat { (first + count - 1) % TWO64 }

  ghost function MaxLast(start: nat, bs: seq<Logged>): nat {
    if bs == [] then start else
      var m := MaxLast(start, bs[..|bs| - 1]);
      var l := LastOf(bs[|bs| - 1].first, |bs[|bs| - 1].ops|);
      if l > m then l else m
  }

  /** max_sequence covers every entry that was replayed. */
  lemma {:induction false} MaxLastCovers(start: nat, bs: seq<Logged>)
    requires AllSound(bs)
    ensures MaxLast(start, bs) >= start
    ensures forall e :: e in AllEntries(bs) ==> e.seqno <= MaxLast(start, bs)
  {
    if bs != [] { MaxLastCovers(start, bs[..|bs| - 1]); }
  }

  /** A batch whose record is whole in the file is among the batches replayed. */
  lemma DurableBatchSurvives(crc: Checksum, file: Bytes, records: seq<Bytes>, n: nat, k: nat)
    requires WholeRecords(crc, file, records, n)
    requires k <= |records| && LogOf(crc, records[..k]) <= file
    ensures k <= n
  {
    if k > n {
      FewerRecords(crc, records, n + 1, k);
    }
  }

  lemma FewerRecords(crc: Checksum, records: seq<Bytes>, j: nat, k: nat)
    requires j <= k <= |records|
    ensures LogOf(crc, records[..j]) <= LogOf(crc, records[..k])
  {
    assert records[..k][..j] == records[..j];
    LogOfPrefix(crc, records[..k], j);
  }

  /** What a record holding batch b does to the recovered state. */
  lemma SoundRecord(b: Logged)
    requires Sound(b)
    ensures var r := BatchBytes(b.first, b.ops);
            |r| >= BATCH_HEADER && ParseBatch(r) == (b.ops, Ok) && Sequence(r) == b.first && Count(r) == |b.ops|
  {
    HeaderOfBatch(b.first, b.ops);
    BatchRoundTrip(b.first, b.ops);
  }

  /** WriteBatchInternal::InsertInto: numbers the operations from the batch's own sequence. */
  method InsertInto(record: Bytes) returns (entries: seq<Inserted>, ok: bool)
    requires |record| >= BATCH_HEADER
    ensures entries == Numbered(Sequence(record), ParseBatch(record).0) && ok == ParseBatch(record).1.Ok?
  {
    var ops, status := Iterate(record);
    return Numbered(Sequence(record), ops), status.Ok?;
  }

  /** The body of the replay loop: MaybeIgnoreError swallows a bad batch unless paranoid. */
  method ReplayRecord(record: Bytes, maxSequence0: nat, paranoid: bool, ghost b: Logged)
      returns (entries: seq<Inserted>, maxSequence: nat, ok: bool)
    ensures maxSequence >= maxSequence0 && (!paranoid ==> ok)
    ensures Sound(b) && record == BatchBytes(b.first, b.ops) ==>
              ok && entries == Numbered(b.first, b.ops)
              && var last := LastOf(b.first, |b.ops|); maxSequence == if last > maxSequence0 then last else maxSequence0
  {
    ghost var sound := Sound(b) && record == BatchBytes(b.first, b.ops);
    if sound { SoundRecord(b); }
    if |record| < BATCH_HEADER {
      return [], maxSequence0, !paranoid;
    }
    entries, ok := InsertInto(record);
    if !ok && paranoid {
      return entries, maxSequence0, false;
    }
    var last := LastOf(Sequence(record), Count(record));
    return entries, if last > maxSequence0 then last else maxSequence0, true;
  }

  ghost function NextBatch(bs: seq<Logged>, k: nat): Logged { if k < |bs| then bs[k] else Logged(0, []) }

  /** The state of the replay after its first k records, when the file is a prefix of a log. */
  ghost predicate ReplayedUpTo(crc: Checksum, file: Bytes, bs: seq<Logged>, k: nat, pos: nat, inserted: seq<Inserted>, start: nat, maxSequence: nat)
    requires AllSound(bs)
  {
    k <= |bs| && ReadUpTo(crc, file, Records(bs), Records(bs)[..k], pos)
    && inserted == AllEntries(bs[..k]) && maxSequence == MaxLast(start, bs[..k])
  }

  lemma ReplayAdvances(crc: Checksum, file: Bytes, rs: seq<Bytes>, k: nat, pos: nat)
    requires k <= |rs| && file <= LogOf(crc, rs) && ReadUpTo(crc, file, rs, rs[..k], pos)
    ensures var bytes := RecordBytes(crc, pos, NextRecord(rs, k));
            if StartsAt(file, pos, bytes) then k < |rs| && ReadUpTo(crc, file, rs, rs[..k + 1], pos + |bytes|)
            else EndsInside(file, pos, bytes) && WholeRecords(crc, file, rs, k)
  {
    if k < |rs| { TakeOneMore(rs, k); }
    NextStands(crc, file, rs, rs[..k], pos);
  }

  lemma EntriesGrow(bs: seq<Logged>, k: nat, start: nat)
    requires k < |bs|
    ensures AllEntries(bs[..k + 1]) == AllEntries(bs[..k]) + Numbered(bs[k].first, bs[k].ops)
    ensures var last := LastOf(bs[k].first, |bs[k].ops|);
            MaxLast(start, bs[..k + 1]) == if last > MaxLast(start, bs[..k]) then last else MaxLast(start, bs[..k])
  {
    assert bs[..k + 1][..k] == bs[..k];
  }

  /** RecoverLogFile, on any file: replay records until the reader or a batch gives up.
      `paranoid` decides whether corruption stops the replay. On any byte prefix of the log of
      batches `bs` the entries recovered are exactly those of the batches whose records are
      whole, each with its own sequence number. Spilling a full memtable to a table moves
      entries and does not change which are recovered. */
  method RecoverLogFile(crc: Checksum, file: Bytes, maxSequence0: nat, paranoid: bool, ghost bs: seq<Logged>)
      returns (inserted: seq<Inserted>, maxSequence: nat, ok: bool)
    requires AllSound(bs)
    ensures maxSequence >= maxSequence0 && (!paranoid ==> ok)
    ensures file <= LogOf(crc, Records(bs)) ==>
              ok && (exists n :: 0 <= n <= |bs| && WholeRecords(crc, file, Records(bs), n)
                       && inserted == AllEntries(bs[..n]) && maxSequence == MaxLast(maxSequence0, bs[..n]))
  {
    inserted, maxSequence, ok := [], maxSequence0, true;
    var reader := new Reader(crc, file);
    ghost var good := file <= LogOf(crc, Records(bs));
    ghost var k := 0;
    while true
      invariant reader.Valid() && fresh(reader) && reader.crc == crc && reader.file == file
      invariant maxSequence >= maxSequence0 && (!paranoid ==> ok)
      invariant good ==> ok && ReplayedUpTo(crc, file, bs, k, reader.Pos(), inserted, maxSequence0, maxSequence)
      decreases |file| - reader.Pos()
    {
      var reported := |reader.reports|;
      if good { ReplayAdvances(crc, file, Records(bs), k, reader.Pos()); }
      var record := reader.ReadRecord(NextRecord(Records(bs), k));
      if paranoid && |reader.reports| > reported {
        ok := false;
      }
      if record.None? || !ok {
        return;
      }
      if good { EntriesGrow(bs, k, maxSequence0); }
      var entries, maxNow, good1 := ReplayRecord(record.value, maxSequence, paranoid, NextBatch(bs, k));
      inserted, maxSequence, k := inserted + entries, maxNow, k + 1;
      if !good1 {
        ok := good1;
        // A record too small to be a batch does not stop the reader by itself.
        if |record.value| >= BATCH_HEADER { return; }
      }
    }
  }
}
