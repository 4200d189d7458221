/** Reading records back from a log (db/log_reader.cc), from the start of the file. */
module LogReading {
  import opened Coding
  import opened LogFormat
  import opened LogWriting

  /** What ReadPhysicalRecord hands back: kEof, kBadRecord, or a type byte and a fragment. */
  datatype PhysicalResult = Eof | BadRecord | Record(kind: Byte, payload: Bytes)

  /** The bytes from p on begin with `b`. */
  ghost predicate StartsAt(file: Bytes, p: nat, b: Bytes) {
    p <= |file| && b <= file[p..]
  }

  /** The file ends inside `b`, which would have started at p. */
  ghost predicate EndsInside(file: Bytes, p: nat, b: Bytes) {
    p <= |file| && file[p..] < b
  }

  class Reader {
    const crc: Checksum
    const file: Bytes
    var filePos: nat        // end_of_buffer_offset_
    var buffer: Bytes
    var eof: bool
    var reports: seq<nat>   // bytes dropped at each reported corruption

    ghost predicate Valid()
      reads this
    {
      && |buffer| <= filePos <= |file| && buffer == file[filePos - |buffer|..filePos]
      && (eof ==> filePos == |file|) && (!eof ==> filePos % BLOCK == 0)
      && |buffer| <= BLOCK - Pos() % BLOCK
    }

    /** The file position of the next unread byte. */
    function Pos(): nat
      reads this
    {
      if |buffer| <= filePos then filePos - |buffer| else 0
    }

    constructor (crc: Checksum, file: Bytes)
      ensures Valid() && this.crc == crc && this.file == file && Pos() == 0 && reports == []
    {
      this.crc, this.file := crc, file;
      filePos, buffer, eof, reports := 0, [], false, [];
    }

    /** Reads the next block into the emptied buffer; a short read means end of file. */
    method Refill()
      requires Valid() && !eof && |buffer| < HEADER
      modifies this
      ensures Valid() && reports == old(reports) && Pos() == old(filePos)
      ensures if |file| - old(filePos) >= BLOCK then !eof && filePos == old(filePos) + BLOCK
              else eof && filePos == |file|
    {
      var n := if |file| - filePos < BLOCK then |file| - filePos else BLOCK;
      buffer := file[filePos..filePos + n];
      filePos := filePos + n;
      if n < BLOCK {
        eof := true;
      }
    }

    /** Brings a whole header into the buffer, skipping the trailer of the block before. It
        stands then exactly where the writer would have put the next fragment. */
    method FindHeader() returns (found: bool)
      requires Valid()
      modifies this
      ensures Valid() && reports == old(reports)
      ensures found ==> |buffer| >= HEADER && Pos() == old(Pos()) + Pad(old(Pos()))
      ensures !found ==> |file| < old(Pos()) + Pad(old(Pos())) + HEADER
      ensures found && !eof ==> |buffer| == BLOCK - Pos() % BLOCK
    {
      BufferReachesBlockEnd();
      if |buffer| < HEADER {
        if eof {
          buffer := [];
          return false;
        }
        Refill();
        BufferReachesBlockEnd();
        if |buffer| < HEADER {
          buffer := [];
          return false;
        }
      }
      return true;
    }

    lemma BufferReachesBlockEnd()
      requires Valid()
      ensures !eof && buffer != [] ==> |buffer| == BLOCK - Pos() % BLOCK
      ensures !eof && |buffer| < HEADER ==> filePos == Pos() + Pad(Pos())
      ensures |buffer| >= HEADER ==> Pad(Pos()) == 0
    {
    }

    /** ReadPhysicalRecord on any file. When a well-formed fragment f stands at the reader's
        position it is returned intact; when the file ends inside one, end of file is
        reported and nothing else. */
    method ReadPhysicalRecord(ghost f: Fragment) returns (r: PhysicalResult)
      requires Valid()
      modifies this
      ensures Valid()
      ensures !r.Eof? ==> Pos() > old(Pos())
      ensures |f.payload| <= Room(old(Pos())) && StartsAt(file, old(Pos()), Placed(crc, old(Pos()), f)) ==>
              r == Record(TypeByte(f.kind), f.payload) && reports == old(reports)
              && Pos() == old(Pos()) + Pad(old(Pos())) + HEADER + |f.payload|
      ensures |f.payload| <= Room(old(Pos())) && EndsInside(file, old(Pos()), Placed(crc, old(Pos()), f)) ==>
              r.Eof? && reports == old(reports)
    {
      ghost var p := Pos();
      var found := FindHeader();
      if !found {
        return Eof;
      }
      if |f.payload| <= Room(p) {
        FragmentUnderHeader(p, f);
        if buffer[..HEADER] == Physical(crc, f)[..HEADER] { HeaderReads(crc, f, buffer); }
      }
      var length: nat := buffer[4] as int + 256 * (buffer[5] as int);
      var kind := buffer[6];
      if HEADER + length > |buffer| {
        r := if eof then Eof else BadRecord;
        Drop(!eof);
        return;
      }
      if kind == 0 && length == 0 {
        Drop(false);
        return BadRecord;
      }
      var payload := buffer[HEADER..HEADER + length];
      if Unmask(DecodeFixed32(buffer)) != crc(kind, payload) % TWO32 {
        Drop(true);
        return BadRecord;
      }
      Consume(HEADER + length);
      return Record(kind, payload);
    }

    /** Gives up on the rest of the buffer, reporting the loss or not. */
    method Drop(report: bool)
      requires Valid()
      modifies this
      ensures Valid() && Pos() == old(Pos()) + old(|buffer|)
      ensures reports == old(reports) + if report then [old(|buffer|)] else []
    {
      if report { reports := reports + [|buffer|]; }
      buffer := [];
    }

    method Consume(n: nat)
      requires Valid() && n <= |buffer|
      modifies this
      ensures Valid() && Pos() == old(Pos()) + n && reports == old(reports)
    {
      buffer := buffer[n..];
    }

    /** With a header in the buffer, a well-formed fragment at the reader's position shows its
        own length, type and checksum there, and is cut short only by the end of the file. */
    lemma FragmentUnderHeader(p: nat, f: Fragment)
      requires Valid() && |buffer| >= HEADER && Pos() == p + Pad(p) && |f.payload| <= Room(p)
      requires !eof ==> |buffer| == BLOCK - Pos() % BLOCK
      ensures StartsAt(file, p, Placed(crc, p, f)) ==>
                HEADER + |f.payload| <= |buffer| && buffer[..HEADER + |f.payload|] == Physical(crc, f)
      ensures EndsInside(file, p, Placed(crc, p, f)) ==>
                eof && |buffer| < HEADER + |f.payload| && buffer[..HEADER] == Physical(crc, f)[..HEADER]
    {
      var whole, phys := Placed(crc, p, f), Physical(crc, f);
      assert whole[Pad(p)..] == phys;
      assert file[p..][Pad(p)..] == file[Pos()..];
      assert buffer == file[Pos()..][..|buffer|];
      if StartsAt(file, p, whole) {
        assert file[p..][..|whole|] == whole;
        assert file[Pos()..][..|phys|] == phys;
      }
      if EndsInside(file, p, whole) {
        assert file[Pos()..] == phys[..|file| - Pos()];
      }
    }

    // ---- ReadRecord ------------------------------------------------------------------

    /** One turn of ReadRecord's loop. If a record is under way in the file (`known`), the
        turn completes it, goes on with it, or meets the end of the file inside it. */
    method TakeFragment(inFragment: bool, scratch: Bytes, ghost known: bool, ghost rec: Bytes, ghost goal: nat, ghost whole: bool)
        returns (r: Option<Assembly>)
      requires Valid()
      requires known ==> OnTrack(crc, file, Pos(), inFragment, scratch, rec, goal, whole)
      modifies this
      ensures Valid() && (r.Some? ==> Pos() > old(Pos()))
      ensures known ==> reports == old(reports)
      ensures known && r.None? ==> !whole
      ensures known && r.Some? && r.value.Whole? ==> whole && r.value.record == rec && Pos() == goal
      ensures known && r.Some? && r.value.Partial? ==>
                OnTrack(crc, file, Pos(), r.value.inFragment, r.value.scratch, rec, goal, whole)
    {
      ghost var f := NextFragment(Pos(), inFragment, if known then scratch else rec, rec);
      if known {
        TrackAdvances(crc, file, Pos(), inFragment, scratch, rec, goal, whole);
        FragmentAssembles(Pos(), inFragment, scratch, rec);
      }
      ghost var next := Pos() + Pad(Pos()) + HEADER + |f.payload|;
      var physical := ReadPhysicalRecord(f);
      if physical.Eof? {
        return None;
      }
      var step := Assemble(physical, inFragment, scratch);
      assert known ==> step.dropped == [] && (IsLast(f) <==> step.Whole?);
      assert known && step.Partial? ==> step.inFragment && step.scratch == scratch + f.payload;
      assert known ==> Pos() == next;
      assert known && step.Partial? ==> OnTrack(crc, file, next, true, scratch + f.payload, rec, goal, whole);
      Report(step.dropped);
      return Some(step);
    }

    method Report(dropped: seq<nat>)
      requires Valid()
      modifies this`reports
      ensures Valid() && reports == old(reports) + dropped
    {
      reports := reports + dropped;
    }

    /** ReadRecord on any file. When record `rec` stands whole at the reader's position it is
        returned; when the file ends inside it there is no record; either way nothing is
        reported. */
    method ReadRecord(ghost rec: Bytes) returns (r: Option<Bytes>)
      requires Valid()
      modifies this
      ensures Valid()
      ensures r.Some? ==> Pos() > old(Pos())
      ensures StartsAt(file, old(Pos()), RecordBytes(crc, old(Pos()), rec)) ==>
              r == Some(rec) && reports == old(reports) && Pos() == old(Pos()) + |RecordBytes(crc, old(Pos()), rec)|
      ensures EndsInside(file, old(Pos()), RecordBytes(crc, old(Pos()), rec)) ==> r == None && reports == old(reports)
    {
      var scratch: Bytes := [];
      var inFragment := false;
      ghost var p := Pos();
      ghost var bytes := RecordBytes(crc, p, rec);
      ghost var whole, known := StartsAt(file, p, bytes), StartsAt(file, p, bytes) || EndsInside(file, p, bytes);
      StartsOnTrack(crc, file, p, rec);
      while true
        invariant Valid() && p <= Pos()
        invariant known ==> reports == old(reports)
        invariant known ==> OnTrack(crc, file, Pos(), inFragment, scratch, rec, p + |bytes|, whole)
        decreases |file| - Pos()
      {
        var step := TakeFragment(inFragment, scratch, known, rec, p + |bytes|, whole);
        if step.None? {
          return None;
        }
        if step.value.Whole? {
          return Some(step.value.record);
        }
        inFragment, scratch := step.value.inFragment, step.value.scratch;
      }
    }
  }

  /** What one physical record does to the record being put together. */
  datatype Assembly =
    | Whole(record: Bytes, dropped: seq<nat>)
    | Partial(inFragment: bool, scratch: Bytes, dropped: seq<nat>)

  /** The switch on the record type in ReadRecord. */
  function Assemble(p: PhysicalResult, inFragment: bool, scratch: Bytes): Assembly
    requires !p.Eof?
  {
    if p.BadRecord? then Partial(false, if inFragment then [] else scratch, if inFragment then [|scratch|] else [])
    else
      var lost := if inFragment && scratch != [] then [|scratch|] else [];
      if p.kind == 1 then Whole(p.payload, lost)
      else if p.kind == 2 then Partial(true, p.payload, lost)
      else if p.kind == 3 then
        if inFragment then Partial(true, scratch + p.payload, []) else Partial(false, scratch, [|p.payload|])
      else if p.kind == 4 then
        if inFragment then Whole(scratch + p.payload, []) else Partial(false, scratch, [|p.payload|])
      else Partial(false, [], [|p.payload| + if inFragment then |scratch| else 0])
  }

  /** The bytes still to come, from position n, of a record of which `scratch` is gathered. */
  ghost function Rest(crc: Checksum, n: nat, inFragment: bool, scratch: Bytes, rec: Bytes): Bytes
    requires scratch <= rec
  {
    Layout(crc, n, FragmentsOf(n, !inFragment, rec[|scratch|..]))
  }

  /** The first of the fragments still to come. */
  ghost function NextFragment(n: nat, inFragment: bool, scratch: Bytes, rec: Bytes): (f: Fragment)
    requires scratch <= rec
    ensures |f.payload| <= Room(n)
  {
    var left := rec[|scratch|..];
    var length := if |left| < Room(n) then |left| else Room(n);
    Fragment(KindOf(!inFragment, length == |left|), left[..length])
  }

  /** The reader is in the middle of record `rec`, which stands whole in the file and ends at
      `goal`, or which the file cuts short. */
  ghost predicate OnTrack(crc: Checksum, file: Bytes, n: nat, inFragment: bool, scratch: Bytes, rec: Bytes, goal: nat, whole: bool) {
    && scratch <= rec && (!inFragment ==> scratch == [])
    && var rest := Rest(crc, n, inFragment, scratch, rec);
       if whole then StartsAt(file, n, rest) && n + |rest| == goal else EndsInside(file, n, rest)
  }

  ghost predicate IsLast(f: Fragment) { f.kind == FullType || f.kind == LastType }

  lemma RestUnfolds(crc: Checksum, n: nat, inFragment: bool, scratch: Bytes, rec: Bytes)
    requires scratch <= rec
    ensures var f := NextFragment(n, inFragment, scratch, rec);
            scratch + f.payload <= rec && (IsLast(f) <==> scratch + f.payload == rec)
            && var next := n + Pad(n) + HEADER + |f.payload|;
               Rest(crc, n, inFragment, scratch, rec) ==
                 Placed(crc, n, f) + if IsLast(f) then [] else Rest(crc, next, true, scratch + f.payload, rec)
  {
    var left := rec[|scratch|..];
    var f := NextFragment(n, inFragment, scratch, rec);
    LayoutUnfolds(crc, n, !inFragment, left);
    assert rec == scratch + left;
    assert left[|f.payload|..] == rec[|scratch + f.payload|..];
  }

  lemma StartsOnTrack(crc: Checksum, file: Bytes, n: nat, rec: Bytes)
    ensures var bytes := RecordBytes(crc, n, rec);
            StartsAt(file, n, bytes) || EndsInside(file, n, bytes) ==>
              OnTrack(crc, file, n, false, [], rec, n + |bytes|, StartsAt(file, n, bytes))
  {
    assert rec[0..] == rec;
  }

  /** A record's own fragments go through the switch without anything being dropped. */
  lemma FragmentAssembles(n: nat, inFragment: bool, scratch: Bytes, rec: Bytes)
    requires scratch <= rec && (!inFragment ==> scratch == [])
    ensures var f := NextFragment(n, inFragment, scratch, rec);
            Assemble(Record(TypeByte(f.kind), f.payload), inFragment, scratch) ==
              if IsLast(f) then Whole(scratch + f.payload, []) else Partial(true, scratch + f.payload, [])
  {
  }

  /** The next fragment is in the file, and after it the reader is still on track or has the
      whole record; or the file ends inside it. */
  lemma TrackAdvances(crc: Checksum, file: Bytes, n: nat, inFragment: bool, scratch: Bytes, rec: Bytes, goal: nat, whole: bool)
    requires OnTrack(crc, file, n, inFragment, scratch, rec, goal, whole)
    ensures var f := NextFragment(n, inFragment, scratch, rec);
            var next := n + Pad(n) + HEADER + |f.payload|;
            if StartsAt(file, n, Placed(crc, n, f)) then
              if IsLast(f) then whole && next == goal && scratch + f.payload == rec
              else OnTrack(crc, file, next, true, scratch + f.payload, rec, goal, whole)
            else !whole && EndsInside(file, n, Placed(crc, n, f))
  {
    RestUnfolds(crc, n, inFragment, scratch, rec);
    var f := NextFragment(n, inFragment, scratch, rec);
    var placed, rest := Placed(crc, n, f), Rest(crc, n, inFragment, scratch, rec);
    var next := n + Pad(n) + HEADER + |f.payload|;
    FileAfterFragment(file, n, placed, rest);
    assert rest[|placed|..] == if IsLast(f) then [] else Rest(crc, next, true, scratch + f.payload, rec);
  }

  /** A file that holds, or ends inside, `whole` holds or ends inside its first part, and in
      the first case stands the same way to what follows. */
  lemma FileAfterFragment(file: Bytes, p: nat, first: Bytes, whole: Bytes)
    requires first <= whole
    ensures StartsAt(file, p, whole) ==> StartsAt(file, p, first) && StartsAt(file, p + |first|, whole[|first|..])
    ensures EndsInside(file, p, whole) ==>
              EndsInside(file, p, first) || (StartsAt(file, p, first) && EndsInside(file, p + |first|, whole[|first|..]))
  {
    if p <= |file| {
      var here := file[p..];
      if |first| <= |here| {
        assert here[|first|..] == file[p + |first|..];
        if here <= whole { assert here[..|first|] == first; }
      }
    }
  }

  /** The header of a physical record says what is in it. */
  lemma HeaderReads(crc: Checksum, f: Fragment, h: Bytes)
    requires |f.payload| <= 0xffff && |h| >= HEADER && h[..HEADER] == Physical(crc, f)[..HEADER]
    ensures h[4] as int + 256 * (h[5] as int) == |f.payload| && h[6] == TypeByte(f.kind)
    ensures Unmask(DecodeFixed32(h)) == crc(TypeByte(f.kind), f.payload) % TWO32
  {
    var stored := Stored(crc, TypeByte(f.kind), f.payload);
    var word := EncodeFixed32(stored);
    assert h[..HEADER][..4] == h[..4] == word;
    assert h == word + h[4..];
    Fixed32RoundTrip(stored, h[4..]);
    UnmaskMask(crc(TypeByte(f.kind), f.payload) % TWO32);
    var phys := Physical(crc, f);
    assert h[4] == phys[4] && h[5] == phys[5] && h[6] == phys[6] by {
      assert h[..HEADER][4] == phys[..HEADER][4] && h[..HEADER][5] == phys[..HEADER][5] && h[..HEADER][6] == phys[..HEADER][6];
    }
  }

  // ---- Whole files -------------------------------------------------------------------

  /** `n` records are whole in the file, and no more. */
  ghost predicate WholeRecords(crc: Checksum, file: Bytes, records: seq<Bytes>, n: nat) {
    n <= |records| && LogOf(crc, records[..n]) <= file
    && (n < |records| ==> !(LogOf(crc, records[..n + 1]) <= file))
  }

  lemma LogOfNext(crc: Checksum, records: seq<Bytes>, k: nat)
    requires k < |records|
    ensures var before := LogOf(crc, records[..k]);
            LogOf(crc, records[..k + 1]) == before + RecordBytes(crc, |before|, records[k])
  {
    assert records[..k + 1][..k] == records[..k];
  }

  /** In a byte prefix of a log, after k whole records stands the next one, whole or cut. */
  lemma NextRecordStands(crc: Checksum, file: Bytes, records: seq<Bytes>, k: nat)
    requires k < |records| && file <= LogOf(crc, records) && LogOf(crc, records[..k]) <= file
    ensures var p := |LogOf(crc, records[..k])|;
            var bytes := RecordBytes(crc, p, records[k]);
            if LogOf(crc, records[..k + 1]) <= file then StartsAt(file, p, bytes) && p + |bytes| == |LogOf(crc, records[..k + 1])|
            else EndsInside(file, p, bytes)
  {
    var before := LogOf(crc, records[..k]);
    var bytes := RecordBytes(crc, |before|, records[k]);
    LogOfNext(crc, records, k);
    LogOfPrefix(crc, records, k + 1);
    PrefixCases(file, before, bytes, LogOf(crc, records));
  }

  lemma PrefixCases(file: Bytes, before: Bytes, bytes: Bytes, all: Bytes)
    requires before <= file <= all && before + bytes <= all
    ensures if before + bytes <= file then StartsAt(file, |before|, bytes) else EndsInside(file, |before|, bytes)
  {
    var here := file[|before|..];
    assert all[|before|..][..|bytes|] == bytes by { assert all[..|before + bytes|] == before + bytes; }
    assert here == all[|before|..][..|here|] by { assert file == all[..|file|]; }
    if |bytes| <= |here| { assert here[..|bytes|] == bytes; assert file[..|before + bytes|] == before + bytes; }
  }

  lemma RecordTakesSpace(crc: Checksum, n: nat, data: Bytes)
    ensures |RecordBytes(crc, n, data)| > 0
  {
    LayoutUnfolds(crc, n, true, data);
  }

  /** The records read so far are the first ones written, and the reader stands after them. */
  ghost predicate ReadUpTo(crc: Checksum, file: Bytes, records: seq<Bytes>, result: seq<Bytes>, pos: nat) {
    result <= records && LogOf(crc, result) <= file && pos == |LogOf(crc, result)|
  }

  ghost function NextRecord(records: seq<Bytes>, k: nat): Bytes { if k < |records| then records[k] else [] }

  lemma NextStands(crc: Checksum, file: Bytes, records: seq<Bytes>, result: seq<Bytes>, pos: nat)
    requires file <= LogOf(crc, records) && ReadUpTo(crc, file, records, result, pos)
    ensures var bytes := RecordBytes(crc, pos, NextRecord(records, |result|));
            if StartsAt(file, pos, bytes) then
              |result| < |records| && ReadUpTo(crc, file, records, result + [records[|result|]], pos + |bytes|)
            else EndsInside(file, pos, bytes) && WholeRecords(crc, file, records, |result|)
  {
    var k := |result|;
    assert result == records[..k];
    if k < |records| {
      NextRecordStands(crc, file, records, k);
      assert result + [records[k]] == records[..k + 1];
    } else {
      EndOfLog(crc, file, records);
    }
  }

  /** Reads the file to its end. On any byte prefix of a well-formed log the result is exactly
      the records that are whole in it, and no corruption is reported. */
  method ReadAll(crc: Checksum, file: Bytes, ghost records: seq<Bytes>) returns (result: seq<Bytes>, reports: seq<nat>)
    ensures file <= LogOf(crc, records) ==>
              reports == [] && result <= records && WholeRecords(crc, file, records, |result|)
  {
    var r := new Reader(crc, file);
    result := [];
    ghost var good := file <= LogOf(crc, records);
    while true
      invariant r.Valid() && fresh(r) && r.crc == crc && r.file == file
      invariant good ==> r.reports == [] && ReadUpTo(crc, file, records, result, r.Pos())
      decreases |file| - r.Pos()
    {
      if good { NextStands(crc, file, records, result, r.Pos()); }
      var rec := r.ReadRecord(NextRecord(records, |result|));
      if rec.None? {
        return result, r.reports;
      }
      result := result + [rec.value];
    }
  }

  lemma EndOfLog(crc: Checksum, file: Bytes, records: seq<Bytes>)
    requires file <= LogOf(crc, records) && LogOf(crc, records[..|records|]) <= file
    ensures EndsInside(file, |LogOf(crc, records[..|records|])|, RecordBytes(crc, |LogOf(crc, records[..|records|])|, []))
  {
    assert records[..|records|] == records;
    RecordTakesSpace(crc, |LogOf(crc, records)|, []);
  }

  /** Whatever was written comes back, all of it and in order. */
  method RoundTrip(crc: Checksum, records: seq<Bytes>) returns (result: seq<Bytes>, reports: seq<nat>)
    ensures result == records && reports == []
  {
    var file := WriteAll(crc, records);
    result, reports := ReadAll(crc, file, records);
    if |result| < |records| { LogOfPrefix(crc, records, |result| + 1); } else { assert result == records; }
  }
}
