/** Appending records to a log (db/log_writer.cc). */
module LogWriting {
  import opened Coding
  import opened LogFormat

  class Writer {
    const crc: Checksum
    var dest: Bytes          // what has been appended to the file
    var blockOffset: nat

    ghost predicate Valid()
      reads this
    {
      blockOffset <= BLOCK && blockOffset % BLOCK == |dest| % BLOCK
    }

    /** A writer on a fresh file, or one that carries on at the end of an existing one. */
    constructor (crc: Checksum, existing: Bytes)
      ensures Valid() && this.crc == crc && dest == existing
    {
      this.crc, dest, blockOffset := crc, existing, |existing| % BLOCK;
    }

    method EmitPhysicalRecord(t: FragmentType, payload: Bytes)
      requires |payload| <= 0xffff && blockOffset + HEADER + |payload| <= BLOCK
      modifies this
      ensures dest == old(dest) + Physical(crc, Fragment(t, payload))
      ensures blockOffset == old(blockOffset) + HEADER + |payload|
    {
      var stored := Stored(crc, TypeByte(t), payload);
      var header := EncodeFixed32(stored) + [|payload| % 256, |payload| / 256, TypeByte(t)];
      dest := dest + header + payload;
      blockOffset := blockOffset + HEADER + |payload|;
    }

    /** One turn of AddRecord's loop: pad to the next block if no header fits, then write as
        much of the record as the block takes. */
    method WriteFragment(begin: bool, left: Bytes) returns (length: nat)
      requires Valid()
      modifies this
      ensures Valid() && length == if |left| < Room(|old(dest)|) then |left| else Room(|old(dest)|)
      ensures dest == old(dest) + Placed(crc, |old(dest)|, Fragment(KindOf(begin, length == |left|), left[..length]))
    {
      var leftover := BLOCK - blockOffset;
      PadIsLeftover(|dest|, blockOffset);
      if leftover < HEADER {
        dest := dest + seq(leftover, _ => 0);
        blockOffset := 0;
      }
      var avail := BLOCK - blockOffset - HEADER;
      length := if |left| < avail then |left| else avail;
      ModShift(blockOffset, |dest|, HEADER + length);
      EmitPhysicalRecord(KindOf(begin, length == |left|), left[..length]);
    }

    /** AddRecord: cut the record at block boundaries, at least one fragment even when it is
        empty. The file grows by exactly the layout of the record's fragments. */
    method AddRecord(data: Bytes)
      requires Valid()
      modifies this
      ensures Valid() && dest == old(dest) + RecordBytes(crc, |old(dest)|, data)
    {
      var left, begin, more := data, true, true;
      ghost var goal := dest + RecordBytes(crc, |dest|, data);
      while more
        invariant Valid()
        invariant more ==> dest + Layout(crc, |dest|, FragmentsOf(|dest|, begin, left)) == goal
        invariant !more ==> dest == goal
        decreases more, Work(|dest|, |left|)
      {
        TurnUnfolds(crc, dest, begin, left);
        WorkShrinks(|dest|, |left|);
        var length := WriteFragment(begin, left);
        more := length < |left|;
        left, begin := left[length..], false;
      }
    }
  }

  function Work(n: nat, left: nat): nat { 2 * left + if Room(n) == 0 then 1 else 0 }

  /** A fragment without room for payload ends its block, so the next one has room. */
  lemma WorkShrinks(n: nat, left: nat)
    ensures left > Room(n) ==> Work(n + Pad(n) + HEADER + Room(n), left - Room(n)) < Work(n, left)
  {
  }

  lemma ModShift(a: nat, b: nat, d: nat)
    requires a % BLOCK == b % BLOCK
    ensures (a + d) % BLOCK == (b + d) % BLOCK
  {
    var q, r := a / BLOCK, b / BLOCK;
    assert a + d == (a % BLOCK + d) + BLOCK * q;
    assert b + d == (b % BLOCK + d) + BLOCK * r;
  }

  lemma PadIsLeftover(n: nat, offset: nat)
    requires offset <= BLOCK && offset % BLOCK == n % BLOCK
    ensures BLOCK - offset < HEADER ==> Pad(n) == BLOCK - offset && Room(n) == BLOCK - HEADER
    ensures BLOCK - offset >= HEADER ==> Pad(n) == 0 && Room(n) == BLOCK - offset - HEADER
  {
  }

  lemma LayoutUnfolds(crc: Checksum, n: nat, begin: bool, data: Bytes)
    ensures var length := if |data| < Room(n) then |data| else Room(n);
            var end := length == |data|;
            var first := Fragment(KindOf(begin, end), data[..length]);
            var next := n + Pad(n) + HEADER + length;
            Layout(crc, n, FragmentsOf(n, begin, data)) ==
              Placed(crc, n, first) + (if end then [] else Layout(crc, next, FragmentsOf(next, false, data[length..])))
  {
    var length := if |data| < Room(n) then |data| else Room(n);
    var fs := FragmentsOf(n, begin, data);
    if length < |data| {
      assert fs[1..] == FragmentsOf(n + Pad(n) + HEADER + length, false, data[length..]);
    } else {
      assert fs[1..] == [];
    }
  }

  /** One turn of the loop, seen from the file: what is written plus what is still to come
      stays the same. */
  lemma TurnUnfolds(crc: Checksum, dest: Bytes, begin: bool, left: Bytes)
    ensures var length := if |left| < Room(|dest|) then |left| else Room(|dest|);
            var next := dest + Placed(crc, |dest|, Fragment(KindOf(begin, length == |left|), left[..length]));
            dest + Layout(crc, |dest|, FragmentsOf(|dest|, begin, left)) ==
              if length == |left| then next else next + Layout(crc, |next|, FragmentsOf(|next|, false, left[length..]))
  {
    LayoutUnfolds(crc, |dest|, begin, left);
    var length := if |left| < Room(|dest|) then |left| else Room(|dest|);
    var placed := Placed(crc, |dest|, Fragment(KindOf(begin, length == |left|), left[..length]));
    var next := |dest| + Pad(|dest|) + HEADER + length;
    assert |dest + placed| == next;
    Concat3(dest, placed, if length == |left| then [] else Layout(crc, next, FragmentsOf(next, false, left[length..])));
  }

  lemma Concat3(a: Bytes, b: Bytes, c: Bytes)
    ensures a + (b + c) == (a + b) + c
    ensures a + b + [] == a + b
  {
  }

  /** Writing records one after another to an empty file produces LogOf. */
  method WriteAll(crc: Checksum, records: seq<Bytes>) returns (file: Bytes)
    ensures file == LogOf(crc, records)
  {
    var w := new Writer(crc, []);
    var i := 0;
    while i < |records|
      invariant 0 <= i <= |records| && w.Valid() && w.crc == crc && fresh(w)
      invariant w.dest == LogOf(crc, records[..i])
    {
      w.AddRecord(records[i]);
      assert records[..i + 1][..i] == records[..i];
      i := i + 1;
    }
    assert records[..i] == records;
    return w.dest;
  }
}
