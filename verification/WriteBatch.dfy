/** Write batches and their byte representation (db/write_batch.cc). */
module WriteBatches {
  import opened Coding

  datatype BatchOp = Put(key: Bytes, value: Bytes) | Delete(key: Bytes)

  const BATCH_HEADER: nat := 12

  /** Counts are C ints. */
  const MAX_COUNT: nat := 0x8000_0000

  predicate Encodable(op: BatchOp) { |op.key| < TWO32 && (op.Put? ==> |op.value| < TWO32) }

  ghost predicate AllEncodable(ops: seq<BatchOp>) { forall i :: 0 <= i < |ops| ==> Encodable(ops[i]) }

  function EncodeOp(op: BatchOp): (r: Bytes)
    requires Encodable(op)
    ensures |r| > 0
  {
    match op
    case Put(k, v) => [1] + PutLengthPrefixed(k) + PutLengthPrefixed(v)
    case Delete(k) => [0] + PutLengthPrefixed(k)
  }

  ghost function EncodeOps(ops: seq<BatchOp>): Bytes
    requires AllEncodable(ops)
  {
    if ops == [] then [] else EncodeOps(ops[..|ops| - 1]) + EncodeOp(ops[|ops| - 1])
  }

  /** A batch: first sequence number, number of operations, operations. */
  ghost function BatchBytes(first: nat, ops: seq<BatchOp>): Bytes
    requires first < TWO64 && |ops| < MAX_COUNT && AllEncodable(ops)
  {
    Header(first, |ops|) + EncodeOps(ops)
  }

  function Header(first: nat, count: nat): (r: Bytes)
    requires first < TWO64 && count < TWO32
    ensures |r| == BATCH_HEADER
  {
    EncodeFixed64(first) + EncodeFixed32(count)
  }

  function WithCount(rep: Bytes, count: nat): (r: Bytes)
    requires |rep| >= BATCH_HEADER && count < TWO32
    ensures |r| == |rep|
  {
    rep[..8] + EncodeFixed32(count) + rep[BATCH_HEADER..]
  }

  function WithSequence(rep: Bytes, first: nat): (r: Bytes)
    requires |rep| >= BATCH_HEADER && first < TWO64
    ensures |r| == |rep|
  {
    EncodeFixed64(first) + rep[8..]
  }

  function Sequence(rep: Bytes): nat
    requires |rep| >= BATCH_HEADER
  {
    DecodeFixed64(rep)
  }

  /** The count field, read back as a 32-bit signed int. */
  function Count(rep: Bytes): int
    requires |rep| >= BATCH_HEADER
  {
    var v := DecodeFixed32(rep[8..]);
    if v < MAX_COUNT then v else v - TWO32
  }

  lemma Parts(a: Bytes, b: Bytes, c: Bytes)
    requires |a| == 8 && |b| == 4
    ensures (a + b + c)[..8] == a && (a + b + c)[8..] == b + c && (a + b + c)[BATCH_HEADER..] == c
    ensures a + b + c == a + (b + c)
  {
  }

  lemma HeaderOfBatch(first: nat, ops: seq<BatchOp>)
    requires first < TWO64 && |ops| < MAX_COUNT && AllEncodable(ops)
    ensures |BatchBytes(first, ops)| >= BATCH_HEADER && BatchBytes(first, ops)[BATCH_HEADER..] == EncodeOps(ops)
    ensures Sequence(BatchBytes(first, ops)) == first && Count(BatchBytes(first, ops)) == |ops|
  {
    var a, b, c := EncodeFixed64(first), EncodeFixed32(|ops|), EncodeOps(ops);
    Parts(a, b, c);
    Fixed64RoundTrip(first, b + c);
    Fixed32RoundTrip(|ops|, c);
  }

  /** Patching a field of the header changes that field only. */
  lemma PatchHeader(first: nat, count: nat, body: Bytes, first1: nat, count1: nat)
    requires first < TWO64 && count < TWO32 && first1 < TWO64 && count1 < TWO32
    ensures WithCount(Header(first, count) + body, count1) == Header(first, count1) + body
    ensures WithSequence(Header(first, count) + body, first1) == Header(first1, count) + body
  {
    Parts(EncodeFixed64(first), EncodeFixed32(count), body);
    Parts(EncodeFixed64(first1), EncodeFixed32(count), body);
  }

  /** Building a batch. `ops` and `first` say what the bytes hold. */
  class WriteBatch {
    var rep: Bytes
    ghost var first: nat
    ghost var ops: seq<BatchOp>

    ghost predicate Valid()
      reads this
    {
      first < TWO64 && |ops| < MAX_COUNT && AllEncodable(ops) && rep == BatchBytes(first, ops)
    }

    constructor ()
      ensures Valid() && first == 0 && ops == []
    {
      rep := seq(BATCH_HEADER, _ => 0);
      first, ops := 0, [];
      new;
      ZeroHeader();
    }

    method Clear()
      modifies this
      ensures Valid() && first == 0 && ops == []
    {
      rep := seq(BATCH_HEADER, _ => 0);
      first, ops := 0, [];
      ZeroHeader();
    }

    method SetSequence(s: nat)
      requires Valid() && s < TWO64
      modifies this
      ensures Valid() && first == s && ops == old(ops)
    {
      PatchHeader(first, |ops|, EncodeOps(ops), s, 0);
      rep := WithSequence(rep, s);
      first := s;
    }

    /** Put and Delete: bump the count in the header and append one record. */
    method Add(op: BatchOp)
      requires Valid() && |ops| + 1 < MAX_COUNT && Encodable(op)
      modifies this
      ensures Valid() && first == old(first) && ops == old(ops) + [op]
    {
      HeaderOfBatch(first, ops);
      ghost var longer := ops + [op];
      AppendedBytes(first, ops, [op], longer);
      OneRecord(op);
      var record, count := EncodeOp(op), Count(rep) + 1;
      assert count == |longer| && record == EncodeOps([op]);
      rep := WithCount(rep, count) + record;
      ops := longer;
    }

    /** Append: the operations of `src`, which may be this batch itself, follow those already here. */
    method Append(src: WriteBatch)
      requires Valid() && src.Valid() && |ops| + |src.ops| < MAX_COUNT
      modifies this
      ensures Valid() && first == old(first) && ops == old(ops) + old(src.ops)
    {
      HeaderOfBatch(first, ops);
      HeaderOfBatch(src.first, src.ops);
      ghost var longer := ops + src.ops;
      AppendedBytes(first, ops, src.ops, longer);
      var records, count := src.rep[BATCH_HEADER..], Count(rep) + Count(src.rep);
      assert count == |longer| && records == EncodeOps(src.ops);
      rep := WithCount(rep, count) + records;
      ops := longer;
    }
  }

  lemma OneRecord(op: BatchOp)
    requires Encodable(op)
    ensures AllEncodable([op]) && EncodeOps([op]) == EncodeOp(op)
  {
    assert [op][..0] == [];
    assert EncodeOps([]) + EncodeOp(op) == EncodeOp(op);
  }

  lemma AppendedBytes(first: nat, ops: seq<BatchOp>, more: seq<BatchOp>, longer: seq<BatchOp>)
    requires first < TWO64 && |ops| + |more| < MAX_COUNT && AllEncodable(ops) && AllEncodable(more)
    requires longer == ops + more
    ensures AllEncodable(longer) && |BatchBytes(first, ops)| >= BATCH_HEADER
    ensures WithCount(BatchBytes(first, ops), |longer|) + EncodeOps(more) == BatchBytes(first, longer)
  {
    var body := EncodeOps(ops);
    PatchHeader(first, |ops|, body, 0, |longer|);
    EncodeOpsAppend(ops, more);
    Assoc(Header(first, |longer|), body, EncodeOps(more));
  }

  lemma ZeroHeader()
    ensures seq(BATCH_HEADER, _ => 0) == BatchBytes(0, [])
  {
    FixedZero(8);
    FixedZero(4);
  }

  lemma {:induction false} FixedZero(n: nat)
    ensures EncodeFixed(0, n) == seq(n, _ => 0)
  {
    if n > 0 { FixedZero(n - 1); }
  }

  lemma EncodeOpsPush(ops: seq<BatchOp>, op: BatchOp)
    requires AllEncodable(ops) && Encodable(op)
    ensures AllEncodable(ops + [op]) && EncodeOps(ops + [op]) == EncodeOps(ops) + EncodeOp(op)
  {
    assert (ops + [op])[..|ops|] == ops;
  }

  lemma {:induction false} EncodeOpsAppend(a: seq<BatchOp>, b: seq<BatchOp>)
    requires AllEncodable(a) && AllEncodable(b)
    ensures AllEncodable(a + b) && EncodeOps(a + b) == EncodeOps(a) + EncodeOps(b)
    decreases |b|
  {
    if b == [] {
      assert a + b == a;
    } else {
      var init, last := b[..|b| - 1], b[|b| - 1];
      EncodeOpsAppend(a, init);
      SplitLast(a, b);
      EncodeOpsPush(a + init, last);
      Assoc(EncodeOps(a), EncodeOps(init), EncodeOp(last));
    }
  }

  lemma SplitLast<T>(a: seq<T>, b: seq<T>)
    requires b != []
    ensures a + b == a + b[..|b| - 1] + [b[|b| - 1]] && b == b[..|b| - 1] + [b[|b| - 1]]
    ensures forall more: seq<T> :: b + more == b[..|b| - 1] + ([b[|b| - 1]] + more)
  {
    assert forall more: seq<T> :: b + more == b[..|b| - 1] + ([b[|b| - 1]] + more);
  }

  // ---- Iterating ---------------------------------------------------------------------

  datatype Status = Ok | TooSmall | BadPut | BadDelete | UnknownTag | WrongCount

  /** One record off the front of the input: the operation and what follows, or an error. */
  datatype Parsed = Got(op: BatchOp, rest: Bytes) | Bad(status: Status)

  function ParseOp(input: Bytes): (r: Parsed)
    requires input != []
    ensures r.Got? ==> |r.rest| < |input|
    ensures r.Bad? ==> r.status != Ok
  {
    var body := input[1..];
    if input[0] == 1 then
      match GetLengthPrefixed(body)
      case None => Bad(BadPut)
      case Some((k, more)) =>
        match GetLengthPrefixed(more)
        case None => Bad(BadPut)
        case Some((v, rest)) => Got(Put(k, v), rest)
    else if input[0] == 0 then
      match GetLengthPrefixed(body)
      case None => Bad(BadDelete)
      case Some((k, rest)) => Got(Delete(k), rest)
    else Bad(UnknownTag)
  }

  /** All records: the operations handed out before the end or the first error. */
  function ParseOps(input: Bytes): (r: (seq<BatchOp>, Status))
    decreases |input|
  {
    if input == [] then ([], Ok)
    else
      match ParseOp(input)
      case Bad(st) => ([], st)
      case Got(op, rest) => var (ops, st) := ParseOps(rest); ([op] + ops, st)
  }

  function ParseBatch(rep: Bytes): (seq<BatchOp>, Status) {
    if |rep| < BATCH_HEADER then ([], TooSmall)
    else
      var (ops, st) := ParseOps(rep[BATCH_HEADER..]);
      (ops, if st == Ok && |ops| != Count(rep) then WrongCount else st)
  }

  /** WriteBatch::Iterate, on any bytes: the handler is called with these operations, in this
      order, also when an error is found after some of them. */
  method Iterate(rep: Bytes) returns (handled: seq<BatchOp>, status: Status)
    ensures (handled, status) == ParseBatch(rep)
  {
    handled := [];
    if |rep| < BATCH_HEADER {
      return [], TooSmall;
    }
    var input := rep[BATCH_HEADER..];
    ghost var all := ParseOps(input);
    assert [] + all.0 == all.0;
    while input != []
      invariant all == (handled + ParseOps(input).0, ParseOps(input).1)
      decreases |input|
    {
      var next := ParseOp(input);
      ParseStep(input, handled);
      if next.Bad? {
        return handled, next.status;
      }
      handled, input := handled + [next.op], next.rest;
    }
    assert handled + [] == handled;
    return handled, if |handled| != Count(rep) then WrongCount else Ok;
  }

  lemma ParseStep(input: Bytes, handled: seq<BatchOp>)
    requires input != []
    ensures var next := ParseOp(input);
            if next.Bad? then handled + ParseOps(input).0 == handled && ParseOps(input).1 == next.status
            else handled + ParseOps(input).0 == handled + [next.op] + ParseOps(next.rest).0
                 && ParseOps(input).1 == ParseOps(next.rest).1
  {
    var next := ParseOp(input);
    if next.Got? {
      assert handled + ([next.op] + ParseOps(next.rest).0) == handled + [next.op] + ParseOps(next.rest).0;
    }
  }

  lemma ParseOpRoundTrip(op: BatchOp, rest: Bytes)
    requires Encodable(op)
    ensures ParseOp(EncodeOp(op) + rest) == Got(op, rest)
  {
    match op
    case Put(k, v) => ParsePutRoundTrip(k, v, rest);
    case Delete(k) =>
      LengthPrefixedRoundTrip(k, rest);
      Tagged(0, PutLengthPrefixed(k), [], rest);
  }

  lemma Tagged(tag: Byte, a: Bytes, b: Bytes, rest: Bytes)
    ensures ([tag] + a + b + rest)[0] == tag && ([tag] + a + b + rest)[1..] == a + (b + rest)
    ensures [tag] + a + [] == [tag] + a && [] + rest == rest
  {
  }

  lemma ParsePutRoundTrip(k: Bytes, v: Bytes, rest: Bytes)
    requires |k| < TWO32 && |v| < TWO32
    ensures ParseOp(EncodeOp(Put(k, v)) + rest) == Got(Put(k, v), rest)
  {
    LengthPrefixedRoundTrip(k, PutLengthPrefixed(v) + rest);
    LengthPrefixedRoundTrip(v, rest);
    Tagged(1, PutLengthPrefixed(k), PutLengthPrefixed(v), rest);
  }

  lemma {:induction false} ParseOpsRoundTrip(ops: seq<BatchOp>, rest: Bytes)
    requires AllEncodable(ops)
    ensures ParseOps(EncodeOps(ops) + rest) == (ops + ParseOps(rest).0, ParseOps(rest).1)
    decreases |ops|
  {
    if ops == [] {
      assert EncodeOps(ops) + rest == rest;
      assert ops + ParseOps(rest).0 == ParseOps(rest).0;
    } else {
      var init, last := ops[..|ops| - 1], ops[|ops| - 1];
      var tail := EncodeOp(last) + rest;
      ParseOpsRoundTrip(init, tail);
      ParseOpsOfOne(last, rest);
      Assoc(EncodeOps(init), EncodeOp(last), rest);
      SplitLast([], ops);
    }
  }

  lemma ParseOpsOfOne(op: BatchOp, rest: Bytes)
    requires Encodable(op)
    ensures ParseOps(EncodeOp(op) + rest) == ([op] + ParseOps(rest).0, ParseOps(rest).1)
  {
    ParseOpRoundTrip(op, rest);
  }

  /** Iterating a batch that was built hands back its operations and reports success. */
  lemma BatchRoundTrip(first: nat, ops: seq<BatchOp>)
    requires first < TWO64 && |ops| < MAX_COUNT && AllEncodable(ops)
    ensures ParseBatch(BatchBytes(first, ops)) == (ops, Ok)
  {
    HeaderOfBatch(first, ops);
    ParseOpsRoundTrip(ops, []);
    Assoc(EncodeOps(ops), [], []);
    assert EncodeOps(ops) + [] == EncodeOps(ops);
    assert ops + ParseOps([]).0 == ops;
  }
}
