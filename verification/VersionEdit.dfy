/** Version edits as records in the manifest (db/version_edit.cc). */
module VersionEdits {
  import opened Coding

  const MAX_LEVELS: nat := 7

  datatype NewFile = NewFile(level: nat, number: nat, size: nat, smallest: Bytes, largest: Bytes)

  datatype Edit = Edit(comparator: Option<Bytes>, logNumber: Option<nat>, prevLogNumber: Option<nat>,
                       nextFile: Option<nat>, lastSequence: Option<nat>, compactPointers: seq<(nat, Bytes)>,
                       deleted: set<(nat, nat)>, added: seq<NewFile>)

  const EMPTY_EDIT := Edit(None, None, None, None, None, [], {}, [])

  /** One tagged item of an encoded edit. */
  datatype Field =
    | Comparator(name: Bytes)
    | LogNumber(number: nat)
    | NextFileNumber(number: nat)
    | LastSequence(number: nat)
    | CompactPointer(level: nat, key: Bytes)
    | DeletedFile(level: nat, number: nat)
    | NewFileField(file: NewFile)
    | PrevLogNumber(number: nat)

  predicate FieldOk(f: Field) {
    match f
    case Comparator(name) => |name| < TWO32
    case CompactPointer(level, key) => level < MAX_LEVELS && |key| < TWO32
    case DeletedFile(level, number) => level < MAX_LEVELS && number < TWO64
    case NewFileField(file) => file.level < MAX_LEVELS && file.number < TWO64 && file.size < TWO64
                               && |file.smallest| < TWO32 && |file.largest| < TWO32
    case _ => f.number < TWO64
  }

  function Tag(f: Field): nat {
    match f
    case Comparator(_) => 1
    case LogNumber(_) => 2
    case NextFileNumber(_) => 3
    case LastSequence(_) => 4
    case CompactPointer(_, _) => 5
    case DeletedFile(_, _) => 6
    case NewFileField(_) => 7
    case PrevLogNumber(_) => 9
  }

  function Body(f: Field): Bytes
    requires FieldOk(f)
  {
    match f
    case Comparator(name) => PutLengthPrefixed(name)
    case CompactPointer(level, key) => EncodeVarint32(level) + PutLengthPrefixed(key)
    case DeletedFile(level, number) => EncodeVarint32(level) + Varint(number)
    case NewFileField(file) =>
      EncodeVarint32(file.level) + (Varint(file.number) + (Varint(file.size)
      + (PutLengthPrefixed(file.smallest) + PutLengthPrefixed(file.largest))))
    case _ => Varint(f.number)
  }

  function EncodeField(f: Field): (r: Bytes)
    requires FieldOk(f)
  {
    EncodeVarint32(Tag(f)) + Body(f)
  }

  // ---- Decoding one field ------------------------------------------------------------------

  function GetNumber(s: Bytes): (r: Option<(nat, Bytes)>)
    ensures r.Some? ==> |r.value.1| < |s|
  {
    match GetVarint64(s)
    case None => None
    case Some((v, n)) => Some((v, s[n..]))
  }

  /** GetLevel: a level that does not exist is an error. */
  function GetLevel(s: Bytes): (r: Option<(nat, Bytes)>)
    ensures r.Some? ==> |r.value.1| < |s|
  {
    match GetVarint32(s)
    case None => None
    case Some((v, n)) => if v < MAX_LEVELS then Some((v, s[n..])) else None
  }

  function DecodeNewFile(s: Bytes): (r: Option<(Field, Bytes)>)
    ensures r.Some? ==> |r.value.1| < |s|
  {
    ReadersShrink();
    DecodeFive(GetLevel, GetNumber, GetLengthPrefixed, s)
  }

  /** A reader takes something off the front of its input, or fails. */
  ghost predicate Shrinks<T(!new)>(get: Bytes -> Option<(T, Bytes)>) {
    forall s {:trigger get(s)} :: get(s).Some? ==> |get(s).value.1| < |s|
  }

  lemma ReadersShrink()
    ensures Shrinks(GetLevel) && Shrinks(GetNumber) && Shrinks(GetLengthPrefixed)
  {
  }

  function DecodeFive(level: Bytes -> Option<(nat, Bytes)>, number: Bytes -> Option<(nat, Bytes)>,
                      slice: Bytes -> Option<(Bytes, Bytes)>, s: Bytes): (r: Option<(Field, Bytes)>)
    requires Shrinks(level) && Shrinks(number) && Shrinks(slice)
    ensures r.Some? ==> |r.value.1| < |s|
  {
    match level(s)
    case None => None
    case Some((l, s1)) =>
      match number(s1)
      case None => None
      case Some((n, s2)) =>
        match number(s2)
        case None => None
        case Some((size, s3)) =>
          match slice(s3)
          case None => None
          case Some((smallest, s4)) =>
            match slice(s4)
            case None => None
            case Some((largest, rest)) => Some((NewFileField(NewFile(l, n, size, smallest, largest)), rest))
  }

  lemma DecodedFive(level: Bytes -> Option<(nat, Bytes)>, number: Bytes -> Option<(nat, Bytes)>,
                    slice: Bytes -> Option<(Bytes, Bytes)>, s: Bytes, s1: Bytes, s2: Bytes, s3: Bytes, s4: Bytes, rest: Bytes, f: NewFile)
    requires Shrinks(level) && Shrinks(number) && Shrinks(slice)
    requires level(s) == Some((f.level, s1)) && number(s1) == Some((f.number, s2)) && number(s2) == Some((f.size, s3))
    requires slice(s3) == Some((f.smallest, s4)) && slice(s4) == Some((f.largest, rest))
    ensures DecodeFive(level, number, slice, s) == Some((NewFileField(f), rest))
  {
  }

  function DecodeComparator(s: Bytes): Option<(Field, Bytes)> {
    match GetLengthPrefixed(s) case None => None case Some((name, rest)) => Some((Comparator(name), rest))
  }

  function DecodeLogNumber(s: Bytes): Option<(Field, Bytes)> {
    match GetNumber(s) case None => None case Some((n, rest)) => Some((LogNumber(n), rest))
  }

  function DecodeNextFile(s: Bytes): Option<(Field, Bytes)> {
    match GetNumber(s) case None => None case Some((n, rest)) => Some((NextFileNumber(n), rest))
  }

  function DecodeLastSequence(s: Bytes): Option<(Field, Bytes)> {
    match GetNumber(s) case None => None case Some((n, rest)) => Some((LastSequence(n), rest))
  }

  function DecodePrevLog(s: Bytes): Option<(Field, Bytes)> {
    match GetNumber(s) case None => None case Some((n, rest)) => Some((PrevLogNumber(n), rest))
  }

  function DecodePointer(s: Bytes): Option<(Field, Bytes)> {
    match GetLevel(s)
    case None => None
    case Some((level, s1)) =>
      match GetLengthPrefixed(s1) case None => None case Some((key, rest)) => Some((CompactPointer(level, key), rest))
  }

  function DecodeDeleted(s: Bytes): Option<(Field, Bytes)> {
    match GetLevel(s)
    case None => None
    case Some((level, s1)) =>
      match GetNumber(s1) case None => None case Some((n, rest)) => Some((DeletedFile(level, n), rest))
  }

  /** The switch on the tag; None for an unknown tag. */
  function DecoderFor(tag: nat): Option<Bytes -> Option<(Field, Bytes)>> {
    if tag == 1 then Some(DecodeComparator) else if tag == 2 then Some(DecodeLogNumber)
    else if tag == 3 then Some(DecodeNextFile) else if tag == 4 then Some(DecodeLastSequence)
    else if tag == 5 then Some(DecodePointer) else if tag == 6 then Some(DecodeDeleted)
    else if tag == 7 then Some(DecodeNewFile) else if tag == 9 then Some(DecodePrevLog)
    else None
  }

  /** The body of a field after its tag; None for a bad body or an unknown tag. */
  function DecodeBody(tag: nat, s: Bytes): (r: Option<(Field, Bytes)>)
    ensures r.Some? ==> |r.value.1| < |s|
  {
    match DecoderFor(tag) case None => None case Some(decode) => decode(s)
  }

  lemma AfterFirst(a: Bytes, b: Bytes, rest: Bytes)
    ensures a + b + rest == a + (b + rest) && (a + (b + rest))[|a|..] == b + rest
  {
  }

  lemma NumberRoundTrip(n: nat, rest: Bytes)
    requires n < TWO64
    ensures GetNumber(Varint(n) + rest) == Some((n, rest))
  {
    Varint64RoundTrip(n, rest);
    AfterFirst(Varint(n), [], rest);
    assert [] + rest == rest;
  }

  lemma LevelRoundTrip(level: nat, rest: Bytes)
    requires level < MAX_LEVELS
    ensures GetLevel(EncodeVarint32(level) + rest) == Some((level, rest))
  {
    Varint32RoundTrip(level, rest);
    AfterFirst(EncodeVarint32(level), [], rest);
    assert [] + rest == rest;
  }

  lemma FiveParts(a: Bytes, b: Bytes, c: Bytes, d: Bytes, e: Bytes, rest: Bytes)
    ensures a + (b + (c + (d + e))) + rest == a + (b + (c + (d + (e + rest))))
  {
  }

  ghost predicate ComesBack(f: Field, rest: Bytes)
    requires FieldOk(f)
  {
    DecodeBody(Tag(f), Body(f) + rest) == Some((f, rest))
  }

  lemma ComparatorComesBack(name: Bytes, rest: Bytes)
    requires |name| < TWO32
    ensures ComesBack(Comparator(name), rest)
  {
    LengthPrefixedRoundTrip(name, rest);
  }

  lemma CompactPointerComesBack(level: nat, key: Bytes, rest: Bytes)
    requires level < MAX_LEVELS && |key| < TWO32
    ensures ComesBack(CompactPointer(level, key), rest)
  {
    AfterFirst(EncodeVarint32(level), PutLengthPrefixed(key), rest);
    LevelRoundTrip(level, PutLengthPrefixed(key) + rest);
    LengthPrefixedRoundTrip(key, rest);
  }

  lemma DeletedFileComesBack(level: nat, number: nat, rest: Bytes)
    requires level < MAX_LEVELS && number < TWO64
    ensures ComesBack(DeletedFile(level, number), rest)
  {
    AfterFirst(EncodeVarint32(level), Varint(number), rest);
    LevelRoundTrip(level, Varint(number) + rest);
    NumberRoundTrip(number, rest);
  }

  lemma NewFileComesBack(file: NewFile, rest: Bytes)
    requires FieldOk(NewFileField(file))
    ensures ComesBack(NewFileField(file), rest)
  {
    var a, b, c := EncodeVarint32(file.level), Varint(file.number), Varint(file.size);
    var d, e := PutLengthPrefixed(file.smallest), PutLengthPrefixed(file.largest);
    FiveParts(a, b, c, d, e, rest);
    LevelRoundTrip(file.level, b + (c + (d + (e + rest))));
    NumberRoundTrip(file.number, c + (d + (e + rest)));
    NumberRoundTrip(file.size, d + (e + rest));
    LengthPrefixedRoundTrip(file.smallest, e + rest);
    LengthPrefixedRoundTrip(file.largest, rest);
    ReadersShrink();
    DecodedFive(GetLevel, GetNumber, GetLengthPrefixed, a + (b + (c + (d + (e + rest)))), b + (c + (d + (e + rest))),
                c + (d + (e + rest)), d + (e + rest), e + rest, rest, file);
    var s := a + (b + (c + (d + (e + rest))));
    NewFileDecoder();
    ByDecoder(7, DecodeNewFile, s, Some((NewFileField(file), rest)));
  }

  lemma NewFileDecoder()
    ensures DecoderFor(7) == Some(DecodeNewFile)
  {
  }

  lemma ByDecoder(tag: nat, decode: Bytes -> Option<(Field, Bytes)>, s: Bytes, r: Option<(Field, Bytes)>)
    requires DecoderFor(tag) == Some(decode) && decode(s) == r
    ensures DecodeBody(tag, s) == r
  {
  }

  lemma NumberComesBack(f: Field, rest: Bytes)
    requires FieldOk(f) && (f.LogNumber? || f.NextFileNumber? || f.LastSequence? || f.PrevLogNumber?)
    ensures ComesBack(f, rest)
  {
    NumberRoundTrip(f.number, rest);
  }

  lemma BodyRoundTrip(f: Field, rest: Bytes)
    requires FieldOk(f)
    ensures ComesBack(f, rest)
  {
    match f
    case Comparator(name) => ComparatorComesBack(name, rest);
    case CompactPointer(level, key) => CompactPointerComesBack(level, key, rest);
    case DeletedFile(level, number) => DeletedFileComesBack(level, number, rest);
    case NewFileField(file) => NewFileComesBack(file, rest);
    case _ => NumberComesBack(f, rest);
  }

  // ---- Whole edits ---------------------------------------------------------------------------

  function ApplyField(e: Edit, f: Field): Edit {
    match f
    case Comparator(name) => e.(comparator := Some(name))
    case LogNumber(n) => e.(logNumber := Some(n))
    case NextFileNumber(n) => e.(nextFile := Some(n))
    case LastSequence(n) => e.(lastSequence := Some(n))
    case CompactPointer(level, key) => e.(compactPointers := e.compactPointers + [(level, key)])
    case DeletedFile(level, n) => e.(deleted := e.deleted + {(level, n)})
    case NewFileField(file) => e.(added := e.added + [file])
    case PrevLogNumber(n) => e.(prevLogNumber := Some(n))
  }

  function ApplyFields(e: Edit, fs: seq<Field>): Edit {
    if fs == [] then e else ApplyField(ApplyFields(e, fs[..|fs| - 1]), fs[|fs| - 1])
  }

  predicate FieldsOk(fs: seq<Field>) { forall i :: 0 <= i < |fs| ==> FieldOk(fs[i]) }

  function EncodeFields(fs: seq<Field>): Bytes
    requires FieldsOk(fs)
  {
    if fs == [] then [] else EncodeFields(fs[..|fs| - 1]) + EncodeField(fs[|fs| - 1])
  }

  /** DecodeFrom: fields until the input ends or one is bad. */
  function Decode(s: Bytes, e: Edit): Option<Edit>
    decreases |s|
  {
    match GetVarint32(s)
    case None => if s == [] then Some(e) else None
    case Some((tag, n)) =>
      match DecodeBody(tag, s[n..])
      case None => None
      case Some((f, rest)) => Decode(rest, ApplyField(e, f))
  }

  /** The loop of DecodeFrom. */
  method DecodeFrom(src: Bytes, e0: Edit) returns (e: Edit, ok: bool)
    ensures ok <==> Decode(src, e0).Some?
    ensures ok ==> e == Decode(src, e0).value
  {
    e := e0;
    var input := src;
    while true
      invariant Decode(input, e) == Decode(src, e0)
      decreases |input|
    {
      var tag := GetVarint32(input);
      if tag.None? {
        return e, input == [];
      }
      var field := DecodeBody(tag.value.0, input[tag.value.1..]);
      if field.None? {
        return e, false;
      }
      e, input := ApplyField(e, field.value.0), field.value.1;
    }
  }

  lemma DecodeOneField(f: Field, rest: Bytes, e: Edit)
    requires FieldOk(f)
    ensures Decode(EncodeField(f) + rest, e) == Decode(rest, ApplyField(e, f))
  {
    AfterFirst(EncodeVarint32(Tag(f)), Body(f), rest);
    Varint32RoundTrip(Tag(f), Body(f) + rest);
    BodyRoundTrip(f, rest);
  }

  lemma {:induction false} DecodeFields(fs: seq<Field>, rest: Bytes, e: Edit)
    requires FieldsOk(fs)
    ensures Decode(EncodeFields(fs) + rest, e) == Decode(rest, ApplyFields(e, fs))
    decreases |fs|
  {
    if fs == [] {
      assert EncodeFields(fs) + rest == rest;
    } else {
      var init, last := fs[..|fs| - 1], fs[|fs| - 1];
      AfterFirst(EncodeFields(init), EncodeField(last), rest);
      DecodeFields(init, EncodeField(last) + rest, e);
      DecodeOneField(last, rest, ApplyFields(e, init));
    }
  }

  function Scalars(e: Edit): seq<Field> {
    (if e.comparator.Some? then [Comparator(e.comparator.value)] else [])
    + (if e.logNumber.Some? then [LogNumber(e.logNumber.value)] else [])
    + (if e.prevLogNumber.Some? then [PrevLogNumber(e.prevLogNumber.value)] else [])
    + (if e.nextFile.Some? then [NextFileNumber(e.nextFile.value)] else [])
    + (if e.lastSequence.Some? then [LastSequence(e.lastSequence.value)] else [])
  }

  /** The fields EncodeTo writes, in its order. `listed` is the set of deleted files in the order
      it is walked. */
  function FieldsOf(e: Edit, listed: seq<(nat, nat)>): seq<Field> {
    Scalars(e) + Pointers(e.compactPointers) + Deletions(listed) + Additions(e.added)
  }

  function Pointers(ps: seq<(nat, Bytes)>): seq<Field> {
    seq(|ps|, i requires 0 <= i < |ps| => CompactPointer(ps[i].0, ps[i].1))
  }

  function Deletions(ds: seq<(nat, nat)>): seq<Field> {
    seq(|ds|, i requires 0 <= i < |ds| => DeletedFile(ds[i].0, ds[i].1))
  }

  function Additions(fs: seq<NewFile>): seq<Field> {
    seq(|fs|, i requires 0 <= i < |fs| => NewFileField(fs[i]))
  }

  lemma {:induction false} ApplyConcat(e: Edit, a: seq<Field>, b: seq<Field>)
    ensures ApplyFields(e, a + b) == ApplyFields(ApplyFields(e, a), b)
    decreases |b|
  {
    if b == [] {
      assert a + b == a;
    } else {
      assert (a + b)[..|a + b| - 1] == a + b[..|b| - 1];
      ApplyConcat(e, a, b[..|b| - 1]);
    }
  }

  lemma {:induction false} ApplyPointers(e: Edit, ps: seq<(nat, Bytes)>)
    ensures ApplyFields(e, Pointers(ps)) == e.(compactPointers := e.compactPointers + ps)
    decreases |ps|
  {
    if ps == [] {
      assert e.compactPointers + ps == e.compactPointers;
    } else {
      var init := ps[..|ps| - 1];
      ApplyPointers(e, init);
      assert Pointers(ps)[..|ps| - 1] == Pointers(init);
      assert ps == init + [ps[|ps| - 1]];
      assert e.compactPointers + init + [ps[|ps| - 1]] == e.compactPointers + ps;
    }
  }

  lemma {:induction false} ApplyAdditions(e: Edit, fs: seq<NewFile>)
    ensures ApplyFields(e, Additions(fs)) == e.(added := e.added + fs)
    decreases |fs|
  {
    if fs == [] {
      assert e.added + fs == e.added;
    } else {
      var init := fs[..|fs| - 1];
      ApplyAdditions(e, init);
      assert Additions(fs)[..|fs| - 1] == Additions(init);
      assert fs == init + [fs[|fs| - 1]];
      assert e.added + init + [fs[|fs| - 1]] == e.added + fs;
    }
  }

  lemma {:induction false} ApplyDeletions(e: Edit, ds: seq<(nat, nat)>)
    ensures ApplyFields(e, Deletions(ds)) == e.(deleted := e.deleted + SetOf(ds))
    decreases |ds|
  {
    if ds == [] {
      assert e.deleted + SetOf(ds) == e.deleted;
    } else {
      var init, last := ds[..|ds| - 1], ds[|ds| - 1];
      ApplyDeletions(e, init);
      assert Deletions(ds)[..|ds| - 1] == Deletions(init);
      SetOfPush(init, last);
      assert ds == init + [last];
      assert e.deleted + SetOf(init) + {last} == e.deleted + SetOf(ds);
    }
  }

  function SetOf(ds: seq<(nat, nat)>): set<(nat, nat)> { set d | d in ds }

  lemma SetOfPush(ds: seq<(nat, nat)>, d: (nat, nat))
    ensures SetOf(ds + [d]) == SetOf(ds) + {d}
  {
  }

  lemma ScalarsApply(e: Edit)
    ensures ApplyFields(EMPTY_EDIT, Scalars(e)) == e.(compactPointers := [], deleted := {}, added := [])
  {
    var a := if e.comparator.Some? then [Comparator(e.comparator.value)] else [];
    var b := if e.logNumber.Some? then [LogNumber(e.logNumber.value)] else [];
    var c := if e.prevLogNumber.Some? then [PrevLogNumber(e.prevLogNumber.value)] else [];
    var d := if e.nextFile.Some? then [NextFileNumber(e.nextFile.value)] else [];
    var f := if e.lastSequence.Some? then [LastSequence(e.lastSequence.value)] else [];
    ApplyAtMostOne(EMPTY_EDIT, a);
    ApplyConcat(EMPTY_EDIT, a, b);
    ApplyConcat(EMPTY_EDIT, a + b, c);
    ApplyConcat(EMPTY_EDIT, a + b + c, d);
    ApplyConcat(EMPTY_EDIT, a + b + c + d, f);
  }

  lemma ApplyAtMostOne(e: Edit, fs: seq<Field>)
    requires |fs| <= 1
    ensures ApplyFields(e, fs) == if fs == [] then e else ApplyField(e, fs[0])
  {
  }

  lemma FieldsApply(e: Edit, listed: seq<(nat, nat)>)
    requires e.deleted == SetOf(listed)
    ensures ApplyFields(EMPTY_EDIT, FieldsOf(e, listed)) == e
  {
    var a, b, c, d := Scalars(e), Pointers(e.compactPointers), Deletions(listed), Additions(e.added);
    var base := e.(compactPointers := [], deleted := {}, added := []);
    ScalarsApply(e);
    ApplyConcat(EMPTY_EDIT, a, b);
    ApplyConcat(EMPTY_EDIT, a + b, c);
    ApplyConcat(EMPTY_EDIT, a + b + c, d);
    ApplyPointers(base, e.compactPointers);
    ApplyDeletions(base.(compactPointers := e.compactPointers), listed);
    ApplyAdditions(base.(compactPointers := e.compactPointers, deleted := e.deleted), e.added);
    assert [] + e.compactPointers == e.compactPointers && [] + e.added == e.added;
    assert {} + e.deleted == e.deleted;
  }

  /** Decoding into a fresh edit what an edit was encoded to gives the edit back, in whatever
      order the set of deleted files was walked. */
  lemma EditRoundTrip(e: Edit, listed: seq<(nat, nat)>)
    requires e.deleted == SetOf(listed) && FieldsOk(FieldsOf(e, listed))
    ensures Decode(EncodeFields(FieldsOf(e, listed)), EMPTY_EDIT) == Some(e)
  {
    var fs := FieldsOf(e, listed);
    DecodeFields(fs, [], EMPTY_EDIT);
    assert EncodeFields(fs) + [] == EncodeFields(fs);
    FieldsApply(e, listed);
  }

  predicate EditOk(e: Edit) {
    && FieldsOk(Scalars(e)) && FieldsOk(Pointers(e.compactPointers)) && FieldsOk(Additions(e.added))
    && forall d :: d in e.deleted ==> FieldOk(DeletedFile(d.0, d.1))
  }

  lemma EncodePush(fs: seq<Field>, f: Field)
    requires FieldsOk(fs) && FieldOk(f)
    ensures FieldsOk(fs + [f]) && EncodeFields(fs + [f]) == EncodeFields(fs) + EncodeField(f)
  {
    assert (fs + [f])[..|fs|] == fs;
  }

  lemma OneMore(before: seq<Field>, fs: seq<Field>, i: nat)
    requires i < |fs|
    ensures before + fs[..i] + [fs[i]] == before + fs[..i + 1]
  {
  }

  lemma NoneAndAll(before: seq<Field>, fs: seq<Field>)
    ensures before + fs[..0] == before && before + fs[..|fs|] == before + fs
  {
    assert fs[..|fs|] == fs;
  }

  /** Appends the encodings of several fields. */
  method EncodeAll(dst0: Bytes, ghost before: seq<Field>, fs: seq<Field>) returns (dst: Bytes)
    requires FieldsOk(before) && FieldsOk(fs) && dst0 == EncodeFields(before)
    ensures FieldsOk(before + fs) && dst == EncodeFields(before + fs)
  {
    dst := dst0;
    var i := 0;
    NoneAndAll(before, fs);
    while i < |fs|
      invariant i <= |fs| && FieldsOk(before + fs[..i]) && dst == EncodeFields(before + fs[..i])
    {
      EncodePush(before + fs[..i], fs[i]);
      OneMore(before, fs, i);
      dst := dst + EncodeField(fs[i]);
      i := i + 1;
    }
  }

  /** The deleted files in whatever order the set yields them. */
  method ListDeleted(deleted: set<(nat, nat)>) returns (listed: seq<(nat, nat)>)
    requires forall d :: d in deleted ==> FieldOk(DeletedFile(d.0, d.1))
    ensures deleted == SetOf(listed) && FieldsOk(Deletions(listed))
  {
    var left := deleted;
    listed := [];
    while left != {}
      invariant left <= deleted && FieldsOk(Deletions(listed)) && deleted == left + SetOf(listed)
      decreases left
    {
      var d :| d in left;
      SetOfPush(listed, d);
      left, listed := left - {d}, listed + [d];
    }
  }

  lemma InParts(e: Edit, listed: seq<(nat, nat)>)
    ensures [] + Scalars(e) + Pointers(e.compactPointers) + Deletions(listed) + Additions(e.added) == FieldsOf(e, listed)
  {
    assert [] + Scalars(e) == Scalars(e);
  }

  /** EncodeTo: the scalars that are set, then the compaction pointers, the deleted files and
      the new files. Decoding restores the edit. */
  method EncodeTo(e: Edit) returns (dst: Bytes)
    requires EditOk(e)
    ensures Decode(dst, EMPTY_EDIT) == Some(e)
  {
    var listed := ListDeleted(e.deleted);
    ghost var a, b, c := Scalars(e), Pointers(e.compactPointers), Deletions(listed);
    dst := EncodeAll([], [], Scalars(e));
    dst := EncodeAll(dst, [] + a, Pointers(e.compactPointers));
    dst := EncodeAll(dst, [] + a + b, Deletions(listed));
    dst := EncodeAll(dst, [] + a + b + c, Additions(e.added));
    InParts(e, listed);
    EditRoundTrip(e, listed);
  }
}
