/** db/version_edit.cc: the manifest record of an edit.

    A record is a list of tagged items.  The decoder handles one item at a time, and what an item
    does to the edit is independent of how it is spelled; so decoding undoes encoding because it
    undoes it item by item. */
module VersionEdits {
  import opened Keys
  import opened Coding

  const NUM_LEVELS := 7

  datatype NewFile = NewFile(number: nat, size: nat, smallest: Bytes, largest: Bytes)

  /** `deleted` is a std::set: increasing, without duplicates. */
  datatype VersionEdit = VersionEdit(
    comparator: Option<Bytes>, logNumber: Option<nat>, prevLogNumber: Option<nat>, nextFile: Option<nat>, lastSequence: Option<nat>,
    compactPointers: seq<(nat, Bytes)>, deleted: seq<(nat, nat)>, newFiles: seq<(nat, NewFile)>)

  const FRESH := VersionEdit(None, None, None, None, None, [], [], [])

  datatype Item =
    | Comparator(name: Bytes)
    | Number(tag: nat, value: nat)
    | CompactPointer(level: nat, key: Bytes)
    | DeletedFile(level: nat, number: nat)
    | AddedFile(level: nat, file: NewFile)

  // Encoding

  function EncodeItem(it: Item): Bytes {
    match it
    case Comparator(name) => Varint(1) + Slice(name)
    case Number(tag, value) => Varint(tag) + Varint(value)
    case CompactPointer(level, key) => Varint(5) + (Varint(level) + Slice(key))
    case DeletedFile(level, number) => Varint(6) + (Varint(level) + Varint(number))
    case AddedFile(level, f) => Varint(7) + (Varint(level) + (Varint(f.number) + (Varint(f.size) + (Slice(f.smallest) + Slice(f.largest)))))
  }

  function EncodeItems(items: seq<Item>): Bytes {
    if items == [] then [] else EncodeItem(items[0]) + EncodeItems(items[1..])
  }

  function NumberItem(tag: nat, n: Option<nat>): seq<Item> {
    match n case None => [] case Some(v) => [Number(tag, v)]
  }

  function PointerItems(ps: seq<(nat, Bytes)>): seq<Item> {
    seq(|ps|, i requires 0 <= i < |ps| => CompactPointer(ps[i].0, ps[i].1))
  }

  function DeletedItems(ds: seq<(nat, nat)>): seq<Item> {
    seq(|ds|, i requires 0 <= i < |ds| => DeletedFile(ds[i].0, ds[i].1))
  }

  function FileItems(fs: seq<(nat, NewFile)>): seq<Item> {
    seq(|fs|, i requires 0 <= i < |fs| => AddedFile(fs[i].0, fs[i].1))
  }

  /** The items of an edit, in the order EncodeTo writes them. */
  function Items(e: VersionEdit): seq<Item> {
    (match e.comparator case None => [] case Some(c) => [Comparator(c)])
    + NumberItem(2, e.logNumber) + NumberItem(9, e.prevLogNumber) + NumberItem(3, e.nextFile) + NumberItem(4, e.lastSequence)
    + PointerItems(e.compactPointers)
    + DeletedItems(e.deleted)
    + FileItems(e.newFiles)
  }

  function EncodeTo(e: VersionEdit): Bytes {
    EncodeItems(Items(e))
  }

  // Decoding

  function GetLevel(b: Bytes): (r: Option<Got<nat>>)
    ensures r.Some? ==> |r.value.rest| < |b|
  {
    match Get32(b) case None => None case Some(Got(v, rest)) => if v < NUM_LEVELS then Some(Got(v, rest)) else None
  }

  /** One turn of the switch in DecodeFrom, after the tag. */
  function GetItem(tag: nat, b: Bytes): (r: Option<Got<Item>>)
    ensures r.Some? ==> |r.value.rest| < |b|
  {
    if tag == 1 then
      match GetSlice(b) case None => None case Some(Got(name, rest)) => Some(Got(Comparator(name), rest))
    else if tag in {2, 3, 4, 9} then
      match Get64(b) case None => None case Some(Got(v, rest)) => Some(Got(Number(tag, v), rest))
    else if tag == 5 then
      match GetLevel(b)
      case None => None
      case Some(Got(level, b1)) =>
        match GetSlice(b1) case None => None case Some(Got(key, rest)) => Some(Got(CompactPointer(level, key), rest))
    else if tag == 6 then
      match GetLevel(b)
      case None => None
      case Some(Got(level, b1)) =>
        match Get64(b1) case None => None case Some(Got(n, rest)) => Some(Got(DeletedFile(level, n), rest))
    else if tag == 7 then
      match GetLevel(b)
      case None => None
      case Some(Got(level, b1)) => GetNewFile(level, b1)
    else None
  }

  function GetNewFile(level: nat, b: Bytes): (r: Option<Got<Item>>)
    ensures r.Some? ==> |r.value.rest| < |b|
  {
    match Get64(b)
    case None => None
    case Some(Got(number, b1)) =>
      match Get64(b1)
      case None => None
      case Some(Got(size, b2)) =>
        match GetSlice(b2)
        case None => None
        case Some(Got(smallest, b3)) =>
          match GetSlice(b3)
          case None => None
          case Some(Got(largest, rest)) => Some(Got(AddedFile(level, NewFile(number, size, smallest, largest)), rest))
  }

  predicate PairLess(a: (nat, nat), b: (nat, nat)) {
    a.0 < b.0 || (a.0 == b.0 && a.1 < b.1)
  }

  function InsertPair(s: seq<(nat, nat)>, d: (nat, nat)): seq<(nat, nat)> {
    if s == [] || PairLess(d, s[0]) then [d] + s
    else if d == s[0] then s
    else [s[0]] + InsertPair(s[1..], d)
  }

  function PutItem(e: VersionEdit, it: Item): VersionEdit {
    match it
    case Comparator(name) => e.(comparator := Some(name))
    case Number(tag, v) =>
      if tag == 2 then e.(logNumber := Some(v))
      else if tag == 9 then e.(prevLogNumber := Some(v))
      else if tag == 3 then e.(nextFile := Some(v))
      else e.(lastSequence := Some(v))
    case CompactPointer(level, key) => e.(compactPointers := e.compactPointers + [(level, key)])
    case DeletedFile(level, number) => e.(deleted := InsertPair(e.deleted, (level, number)))
    case AddedFile(level, f) => e.(newFiles := e.newFiles + [(level, f)])
  }

  /** Clear, which leaves the compaction pointers of the edit as they were. */
  function Clear(e: VersionEdit): VersionEdit {
    FRESH.(compactPointers := e.compactPointers)
  }

  /** The loop of DecodeFrom; None is a corruption status. */
  function DecodeLoop(b: Bytes, e: VersionEdit): Option<VersionEdit>
    decreases |b|
  {
    match Get32(b)
    case None => if b == [] then Some(e) else None
    case Some(Got(tag, rest)) =>
      match GetItem(tag, rest)
      case None => None
      case Some(Got(it, after)) => DecodeLoop(after, PutItem(e, it))
  }

  function DecodeFrom(b: Bytes, e: VersionEdit): Option<VersionEdit> {
    DecodeLoop(b, Clear(e))
  }

  // The round trip

  predicate ItemOk(it: Item) {
    match it
    case Comparator(name) => |name| < TWO32
    case Number(tag, v) => tag in {2, 3, 4, 9} && v < TWO64
    case CompactPointer(level, key) => level < NUM_LEVELS && |key| < TWO32
    case DeletedFile(level, n) => level < NUM_LEVELS && n < TWO64
    case AddedFile(level, f) => level < NUM_LEVELS && f.number < TWO64 && f.size < TWO64 && |f.smallest| < TWO32 && |f.largest| < TWO32
  }

  lemma BackLevel(level: nat, tail: Bytes)
    requires level < NUM_LEVELS
    ensures GetLevel(Varint(level) + tail) == Some(Got(level, tail))
  {
    Back32(level, tail);
  }

  lemma Regroup(a: Bytes, b: Bytes, c: Bytes)
    ensures a + b + c == a + (b + c)
  {
  }

  lemma BackNewFile(level: nat, f: NewFile, tail: Bytes)
    requires ItemOk(AddedFile(level, f))
    ensures GetNewFile(level, Varint(f.number) + (Varint(f.size) + (Slice(f.smallest) + Slice(f.largest))) + tail)
         == Some(Got(AddedFile(level, f), tail))
  {
    var b3 := Slice(f.largest) + tail;
    var b2 := Slice(f.smallest) + b3;
    var b1 := Varint(f.size) + b2;
    Back64(f.number, b1);
    Back64(f.size, b2);
    BackSlice(f.smallest, b3);
    BackSlice(f.largest, tail);
    Regroup(Slice(f.smallest), Slice(f.largest), tail);
    Regroup(Varint(f.size), Slice(f.smallest) + Slice(f.largest), tail);
    Regroup(Varint(f.number), Varint(f.size) + (Slice(f.smallest) + Slice(f.largest)), tail);
  }

  /** An item read back: its tag, and then itself. */
  lemma BackItem(it: Item, tail: Bytes)
    requires ItemOk(it)
    ensures match Get32(EncodeItem(it) + tail)
            case None => false
            case Some(Got(tag, rest)) => GetItem(tag, rest) == Some(Got(it, tail))
  {
    match it {
      case Comparator(name) =>
        Regroup(Varint(1), Slice(name), tail);
        Back32(1, Slice(name) + tail);
        BackSlice(name, tail);
      case Number(tag, v) =>
        Regroup(Varint(tag), Varint(v), tail);
        Back32(tag, Varint(v) + tail);
        Back64(v, tail);
      case CompactPointer(level, key) =>
        Regroup(Varint(5), Varint(level) + Slice(key), tail);
        Regroup(Varint(level), Slice(key), tail);
        Back32(5, Varint(level) + Slice(key) + tail);
        BackLevel(level, Slice(key) + tail);
        BackSlice(key, tail);
      case DeletedFile(level, n) =>
        Regroup(Varint(6), Varint(level) + Varint(n), tail);
        Regroup(Varint(level), Varint(n), tail);
        Back32(6, Varint(level) + Varint(n) + tail);
        BackLevel(level, Varint(n) + tail);
        Back64(n, tail);
      case AddedFile(level, f) =>
        var body := Varint(f.number) + (Varint(f.size) + (Slice(f.smallest) + Slice(f.largest)));
        Regroup(Varint(7), Varint(level) + body, tail);
        Regroup(Varint(level), body, tail);
        Back32(7, Varint(level) + body + tail);
        BackLevel(level, body + tail);
        BackNewFile(level, f, tail);
    }
  }

  function PutAll(e: VersionEdit, items: seq<Item>): VersionEdit
    decreases |items|
  {
    if items == [] then e else PutAll(PutItem(e, items[0]), items[1..])
  }

  lemma {:induction false} ItemsReadBack(items: seq<Item>, e: VersionEdit)
    requires forall i :: 0 <= i < |items| ==> ItemOk(items[i])
    ensures DecodeLoop(EncodeItems(items), e) == Some(PutAll(e, items))
  {
    if items != [] {
      BackItem(items[0], EncodeItems(items[1..]));
      ItemsReadBack(items[1..], PutItem(e, items[0]));
    }
  }

  lemma {:induction false} PutSplit(e: VersionEdit, a: seq<Item>, b: seq<Item>)
    ensures PutAll(e, a + b) == PutAll(PutAll(e, a), b)
    decreases |a|
  {
    if a != [] {
      assert (a + b)[0] == a[0] && (a + b)[1..] == a[1..] + b;
      PutSplit(PutItem(e, a[0]), a[1..], b);
    } else {
      assert a + b == b;
    }
  }

  predicate Increasing(s: seq<(nat, nat)>) {
    forall i, j :: 0 <= i < j < |s| ==> PairLess(s[i], s[j])
  }

  lemma {:induction false} InsertLast(s: seq<(nat, nat)>, d: (nat, nat))
    requires forall i :: 0 <= i < |s| ==> PairLess(s[i], d)
    ensures InsertPair(s, d) == s + [d]
  {
    if s != [] {
      InsertLast(s[1..], d);
    }
  }

  lemma {:induction false} PutPointers(e: VersionEdit, ps: seq<(nat, Bytes)>)
    ensures PutAll(e, PointerItems(ps))
         == e.(compactPointers := e.compactPointers + ps)
    decreases |ps|
  {
    var items := PointerItems(ps);
    if ps != [] {
      var rest := ps[1..];
      PutPointers(PutItem(e, items[0]), rest);
      assert items[1..] == PointerItems(rest);
      assert e.compactPointers + [ps[0]] + rest == e.compactPointers + ps;
    } else {
      assert e.compactPointers + ps == e.compactPointers;
    }
  }

  lemma {:induction false} PutDeleted(e: VersionEdit, ds: seq<(nat, nat)>)
    requires Increasing(e.deleted + ds)
    ensures PutAll(e, DeletedItems(ds)) == e.(deleted := e.deleted + ds)
    decreases |ds|
  {
    var items := DeletedItems(ds);
    if ds != [] {
      var rest := ds[1..];
      forall i | 0 <= i < |e.deleted| ensures PairLess(e.deleted[i], ds[0]) {
        assert (e.deleted + ds)[i] == e.deleted[i] && (e.deleted + ds)[|e.deleted|] == ds[0];
      }
      InsertLast(e.deleted, ds[0]);
      assert e.deleted + [ds[0]] + rest == e.deleted + ds;
      PutDeleted(PutItem(e, items[0]), rest);
      assert items[1..] == DeletedItems(rest);
    } else {
      assert e.deleted + ds == e.deleted;
    }
  }

  lemma {:induction false} PutFiles(e: VersionEdit, fs: seq<(nat, NewFile)>)
    ensures PutAll(e, FileItems(fs)) == e.(newFiles := e.newFiles + fs)
    decreases |fs|
  {
    var items := FileItems(fs);
    if fs != [] {
      var rest := fs[1..];
      PutFiles(PutItem(e, items[0]), rest);
      assert items[1..] == FileItems(rest);
      assert e.newFiles + [fs[0]] + rest == e.newFiles + fs;
    } else {
      assert e.newFiles + fs == e.newFiles;
    }
  }

  predicate EditOk(e: VersionEdit) {
    Increasing(e.deleted) && forall i :: 0 <= i < |Items(e)| ==> ItemOk(Items(e)[i])
  }

  /** The items of an edit put together give the edit, after whatever pointers were left. */
  lemma ItemsOfEdit(e: VersionEdit, left: seq<(nat, Bytes)>)
    requires Increasing(e.deleted)
    ensures PutAll(FRESH.(compactPointers := left), Items(e)) == e.(compactPointers := left + e.compactPointers)
  {
    var s0 := FRESH.(compactPointers := left);
    var comparator: seq<Item> := match e.comparator case None => [] case Some(c) => [Comparator(c)];
    var n1, n2, n3, n4 := NumberItem(2, e.logNumber), NumberItem(9, e.prevLogNumber), NumberItem(3, e.nextFile), NumberItem(4, e.lastSequence);
    var pointers := PointerItems(e.compactPointers);
    var deleted := DeletedItems(e.deleted);
    var files := FileItems(e.newFiles);
    var header := comparator + n1 + n2 + n3 + n4;
    HeaderOfEdit(e, s0);
    var s1 := s0.(comparator := e.comparator, logNumber := e.logNumber, prevLogNumber := e.prevLogNumber,
                  nextFile := e.nextFile, lastSequence := e.lastSequence);
    PutSplit(s0, header, pointers);
    PutPointers(s1, e.compactPointers);
    var s2 := s1.(compactPointers := left + e.compactPointers);
    assert PutAll(s0, header + pointers) == s2;
    PutSplit(s0, header + pointers, deleted);
    assert s2.deleted + e.deleted == e.deleted;
    PutDeleted(s2, e.deleted);
    var s3 := s2.(deleted := e.deleted);
    assert PutAll(s0, header + pointers + deleted) == s3;
    PutSplit(s0, header + pointers + deleted, files);
    PutFiles(s3, e.newFiles);
    assert s3.newFiles + e.newFiles == e.newFiles;
    assert PutAll(s0, header + pointers + deleted + files) == s3.(newFiles := e.newFiles);
    assert Items(e) == header + pointers + deleted + files;
  }

  lemma HeaderOfEdit(e: VersionEdit, s0: VersionEdit)
    requires s0.comparator == None && s0.logNumber == None && s0.prevLogNumber == None && s0.nextFile == None && s0.lastSequence == None
    ensures var comparator: seq<Item> := match e.comparator case None => [] case Some(c) => [Comparator(c)];
            PutAll(s0, comparator + NumberItem(2, e.logNumber) + NumberItem(9, e.prevLogNumber) + NumberItem(3, e.nextFile) + NumberItem(4, e.lastSequence))
            == s0.(comparator := e.comparator, logNumber := e.logNumber, prevLogNumber := e.prevLogNumber,
                   nextFile := e.nextFile, lastSequence := e.lastSequence)
  {
    var comparator: seq<Item> := match e.comparator case None => [] case Some(c) => [Comparator(c)];
    var n1, n2, n3, n4 := NumberItem(2, e.logNumber), NumberItem(9, e.prevLogNumber), NumberItem(3, e.nextFile), NumberItem(4, e.lastSequence);
    PutFive(s0, comparator, n1, n2, n3, n4);
    assert PutAll(s0, comparator) == s0.(comparator := e.comparator) by {
      assert e.comparator.Some? ==> comparator[1..] == [];
    }
    NumberPut(s0.(comparator := e.comparator), 2, e.logNumber);
    NumberPut(s0.(comparator := e.comparator, logNumber := e.logNumber), 9, e.prevLogNumber);
    NumberPut(s0.(comparator := e.comparator, logNumber := e.logNumber, prevLogNumber := e.prevLogNumber), 3, e.nextFile);
    NumberPut(s0.(comparator := e.comparator, logNumber := e.logNumber, prevLogNumber := e.prevLogNumber, nextFile := e.nextFile),
              4, e.lastSequence);
  }

  lemma PutFive(s: VersionEdit, a: seq<Item>, b: seq<Item>, c: seq<Item>, d: seq<Item>, e: seq<Item>)
    ensures PutAll(s, a + b + c + d + e) == PutAll(PutAll(PutAll(PutAll(PutAll(s, a), b), c), d), e)
  {
    PutSplit(s, a + b + c + d, e);
    PutSplit(s, a + b + c, d);
    PutSplit(s, a + b, c);
    PutSplit(s, a, b);
  }

  lemma NumberPut(s: VersionEdit, tag: nat, n: Option<nat>)
    requires tag in {2, 9, 3, 4}
    ensures PutAll(s, NumberItem(tag, n)) == match n case None => s case Some(v) => PutItem(s, Number(tag, v))
  {
    if n.Some? {
      assert NumberItem(tag, n)[1..] == [];
    }
  }

  /** Decoding an encoded edit gives it back, after the compaction pointers the target already had. */
  lemma EditReadBack(e: VersionEdit, target: VersionEdit)
    requires EditOk(e)
    ensures DecodeFrom(EncodeTo(e), target) == Some(e.(compactPointers := target.compactPointers + e.compactPointers))
  {
    ItemsReadBack(Items(e), Clear(target));
    ItemsOfEdit(e, target.compactPointers);
  }

  /** So it gives back exactly the edit if and only if the target had none. */
  lemma EditReadBackIff(e: VersionEdit, target: VersionEdit)
    requires EditOk(e)
    ensures DecodeFrom(EncodeTo(e), target) == Some(e) <==> target.compactPointers == []
  {
    EditReadBack(e, target);
    if target.compactPointers == [] {
      assert [] + e.compactPointers == e.compactPointers;
    } else {
      assert |target.compactPointers + e.compactPointers| > |e.compactPointers|;
    }
  }

  // The loops

  lemma {:induction false} EncodeSplit(a: seq<Item>, b: seq<Item>)
    ensures EncodeItems(a + b) == EncodeItems(a) + EncodeItems(b)
    decreases |a|
  {
    if a != [] {
      assert (a + b)[0] == a[0] && (a + b)[1..] == a[1..] + b;
      EncodeSplit(a[1..], b);
      Regroup(EncodeItem(a[0]), EncodeItems(a[1..]), EncodeItems(b));
    } else {
      assert a + b == b;
    }
  }

  lemma EncodeOne(a: seq<Item>, it: Item)
    ensures EncodeItems(a + [it]) == EncodeItems(a) + EncodeItem(it)
  {
    EncodeSplit(a, [it]);
    assert EncodeItems([it]) == EncodeItem(it);
  }

  /** A field that may be absent, and a list of items. */
  method PutNumber(dst0: Bytes, tag: nat, n: Option<nat>, ghost before: seq<Item>) returns (dst: Bytes)
    requires dst0 == EncodeItems(before)
    ensures dst == EncodeItems(before + NumberItem(tag, n))
  {
    dst := dst0;
    if n.Some? {
      EncodeOne(before, Number(tag, n.value));
      dst := dst + EncodeItem(Number(tag, n.value));
    } else {
      assert before + [] == before;
    }
  }

  method PutItems(dst0: Bytes, items: seq<Item>, ghost before: seq<Item>) returns (dst: Bytes)
    requires dst0 == EncodeItems(before)
    ensures dst == EncodeItems(before + items)
  {
    dst := dst0;
    ghost var done := before;
    var i := 0;
    while i < |items|
      invariant i <= |items| && dst == EncodeItems(done) && done + items[i..] == before + items
    {
      EncodeOne(done, items[i]);
      MoveItem(done, items, i);
      dst := dst + EncodeItem(items[i]);
      done := done + [items[i]];
      i := i + 1;
    }
    assert done + [] == done;
  }

  lemma MoveItem(done: seq<Item>, items: seq<Item>, i: nat)
    requires i < |items|
    ensures done + items[i..] == done + [items[i]] + items[i + 1..]
  {
  }

  method Encode(e: VersionEdit) returns (dst: Bytes)
    ensures dst == EncodeTo(e)
  {
    dst := [];
    ghost var comparator: seq<Item> := [];
    if e.comparator.Some? {
      comparator := [Comparator(e.comparator.value)];
      dst := EncodeItem(Comparator(e.comparator.value));
      EncodeOne([], Comparator(e.comparator.value));
      assert [] + comparator == comparator;
    }
    dst := PutNumber(dst, 2, e.logNumber, comparator);
    ghost var done := comparator + NumberItem(2, e.logNumber);
    dst := PutNumber(dst, 9, e.prevLogNumber, done);
    done := done + NumberItem(9, e.prevLogNumber);
    dst := PutNumber(dst, 3, e.nextFile, done);
    done := done + NumberItem(3, e.nextFile);
    dst := PutNumber(dst, 4, e.lastSequence, done);
    done := done + NumberItem(4, e.lastSequence);
    dst := PutItems(dst, PointerItems(e.compactPointers), done);
    done := done + PointerItems(e.compactPointers);
    dst := PutItems(dst, DeletedItems(e.deleted), done);
    done := done + DeletedItems(e.deleted);
    dst := PutItems(dst, FileItems(e.newFiles), done);
  }

  method Decode(src: Bytes, target: VersionEdit) returns (r: Option<VersionEdit>)
    ensures r == DecodeFrom(src, target)
  {
    var e, input := Clear(target), src;
    while true
      invariant DecodeLoop(input, e) == DecodeFrom(src, target)
      decreases |input|
    {
      var tag := Get32(input);
      if tag.None? {
        return if input == [] then Some(e) else None;
      }
      var item := GetItem(tag.value.value, tag.value.rest);
      if item.None? {
        return None;
      }
      e, input := PutItem(e, item.value.value), item.value.rest;
    }
  }

  /** What LogAndApply writes, Recover reads back. */
  method EncodeThenDecode(e: VersionEdit) returns (r: Option<VersionEdit>)
    requires EditOk(e)
    ensures r == Some(e)
  {
    var record := Encode(e);
    EditReadBackIff(e, FRESH);
    r := Decode(record, FRESH);
  }
}
