/** Manifest records of any bytes: what VersionEdit::DecodeFrom lets through. */
module EditChecks {
  import opened Keys
  import opened Coding
  import opened VersionEdits

  // Whatever the bytes

  predicate NumberFits(n: Option<nat>) {
    n.Some? ==> n.value < TWO64
  }

  /** Every level exists, every number has 64 bits and every string a length of 32. */
  predicate Fits(e: VersionEdit) {
    && (e.comparator.Some? ==> |e.comparator.value| < TWO32)
    && NumberFits(e.logNumber) && NumberFits(e.prevLogNumber) && NumberFits(e.nextFile) && NumberFits(e.lastSequence)
    && (forall i :: 0 <= i < |e.compactPointers| ==> ItemOk(CompactPointer(e.compactPointers[i].0, e.compactPointers[i].1)))
    && (forall i :: 0 <= i < |e.deleted| ==> ItemOk(DeletedFile(e.deleted[i].0, e.deleted[i].1)))
    && (forall i :: 0 <= i < |e.newFiles| ==> ItemOk(AddedFile(e.newFiles[i].0, e.newFiles[i].1)))
    && Increasing(e.deleted)
  }

  lemma {:induction false} InsertKeeps(s: seq<(nat, nat)>, d: (nat, nat))
    requires Increasing(s)
    ensures Increasing(InsertPair(s, d)) && forall x :: x in InsertPair(s, d) <==> x in s || x == d
  {
    if s != [] && !PairLess(d, s[0]) && d != s[0] {
      InsertKeeps(s[1..], d);
      var rest := InsertPair(s[1..], d);
      forall x | x in rest ensures PairLess(s[0], x) {
      }
      assert s == [s[0]] + s[1..];
    }
  }

  /** An item that is read can be written. */
  lemma ItemReadIsOk(tag: nat, b: Bytes)
    ensures match GetItem(tag, b) case None => true case Some(got) => ItemOk(got.value)
  {
    if tag == 7 {
      match GetLevel(b)
      case None =>
      case Some(Got(level, b1)) => NewFileReadIsOk(level, b1);
    }
  }

  lemma NewFileReadIsOk(level: nat, b: Bytes)
    requires level < NUM_LEVELS
    ensures match GetNewFile(level, b) case None => true case Some(got) => ItemOk(got.value)
  {
  }

  lemma PutFits(e: VersionEdit, it: Item)
    requires Fits(e) && ItemOk(it)
    ensures Fits(PutItem(e, it))
  {
    if it.DeletedFile? {
      var d := (it.level, it.number);
      InsertKeeps(e.deleted, d);
      forall i | 0 <= i < |InsertPair(e.deleted, d)|
        ensures ItemOk(DeletedFile(InsertPair(e.deleted, d)[i].0, InsertPair(e.deleted, d)[i].1))
      {
        assert InsertPair(e.deleted, d)[i] in InsertPair(e.deleted, d);
      }
    }
  }

  lemma {:induction false} DecodedFits(b: Bytes, e: VersionEdit)
    requires Fits(e)
    ensures match DecodeLoop(b, e) case None => true case Some(r) => Fits(r)
    decreases |b|
  {
    match Get32(b)
    case None =>
    case Some(Got(tag, rest)) =>
      ItemReadIsOk(tag, rest);
      match GetItem(tag, rest)
      case None =>
      case Some(Got(it, after)) =>
        PutFits(e, it);
        DecodedFits(after, PutItem(e, it));
  }

  lemma FitsIsOk(e: VersionEdit)
    requires Fits(e)
    ensures EditOk(e)
  {
    var items := Items(e);
    forall i | 0 <= i < |items| ensures ItemOk(items[i]) {
      ItemOfEdit(e, items[i]);
    }
  }

  lemma ItemOfEdit(e: VersionEdit, it: Item)
    requires Fits(e) && it in Items(e)
    ensures ItemOk(it)
  {
  }

  /** A manifest record that decodes has no level, number or length out of range, and written again it
      decodes to the same edit. */
  lemma DecodedIsStable(b: Bytes)
    ensures match DecodeFrom(b, FRESH)
            case None => true
            case Some(e) => Fits(e) && DecodeFrom(EncodeTo(e), FRESH) == Some(e)
  {
    DecodedFits(b, FRESH);
    match DecodeFrom(b, FRESH)
    case None =>
    case Some(e) =>
      FitsIsOk(e);
      EditReadBackIff(e, FRESH);
  }

  // What is rejected

  /** The items of a record are read one after the other, whatever follows them. */
  lemma {:induction false} ItemsThen(items: seq<Item>, tail: Bytes, e: VersionEdit)
    requires forall i :: 0 <= i < |items| ==> ItemOk(items[i])
    ensures DecodeLoop(EncodeItems(items) + tail, e) == DecodeLoop(tail, PutAll(e, items))
  {
    if items == [] {
      assert [] + tail == tail;
    } else {
      var more := EncodeItems(items[1..]) + tail;
      Regroup(EncodeItem(items[0]), EncodeItems(items[1..]), tail);
      BackItem(items[0], more);
      ItemsThen(items[1..], tail, PutItem(e, items[0]));
    }
  }

  /** An unknown tag makes the whole record corrupt, wherever it stands. */
  lemma UnknownTagIsCorrupt(items: seq<Item>, tag: nat, tail: Bytes, e: VersionEdit)
    requires (forall i :: 0 <= i < |items| ==> ItemOk(items[i])) && tag < TWO32 && tag !in {1, 2, 3, 4, 5, 6, 7, 9}
    ensures DecodeLoop(EncodeItems(items) + (Varint(tag) + tail), e) == None
  {
    ItemsThen(items, Varint(tag) + tail, e);
    Back32(tag, tail);
  }

  /** So does a level that does not exist. */
  lemma WrongLevelIsCorrupt(items: seq<Item>, tag: nat, level: nat, tail: Bytes, e: VersionEdit)
    requires (forall i :: 0 <= i < |items| ==> ItemOk(items[i])) && tag in {5, 6, 7} && NUM_LEVELS <= level < TWO32
    ensures DecodeLoop(EncodeItems(items) + (Varint(tag) + (Varint(level) + tail)), e) == None
  {
    ItemsThen(items, Varint(tag) + (Varint(level) + tail), e);
    Back32(tag, Varint(level) + tail);
    Back32(level, tail);
  }
}
