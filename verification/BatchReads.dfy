/** From the bytes of a batch to what a lookup in the memtable finds. */
module BatchReads {
  import opened Keys
  import opened Coding
  import opened FilterBlock
  import opened Separator
  import opened Block
  import opened TableFormat
  import opened MemTables
  import opened WriteBatches

  /** The i-th update gets the i-th sequence number, with its own key, type and value. */
  lemma {:induction false} StampedAt(us: seq<Update>, first: nat, i: nat)
    requires AllOk(us) && first + |us| <= MAX_SEQUENCE + 1 && i < |us|
    ensures i < |Stamped(us, first)|
    ensures Stamped(us, first)[i] == Block.Pair(InternalKey(us[i].key, first + i, us[i].kind), us[i].value)
    decreases |us|
  {
    if i > 0 {
      StampedAt(us[1..], first + 1, i - 1);
    }
  }

  lemma {:induction false} StampedLength(us: seq<Update>, first: nat)
    requires AllOk(us) && first + |us| <= MAX_SEQUENCE + 1
    ensures |Stamped(us, first)| == |us|
    decreases |us|
  {
    if us != [] {
      StampedLength(us[1..], first + 1);
    }
  }

  /** No later update of the batch is for the same key. */
  predicate LastFor(us: seq<Update>, i: int) {
    0 <= i < |us| && forall j :: i < j < |us| ==> us[j].key != us[i].key
  }

  /** The tag of the i-th update. */
  function TagAt(us: seq<Update>, first: nat, i: nat): nat
    requires i < |us|
  {
    256 * (first + i) + us[i].kind
  }

  lemma StampedKey(us: seq<Update>, first: nat, i: nat)
    requires AllOk(us) && first + |us| <= MAX_SEQUENCE + 1 && i < |us|
    ensures i < |Stamped(us, first)|
    ensures var p := Stamped(us, first)[i];
            UserOf(p.key) == us[i].key && TagOf(p.key) == TagAt(us, first, i) && p.value == us[i].value
  {
    StampedAt(us, first, i);
    InternalKeyParts(us[i].key, first + i, us[i].kind);
  }

  lemma StampedFound(us: seq<Update>, first: nat, p: Block.Pair) returns (i: nat)
    requires AllOk(us) && first + |us| <= MAX_SEQUENCE + 1 && p in Stamped(us, first)
    ensures i < |us| && UserOf(p.key) == us[i].key && TagOf(p.key) == TagAt(us, first, i) && p.value == us[i].value
  {
    StampedLength(us, first);
    i :| 0 <= i < |us| && Stamped(us, first)[i] == p;
    StampedKey(us, first, i);
  }

  /** The entries of a memtable after a batch. */
  ghost predicate Loaded(before: seq<Block.Pair>, us: seq<Update>, first: nat, es: seq<Block.Pair>) {
    && AllOk(us) && first + |us| <= MAX_SEQUENCE + 1 && Below(before, first)
    && multiset(es) == multiset(before) + multiset(Stamped(us, first))
  }

  lemma LoadedFrom(before: seq<Block.Pair>, us: seq<Update>, first: nat, es: seq<Block.Pair>)
    requires Loaded(before, us, first, es)
    ensures forall p :: p in es <==> p in before || p in Stamped(us, first)
  {
    forall p
      ensures p in es <==> p in before || p in Stamped(us, first)
    {
      assert p in es <==> p in multiset(es);
    }
  }

  /** The newest entry for a key that the batch has is its last update of it. */
  lemma LastIsNewest(before: seq<Block.Pair>, us: seq<Update>, first: nat, es: seq<Block.Pair>, k: Bytes, i: nat, p: Block.Pair)
    requires Loaded(before, us, first, es) && LastFor(us, i) && UserOf(k) == us[i].key && TagAt(us, first, i) <= TagOf(k)
    requires p in es && Wanted(p, k) && MemTables.Newest(es, k, p)
    ensures TagOf(p.key) == TagAt(us, first, i) && p.value == us[i].value
  {
    LoadedFrom(before, us, first, es);
    StampedKey(us, first, i);
    var last := Stamped(us, first)[i];
    assert last in es && Wanted(last, k);
    assert TagOf(last.key) <= TagOf(p.key);
    assert forall q :: q in before ==> TagOf(q.key) / 256 < first <= TagOf(last.key) / 256;
    var j := StampedFound(us, first, p);
    assert us[i].kind < 256 && us[j].kind < 256;
    assert j >= i;
  }

  /** After a batch is inserted, a lookup finds for each of its keys the last update of the batch: the
      value put, or the deletion. */
  lemma LastUpdateAnswers(before: seq<Block.Pair>, us: seq<Update>, first: nat, es: seq<Block.Pair>, snapshot: nat, a: Answer, i: nat)
    requires Loaded(before, us, first, es) && LastFor(us, i) && first + i <= snapshot <= MAX_SEQUENCE
    requires IsAnswer(es, InternalKey(us[i].key, snapshot, TYPE_VALUE), a)
    ensures a == if us[i].kind == TYPE_VALUE then Found(us[i].value) else Deleted
  {
    InternalKeyParts(us[i].key, snapshot, TYPE_VALUE);
    AnswerOfLast(before, us, first, es, InternalKey(us[i].key, snapshot, TYPE_VALUE), a, i);
  }

  lemma AnswerOfLast(before: seq<Block.Pair>, us: seq<Update>, first: nat, es: seq<Block.Pair>, k: Bytes, a: Answer, i: nat)
    requires Loaded(before, us, first, es) && LastFor(us, i) && UserOf(k) == us[i].key && TagAt(us, first, i) <= TagOf(k)
    requires IsAnswer(es, k, a)
    ensures a == if us[i].kind == TYPE_VALUE then Found(us[i].value) else Deleted
  {
    UpdateIsThere(before, us, first, es, k, i);
    var p := Answering(es, k, a);
    LastIsNewest(before, us, first, es, k, i, p);
    KindOf(TagOf(p.key), us, first, i);
  }

  lemma KindOf(tag: nat, us: seq<Update>, first: nat, i: nat)
    requires AllOk(us) && i < |us| && tag == TagAt(us, first, i)
    ensures tag % 256 == us[i].kind
  {
    assert UpdateOk(us[i]);
    TagKind(us[i].kind, first + i);
  }

  lemma TagKind(kind: nat, sequence: nat)
    requires kind < 256
    ensures (256 * sequence + kind) % 256 == kind
  {
  }

  lemma UpdateIsThere(before: seq<Block.Pair>, us: seq<Update>, first: nat, es: seq<Block.Pair>, k: Bytes, i: nat)
    requires Loaded(before, us, first, es) && i < |us| && UserOf(k) == us[i].key && TagAt(us, first, i) <= TagOf(k)
    ensures exists q :: q in es && Wanted(q, k)
  {
    LoadedFrom(before, us, first, es);
    StampedKey(us, first, i);
    var q := Stamped(us, first)[i];
    assert q in es && Wanted(q, k);
  }

  /** The entry an answer is taken from. */
  lemma Answering(es: seq<Block.Pair>, k: Bytes, a: Answer) returns (p: Block.Pair)
    requires IsAnswer(es, k, a) && exists q :: q in es && Wanted(q, k)
    ensures p in es && Wanted(p, k) && MemTables.Newest(es, k, p)
    ensures a == if TagOf(p.key) % 256 == TYPE_VALUE then Found(p.value) else Deleted
  {
    p :| p in es && Wanted(p, k) && MemTables.Newest(es, k, p)
         && a == if TagOf(p.key) % 256 == TYPE_VALUE then Found(p.value) else Deleted;
  }

  /** And for every other key what it found before. */
  lemma OtherKeysAsBefore(before: seq<Block.Pair>, us: seq<Update>, first: nat, es: seq<Block.Pair>, user: Bytes, snapshot: nat, a: Answer)
    requires Loaded(before, us, first, es) && snapshot <= MAX_SEQUENCE && forall i :: 0 <= i < |us| ==> us[i].key != user
    requires IsAnswer(es, InternalKey(user, snapshot, TYPE_VALUE), a)
    ensures IsAnswer(before, InternalKey(user, snapshot, TYPE_VALUE), a)
  {
    var k := InternalKey(user, snapshot, TYPE_VALUE);
    InternalKeyParts(user, snapshot, TYPE_VALUE);
    LoadedFrom(before, us, first, es);
    forall p | p in es && Wanted(p, k)
      ensures p in before
    {
      if p in Stamped(us, first) {
        var i := StampedFound(us, first, p);
        assert false;
      }
    }
  }

  /** A batch of these bytes inserted into a memtable, and a key of the batch looked up. */
  method InsertThenGet(rep: Bytes, sequence: nat, ghost us: seq<Update>, mem: MemTable, key: Bytes, snapshot: nat)
    returns (ok: bool, a: Answer)
    requires IsBatch(rep, sequence, us) && mem.Valid() && Below(mem.es, sequence)
    requires sequence + |us| <= MAX_SEQUENCE + 1 && sequence + |us| <= snapshot + 1 && snapshot <= MAX_SEQUENCE
    modifies mem
    ensures ok && mem.Valid()
    ensures forall i :: LastFor(us, i) && us[i].key == key ==> a == if us[i].kind == TYPE_VALUE then Found(us[i].value) else Deleted
    ensures (forall i :: 0 <= i < |us| ==> us[i].key != key) ==> IsAnswer(old(mem.es), InternalKey(key, snapshot, TYPE_VALUE), a)
  {
    BatchReadBack(rep, sequence, us);
    BatchParts(rep, sequence, us);
    ok := InsertInto(rep, mem);
    a := mem.Get(key, snapshot);
    assert Loaded(old(mem.es), us, sequence, mem.es);
    forall i | LastFor(us, i) && us[i].key == key
      ensures a == if us[i].kind == TYPE_VALUE then Found(us[i].value) else Deleted
    {
      LastUpdateAnswers(old(mem.es), us, sequence, mem.es, snapshot, a, i);
    }
    if forall i :: 0 <= i < |us| ==> us[i].key != key {
      OtherKeysAsBefore(old(mem.es), us, sequence, mem.es, key, snapshot, a);
    }
  }

  // Bytes that are no batch

  /** A record of an unknown type ends the batch as corrupt, whatever stands before and behind it. */
  lemma {:induction false} UnknownTypeIsCorrupt(us: seq<Update>, kind: Byte, tail: Bytes)
    requires AllOk(us) && kind != TYPE_VALUE && kind != TYPE_DELETION
    ensures ParseAll(Records(us) + ([kind] + tail)) == (us, false)
  {
    if us == [] {
      assert Records(us) + ([kind] + tail) == [kind] + tail;
    } else {
      var rest := us[1..];
      UnknownTypeIsCorrupt(rest, kind, tail);
      Regroup(EncodeUpdate(us[0]), Records(rest), [kind] + tail);
      ParseFirst(us[0], Records(rest) + ([kind] + tail));
      assert [us[0]] + rest == us;
    }
  }

  lemma Regroup(a: Bytes, b: Bytes, c: Bytes)
    ensures (a + b) + c == a + (b + c)
  {
  }

  /** A batch is accepted only if its count is that of its records. */
  lemma CountMustMatch(rep: Bytes, sequence: nat, count: nat, us: seq<Update>)
    requires AllOk(us) && sequence < TWO64 && count < TWO32
    requires rep == Fixed64(sequence) + Fixed32(count) + Records(us)
    ensures WriteBatches.Contents(rep) == (us, count == |us|)
  {
    HeaderParts(Fixed64(sequence), Fixed32(count), Records(us), rep);
    Fixed32RoundTrip(count, Records(us));
    RecordsReadBack(us);
  }
}
