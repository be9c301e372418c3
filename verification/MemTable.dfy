/** db/memtable.cc and db/write_batch.cc: from the bytes of a batch to entries a lookup finds.

    The skip list under the memtable is the subject of `SkipList`; here it is its sorted contents,
    and its search a scan. */
module MemTables {
  import opened Keys
  import opened Coding
  import opened Block
  import opened FilterBlock
  import opened Separator
  import opened TableFormat

  const TYPE_DELETION := 0
  const TYPE_VALUE := 1

  /** AppendInternalKey: the user key, and the packed sequence number and type. */
  function InternalKey(user: Bytes, sequence: nat, kind: nat): Bytes
    requires sequence <= MAX_SEQUENCE && kind <= TYPE_VALUE
  {
    user + Fixed64(256 * sequence + kind)
  }

  lemma InternalKeyParts(user: Bytes, sequence: nat, kind: nat)
    requires sequence <= MAX_SEQUENCE && kind <= TYPE_VALUE
    ensures var k := InternalKey(user, sequence, kind); |k| == |user| + 8 && UserOf(k) == user && TagOf(k) == 256 * sequence + kind
  {
    var k := InternalKey(user, sequence, kind);
    var tag := Fixed64(256 * sequence + kind);
    assert k[..|k| - 8] == user && k[|k| - 8..] == tag + [];
    Fixed64RoundTrip(256 * sequence + kind, []);
  }

  function EncodeEntry(p: Pair): Bytes {
    Slice(p.key) + Slice(p.value)
  }

  lemma MemEntryReadBack(p: Pair)
    requires |p.key| < TWO32 && |p.value| < TWO32
    ensures GetSlice(EncodeEntry(p)) == Some(Got(p.key, Slice(p.value))) && GetSlice(Slice(p.value)) == Some(Got(p.value, []))
  {
    BackSlice(p.key, Slice(p.value));
    BackSlice(p.value, []);
    assert Slice(p.value) + [] == Slice(p.value);
  }

  /** The internal key of an encoded entry, as the memtable's comparator reads it. */
  function KeyOfEntry(entry: Bytes): Bytes {
    match GetSlice(entry) case None => [] case Some(Got(key, _)) => key
  }

  ghost predicate Encoded(table: seq<Bytes>, es: seq<Pair>) {
    && |table| == |es|
    && (forall i :: 0 <= i < |es| ==> table[i] == EncodeEntry(es[i]))
    && (forall i :: 0 <= i < |es| ==> |es[i].key| < TWO32 && |es[i].value| < TWO32)
  }

  ghost predicate Typed(es: seq<Pair>) {
    forall i :: 0 <= i < |es| ==> TagOf(es[i].key) % 256 <= TYPE_VALUE
  }

  datatype Contents = Contents(table: seq<Bytes>, es: seq<Pair>)

  /** The encodings of entries in order. */
  ghost function Tables(): iset<Contents> {
    iset c: Contents | Encoded(c.table, c.es) && Ordered(c.es) && Typed(c.es)
  }

  /** What MemTable::Get reports. */
  datatype Answer = NotHere | Found(value: Bytes) | Deleted

  /** The right answer for entries `es` and a lookup key: that of the newest entry wanted. */
  ghost predicate IsAnswer(es: seq<Pair>, k: Bytes, a: Answer) {
    if a.NotHere? then forall p :: p in es ==> !Wanted(p, k)
    else exists p :: p in es && Wanted(p, k) && Newest(es, k, p)
           && a == if TagOf(p.key) % 256 == TYPE_VALUE then Found(p.value) else Deleted
  }

  ghost predicate Newest(es: seq<Pair>, k: Bytes, p: Pair) {
    forall q :: q in es && Wanted(q, k) ==> TagOf(q.key) <= TagOf(p.key)
  }

  class MemTable {
    var table: seq<Bytes>
    ghost var es: seq<Pair>

    ghost predicate Valid()
      reads this
    {
      Contents(table, es) in Tables()
    }

    constructor ()
      ensures Valid() && es == []
    {
      table, es := [], [];
    }

    /** The place of the first entry not before the key. */
    method FindGreaterOrEqual(key: Bytes) returns (n: nat)
      requires Valid()
      ensures IsFirst(es, key, n)
    {
      n := 0;
      ghost var c := Contents(table, es);
      NoneBefore(c, key);
      while n < |table| && Less(KeyOfEntry(table[n]), key)
        invariant n <= |table| && n in LessBefore(c, key)
      {
        OneMoreBefore(c, key, n);
        n := n + 1;
      }
      FirstIsHere(c, key, n);
    }

    /** The sequence number is new, and the entry goes to its place in the order. */
    method Add(sequence: nat, kind: nat, key: Bytes, value: Bytes)
      requires Valid() && sequence <= MAX_SEQUENCE && kind <= TYPE_VALUE && |key| + 8 < TWO32 && |value| < TWO32
      requires forall p :: p in es ==> TagOf(p.key) / 256 != sequence
      modifies this
      ensures Valid() && multiset(es) == multiset(old(es)) + multiset{Pair(InternalKey(key, sequence, kind), value)}
    {
      var internalKey := InternalKey(key, sequence, kind);
      InternalKeyParts(key, sequence, kind);
      var n := FindGreaterOrEqual(internalKey);
      ghost var p := Pair(internalKey, value);
      InsertKeepsOrder(es, p, n);
      InsertEncoded(table, es, p, n);
      Inserted(es, p, n);
      table := table[..n] + [Slice(internalKey) + Slice(value)] + table[n..];
      es := es[..n] + [p] + es[n..];
    }

    /** Get, for the lookup key of a user key and a snapshot. */
    method Get(user: Bytes, snapshot: nat) returns (a: Answer)
      requires Valid() && snapshot <= MAX_SEQUENCE
      ensures IsAnswer(es, InternalKey(user, snapshot, TYPE_VALUE), a)
    {
      var key := InternalKey(user, snapshot, TYPE_VALUE);
      InternalKeyParts(user, snapshot, TYPE_VALUE);
      var n := FindGreaterOrEqual(key);
      FirstIsNewest(es, key, n);
      if n == |table| {
        return NotHere;
      }
      MemEntryReadBack(es[n]);
      var entry := GetSlice(table[n]).value;
      if UserOf(entry.value) != user {
        return NotHere;
      }
      var tag := TagOf(entry.value);
      assert es[n] in es && Wanted(es[n], key) && Newest(es, key, es[n]);
      if tag % 256 == TYPE_VALUE {
        a := Found(GetSlice(entry.rest).value.value);
      } else {
        a := Deleted;
      }
    }
  }

  /** The places with only lesser entries before them. */
  ghost function LessBefore(c: Contents, key: Bytes): iset<nat> {
    iset n: nat | AllLess(c.es, key, n)
  }

  ghost predicate AllLess(es: seq<Pair>, key: Bytes, n: nat) {
    n <= |es| && forall p :: 0 <= p < n ==> Less(es[p].key, key)
  }

  lemma NoneBefore(c: Contents, key: Bytes)
    ensures 0 in LessBefore(c, key)
  {
  }

  lemma OneMoreBefore(c: Contents, key: Bytes, n: nat)
    requires c in Tables() && n < |c.table| && n in LessBefore(c, key) && Less(KeyOfEntry(c.table[n]), key)
    ensures n + 1 in LessBefore(c, key)
  {
    KeyIs(c, n);
  }

  lemma KeyIs(c: Contents, n: nat)
    requires c in Tables() && n < |c.table|
    ensures |c.es| == |c.table| && KeyOfEntry(c.table[n]) == c.es[n].key
  {
    MemEntryReadBack(c.es[n]);
  }

  lemma FirstIsHere(c: Contents, key: Bytes, n: nat)
    requires c in Tables() && n <= |c.table| && n in LessBefore(c, key)
    requires n < |c.table| ==> !Less(KeyOfEntry(c.table[n]), key)
    ensures IsFirst(c.es, key, n)
  {
    if n < |c.table| {
      KeyIs(c, n);
      NoneLessAfter(c.es, key, n);
    }
  }

  lemma NoneLessAfter(es: seq<Pair>, key: Bytes, n: nat)
    requires Ordered(es) && n < |es| && !Less(es[n].key, key)
    ensures forall p :: n <= p < |es| ==> !Less(es[p].key, key)
  {
    forall p | n <= p < |es| ensures !Less(es[p].key, key) {
      LessOrder(es[n].key, es[p].key, key);
    }
  }

  /** Entries of different sequence numbers are comparable. */
  lemma Comparable(a: Bytes, b: Bytes)
    requires |a| >= 8 && |b| >= 8 && TagOf(a) != TagOf(b)
    ensures Less(a, b) || Less(b, a)
  {
    UserOrder(UserOf(a), UserOf(b), UserOf(a));
  }

  lemma InsertKeepsOrder(es: seq<Pair>, p: Pair, n: nat)
    requires Ordered(es) && |p.key| >= 8 && IsFirst(es, p.key, n)
    requires forall q :: q in es ==> TagOf(q.key) / 256 != TagOf(p.key) / 256
    ensures Ordered(es[..n] + [p] + es[n..])
  {
    NewIsLess(es, p, n);
    Spliced(es, p, n, (a: Pair, b: Pair) => Less(a.key, b.key));
  }

  lemma Spliced(es: seq<Pair>, p: Pair, n: nat, lt: (Pair, Pair) -> bool)
    requires n <= |es| && forall i, j :: 0 <= i < j < |es| ==> lt(es[i], es[j])
    requires (forall i :: 0 <= i < n ==> lt(es[i], p)) && forall j :: n <= j < |es| ==> lt(p, es[j])
    ensures var after := es[..n] + [p] + es[n..]; forall i, j :: 0 <= i < j < |after| ==> lt(after[i], after[j])
  {
  }

  lemma NewIsLess(es: seq<Pair>, p: Pair, n: nat)
    requires Ordered(es) && |p.key| >= 8 && IsFirst(es, p.key, n)
    requires forall q :: q in es ==> TagOf(q.key) / 256 != TagOf(p.key) / 256
    ensures forall q :: n <= q < |es| ==> Less(p.key, es[q].key)
  {
    forall q | n <= q < |es| ensures Less(p.key, es[q].key) {
      assert es[q] in es;
      Comparable(p.key, es[q].key);
    }
  }

  lemma InsertEncoded(table: seq<Bytes>, es: seq<Pair>, p: Pair, n: nat)
    requires Encoded(table, es) && Typed(es) && n <= |es|
    requires |p.key| < TWO32 && |p.value| < TWO32 && TagOf(p.key) % 256 <= TYPE_VALUE
    ensures Encoded(table[..n] + [EncodeEntry(p)] + table[n..], es[..n] + [p] + es[n..]) && Typed(es[..n] + [p] + es[n..])
  {
    var table', es' := table[..n] + [EncodeEntry(p)] + table[n..], es[..n] + [p] + es[n..];
    forall i | 0 <= i < |es'|
      ensures table'[i] == EncodeEntry(es'[i]) && |es'[i].key| < TWO32 && |es'[i].value| < TWO32 && TagOf(es'[i].key) % 256 <= TYPE_VALUE
    {
      if i < n {
        assert es'[i] == es[i] && table'[i] == table[i];
      } else if i > n {
        assert es'[i] == es[i - 1] && table'[i] == table[i - 1];
      }
    }
  }

  lemma Inserted(es: seq<Pair>, p: Pair, n: nat)
    requires n <= |es|
    ensures multiset(es[..n] + [p] + es[n..]) == multiset(es) + multiset{p}
  {
    assert es == es[..n] + es[n..];
  }
}
