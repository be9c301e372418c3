/** db/write_batch.cc: the bytes of a batch, as they go into the log and come out of it. */
module WriteBatches {
  import opened Keys
  import opened Coding
  import opened Block
  import opened FilterBlock
  import opened Separator
  import opened MemTables

  const HEADER := 12

  datatype Update = Update(kind: nat, key: Bytes, value: Bytes)

  /** A put, or a deletion with an empty value, of lengths a varint32 can express. */
  predicate UpdateOk(u: Update) {
    |u.key| + 8 < TWO32 && |u.value| < TWO32 && (u.kind == TYPE_VALUE || (u.kind == TYPE_DELETION && u.value == []))
  }

  predicate AllOk(us: seq<Update>) {
    forall i :: 0 <= i < |us| ==> UpdateOk(us[i])
  }

  // The format

  function EncodeUpdate(u: Update): (b: Bytes)
    requires UpdateOk(u)
    ensures |b| >= 2 && b[0] == u.kind
  {
    [u.kind] + Slice(u.key) + if u.kind == TYPE_VALUE then Slice(u.value) else []
  }

  function Records(us: seq<Update>): Bytes
    requires AllOk(us)
  {
    if us == [] then [] else EncodeUpdate(us[0]) + Records(us[1..])
  }

  /** One turn of the loop in Iterate. */
  function ParseOne(b: Bytes): (r: Option<Got<Update>>)
    requires b != []
    ensures r.Some? ==> |r.value.rest| < |b|
  {
    if b[0] == TYPE_VALUE then
      match GetSlice(b[1..])
      case None => None
      case Some(Got(key, b1)) =>
        match GetSlice(b1) case None => None case Some(Got(value, rest)) => Some(Got(Update(TYPE_VALUE, key, value), rest))
    else if b[0] == TYPE_DELETION then
      match GetSlice(b[1..]) case None => None case Some(Got(key, rest)) => Some(Got(Update(TYPE_DELETION, key, []), rest))
    else None
  }

  /** The updates handed over before the end or the first bad record, and whether the end was reached. */
  function ParseAll(b: Bytes): (seq<Update>, bool)
    decreases |b|
  {
    if b == [] then ([], true)
    else
      match ParseOne(b)
      case None => ([], false)
      case Some(Got(u, rest)) => ([u] + ParseAll(rest).0, ParseAll(rest).1)
  }

  /** Iterate: what the handler is given, and whether the status is OK. */
  function Contents(rep: Bytes): (seq<Update>, bool) {
    if |rep| < HEADER then ([], false)
    else
      var (us, whole) := ParseAll(rep[HEADER..]);
      (us, whole && |us| == DecodeFixed32(rep[8..]))
  }

  // Reading back

  lemma UpdateReadBack(u: Update, tail: Bytes)
    requires UpdateOk(u)
    ensures ParseOne(EncodeUpdate(u) + tail) == Some(Got(u, tail))
  {
    if u.kind == TYPE_VALUE {
      PutReadBack(u, tail);
    } else {
      DeleteReadBack(u, tail);
    }
  }

  lemma PutReadBack(u: Update, tail: Bytes)
    requires UpdateOk(u) && u.kind == TYPE_VALUE
    ensures ParseOne(EncodeUpdate(u) + tail) == Some(Got(u, tail))
  {
    assert (EncodeUpdate(u) + tail)[1..] == Slice(u.key) + (Slice(u.value) + tail);
    BackSlice(u.key, Slice(u.value) + tail);
    BackSlice(u.value, tail);
  }

  lemma DeleteReadBack(u: Update, tail: Bytes)
    requires UpdateOk(u) && u.kind != TYPE_VALUE
    ensures ParseOne(EncodeUpdate(u) + tail) == Some(Got(u, tail))
  {
    assert (EncodeUpdate(u) + tail)[1..] == Slice(u.key) + tail;
    BackSlice(u.key, tail);
  }

  lemma {:induction false} RecordsReadBack(us: seq<Update>)
    requires AllOk(us)
    ensures ParseAll(Records(us)) == (us, true)
  {
    if us != [] {
      ParseFirst(us[0], Records(us[1..]));
      RecordsReadBack(us[1..]);
      assert us == [us[0]] + us[1..];
    }
  }

  lemma ParseFirst(u: Update, tail: Bytes)
    requires UpdateOk(u)
    ensures ParseAll(EncodeUpdate(u) + tail) == ([u] + ParseAll(tail).0, ParseAll(tail).1)
  {
    UpdateReadBack(u, tail);
  }

  lemma {:induction false} RecordsSplit(a: seq<Update>, b: seq<Update>)
    requires AllOk(a) && AllOk(b)
    ensures AllOk(a + b) && Records(a + b) == Records(a) + Records(b)
  {
    if a != [] {
      assert (a + b)[0] == a[0] && (a + b)[1..] == a[1..] + b;
      RecordsSplit(a[1..], b);
    } else {
      assert a + b == b;
    }
  }

  /** A record cut short is a bad record. */
  lemma UpdateTruncated(u: Update, n: nat)
    requires UpdateOk(u) && 0 < n < |EncodeUpdate(u)|
    ensures ParseOne(EncodeUpdate(u)[..n]) == None
  {
    var m := n - 1;
    CutUpdate(u, n);
    if m < |Slice(u.key)| {
      SliceTruncated(u.key, m);
    } else {
      BackSlice(u.key, Slice(u.value)[..m - |Slice(u.key)|]);
      SliceTruncated(u.value, m - |Slice(u.key)|);
    }
  }

  lemma CutUpdate(u: Update, n: nat)
    requires UpdateOk(u) && 0 < n < |EncodeUpdate(u)|
    ensures var b, m, key, value := EncodeUpdate(u)[..n], n - 1, Slice(u.key), Slice(u.value);
            && b[0] == u.kind && (m < |key| ==> b[1..] == key[..m])
            && (m >= |key| ==> u.kind == TYPE_VALUE && m - |key| < |value| && b[1..] == key + value[..m - |key|])
  {
  }

  /** Records cut short are never all read: the end is not reached, or fewer are found. */
  lemma {:induction false} RecordsTruncated(us: seq<Update>, n: nat)
    requires AllOk(us) && n < |Records(us)|
    ensures var r := ParseAll(Records(us)[..n]); r.0 <= us && (r.1 ==> |r.0| < |us|)
  {
    var first, rest := EncodeUpdate(us[0]), Records(us[1..]);
    if n >= |first| {
      RecordsTruncated(us[1..], n - |first|);
      CutLater(us, n, first, rest);
    } else if n > 0 {
      CutFirst(us, n, first, rest);
    }
  }

  lemma CutFirst(us: seq<Update>, n: nat, first: Bytes, rest: Bytes)
    requires AllOk(us) && us != [] && first == EncodeUpdate(us[0]) && rest == Records(us[1..]) && 0 < n < |first|
    ensures ParseAll(Records(us)[..n]) == ([], false)
  {
    assert Records(us)[..n] == first[..n];
    UpdateTruncated(us[0], n);
  }

  lemma CutLater(us: seq<Update>, n: nat, first: Bytes, rest: Bytes)
    requires AllOk(us) && us != [] && first == EncodeUpdate(us[0]) && rest == Records(us[1..]) && |first| <= n < |first + rest|
    requires var r := ParseAll(rest[..n - |first|]); r.0 <= us[1..] && (r.1 ==> |r.0| < |us| - 1)
    ensures var r := ParseAll(Records(us)[..n]); r.0 <= us && (r.1 ==> |r.0| < |us|)
  {
    assert Records(us)[..n] == first + rest[..n - |first|];
    ParseFirst(us[0], rest[..n - |first|]);
    ConsPrefix(us, ParseAll(rest[..n - |first|]).0);
  }

  lemma ConsPrefix(us: seq<Update>, some: seq<Update>)
    requires us != [] && some <= us[1..]
    ensures [us[0]] + some <= us
  {
  }

  ghost predicate IsBatch(rep: Bytes, sequence: nat, us: seq<Update>) {
    && AllOk(us) && |us| < TWO32 && sequence < TWO64
    && rep == Fixed64(sequence) + Fixed32(|us|) + Records(us)
  }

  lemma BatchParts(rep: Bytes, sequence: nat, us: seq<Update>)
    requires IsBatch(rep, sequence, us)
    ensures |rep| >= HEADER && rep[HEADER..] == Records(us) && rep[..8] == Fixed64(sequence)
    ensures DecodeFixed32(rep[8..]) == |us| && DecodeFixed64(rep) == sequence
  {
    HeaderParts(Fixed64(sequence), Fixed32(|us|), Records(us), rep);
    Fixed64RoundTrip(sequence, Fixed32(|us|) + Records(us));
    Fixed32RoundTrip(|us|, Records(us));
  }

  lemma HeaderParts(a: Bytes, b: Bytes, c: Bytes, rep: Bytes)
    requires |a| == 8 && |b| == 4 && rep == a + b + c
    ensures rep == a + (b + c) && rep[..8] == a && rep[8..] == b + c && rep[12..] == c
  {
  }

  /** A batch read back gives its updates, in order, and OK. */
  lemma BatchReadBack(rep: Bytes, sequence: nat, us: seq<Update>)
    requires IsBatch(rep, sequence, us)
    ensures Contents(rep) == (us, true)
  {
    BatchParts(rep, sequence, us);
    RecordsReadBack(us);
  }

  /** A batch cut short anywhere is reported corrupt, whatever of it has been handed over. */
  lemma BatchTruncated(rep: Bytes, sequence: nat, us: seq<Update>, n: nat)
    requires IsBatch(rep, sequence, us) && n < |rep|
    ensures !Contents(rep[..n]).1 && Contents(rep[..n]).0 <= us
  {
    if n >= HEADER {
      BatchParts(rep, sequence, us);
      var cut := rep[..n];
      assert cut[HEADER..] == Records(us)[..n - HEADER];
      CountInCut(rep, sequence, us, n);
      RecordsTruncated(us, n - HEADER);
    }
  }

  lemma CountInCut(rep: Bytes, sequence: nat, us: seq<Update>, n: nat)
    requires IsBatch(rep, sequence, us) && HEADER <= n <= |rep|
    ensures DecodeFixed32(rep[..n][8..]) == |us|
  {
    var some := Records(us)[..n - HEADER];
    assert rep[..n][8..] == Fixed32(|us|) + some;
    Fixed32RoundTrip(|us|, some);
  }

  // The operations

  class WriteBatch {
    var rep: Bytes
    ghost var sequence: nat
    ghost var us: seq<Update>

    ghost predicate Valid()
      reads this
    {
      IsBatch(rep, sequence, us)
    }

    /** The constructor, and Clear. */
    constructor ()
      ensures Valid() && us == [] && sequence == 0
    {
      rep := [0, 0, 0, 0, 0, 0, 0, 0, 0, 0, 0, 0];
      sequence, us := 0, [];
    }

    method SetSequence(s: nat)
      requires Valid() && s < TWO64
      modifies this
      ensures Valid() && us == old(us) && sequence == s
    {
      HeaderParts(Fixed64(sequence), Fixed32(|us|), Records(us), rep);
      rep := Fixed64(s) + rep[8..];
      sequence := s;
      assert rep == Fixed64(s) + Fixed32(|us|) + Records(us);
    }

    /** Put, and Delete for a deletion. */
    method Append1(u: Update)
      requires Valid() && UpdateOk(u) && |us| + 1 < TWO32
      modifies this
      ensures Valid() && us == old(us) + [u] && sequence == old(sequence)
    {
      BatchParts(rep, sequence, us);
      var count: nat := DecodeFixed32(rep[8..]);
      RecordsSplit(us, [u]);
      assert Records([u]) == EncodeUpdate(u) + Records([]);
      FourParts(Fixed64(sequence), Fixed32(count + 1), Records(us), Records([u]));
      rep := rep[..8] + Fixed32(count + 1) + rep[HEADER..] + EncodeUpdate(u);
      us := us + [u];
    }

    /** WriteBatchInternal::Append: the operations of one batch after those of the other. */
    method Append(src: WriteBatch)
      requires Valid() && src.Valid() && |us| + |src.us| < TWO32
      modifies this
      ensures Valid() && us == old(us) + old(src.us) && sequence == old(sequence)
    {
      BatchParts(rep, sequence, us);
      BatchParts(src.rep, src.sequence, src.us);
      var count: nat := DecodeFixed32(rep[8..]) + DecodeFixed32(src.rep[8..]);
      RecordsSplit(us, src.us);
      FourParts(Fixed64(sequence), Fixed32(count), Records(us), Records(src.us));
      rep := rep[..8] + Fixed32(count) + rep[HEADER..] + src.rep[HEADER..];
      us := us + src.us;
    }
  }

  lemma FourParts(a: Bytes, b: Bytes, c: Bytes, d: Bytes)
    ensures a + b + c + d == a + b + (c + d)
  {
  }

  // Into the memtable

  /** The entries of the updates, numbered from `first`. */
  function Stamped(us: seq<Update>, first: nat): seq<Pair>
    requires AllOk(us) && first + |us| <= MAX_SEQUENCE + 1
  {
    if us == [] then []
    else [EntryOf(us[0], first)] + Stamped(us[1..], first + 1)
  }

  ghost predicate Below(es: seq<Pair>, sequence: nat) {
    forall p :: p in es ==> TagOf(p.key) / 256 < sequence
  }

  /** How far the loop has come, `left` being the updates up to the first bad record to come. */
  datatype Load = Load(es: seq<Pair>, input: Bytes, left: seq<Update>, next: nat, found: nat)

  /** Where it is going: what the memtable will have, whether the end of the input will be
      reached, and how many records there are up to the first bad one. */
  datatype Goal = Goal(total: multiset<Pair>, whole: bool, count: nat)

  ghost function Loads(g: Goal): iset<Load> {
    iset l: Load | ParseAll(l.input) == (l.left, g.whole) && Ahead(l.es, l.left, l.next, l.found, g)
  }

  ghost predicate Ahead(es: seq<Pair>, left: seq<Update>, next: nat, found: nat, g: Goal) {
    && found + |left| == g.count
    && AllOk(left) && next + |left| <= MAX_SEQUENCE + 1 && Below(es, next)
    && multiset(es) + multiset(Stamped(left, next)) == g.total
  }

  /** InsertInto, that is, Iterate with MemTableInserter, for any bytes: the memtable gets the
      updates up to the first bad record, and the status is OK exactly for a sound batch. */
  method InsertInto(rep: Bytes, mem: MemTable) returns (ok: bool)
    requires mem.Valid()
    requires |rep| >= HEADER ==>
               var us := Contents(rep).0;
               AllOk(us) && DecodeFixed64(rep) + |us| <= MAX_SEQUENCE + 1 && Below(mem.es, DecodeFixed64(rep))
    modifies mem
    ensures mem.Valid() && ok == Contents(rep).1
    ensures |rep| < HEADER ==> mem.es == old(mem.es)
    ensures |rep| >= HEADER ==>
              multiset(mem.es) == multiset(old(mem.es)) + multiset(Stamped(Contents(rep).0, DecodeFixed64(rep)))
  {
    if |rep| < HEADER {
      return false;
    }
    ghost var (us, clean) := ParseAll(rep[HEADER..]);
    ghost var g := Goal(multiset(mem.es) + multiset(Stamped(us, DecodeFixed64(rep))), clean, |us|);
    var sequence: nat := DecodeFixed64(rep);
    var whole, found := InsertAll(rep[HEADER..], sequence, mem, Load(mem.es, rep[HEADER..], us, sequence, 0), g);
    ok := whole && found == DecodeFixed32(rep[8..]);
  }

  /** The loop: whether it reached the end, and how many records it found on the way. */
  method InsertAll(records: Bytes, sequence: nat, mem: MemTable, ghost start: Load, ghost g: Goal) returns (whole: bool, found: nat)
    requires mem.Valid() && start in Loads(g) && start == Load(mem.es, records, start.left, sequence, 0)
    modifies mem
    ensures mem.Valid() && multiset(mem.es) == g.total && whole == g.whole && (whole ==> found == g.count)
  {
    var input, next := records, sequence;
    found := 0;
    ghost var l := start;
    while input != []
      invariant mem.Valid() && l in Loads(g) && l == Load(mem.es, input, l.left, next, found)
      decreases |input|
    {
      var ok;
      ok, input, l := InsertNext(input, next, mem, l, g);
      if !ok {
        return false, found + 1;
      }
      next, found := next + 1, found + 1;
    }
    NoneLeft(l, g);
    whole := true;
  }

  /** One turn of the loop: a record and the handler's call, or a bad record. */
  method InsertNext(input: Bytes, next: nat, mem: MemTable, ghost l: Load, ghost g: Goal) returns (ok: bool, rest: Bytes, ghost l': Load)
    requires mem.Valid() && l in Loads(g) && l.es == mem.es && l.next == next && l.input == input != []
    modifies mem
    ensures mem.Valid() && |rest| <= |input|
    ensures ok ==> |rest| < |input| && l' in Loads(g) && l' == Load(mem.es, rest, l'.left, next + 1, l.found + 1)
    ensures !ok ==> multiset(mem.es) == g.total && !g.whole
  {
    var got := ParseOne(input);
    if got.None? {
      NoneLeft(l, g);
      return false, input, l;
    }
    l' := InsertOne(got.value, next, mem, l, g);
    ok, rest := true, got.value.rest;
  }

  /** The handler's call for one record. */
  method InsertOne(got: Got<Update>, next: nat, mem: MemTable, ghost l: Load, ghost g: Goal) returns (ghost l': Load)
    requires mem.Valid() && l in Loads(g) && l.es == mem.es && l.next == next && l.input != [] && ParseOne(l.input) == Some(got)
    modifies mem
    ensures mem.Valid() && l' in Loads(g) && l' == Load(mem.es, got.rest, l'.left, l.next + 1, l.found + 1)
  {
    ghost var p, more := FirstLeft(l, got, g);
    mem.Add(next, got.value.kind, got.value.key, got.value.value);
    l' := OneLess(l, got, g, p, more, mem.es);
  }

  lemma NoneLeft(l: Load, g: Goal)
    requires l in Loads(g) && (l.input == [] || ParseOne(l.input) == None)
    ensures multiset(l.es) == g.total && g.whole == (l.input == []) && l.found == g.count
  {
  }

  lemma ParsedFirst(l: Load, got: Got<Update>, g: Goal)
    requires l.input != [] && ParseOne(l.input) == Some(got) && l in Loads(g)
    ensures l.left == [got.value] + ParseAll(got.rest).0 && ParseAll(got.rest).1 == g.whole
    ensures Ahead(l.es, l.left, l.next, l.found, g)
  {
  }

  /** The entry that the first record becomes. */
  lemma FirstLeft(l: Load, got: Got<Update>, g: Goal) returns (p: Pair, more: seq<Update>)
    requires l.input != [] && ParseOne(l.input) == Some(got) && l in Loads(g)
    ensures UpdateOk(got.value) && l.next <= MAX_SEQUENCE && Below(l.es, l.next)
    ensures p == EntryOf(got.value, l.next) && TagOf(p.key) / 256 == l.next
    ensures l.left == [got.value] + more && ParseAll(got.rest) == (more, g.whole) && Ahead(l.es, l.left, l.next, l.found, g)
  {
    var u := got.value;
    more := ParseAll(got.rest).0;
    ParsedFirst(l, got, g);
    assert l.left[0] == u;
    InternalKeyParts(u.key, l.next, u.kind);
    p := EntryOf(u, l.next);
  }

  function EntryOf(u: Update, sequence: nat): Pair
    requires UpdateOk(u) && sequence <= MAX_SEQUENCE
  {
    Pair(InternalKey(u.key, sequence, u.kind), u.value)
  }

  lemma OneLess(l: Load, got: Got<Update>, g: Goal, p: Pair, more: seq<Update>, es: seq<Pair>) returns (l': Load)
    requires l.left == [got.value] + more && ParseAll(got.rest) == (more, g.whole) && Ahead(l.es, l.left, l.next, l.found, g)
    requires UpdateOk(got.value) && l.next <= MAX_SEQUENCE && p == EntryOf(got.value, l.next) && TagOf(p.key) / 256 == l.next
    requires multiset(es) == multiset(l.es) + multiset{p}
    ensures l' in Loads(g) && l' == Load(es, got.rest, l'.left, l.next + 1, l.found + 1)
  {
    OneAhead(l.es, es, l.left, got.value, more, l.next, l.found, g, p);
    l' := Load(es, got.rest, more, l.next + 1, l.found + 1);
  }

  lemma OneAhead(es: seq<Pair>, es': seq<Pair>, left: seq<Update>, u: Update, more: seq<Update>, next: nat, found: nat, g: Goal, p: Pair)
    requires left == [u] + more && Ahead(es, left, next, found, g) && multiset(es') == multiset(es) + multiset{p}
    requires UpdateOk(u) && next <= MAX_SEQUENCE && p == EntryOf(u, next) && TagOf(p.key) / 256 == next
    ensures Ahead(es', more, next + 1, found + 1, g)
  {
    StampedFirst(u, more, next);
    NewestIsLast(es, es', p, next);
  }

  lemma StampedFirst(u: Update, more: seq<Update>, first: nat)
    requires AllOk([u] + more) && first + 1 + |more| <= MAX_SEQUENCE + 1
    ensures AllOk(more) && UpdateOk(u)
    ensures multiset(Stamped([u] + more, first)) == multiset{EntryOf(u, first)} + multiset(Stamped(more, first + 1))
  {
    var us := [u] + more;
    assert us[0] == u && us[1..] == more;
    assert forall i :: 0 <= i < |more| ==> more[i] == us[i + 1];
  }

  lemma NewestIsLast(before: seq<Pair>, after: seq<Pair>, p: Pair, sequence: nat)
    requires multiset(after) == multiset(before) + multiset{p} && TagOf(p.key) / 256 == sequence
    requires Below(before, sequence)
    ensures Below(after, sequence + 1)
  {
    forall q | q in after ensures q in before || q == p {
      assert q in multiset(after);
    }
  }
}
