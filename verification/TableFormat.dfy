/** table/table_builder.cc, table.cc and format.cc: what a table file holds. */
module TableFormat {
  import opened Keys
  import opened Coding
  import opened LogFormat
  import opened Block
  import opened Filter
  import opened FilterBlock
  import opened Separator

  /** BlockHandle. */
  datatype Handle = Handle(offset: nat, size: nat)

  function EncodeHandle(h: Handle): Bytes {
    Varint(h.offset) + Varint(h.size)
  }

  function DecodeHandle(b: Bytes): Option<Handle> {
    match GetVarint(b, 10)
    case None => None
    case Some((offset, n)) =>
      match GetVarint(b[n..], 10)
      case None => None
      case Some((size, _)) => Some(Handle(offset % TWO64, size % TWO64))
  }

  lemma HandleReadBack(h: Handle)
    requires h.offset < TWO64 && h.size < TWO64
    ensures DecodeHandle(EncodeHandle(h)) == Some(h)
  {
    var n := |Varint(h.offset)|;
    VarintAhead(h.offset, Varint(h.size));
    VarintAhead(h.size, []);
    assert Varint(h.size) + [] == Varint(h.size);
    assert EncodeHandle(h)[n..] == Varint(h.size);
  }

  lemma VarintAhead(v: nat, tail: Bytes)
    requires v < TWO64
    ensures GetVarint(Varint(v) + tail, 10) == Some((v, |Varint(v)|))
  {
    VarintLengths(v);
    VarintRoundTrip(v, tail, 10);
  }

  // Blocks in the file

  const TRAILER_SIZE := 5

  /** The type byte of an uncompressed block, and the masked checksum of contents and type. */
  function Trailer(c: Checksum, contents: Bytes): (b: Bytes)
    ensures |b| == TRAILER_SIZE
  {
    [0] + Fixed32(Mask(Extend(c, Value(c, contents), [0])))
  }

  /** ReadBlock with checksums verified; None is a truncated or corrupt block, or a compressed one. */
  function ReadBlock(c: Checksum, file: Bytes, h: Handle): Option<Bytes> {
    if h.offset + h.size + TRAILER_SIZE > |file| then None
    else
      var data := file[h.offset..h.offset + h.size + TRAILER_SIZE];
      if Unmask(DecodeFixed32(data[h.size + 1..])) != Value(c, data[..h.size + 1]) then None
      else if data[h.size] != 0 then None
      else Some(data[..h.size])
  }

  /** WriteRawBlock put the contents there. */
  ghost predicate Stored(c: Checksum, file: Bytes, h: Handle, contents: Bytes) {
    && h.size == |contents| && h.offset + |contents| + TRAILER_SIZE <= |file|
    && file[h.offset..h.offset + |contents| + TRAILER_SIZE] == contents + Trailer(c, contents)
  }

  /** ReadBlock returns these contents if and only if they stand there with the trailer that
      WriteRawBlock puts behind them: no damaged block is ever returned. */
  lemma ReadBlockIsExact(c: Checksum, file: Bytes, h: Handle, contents: Bytes)
    ensures ReadBlock(c, file, h) == Some(contents) <==> Stored(c, file, h, contents)
  {
    if h.offset + h.size + TRAILER_SIZE <= |file| {
      var data := file[h.offset..h.offset + h.size + TRAILER_SIZE];
      var found := data[..h.size];
      TrailerIs(c, data, h.size);
      if |contents| == h.size && data == contents + Trailer(c, contents) {
        assert data[..h.size] == contents;
      }
      assert found == contents && data == found + Trailer(c, found) ==> Stored(c, file, h, contents);
    }
  }

  lemma TrailerIs(c: Checksum, data: Bytes, n: nat)
    requires |data| == n + TRAILER_SIZE
    ensures data == data[..n] + Trailer(c, data[..n])
       <==> data[n] == 0 && Unmask(DecodeFixed32(data[n + 1..])) == Value(c, data[..n + 1])
  {
    var found, last := data[..n], data[n + 1..];
    ExtendSplit(c, c.init, found, [0]);
    var crc := Value(c, found + [0]);
    UnmaskMask(crc);
    MaskUnmask(DecodeFixed32(last));
    Fixed32Back(last);
    assert last[..4] == last && data == found + [data[n]] + last;
    Fixed32RoundTrip(Mask(crc), []);
    assert Fixed32(Mask(crc)) + [] == Fixed32(Mask(crc));
    assert data[n] == 0 ==> data[..n + 1] == found + [0];
    if data == found + Trailer(c, found) {
      assert data[n..] == Trailer(c, found) && data[n] == data[n..][0] && last == data[n..][1..];
    }
  }

  lemma {:induction false} ExtendSplit(c: Checksum, crc: U32, a: Bytes, b: Bytes)
    ensures Extend(c, crc, a + b) == Extend(c, Extend(c, crc, a), b)
    decreases a
  {
    if a != [] {
      assert (a + b)[1..] == a[1..] + b;
      ExtendSplit(c, c.step(crc, a[0]), a[1..], b);
    } else {
      assert a + b == b;
    }
  }

  lemma StoredStays(c: Checksum, file: Bytes, more: Bytes, h: Handle, contents: Bytes)
    requires Stored(c, file, h, contents)
    ensures Stored(c, file + more, h, contents)
  {
    var end := h.offset + |contents| + TRAILER_SIZE;
    assert (file + more)[h.offset..end] == file[h.offset..end];
  }

  // The entries of a table, cut into data blocks

  /** `es[cuts[i]..cuts[i + 1]]` is the data block at `handles[i]`, and `seps[i]` its index key;
      the entries after the last cut are in the block being built. */
  datatype Spec = Spec(es: seq<Pair>, cuts: seq<nat>, handles: seq<Handle>, seps: seq<Bytes>)

  ghost predicate Ordered(es: seq<Pair>) {
    && (forall i :: 0 <= i < |es| ==> |es[i].key| >= 8)
    && (forall i, j :: 0 <= i < j < |es| ==> Less(es[i].key, es[j].key))
  }

  ghost predicate CutsOk(t: Spec) {
    && |t.cuts| == |t.handles| + 1 && t.cuts[0] == 0
    && (forall i, j :: 0 <= i < j < |t.cuts| ==> t.cuts[i] < t.cuts[j])
    && t.cuts[|t.handles|] <= |t.es|
  }

  /** Nothing up to the cut is after the key; everything from the cut on is after it, and, unless
      the key is an entry's own, belongs to greater user keys. */
  ghost predicate Separates(es: seq<Pair>, cut: nat, sep: Bytes)
    requires 0 < cut <= |es|
  {
    && |sep| >= 8
    && (forall p :: 0 <= p < cut ==> es[p].key == sep || Less(es[p].key, sep))
    && (forall p :: cut <= p < |es| ==> Less(sep, es[p].key))
    && (sep == es[cut - 1].key || forall p :: cut <= p < |es| ==> UserLess(UserOf(sep), UserOf(es[p].key)))
  }

  ghost predicate SepsOk(t: Spec)
    requires CutsOk(t)
  {
    && |t.seps| <= |t.handles|
    && forall i :: 0 <= i < |t.seps| ==> 0 < t.cuts[i + 1] <= |t.es| && Separates(t.es, t.cuts[i + 1], t.seps[i])
  }

  function BlockEntries(t: Spec, i: nat): seq<Pair>
    requires i + 1 < |t.cuts| && t.cuts[i] <= t.cuts[i + 1] <= |t.es|
  {
    t.es[t.cuts[i]..t.cuts[i + 1]]
  }

  ghost predicate BlockOk(c: Checksum, file: Bytes, interval: nat, t: Spec, i: nat)
    requires interval > 0
  {
    && i < |t.handles| && i + 1 < |t.cuts| && t.cuts[i] <= t.cuts[i + 1] <= |t.es|
    && Stored(c, file, t.handles[i], BlockBytes(BlockEntries(t, i), interval))
  }

  ghost predicate BlocksOk(c: Checksum, file: Bytes, interval: nat, t: Spec)
    requires interval > 0
  {
    forall i :: 0 <= i < |t.handles| ==> BlockOk(c, file, interval, t, i)
  }

  /** The keys of entries `from` to `to` are in the filter group of a block's offset. */
  ghost predicate Grouped(es: seq<Pair>, from: nat, to: nat, offset: nat, groups: seq<seq<Bytes>>)
    requires to <= |es|
  {
    offset / FILTER_BASE < |groups| && forall p :: from <= p < to ==> es[p].key in groups[offset / FILTER_BASE]
  }

  ghost predicate BlockGrouped(t: Spec, groups: seq<seq<Bytes>>, i: nat) {
    && i < |t.handles| && i + 1 < |t.cuts| && t.cuts[i + 1] <= |t.es|
    && Grouped(t.es, t.cuts[i], t.cuts[i + 1], t.handles[i].offset, groups)
  }

  ghost predicate FilteredOk(t: Spec, groups: seq<seq<Bytes>>) {
    forall i :: 0 <= i < |t.handles| ==> BlockGrouped(t, groups, i)
  }

  function IndexPairs(t: Spec): (ps: seq<Pair>)
    requires |t.seps| <= |t.handles|
    ensures |ps| == |t.seps|
  {
    seq(|t.seps|, i requires 0 <= i < |t.seps| => Pair(t.seps[i], EncodeHandle(t.handles[i])))
  }

  // The index finds the right block

  lemma SepsIncrease(t: Spec)
    requires Ordered(t.es) && CutsOk(t) && SepsOk(t)
    ensures forall i, j :: 0 <= i < j < |t.seps| ==> Less(t.seps[i], t.seps[j])
  {
    forall i, j | 0 <= i < j < |t.seps| ensures Less(t.seps[i], t.seps[j]) {
      var p := t.cuts[j + 1] - 1;
      assert t.cuts[i + 1] <= p;
      assert Separates(t.es, t.cuts[i + 1], t.seps[i]) && Separates(t.es, t.cuts[j + 1], t.seps[j]);
      LessOrder(t.seps[i], t.es[p].key, t.seps[j]);
    }
  }

  /** The first entry not before a key. */
  ghost predicate IsFirst(es: seq<Pair>, k: Bytes, n: nat) {
    n <= |es| && (forall p :: 0 <= p < n ==> Less(es[p].key, k)) && forall p :: n <= p < |es| ==> !Less(es[p].key, k)
  }

  /** If `i` is the first index key not before `k`, the first entry not before `k` is in block `i`,
      or it starts the next block and belongs to another user key. */
  lemma IndexIsExact(t: Spec, k: Bytes, i: nat, n: nat)
    requires Ordered(t.es) && CutsOk(t) && SepsOk(t) && |k| >= 8 && IsFirst(t.es, k, n)
    requires i < |t.seps| && !Less(t.seps[i], k) && forall j :: 0 <= j < i ==> Less(t.seps[j], k)
    ensures t.cuts[i] <= n <= t.cuts[i + 1] <= |t.es|
    ensures n == t.cuts[i + 1] < |t.es| ==> UserOf(t.es[n].key) != UserOf(k)
  {
    assert Separates(t.es, t.cuts[i + 1], t.seps[i]);
    if i > 0 && n < t.cuts[i] {
      assert Separates(t.es, t.cuts[i], t.seps[i - 1]);
      LessOrder(t.es[n].key, t.seps[i - 1], k);
      assert false;
    }
    if t.cuts[i + 1] < n {
      LessOrder(t.seps[i], t.es[t.cuts[i + 1]].key, k);
      assert false;
    }
    if n == t.cuts[i + 1] < |t.es| {
      assert Less(t.es[n - 1].key, k);
      UserOrder(UserOf(t.seps[i]), UserOf(k), UserOf(t.es[n].key));
    }
  }

  /** If every index key is before `k`, so is every entry. */
  lemma PastTheIndex(t: Spec, k: Bytes, n: nat)
    requires Ordered(t.es) && CutsOk(t) && SepsOk(t) && IsFirst(t.es, k, n)
    requires |t.seps| == |t.handles| && t.cuts[|t.handles|] == |t.es|
    requires forall j :: 0 <= j < |t.seps| ==> Less(t.seps[j], k)
    ensures n == |t.es|
  {
    if n < |t.es| {
      var last := |t.seps| - 1;
      assert Separates(t.es, t.cuts[last + 1], t.seps[last]);
      LessOrder(t.es[n].key, t.seps[last], k);
    }
  }

  /** An entry a lookup for `k` may return: its user key, and no newer than `k` asks for. */
  predicate Wanted(p: Pair, k: Bytes) {
    UserOf(p.key) == UserOf(k) && TagOf(p.key) <= TagOf(k)
  }

  /** The first entry not before `k` is the newest that is wanted; and if it belongs to another user
      key, none is. */
  lemma FirstIsNewest(es: seq<Pair>, k: Bytes, n: nat)
    requires Ordered(es) && |k| >= 8 && IsFirst(es, k, n)
    ensures n < |es| && UserOf(es[n].key) == UserOf(k) ==>
              Wanted(es[n], k) && forall p :: 0 <= p < |es| && Wanted(es[p], k) ==> TagOf(es[p].key) <= TagOf(es[n].key)
    ensures !(n < |es| && UserOf(es[n].key) == UserOf(k)) ==> forall p :: 0 <= p < |es| ==> !Wanted(es[p], k)
  {
    forall p | 0 <= p < |es| && Wanted(es[p], k)
      ensures n <= p && UserOf(es[n].key) == UserOf(k) && TagOf(es[p].key) <= TagOf(es[n].key)
    {
      UserOrder(UserOf(k), UserOf(k), UserOf(k));
      assert !Less(es[p].key, k);
      UserOrder(UserOf(es[n].key), UserOf(k), UserOf(k));
      if n < p {
        assert Less(es[n].key, es[p].key) && !Less(es[n].key, k);
      }
    }
    if n < |es| {
      assert !Less(es[n].key, k);
    }
  }
}
