/** table/table_builder.cc and table/table.cc: building a table, and looking a key up in it. */
module Table {
  import opened Keys
  import opened Coding
  import opened LogFormat
  import opened Block
  import opened BlockIter
  import opened BlockRoundTrip
  import opened Filter
  import opened FilterBlock
  import opened Separator
  import opened TableFormat

  // The reader

  ghost predicate Complete(t: Spec) {
    CutsOk(t) && SepsOk(t) && Ordered(t.es) && |t.seps| == |t.handles| && t.cuts[|t.handles|] == |t.es|
  }

  /** Sizes the 32-bit offsets inside blocks, and the 64-bit ones of handles, can express. */
  ghost predicate SizesOk(t: Spec, interval: nat, file: Bytes)
    requires CutsOk(t) && |t.seps| <= |t.handles| && interval > 0
  {
    && |file| < TWO64 && |BlockBytes(IndexPairs(t), 1)| < TWO32
    && forall i :: 0 <= i < |t.handles| ==> t.handles[i].size < TWO32
  }

  /** Whether the filter is consulted, and what it has. */
  datatype FilterUse = NoFilter | UseFilter(policy: Bloom, contents: Bytes)

  ghost predicate FilterOk(f: FilterUse, t: Spec, filters: seq<Bytes>, groups: seq<seq<Bytes>>) {
    f.UseFilter? ==>
      && f.contents == FilterBytes(filters) && |f.contents| < TWO32 && |groups| == |filters| && FilteredOk(t, groups)
      && forall g :: 0 <= g < |groups| ==> Covers(f.policy, filters[g], groups[g])
  }

  lemma LessIsTransitive()
    ensures Transitive(Less)
  {
    forall a, b, c | Less(a, b) && Less(b, c) ensures Less(a, c) {
      LessOrder(a, b, c);
    }
  }

  /** NewIterator, Seek, and the key and value there. */
  method SeekBlock(contents: Bytes, k: Bytes, ghost es: seq<Pair>, ghost interval: nat) returns (found: bool, p: Pair, ghost n: nat)
    requires interval > 0 && |BlockBytes(es, interval)| < TWO32 && contents == BlockBytes(es, interval)
    requires Increasing(es, Less)
    ensures n <= |es| && found == (n < |es|) && (found ==> p == es[n])
    ensures forall j :: 0 <= j < |es| ==> (Less(es[j].key, k) <==> j < n)
  {
    BlockIsLaid(es, interval);
    LessIsTransitive();
    var iter := new Iter(contents, Less, es, LayoutOf(es, interval), Offset(es, |es|, interval));
    iter.Seek(k);
    iter.Entry();
    found, p, n := iter.IsValid(), Pair([], []), iter.pos;
    if found {
      p := Pair(iter.key, iter.data[iter.valueAt..iter.valueAt + iter.valueLength]);
    }
  }

  lemma IndexIncreases(t: Spec)
    requires Complete(t)
    ensures Increasing(IndexPairs(t), Less)
  {
    SepsIncrease(t);
  }

  /** Seeking the index. */
  method SeekIndex(index: Bytes, k: Bytes, ghost t: Spec, ghost n: nat) returns (h: Option<Bytes>, ghost i: nat)
    requires Complete(t) && |k| >= 8 && IsFirst(t.es, k, n)
    requires |index| < TWO32 && index == BlockBytes(IndexPairs(t), 1)
    ensures h.None? ==> n == |t.es|
    ensures h.Some? ==> i < |t.handles| && h.value == EncodeHandle(t.handles[i]) && t.cuts[i] <= n <= t.cuts[i + 1] <= |t.es|
    ensures h.Some? && n == t.cuts[i + 1] < |t.es| ==> UserOf(t.es[n].key) != UserOf(k)
  {
    ghost var ps := IndexPairs(t);
    IndexIncreases(t);
    var found, at;
    found, at, i := SeekBlock(index, k, ps, 1);
    assert forall j :: 0 <= j < |ps| ==> ps[j].key == t.seps[j];
    if found {
      h := Some(at.value);
      IndexIsExact(t, k, i, n);
    } else {
      h := None;
      PastTheIndex(t, k, n);
    }
  }

  /** BlockReader and the seek in the block. */
  method SeekData(c: Checksum, file: Bytes, handle: Handle, k: Bytes, ghost t: Spec, ghost interval: nat, ghost i: nat, ghost n: nat)
    returns (r: Option<Pair>)
    requires Complete(t) && interval > 0 && |k| >= 8 && IsFirst(t.es, k, n)
    requires BlockOk(c, file, interval, t, i) && handle == t.handles[i] && handle.size < TWO32
    requires t.cuts[i] <= n <= t.cuts[i + 1]
    ensures r == if n < t.cuts[i + 1] then Some(t.es[n]) else None
  {
    ghost var es := BlockEntries(t, i);
    ReadBlockIsExact(c, file, handle, BlockBytes(es, interval));
    var contents := ReadBlock(c, file, handle);
    if contents.None? {
      assert false;
      return;
    }
    var found, p;
    ghost var m;
    assert Increasing(es, Less);
    found, p, m := SeekBlock(contents.value, k, es, interval);
    InBlock(t, i, k, n, m);
    r := if found then Some(p) else None;
  }

  /** InternalGet: what it hands to the saver, if anything.  It is the first entry not before `k`,
      whenever that entry has the user key of `k`; and it is never any other entry. */
  method InternalGet(c: Checksum, file: Bytes, index: Bytes, filter: FilterUse, k: Bytes,
                     ghost t: Spec, ghost interval: nat, ghost filters: seq<Bytes>, ghost groups: seq<seq<Bytes>>, ghost n: nat)
    returns (r: Option<Pair>)
    requires Complete(t) && interval > 0 && BlocksOk(c, file, interval, t) && SizesOk(t, interval, file)
    requires index == BlockBytes(IndexPairs(t), 1) && FilterOk(filter, t, filters, groups)
    requires |k| >= 8 && IsFirst(t.es, k, n)
    ensures r.Some? ==> n < |t.es| && r.value == t.es[n]
    ensures n < |t.es| && UserOf(t.es[n].key) == UserOf(k) ==> r == Some(t.es[n])
  {
    ghost var i;
    var at;
    at, i := SeekIndex(index, k, t, n);
    if at.None? {
      return None;
    }
    assert BlockOk(c, file, interval, t, i);
    HandleReadBack(t.handles[i]);
    var handle := DecodeHandle(at.value);
    if handle.None? {
      assert false;
      return;
    }
    if filter.UseFilter? {
      var may := MayContain(filter.policy, filter.contents, handle.value.offset, k, filters, groups);
      if !may {
        if n < t.cuts[i + 1] {
          FilteredOut(t, groups, i, n, k);
        }
        return None;
      }
    }
    r := SeekData(c, file, handle.value, k, t, interval, i, n);
  }

  /** A key the filter turns down is not that of an entry in the block. */
  lemma FilteredOut(t: Spec, groups: seq<seq<Bytes>>, i: nat, n: nat, k: Bytes)
    requires CutsOk(t) && FilteredOk(t, groups) && i < |t.handles| && t.cuts[i] <= n < t.cuts[i + 1] <= |t.es|
    requires t.handles[i].offset / FILTER_BASE < |groups|
    requires forall x :: x in groups[t.handles[i].offset / FILTER_BASE] ==> UserOf(x) != UserOf(k)
    ensures UserOf(t.es[n].key) != UserOf(k)
  {
    assert BlockGrouped(t, groups, i);
  }

  /** The first entry of the block that is not before `k` is the first of all, if the block has it. */
  lemma InBlock(t: Spec, i: nat, k: Bytes, n: nat, m: nat)
    requires CutsOk(t) && i < |t.handles| && t.cuts[i] <= n <= t.cuts[i + 1] <= |t.es| && IsFirst(t.es, k, n)
    requires var b := BlockEntries(t, i); m <= |b| && forall j :: 0 <= j < |b| ==> (Less(b[j].key, k) <==> j < m)
    ensures m == n - t.cuts[i]
    ensures n < t.cuts[i + 1] ==> BlockEntries(t, i)[m] == t.es[n]
  {
    var b := BlockEntries(t, i);
    if m < |b| {
      assert !Less(b[m].key, k) && b[m] == t.es[t.cuts[i] + m];
    }
    if n < t.cuts[i + 1] {
      assert b[n - t.cuts[i]] == t.es[n];
    }
    if m > 0 {
      assert Less(b[m - 1].key, k) && b[m - 1] == t.es[t.cuts[i] + m - 1];
    }
    if n > t.cuts[i] {
      assert b[n - 1 - t.cuts[i]] == t.es[n - 1];
    }
  }
}
