/** table/filter_block.cc: filter number n is for the keys of the data blocks that start in the n-th
    2 KB of the file. */
module FilterBlock {
  import opened Keys
  import opened Coding
  import opened Block
  import opened BlockRoundTrip
  import opened Filter

  const FILTER_BASE_LG := 11
  const FILTER_BASE := 2048

  /** ExtractUserKey: an internal key without the eight bytes of sequence number and type. */
  function UserOf(key: Bytes): Bytes {
    if |key| < 8 then key else key[..|key| - 8]
  }

  // The format

  function Concat(fs: seq<Bytes>): Bytes {
    if fs == [] then [] else Concat(fs[..|fs| - 1]) + fs[|fs| - 1]
  }

  /** Where each filter starts, and where the last one ends. */
  function FilterOffsets(fs: seq<Bytes>): (offs: seq<nat>)
    ensures |offs| == |fs| + 1
    ensures offs[|fs|] == |Concat(fs)|
  {
    if fs == [] then [0] else FilterOffsets(fs[..|fs| - 1]) + [|Concat(fs)|]
  }

  function FilterBytes(fs: seq<Bytes>): Bytes {
    Concat(fs) + Fixed32s(FilterOffsets(fs)) + [FILTER_BASE_LG]
  }

  lemma {:induction false} FilterAt(fs: seq<Bytes>, g: nat)
    requires g < |fs|
    ensures var offs := FilterOffsets(fs); offs[g] <= offs[g + 1] <= |Concat(fs)| && Concat(fs)[offs[g]..offs[g + 1]] == fs[g]
  {
    var n := |fs| - 1;
    var before := Concat(fs[..n]);
    assert Concat(fs) == before + fs[n];
    if g < n {
      FilterAt(fs[..n], g);
      var offs := FilterOffsets(fs[..n]);
      assert (before + fs[n])[offs[g]..offs[g + 1]] == before[offs[g]..offs[g + 1]];
    } else {
      assert (before + fs[n])[|before|..|before| + |fs[n]|] == fs[n];
    }
  }

  /** Every key of the group may match its filter. */
  predicate Covers(p: Bloom, filter: Bytes, keys: seq<Bytes>) {
    forall i :: 0 <= i < |keys| ==> KeyMayMatch(p, UserOf(keys[i]), filter)
  }

  // The builder

  /** The keys since the last filter, end to end, and where each starts. */
  predicate Flattened(flat: Bytes, start: seq<nat>, keys: seq<Bytes>) {
    |start| == |keys| && forall i :: 0 <= i < |keys| ==> KeyAt(flat, start, i, keys[i])
  }

  predicate KeyAt(flat: Bytes, start: seq<nat>, i: nat, key: Bytes)
    requires i < |start|
  {
    && start[i] + |key| == (if i + 1 < |start| then start[i + 1] else |flat|)
    && start[i] + |key| <= |flat| && flat[start[i]..start[i] + |key|] == key
  }

  datatype FilterParts = FilterParts(
    flat: Bytes, start: seq<nat>, result: Bytes, filterOffsets: seq<nat>, filters: seq<Bytes>, groups: seq<seq<Bytes>>, pending: seq<Bytes>)

  /** The states the builder can be in. */
  ghost function FilterBuilders(policy: Bloom): iset<FilterParts> {
    iset p: FilterParts |
      && BloomOk(policy) && Flattened(p.flat, p.start, p.pending)
      && p.result == Concat(p.filters) && p.filterOffsets + [|p.result|] == FilterOffsets(p.filters)
      && |p.groups| == |p.filters| && forall g :: 0 <= g < |p.groups| ==> Covers(policy, p.filters[g], p.groups[g])
  }

  /** A filter for the pending keys; with none, the filter is empty and nothing is kept of the keys. */
  ghost function Generated(p: FilterParts, filter: Bytes): FilterParts {
    FilterParts(if p.start == [] then p.flat else [], [], p.result + filter, p.filterOffsets + [|p.result|],
                p.filters + [filter], p.groups + [p.pending], [])
  }

  lemma FilterKeeps(policy: Bloom, p: FilterParts, filter: Bytes)
    requires p in FilterBuilders(policy) && Covers(policy, filter, p.pending)
    ensures Generated(p, filter) in FilterBuilders(policy)
  {
    NextFilter(p.filters, filter);
    assert p.filterOffsets + [|p.result|] == FilterOffsets(p.filters);
    assert Concat(p.filters + [filter]) == p.result + filter;
  }

  /** The list of keys from the flattened structure, as InternalFilterPolicy passes it on. */
  method Unflatten(flat: Bytes, start: seq<nat>, ghost pending: seq<Bytes>) returns (keys: seq<Bytes>)
    requires Flattened(flat, start, pending)
    ensures |keys| == |pending| && forall k :: 0 <= k < |keys| ==> keys[k] == UserOf(pending[k])
  {
    var ends := start + [|flat|];
    keys := [];
    for i := 0 to |start|
      invariant |keys| == i && forall k :: 0 <= k < i ==> keys[k] == UserOf(pending[k])
    {
      assert KeyAt(flat, start, i, pending[i]);
      keys := keys + [UserOf(flat[ends[i]..ends[i + 1]])];
    }
  }

  class FilterBlockBuilder {
    const policy: Bloom
    var flat: Bytes
    var start: seq<nat>
    var result: Bytes
    var filterOffsets: seq<nat>
    /** The filters made, the keys of each, and the keys the next one will have. */
    ghost var filters: seq<Bytes>
    ghost var groups: seq<seq<Bytes>>
    ghost var pending: seq<Bytes>

    ghost function State(): FilterParts
      reads this
    {
      FilterParts(flat, start, result, filterOffsets, filters, groups, pending)
    }

    ghost predicate Valid()
      reads this
    {
      State() in FilterBuilders(policy)
    }

    constructor (policy: Bloom)
      requires BloomOk(policy)
      ensures Valid() && filters == [] && groups == [] && pending == [] && this.policy == policy
    {
      this.policy := policy;
      flat, start, result, filterOffsets := [], [], [], [];
      filters, groups, pending := [], [], [];
    }

    method AddKey(key: Bytes)
      requires Valid()
      modifies this
      ensures Valid() && pending == old(pending) + [key] && groups == old(groups) && filters == old(filters)
    {
      start := start + [|flat|];
      flat := flat + key;
      pending := pending + [key];
      FlattenedMore(old(flat), old(start), old(pending), key);
    }

    method GenerateFilter()
      requires Valid()
      modifies this
      ensures Valid() && pending == [] && groups == old(groups) + [old(pending)]
    {
      ghost var before := State();
      filterOffsets := filterOffsets + [|result|];
      var filter: Bytes := [];
      if |start| > 0 {
        var keys := Unflatten(flat, start, pending);
        filter := CreateFilter(policy, keys);
        result := result + filter;
        flat, start := [], [];
      }
      filters, groups, pending := filters + [filter], groups + [pending], [];
      FilterKeeps(policy, before, filter);
      assert State() == Generated(before, filter);
    }

    /** A data block starts at the offset: filters up to its number are generated. */
    method StartBlock(blockOffset: nat)
      requires Valid() && |groups| <= blockOffset / FILTER_BASE
      modifies this
      ensures Valid() && |groups| == blockOffset / FILTER_BASE && old(groups) <= groups
      ensures if |groups| == |old(groups)| then pending == old(pending) else pending == [] && groups[|old(groups)|] == old(pending)
    {
      while blockOffset / FILTER_BASE > |filterOffsets|
        invariant Valid() && |groups| <= blockOffset / FILTER_BASE && old(groups) <= groups && |filterOffsets| == |groups|
        invariant if |groups| == |old(groups)| then pending == old(pending) else pending == [] && groups[|old(groups)|] == old(pending)
        decreases blockOffset / FILTER_BASE - |filterOffsets|
      {
        GenerateFilter();
        assert |filterOffsets| + 1 == |FilterOffsets(filters)|;
      }
    }

    method Finish() returns (contents: Bytes)
      requires Valid()
      modifies this
      ensures |groups| == |filters| && forall g :: 0 <= g < |groups| ==> Covers(policy, filters[g], groups[g])
      ensures contents == FilterBytes(filters)
      ensures groups == if old(pending) == [] then old(groups) else old(groups) + [old(pending)]
    {
      if start != [] {
        GenerateFilter();
      }
      ghost var all := FilterOffsets(filters);
      ghost var data := result;
      var at := |result|;
      var i := 0;
      while i < |filterOffsets|
        modifies this`result
        invariant i <= |filterOffsets| && filterOffsets + [at] == all
        invariant result == data + Fixed32s(filterOffsets[..i])
      {
        NextOffset(data, filterOffsets, i);
        result := result + Fixed32(filterOffsets[i] % TWO32);
        i := i + 1;
      }
      LastOffset(data, filterOffsets, at);
      assert filterOffsets[..i] == filterOffsets;
      result := result + Fixed32(at % TWO32);
      result := result + [FILTER_BASE_LG];
      contents := result;
    }
  }

  lemma FlattenedMore(flat: Bytes, start: seq<nat>, keys: seq<Bytes>, key: Bytes)
    requires Flattened(flat, start, keys)
    ensures Flattened(flat + key, start + [|flat|], keys + [key])
  {
    var flat', start', keys' := flat + key, start + [|flat|], keys + [key];
    forall i | 0 <= i < |keys'|
      ensures KeyAt(flat', start', i, keys'[i])
    {
      if i < |keys| {
        var from, to := start[i], start[i] + |keys[i]|;
        assert KeyAt(flat, start, i, keys[i]);
        assert start'[i] == from && keys'[i] == keys[i];
        assert flat'[from..to] == flat[from..to];
        assert start'[i + 1] == if i + 1 < |start| then start[i + 1] else |flat|;
      } else {
        assert start'[i] == |flat| && keys'[i] == key;
      }
    }
  }

  lemma NextFilter(fs: seq<Bytes>, f: Bytes)
    ensures Concat(fs + [f]) == Concat(fs) + f && FilterOffsets(fs + [f]) == FilterOffsets(fs) + [|Concat(fs) + f|]
  {
    assert (fs + [f])[..|fs|] == fs;
  }

  lemma NextOffset(data: Bytes, xs: seq<nat>, i: nat)
    requires i < |xs|
    ensures data + Fixed32s(xs[..i]) + Fixed32(xs[i] % TWO32) == data + Fixed32s(xs[..i + 1])
  {
    Fixed32sSnoc(xs[..i], xs[i]);
    assert xs[..i + 1] == xs[..i] + [xs[i]];
  }

  lemma LastOffset(data: Bytes, xs: seq<nat>, at: nat)
    ensures data + Fixed32s(xs) + Fixed32(at % TWO32) == data + Fixed32s(xs + [at])
  {
    Fixed32sSnoc(xs, at);
  }

  // The reader

  class FilterBlockReader {
    const policy: Bloom
    const data: Bytes
    const offset: nat
    const num: nat
    const baseLg: nat

    constructor (policy: Bloom, contents: Bytes)
      ensures this.policy == policy && data == contents
      ensures |contents| < 5 ==> num == 0
      ensures |contents| >= 5 && DecodeFixed32(contents[|contents| - 5..]) > |contents| - 5 ==> num == 0
      ensures |contents| >= 5 && DecodeFixed32(contents[|contents| - 5..]) <= |contents| - 5 ==>
                && baseLg == contents[|contents| - 1] && offset == DecodeFixed32(contents[|contents| - 5..])
                && num == (|contents| - 5 - offset) / 4
    {
      var n: nat := |contents|;
      var lastWord: nat := if n < 5 then 0 else DecodeFixed32(contents[n - 5..]);
      var good := n >= 5 && lastWord <= n - 5;
      this.policy, data := policy, contents;
      offset := if good then lastWord else 0;
      num := if good then (n - 5 - lastWord) / 4 else 0;
      baseLg := if n < 5 then 0 else contents[n - 1];
    }

    method MayMatchAt(blockOffset: nat, key: Bytes, ghost filters: seq<Bytes>) returns (may: bool)
      requires |FilterBytes(filters)| < TWO32 && data == FilterBytes(filters)
      requires num == |filters| && baseLg == FILTER_BASE_LG && offset == |Concat(filters)|
      ensures var index := blockOffset / FILTER_BASE;
              may == if index < |filters| then KeyMayMatch(policy, UserOf(key), filters[index]) else true
    {
      Pow2Eleven();
      var index := blockOffset / Pow2(baseLg);
      if index < num {
        OffsetAt(filters, index, offset + 4 * index);
        OffsetAt(filters, index + 1, offset + 4 * index + 4);
        FilterAt(filters, index);
        FilterSlice(filters, index);
        var start := DecodeFixed32(data[offset + 4 * index..]);
        var limit := DecodeFixed32(data[offset + 4 * index + 4..]);
        if start <= limit && limit <= offset {
          may := MayMatch(policy, UserOf(key), data[start..limit]);
          return;
        } else if start == limit {
          return false;
        }
      }
      may := true;
    }
  }

  lemma Pow2Eleven()
    ensures Pow2(FILTER_BASE_LG) == FILTER_BASE
  {
    assert Pow2(4) == 16 && Pow2(8) == 256;
  }

  lemma From(a: Bytes, b: Bytes, c: Bytes, n: nat, all: Bytes, at: nat)
    requires all == a + b + c && n <= |b| && at == |a| + n
    ensures at <= |all| && all[at..] == (b + c)[n..]
  {
  }

  lemma Parts(a: Bytes, b: Bytes, c: Bytes, n: nat)
    requires n <= |b|
    ensures (a + b + c)[|a| + n..] == (b + c)[n..] && (a + b + c)[..|a|] == a
  {
  }

  lemma OffsetAt(fs: seq<Bytes>, g: nat, at: nat)
    requires g <= |fs| && |FilterBytes(fs)| < TWO32 && at == |Concat(fs)| + 4 * g
    ensures at + 4 <= |FilterBytes(fs)| && DecodeFixed32(FilterBytes(fs)[at..]) == FilterOffsets(fs)[g]
  {
    OffsetSmall(fs, g);
    OffsetIn(FilterBytes(fs), Concat(fs), FilterOffsets(fs), g, at);
  }

  lemma OffsetSmall(fs: seq<Bytes>, g: nat)
    requires g <= |fs| && |FilterBytes(fs)| < TWO32
    ensures FilterOffsets(fs)[g] <= |Concat(fs)| < TWO32
  {
    if g < |fs| {
      FilterAt(fs, g);
    }
  }

  lemma OffsetIn(b: Bytes, data: Bytes, offs: seq<nat>, g: nat, at: nat)
    requires g < |offs| && offs[g] < TWO32 && b == data + Fixed32s(offs) + [FILTER_BASE_LG] && at == |data| + 4 * g
    ensures at + 4 <= |b| && DecodeFixed32(b[at..]) == offs[g]
  {
    From(data, Fixed32s(offs), [FILTER_BASE_LG], 4 * g, b, at);
    RestartReadBack(offs, g, [FILTER_BASE_LG]);
  }

  lemma FilterSlice(fs: seq<Bytes>, g: nat)
    requires g < |fs|
    ensures var offs := FilterOffsets(fs);
            offs[g] <= offs[g + 1] <= |Concat(fs)| <= |FilterBytes(fs)| && FilterBytes(fs)[offs[g]..offs[g + 1]] == fs[g]
  {
    var offs := FilterOffsets(fs);
    FilterAt(fs, g);
    Parts(Concat(fs), Fixed32s(offs), [FILTER_BASE_LG], 0);
    assert FilterBytes(fs)[offs[g]..offs[g + 1]] == FilterBytes(fs)[..|Concat(fs)|][offs[g]..offs[g + 1]];
  }

  /** What the reader's constructor finds in a filter block. */
  lemma ReaderFinds(fs: seq<Bytes>)
    requires |FilterBytes(fs)| < TWO32
    ensures var contents, n := FilterBytes(fs), |FilterBytes(fs)|;
            && n >= 5 && contents[n - 1] == FILTER_BASE_LG && DecodeFixed32(contents[n - 5..]) == |Concat(fs)| <= n - 5
            && (n - 5 - |Concat(fs)|) / 4 == |fs|
  {
    FilterLength(fs);
    LengthParts(|FilterBytes(fs)|, |Concat(fs)|, |fs|);
    EndOfOffsets(fs, |FilterBytes(fs)| - 5);
  }

  lemma EndOfOffsets(fs: seq<Bytes>, at: nat)
    requires |FilterBytes(fs)| < TWO32 && at == |Concat(fs)| + 4 * |fs|
    ensures at + 4 <= |FilterBytes(fs)| && DecodeFixed32(FilterBytes(fs)[at..]) == |Concat(fs)|
  {
    OffsetAt(fs, |fs|, at);
  }

  lemma LengthParts(n: nat, flat: nat, count: nat)
    requires n == flat + 4 * count + 5
    ensures n - 5 == flat + 4 * count && flat <= n - 5 && (n - 5 - flat) / 4 == count
  {
  }

  lemma FilterLength(fs: seq<Bytes>)
    ensures |FilterBytes(fs)| == |Concat(fs)| + 4 * |fs| + 5 && FilterBytes(fs)[|FilterBytes(fs)| - 1] == FILTER_BASE_LG
  {
  }

  /** No false negatives: when the filter turns a key down, no key of the group for the block's
      offset has the same user key. */
  method MayContain(policy: Bloom, contents: Bytes, blockOffset: nat, key: Bytes, ghost filters: seq<Bytes>, ghost groups: seq<seq<Bytes>>)
    returns (may: bool)
    requires contents == FilterBytes(filters) && |contents| < TWO32 && |groups| == |filters|
    requires forall g :: 0 <= g < |groups| ==> Covers(policy, filters[g], groups[g])
    ensures !may ==> blockOffset / FILTER_BASE < |groups|
    ensures !may ==> forall x :: x in groups[blockOffset / FILTER_BASE] ==> UserOf(x) != UserOf(key)
  {
    ReaderFinds(filters);
    var reader := new FilterBlockReader(policy, contents);
    may := reader.MayMatchAt(blockOffset, key, filters);
    assert !may ==> Covers(policy, filters[blockOffset / FILTER_BASE], groups[blockOffset / FILTER_BASE]);
  }
}
