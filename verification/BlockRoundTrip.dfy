/** What BlockBuilder writes, Block::Iter can read. */
module BlockRoundTrip {
  import opened Keys
  import opened Coding
  import opened Block
  import opened BlockIter

  ghost function LayoutOf(es: seq<Pair>, interval: nat): Layout
    requires interval > 0
  {
    Layout(seq(|es| + 1, i requires 0 <= i <= |es| => Offset(es, i, interval)), Starts(|es|, interval),
           seq(|es|, i requires 0 <= i < |es| => Shared(es, i, interval)))
  }

  /** A key is no longer than the block: the bytes it shares are those of the one before. */
  lemma {:induction false} KeysAreShort(es: seq<Pair>, j: nat, interval: nat)
    requires j < |es| && interval > 0
    ensures |es[j].key| <= Offset(es, j + 1, interval)
  {
    if j > 0 && Shared(es, j, interval) > 0 {
      KeysAreShort(es, j - 1, interval);
    }
  }

  lemma ThreeParts(a: Bytes, b: Bytes, c: Bytes, n: nat)
    requires n <= |b|
    ensures (a + b + c)[..|a|] == a && (a + b + c)[|a| + n..] == (b + c)[n..] && (a + b + c)[|a| + |b|..] == c
  {
  }

  lemma EntryInside(data: Bytes, body: Bytes, o: nat, header: Bytes, keyPart: Bytes, value: Bytes, tail: Bytes)
    requires |body| <= |data| && data[..|body|] == body && o <= |body| && body[o..] == header + keyPart + value + tail
    ensures data[o..|body|] == header + keyPart + value + tail
    ensures data[o + |header|..o + |header| + |keyPart|] == keyPart
    ensures data[o + |header| + |keyPart|..o + |header| + |keyPart| + |value|] == value
  {
    var all := header + keyPart + value + tail;
    assert |all| == |body| - o;
    assert data[o..|body|] == all by {
      assert data[o..|body|] == data[..|body|][o..];
    }
    assert all[|header|..|header| + |keyPart|] == keyPart && all[|header| + |keyPart|..|header| + |keyPart| + |value|] == value;
    assert forall i :: 0 <= i < |all| ==> data[o + i] == all[i] by {
      assert forall i :: 0 <= i < |all| ==> data[o..|body|][i] == data[o + i];
    }
  }

  /** The bytes of a block: the entries, then the restart points, then their number. */
  lemma BlockShape(es: seq<Pair>, interval: nat)
    requires interval > 0 && |BlockBytes(es, interval)| < TWO32
    ensures var data, n, restarts := BlockBytes(es, interval), Offset(es, |es|, interval), Restarts(es, |es|, interval);
            && |data| == n + 4 * |restarts| + 4 && data[..n] == Body(es, |es|, interval)
            && |data[|data| - 4..]| == 4 && DecodeFixed32(data[|data| - 4..]) == |restarts|
            && forall r :: 0 <= r < |restarts| ==> data[n + 4 * r..] == (Fixed32s(restarts) + Fixed32(|restarts| % TWO32))[4 * r..]
  {
    var restarts := Restarts(es, |es|, interval);
    var body, count := Body(es, |es|, interval), Fixed32(|restarts| % TWO32);
    ThreeParts(body, Fixed32s(restarts), count, 0);
    forall r | 0 <= r < |restarts|
      ensures (body + Fixed32s(restarts) + count)[|body| + 4 * r..] == (Fixed32s(restarts) + count)[4 * r..]
    {
      ThreeParts(body, Fixed32s(restarts), count, 4 * r);
    }
    assert |restarts| < TWO32;
    CountReadBack(|restarts|);
  }

  lemma CountReadBack(n: nat)
    requires n < TWO32
    ensures DecodeFixed32(Fixed32(n % TWO32)) == n
  {
    var b := Fixed32(n % TWO32);
    Fixed32RoundTrip(n % TWO32, []);
    assert b + [] == b;
  }

  lemma RestartReadBack(xs: seq<nat>, r: nat, tail: Bytes)
    requires r < |xs| && xs[r] < TWO32
    ensures |(Fixed32s(xs) + tail)[4 * r..]| >= 4 && DecodeFixed32((Fixed32s(xs) + tail)[4 * r..]) == xs[r]
  {
    var rest := Fixed32s(xs[r + 1..]) + tail;
    Fixed32sAt(xs, r, tail);
    SmallMod(xs[r], TWO32);
    Fixed32RoundTrip(xs[r], rest);
    assert (Fixed32s(xs) + tail)[4 * r..] == Fixed32(xs[r]) + rest;
  }

  lemma RestartBytes(es: seq<Pair>, interval: nat, r: nat)
    requires interval > 0 && |BlockBytes(es, interval)| < TWO32
    requires var restarts := Restarts(es, |es|, interval); r < |restarts| && restarts[r] < TWO32
    ensures var data, at, restarts := BlockBytes(es, interval), Offset(es, |es|, interval) + 4 * r, Restarts(es, |es|, interval);
            at + 4 <= |data| && DecodeFixed32(data[at..]) == restarts[r]
  {
    var restarts := Restarts(es, |es|, interval);
    BlockShape(es, interval);
    RestartReadBack(restarts, r, Fixed32(|restarts| % TWO32));
  }

  lemma StartIsLaid(es: seq<Pair>, interval: nat, r: nat)
    requires interval > 0 && |BlockBytes(es, interval)| < TWO32 && r < |Starts(|es|, interval)|
    ensures StartLaid(BlockBytes(es, interval), Offset(es, |es|, interval), LayoutOf(es, interval), |es|, r)
  {
    var start := Starts(|es|, interval)[r];
    OffsetsGrow(es, start, |es|, interval);
    assert Restarts(es, |es|, interval)[r] == Offset(es, start, interval);
    RestartBytes(es, interval, r);
    assert start < |es| ==> Shared(es, start, interval) == 0;
  }

  lemma EntryIsLaid(es: seq<Pair>, interval: nat, i: nat)
    requires interval > 0 && |BlockBytes(es, interval)| < TWO32 && i < |es|
    ensures EntryLaid(BlockBytes(es, interval), Offset(es, |es|, interval), LayoutOf(es, interval), es, i)
  {
    var data, n, l := BlockBytes(es, interval), Offset(es, |es|, interval), LayoutOf(es, interval);
    var shared, key, value := Shared(es, i, interval), es[i].key, es[i].value;
    var tail := Tail(es, i + 1, |es|, interval);
    BlockShape(es, interval);
    KeysAreShort(es, i, interval);
    OffsetsGrow(es, i + 1, |es|, interval);
    EntryRest(es, interval, i);
    assert l.offs[i] == Offset(es, i, interval) && l.offs[i + 1] == Offset(es, i + 1, interval) && l.shared[i] == shared;
    LaidFromBytes(data, Body(es, |es|, interval), l, es, i, tail);
  }

  lemma LaidFromBytes(data: Bytes, body: Bytes, l: Layout, es: seq<Pair>, i: nat, tail: Bytes)
    requires |l.offs| == |es| + 1 && |l.shared| == |es| && i < |es|
    requires |body| <= |data| && data[..|body|] == body && l.offs[i] <= l.offs[i + 1] <= |body|
    requires l.shared[i] <= |es[i].key|
    requires l.shared[i] > 0 ==> i > 0 && l.shared[i] <= |es[i - 1].key| && es[i - 1].key[..l.shared[i]] == es[i].key[..l.shared[i]]
    requires |body| < TWO32 && |es[i].key| < TWO32
    requires var entry := EntryBytes(l.shared[i], es[i].key, es[i].value);
             body[l.offs[i]..] == entry + tail && l.offs[i + 1] == l.offs[i] + |entry|
    ensures EntryLaid(data, |body|, l, es, i)
  {
    var shared, key, value := l.shared[i], es[i].key, es[i].value;
    var header := HeaderBytes(shared, |key| - shared, |value|);
    EntryIsHeader(shared, key, value);
    EntryReadBack(shared, key, value, tail);
    EntryInside(data, body, l.offs[i], header, key[shared..], value, tail);
    assert data[l.offs[i]..|body|] == EntryBytes(shared, key, value) + tail;
    LaidFromParts(data, |body|, l, es, i, |header|);
  }

  lemma LaidFromParts(data: Bytes, restarts: nat, l: Layout, es: seq<Pair>, i: nat, n: nat)
    requires |l.offs| == |es| + 1 && |l.shared| == |es| && i < |es| && 0 < n && l.shared[i] <= |es[i].key|
    requires var o, nonShared, length := l.offs[i], |es[i].key| - l.shared[i], |es[i].value|;
             && o + n + nonShared + length == l.offs[i + 1] <= restarts <= |data|
             && DecodeEntry(data[o..restarts]) == Some(Header(l.shared[i], nonShared, length, n))
             && data[o + n..o + n + nonShared] == es[i].key[l.shared[i]..]
             && data[o + n + nonShared..o + n + nonShared + length] == es[i].value
    requires l.shared[i] > 0 ==> i > 0 && l.shared[i] <= |es[i - 1].key| && es[i - 1].key[..l.shared[i]] == es[i].key[..l.shared[i]]
    ensures EntryLaid(data, restarts, l, es, i)
  {
    assert l.offs[i] + n == l.offs[i + 1] - |es[i].value| - (|es[i].key| - l.shared[i]);
  }

  function HeaderBytes(shared: nat, nonShared: nat, valueLength: nat): (b: Bytes)
    ensures |b| == HeaderLength(shared, nonShared, valueLength)
  {
    Varint(shared) + Varint(nonShared) + Varint(valueLength)
  }

  lemma EntryIsHeader(shared: nat, key: Bytes, value: Bytes)
    requires shared <= |key|
    ensures EntryBytes(shared, key, value) == HeaderBytes(shared, |key| - shared, |value|) + key[shared..] + value
  {
  }

  lemma EntryRest(es: seq<Pair>, interval: nat, i: nat)
    requires interval > 0 && i < |es|
    ensures var shared, key, value := Shared(es, i, interval), es[i].key, es[i].value;
            && Offset(es, i, interval) <= |Body(es, |es|, interval)|
            && Body(es, |es|, interval)[Offset(es, i, interval)..] == EntryBytes(shared, key, value) + Tail(es, i + 1, |es|, interval)
            && Offset(es, i + 1, interval) == Offset(es, i, interval) + |EntryBytes(shared, key, value)|
  {
    BodyIs(es, i, |es|, interval);
  }

  /** Every block that is built, of any entries and any restart interval, can be read. */
  lemma BlockIsLaid(es: seq<Pair>, interval: nat)
    requires interval > 0 && |BlockBytes(es, interval)| < TWO32
    ensures Laid(BlockBytes(es, interval), Offset(es, |es|, interval), LayoutOf(es, interval), es)
  {
    var l := LayoutOf(es, interval);
    forall i | 0 <= i < |es| ensures EntryLaid(BlockBytes(es, interval), Offset(es, |es|, interval), l, es, i) {
      EntryIsLaid(es, interval, i);
    }
    forall r | 0 <= r < |l.starts| ensures StartLaid(BlockBytes(es, interval), Offset(es, |es|, interval), l, |es|, r) {
      StartIsLaid(es, interval, r);
    }
    forall i, j | 0 <= i < j <= |es| ensures l.offs[i] < l.offs[j] {
      OffsetsGrow(es, i, j, interval);
    }
    BlockShape(es, interval);
  }

  method BuildBlock(es: seq<Pair>, interval: nat) returns (block: Bytes)
    requires interval > 0
    ensures block == BlockBytes(es, interval)
  {
    var builder := new BlockBuilder(interval);
    for n := 0 to |es|
      invariant builder.Valid() && builder.interval == interval && builder.entries == es[..n] && fresh(builder)
    {
      TakeNext(es, n);
      builder.Add(es[n].key, es[n].value);
    }
    assert es[..|es|] == es;
    block := builder.Finish();
  }

  lemma TakeNext(es: seq<Pair>, n: nat)
    requires n < |es|
    ensures es[..n + 1] == es[..n] + [Pair(es[n].key, es[n].value)]
  {
  }

  method ReadForward(iter: Iter) returns (forward: seq<Pair>)
    requires iter.Valid()
    modifies iter
    ensures iter.Valid() && forward == iter.es
  {
    forward := [];
    iter.SeekToFirst();
    iter.Entry();
    while iter.IsValid()
      invariant iter.Valid() && forward == iter.es[..iter.pos] && (iter.IsValid() <==> iter.pos < |iter.es|)
      decreases |iter.es| - iter.pos
    {
      iter.Entry();
      forward := forward + [Pair(iter.key, iter.data[iter.valueAt..iter.valueAt + iter.valueLength])];
      iter.Next();
      iter.Entry();
    }
  }

  method ReadBackward(iter: Iter) returns (backward: seq<Pair>)
    requires iter.Valid()
    modifies iter
    ensures iter.Valid() && |backward| == |iter.es| && forall i :: 0 <= i < |iter.es| ==> backward[i] == iter.es[|iter.es| - 1 - i]
  {
    backward := [];
    iter.SeekToLast();
    iter.Entry();
    while iter.IsValid()
      invariant iter.Valid() && (iter.IsValid() <==> iter.pos < |iter.es|)
      invariant |backward| == if iter.pos < |iter.es| then |iter.es| - 1 - iter.pos else |iter.es|
      invariant forall i :: 0 <= i < |backward| ==> backward[i] == iter.es[|iter.es| - 1 - i]
      decreases |iter.es| - |backward|
    {
      iter.Entry();
      backward := backward + [Pair(iter.key, iter.data[iter.valueAt..iter.valueAt + iter.valueLength])];
      iter.Prev();
      iter.Entry();
    }
  }

  /** Builds a block, and reads it forward and backward. */
  method BuildThenRead(es: seq<Pair>, interval: nat, lt: (Bytes, Bytes) -> bool) returns (forward: seq<Pair>, backward: seq<Pair>)
    requires interval > 0 && |BlockBytes(es, interval)| < TWO32
    ensures forward == es
    ensures |backward| == |es| && forall i :: 0 <= i < |es| ==> backward[i] == es[|es| - 1 - i]
  {
    var block := BuildBlock(es, interval);
    BlockIsLaid(es, interval);
    var iter := new Iter(block, lt, es, LayoutOf(es, interval), Offset(es, |es|, interval));
    forward := ReadForward(iter);
    backward := ReadBackward(iter);
  }
}
